/**
 What `DoQuery` returns for a query of each builder method, said of the columns
 of the database itself.
 */
module QueryAnswers {
  import opened Options
  import opened GoStrings
  import opened Results
  import opened Queries
  import opened Tables
  import opened DoQuery
  import opened MakeWhereClause
  import Glob

  type Result = seq<Repository<TaggedImage, TaggedImageList>>

  /** The images of a tagged list that meet a condition under one of the list's tags in the repository. */
  ghost function ListImagesWhere(db: Db, repository: string, list: Digest, p: (Key, ImageRow) -> bool): set<Digest> {
    set e | e in db.entries && e.0 == list && e.1 in db.images
            && exists k :: k in db.listTags && k.0 == repository && db.listTags[k] == list && p(k, db.images[e.1])
      :: e.1
  }

  /** The repository and digest of each tagged image that meets the condition. */
  function ImagesWhere(db: Db, p: (Key, ImageRow) -> bool): set<(string, Digest)> {
    set k | k in db.imageTags && db.imageTags[k] in db.images && p(k, db.images[db.imageTags[k]])
      :: (k.0, db.imageTags[k])
  }

  /** The repository and digest of each tagged list with such an image. */
  ghost function ListsWhere(db: Db, p: (Key, ImageRow) -> bool): set<(string, Digest)> {
    set k | k in db.listTags && db.listTags[k] in db.lists && ListImagesWhere(db, k.0, db.listTags[k], p) != {}
      :: (k.0, db.listTags[k])
  }

  /**
   The result has exactly the images that meet the condition and the lists with
   such an image, each once under its repository, with the rows the database
   has for them and their tags; and a list comes with exactly those of its images.
   */
  ghost predicate Finds(db: Db, result: Result, p: (Key, ImageRow) -> bool) {
    && Enumerates(ImageKeys(ImageRows(result)), ImagesWhere(db, p))
    && Enumerates(ListKeys(ListRows(result)), ListsWhere(db, p))
    && (forall i :: 0 <= i < |ImageRows(result)| ==> FoundImage(db, ImageRows(result)[i].1))
    && (forall i :: 0 <= i < |ListRows(result)| ==> FoundList(db, ListRows(result)[i].0, ListRows(result)[i].1, p))
  }

  ghost predicate FoundImage(db: Db, image: TaggedImage) {
    && image.digest in db.images && image.image == db.images[image.digest]
    && AllTags(db.imageTags, image.digest, image.tags)
  }

  /** The sorted tags of the digest in all repositories, each as often as it occurs. */
  ghost predicate AllTags(table: TagTable, d: Digest, tags: seq<string>) {
    Sorted(tags) && forall t :: multiset(tags)[t] == |set k | k in table && k.1 == t && table[k] == d|
  }

  lemma TagsOfBag(table: TagTable, d: Digest, tags: seq<string>)
    requires Sorted(tags) && multiset(tags) == TagBag(KeysOf(table, d))
    ensures AllTags(table, d, tags)
  {
    forall t
      ensures multiset(tags)[t] == |set k | k in table && k.1 == t && table[k] == d|
    {
      BagCount(KeysOf(table, d), t);
      assert WithTag(KeysOf(table, d), t) == set k | k in table && k.1 == t && table[k] == d;
    }
  }

  ghost predicate FoundList(db: Db, repository: string, list: TaggedImageList, p: (Key, ImageRow) -> bool) {
    && list.digest in db.lists && list.list == db.lists[list.digest]
    && AllTags(db.listTags, list.digest, list.tags)
    && list.images.Keys == ListImagesWhere(db, repository, list.digest, p)
    && (forall d :: d in list.images ==> d in db.images && list.images[d] == db.images[d])
  }

  lemma SelectedWhere(db: Db, repository: string, list: Digest, sel: Row -> bool, p: (Key, ImageRow) -> bool)
    requires forall k, image :: sel(JoinedRow(k, image)) <==> p(k, image)
    ensures SelectedImages(db, repository, list, sel).Keys == ListImagesWhere(db, repository, list, p)
  {
  }

  lemma PairsWhere(db: Db, sel: Row -> bool, p: (Key, ImageRow) -> bool)
    requires forall k, image :: sel(JoinedRow(k, image)) <==> p(k, image)
    ensures ImagePairs(db, sel) == ImagesWhere(db, p) && ListPairs(db, sel) == ListsWhere(db, p)
  {
    forall k | k in db.listTags && db.listTags[k] in db.lists
      ensures SelectedImages(db, k.0, db.listTags[k], sel) != map[]
         <==> ListImagesWhere(db, k.0, db.listTags[k], p) != {}
    {
      var images := SelectedImages(db, k.0, db.listTags[k], sel);
      SelectedWhere(db, k.0, db.listTags[k], sel, p);
      assert images != map[] <==> images.Keys != {};
    }
  }

  /** A selection that tests the condition on each joined row finds what meets the condition. */
  lemma SelectionFinds(db: Db, result: Result, sel: Row -> bool, p: (Key, ImageRow) -> bool)
    requires forall k, image :: sel(JoinedRow(k, image)) <==> p(k, image)
    requires ImageStream(db, ImagePairs(db, sel), ImageRows(result))
    requires ListStream(db, sel, ListPairs(db, sel), ListRows(result))
    requires forall i :: 0 <= i < |ImageRows(result)| ==> Sorted(ImageRows(result)[i].1.tags)
    requires forall i :: 0 <= i < |ListRows(result)| ==> Sorted(ListRows(result)[i].1.tags)
    ensures Finds(db, result, p)
  {
    PairsWhere(db, sel, p);
    forall i | 0 <= i < |ListRows(result)|
      ensures FoundList(db, ListRows(result)[i].0, ListRows(result)[i].1, p)
    {
      assert RightList(db, sel, ListRows(result)[i]);
      SelectedWhere(db, ListRows(result)[i].0, ListRows(result)[i].1.digest, sel, p);
      TagsOfBag(db.listTags, ListRows(result)[i].1.digest, ListRows(result)[i].1.tags);
    }
    forall i | 0 <= i < |ImageRows(result)|
      ensures FoundImage(db, ImageRows(result)[i].1)
    {
      assert RightImage(db, ImageRows(result)[i]);
      TagsOfBag(db.imageTags, ImageRows(result)[i].1.digest, ImageRows(result)[i].1.tags);
    }
  }

  /** A query of one call asks for that call's term. */
  lemma OneCall(call: Call)
    requires Callable(call)
    ensures var q := Append(EMPTY_QUERY, call.field, call.term);
            && WellBuilt(q) && (CallsBackslashFree([call]) ==> BackslashFree(q))
            && forall row :: Answers(row, q) <==> Satisfies(row, call.field, call.term)
  {
    var calls := [call];
    assert calls[..0] == [];
    assert Build(calls) == Append(EMPTY_QUERY, call.field, call.term);
    BuildWellBuilt(calls);
    BuiltBackslashFree(calls);
    forall row
      ensures Answers(row, Build(calls)) <==> Satisfies(row, call.field, call.term)
    {
      BuildMeans(calls, row);
      assert call in calls;
      assert AnswersCalls(row, calls) <==> FieldAnswered(row, calls, call.field);
    }
  }

  method FindRepository(db: Db, name: string) returns (result: Result)
    ensures Finds(db, result, (k: Key, image: ImageRow) => k.0 == name)
  {
    var query := new Query();
    query.AddRepository(name);
    OneCall(Call(Plain(Column.Repository), QueryTerm(QueryIs, name)));
    result := DoQuery.Run(db, query);
    ghost var p := (k: Key, image: ImageRow) => k.0 == name;
    SelectionFinds(db, result, Answering(query.Data()), p);
  }

  method FindTag(db: Db, tag: string) returns (result: Result)
    ensures Finds(db, result, (k: Key, image: ImageRow) => k.1 == tag)
  {
    var query := new Query();
    query.AddTag(tag);
    OneCall(Call(Plain(Tag), QueryTerm(QueryIs, tag)));
    result := DoQuery.Run(db, query);
    ghost var p := (k: Key, image: ImageRow) => k.1 == tag;
    SelectionFinds(db, result, Answering(query.Data()), p);
  }

  method FindTagMatches(db: Db, pattern: string) returns (result: Result)
    ensures '\\' !in pattern ==> Finds(db, result, (k: Key, image: ImageRow) => Glob.Matches(pattern, k.1))
  {
    var query := new Query();
    query.AddTagMatches(pattern);
    OneCall(Call(Plain(Tag), QueryTerm(QueryMatches, pattern)));
    result := DoQuery.Run(db, query);
    ghost var p := (k: Key, image: ImageRow) => Glob.Matches(pattern, k.1);
    if '\\' !in pattern {
      SelectionFinds(db, result, Answering(query.Data()), p);
    }
  }

  method FindOS(db: Db, os: string) returns (result: Result)
    ensures Finds(db, result, (k: Key, image: ImageRow) => image.os == os)
  {
    var query := new Query();
    query.AddOS(os);
    OneCall(Call(Plain(OS), QueryTerm(QueryIs, os)));
    result := DoQuery.Run(db, query);
    ghost var p := (k: Key, image: ImageRow) => image.os == os;
    SelectionFinds(db, result, Answering(query.Data()), p);
  }

  method FindArchitecture(db: Db, architecture: string) returns (result: Result)
    ensures Finds(db, result, (k: Key, image: ImageRow) => image.architecture == architecture)
  {
    var query := new Query();
    query.AddArchitecture(architecture);
    OneCall(Call(Plain(Architecture), QueryTerm(QueryIs, architecture)));
    result := DoQuery.Run(db, query);
    ghost var p := (k: Key, image: ImageRow) => image.architecture == architecture;
    SelectionFinds(db, result, Answering(query.Data()), p);
  }

  method FindAnnotationExists(db: Db, key: string) returns (result: Result)
    ensures Finds(db, result, (k: Key, image: ImageRow) => key in image.annotations)
  {
    var query := new Query();
    query.AddAnnotationExists(key);
    OneCall(Call(Keyed(Annotations, key), QueryTerm(QueryExists, "")));
    result := DoQuery.Run(db, query);
    ghost var p := (k: Key, image: ImageRow) => key in image.annotations;
    SelectionFinds(db, result, Answering(query.Data()), p);
  }

  method FindAnnotationIs(db: Db, key: string, value: string) returns (result: Result)
    ensures Finds(db, result, (k: Key, image: ImageRow) => key in image.annotations && image.annotations[key] == value)
  {
    var query := new Query();
    query.AddAnnotationIs(key, value);
    OneCall(Call(Keyed(Annotations, key), QueryTerm(QueryIs, value)));
    result := DoQuery.Run(db, query);
    ghost var p := (k: Key, image: ImageRow) => key in image.annotations && image.annotations[key] == value;
    SelectionFinds(db, result, Answering(query.Data()), p);
  }

  method FindAnnotationMatches(db: Db, key: string, pattern: string) returns (result: Result)
    ensures '\\' !in pattern ==>
              Finds(db, result, (k: Key, image: ImageRow) =>
                                  key in image.annotations && Glob.Matches(pattern, image.annotations[key]))
  {
    var query := new Query();
    query.AddAnnotationMatches(key, pattern);
    OneCall(Call(Keyed(Annotations, key), QueryTerm(QueryMatches, pattern)));
    result := DoQuery.Run(db, query);
    ghost var p := (k: Key, image: ImageRow) =>
                     key in image.annotations && Glob.Matches(pattern, image.annotations[key]);
    if '\\' !in pattern {
      SelectionFinds(db, result, Answering(query.Data()), p);
    }
  }

  method FindLabelExists(db: Db, key: string) returns (result: Result)
    ensures Finds(db, result, (k: Key, image: ImageRow) => key in image.labels)
  {
    var query := new Query();
    query.AddLabelExists(key);
    OneCall(Call(Keyed(Labels, key), QueryTerm(QueryExists, "")));
    result := DoQuery.Run(db, query);
    ghost var p := (k: Key, image: ImageRow) => key in image.labels;
    SelectionFinds(db, result, Answering(query.Data()), p);
  }

  method FindLabelIs(db: Db, key: string, value: string) returns (result: Result)
    ensures Finds(db, result, (k: Key, image: ImageRow) => key in image.labels && image.labels[key] == value)
  {
    var query := new Query();
    query.AddLabelIs(key, value);
    OneCall(Call(Keyed(Labels, key), QueryTerm(QueryIs, value)));
    result := DoQuery.Run(db, query);
    ghost var p := (k: Key, image: ImageRow) => key in image.labels && image.labels[key] == value;
    SelectionFinds(db, result, Answering(query.Data()), p);
  }

  method FindLabelMatches(db: Db, key: string, pattern: string) returns (result: Result)
    ensures '\\' !in pattern ==>
              Finds(db, result, (k: Key, image: ImageRow) =>
                                  key in image.labels && Glob.Matches(pattern, image.labels[key]))
  {
    var query := new Query();
    query.AddLabelMatches(key, pattern);
    OneCall(Call(Keyed(Labels, key), QueryTerm(QueryMatches, pattern)));
    result := DoQuery.Run(db, query);
    ghost var p := (k: Key, image: ImageRow) =>
                     key in image.labels && Glob.Matches(pattern, image.labels[key]);
    if '\\' !in pattern {
      SelectionFinds(db, result, Answering(query.Data()), p);
    }
  }

  predicate BothOrEither(row: Row, a: Call, b: Call) {
    if a.field == b.field then Satisfies(row, a.field, a.term) || Satisfies(row, b.field, b.term)
    else Satisfies(row, a.field, a.term) && Satisfies(row, b.field, b.term)
  }

  /** Calls about one field are alternatives; calls about two fields must both hold. */
  lemma TwoCalls(a: Call, b: Call)
    requires Callable(a) && Callable(b)
    ensures var q := Append(Append(EMPTY_QUERY, a.field, a.term), b.field, b.term);
            && WellBuilt(q) && (CallsBackslashFree([a, b]) ==> BackslashFree(q))
            && forall row :: Answers(row, q) <==> BothOrEither(row, a, b)
  {
    var calls := [a, b];
    assert calls[..1] == [a] && [a][..0] == [];
    assert Build([a]) == Append(EMPTY_QUERY, a.field, a.term);
    BuildWellBuilt(calls);
    BuiltBackslashFree(calls);
    forall row
      ensures Answers(row, Build(calls)) <==> BothOrEither(row, a, b)
    {
      BuildMeans(calls, row);
      assert a in calls && b in calls;
      assert AnswersCalls(row, calls) <==> FieldAnswered(row, calls, a.field) && FieldAnswered(row, calls, b.field);
    }
  }

  /** Calls about different columns must both hold. */
  method FindPlatform(db: Db, os: string, architecture: string) returns (result: Result)
    ensures Finds(db, result, (k: Key, image: ImageRow) => image.os == os && image.architecture == architecture)
  {
    var query := new Query();
    query.AddOS(os);
    query.AddArchitecture(architecture);
    TwoCalls(Call(Plain(OS), QueryTerm(QueryIs, os)), Call(Plain(Architecture), QueryTerm(QueryIs, architecture)));
    result := DoQuery.Run(db, query);
    ghost var p := (k: Key, image: ImageRow) => image.os == os && image.architecture == architecture;
    SelectionFinds(db, result, Answering(query.Data()), p);
  }

  /** Of calls about the same column one is enough. */
  method FindEitherTag(db: Db, tag: string, other: string) returns (result: Result)
    ensures Finds(db, result, (k: Key, image: ImageRow) => k.1 == tag || k.1 == other)
  {
    var query := new Query();
    query.AddTag(tag);
    query.AddTag(other);
    TwoCalls(Call(Plain(Tag), QueryTerm(QueryIs, tag)), Call(Plain(Tag), QueryTerm(QueryIs, other)));
    result := DoQuery.Run(db, query);
    ghost var p := (k: Key, image: ImageRow) => k.1 == tag || k.1 == other;
    SelectionFinds(db, result, Answering(query.Data()), p);
  }

  /** A query without calls finds everything that is tagged. */
  method FindAll(db: Db) returns (result: Result)
    ensures Finds(db, result, (k: Key, image: ImageRow) => true)
  {
    var query := new Query();
    BuildWellBuilt([]);
    BuiltBackslashFree([]);
    forall row {
      BuildMeans([], row);
    }
    result := DoQuery.Run(db, query);
    ghost var p := (k: Key, image: ImageRow) => true;
    SelectionFinds(db, result, Answering(query.Data()), p);
  }
}
