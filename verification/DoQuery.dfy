/**
 `DoQuery` from end to end: compile the query, let the database evaluate the
 clause on its rows, group and merge the two row streams, sort the tags.
 */
module DoQuery {
  import opened Collections
  import opened GoStrings
  import opened Results
  import opened Queries
  import opened Tables
  import MakeWhereClause
  import Sql

  datatype TaggedImage = TaggedImage(digest: Digest, image: ImageRow, tags: seq<string>)

  datatype TaggedImageList = TaggedImageList(
    digest: Digest,
    list: ListRow,
    images: map<Digest, ImageRow>,
    tags: seq<string>)

  // ----- What the database sends -----

  function ImagePairs(db: Db, sel: Row -> bool): set<(string, Digest)> {
    set k | k in db.imageTags && ImageSelected(db, k, sel) :: (k.0, db.imageTags[k])
  }

  function ListPairs(db: Db, sel: Row -> bool): set<(string, Digest)> {
    set k | k in db.listTags && ListSelected(db, k, sel) :: (k.0, db.listTags[k])
  }

  ghost predicate RightImage(db: Db, row: (string, TaggedImage)) {
    var d := row.1.digest;
    d in db.images && row.1.image == db.images[d] && multiset(row.1.tags) == TagBag(KeysOf(db.imageTags, d))
  }

  ghost predicate RightList(db: Db, sel: Row -> bool, row: (string, TaggedImageList)) {
    var d := row.1.digest;
    && d in db.lists && row.1.list == db.lists[d]
    && row.1.images == SelectedImages(db, row.0, d, sel)
    && multiset(row.1.tags) == TagBag(KeysOf(db.listTags, d))
  }

  /** The sequence lists the set, each element once. */
  ghost predicate Enumerates<T(!new)>(xs: seq<T>, s: set<T>) {
    && (forall x :: x in xs <==> x in s)
    && (forall i, j :: 0 <= i < j < |xs| ==> xs[i] != xs[j])
  }

  lemma EnumeratesSnoc<T(!new)>(xs: seq<T>, s: set<T>, x: T)
    requires Enumerates(xs, s) && x !in s
    ensures Enumerates(xs + [x], s + {x})
  {
  }

  function ImageKeys(rows: seq<(string, TaggedImage)>): (r: seq<(string, Digest)>)
    ensures |r| == |rows|
  {
    seq(|rows|, i requires 0 <= i < |rows| => (rows[i].0, rows[i].1.digest))
  }

  function ListKeys(rows: seq<(string, TaggedImageList)>): (r: seq<(string, Digest)>)
    ensures |r| == |rows|
  {
    seq(|rows|, i requires 0 <= i < |rows| => (rows[i].0, rows[i].1.digest))
  }

  /** One right row for each pair, in any order. */
  ghost predicate ImageStream(db: Db, pairs: set<(string, Digest)>, rows: seq<(string, TaggedImage)>) {
    Enumerates(ImageKeys(rows), pairs) && forall i :: 0 <= i < |rows| ==> RightImage(db, rows[i])
  }

  ghost predicate ListStream(db: Db, sel: Row -> bool, pairs: set<(string, Digest)>,
                             rows: seq<(string, TaggedImageList)>) {
    Enumerates(ListKeys(rows), pairs) && forall i :: 0 <= i < |rows| ==> RightList(db, sel, rows[i])
  }

  /** `jsonb_agg`, in any order. */
  method CollectTags(keys: set<Key>) returns (tags: seq<string>)
    ensures multiset(tags) == TagBag(keys)
  {
    tags := [];
    var left := keys;
    while left != {}
      invariant left <= keys
      invariant multiset(tags) == TagBag(keys - left)
    {
      var k :| k in left;
      BagInsert(keys - left, k);
      assert keys - (left - {k}) == (keys - left) + {k};
      tags := tags + [k.1];
      left := left - {k};
    }
    assert keys - left == keys;
  }

  lemma ImageStreamSnoc(db: Db, pairs: set<(string, Digest)>,
                        rows: seq<(string, TaggedImage)>, row: (string, TaggedImage))
    requires ImageStream(db, pairs, rows) && (row.0, row.1.digest) !in pairs && RightImage(db, row)
    ensures ImageStream(db, pairs + {(row.0, row.1.digest)}, rows + [row])
  {
    EnumeratesSnoc(ImageKeys(rows), pairs, (row.0, row.1.digest));
    assert ImageKeys(rows + [row]) == ImageKeys(rows) + [(row.0, row.1.digest)];
  }

  lemma ListStreamSnoc(db: Db, sel: Row -> bool, pairs: set<(string, Digest)>,
                       rows: seq<(string, TaggedImageList)>, row: (string, TaggedImageList))
    requires ListStream(db, sel, pairs, rows) && (row.0, row.1.digest) !in pairs && RightList(db, sel, row)
    ensures ListStream(db, sel, pairs + {(row.0, row.1.digest)}, rows + [row])
  {
    EnumeratesSnoc(ListKeys(rows), pairs, (row.0, row.1.digest));
    assert ListKeys(rows + [row]) == ListKeys(rows) + [(row.0, row.1.digest)];
  }

  /** The image query template, without its ORDER BY. */
  method SelectImages(db: Db, sel: Row -> bool) returns (rows: seq<(string, TaggedImage)>)
    ensures ImageStream(db, ImagePairs(db, sel), rows)
  {
    var pairs := ImagePairs(db, sel);
    var left := pairs;
    rows := [];
    while left != {}
      invariant left <= pairs
      invariant ImageStream(db, pairs - left, rows)
    {
      var p :| p in left;
      var tags := CollectTags(KeysOf(db.imageTags, p.1));
      var row := (p.0, TaggedImage(p.1, db.images[p.1], tags));
      ImageStreamSnoc(db, pairs - left, rows, row);
      OneMoreDone(pairs, left, p);
      rows := rows + [row];
      left := left - {p};
    }
    AllDone(pairs);
  }

  /** The list query template, which has no ORDER BY. */
  method SelectLists(db: Db, sel: Row -> bool) returns (rows: seq<(string, TaggedImageList)>)
    ensures ListStream(db, sel, ListPairs(db, sel), rows)
  {
    var pairs := ListPairs(db, sel);
    var left := pairs;
    rows := [];
    while left != {}
      invariant left <= pairs
      invariant ListStream(db, sel, pairs - left, rows)
    {
      var p :| p in left;
      var tags := CollectTags(KeysOf(db.listTags, p.1));
      var row := (p.0, TaggedImageList(p.1, db.lists[p.1], SelectedImages(db, p.0, p.1, sel), tags));
      ListStreamSnoc(db, sel, pairs - left, rows, row);
      OneMoreDone(pairs, left, p);
      rows := rows + [row];
      left := left - {p};
    }
    AllDone(pairs);
  }

  // ----- Garbage collection does not show -----

  lemma CollectedImageRow(db: Db, row: (string, TaggedImage))
    requires ForeignKeys(db) && row.1.digest in db.imageTags.Values
    ensures RightImage(Collected(db), row) <==> RightImage(db, row)
  {
  }

  lemma CollectedListRow(db: Db, sel: Row -> bool, row: (string, TaggedImageList))
    requires ForeignKeys(db) && row.1.digest in db.listTags.Values
    ensures RightList(Collected(db), sel, row) <==> RightList(db, sel, row)
  {
    CollectedSelectedImages(db, row.0, row.1.digest, sel);
  }

  lemma CollectedPairs(db: Db, sel: Row -> bool)
    requires ForeignKeys(db)
    ensures ImagePairs(Collected(db), sel) == ImagePairs(db, sel)
    ensures ListPairs(Collected(db), sel) == ListPairs(db, sel)
  {
    forall k | k in db.imageTags {
      CollectedSelectsImage(db, k, sel);
    }
    forall k | k in db.listTags {
      CollectedSelectsList(db, k, sel);
    }
  }

  /** No query, whatever rows it selects, can tell that a collection has happened: it has the same answers. */
  lemma CollectionIsInvisible(db: Db, sel: Row -> bool,
                              images: seq<(string, TaggedImage)>, lists: seq<(string, TaggedImageList)>)
    requires ForeignKeys(db)
    ensures ImageStream(Collected(db), ImagePairs(Collected(db), sel), images)
       <==> ImageStream(db, ImagePairs(db, sel), images)
    ensures ListStream(Collected(db), sel, ListPairs(Collected(db), sel), lists)
       <==> ListStream(db, sel, ListPairs(db, sel), lists)
  {
    CollectedPairs(db, sel);
    if Enumerates(ImageKeys(images), ImagePairs(db, sel)) {
      forall i | 0 <= i < |images|
        ensures RightImage(Collected(db), images[i]) <==> RightImage(db, images[i])
      {
        assert ImageKeys(images)[i] in ImageKeys(images);
        CollectedImageRow(db, images[i]);
      }
    }
    if Enumerates(ListKeys(lists), ListPairs(db, sel)) {
      forall i | 0 <= i < |lists|
        ensures RightList(Collected(db), sel, lists[i]) <==> RightList(db, sel, lists[i])
      {
        assert ListKeys(lists)[i] in ListKeys(lists);
        CollectedListRow(db, sel, lists[i]);
      }
    }
  }

  // ----- Sorting the tags -----

  function SortImage(x: TaggedImage): TaggedImage {
    x.(tags := Sort(x.tags))
  }

  function SortList(x: TaggedImageList): TaggedImageList {
    x.(tags := Sort(x.tags))
  }

  lemma SortedImageStream(db: Db, pairs: set<(string, Digest)>, rows: seq<(string, TaggedImage)>)
    requires ImageStream(db, pairs, rows)
    ensures ImageStream(db, pairs, MapRows(rows, SortImage))
    ensures forall i :: 0 <= i < |rows| ==> Sorted(MapRows(rows, SortImage)[i].1.tags)
  {
    assert ImageKeys(MapRows(rows, SortImage)) == ImageKeys(rows);
  }

  lemma SortedListStream(db: Db, sel: Row -> bool, pairs: set<(string, Digest)>, rows: seq<(string, TaggedImageList)>)
    requires ListStream(db, sel, pairs, rows)
    ensures ListStream(db, sel, pairs, MapRows(rows, SortList))
    ensures forall i :: 0 <= i < |rows| ==> Sorted(MapRows(rows, SortList)[i].1.tags)
  {
    assert ListKeys(MapRows(rows, SortList)) == ListKeys(rows);
  }

  // ----- The selection a query makes -----

  ghost function Answering(q: QueryData): Row -> bool {
    row => Answers(row, q)
  }

  /** A list comes with exactly those images of its entries whose own row, under some tag of the list, answers. */
  ghost predicate ImagesAnswer(db: Db, q: QueryData, row: (string, TaggedImageList)) {
    forall d :: d in row.1.images <==>
      && (row.1.digest, d) in db.entries && d in db.images
      && exists k :: k in db.listTags && k.0 == row.0 && db.listTags[k] == row.1.digest
                     && Answers(JoinedRow(k, db.images[d]), q)
  }

  lemma StreamAnswers(db: Db, q: QueryData, pairs: set<(string, Digest)>, rows: seq<(string, TaggedImageList)>)
    requires ListStream(db, Answering(q), pairs, rows)
    ensures forall i :: 0 <= i < |rows| ==> ImagesAnswer(db, q, rows[i])
  {
    forall i | 0 <= i < |rows|
      ensures ImagesAnswer(db, q, rows[i])
    {
      assert RightList(db, Answering(q), rows[i]);
      forall d
        ensures d in rows[i].1.images <==>
                  && (rows[i].1.digest, d) in db.entries && d in db.images
                  && exists k :: k in db.listTags && k.0 == rows[i].0 && db.listTags[k] == rows[i].1.digest
                                 && Answers(JoinedRow(k, db.images[d]), q)
      {
        var e := (rows[i].1.digest, d);
        assert e.0 == rows[i].1.digest && e.1 == d;
      }
    }
  }

  lemma SameSelection(db: Db, a: Row -> bool, b: Row -> bool)
    requires forall row :: a(row) == b(row)
    ensures ImagePairs(db, a) == ImagePairs(db, b)
    ensures forall r, d :: SelectedImages(db, r, d, a) == SelectedImages(db, r, d, b)
    ensures ListPairs(db, a) == ListPairs(db, b)
  {
  }

  /**
   The result holds exactly what the database has for the rows that answer the
   query: each image and each list under its repository, once, its tags sorted.
   Repository names are strictly ascending if and only if the database sent
   both streams in that order.  A query about one repository has at most one
   entry in its result.
   */
  method Run(db: Db, query: Query) returns (result: seq<Repository<TaggedImage, TaggedImageList>>)
    requires WellBuilt(query.Data())
    ensures MakeWhereClause.BackslashFree(query.Data()) ==>
              var sel := Answering(query.Data());
              && ImageStream(db, ImagePairs(db, sel), ImageRows(result))
              && ListStream(db, sel, ListPairs(db, sel), ListRows(result))
              && forall i :: 0 <= i < |ListRows(result)| ==> ImagesAnswer(db, query.Data(), ListRows(result)[i])
    ensures forall i :: 0 <= i < |ImageRows(result)| ==> Sorted(ImageRows(result)[i].1.tags)
    ensures forall i :: 0 <= i < |ListRows(result)| ==> Sorted(ListRows(result)[i].1.tags)
    ensures NoneEmpty(result) && RepoNames(result) == Names(ImageRows(result)) + Names(ListRows(result))
    ensures Ascending(result) <==> RowsSorted(ImageRows(result)) && RowsSorted(ListRows(result))
    ensures forall name :: OnlyNamed(ImageRows(result), name) && OnlyNamed(ListRows(result), name) ==> |result| <= 1
  {
    var clause, args := MakeWhereClause.Compile(query);
    var sel := row => Sql.Selects(clause, args, row);
    var imageRows := SelectImages(db, sel);
    var listRows := SelectLists(db, sel);
    var merged := BuildResult(imageRows, listRows);
    result := MapItems(merged, SortImage, SortList);
    MappedRows(merged, SortImage, SortList);
    MappedOrder(merged, SortImage, SortList);
    SortedImageStream(db, ImagePairs(db, sel), imageRows);
    SortedListStream(db, sel, ListPairs(db, sel), listRows);
    if MakeWhereClause.BackslashFree(query.Data()) {
      SameSelection(db, sel, Answering(query.Data()));
      SameListStream(db, sel, Answering(query.Data()), ListPairs(db, sel), MapRows(listRows, SortList));
      StreamAnswers(db, query.Data(), ListPairs(db, sel), ListRows(result));
    }
    MappedNames(imageRows, SortImage);
    MappedNames(listRows, SortList);
    NamesOfResult(result);
  }

  lemma SameListStream(db: Db, a: Row -> bool, b: Row -> bool, pairs: set<(string, Digest)>,
                       rows: seq<(string, TaggedImageList)>)
    requires ListStream(db, a, pairs, rows) && forall row :: a(row) == b(row)
    ensures ListStream(db, b, pairs, rows)
  {
    SameSelection(db, a, b);
  }

  lemma MappedNames<T>(rows: seq<(string, T)>, f: T -> T)
    ensures RowsSorted(MapRows(rows, f)) <==> RowsSorted(rows)
    ensures forall name :: OnlyNamed(MapRows(rows, f), name) <==> OnlyNamed(rows, name)
  {
    var m := MapRows(rows, f);
    assert forall i :: 0 <= i < |rows| ==> m[i].0 == rows[i].0;
    if RowsSorted(m) {
      forall i, j | 0 <= i < j < |rows|
        ensures Leq(rows[i].0, rows[j].0)
      {
        assert Leq(m[i].0, m[j].0);
      }
    }
    forall name
      ensures OnlyNamed(m, name) <==> OnlyNamed(rows, name)
    {
      if OnlyNamed(m, name) {
        forall i | 0 <= i < |rows|
          ensures rows[i].0 == name
        {
          assert m[i].0 == name;
        }
      }
    }
  }
}
