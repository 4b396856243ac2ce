/**
 The operations of a database transaction, and what every sequence of them keeps.
 */
module Store {
  import opened Collections
  import opened Tables

  datatype Image = Image(digest: Digest, row: ImageRow)

  datatype ImageList = ImageList(digest: Digest, row: ListRow, images: seq<Image>)

  // ----- What each operation does to the tables -----

  function NewRows(repository: string, d: Digest, tags: set<string>): TagTable {
    map t | t in tags :: (repository, t) := d
  }

  function RowsIn(table: TagTable, repository: string, d: Digest): set<Key> {
    set k | k in table && k.0 == repository && table[k] == d
  }

  /** The digest's tags in this repository become exactly `tags`; a tag that another digest had moves. */
  function Retagged(table: TagTable, repository: string, d: Digest, tags: set<string>): TagTable {
    (table - RowsIn(table, repository, d)) + NewRows(repository, d, tags)
  }

  function StoredImage(db: Db, image: Image): Db {
    if image.digest in db.images then db else db.(images := db.images[image.digest := image.row])
  }

  function StoredEntry(db: Db, list: Digest, image: Image): Db {
    var db' := StoredImage(db, image);
    db'.(entries := db'.entries + {(list, image.digest)})
  }

  function StoredEntries(db: Db, list: Digest, images: seq<Image>): Db {
    if images == [] then db
    else StoredEntry(StoredEntries(db, list, images[..|images| - 1]), list, images[|images| - 1])
  }

  /** A list that is already stored is left alone, with the entries it has. */
  function StoredList(db: Db, list: ImageList): Db {
    if list.digest in db.lists then db
    else StoredEntries(db.(lists := db.lists[list.digest := list.row]), list.digest, list.images)
  }

  function TagsAsSet(tags: seq<string>): set<string> {
    set t | t in tags
  }

  datatype Op =
    | StoreImage(repository: string, image: Image, tags: seq<string>)
    | StoreImageList(repository: string, list: ImageList, tags: seq<string>)
    | SetImageTags(repository: string, digest: Digest, tags: seq<string>)
    | SetImageListTags(repository: string, digest: Digest, tags: seq<string>)
    | DeleteImage(repository: string, digest: Digest)
    | DeleteImageList(repository: string, digest: Digest)
    | DeleteUnused

  /** Tagging a digest that is not stored violates a foreign key, and the statement fails. */
  function TaggedImage(db: Db, repository: string, d: Digest, tags: seq<string>): Db {
    if tags != [] && d !in db.images then db
    else db.(imageTags := Retagged(db.imageTags, repository, d, TagsAsSet(tags)))
  }

  function TaggedList(db: Db, repository: string, d: Digest, tags: seq<string>): Db {
    if tags != [] && d !in db.lists then db
    else db.(listTags := Retagged(db.listTags, repository, d, TagsAsSet(tags)))
  }

  function Apply(db: Db, op: Op): Db {
    match op
    case StoreImage(r, image, tags) => TaggedImage(StoredImage(db, image), r, image.digest, tags)
    case StoreImageList(r, list, tags) => TaggedList(StoredList(db, list), r, list.digest, tags)
    case SetImageTags(r, d, tags) => TaggedImage(db, r, d, tags)
    case SetImageListTags(r, d, tags) => TaggedList(db, r, d, tags)
    case DeleteImage(r, d) => db.(imageTags := Retagged(db.imageTags, r, d, {}))
    case DeleteImageList(r, d) => db.(listTags := Retagged(db.listTags, r, d, {}))
    case DeleteUnused => Collected(db)
  }

  function ApplyAll(db: Db, ops: seq<Op>): Db {
    if ops == [] then db else Apply(ApplyAll(db, ops[..|ops| - 1]), ops[|ops| - 1])
  }

  // ----- Integrity -----

  /** The images a list digest stands for: content is a function of the digest. */
  type Manifest = Digest -> set<Digest>

  function DigestsOf(images: seq<Image>): set<Digest> {
    set i | 0 <= i < |images| :: images[i].digest
  }

  /** The list that is stored is the one its digest stands for. */
  ghost predicate Addressed(op: Op, manifest: Manifest) {
    op.StoreImageList? ==> DigestsOf(op.list.images) == manifest(op.list.digest)
  }

  function EntriesOf(db: Db, list: Digest): set<Digest> {
    set e | e in db.entries && e.0 == list :: e.1
  }

  ghost predicate CompleteList(db: Db, list: Digest, manifest: Manifest) {
    EntriesOf(db, list) == manifest(list)
  }

  /** Every tag refers to a stored object, and every stored list has all its entries, with their images. */
  ghost predicate Integrity(db: Db, manifest: Manifest) {
    && ForeignKeys(db)
    && (forall d :: d in db.lists ==> CompleteList(db, d, manifest))
  }

  lemma StoredImageKeeps(db: Db, image: Image, manifest: Manifest)
    requires Integrity(db, manifest)
    ensures Integrity(StoredImage(db, image), manifest)
  {
    var db' := StoredImage(db, image);
    forall d | d in db'.lists
      ensures CompleteList(db', d, manifest)
    {
      assert CompleteList(db, d, manifest);
      assert EntriesOf(db', d) == EntriesOf(db, d);
    }
  }

  lemma StoredEntryEffect(db: Db, list: Digest, image: Image, d: Digest)
    ensures EntriesOf(StoredEntry(db, list, image), d) == EntriesOf(db, d) + (if d == list then {image.digest} else {})
  {
    var db' := StoredEntry(db, list, image);
    if d == list {
      assert (list, image.digest) in db'.entries;
    }
    forall x | x in EntriesOf(db, d)
      ensures x in EntriesOf(db', d)
    {
      assert (d, x) in db'.entries;
    }
  }

  lemma StoredEntryKeeps(db: Db, list: Digest, image: Image)
    requires ForeignKeys(db) && list in db.lists
    ensures var db' := StoredEntry(db, list, image);
            && ForeignKeys(db') && db'.lists == db.lists
            && db'.imageTags == db.imageTags && db'.listTags == db.listTags
  {
  }

  lemma {:induction false} StoredEntriesEffect(db: Db, list: Digest, images: seq<Image>, d: Digest)
    requires ForeignKeys(db) && list in db.lists
    ensures var db' := StoredEntries(db, list, images);
            && ForeignKeys(db') && db'.lists == db.lists
            && db'.imageTags == db.imageTags && db'.listTags == db.listTags
            && EntriesOf(db', d) == EntriesOf(db, d) + (if d == list then DigestsOf(images) else {})
  {
    if images == [] {
    } else {
      var front, last := images[..|images| - 1], images[|images| - 1];
      StoredEntriesEffect(db, list, front, d);
      StoredEntryEffect(StoredEntries(db, list, front), list, last, d);
      StoredEntryKeeps(StoredEntries(db, list, front), list, last);
      FrontAndLast(images);
      DigestsSnoc(front, last);
    }
  }

  lemma DigestsSnoc(front: seq<Image>, last: Image)
    ensures DigestsOf(front + [last]) == DigestsOf(front) + {last.digest}
  {
    var images := front + [last];
    assert images[|front|] == last;
    forall d | d in DigestsOf(front)
      ensures d in DigestsOf(images)
    {
      var i :| 0 <= i < |front| && front[i].digest == d;
      assert images[i].digest == d;
    }
  }

  /**
   After storing a list its entries are the manifest's.  When the list was
   already there nothing is written, and that is right because of integrity.
   */
  lemma StoredListIsComplete(db: Db, list: ImageList, manifest: Manifest)
    requires Integrity(db, manifest) && DigestsOf(list.images) == manifest(list.digest)
    ensures Integrity(StoredList(db, list), manifest)
    ensures list.digest in StoredList(db, list).lists
    ensures EntriesOf(StoredList(db, list), list.digest) == DigestsOf(list.images)
  {
    if list.digest !in db.lists {
      var mid := db.(lists := db.lists[list.digest := list.row]);
      var db' := StoredList(db, list);
      assert EntriesOf(mid, list.digest) == {};
      StoredEntriesEffect(mid, list.digest, list.images, list.digest);
      forall d | d in db'.lists
        ensures CompleteList(db', d, manifest)
      {
        StoredEntriesEffect(mid, list.digest, list.images, d);
        assert EntriesOf(mid, d) == EntriesOf(db, d);
        assert d != list.digest ==> CompleteList(db, d, manifest);
      }
    } else {
      assert CompleteList(db, list.digest, manifest);
    }
  }

  lemma RetaggedRefers(table: TagTable, repository: string, d: Digest, tags: set<string>, known: set<Digest>)
    requires (forall k :: k in table ==> table[k] in known) && (tags == {} || d in known)
    ensures forall k :: k in Retagged(table, repository, d, tags) ==> Retagged(table, repository, d, tags)[k] in known
  {
  }

  lemma SameEntries(db: Db, db': Db, manifest: Manifest)
    requires Integrity(db, manifest) && ForeignKeys(db') && db'.entries == db.entries && db'.lists == db.lists
    ensures Integrity(db', manifest)
  {
    forall d | d in db'.lists
      ensures CompleteList(db', d, manifest)
    {
      assert CompleteList(db, d, manifest);
      assert EntriesOf(db', d) == EntriesOf(db, d);
    }
  }

  lemma TaggingKeeps(db: Db, repository: string, d: Digest, tags: seq<string>, manifest: Manifest)
    requires Integrity(db, manifest)
    ensures Integrity(TaggedImage(db, repository, d, tags), manifest)
    ensures Integrity(TaggedList(db, repository, d, tags), manifest)
  {
    assert tags == [] ==> TagsAsSet(tags) == {};
    if tags == [] || d in db.images {
      RetaggedRefers(db.imageTags, repository, d, TagsAsSet(tags), db.images.Keys);
    }
    if tags == [] || d in db.lists {
      RetaggedRefers(db.listTags, repository, d, TagsAsSet(tags), db.lists.Keys);
    }
    SameEntries(db, TaggedImage(db, repository, d, tags), manifest);
    SameEntries(db, TaggedList(db, repository, d, tags), manifest);
  }

  lemma CollectionKeeps(db: Db, manifest: Manifest)
    requires Integrity(db, manifest)
    ensures Integrity(Collected(db), manifest)
  {
    CollectedKeepsForeignKeys(db);
    forall d | d in Collected(db).lists
      ensures CompleteList(Collected(db), d, manifest)
    {
      assert CompleteList(db, d, manifest);
      assert EntriesOf(Collected(db), d) == EntriesOf(db, d) by {
        forall x | x in EntriesOf(db, d)
          ensures x in EntriesOf(Collected(db), d)
        {
          assert (d, x) in KeptEntries(db);
        }
      }
    }
  }

  /** Every operation keeps integrity. */
  lemma ApplyKeepsIntegrity(db: Db, op: Op, manifest: Manifest)
    requires Integrity(db, manifest) && Addressed(op, manifest)
    ensures Integrity(Apply(db, op), manifest)
  {
    match op
    case StoreImage(r, image, tags) =>
      StoredImageKeeps(db, image, manifest);
      TaggingKeeps(StoredImage(db, image), r, image.digest, tags, manifest);
    case StoreImageList(r, list, tags) =>
      StoredListIsComplete(db, list, manifest);
      TaggingKeeps(StoredList(db, list), r, list.digest, tags, manifest);
    case SetImageTags(r, d, tags) => TaggingKeeps(db, r, d, tags, manifest);
    case SetImageListTags(r, d, tags) => TaggingKeeps(db, r, d, tags, manifest);
    case DeleteImage(r, d) => DeletingKeeps(db, r, d, manifest);
    case DeleteImageList(r, d) => DeletingKeeps(db, r, d, manifest);
    case DeleteUnused => CollectionKeeps(db, manifest);
  }

  lemma DeletingKeeps(db: Db, repository: string, d: Digest, manifest: Manifest)
    requires Integrity(db, manifest)
    ensures Integrity(Apply(db, DeleteImage(repository, d)), manifest)
    ensures Integrity(Apply(db, DeleteImageList(repository, d)), manifest)
  {
    RetaggedRefers(db.imageTags, repository, d, {}, db.images.Keys);
    RetaggedRefers(db.listTags, repository, d, {}, db.lists.Keys);
    SameEntries(db, Apply(db, DeleteImage(repository, d)), manifest);
    SameEntries(db, Apply(db, DeleteImageList(repository, d)), manifest);
  }

  const EMPTY_DB := Db(map[], map[], {}, map[], map[])

  /** From an empty database, every sequence of operations keeps integrity. */
  lemma {:induction false} IntegrityInEveryRun(ops: seq<Op>, manifest: Manifest)
    requires forall i :: 0 <= i < |ops| ==> Addressed(ops[i], manifest)
    ensures Integrity(ApplyAll(EMPTY_DB, ops), manifest)
  {
    if ops == [] {
    } else {
      var front := ops[..|ops| - 1];
      IntegrityInEveryRun(front, manifest);
      ApplyKeepsIntegrity(ApplyAll(EMPTY_DB, front), ops[|ops| - 1], manifest);
    }
  }

  // ----- The transaction -----

  /** `setTags` on one of the two tag tables. */
  method SetTags(table: TagTable, repository: string, d: Digest, tags: seq<string>) returns (result: TagTable)
    ensures result == Retagged(table, repository, d, TagsAsSet(tags))
  {
    var oldTags := GetTags(table, d);
    result := table;
    for i := 0 to |tags|
      invariant result == table + NewRows(repository, d, TagsAsSet(tags[..i]))
      invariant oldTags == GetTags(table, d) - TagsAsSet(tags[..i])
    {
      NewRowsSnoc(table, repository, d, tags[..i], tags[i]);
      assert tags[..i + 1] == tags[..i] + [tags[i]];
      oldTags := oldTags - {tags[i]};
      result := result[(repository, tags[i]) := d];
    }
    assert tags[..|tags|] == tags;
    result := DeleteRows(result, repository, d, oldTags);
    RetaggedByDeleting(table, repository, d, TagsAsSet(tags), oldTags);
  }

  /** The tags of a digest in all repositories; the repository is not looked at. */
  function GetTags(table: TagTable, d: Digest): set<string> {
    set k | k in table && table[k] == d :: k.1
  }

  lemma NewRowsSnoc(table: TagTable, repository: string, d: Digest, tags: seq<string>, tag: string)
    ensures TagsAsSet(tags + [tag]) == TagsAsSet(tags) + {tag}
    ensures (table + NewRows(repository, d, TagsAsSet(tags)))[(repository, tag) := d]
         == table + NewRows(repository, d, TagsAsSet(tags + [tag]))
  {
    assert TagsAsSet(tags + [tag]) == TagsAsSet(tags) + {tag};
  }

  function Deleted(table: TagTable, repository: string, d: Digest, tags: set<string>): TagTable {
    table - (set k | k in table && k.0 == repository && k.1 in tags && table[k] == d)
  }

  /** One DELETE for each tag, in any order. */
  method DeleteRows(table: TagTable, repository: string, d: Digest, tags: set<string>) returns (result: TagTable)
    ensures result == Deleted(table, repository, d, tags)
  {
    result := table;
    var left := tags;
    while left != {}
      invariant left <= tags
      invariant result == Deleted(table, repository, d, tags - left)
    {
      var tag :| tag in left;
      var key := (repository, tag);
      if key in result && result[key] == d {
        result := result - {key};
      }
      left := left - {tag};
    }
    assert tags - left == tags;
  }

  lemma RetaggedByDeleting(table: TagTable, repository: string, d: Digest, tags: set<string>, oldTags: set<string>)
    requires oldTags == GetTags(table, d) - tags
    ensures Deleted(table + NewRows(repository, d, tags), repository, d, oldTags)
         == Retagged(table, repository, d, tags)
  {
  }

  class Transaction {
    var images: map<Digest, ImageRow>
    var lists: map<Digest, ListRow>
    var entries: set<(Digest, Digest)>
    var imageTags: TagTable
    var listTags: TagTable

    function Value(): Db
      reads this
    {
      Db(images, lists, entries, imageTags, listTags)
    }

    constructor (db: Db)
      ensures Value() == db
    {
      images, lists, entries, imageTags, listTags := db.images, db.lists, db.entries, db.imageTags, db.listTags;
    }

    method InsertImage(image: Image)
      modifies this`images
      ensures Value() == StoredImage(old(Value()), image)
    {
      if image.digest !in images {
        images := images[image.digest := image.row];
      }
    }

    method SetImageTags(repository: string, d: Digest, tags: seq<string>) returns (ok: bool)
      modifies this`imageTags
      ensures ok == (tags == [] || d in old(images))
      ensures Value() == Apply(old(Value()), Op.SetImageTags(repository, d, tags))
    {
      ok := tags == [] || d in images;
      if ok {
        imageTags := SetTags(imageTags, repository, d, tags);
      }
    }

    method SetImageListTags(repository: string, d: Digest, tags: seq<string>) returns (ok: bool)
      modifies this`listTags
      ensures ok == (tags == [] || d in old(lists))
      ensures Value() == Apply(old(Value()), Op.SetImageListTags(repository, d, tags))
    {
      ok := tags == [] || d in lists;
      if ok {
        listTags := SetTags(listTags, repository, d, tags);
      }
    }

    method StoreImage(repository: string, image: Image, tags: seq<string>)
      modifies this
      ensures Value() == Apply(old(Value()), Op.StoreImage(repository, image, tags))
    {
      InsertImage(image);
      var ok := SetImageTags(repository, image.digest, tags);
    }

    method InsertList(list: ImageList)
      modifies this
      ensures Value() == StoredList(old(Value()), list)
    {
      if list.digest in lists {
        return;
      }
      lists := lists[list.digest := list.row];
      ghost var mid := Value();
      for i := 0 to |list.images|
        invariant Value() == StoredEntries(mid, list.digest, list.images[..i])
      {
        assert list.images[..i + 1][..i] == list.images[..i];
        InsertImage(list.images[i]);
        entries := entries + {(list.digest, list.images[i].digest)};
      }
      assert list.images[..|list.images|] == list.images;
    }

    method StoreImageList(repository: string, list: ImageList, tags: seq<string>)
      modifies this
      ensures Value() == Apply(old(Value()), Op.StoreImageList(repository, list, tags))
    {
      InsertList(list);
      var ok := SetImageListTags(repository, list.digest, tags);
    }

    method DeleteImage(repository: string, d: Digest)
      modifies this`imageTags
      ensures Value() == Apply(old(Value()), Op.DeleteImage(repository, d))
      ensures imageTags == Retagged(old(imageTags), repository, d, {})
    {
      imageTags := map k | k in imageTags && !(k.0 == repository && imageTags[k] == d) :: imageTags[k];
      assert imageTags == Retagged(old(imageTags), repository, d, {});
    }

    method DeleteImageList(repository: string, d: Digest)
      modifies this`listTags
      ensures Value() == Apply(old(Value()), Op.DeleteImageList(repository, d))
      ensures listTags == Retagged(old(listTags), repository, d, {})
    {
      listTags := map k | k in listTags && !(k.0 == repository && listTags[k] == d) :: listTags[k];
      assert listTags == Retagged(old(listTags), repository, d, {});
    }

    method DeleteUnused()
      modifies this
      ensures Value() == Apply(old(Value()), Op.DeleteUnused)
    {
      lists := map d | d in lists && d in listTags.Values :: lists[d];
      entries := set e | e in entries && e.0 in lists;
      images := map d | d in images && (d in imageTags.Values || exists e :: e in entries && e.1 == d) :: images[d];
      assert lists.Keys == TaggedLists(old(Value()));
      assert entries == KeptEntries(old(Value()));
      assert images.Keys == ReachableImages(old(Value()));
    }
  }
}
