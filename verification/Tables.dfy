/**
 The database tables, their foreign keys, and what the two query templates
 return from them.
 */
module Tables {
  import opened Options
  import opened Queries

  type Digest = string

  /** (repository, tag), the unique key of both tag tables. */
  type Key = (string, string)

  type TagTable = map<Key, Digest>

  datatype ImageRow = ImageRow(mediaType: string, architecture: string, os: string,
                               annotations: map<string, string>, labels: map<string, string>)

  datatype ListRow = ListRow(mediaType: string, annotations: map<string, string>)

  /** `entries` holds pairs (list, image). */
  datatype Db = Db(images: map<Digest, ImageRow>, lists: map<Digest, ListRow>, entries: set<(Digest, Digest)>,
                   imageTags: TagTable, listTags: TagTable)

  ghost predicate ForeignKeys(db: Db) {
    && (forall k :: k in db.imageTags ==> db.imageTags[k] in db.images)
    && (forall k :: k in db.listTags ==> db.listTags[k] in db.lists)
    && (forall e :: e in db.entries ==> e.0 in db.lists && e.1 in db.images)
  }

  // ----- The tags of a digest -----

  /** The rows of a digest, over all repositories. */
  function KeysOf(table: TagTable, d: Digest): set<Key> {
    set k | k in table && table[k] == d
  }

  /** `jsonb_agg(t.Tag)`: one tag for each row, so a tag repeats when rows of two repositories carry it. */
  ghost function TagBag(keys: set<Key>): multiset<string> {
    if keys == {} then multiset{}
    else
      var k :| k in keys;
      TagBag(keys - {k}) + multiset{k.1}
  }

  function WithTag(keys: set<Key>, tag: string): set<Key> {
    set k | k in keys && k.1 == tag
  }

  lemma WithTagInsert(keys: set<Key>, k: Key, tag: string)
    requires k !in keys
    ensures |WithTag(keys + {k}, tag)| == |WithTag(keys, tag)| + if k.1 == tag then 1 else 0
  {
    if k.1 == tag {
      assert WithTag(keys + {k}, tag) == WithTag(keys, tag) + {k};
    } else {
      assert WithTag(keys + {k}, tag) == WithTag(keys, tag);
    }
  }

  lemma {:induction false} BagCount(keys: set<Key>, tag: string)
    ensures TagBag(keys)[tag] == |WithTag(keys, tag)|
  {
    if keys == {} {
    } else {
      var k :| k in keys && TagBag(keys) == TagBag(keys - {k}) + multiset{k.1};
      BagCount(keys - {k}, tag);
      WithTagInsert(keys - {k}, k, tag);
      assert keys - {k} + {k} == keys;
    }
  }

  lemma CountInsert(keys: set<Key>, k: Key, tag: string)
    requires k !in keys
    ensures TagBag(keys + {k})[tag] == TagBag(keys)[tag] + if k.1 == tag then 1 else 0
  {
    BagCount(keys + {k}, tag);
    BagCount(keys, tag);
    WithTagInsert(keys, k, tag);
  }

  lemma BagInsert(keys: set<Key>, k: Key)
    requires k !in keys
    ensures TagBag(keys + {k}) == TagBag(keys) + multiset{k.1}
  {
    var more, bag := TagBag(keys + {k}), TagBag(keys);
    forall tag
      ensures more[tag] == bag[tag] + if k.1 == tag then 1 else 0
    {
      CountInsert(keys, k, tag);
    }
    assert more == bag + multiset{k.1};
  }

  /** The rows carry pairwise different tags, and those are the given ones. */
  ghost predicate CarryExactly(keys: set<Key>, tags: set<string>) {
    && (forall k :: k in keys ==> k.1 in tags)
    && (forall t :: t in tags ==> exists k :: k in keys && k.1 == t)
    && (forall j, k :: j in keys && k in keys && j.1 == k.1 ==> j == k)
  }

  lemma BagThenCarry(keys: set<Key>, tags: set<string>)
    requires TagBag(keys) == multiset(tags)
    ensures CarryExactly(keys, tags)
  {
    forall k | k in keys
      ensures k.1 in tags
    {
      BagCount(keys, k.1);
      assert k in WithTag(keys, k.1);
    }
    forall t | t in tags
      ensures exists k :: k in keys && k.1 == t
    {
      BagCount(keys, t);
      assert |WithTag(keys, t)| == 1;
      var k :| k in WithTag(keys, t);
    }
    forall j, k | j in keys && k in keys && j.1 == k.1
      ensures j == k
    {
      BagCount(keys, k.1);
      SmallSet(WithTag(keys, k.1), j, k);
    }
  }

  lemma CarryThenBag(keys: set<Key>, tags: set<string>)
    requires CarryExactly(keys, tags)
    ensures TagBag(keys) == multiset(tags)
  {
    forall t
      ensures TagBag(keys)[t] == multiset(tags)[t]
    {
      BagCount(keys, t);
      if t in tags {
        var k :| k in keys && k.1 == t;
        assert WithTag(keys, t) == {k};
      } else {
        assert WithTag(keys, t) == {};
      }
    }
  }

  /** The bag of a digest's tags is a set of tags exactly when its rows carry those tags, each once. */
  lemma BagIsSet(keys: set<Key>, tags: set<string>)
    ensures TagBag(keys) == multiset(tags) <==> CarryExactly(keys, tags)
  {
    if TagBag(keys) == multiset(tags) {
      BagThenCarry(keys, tags);
    }
    if CarryExactly(keys, tags) {
      CarryThenBag(keys, tags);
    }
  }

  lemma SmallSet<T>(s: set<T>, a: T, b: T)
    requires |s| <= 1 && a in s && b in s
    ensures a == b
  {
    assert |s - {a}| == |s| - 1;
    assert s - {a} == {};
  }

  // ----- Query results -----

  function JoinedRow(k: Key, image: ImageRow): Row {
    Row(Some(k.0), Some(k.1), Some(image.os), Some(image.architecture), Some(image.annotations), Some(image.labels))
  }

  predicate ImageSelected(db: Db, k: Key, sel: Row -> bool) {
    k in db.imageTags && db.imageTags[k] in db.images && sel(JoinedRow(k, db.images[db.imageTags[k]]))
  }

  /** The images of a tagged list that a query selects; a list without entries has none. */
  function SelectedImages(db: Db, repository: string, list: Digest, sel: Row -> bool): map<Digest, ImageRow> {
    map e | e in db.entries && e.0 == list && e.1 in db.images
            && exists k :: k in db.listTags && k.0 == repository && db.listTags[k] == list
                           && sel(JoinedRow(k, db.images[e.1]))
      :: e.1 := db.images[e.1]
  }

  predicate ListSelected(db: Db, k: Key, sel: Row -> bool) {
    && k in db.listTags && db.listTags[k] in db.lists
    && SelectedImages(db, k.0, db.listTags[k], sel) != map[]
  }

  // ----- Garbage collection -----

  function TaggedLists(db: Db): set<Digest> {
    set d | d in db.lists && d in db.listTags.Values
  }

  /** Entries go with their list (ON DELETE CASCADE). */
  function KeptEntries(db: Db): set<(Digest, Digest)> {
    set e | e in db.entries && e.0 in TaggedLists(db)
  }

  /** Images reachable from a tag, directly or through a list. */
  function ReachableImages(db: Db): set<Digest> {
    set d | d in db.images && (d in db.imageTags.Values || exists e :: e in KeptEntries(db) && e.1 == d)
  }

  function Collected(db: Db): Db {
    db.(lists := map d | d in TaggedLists(db) :: db.lists[d],
        entries := KeptEntries(db),
        images := map d | d in ReachableImages(db) :: db.images[d])
  }

  lemma CollectedKeepsForeignKeys(db: Db)
    requires ForeignKeys(db)
    ensures ForeignKeys(Collected(db))
  {
    var c := Collected(db);
    forall k | k in c.imageTags
      ensures c.imageTags[k] in c.images
    {
      assert db.imageTags[k] in db.imageTags.Values;
    }
    forall k | k in c.listTags
      ensures c.listTags[k] in c.lists
    {
      assert db.listTags[k] in db.listTags.Values;
    }
  }

  lemma CollectedSelectsImage(db: Db, k: Key, sel: Row -> bool)
    requires ForeignKeys(db) && k in db.imageTags
    ensures ImageSelected(Collected(db), k, sel) == ImageSelected(db, k, sel)
  {
    assert db.imageTags[k] in db.imageTags.Values;
  }

  lemma CollectedSelectedImages(db: Db, repository: string, list: Digest, sel: Row -> bool)
    requires ForeignKeys(db) && list in db.listTags.Values
    ensures SelectedImages(Collected(db), repository, list, sel) == SelectedImages(db, repository, list, sel)
  {
    var c := Collected(db);
    forall e | e in db.entries && e.0 == list
      ensures e in c.entries && e.1 in c.images && c.images[e.1] == db.images[e.1]
    {
      assert e in KeptEntries(db);
    }
  }

  lemma CollectedSelectsList(db: Db, k: Key, sel: Row -> bool)
    requires ForeignKeys(db) && k in db.listTags
    ensures ListSelected(Collected(db), k, sel) == ListSelected(db, k, sel)
  {
    assert db.listTags[k] in db.listTags.Values;
    CollectedSelectedImages(db, k.0, db.listTags[k], sel);
  }

  /** A second collection removes nothing. */
  lemma CollectionIsIdempotent(db: Db)
    requires ForeignKeys(db)
    ensures Collected(Collected(db)) == Collected(db)
  {
    var c := Collected(db);
    assert TaggedLists(c) == TaggedLists(db);
    assert KeptEntries(c) == KeptEntries(db);
    assert ReachableImages(c) == ReachableImages(db);
  }

  /** What is left is exactly what a tag reaches. */
  lemma CollectionIsExact(db: Db, d: Digest)
    requires ForeignKeys(db)
    ensures d in Collected(db).lists <==> exists k :: k in db.listTags && db.listTags[k] == d
    ensures d in Collected(db).images <==>
              || (exists k :: k in db.imageTags && db.imageTags[k] == d)
              || (exists k :: k in db.listTags && (db.listTags[k], d) in db.entries)
  {
    if d in Collected(db).lists {
      assert d in db.listTags.Values;
    }
    if d in Collected(db).images && d !in db.imageTags.Values {
      var e :| e in KeptEntries(db) && e.1 == d;
      assert e.0 in db.listTags.Values;
      assert e == (e.0, d);
    }
    if k :| k in db.listTags && (db.listTags[k], d) in db.entries {
      assert db.listTags[k] in db.listTags.Values;
      assert (db.listTags[k], d) in KeptEntries(db);
    }
    if k :| k in db.imageTags && db.imageTags[k] == d {
      assert d in db.imageTags.Values;
    }
  }
}
