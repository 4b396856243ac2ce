/**
 Bringing one repository of the database in line with the registry.
 */
module Fetcher {
  import opened Options
  import opened Collections
  import opened GoStrings
  import opened Results
  import opened Queries
  import opened Tables
  import opened Store
  import opened Reconcile
  import opened DoQuery
  import MakeWhereClause

  /** What the registry returns for a digest; `None` is an error. */
  type FetchImage = Digest -> Option<ImageRow>

  type FetchList = Digest -> Option<(ListRow, seq<Image>)>

  /** Content is a function of the digest. */
  ghost predicate Faithful(fetchList: FetchList, manifest: Manifest) {
    forall d :: fetchList(d).Some? ==> DigestsOf(fetchList(d).value.1) == manifest(d)
  }

  /** Every digest of the registry that the database does not report can be fetched. */
  ghost predicate Fetchable<T>(fetch: Digest -> Option<T>, wanted: set<Digest>, reported: set<Digest>) {
    forall d :: d in wanted && d !in reported ==> fetch(d).Some?
  }

  lemma FetchableOneMore<T>(fetch: Digest -> Option<T>, wanted: set<Digest>, reported: set<Digest>, d: Digest)
    requires Fetchable(fetch, wanted, reported) && (d in reported || fetch(d).Some?)
    ensures Fetchable(fetch, wanted + {d}, reported)
  {
  }

  /** Lists that the list query can report: those with an entry. */
  function VisibleLists(db: Db): set<Digest> {
    set e | e in db.entries && e.0 in db.lists && e.1 in db.images :: e.0
  }

  method StringsEqual(a: seq<string>, b: seq<string>) returns (equal: bool)
    ensures equal == (a == b)
  {
    if |a| != |b| {
      return false;
    }
    for i := 0 to |a|
      invariant a[..i] == b[..i]
    {
      if a[i] != b[i] {
        return false;
      }
    }
    return true;
  }

  // ----- Grouping the registry's tags by digest -----

  function TagsAmong(registry: Registry, tags: set<string>, d: Digest): set<string> {
    set t | t in tags && t in registry && registry[t] == d
  }

  /** The group of a digest holds its tags among those seen so far. */
  ghost predicate GroupRight(groups: map<Digest, seq<string>>, registry: Registry, seen: set<string>, d: Digest) {
    && (d in groups <==> TagsAmong(registry, seen, d) != {})
    && (d in groups ==> multiset(groups[d]) == multiset(TagsAmong(registry, seen, d)))
  }

  function AppendTag(groups: map<Digest, seq<string>>, d: Digest, tag: string): map<Digest, seq<string>> {
    groups[d := (if d in groups then groups[d] else []) + [tag]]
  }

  lemma GroupNext(groups: map<Digest, seq<string>>, registry: Registry, seen: set<string>, tag: string, e: Digest)
    requires tag in registry && tag !in seen && GroupRight(groups, registry, seen, e)
    ensures GroupRight(AppendTag(groups, registry[tag], tag), registry, seen + {tag}, e)
  {
    var d := registry[tag];
    var before, after := TagsAmong(registry, seen, e), TagsAmong(registry, seen + {tag}, e);
    if e == d {
      assert after == before + {tag};
      assert tag in after;
      assert multiset(after) == multiset(before) + multiset{tag};
    } else {
      assert after == before;
    }
  }

  /** `range` over the registry's tags, in any order. */
  method GroupByDigest(registry: Registry) returns (groups: map<Digest, seq<string>>)
    ensures groups.Keys == registry.Values
    ensures forall d :: d in groups ==> multiset(groups[d]) == multiset(TagsFor(registry, d))
  {
    groups := map[];
    var left := registry.Keys;
    while left != {}
      invariant left <= registry.Keys
      invariant forall d :: GroupRight(groups, registry, registry.Keys - left, d)
    {
      var tag :| tag in left;
      ghost var seen := registry.Keys - left;
      assert registry.Keys - (left - {tag}) == seen + {tag};
      forall e {
        GroupNext(groups, registry, seen, tag, e);
      }
      groups := AppendTag(groups, registry[tag], tag);
      left := left - {tag};
    }
    forall d {
      GroupDone(groups, registry, registry.Keys - left, d);
    }
  }

  lemma GroupDone(groups: map<Digest, seq<string>>, registry: Registry, seen: set<string>, d: Digest)
    requires seen == registry.Keys && GroupRight(groups, registry, seen, d)
    ensures d in groups <==> d in registry.Values
    ensures d in groups ==> multiset(groups[d]) == multiset(TagsFor(registry, d))
  {
    assert TagsAmong(registry, seen, d) == TagsFor(registry, d);
    if d in registry.Values {
      var t :| t in registry && registry[t] == d;
      assert t in TagsFor(registry, d);
    }
  }

  /** The sorted tags of a group are the registry's tags for the digest. */
  lemma SortedGroup(group: seq<string>, registry: Registry, d: Digest)
    requires multiset(group) == multiset(TagsFor(registry, d)) && d in registry.Values
    ensures TagsAsSet(Sort(group)) == TagsFor(registry, d) && Sort(group) != []
    ensures multiset(Sort(group)) == multiset(TagsFor(registry, d))
  {
    forall t
      ensures t in Sort(group) <==> t in TagsFor(registry, d)
    {
      assert t in Sort(group) <==> t in multiset(Sort(group));
      assert t in multiset(TagsFor(registry, d)) <==> t in TagsFor(registry, d);
    }
    var t :| t in registry && registry[t] == d;
    assert t in TagsFor(registry, d);
    assert t in Sort(group);
  }

  /** What the query reports about the repository: the visible digests, each with its sorted tags. */
  ghost predicate Reports(old': map<Digest, seq<string>>, table: TagTable, visible: set<Digest>, repository: string) {
    && old'.Keys == OldDigests(table, visible, repository)
    && (forall d :: d in old' ==> Sorted(old'[d]) && multiset(old'[d]) == TagBag(KeysOf(table, d)))
  }

  /** Comparing the reported tags with the registry's decides whether the digest is skipped. */
  lemma ComparingDecides(old': map<Digest, seq<string>>, table: TagTable, visible: set<Digest>, repository: string,
                         registry: Registry, d: Digest, newTags: seq<string>)
    requires Reports(old', table, visible, repository)
    requires Sorted(newTags) && multiset(newTags) == multiset(TagsFor(registry, d))
    ensures d in old' && old'[d] == newTags <==> Skipped(table, visible, repository, registry, d)
  {
    if d in old' && multiset(old'[d]) == multiset(newTags) {
      SortedUnique(old'[d], newTags);
    }
  }

  // ----- What is stored for a fetched digest -----

  /** Stored images stay as they are, and a new one has the row that was fetched for its digest. */
  ghost predicate ImagesFetched(was: map<Digest, ImageRow>, now: map<Digest, ImageRow>,
                                fetch: FetchImage, ds: set<Digest>) {
    && (forall d :: d in was ==> d in now && now[d] == was[d])
    && (forall d :: d in now && d !in was ==> d in ds && fetch(d) == Some(now[d]))
    && ds <= now.Keys
  }

  lemma ImagesFetchedChain(a: map<Digest, ImageRow>, b: map<Digest, ImageRow>, c: map<Digest, ImageRow>,
                           fetch: FetchImage, ds: set<Digest>, es: set<Digest>)
    requires ImagesFetched(a, b, fetch, ds) && ImagesFetched(b, c, fetch, es)
    ensures ImagesFetched(a, c, fetch, ds + es)
  {
  }

  ghost predicate FromList(fetch: FetchList, list: Digest, image: Image) {
    fetch(list).Some? && image in fetch(list).value.1
  }

  /** The stored objects, without their tags. */
  datatype Content = Content(images: map<Digest, ImageRow>, lists: map<Digest, ListRow>)

  function ContentOf(db: Db): Content {
    Content(db.images, db.lists)
  }

  /**
   Stored lists and images stay as they are; a new list has the row that was
   fetched for its digest, and a new image is one of a new list's images.
   */
  ghost predicate ListsFetched(was: Content, now: Content, fetch: FetchList, ds: set<Digest>) {
    && (forall d :: d in was.lists ==> d in now.lists && now.lists[d] == was.lists[d])
    && (forall d :: d in now.lists && d !in was.lists ==>
          d in ds && fetch(d).Some? && fetch(d).value.0 == now.lists[d])
    && ds <= now.lists.Keys
    && (forall d :: d in was.images ==> d in now.images && now.images[d] == was.images[d])
    && (forall d :: d in now.images && d !in was.images ==> NewWithList(was, now, fetch, d))
  }

  ghost predicate NewWithList(was: Content, now: Content, fetch: FetchList, d: Digest)
    requires d in now.images
  {
    exists l :: l in now.lists && l !in was.lists && FromList(fetch, l, Image(d, now.images[d]))
  }

  lemma ListsFetchedChain(a: Content, b: Content, c: Content, fetch: FetchList, ds: set<Digest>, es: set<Digest>)
    requires ListsFetched(a, b, fetch, ds) && ListsFetched(b, c, fetch, es)
    ensures ListsFetched(a, c, fetch, ds + es)
  {
    forall d | d in c.images && d !in a.images
      ensures NewWithList(a, c, fetch, d)
    {
      if d in b.images {
        assert NewWithList(a, b, fetch, d);
        var l :| l in b.lists && l !in a.lists && FromList(fetch, l, Image(d, b.images[d]));
        assert l in c.lists;
      } else {
        assert NewWithList(b, c, fetch, d);
      }
    }
  }

  lemma {:induction false} StoredEntriesRows(db: Db, list: Digest, images: seq<Image>)
    ensures var db' := StoredEntries(db, list, images);
            && db'.lists == db.lists
            && (forall d :: d in db.images ==> d in db'.images && db'.images[d] == db.images[d])
            && (forall d :: d in db'.images && d !in db.images ==> Image(d, db'.images[d]) in images)
  {
    if images == [] {
    } else {
      StoredEntriesRows(db, list, images[..|images| - 1]);
      FrontAndLast(images);
    }
  }

  lemma StoredListRows(db: Db, list: ImageList, fetch: FetchList)
    requires fetch(list.digest) == Some((list.row, list.images))
    ensures ListsFetched(ContentOf(db), ContentOf(StoredList(db, list)), fetch, {list.digest})
  {
    if list.digest !in db.lists {
      var db' := StoredList(db, list);
      StoredEntriesRows(db.(lists := db.lists[list.digest := list.row]), list.digest, list.images);
      forall d | d in db'.images && d !in db.images
        ensures NewWithList(ContentOf(db), ContentOf(db'), fetch, d)
      {
        assert FromList(fetch, list.digest, Image(d, db'.images[d]));
      }
    }
  }

  /** What a pass stores: the rows fetched for what was missing, and no other change. */
  ghost predicate RowsFetched(db: Db, imageTags: Registry, listTags: Registry,
                              fetchImage: FetchImage, fetchList: FetchList, db': Db) {
    && imageTags.Values <= db'.images.Keys && listTags.Values <= db'.lists.Keys
    && (forall d :: d in db.images ==> d in db'.images && db'.images[d] == db.images[d])
    && (forall d :: d in db.lists ==> d in db'.lists && db'.lists[d] == db.lists[d])
    && (forall d :: d in imageTags.Values && d !in db.images ==> fetchImage(d) == Some(db'.images[d]))
    && (forall d :: d in db'.images && d !in db.images && d !in imageTags.Values ==>
          NewWithList(ContentOf(db), ContentOf(db'), fetchList, d))
    && (forall d :: d in db'.lists && d !in db.lists ==>
          d in listTags.Values && fetchList(d).Some? && fetchList(d).value.0 == db'.lists[d])
  }

  lemma PassRows(db: Db, mid: Db, db': Db, imageTags: Registry, listTags: Registry,
                 fetchImage: FetchImage, fetchList: FetchList)
    requires ImagesFetched(db.images, mid.images, fetchImage, imageTags.Values) && mid.lists == db.lists
    requires ListsFetched(ContentOf(mid), ContentOf(db'), fetchList, listTags.Values)
    ensures RowsFetched(db, imageTags, listTags, fetchImage, fetchList, db')
  {
    forall d | d in db'.images && d !in db.images && d !in imageTags.Values
      ensures NewWithList(ContentOf(db), ContentOf(db'), fetchList, d)
    {
      assert NewWithList(ContentOf(mid), ContentOf(db'), fetchList, d);
    }
  }

  // ----- One digest -----

  method UpdateImage(tx: Transaction, repository: string, d: Digest, newTags: seq<string>, oldTags: Option<seq<string>>,
                     fetch: FetchImage, ghost manifest: Manifest)
    returns (ok: bool, wrote: bool)
    requires newTags != [] && Integrity(tx.Value(), manifest) && (oldTags.Some? ==> d in tx.images)
    modifies tx
    ensures Integrity(tx.Value(), manifest)
    ensures ok == (oldTags.Some? || fetch(d).Some?)
    ensures ok ==> wrote == (oldTags != Some(newTags))
    ensures ok ==> tx.imageTags == if wrote then Retagged(old(tx.imageTags), repository, d, TagsAsSet(newTags))
                                 else old(tx.imageTags)
    ensures old(tx.images).Keys <= tx.images.Keys
    ensures ok ==> ImagesFetched(old(tx.images), tx.images, fetch, {d})
    ensures tx.lists == old(tx.lists) && tx.entries == old(tx.entries) && tx.listTags == old(tx.listTags)
    ensures !wrote ==> tx.Value() == old(tx.Value())
  {
    ok, wrote := true, false;
    if oldTags.None? {
      var row := fetch(d);
      if row.None? {
        ok := false;
        return;
      }
      var image := Image(d, row.value);
      ApplyKeepsIntegrity(tx.Value(), Op.StoreImage(repository, image, newTags), manifest);
      tx.StoreImage(repository, image, newTags);
      wrote := true;
    } else {
      var equal := StringsEqual(oldTags.value, newTags);
      if !equal {
        ApplyKeepsIntegrity(tx.Value(), Op.SetImageTags(repository, d, newTags), manifest);
        ok := tx.SetImageTags(repository, d, newTags);
        wrote := true;
      }
    }
  }

  method UpdateList(tx: Transaction, repository: string, d: Digest, newTags: seq<string>, oldTags: Option<seq<string>>,
                    fetch: FetchList, ghost manifest: Manifest)
    returns (ok: bool, wrote: bool)
    requires newTags != [] && Integrity(tx.Value(), manifest) && (oldTags.Some? ==> d in tx.lists)
    requires Faithful(fetch, manifest)
    modifies tx
    ensures Integrity(tx.Value(), manifest)
    ensures ok == (oldTags.Some? || fetch(d).Some?)
    ensures ok ==> wrote == (oldTags != Some(newTags))
    ensures ok ==> tx.listTags == if wrote then Retagged(old(tx.listTags), repository, d, TagsAsSet(newTags))
                                 else old(tx.listTags)
    ensures old(tx.lists).Keys <= tx.lists.Keys
    ensures ok ==> ListsFetched(Content(old(tx.images), old(tx.lists)), Content(tx.images, tx.lists), fetch, {d})
    ensures tx.imageTags == old(tx.imageTags)
    ensures !wrote ==> tx.Value() == old(tx.Value())
  {
    ok, wrote := true, false;
    if oldTags.None? {
      var content := fetch(d);
      if content.None? {
        ok := false;
        return;
      }
      var list := ImageList(d, content.value.0, content.value.1);
      ghost var was := tx.Value();
      StoredListKeepsTags(was, list, manifest);
      StoredListRows(was, list, fetch);
      ApplyKeepsIntegrity(tx.Value(), Op.StoreImageList(repository, list, newTags), manifest);
      tx.StoreImageList(repository, list, newTags);
      assert Content(tx.images, tx.lists) == ContentOf(StoredList(was, list));
      wrote := true;
    } else {
      var equal := StringsEqual(oldTags.value, newTags);
      if !equal {
        ApplyKeepsIntegrity(tx.Value(), Op.SetImageListTags(repository, d, newTags), manifest);
        ok := tx.SetImageListTags(repository, d, newTags);
        wrote := true;
      }
    }
  }

  lemma StoredListKeepsTags(db: Db, list: ImageList, manifest: Manifest)
    requires Integrity(db, manifest)
    ensures var db' := StoredList(db, list);
            && db'.imageTags == db.imageTags && db'.listTags == db.listTags
            && db.lists.Keys <= db'.lists.Keys && list.digest in db'.lists
  {
    if list.digest !in db.lists {
      StoredEntriesEffect(db.(lists := db.lists[list.digest := list.row]), list.digest, list.images, list.digest);
    }
  }

  // ----- All digests of a repository -----

  /** One pass over one tag table: what it starts from, and what it aims at. */
  datatype Pass = Pass(table: TagTable, visible: set<Digest>, repository: string, registry: Registry)

  /** The digests written among those handled so far. */
  ghost function WrittenAmong(p: Pass, handled: set<Digest>): set<Digest> {
    set d | d in handled && !Skipped(p.table, p.visible, p.repository, p.registry, d)
  }

  /** How far the pass has come: the table as it is now, and whether anything was written. */
  ghost predicate Progress(p: Pass, now: TagTable, handled: set<Digest>, changed: bool) {
    && now == Written(p.table, p.repository, p.registry, WrittenAmong(p, handled))
    && changed == (WrittenAmong(p, handled) != {})
  }

  lemma ProgressAtStart(p: Pass)
    ensures Progress(p, p.table, {}, false)
  {
    assert WrittenAmong(p, {}) == {};
    WriteNothing(p.table, p.repository, p.registry);
  }

  lemma ProgressNext(p: Pass, now: TagTable, handled: set<Digest>, changed: bool, d: Digest)
    requires Progress(p, now, handled, changed)
    ensures if Skipped(p.table, p.visible, p.repository, p.registry, d) then Progress(p, now, handled + {d}, changed)
            else Progress(p, Retagged(now, p.repository, d, TagsFor(p.registry, d)), handled + {d}, true)
  {
    if Skipped(p.table, p.visible, p.repository, p.registry, d) {
      assert WrittenAmong(p, handled + {d}) == WrittenAmong(p, handled);
    } else {
      assert WrittenAmong(p, handled + {d}) == WrittenAmong(p, handled) + {d};
      WriteOneMore(p.table, p.repository, p.registry, WrittenAmong(p, handled), d);
    }
  }

  lemma NotInRegistry(p: Pass, d: Digest)
    requires d in OldDigests(p.table, p.visible, p.repository) && d !in p.registry.Values
    ensures TagsFor(p.registry, d) == {} && !Skipped(p.table, p.visible, p.repository, p.registry, d)
  {
    var k :| k in p.table && k.0 == p.repository && p.table[k] == d;
    assert k in KeysOf(p.table, d);
    assert TagsFor(p.registry, d) == {};
    BagIsSet(KeysOf(p.table, d), TagsFor(p.registry, d));
  }

  /** A digest that the registry no longer has loses its tags here. */
  lemma ProgressGone(p: Pass, now: TagTable, handled: set<Digest>, changed: bool, d: Digest)
    requires Progress(p, now, handled, changed)
    requires d in OldDigests(p.table, p.visible, p.repository) && d !in p.registry.Values
    ensures Progress(p, Retagged(now, p.repository, d, {}), handled + {d}, true)
  {
    NotInRegistry(p, d);
    ProgressNext(p, now, handled, changed, d);
  }

  /** Nothing outside the registry is skipped, so handling everything writes what the pass touches. */
  lemma ProgressAtEnd(p: Pass, now: TagTable, handled: set<Digest>, changed: bool)
    requires Progress(p, now, handled, changed)
    requires handled == p.registry.Values + (OldDigests(p.table, p.visible, p.repository) - p.registry.Values)
    ensures now == Reconciled(p.table, p.visible, p.repository, p.registry)
    ensures changed == (Touched(p.table, p.visible, p.repository, p.registry) != {})
  {
    forall d | d in OldDigests(p.table, p.visible, p.repository) - p.registry.Values
      ensures !Skipped(p.table, p.visible, p.repository, p.registry, d)
    {
      NotInRegistry(p, d);
    }
    assert WrittenAmong(p, handled) == Touched(p.table, p.visible, p.repository, p.registry);
  }

  /** Some digests are handled, `left` are still to come, and `gone` are reported and not yet met. */
  ghost predicate Going(p: Pass, reported: set<Digest>, handled: set<Digest>, left: set<Digest>, gone: set<Digest>) {
    p.registry.Values == handled + left && handled !! left && gone == reported - handled
  }

  lemma GoingFirst(p: Pass, reported: set<Digest>)
    ensures Going(p, reported, {}, p.registry.Values, reported)
  {
  }

  lemma GoingLast(p: Pass, reported: set<Digest>, handled: set<Digest>, gone: set<Digest>)
    requires Going(p, reported, handled, {}, gone)
    ensures handled == p.registry.Values && gone == reported - p.registry.Values
  {
  }

  lemma GoingNext(p: Pass, reported: set<Digest>, handled: set<Digest>, left: set<Digest>, gone: set<Digest>, d: Digest)
    requires Going(p, reported, handled, left, gone) && d in left
    ensures Going(p, reported, handled + {d}, left - {d}, gone - {d})
  {
  }

  method HandleImage(tx: Transaction, repository: string, d: Digest, group: seq<string>,
                     oldTags: Option<seq<string>>, changed: bool, fetch: FetchImage, ghost p: Pass,
                     ghost reported: map<Digest, seq<string>>, ghost handled: set<Digest>, ghost manifest: Manifest)
    returns (ok: bool, changed': bool)
    requires Integrity(tx.Value(), manifest) && p.visible <= tx.images.Keys && p.repository == repository
    requires Reports(reported, p.table, p.visible, p.repository) && Progress(p, tx.imageTags, handled, changed)
    requires d in p.registry.Values && multiset(group) == multiset(TagsFor(p.registry, d))
    requires oldTags == if d in reported then Some(reported[d]) else None
    modifies tx
    ensures Integrity(tx.Value(), manifest) && p.visible <= tx.images.Keys
    ensures ok == (d in reported || fetch(d).Some?)
    ensures ok ==> Progress(p, tx.imageTags, handled + {d}, changed')
    ensures ok ==> ImagesFetched(old(tx.images), tx.images, fetch, {d})
    ensures tx.lists == old(tx.lists) && tx.entries == old(tx.entries) && tx.listTags == old(tx.listTags)
    ensures changed ==> changed'
    ensures !changed' ==> tx.Value() == old(tx.Value())
  {
    var newTags := Sort(group);
    SortedGroup(group, p.registry, d);
    ComparingDecides(reported, p.table, p.visible, repository, p.registry, d, newTags);
    ProgressNext(p, tx.imageTags, handled, changed, d);
    assert d in reported ==> d in p.visible;
    var wrote;
    ok, wrote := UpdateImage(tx, repository, d, newTags, oldTags, fetch, manifest);
    changed' := changed || wrote;
  }

  method HandleList(tx: Transaction, repository: string, d: Digest, group: seq<string>,
                    oldTags: Option<seq<string>>, changed: bool, fetch: FetchList, ghost p: Pass,
                    ghost reported: map<Digest, seq<string>>, ghost handled: set<Digest>, ghost manifest: Manifest)
    returns (ok: bool, changed': bool)
    requires Faithful(fetch, manifest)
    requires Integrity(tx.Value(), manifest) && p.visible <= tx.lists.Keys && p.repository == repository
    requires Reports(reported, p.table, p.visible, p.repository) && Progress(p, tx.listTags, handled, changed)
    requires d in p.registry.Values && multiset(group) == multiset(TagsFor(p.registry, d))
    requires oldTags == if d in reported then Some(reported[d]) else None
    modifies tx
    ensures Integrity(tx.Value(), manifest) && p.visible <= tx.lists.Keys
    ensures ok == (d in reported || fetch(d).Some?)
    ensures ok ==> Progress(p, tx.listTags, handled + {d}, changed')
    ensures ok ==> ListsFetched(Content(old(tx.images), old(tx.lists)), Content(tx.images, tx.lists), fetch, {d})
    ensures tx.imageTags == old(tx.imageTags)
    ensures changed ==> changed'
    ensures !changed' ==> tx.Value() == old(tx.Value())
  {
    var newTags := Sort(group);
    SortedGroup(group, p.registry, d);
    ComparingDecides(reported, p.table, p.visible, repository, p.registry, d, newTags);
    ProgressNext(p, tx.listTags, handled, changed, d);
    assert d in reported ==> d in p.visible;
    var wrote;
    ok, wrote := UpdateList(tx, repository, d, newTags, oldTags, fetch, manifest);
    changed' := changed || wrote;
  }

  method ForgetImage(tx: Transaction, repository: string, d: Digest,
                     ghost p: Pass, ghost handled: set<Digest>, ghost changed: bool, ghost manifest: Manifest)
    requires Integrity(tx.Value(), manifest) && p.repository == repository
    requires d in OldDigests(p.table, p.visible, repository) && d !in p.registry.Values
    requires Progress(p, tx.imageTags, handled, changed)
    modifies tx`imageTags
    ensures Integrity(tx.Value(), manifest)
    ensures Progress(p, tx.imageTags, handled + {d}, true)
  {
    ghost var was := tx.Value();
    tx.DeleteImage(repository, d);
    ProgressGone(p, was.imageTags, handled, changed, d);
    ApplyKeepsIntegrity(was, Op.DeleteImage(repository, d), manifest);
  }

  /** The digests that the registry no longer has, in any order. */
  method DeleteImages(tx: Transaction, repository: string, gone: set<Digest>, changedBefore: bool,
                      ghost p: Pass, ghost handled: set<Digest>, ghost manifest: Manifest)
    returns (changed: bool)
    requires Integrity(tx.Value(), manifest) && p.repository == repository
    requires gone <= OldDigests(p.table, p.visible, repository) - p.registry.Values
    requires Progress(p, tx.imageTags, handled, changedBefore)
    modifies tx`imageTags
    ensures Integrity(tx.Value(), manifest)
    ensures Progress(p, tx.imageTags, handled + gone, changed)
    ensures changedBefore ==> changed
    ensures !changed ==> tx.Value() == old(tx.Value())
  {
    changed := changedBefore;
    var left := gone;
    ghost var now := handled;
    AllDone(gone);
    while left != {}
      invariant left <= gone && now == handled + (gone - left)
      invariant Integrity(tx.Value(), manifest)
      invariant Progress(p, tx.imageTags, now, changed)
      invariant changedBefore ==> changed
      invariant !changed ==> tx.Value() == old(tx.Value())
    {
      var d :| d in left;
      OneMoreAdded(handled, gone, left, d);
      ForgetImage(tx, repository, d, p, now, changed, manifest);
      changed := true;
      left := left - {d};
      now := now + {d};
    }
  }

  method ForgetList(tx: Transaction, repository: string, d: Digest,
                     ghost p: Pass, ghost handled: set<Digest>, ghost changed: bool, ghost manifest: Manifest)
    requires Integrity(tx.Value(), manifest) && p.repository == repository
    requires d in OldDigests(p.table, p.visible, repository) && d !in p.registry.Values
    requires Progress(p, tx.listTags, handled, changed)
    modifies tx`listTags
    ensures Integrity(tx.Value(), manifest)
    ensures Progress(p, tx.listTags, handled + {d}, true)
  {
    ghost var was := tx.Value();
    tx.DeleteImageList(repository, d);
    ProgressGone(p, was.listTags, handled, changed, d);
    ApplyKeepsIntegrity(was, Op.DeleteImageList(repository, d), manifest);
  }

  method DeleteLists(tx: Transaction, repository: string, gone: set<Digest>, changedBefore: bool,
                     ghost p: Pass, ghost handled: set<Digest>, ghost manifest: Manifest)
    returns (changed: bool)
    requires Integrity(tx.Value(), manifest) && p.repository == repository
    requires gone <= OldDigests(p.table, p.visible, repository) - p.registry.Values
    requires Progress(p, tx.listTags, handled, changedBefore)
    modifies tx`listTags
    ensures Integrity(tx.Value(), manifest)
    ensures Progress(p, tx.listTags, handled + gone, changed)
    ensures changedBefore ==> changed
    ensures !changed ==> tx.Value() == old(tx.Value())
  {
    changed := changedBefore;
    var left := gone;
    ghost var now := handled;
    AllDone(gone);
    while left != {}
      invariant left <= gone && now == handled + (gone - left)
      invariant Integrity(tx.Value(), manifest)
      invariant Progress(p, tx.listTags, now, changed)
      invariant changedBefore ==> changed
      invariant !changed ==> tx.Value() == old(tx.Value())
    {
      var d :| d in left;
      OneMoreAdded(handled, gone, left, d);
      ForgetList(tx, repository, d, p, now, changed, manifest);
      changed := true;
      left := left - {d};
      now := now + {d};
    }
  }

  /** Each digest of the registry, in any order; `gone` are the reported digests that remain. */
  method HandleImages(tx: Transaction, repository: string, registry: Registry, reported: map<Digest, seq<string>>,
                      fetch: FetchImage, ghost p: Pass, ghost manifest: Manifest)
    returns (ok: bool, changed: bool, gone: set<Digest>)
    requires Integrity(tx.Value(), manifest) && p.visible <= tx.images.Keys
    requires p.repository == repository && p.registry == registry
    requires Reports(reported, p.table, p.visible, p.repository) && Progress(p, tx.imageTags, {}, false)
    modifies tx
    ensures Integrity(tx.Value(), manifest)
    ensures ok == Fetchable(fetch, registry.Values, reported.Keys)
    ensures ok ==> Progress(p, tx.imageTags, registry.Values, changed) && gone == reported.Keys - registry.Values
    ensures ok ==> ImagesFetched(old(tx.images), tx.images, fetch, registry.Values)
    ensures tx.lists == old(tx.lists) && tx.entries == old(tx.entries) && tx.listTags == old(tx.listTags)
    ensures ok && !changed ==> tx.Value() == old(tx.Value())
  {
    ok, changed, gone := true, false, reported.Keys;
    var groups := GroupByDigest(registry);
    var left := groups.Keys;
    ghost var handled: set<Digest> := {};
    GoingFirst(p, reported.Keys);
    while left != {}
      invariant ImagesFetched(old(tx.images), tx.images, fetch, handled)
      invariant ok && Going(p, reported.Keys, handled, left, gone)
      invariant Progress(p, tx.imageTags, handled, changed) && Fetchable(fetch, handled, reported.Keys)
      invariant Integrity(tx.Value(), manifest) && p.visible <= tx.images.Keys
      invariant tx.lists == old(tx.lists) && tx.entries == old(tx.entries) && tx.listTags == old(tx.listTags)
      invariant !changed ==> tx.Value() == old(tx.Value())
    {
      var d :| d in left;
      var oldTags := if d in gone then Some(reported[d]) else None;
      ghost var stored := tx.images;
      assert d !in handled;
      ok, changed := HandleImage(tx, repository, d, groups[d], oldTags, changed, fetch, p, reported, handled, manifest);
      if !ok {
        assert d in registry.Values && d !in reported.Keys;
        return;
      }
      GoingNext(p, reported.Keys, handled, left, gone, d);
      FetchableOneMore(fetch, handled, reported.Keys, d);
      ImagesFetchedChain(old(tx.images), stored, tx.images, fetch, handled, {d});
      gone := gone - {d};
      left := left - {d};
      handled := handled + {d};
    }
    GoingLast(p, reported.Keys, handled, gone);
  }

  method UpdateImages(tx: Transaction, repository: string, registry: Registry, reported: map<Digest, seq<string>>,
                      fetch: FetchImage, ghost manifest: Manifest)
    returns (ok: bool, changed: bool)
    requires Integrity(tx.Value(), manifest) && Reports(reported, tx.imageTags, tx.images.Keys, repository)
    modifies tx
    ensures Integrity(tx.Value(), manifest)
    ensures ok == Fetchable(fetch, registry.Values, reported.Keys)
    ensures ok ==> tx.imageTags == Reconciled(old(tx.imageTags), old(tx.images).Keys, repository, registry)
    ensures ok ==> changed == (Touched(old(tx.imageTags), old(tx.images).Keys, repository, registry) != {})
    ensures ok ==> ImagesFetched(old(tx.images), tx.images, fetch, registry.Values)
    ensures tx.lists == old(tx.lists) && tx.entries == old(tx.entries) && tx.listTags == old(tx.listTags)
    ensures ok && !changed ==> tx.Value() == old(tx.Value())
  {
    ghost var p := Pass(tx.imageTags, tx.images.Keys, repository, registry);
    ProgressAtStart(p);
    var gone;
    ok, changed, gone := HandleImages(tx, repository, registry, reported, fetch, p, manifest);
    if ok {
      changed := DeleteImages(tx, repository, gone, changed, p, registry.Values, manifest);
      ProgressAtEnd(p, tx.imageTags, registry.Values + gone, changed);
    }
  }

  /** Each digest of the registry, in any order; `gone` are the reported digests that remain. */
  method HandleLists(tx: Transaction, repository: string, registry: Registry, reported: map<Digest, seq<string>>,
                      fetch: FetchList, ghost p: Pass, ghost manifest: Manifest)
    returns (ok: bool, changed: bool, gone: set<Digest>)
    requires Faithful(fetch, manifest) && Integrity(tx.Value(), manifest) && p.visible <= tx.lists.Keys
    requires p.repository == repository && p.registry == registry
    requires Reports(reported, p.table, p.visible, p.repository) && Progress(p, tx.listTags, {}, false)
    modifies tx
    ensures Integrity(tx.Value(), manifest)
    ensures ok == Fetchable(fetch, registry.Values, reported.Keys)
    ensures ok ==> Progress(p, tx.listTags, registry.Values, changed) && gone == reported.Keys - registry.Values
    ensures ok ==> ListsFetched(Content(old(tx.images), old(tx.lists)), Content(tx.images, tx.lists), fetch,
                                registry.Values)
    ensures tx.imageTags == old(tx.imageTags)
    ensures ok && !changed ==> tx.Value() == old(tx.Value())
  {
    ok, changed, gone := true, false, reported.Keys;
    var groups := GroupByDigest(registry);
    var left := groups.Keys;
    ghost var handled: set<Digest> := {};
    GoingFirst(p, reported.Keys);
    while left != {}
      invariant ListsFetched(Content(old(tx.images), old(tx.lists)), Content(tx.images, tx.lists), fetch, handled)
      invariant ok && Going(p, reported.Keys, handled, left, gone)
      invariant Progress(p, tx.listTags, handled, changed) && Fetchable(fetch, handled, reported.Keys)
      invariant Integrity(tx.Value(), manifest) && p.visible <= tx.lists.Keys
      invariant tx.imageTags == old(tx.imageTags)
      invariant !changed ==> tx.Value() == old(tx.Value())
    {
      var d :| d in left;
      var oldTags := if d in gone then Some(reported[d]) else None;
      ghost var stored := Content(tx.images, tx.lists);
      assert d !in handled;
      ok, changed := HandleList(tx, repository, d, groups[d], oldTags, changed, fetch, p, reported, handled, manifest);
      if !ok {
        assert d in registry.Values && d !in reported.Keys;
        return;
      }
      GoingNext(p, reported.Keys, handled, left, gone, d);
      FetchableOneMore(fetch, handled, reported.Keys, d);
      ListsFetchedChain(Content(old(tx.images), old(tx.lists)), stored, Content(tx.images, tx.lists),
                        fetch, handled, {d});
      gone := gone - {d};
      left := left - {d};
      handled := handled + {d};
    }
    GoingLast(p, reported.Keys, handled, gone);
  }

  method UpdateLists(tx: Transaction, repository: string, registry: Registry, reported: map<Digest, seq<string>>,
                      fetch: FetchList, ghost visible: set<Digest>, ghost manifest: Manifest)
    returns (ok: bool, changed: bool)
    requires Faithful(fetch, manifest) && Integrity(tx.Value(), manifest) && visible <= tx.lists.Keys
    requires Reports(reported, tx.listTags, visible, repository)
    modifies tx
    ensures Integrity(tx.Value(), manifest)
    ensures ok == Fetchable(fetch, registry.Values, reported.Keys)
    ensures ok ==> tx.listTags == Reconciled(old(tx.listTags), visible, repository, registry)
    ensures ok ==> changed == (Touched(old(tx.listTags), visible, repository, registry) != {})
    ensures ok ==> ListsFetched(Content(old(tx.images), old(tx.lists)), Content(tx.images, tx.lists), fetch,
                                registry.Values)
    ensures tx.imageTags == old(tx.imageTags)
    ensures ok && !changed ==> tx.Value() == old(tx.Value())
  {
    ghost var p := Pass(tx.listTags, visible, repository, registry);
    ProgressAtStart(p);
    var gone;
    ok, changed, gone := HandleLists(tx, repository, registry, reported, fetch, p, manifest);
    if ok {
      changed := DeleteLists(tx, repository, gone, changed, p, registry.Values, manifest);
      ProgressAtEnd(p, tx.listTags, registry.Values + gone, changed);
    }
  }

  // ----- What the database has for the repository -----

  lemma RepositoryQuery(q: QueryData, repository: string)
    requires q == Append(EMPTY_QUERY, Plain(Column.Repository), QueryTerm(QueryIs, repository))
    ensures WellBuilt(q) && MakeWhereClause.BackslashFree(q)
    ensures forall row :: Answers(row, q) <==> row.repository == Some(repository)
  {
    var term := QueryTerm(QueryIs, repository);
    forall f
      ensures TermsOf(q, f) == if f == Plain(Column.Repository) then [term] else []
    {
      AppendTerms(EMPTY_QUERY, Plain(Column.Repository), term, f);
    }
    assert forall c :: PlainTerms(q, c) == TermsOf(q, Plain(c));
    forall row
      ensures Answers(row, q) <==> row.repository == Some(repository)
    {
      var f := Plain(Column.Repository);
      assert ValueOf(row, f) == row.repository;
      if row.repository == Some(repository) {
        assert Satisfies(row, f, TermsOf(q, f)[0]);
      }
      if Answers(row, q) {
        assert SomeSatisfied(row, f, TermsOf(q, f));
      }
    }
  }

  function Named(repository: string, ds: set<Digest>): set<(string, Digest)> {
    set d | d in ds :: (repository, d)
  }

  /** The pairs that a query about one repository reports. */
  lemma PairsOfRepository(db: Db, repository: string, sel: Row -> bool)
    requires ForeignKeys(db) && forall row :: sel(row) <==> row.repository == Some(repository)
    ensures ImagePairs(db, sel) == Named(repository, OldDigests(db.imageTags, db.images.Keys, repository))
    ensures ListPairs(db, sel) == Named(repository, OldDigests(db.listTags, VisibleLists(db), repository))
  {
    forall k | k in db.imageTags
      ensures ImageSelected(db, k, sel) <==> k.0 == repository
    {
    }
    forall k | k in db.listTags
      ensures ListSelected(db, k, sel) <==> k.0 == repository && db.listTags[k] in VisibleLists(db)
    {
      ListSeen(db, repository, sel, k);
    }
  }

  lemma ListSeen(db: Db, repository: string, sel: Row -> bool, k: Key)
    requires ForeignKeys(db) && k in db.listTags && forall row :: sel(row) <==> row.repository == Some(repository)
    ensures ListSelected(db, k, sel) <==> k.0 == repository && db.listTags[k] in VisibleLists(db)
  {
    var list := db.listTags[k];
    var images := SelectedImages(db, k.0, list, sel);
    if k.0 == repository && list in VisibleLists(db) {
      var e :| e in db.entries && e.0 == list && e.1 in db.images;
      assert sel(JoinedRow(k, db.images[e.1]));
      assert e.1 in images;
    }
    if images != map[] {
      var i :| i in images;
      var e :| e in db.entries && e.0 == list && e.1 == i;
      assert list in VisibleLists(db);
    }
  }

  method IndexImages(images: seq<TaggedImage>) returns (index: map<Digest, seq<string>>)
    ensures index.Keys == set i | 0 <= i < |images| :: images[i].digest
    ensures forall d :: d in index ==>
              exists i :: 0 <= i < |images| && images[i].digest == d && index[d] == images[i].tags
  {
    index := map[];
    for n := 0 to |images|
      invariant index.Keys == set i | 0 <= i < n :: images[i].digest
      invariant forall d :: d in index ==> exists i :: 0 <= i < n && images[i].digest == d && index[d] == images[i].tags
    {
      index := index[images[n].digest := images[n].tags];
    }
  }

  method IndexLists(lists: seq<TaggedImageList>) returns (index: map<Digest, seq<string>>)
    ensures index.Keys == set i | 0 <= i < |lists| :: lists[i].digest
    ensures forall d :: d in index ==>
              exists i :: 0 <= i < |lists| && lists[i].digest == d && index[d] == lists[i].tags
  {
    index := map[];
    for n := 0 to |lists|
      invariant index.Keys == set i | 0 <= i < n :: lists[i].digest
      invariant forall d :: d in index ==> exists i :: 0 <= i < n && lists[i].digest == d && index[d] == lists[i].tags
    {
      index := index[lists[n].digest := lists[n].tags];
    }
  }

  lemma ReportsImages(db: Db, repository: string, images: seq<TaggedImage>, index: map<Digest, seq<string>>)
    requires ImageStream(db, Named(repository, OldDigests(db.imageTags, db.images.Keys, repository)),
                         Tagged(repository, images))
    requires forall i :: 0 <= i < |images| ==> Sorted(images[i].tags)
    requires index.Keys == set i | 0 <= i < |images| :: images[i].digest
    requires forall d :: d in index ==>
              exists i :: 0 <= i < |images| && images[i].digest == d && index[d] == images[i].tags
    ensures Reports(index, db.imageTags, db.images.Keys, repository)
  {
    var rows := Tagged(repository, images);
    var old' := OldDigests(db.imageTags, db.images.Keys, repository);
    forall d
      ensures d in index <==> d in old'
    {
      if d in index {
        var i :| 0 <= i < |images| && images[i].digest == d;
        assert ImageKeys(rows)[i] == (repository, d);
        assert (repository, d) in Named(repository, old');
      }
      if d in old' {
        assert (repository, d) in ImageKeys(rows);
        var i :| 0 <= i < |rows| && ImageKeys(rows)[i] == (repository, d);
        assert images[i].digest == d;
      }
    }
    forall d | d in index
      ensures Sorted(index[d]) && multiset(index[d]) == TagBag(KeysOf(db.imageTags, d))
    {
      var i :| 0 <= i < |images| && images[i].digest == d && index[d] == images[i].tags;
      assert RightImage(db, rows[i]);
    }
  }

  lemma ReportsLists(db: Db, sel: Row -> bool, repository: string, lists: seq<TaggedImageList>,
                     index: map<Digest, seq<string>>)
    requires ListStream(db, sel, Named(repository, OldDigests(db.listTags, VisibleLists(db), repository)),
                        Tagged(repository, lists))
    requires forall i :: 0 <= i < |lists| ==> Sorted(lists[i].tags)
    requires index.Keys == set i | 0 <= i < |lists| :: lists[i].digest
    requires forall d :: d in index ==>
              exists i :: 0 <= i < |lists| && lists[i].digest == d && index[d] == lists[i].tags
    ensures Reports(index, db.listTags, VisibleLists(db), repository)
  {
    var rows := Tagged(repository, lists);
    var old' := OldDigests(db.listTags, VisibleLists(db), repository);
    forall d
      ensures d in index <==> d in old'
    {
      if d in index {
        var i :| 0 <= i < |lists| && lists[i].digest == d;
        assert ListKeys(rows)[i] == (repository, d);
        assert (repository, d) in Named(repository, old');
      }
      if d in old' {
        assert (repository, d) in ListKeys(rows);
        var i :| 0 <= i < |rows| && ListKeys(rows)[i] == (repository, d);
        assert lists[i].digest == d;
      }
    }
    forall d | d in index
      ensures Sorted(index[d]) && multiset(index[d]) == TagBag(KeysOf(db.listTags, d))
    {
      var i :| 0 <= i < |lists| && lists[i].digest == d && index[d] == lists[i].tags;
      assert RightList(db, sel, rows[i]);
    }
  }

  /** The first, and only, entry of the query's result. */
  method QueryRepository(db: Db, repository: string)
    returns (images: map<Digest, seq<string>>, lists: map<Digest, seq<string>>)
    requires ForeignKeys(db)
    ensures Reports(images, db.imageTags, db.images.Keys, repository)
    ensures Reports(lists, db.listTags, VisibleLists(db), repository)
  {
    var query := new Query();
    query.AddRepository(repository);
    ghost var sel := Answering(query.Data());
    RepositoryQuery(query.Data(), repository);
    PairsOfRepository(db, repository, sel);
    var repositories := DoQuery.Run(db, query);
    var entry := Repository.Repository(repository, [], []);
    if |repositories| > 0 {
      entry := repositories[0];
    }
    OnlyEntry(db, sel, repository, repositories, entry);
    images := IndexImages(entry.images);
    lists := IndexLists(entry.lists);
    ReportsImages(db, repository, entry.images, images);
    ReportsLists(db, sel, repository, entry.lists, lists);
  }

  lemma OnlyEntry(db: Db, sel: Row -> bool, repository: string, rs: seq<Repository<TaggedImage, TaggedImageList>>,
                  entry: Repository<TaggedImage, TaggedImageList>)
    requires ImageStream(db, Named(repository, OldDigests(db.imageTags, db.images.Keys, repository)), ImageRows(rs))
    requires ListStream(db, sel, Named(repository, OldDigests(db.listTags, VisibleLists(db), repository)), ListRows(rs))
    requires OnlyNamed(ImageRows(rs), repository) && OnlyNamed(ListRows(rs), repository) ==> |rs| <= 1
    requires forall i :: 0 <= i < |ImageRows(rs)| ==> Sorted(ImageRows(rs)[i].1.tags)
    requires forall i :: 0 <= i < |ListRows(rs)| ==> Sorted(ListRows(rs)[i].1.tags)
    requires entry == if |rs| > 0 then rs[0] else Repository.Repository(repository, [], [])
    ensures ImageRows(rs) == Tagged(repository, entry.images) && ListRows(rs) == Tagged(repository, entry.lists)
    ensures forall i :: 0 <= i < |entry.images| ==> Sorted(entry.images[i].tags)
    ensures forall i :: 0 <= i < |entry.lists| ==> Sorted(entry.lists[i].tags)
  {
    ImagesNamed(repository, OldDigests(db.imageTags, db.images.Keys, repository), ImageRows(rs));
    ListsNamed(repository, OldDigests(db.listTags, VisibleLists(db), repository), ListRows(rs));
    if |rs| > 0 {
      assert rs == [entry];
      OneRepository(entry);
      SameNames(ImageRows(rs), entry.name, entry.images, repository);
      SameNames(ListRows(rs), entry.name, entry.lists, repository);
    }
    assert forall i :: 0 <= i < |entry.images| ==> ImageRows(rs)[i].1 == entry.images[i];
    assert forall i :: 0 <= i < |entry.lists| ==> ListRows(rs)[i].1 == entry.lists[i];
  }

  lemma ImagesNamed(repository: string, ds: set<Digest>, rows: seq<(string, TaggedImage)>)
    requires Enumerates(ImageKeys(rows), Named(repository, ds))
    ensures OnlyNamed(rows, repository)
  {
    forall i | 0 <= i < |rows|
      ensures rows[i].0 == repository
    {
      assert ImageKeys(rows)[i] in ImageKeys(rows);
      assert ImageKeys(rows)[i].0 == rows[i].0;
    }
  }

  lemma ListsNamed(repository: string, ds: set<Digest>, rows: seq<(string, TaggedImageList)>)
    requires Enumerates(ListKeys(rows), Named(repository, ds))
    ensures OnlyNamed(rows, repository)
  {
    forall i | 0 <= i < |rows|
      ensures rows[i].0 == repository
    {
      assert ListKeys(rows)[i] in ListKeys(rows);
      assert ListKeys(rows)[i].0 == rows[i].0;
    }
  }

  lemma SameNames<T>(rows: seq<(string, T)>, name: string, items: seq<T>, repository: string)
    requires rows == Tagged(name, items) && OnlyNamed(rows, repository)
    ensures rows == Tagged(repository, items)
  {
    if items != [] {
      assert rows[0].0 == name;
    }
  }

  // ----- The whole pass -----

  /** Both tag tables become what reconciliation makes of them; without a write nothing changes. */
  method UpdateRepository(tx: Transaction, repository: string, imageTags: Registry, listTags: Registry,
                          fetchImage: FetchImage, fetchList: FetchList, ghost manifest: Manifest)
    returns (ok: bool, changed: bool)
    requires Integrity(tx.Value(), manifest) && Faithful(fetchList, manifest)
    modifies tx
    ensures Integrity(tx.Value(), manifest)
    ensures ok <==>
              && Fetchable(fetchImage, imageTags.Values, OldDigests(old(tx.imageTags), old(tx.images).Keys, repository))
              && Fetchable(fetchList, listTags.Values,
                           OldDigests(old(tx.listTags), VisibleLists(old(tx.Value())), repository))
    ensures ok ==> tx.imageTags == Reconciled(old(tx.imageTags), old(tx.images).Keys, repository, imageTags)
    ensures ok ==> tx.listTags == Reconciled(old(tx.listTags), VisibleLists(old(tx.Value())), repository, listTags)
    ensures ok ==> changed == (Touched(old(tx.imageTags), old(tx.images).Keys, repository, imageTags)
                               + Touched(old(tx.listTags), VisibleLists(old(tx.Value())), repository, listTags) != {})
    ensures ok ==> RowsFetched(old(tx.Value()), imageTags, listTags, fetchImage, fetchList, tx.Value())
    ensures ok && !changed ==> tx.Value() == old(tx.Value())
  {
    var oldImages, oldLists := QueryRepository(tx.Value(), repository);
    ghost var visible := VisibleLists(tx.Value());
    ok, changed := UpdateImages(tx, repository, imageTags, oldImages, fetchImage, manifest);
    if ok {
      var listsChanged;
      ghost var mid := tx.Value();
      ok, listsChanged := UpdateLists(tx, repository, listTags, oldLists, fetchList, visible, manifest);
      changed := changed || listsChanged;
      if ok {
        PassRows(old(tx.Value()), mid, tx.Value(), imageTags, listTags, fetchImage, fetchList);
      }
    }
  }

  /** What a pass may do to the database: everything, or nothing when a digest cannot be fetched. */
  ghost predicate Fetched(db: Db, repository: string, imageTags: Registry, listTags: Registry,
                          fetchImage: FetchImage, fetchList: FetchList, manifest: Manifest, db': Db) {
    && Integrity(db', manifest)
    && if && Fetchable(fetchImage, imageTags.Values, OldDigests(db.imageTags, db.images.Keys, repository))
          && Fetchable(fetchList, listTags.Values, OldDigests(db.listTags, VisibleLists(db), repository))
       then && db'.imageTags == Reconciled(db.imageTags, db.images.Keys, repository, imageTags)
            && db'.listTags == Reconciled(db.listTags, VisibleLists(db), repository, listTags)
            && RowsFetched(db, imageTags, listTags, fetchImage, fetchList, db')
       else db' == db
  }

  /**
   The transaction around the pass: an error leaves the database as it was, and
   the only error is a digest that cannot be fetched and is not in the database.
   After success the repository's image rows are the registry's if and only if
   no image digest is masked, and its list rows if and only if no list digest
   is masked and no row of an entry-less list is stranded; and what was missing
   is stored as it was fetched (see `RowsFetched`).
   */
  method FetchRepository(db: Db, repository: string, imageTags: Registry, listTags: Registry,
                         fetchImage: FetchImage, fetchList: FetchList, ghost manifest: Manifest)
    returns (db': Db, ok: bool, changed: bool)
    requires Integrity(db, manifest) && Faithful(fetchList, manifest)
    ensures Fetched(db, repository, imageTags, listTags, fetchImage, fetchList, manifest, db')
    ensures ok <==>
              && Fetchable(fetchImage, imageTags.Values, OldDigests(db.imageTags, db.images.Keys, repository))
              && Fetchable(fetchList, listTags.Values, OldDigests(db.listTags, VisibleLists(db), repository))
    ensures !ok || !changed ==> db' == db
    ensures ok ==> changed == (Touched(db.imageTags, db.images.Keys, repository, imageTags)
                               + Touched(db.listTags, VisibleLists(db), repository, listTags) != {})
    ensures ok ==> (RepositoryRows(db'.imageTags, repository) == imageTags
                    <==> forall d :: d in imageTags.Values ==>
                           !Masked(db.imageTags, db.images.Keys, repository, imageTags, d))
    ensures ok ==> (RepositoryRows(db'.listTags, repository) == listTags
                    <==> && (forall d :: d in listTags.Values ==>
                               !Masked(db.listTags, VisibleLists(db), repository, listTags, d))
                         && (forall t :: !Stranded(db.listTags, VisibleLists(db), repository, listTags, t)))
    ensures forall other :: other != repository ==>
              && RepositoryRows(db'.imageTags, other) == RepositoryRows(db.imageTags, other)
              && RepositoryRows(db'.listTags, other) == RepositoryRows(db.listTags, other)
  {
    var tx := new Transaction(db);
    ok, changed := UpdateRepository(tx, repository, imageTags, listTags, fetchImage, fetchList, manifest);
    db' := if ok then tx.Value() else db;
    ConvergesIff(db.imageTags, db.images.Keys, repository, imageTags);
    ConvergesIff(db.listTags, VisibleLists(db), repository, listTags);
    forall other | other != repository
      ensures RepositoryRows(db'.imageTags, other) == RepositoryRows(db.imageTags, other)
      ensures RepositoryRows(db'.listTags, other) == RepositoryRows(db.listTags, other)
    {
      OthersUntouched(db.imageTags, db.images.Keys, repository, imageTags, other);
      OthersUntouched(db.listTags, VisibleLists(db), repository, listTags, other);
    }
  }

  /**
   A second pass on an unchanged registry succeeds if the first did.  After one
   that converged the tag tables stay as they are, and the second writes nothing
   and signals no change if and only if no digest of the repository is tagged
   elsewhere and every list it has is visible.
   */
  method FetchTwice(db: Db, repository: string, imageTags: Registry, listTags: Registry,
                    fetchImage: FetchImage, fetchList: FetchList, ghost manifest: Manifest)
    returns (first: Db, second: Db, ok: bool, changed: bool)
    requires Integrity(db, manifest) && Faithful(fetchList, manifest)
    ensures ok <==>
              && Fetchable(fetchImage, imageTags.Values, OldDigests(db.imageTags, db.images.Keys, repository))
              && Fetchable(fetchList, listTags.Values, OldDigests(db.listTags, VisibleLists(db), repository))
    ensures ok ==> first.imageTags == Reconciled(db.imageTags, db.images.Keys, repository, imageTags)
    ensures ok ==> first.listTags == Reconciled(db.listTags, VisibleLists(db), repository, listTags)
    ensures ok && RepositoryRows(first.imageTags, repository) == imageTags
               && RepositoryRows(first.listTags, repository) == listTags ==>
              && second.imageTags == first.imageTags && second.listTags == first.listTags
              && (!changed <==> && (forall d :: d in imageTags.Values ==> !Elsewhere(first.imageTags, repository, d))
                                && (forall d :: d in listTags.Values ==>
                                      d in VisibleLists(first) && !Elsewhere(first.listTags, repository, d)))
    ensures ok && !changed ==> second == first
  {
    first, ok, changed := FetchRepository(db, repository, imageTags, listTags, fetchImage, fetchList, manifest);
    second := first;
    if ok {
      StillFetchable(db, first, repository, imageTags, listTags, fetchImage, fetchList, manifest);
      second, ok, changed := FetchRepository(first, repository, imageTags, listTags, fetchImage, fetchList, manifest);
      if RepositoryRows(first.imageTags, repository) == imageTags
         && RepositoryRows(first.listTags, repository) == listTags {
        SecondPassChangesNothing(first.imageTags, first.images.Keys, repository, imageTags);
        SecondPassChangesNothing(first.listTags, VisibleLists(first), repository, listTags);
        QuietIff(first.imageTags, first.images.Keys, repository, imageTags);
        QuietIff(first.listTags, VisibleLists(first), repository, listTags);
        RegistryImagesStored(first, repository, imageTags);
      }
    }
  }

  lemma VisibleIffNonEmpty(db: Db, manifest: Manifest, d: Digest)
    requires Integrity(db, manifest)
    ensures d in VisibleLists(db) <==> d in db.lists && manifest(d) != {}
  {
    if d in db.lists {
      assert CompleteList(db, d, manifest);
      if x :| x in manifest(d) {
        assert x in EntriesOf(db, d);
        assert (d, x) in db.entries;
      }
    }
    if d in VisibleLists(db) {
      var e :| e in db.entries && e.0 == d;
      assert e.1 in EntriesOf(db, d);
    }
  }

  /** What a successful pass could fetch or did not need to, the next one can fetch or does not need to. */
  lemma StillFetchable(db: Db, db': Db, repository: string, imageTags: Registry, listTags: Registry,
                       fetchImage: FetchImage, fetchList: FetchList, manifest: Manifest)
    requires Integrity(db, manifest) && Integrity(db', manifest)
    requires db'.imageTags == Reconciled(db.imageTags, db.images.Keys, repository, imageTags)
    requires db'.listTags == Reconciled(db.listTags, VisibleLists(db), repository, listTags)
    requires Fetchable(fetchImage, imageTags.Values, OldDigests(db.imageTags, db.images.Keys, repository))
    requires Fetchable(fetchList, listTags.Values, OldDigests(db.listTags, VisibleLists(db), repository))
    ensures Fetchable(fetchImage, imageTags.Values, OldDigests(db'.imageTags, db'.images.Keys, repository))
    ensures Fetchable(fetchList, listTags.Values, OldDigests(db'.listTags, VisibleLists(db'), repository))
  {
    forall d | d in imageTags.Values && d in OldDigests(db.imageTags, db.images.Keys, repository)
      ensures d in OldDigests(db'.imageTags, db'.images.Keys, repository)
    {
      StillTagged(db.imageTags, db.images.Keys, repository, imageTags, d);
    }
    forall d | d in listTags.Values && d in OldDigests(db.listTags, VisibleLists(db), repository)
      ensures d in OldDigests(db'.listTags, VisibleLists(db'), repository)
    {
      StillTagged(db.listTags, VisibleLists(db), repository, listTags, d);
      VisibleIffNonEmpty(db, manifest, d);
      VisibleIffNonEmpty(db', manifest, d);
    }
  }

  lemma RegistryImagesStored(db: Db, repository: string, registry: Registry)
    requires ForeignKeys(db) && RepositoryRows(db.imageTags, repository) == registry
    ensures registry.Values <= db.images.Keys
  {
    forall d | d in registry.Values
      ensures d in db.images
    {
      var t :| t in registry && registry[t] == d;
      ConvergedPointwise(db.imageTags, repository, registry);
      assert db.imageTags[(repository, t)] == d;
    }
  }
}
