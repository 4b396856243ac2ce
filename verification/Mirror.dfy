/**
 The dispatcher together with the passes it schedules: what the database holds
 when the workers have come to rest.

 A worker that holds a repository commits one pass over it and then releases
 it; transactions are serial.  The locker may collect garbage in its exclusive
 phase.  The registry does not change meanwhile.
 */
module Mirror {
  import opened Options
  import opened Collections
  import opened DispatcherCore
  import opened DispatcherSystem
  import opened Tables
  import opened Store
  import opened Reconcile
  import opened Fetcher

  /** The registry: the tags of each repository, and what it sends for a digest. */
  datatype Upstream = Upstream(
    imageTags: Repo -> Registry,
    listTags: Repo -> Registry,
    fetchImage: FetchImage,
    fetchList: FetchList,
    manifest: Manifest)

  /** `fetched` are the holders that have committed their pass. */
  datatype World = World(system: System, db: Db, fetched: set<Worker>)

  datatype Action = Scheduled(event: Event) | Committed(worker: Worker) | CollectedGarbage

  ghost predicate Commits(up: Upstream, repo: Repo, db: Db, db': Db) {
    Fetched(db, repo, up.imageTags(repo), up.listTags(repo), up.fetchImage, up.fetchList, up.manifest, db')
  }

  predicate Holds(s: System, w: Worker) {
    w in s.workers && s.workers[w].Holding?
  }

  ghost predicate WorldStep(up: Upstream, x: World, a: Action, x': World) {
    match a
    case Scheduled(e) =>
      && Step(x.system, e, x'.system) && x'.db == x.db
      && (e.Released? ==> e.worker in x.fetched)
      && x'.fetched == if e.Released? then x.fetched - {e.worker} else x.fetched
    case Committed(w) =>
      && Holds(x.system, w) && w !in x.fetched
      && x'.system == x.system && x'.fetched == x.fetched + {w}
      && Commits(up, x.system.workers[w].repo, x.db, x'.db)
    case CollectedGarbage =>
      x.system.locker.Exclusive? && x' == x.(db := Collected(x.db))
  }

  ghost predicate IsWorldRun(up: Upstream, worlds: seq<World>, actions: seq<Action>) {
    && |worlds| == |actions| + 1
    && forall i {:trigger actions[i]} :: 0 <= i < |actions| ==> WorldStep(up, worlds[i], actions[i], worlds[i + 1])
  }

  /** What the workers and the locker do by themselves. */
  predicate InternalAction(a: Action) {
    a.Committed? || (a.Scheduled? && Internal(a.event))
  }

  // ----- The invariant -----

  ghost predicate WorldInv(up: Upstream, x: World) {
    Inv(x.system) && Integrity(x.db, up.manifest) && forall w :: w in x.fetched ==> Holds(x.system, w)
  }

  lemma InitialWorldInv(up: Upstream, x: World)
    requires Initial(x.system) && x.db == EMPTY_DB && x.fetched == {}
    ensures WorldInv(up, x)
  {
    InitialInv(x.system);
    IntegrityInEveryRun([], up.manifest);
  }

  /** Only its own take makes a worker a holder, and only its own release ends that. */
  lemma StepHolders(s: System, e: Event, s': System, w: Worker)
    requires Step(s, e, s')
    ensures Holds(s, w) && !(e.Released? && e.worker == w) ==> Holds(s', w) && s'.workers[w] == s.workers[w]
    ensures Holds(s', w) ==> Holds(s, w) || (e.Taken? && e.worker == w)
    ensures e.Released? && e.worker == w ==> !Holds(s', w)
  {
    match e
    case Added(r, _) => SignalEffect(AddSignals(s.core, r), s.workers, s'.workers);
    case Released(v, r) => SignalEffect(ReleaseSignals(s.core, r), s.workers[v := Running], s'.workers);
    case _ =>
  }

  lemma WorldStepInv(up: Upstream, x: World, a: Action, x': World)
    requires WorldInv(up, x) && WorldStep(up, x, a, x')
    ensures WorldInv(up, x')
  {
    match a
    case Scheduled(e) =>
      StepInv(x.system, e, x'.system);
      forall w | w in x'.fetched
        ensures Holds(x'.system, w)
      {
        StepHolders(x.system, e, x'.system, w);
      }
    case Committed(_) =>
    case CollectedGarbage => ApplyKeepsIntegrity(x.db, DeleteUnused, up.manifest);
  }

  /** Integrity of the database and the dispatcher's invariant hold at every point of every run. */
  lemma {:induction false} WorldRunInv(up: Upstream, worlds: seq<World>, actions: seq<Action>, n: nat)
    requires IsWorldRun(up, worlds, actions) && WorldInv(up, worlds[0]) && n <= |actions|
    ensures WorldInv(up, worlds[n])
  {
    if n == 0 {
    } else {
      WorldRunInv(up, worlds, actions, n - 1);
      WorldStepInv(up, worlds[n - 1], actions[n - 1], worlds[n]);
    }
  }

  /** A collection never runs while a pass does. */
  lemma CollectionIsAlone(up: Upstream, x: World, x': World)
    requires WorldInv(up, x) && WorldStep(up, x, CollectedGarbage, x')
    ensures forall w :: !Holds(x.system, w)
    ensures RepositoryRowsKept(x.db, x'.db)
  {
    assert Pending(x.system.core) == {};
  }

  ghost predicate RepositoryRowsKept(db: Db, db': Db) {
    db'.imageTags == db.imageTags && db'.listTags == db.listTags
  }

  // ----- Where the rows come from -----

  /** The digests a repository starts with, and those the registry has for it. */
  function ImageOrigin(up: Upstream, start: Db, repo: Repo): set<Digest> {
    RepositoryRows(start.imageTags, repo).Values + up.imageTags(repo).Values
  }

  function ListOrigin(up: Upstream, start: Db, repo: Repo): set<Digest> {
    RepositoryRows(start.listTags, repo).Values + up.listTags(repo).Values
  }

  ghost predicate FromOrigins(up: Upstream, start: Db, db: Db) {
    && (forall k :: k in db.imageTags ==> db.imageTags[k] in ImageOrigin(up, start, k.0))
    && (forall k :: k in db.listTags ==> db.listTags[k] in ListOrigin(up, start, k.0))
  }

  /** No other repository has or gets its digests, its lists are not empty, and all it needs can be fetched. */
  ghost predicate Unshared(up: Upstream, start: Db, repo: Repo) {
    && (forall q, d :: q != repo && d in ImageOrigin(up, start, repo) ==> d !in ImageOrigin(up, start, q))
    && (forall q, d :: q != repo && d in ListOrigin(up, start, repo) ==> d !in ListOrigin(up, start, q))
    && (forall d :: d in ListOrigin(up, start, repo) ==> up.manifest(d) != {})
    && Fetchable(up.fetchImage, up.imageTags(repo).Values, {})
    && Fetchable(up.fetchList, up.listTags(repo).Values, {})
  }

  lemma StartsFromOrigins(up: Upstream, db: Db)
    ensures FromOrigins(up, db, db)
  {
    forall k | k in db.imageTags
      ensures db.imageTags[k] in ImageOrigin(up, db, k.0)
    {
      assert RepositoryRows(db.imageTags, k.0)[k.1] == db.imageTags[k];
    }
    forall k | k in db.listTags
      ensures db.listTags[k] in ListOrigin(up, db, k.0)
    {
      assert RepositoryRows(db.listTags, k.0)[k.1] == db.listTags[k];
    }
  }

  lemma ReconciledRow(table: TagTable, visible: set<Digest>, repo: Repo, registry: Registry, k: Key)
    requires k in Reconciled(table, visible, repo, registry)
    ensures var d := Reconciled(table, visible, repo, registry)[k];
            (k in table && table[k] == d) || (k.0 == repo && d in registry.Values)
  {
    WrittenAt(table, repo, registry, Touched(table, visible, repo, registry), k);
  }

  lemma CommitFromOrigins(up: Upstream, start: Db, db: Db, repo: Repo, db': Db)
    requires FromOrigins(up, start, db) && Commits(up, repo, db, db')
    ensures FromOrigins(up, start, db')
  {
    if db' != db {
      forall k | k in db'.imageTags
        ensures db'.imageTags[k] in ImageOrigin(up, start, k.0)
      {
        ReconciledRow(db.imageTags, db.images.Keys, repo, up.imageTags(repo), k);
      }
      forall k | k in db'.listTags
        ensures db'.listTags[k] in ListOrigin(up, start, k.0)
      {
        ReconciledRow(db.listTags, VisibleLists(db), repo, up.listTags(repo), k);
      }
    }
  }

  // ----- What a commit achieves -----

  /** The repository's rows are the registry's. */
  ghost predicate Mirrored(up: Upstream, db: Db, repo: Repo) {
    && RepositoryRows(db.imageTags, repo) == up.imageTags(repo)
    && RepositoryRows(db.listTags, repo) == up.listTags(repo)
  }

  lemma OwnRows(up: Upstream, start: Db, db: Db, repo: Repo)
    requires Integrity(db, up.manifest) && FromOrigins(up, start, db) && Unshared(up, start, repo)
    ensures forall k :: k in db.imageTags && k.0 == repo ==>
              db.imageTags[k] in db.images.Keys && !Elsewhere(db.imageTags, repo, db.imageTags[k])
    ensures forall k :: k in db.listTags && k.0 == repo ==>
              db.listTags[k] in VisibleLists(db) && !Elsewhere(db.listTags, repo, db.listTags[k])
  {
    forall k | k in db.listTags && k.0 == repo
      ensures db.listTags[k] in VisibleLists(db)
    {
      VisibleIffNonEmpty(db, up.manifest, db.listTags[k]);
    }
  }

  lemma CommitSucceeds(up: Upstream, start: Db, db: Db, repo: Repo, db': Db)
    requires Unshared(up, start, repo) && Commits(up, repo, db, db')
    ensures db'.imageTags == Reconciled(db.imageTags, db.images.Keys, repo, up.imageTags(repo))
    ensures db'.listTags == Reconciled(db.listTags, VisibleLists(db), repo, up.listTags(repo))
  {
    assert Fetchable(up.fetchImage, up.imageTags(repo).Values, OldDigests(db.imageTags, db.images.Keys, repo));
    assert Fetchable(up.fetchList, up.listTags(repo).Values, OldDigests(db.listTags, VisibleLists(db), repo));
  }

  lemma CommitMirrors(up: Upstream, start: Db, db: Db, repo: Repo, db': Db)
    requires Integrity(db, up.manifest) && FromOrigins(up, start, db) && Unshared(up, start, repo)
    requires Commits(up, repo, db, db')
    ensures Mirrored(up, db', repo)
  {
    OwnRows(up, start, db, repo);
    CommitSucceeds(up, start, db, repo, db');
    ConvergesWithoutSharing(db.imageTags, db.images.Keys, repo, up.imageTags(repo));
    ConvergesWithoutSharing(db.listTags, VisibleLists(db), repo, up.listTags(repo));
  }

  lemma CommitKeepsOthers(up: Upstream, db: Db, repo: Repo, db': Db, other: Repo)
    requires Commits(up, repo, db, db') && other != repo
    ensures Mirrored(up, db', other) <==> Mirrored(up, db, other)
  {
    OthersUntouched(db.imageTags, db.images.Keys, repo, up.imageTags(repo), other);
    OthersUntouched(db.listTags, VisibleLists(db), repo, up.listTags(repo), other);
  }

  // ----- A request is pursued until it is fulfilled -----

  ghost predicate BeingFetched(x: World, repo: Repo) {
    exists w :: Holds(x.system, w) && x.system.workers[w].repo == repo && w !in x.fetched
  }

  ghost predicate Pursued(up: Upstream, x: World, repo: Repo) {
    repo in Wanted(x.system.core) || BeingFetched(x, repo) || Mirrored(up, x.db, repo)
  }

  lemma ScheduledPursues(up: Upstream, x: World, e: Event, x': World, repo: Repo)
    requires WorldInv(up, x) && WorldStep(up, x, Scheduled(e), x') && Pursued(up, x, repo)
    ensures Pursued(up, x', repo)
  {
    if repo in Wanted(x.system.core) {
      WantedOrTaken(x.system, e, x'.system, repo);
      if e.Taken? && e.repo == repo {
        assert Holds(x'.system, e.worker);
      }
    } else if BeingFetched(x, repo) {
      var w :| Holds(x.system, w) && x.system.workers[w].repo == repo && w !in x.fetched;
      StepHolders(x.system, e, x'.system, w);
    }
  }

  lemma WantedOrTaken(s: System, e: Event, s': System, repo: Repo)
    requires Inv(s) && Step(s, e, s') && repo in Wanted(s.core)
    ensures repo in Wanted(s'.core) || (e.Taken? && e.repo == repo)
  {
    match e
    case Added(r, low) => AddKeeps(s.core, r, low);
    case Taken(_, r) => TakeKeeps(s.core, r);
    case Released(_, r) => ReleaseKeeps(s.core, r);
    case _ =>
  }

  lemma CommitPursues(up: Upstream, start: Db, x: World, w: Worker, x': World, repo: Repo)
    requires WorldInv(up, x) && FromOrigins(up, start, x.db) && Unshared(up, start, repo)
    requires WorldStep(up, x, Committed(w), x') && Pursued(up, x, repo)
    ensures Pursued(up, x', repo)
  {
    var r := x.system.workers[w].repo;
    if r == repo {
      CommitMirrors(up, start, x.db, repo, x'.db);
    } else {
      CommitKeepsOthers(up, x.db, r, x'.db, repo);
      if v :| Holds(x.system, v) && x.system.workers[v].repo == repo && v !in x.fetched {
        assert v !in x'.fetched;
      }
    }
  }

  lemma ActionFromOrigins(up: Upstream, start: Db, x: World, a: Action, x': World)
    requires FromOrigins(up, start, x.db) && WorldStep(up, x, a, x')
    ensures FromOrigins(up, start, x'.db)
  {
    match a
    case Scheduled(_) =>
    case Committed(w) => CommitFromOrigins(up, start, x.db, x.system.workers[w].repo, x'.db);
    case CollectedGarbage =>
  }

  ghost predicate OnTrack(up: Upstream, start: Db, x: World, repo: Repo) {
    Unshared(up, start, repo) && WorldInv(up, x) && FromOrigins(up, start, x.db) && Pursued(up, x, repo)
  }

  lemma ActionKeepsTrack(up: Upstream, start: Db, x: World, a: Action, x': World, repo: Repo)
    ensures OnTrack(up, start, x, repo) && WorldStep(up, x, a, x') ==> OnTrack(up, start, x', repo)
  {
    if OnTrack(up, start, x, repo) && WorldStep(up, x, a, x') {
      WorldStepInv(up, x, a, x');
      ActionFromOrigins(up, start, x, a, x');
      match a
      case Scheduled(e) => ScheduledPursues(up, x, e, x', repo);
      case Committed(w) => CommitPursues(up, start, x, w, x', repo);
      case CollectedGarbage =>
    }
  }

  lemma {:induction false} OriginsInEveryRun(up: Upstream, worlds: seq<World>, actions: seq<Action>, n: nat)
    requires IsWorldRun(up, worlds, actions) && n <= |actions|
    ensures FromOrigins(up, worlds[0].db, worlds[n].db)
  {
    if n == 0 {
      StartsFromOrigins(up, worlds[0].db);
    } else {
      OriginsInEveryRun(up, worlds, actions, n - 1);
      ActionFromOrigins(up, worlds[0].db, worlds[n - 1], actions[n - 1], worlds[n]);
    }
  }

  ghost function Stepping(up: Upstream): (World, Action, World) -> bool {
    (x, a, x') => WorldStep(up, x, a, x')
  }

  ghost function Tracking(up: Upstream, start: Db, repo: Repo): World -> bool {
    x => OnTrack(up, start, x, repo)
  }

  lemma RunSteps(up: Upstream, worlds: seq<World>, actions: seq<Action>)
    requires IsWorldRun(up, worlds, actions)
    ensures Chained(Stepping(up), worlds, actions)
  {
    forall k | 0 <= k < |actions|
      ensures Stepping(up)(worlds[k], actions[k], worlds[k + 1])
    {
    }
  }

  lemma TrackingKept(up: Upstream, start: Db, repo: Repo)
    ensures Kept(Stepping(up), Tracking(up, start, repo))
  {
    forall x, a, x' | Tracking(up, start, repo)(x) && Stepping(up)(x, a, x')
      ensures Tracking(up, start, repo)(x')
    {
      ActionKeepsTrack(up, start, x, a, x', repo);
    }
  }

  /** In every run, a repository that was asked for is wanted, being fetched, or mirrored, from then on. */
  lemma PursuedUntilMirrored(up: Upstream, worlds: seq<World>, actions: seq<Action>, i: nat, j: nat, repo: Repo)
    requires IsWorldRun(up, worlds, actions) && WorldInv(up, worlds[0]) && i <= j <= |actions|
    requires Unshared(up, worlds[0].db, repo) && repo in Wanted(worlds[i].system.core)
    ensures OnTrack(up, worlds[0].db, worlds[j], repo)
  {
    WorldRunInv(up, worlds, actions, i);
    OriginsInEveryRun(up, worlds, actions, i);
    RunSteps(up, worlds, actions);
    TrackingKept(up, worlds[0].db, repo);
    KeptAlong(Stepping(up), Tracking(up, worlds[0].db, repo), worlds, actions, i, j);
  }

  // ----- Every row was fetched -----

  ghost predicate GenuineImage(up: Upstream, image: Image) {
    up.fetchImage(image.digest) == Some(image.row) || exists l :: FromList(up.fetchList, l, image)
  }

  /** Every image row was sent for its digest, alone or in a list, and every list row was sent for its digest. */
  ghost predicate Genuine(up: Upstream, db: Db) {
    && (forall d :: d in db.images ==> GenuineImage(up, Image(d, db.images[d])))
    && (forall d :: d in db.lists ==> up.fetchList(d).Some? && up.fetchList(d).value.0 == db.lists[d])
  }

  lemma ActionKeepsGenuine(up: Upstream, x: World, a: Action, x': World)
    ensures Genuine(up, x.db) && WorldStep(up, x, a, x') ==> Genuine(up, x'.db)
  {
    if Genuine(up, x.db) && WorldStep(up, x, a, x') && a.Committed? && x'.db != x.db {
      CommitIsGenuine(up, x.system.workers[a.worker].repo, x.db, x'.db);
    }
  }

  lemma CommitIsGenuine(up: Upstream, repo: Repo, db: Db, db': Db)
    requires Genuine(up, db) && RowsFetched(db, up.imageTags(repo), up.listTags(repo), up.fetchImage, up.fetchList, db')
    ensures Genuine(up, db')
  {
    forall d | d in db'.images
      ensures GenuineImage(up, Image(d, db'.images[d]))
    {
      if d in db.images {
        assert GenuineImage(up, Image(d, db.images[d]));
      } else if d !in up.imageTags(repo).Values {
        assert NewWithList(ContentOf(db), ContentOf(db'), up.fetchList, d);
      }
    }
  }

  /** In every run, the database holds nothing that the registry did not send. */
  lemma GenuineInEveryRun(up: Upstream, worlds: seq<World>, actions: seq<Action>, n: nat)
    requires IsWorldRun(up, worlds, actions) && Genuine(up, worlds[0].db) && n <= |actions|
    ensures Genuine(up, worlds[n].db)
  {
    RunSteps(up, worlds, actions);
    var genuine := (x: World) => Genuine(up, x.db);
    forall x, a, x' | genuine(x) && Stepping(up)(x, a, x')
      ensures genuine(x')
    {
      ActionKeepsGenuine(up, x, a, x');
    }
    KeptAlong(Stepping(up), genuine, worlds, actions, 0, n);
  }

  // ----- Coming to rest -----

  ghost predicate AtRest(up: Upstream, x: World) {
    forall a, x' :: InternalAction(a) ==> !WorldStep(up, x, a, x')
  }

  lemma AsSequence(s: set<string>) returns (q: seq<string>)
    ensures TagsAsSet(q) == s && (q == [] <==> s == {})
  {
    if s == {} {
      q := [];
    } else {
      var t :| t in s;
      var rest := AsSequence(s - {t});
      q := [t] + rest;
      assert TagsAsSet(q) == {t} + TagsAsSet(rest);
    }
  }

  /** Whether the last of `ds` has to be stored: only if the registry has it. */
  lemma TaggedInRegistry(registry: Registry, ds: set<Digest>, d: Digest, tags: seq<string>)
    returns (stored: set<Digest>)
    requires d in ds && TagsAsSet(tags) == TagsFor(registry, d) && (tags == [] <==> TagsFor(registry, d) == {})
    ensures tags == [] <==> d !in registry.Values
    ensures stored == (if tags == [] then {} else {d})
    ensures (ds - {d}) * registry.Values + stored == ds * registry.Values
    ensures ds - {d} + {d} == ds
  {
    stored := if tags == [] then {} else {d};
    if d in registry.Values {
      var t :| t in registry && registry[t] == d;
      assert t in TagsFor(registry, d);
    }
  }

  /** Writing any digests that are stored or can be fetched takes one store operation for each. */
  lemma WriteImages(db: Db, repo: Repo, registry: Registry, fetch: FetchImage, ds: set<Digest>, manifest: Manifest)
    returns (db': Db)
    requires Integrity(db, manifest)
    requires forall d :: d in ds && d in registry.Values ==> d in db.images || fetch(d).Some?
    ensures Integrity(db', manifest) && db.images.Keys <= db'.images.Keys
    ensures db'.imageTags == Written(db.imageTags, repo, registry, ds)
    ensures ImagesFetched(db.images, db'.images, fetch, ds * registry.Values)
    ensures db'.lists == db.lists && db'.entries == db.entries && db'.listTags == db.listTags
    decreases ds
  {
    if ds == {} {
      db' := db;
      WriteNothing(db.imageTags, repo, registry);
    } else {
      var d :| d in ds;
      var mid := WriteImages(db, repo, registry, fetch, ds - {d}, manifest);
      var tags := AsSequence(TagsFor(registry, d));
      var stored := TaggedInRegistry(registry, ds, d, tags);
      WriteOneMore(db.imageTags, repo, registry, ds - {d}, d);
      db' := WriteImage(mid, repo, d, tags, fetch, manifest);
      ImagesFetchedChain(db.images, mid.images, db'.images, fetch, (ds - {d}) * registry.Values, stored);
    }
  }

  lemma WriteImage(db: Db, repo: Repo, d: Digest, tags: seq<string>, fetch: FetchImage, manifest: Manifest)
    returns (db': Db)
    requires Integrity(db, manifest)
    requires tags == [] || d in db.images || fetch(d).Some?
    ensures Integrity(db', manifest) && db.images.Keys <= db'.images.Keys
    ensures db'.lists == db.lists && db'.entries == db.entries && db'.listTags == db.listTags
    ensures db'.imageTags == Retagged(db.imageTags, repo, d, TagsAsSet(tags))
    ensures ImagesFetched(db.images, db'.images, fetch, if tags == [] then {} else {d})
  {
    if tags == [] || d in db.images {
      db' := Apply(db, SetImageTags(repo, d, tags));
      ApplyKeepsIntegrity(db, SetImageTags(repo, d, tags), manifest);
    } else {
      var image := Image(d, fetch(d).value);
      db' := Apply(db, StoreImage(repo, image, tags));
      ApplyKeepsIntegrity(db, StoreImage(repo, image, tags), manifest);
    }
  }

  lemma WriteLists(db: Db, repo: Repo, registry: Registry, fetch: FetchList, ds: set<Digest>, manifest: Manifest)
    returns (db': Db)
    requires Integrity(db, manifest) && Faithful(fetch, manifest)
    requires forall d :: d in ds && d in registry.Values ==> d in db.lists || fetch(d).Some?
    ensures Integrity(db', manifest) && db.lists.Keys <= db'.lists.Keys
    ensures db'.listTags == Written(db.listTags, repo, registry, ds)
    ensures ListsFetched(ContentOf(db), ContentOf(db'), fetch, ds * registry.Values)
    ensures db'.imageTags == db.imageTags
    decreases ds
  {
    if ds == {} {
      db' := db;
      WriteNothing(db.listTags, repo, registry);
    } else {
      var d :| d in ds;
      var mid := WriteLists(db, repo, registry, fetch, ds - {d}, manifest);
      var tags := AsSequence(TagsFor(registry, d));
      var stored := TaggedInRegistry(registry, ds, d, tags);
      WriteOneMore(db.listTags, repo, registry, ds - {d}, d);
      db' := WriteList(mid, repo, d, tags, fetch, manifest);
      ListsFetchedChain(ContentOf(db), ContentOf(mid), ContentOf(db'), fetch, (ds - {d}) * registry.Values, stored);
    }
  }

  lemma WriteList(db: Db, repo: Repo, d: Digest, tags: seq<string>, fetch: FetchList, manifest: Manifest)
    returns (db': Db)
    requires Integrity(db, manifest) && Faithful(fetch, manifest)
    requires tags == [] || d in db.lists || fetch(d).Some?
    ensures Integrity(db', manifest) && db.lists.Keys <= db'.lists.Keys && db'.imageTags == db.imageTags
    ensures db'.listTags == Retagged(db.listTags, repo, d, TagsAsSet(tags))
    ensures ListsFetched(ContentOf(db), ContentOf(db'), fetch, if tags == [] then {} else {d})
  {
    if tags == [] || d in db.lists {
      db' := Apply(db, SetImageListTags(repo, d, tags));
      ApplyKeepsIntegrity(db, SetImageListTags(repo, d, tags), manifest);
    } else {
      var list := ImageList(d, fetch(d).value.0, fetch(d).value.1);
      db' := Apply(db, StoreImageList(repo, list, tags));
      StoredListKeepsTags(db, list, manifest);
      StoredListRows(db, list, fetch);
      ApplyKeepsIntegrity(db, StoreImageList(repo, list, tags), manifest);
    }
  }

  /** A digest of the registry is either written or, if skipped, visible. */
  lemma EverythingStored(table: TagTable, visible: set<Digest>, repo: Repo, registry: Registry)
    ensures registry.Values <= Touched(table, visible, repo, registry) * registry.Values + visible
  {
  }

  /** A pass can always be committed, if only as a pass that changed nothing. */
  lemma CommitEnabled(up: Upstream, repo: Repo, db: Db)
    requires Integrity(db, up.manifest) && Faithful(up.fetchList, up.manifest)
    ensures exists db' :: Commits(up, repo, db, db')
  {
    var images, lists := up.imageTags(repo), up.listTags(repo);
    if && Fetchable(up.fetchImage, images.Values, OldDigests(db.imageTags, db.images.Keys, repo))
       && Fetchable(up.fetchList, lists.Values, OldDigests(db.listTags, VisibleLists(db), repo)) {
      var mid := WriteImages(db, repo, images, up.fetchImage,
                             Touched(db.imageTags, db.images.Keys, repo, images), up.manifest);
      var db' := WriteLists(mid, repo, lists, up.fetchList,
                            Touched(db.listTags, VisibleLists(db), repo, lists), up.manifest);
      EverythingStored(db.imageTags, db.images.Keys, repo, images);
      EverythingStored(db.listTags, VisibleLists(db), repo, lists);
      PassRows(db, mid, db', images, lists, up.fetchImage, up.fetchList);
      assert Commits(up, repo, db, db');
    } else {
      assert Commits(up, repo, db, db);
    }
  }

  /** Whenever the dispatcher can go on, so can the world: by that step, or by a commit that has to come first. */
  lemma ActionEnabled(up: Upstream, x: World, e: Event, s': System) returns (a: Action, x': World)
    requires WorldInv(up, x) && Faithful(up.fetchList, up.manifest) && Internal(e) && Step(x.system, e, s')
    ensures InternalAction(a) && WorldStep(up, x, a, x')
  {
    if e.Released? && e.worker !in x.fetched {
      CommitEnabled(up, e.repo, x.db);
      var db' :| Commits(up, e.repo, x.db, db');
      a, x' := Committed(e.worker), World(x.system, db', x.fetched + {e.worker});
    } else {
      var fetched := if e.Released? then x.fetched - {e.worker} else x.fetched;
      a, x' := Scheduled(e), World(s', x.db, fetched);
    }
  }

  lemma RestIsStuck(up: Upstream, x: World)
    requires WorldInv(up, x) && Faithful(up.fetchList, up.manifest) && AtRest(up, x)
    ensures Stuck(x.system)
  {
    if !Stuck(x.system) {
      var e, s' :| Internal(e) && Step(x.system, e, s');
      var a, x' := ActionEnabled(up, x, e, s');
    }
  }

  /** Holders that have yet to commit. */
  function Uncommitted(x: World): set<Worker> {
    HoldingOf(x.system.workers) - x.fetched
  }

  /** Bounds what is left to do. */
  function WorldMeasure(x: World): nat {
    2 * Measure(x.system) + |Uncommitted(x)|
  }

  lemma ActionDecreases(up: Upstream, x: World, a: Action, x': World)
    requires WorldInv(up, x) && InternalAction(a) && WorldStep(up, x, a, x')
    ensures WorldMeasure(x') < WorldMeasure(x)
  {
    if a.Committed? {
      assert Uncommitted(x') == Uncommitted(x) - {a.worker};
    } else {
      InternalDecreases(x.system, a.event, x'.system);
      OneMoreUncommitted(up, x, a.event, x');
    }
  }

  lemma OneMoreUncommitted(up: Upstream, x: World, e: Event, x': World)
    requires WorldStep(up, x, Scheduled(e), x')
    ensures |Uncommitted(x')| <= |Uncommitted(x)| + 1
  {
    forall w | w in Uncommitted(x')
      ensures w in Uncommitted(x) || (e.Taken? && e.worker == w)
    {
      StepHolders(x.system, e, x'.system, w);
    }
    FewMore(Uncommitted(x), Uncommitted(x'), if e.Taken? then {e.worker} else {});
  }

  lemma FewMore<T>(a: set<T>, b: set<T>, more: set<T>)
    requires b <= a + more && |more| <= 1
    ensures |b| <= |a| + 1
  {
    CardinalityBelow(b, a + more);
    assert |a + more| <= |a| + |more|;
  }

  lemma CardinalityBelow<T>(a: set<T>, b: set<T>)
    requires a <= b
    ensures |a| <= |b|
  {
    assert b == a + (b - a);
  }

  /** Left to itself the world comes to rest. */
  lemma {:induction false} WorldRunsEnd(up: Upstream, worlds: seq<World>, actions: seq<Action>)
    requires IsWorldRun(up, worlds, actions) && WorldInv(up, worlds[0])
    requires forall i :: 0 <= i < |actions| ==> InternalAction(actions[i])
    ensures |actions| + WorldMeasure(worlds[|actions|]) <= WorldMeasure(worlds[0])
  {
    if actions == [] {
    } else {
      var n := |actions| - 1;
      assert IsWorldRun(up, worlds[..n + 1], actions[..n]);
      WorldRunsEnd(up, worlds[..n + 1], actions[..n]);
      WorldRunInv(up, worlds, actions, n);
      ActionDecreases(up, worlds[n], actions[n], worlds[n + 1]);
    }
  }

  /**
   In every run, whatever else is added, locked and collected: when the workers
   come to rest unlocked, every repository that was asked for, that shares no
   digest and can be fetched, has exactly the registry's rows.
   */
  lemma RequestedIsMirrored(up: Upstream, worlds: seq<World>, actions: seq<Action>, i: nat, repo: Repo)
    requires Faithful(up.fetchList, up.manifest)
    requires IsWorldRun(up, worlds, actions) && WorldInv(up, worlds[0]) && i <= |actions|
    requires repo in Wanted(worlds[i].system.core) && Unshared(up, worlds[0].db, repo)
    requires var last := worlds[|actions|];
             AtRest(up, last) && last.system.locker.Idle? && last.system.workers != map[]
    ensures Mirrored(up, worlds[|actions|].db, repo)
  {
    var last := worlds[|actions|];
    PursuedUntilMirrored(up, worlds, actions, i, |actions|, repo);
    WorldRunInv(up, worlds, actions, |actions|);
    RestIsStuck(up, last);
    StuckIsDone(last.system);
    NobodyHolds(last);
  }

  lemma NobodyHolds(x: World)
    requires HoldingOf(x.system.workers) == {}
    ensures forall repo :: !BeingFetched(x, repo)
  {
    assert forall w :: Holds(x.system, w) ==> w in HoldingOf(x.system.workers);
  }
}
