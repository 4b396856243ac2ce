/**
 What one pass of reconciliation makes of a tag table, and when that is what
 the registry has.

 The pass compares the tags that the database query reports for a digest with
 the registry's tags for it, and skips the digest when they are equal.  The
 query reports the tags of the digest in all repositories, and it does not
 report a digest that it cannot see (a list without entries).
 */
module Reconcile {
  import opened Options
  import opened Tables
  import opened Store

  /** A registry's tags for one repository. */
  type Registry = map<string, Digest>

  function TagsFor(registry: Registry, d: Digest): set<string> {
    set t | t in registry && registry[t] == d
  }

  /** The digests that the query reports for the repository. */
  function OldDigests(table: TagTable, visible: set<Digest>, repository: string): set<Digest> {
    set k | k in table && k.0 == repository && table[k] in visible :: table[k]
  }

  /** The digest is reported, with the very tags the registry has for it. */
  ghost predicate Skipped(table: TagTable, visible: set<Digest>, repository: string, registry: Registry, d: Digest) {
    d in OldDigests(table, visible, repository) && TagBag(KeysOf(table, d)) == multiset(TagsFor(registry, d))
  }

  /** The digests that the pass writes: stored, retagged, or deleted. */
  ghost function Touched(table: TagTable, visible: set<Digest>, repository: string, registry: Registry): set<Digest> {
    (set d | d in registry.Values && !Skipped(table, visible, repository, registry, d))
    + (OldDigests(table, visible, repository) - registry.Values)
  }

  function RowsOfAny(table: TagTable, repository: string, ds: set<Digest>): set<Key> {
    set k | k in table && k.0 == repository && table[k] in ds
  }

  function RegistryRows(registry: Registry, repository: string, ds: set<Digest>): TagTable {
    map t | t in registry && registry[t] in ds :: (repository, t) := registry[t]
  }

  /** The table once the digests in `ds` have been written. */
  function Written(table: TagTable, repository: string, registry: Registry, ds: set<Digest>): TagTable {
    (table - RowsOfAny(table, repository, ds)) + RegistryRows(registry, repository, ds)
  }

  ghost function Reconciled(table: TagTable, visible: set<Digest>, repository: string, registry: Registry): TagTable {
    Written(table, repository, registry, Touched(table, visible, repository, registry))
  }

  function At(table: TagTable, k: Key): Option<Digest> {
    if k in table then Some(table[k]) else None
  }

  lemma WrittenAt(table: TagTable, repository: string, registry: Registry, ds: set<Digest>, k: Key)
    ensures At(Written(table, repository, registry, ds), k)
         == if k.0 == repository && k.1 in registry && registry[k.1] in ds then Some(registry[k.1])
            else if k in table && k.0 == repository && table[k] in ds then None
            else At(table, k)
  {
    var added := RegistryRows(registry, repository, ds);
    if k.0 == repository && k.1 in registry && registry[k.1] in ds {
      assert k == (repository, k.1);
      assert k in added;
    }
  }

  lemma RetaggedAt(table: TagTable, repository: string, d: Digest, tags: set<string>, k: Key)
    ensures At(Retagged(table, repository, d, tags), k)
         == if k.0 == repository && k.1 in tags then Some(d)
            else if k in table && k.0 == repository && table[k] == d then None
            else At(table, k)
  {
    if k.0 == repository && k.1 in tags {
      assert k == (repository, k.1);
      assert k in NewRows(repository, d, tags);
    }
  }

  lemma SameTable(a: TagTable, b: TagTable)
    requires forall k :: At(a, k) == At(b, k)
    ensures a == b
  {
    forall k
      ensures k in a <==> k in b
      ensures k in a ==> a[k] == b[k]
    {
      assert At(a, k) == At(b, k);
    }
  }

  /** Writing digests one by one, in any order, with tags moving between them, adds up. */
  lemma WriteOneMore(table: TagTable, repository: string, registry: Registry, ds: set<Digest>, d: Digest)
    ensures Retagged(Written(table, repository, registry, ds), repository, d, TagsFor(registry, d))
         == Written(table, repository, registry, ds + {d})
  {
    var mid := Written(table, repository, registry, ds);
    var a := Retagged(mid, repository, d, TagsFor(registry, d));
    var b := Written(table, repository, registry, ds + {d});
    forall k
      ensures At(a, k) == At(b, k)
    {
      WrittenAt(table, repository, registry, ds, k);
      WrittenAt(table, repository, registry, ds + {d}, k);
      RetaggedAt(mid, repository, d, TagsFor(registry, d), k);
      assert k in mid <==> At(mid, k).Some?;
    }
    SameTable(a, b);
  }

  lemma WriteNothing(table: TagTable, repository: string, registry: Registry)
    ensures Written(table, repository, registry, {}) == table
  {
  }

  /** The rows of one repository. */
  function RepositoryRows(table: TagTable, repository: string): Registry {
    map k | k in table && k.0 == repository :: k.1 := table[k]
  }

  /** Other repositories' rows are untouched. */
  lemma OthersUntouched(table: TagTable, visible: set<Digest>, repository: string, registry: Registry, other: string)
    requires other != repository
    ensures RepositoryRows(Reconciled(table, visible, repository, registry), other) == RepositoryRows(table, other)
  {
    var after := Reconciled(table, visible, repository, registry);
    forall k: Key | k.0 == other
      ensures At(after, k) == At(table, k)
    {
      WrittenAt(table, repository, registry, Touched(table, visible, repository, registry), k);
    }
    SameRows(after, table, other);
  }

  lemma SameRows(a: TagTable, b: TagTable, repository: string)
    requires forall k: Key :: k.0 == repository ==> At(a, k) == At(b, k)
    ensures RepositoryRows(a, repository) == RepositoryRows(b, repository)
  {
    ConvergedPointwise(a, repository, RepositoryRows(b, repository));
    ConvergedPointwise(b, repository, RepositoryRows(b, repository));
    forall t
      ensures At(a, (repository, t)) == At(b, (repository, t))
    {
    }
  }

  /** Tagged in some other repository as well. */
  ghost predicate Elsewhere(table: TagTable, repository: string, d: Digest) {
    exists k :: k in table && table[k] == d && k.0 != repository
  }

  /** Skipped although some of the reported tags are another repository's. */
  ghost predicate Masked(table: TagTable, visible: set<Digest>, repository: string, registry: Registry, d: Digest) {
    Skipped(table, visible, repository, registry, d) && Elsewhere(table, repository, d)
  }

  /** A row that no branch of the pass reaches: its digest is not reported, nor named by the registry, nor its tag. */
  predicate Stranded(table: TagTable, visible: set<Digest>, repository: string, registry: Registry, tag: string) {
    var k := (repository, tag);
    k in table && table[k] !in visible && table[k] !in registry.Values && tag !in registry
  }

  lemma KeysCarry(table: TagTable, registry: Registry, d: Digest)
    requires TagBag(KeysOf(table, d)) == multiset(TagsFor(registry, d))
    ensures CarryExactly(KeysOf(table, d), TagsFor(registry, d))
  {
    BagIsSet(KeysOf(table, d), TagsFor(registry, d));
  }

  /** What the pass leaves at one tag. */
  lemma AfterAt(table: TagTable, visible: set<Digest>, repository: string, registry: Registry, tag: string)
    ensures var k := (repository, tag);
            var after := Reconciled(table, visible, repository, registry);
            var ds := Touched(table, visible, repository, registry);
            if tag in registry && registry[tag] in ds then k in after && after[k] == registry[tag]
            else if k in table && table[k] !in ds then k in after && after[k] == table[k]
            else k !in after
  {
    WrittenAt(table, repository, registry, Touched(table, visible, repository, registry), (repository, tag));
  }

  lemma RightAtRegistryTag(table: TagTable, visible: set<Digest>, repository: string, registry: Registry, tag: string)
    requires tag in registry && !Masked(table, visible, repository, registry, registry[tag])
    ensures var after := Reconciled(table, visible, repository, registry);
            (repository, tag) in after && after[(repository, tag)] == registry[tag]
  {
    var d := registry[tag];
    AfterAt(table, visible, repository, registry, tag);
    assert d in registry.Values;
    if Skipped(table, visible, repository, registry, d) {
      KeysCarry(table, registry, d);
      assert tag in TagsFor(registry, d);
      var k :| k in KeysOf(table, d) && k.1 == tag;
      assert k.0 == repository;
      assert k == (repository, tag);
    }
  }

  lemma WrongAtMaskedTag(table: TagTable, visible: set<Digest>, repository: string, registry: Registry, d: Digest)
    returns (tag: string)
    requires Masked(table, visible, repository, registry, d)
    ensures tag in registry
    ensures var after := Reconciled(table, visible, repository, registry);
            !((repository, tag) in after && after[(repository, tag)] == registry[tag])
  {
    tag := ForeignTag(table, repository, registry, d);
    AfterAt(table, visible, repository, registry, tag);
  }

  /** A tag of the registry that the digest carries elsewhere, and therefore not here. */
  lemma ForeignTag(table: TagTable, repository: string, registry: Registry, d: Digest) returns (tag: string)
    requires TagBag(KeysOf(table, d)) == multiset(TagsFor(registry, d)) && Elsewhere(table, repository, d)
    ensures tag in registry && registry[tag] == d
    ensures (repository, tag) in table ==> table[(repository, tag)] != d
  {
    KeysCarry(table, registry, d);
    var k :| k in table && table[k] == d && k.0 != repository;
    assert k in KeysOf(table, d);
    tag := k.1;
    assert tag in TagsFor(registry, d);
    var here := (repository, tag);
    assert here in KeysOf(table, d) ==> here == k;
  }

  lemma AbsentOffRegistry(table: TagTable, visible: set<Digest>, repository: string, registry: Registry, tag: string)
    requires tag !in registry
    ensures (repository, tag) in Reconciled(table, visible, repository, registry)
       <==> Stranded(table, visible, repository, registry, tag)
  {
    var k := (repository, tag);
    AfterAt(table, visible, repository, registry, tag);
    if k in table {
      var d := table[k];
      assert k in KeysOf(table, d);
      if d in registry.Values && Skipped(table, visible, repository, registry, d) {
        KeysCarry(table, registry, d);
      }
    }
  }

  ghost predicate Converged(table: TagTable, visible: set<Digest>, repository: string, registry: Registry) {
    RepositoryRows(Reconciled(table, visible, repository, registry), repository) == registry
  }

  lemma ConvergedPointwise(after: TagTable, repository: string, registry: Registry)
    ensures RepositoryRows(after, repository) == registry
       <==> && (forall t :: t in registry ==> (repository, t) in after && after[(repository, t)] == registry[t])
            && (forall t :: t !in registry ==> (repository, t) !in after)
  {
    var rows := RepositoryRows(after, repository);
    forall t
      ensures t in rows <==> (repository, t) in after
      ensures t in rows ==> rows[t] == after[(repository, t)]
    {
      if (repository, t) in after {
        assert (repository, t).1 == t;
      }
      if t in rows {
        var k :| k in after && k.0 == repository && k.1 == t;
        assert k == (repository, t);
      }
    }
  }

  /**
   One pass makes the repository's rows exactly the registry's if and only if
   no digest is masked and no row is stranded.
   */
  lemma ConvergesIff(table: TagTable, visible: set<Digest>, repository: string, registry: Registry)
    ensures Converged(table, visible, repository, registry)
       <==> && (forall d :: d in registry.Values ==> !Masked(table, visible, repository, registry, d))
            && (forall t :: !Stranded(table, visible, repository, registry, t))
  {
    var after := Reconciled(table, visible, repository, registry);
    ConvergedPointwise(after, repository, registry);
    forall t | t !in registry {
      AbsentOffRegistry(table, visible, repository, registry, t);
    }
    forall d | d in registry.Values && Masked(table, visible, repository, registry, d)
      ensures exists tag :: tag in registry
                            && !((repository, tag) in after && after[(repository, tag)] == registry[tag])
    {
      var wrong := WrongAtMaskedTag(table, visible, repository, registry, d);
    }
    forall t | t in registry && !Masked(table, visible, repository, registry, registry[t]) {
      RightAtRegistryTag(table, visible, repository, registry, t);
    }
    assert forall t :: t in registry ==> registry[t] in registry.Values;
  }

  /** In particular it does when no digest tagged here is tagged elsewhere and every tagged digest is visible. */
  lemma ConvergesWithoutSharing(table: TagTable, visible: set<Digest>, repository: string, registry: Registry)
    requires forall k :: k in table && k.0 == repository ==>
               table[k] in visible && !Elsewhere(table, repository, table[k])
    ensures Converged(table, visible, repository, registry)
  {
    forall d | d in registry.Values
      ensures !Masked(table, visible, repository, registry, d)
    {
      if d in OldDigests(table, visible, repository) {
        var k :| k in table && k.0 == repository && table[k] == d;
      }
    }
    ConvergesIff(table, visible, repository, registry);
  }

  /** A digest of the registry that was reported before the pass has a row here after it. */
  lemma StillTagged(table: TagTable, visible: set<Digest>, repository: string, registry: Registry, d: Digest)
    requires d in registry.Values && d in OldDigests(table, visible, repository)
    ensures exists k :: k in Reconciled(table, visible, repository, registry) && k.0 == repository
                        && Reconciled(table, visible, repository, registry)[k] == d
  {
    var t :| t in registry && registry[t] == d;
    if Skipped(table, visible, repository, registry, d) {
      var k :| k in table && k.0 == repository && table[k] == d;
      KeysCarry(table, registry, d);
      assert k in KeysOf(table, d);
      t := k.1;
      assert t in TagsFor(registry, d) && k == (repository, t);
    }
    AfterAt(table, visible, repository, registry, t);
    assert (repository, t).0 == repository;
  }

  lemma MaskedPair(d: Digest, here: string, there: string, a: string, b: string)
    requires here != there && a != b
    ensures var table: TagTable := map[(here, a) := d, (there, b) := d];
            Masked(table, {d}, here, map[a := d, b := d], d)
  {
    var table: TagTable := map[(here, a) := d, (there, b) := d];
    var registry: Registry := map[a := d, b := d];
    assert table[(here, a)] == d && table[(there, b)] == d;
    assert KeysOf(table, d) == {(here, a), (there, b)};
    assert TagsFor(registry, d) == {a, b};
    assert (here, a) in KeysOf(table, d) && (there, b) in KeysOf(table, d);
    CarryThenBag(KeysOf(table, d), TagsFor(registry, d));
  }

  /** Two repositories that share a digest: the pass skips it and leaves a tag of the registry out. */
  lemma SharedDigestDoesNotConverge()
    ensures var table: TagTable := map[("here", "a") := "D", ("there", "b") := "D"];
            !Converged(table, {"D"}, "here", map["a" := "D", "b" := "D"])
  {
    var table: TagTable := map[("here", "a") := "D", ("there", "b") := "D"];
    var registry: Registry := map["a" := "D", "b" := "D"];
    assert "here" != "there" && "a" != "b" by {
      assert "here"[0] != "there"[0] && "a"[0] != "b"[0];
    }
    MaskedPair("D", "here", "there", "a", "b");
    assert registry["a"] == "D";
    ConvergesIff(table, {"D"}, "here", registry);
  }

  /** A list without entries that the registry no longer has: its row stays. */
  lemma InvisibleListDoesNotConverge()
    ensures var table: TagTable := map[("here", "a") := "L"];
            !Converged(table, {}, "here", map[])
  {
    var table: TagTable := map[("here", "a") := "L"];
    assert Stranded(table, {}, "here", map[], "a");
    ConvergesIff(table, {}, "here", map[]);
  }

  /**
   On a table that already has the registry's rows the pass writes nothing if
   and only if every digest is visible and none is tagged elsewhere.
   */
  lemma QuietIff(table: TagTable, visible: set<Digest>, repository: string, registry: Registry)
    requires RepositoryRows(table, repository) == registry
    ensures Touched(table, visible, repository, registry) == {}
       <==> forall d :: d in registry.Values ==> d in visible && !Elsewhere(table, repository, d)
  {
    ConvergedPointwise(table, repository, registry);
    forall d | d in registry.Values
      ensures Skipped(table, visible, repository, registry, d) <==> d in visible && !Elsewhere(table, repository, d)
    {
      SkippedIff(table, visible, repository, registry, d);
    }
    assert forall d :: d in OldDigests(table, visible, repository) ==> d in registry.Values by {
      forall d | d in OldDigests(table, visible, repository)
        ensures d in registry.Values
      {
        var k :| k in table && k.0 == repository && table[k] == d;
        assert k == (repository, k.1);
        assert registry[k.1] == d;
      }
    }
    if Touched(table, visible, repository, registry) == {} {
      forall d | d in registry.Values
        ensures Skipped(table, visible, repository, registry, d)
      {
        assert d !in Touched(table, visible, repository, registry);
      }
    }
  }

  lemma SkippedIff(table: TagTable, visible: set<Digest>, repository: string, registry: Registry, d: Digest)
    requires RepositoryRows(table, repository) == registry && d in registry.Values
    ensures Skipped(table, visible, repository, registry, d) <==> d in visible && !Elsewhere(table, repository, d)
  {
    ConvergedPointwise(table, repository, registry);
    var keys, tags := KeysOf(table, d), TagsFor(registry, d);
    var t :| t in registry && registry[t] == d;
    assert (repository, t) in keys;
    assert d in visible ==> d in OldDigests(table, visible, repository);
    BagIsSet(keys, tags);
    forall s | s in tags
      ensures (repository, s) in keys && (repository, s).1 == s
    {
    }
    if CarryExactly(keys, tags) {
      forall k | k in keys
        ensures k.0 == repository
      {
        assert k.1 in tags;
        assert (repository, k.1) in keys;
      }
    }
    if !Elsewhere(table, repository, d) {
      forall k | k in keys
        ensures k.1 in tags && k == (repository, k.1)
      {
        assert k == (repository, k.1);
      }
    }
  }

  /** When the pass converges, a second one leaves the table as it is. */
  lemma SecondPassChangesNothing(table: TagTable, visible: set<Digest>, repository: string, registry: Registry)
    requires RepositoryRows(table, repository) == registry
    ensures Reconciled(table, visible, repository, registry) == table
  {
    ConvergedPointwise(table, repository, registry);
    var after := Reconciled(table, visible, repository, registry);
    var ds := Touched(table, visible, repository, registry);
    forall k: Key
      ensures k in after <==> k in table
      ensures k in table ==> after[k] == table[k]
    {
      if k.0 == repository {
        assert k == (repository, k.1);
        AfterAt(table, visible, repository, registry, k.1);
      }
    }
  }
}
