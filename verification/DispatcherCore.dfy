/**
 The data of a repository dispatcher and what each critical section does to it.
 */
module DispatcherCore {
  type Repo = string

  datatype Info = Info(lowPriority: bool, highPriority: bool, pending: bool) {
    predicate Wanted() {
      lowPriority || highPriority
    }
  }

  /** `low` and `high` are the domains of the two ready maps. */
  datatype Core = Core(repos: map<Repo, Info>, low: set<Repo>, high: set<Repo>, pendingCount: int, locked: bool)

  const EMPTY := Core(map[], {}, {}, 0, false)

  function InfoOf(c: Core, repo: Repo): Info {
    if repo in c.repos then c.repos[repo] else Info(false, false, false)
  }

  function AddToReady(c: Core, repo: Repo, info: Info): Core {
    if info.lowPriority then c.(low := c.low + {repo})
    else if info.highPriority then c.(low := c.low - {repo}, high := c.high + {repo})
    else c
  }

  predicate SomeReady(c: Core) {
    !c.locked && (c.high != {} || c.low != {})
  }

  function AddedInfo(was: Info, lowPriority: bool): Info {
    if !lowPriority then was.(lowPriority := false, highPriority := true)
    else if was.highPriority then was
    else was.(lowPriority := true)
  }

  function Add(c: Core, repo: Repo, lowPriority: bool): Core {
    var info := AddedInfo(InfoOf(c, repo), lowPriority);
    var c' := c.(repos := c.repos[repo := info]);
    if info.pending then c' else AddToReady(c', repo, info)
  }

  /** Whether `Add` signals `readyCond`. */
  predicate AddSignals(c: Core, repo: Repo) {
    var was := InfoOf(c, repo);
    !was.pending && !was.Wanted() && !c.locked
  }

  /** The repositories that `Take` picks from. */
  function Choices(c: Core): set<Repo> {
    if c.high != {} then c.high else c.low
  }

  function Take(c: Core, repo: Repo): Core {
    var c' := c.(repos := c.repos[repo := Info(false, false, true)], pendingCount := c.pendingCount + 1);
    if c.high != {} then c'.(high := c.high - {repo}) else c'.(low := c.low - {repo})
  }

  /** `Release` panics unless this holds. */
  predicate CanRelease(c: Core, repo: Repo) {
    repo in c.repos && c.repos[repo].pending
  }

  function Release(c: Core, repo: Repo): Core
    requires CanRelease(c, repo)
  {
    var info := c.repos[repo].(pending := false);
    var c' := c.(pendingCount := c.pendingCount - 1);
    if info.Wanted() then AddToReady(c'.(repos := c.repos[repo := info]), repo, info)
    else c'.(repos := c.repos - {repo})
  }

  /** Whether `Release` signals `readyCond`; it always signals `pendingCond`. */
  predicate ReleaseSignals(c: Core, repo: Repo)
    requires CanRelease(c, repo)
  {
    c.repos[repo].Wanted() && !c.locked
  }

  function Pending(c: Core): set<Repo> {
    set r | r in c.repos && c.repos[r].pending
  }

  function Wanted(c: Core): set<Repo> {
    set r | r in c.repos && c.repos[r].Wanted()
  }

  /** Ready repositories: wanted and not being fetched. */
  function Ready(c: Core): set<Repo> {
    c.low + c.high
  }

  /** The two ready maps index the entries that are not pending, and no entry is idle. */
  ghost predicate Indexed(c: Core, r: Repo) {
    && (r in c.low <==> r in c.repos && !c.repos[r].pending && c.repos[r].lowPriority)
    && (r in c.high <==> r in c.repos && !c.repos[r].pending && c.repos[r].highPriority)
    && (r in c.repos ==> !(c.repos[r].lowPriority && c.repos[r].highPriority))
    && (r in c.repos ==> c.repos[r].Wanted() || c.repos[r].pending)
  }

  ghost predicate Consistent(c: Core) {
    && (forall r :: Indexed(c, r))
    && c.pendingCount == |Pending(c)|
  }

  lemma ReadyIsWantedNotPending(c: Core)
    requires Consistent(c)
    ensures Ready(c) == Wanted(c) - Pending(c)
    ensures c.low * c.high == {}
  {
    forall r
      ensures r in Ready(c) <==> r in Wanted(c) - Pending(c)
      ensures !(r in c.low && r in c.high)
    {
      assert Indexed(c, r);
    }
  }

  /** When a step touches one repository only, the others stay indexed. */
  ghost predicate SameElsewhere(c: Core, c': Core, repo: Repo) {
    forall r :: r != repo ==>
      && (r in c'.repos <==> r in c.repos)
      && (r in c.repos ==> c'.repos[r] == c.repos[r])
      && (r in c'.low <==> r in c.low)
      && (r in c'.high <==> r in c.high)
  }

  lemma SameElsewhereSets(c: Core, c': Core, repo: Repo)
    requires SameElsewhere(c, c', repo)
    ensures Pending(c') == (if repo in Pending(c') then Pending(c) + {repo} else Pending(c) - {repo})
    ensures Wanted(c') == (if repo in Wanted(c') then Wanted(c) + {repo} else Wanted(c) - {repo})
    ensures Ready(c') == (if repo in Ready(c') then Ready(c) + {repo} else Ready(c) - {repo})
  {
    assert Pending(c') - {repo} == Pending(c) - {repo};
    assert Wanted(c') - {repo} == Wanted(c) - {repo};
    assert Ready(c') - {repo} == Ready(c) - {repo};
  }

  lemma SameElsewhereIndexed(c: Core, c': Core, repo: Repo)
    requires Consistent(c) && SameElsewhere(c, c', repo) && Indexed(c', repo)
    ensures forall r :: Indexed(c', r)
  {
    forall r
      ensures Indexed(c', r)
    {
      assert Indexed(c, r);
    }
  }

  /** `Add` makes the repository wanted, and ready unless it is being fetched. */
  lemma AddKeeps(c: Core, repo: Repo, lowPriority: bool)
    requires Consistent(c)
    ensures var c' := Add(c, repo, lowPriority);
            && Consistent(c')
            && c'.locked == c.locked
            && c'.pendingCount == c.pendingCount
            && Pending(c') == Pending(c)
            && Wanted(c') == Wanted(c) + {repo}
            && Ready(c') == (if repo in Pending(c) then Ready(c) else Ready(c) + {repo})
  {
    var c' := Add(c, repo, lowPriority);
    assert Indexed(c, repo);
    AddAt(c, repo, lowPriority);
    SameElsewhereSets(c, c', repo);
    SameElsewhereIndexed(c, c', repo);
    assert Pending(c') == Pending(c);
  }

  /** What `Add` does at its own repository. */
  lemma AddAt(c: Core, repo: Repo, lowPriority: bool)
    requires Indexed(c, repo)
    ensures var c' := Add(c, repo, lowPriority);
            && SameElsewhere(c, c', repo) && Indexed(c', repo)
            && repo in Wanted(c')
            && (repo in Pending(c') <==> repo in Pending(c))
            && (repo in Ready(c') <==> repo !in Pending(c))
            && (repo in Ready(c) ==> repo !in Pending(c))
  {
  }

  lemma TakeKeeps(c: Core, repo: Repo)
    requires Consistent(c) && SomeReady(c) && repo in Choices(c)
    ensures var c' := Take(c, repo);
            && Consistent(c')
            && c'.locked == c.locked
            && repo in Ready(c) && repo in Wanted(c) && repo !in Pending(c)
            && Pending(c') == Pending(c) + {repo}
            && Wanted(c') == Wanted(c) - {repo}
            && Ready(c') == Ready(c) - {repo}
  {
    var c' := Take(c, repo);
    assert Indexed(c, repo);
    assert Indexed(c', repo);
    SameElsewhereSets(c, c', repo);
    SameElsewhereIndexed(c, c', repo);
  }

  /** `Release` keeps what was asked for meanwhile and makes it ready. */
  lemma ReleaseKeeps(c: Core, repo: Repo)
    requires Consistent(c) && CanRelease(c, repo)
    ensures var c' := Release(c, repo);
            && Consistent(c')
            && c'.locked == c.locked
            && repo in Pending(c) && repo !in Ready(c)
            && Pending(c') == Pending(c) - {repo}
            && Wanted(c') == Wanted(c)
            && Ready(c') == (if repo in Wanted(c) then Ready(c) + {repo} else Ready(c))
            && c'.pendingCount == c.pendingCount - 1
  {
    var c' := Release(c, repo);
    assert Indexed(c, repo);
    assert Indexed(c', repo);
    SameElsewhereSets(c, c', repo);
    SameElsewhereIndexed(c, c', repo);
    assert Wanted(c') == Wanted(c);
    assert Ready(c') == if repo in Wanted(c) then Ready(c) + {repo} else Ready(c);
  }

  /** `Release` in two steps: the entry is no longer pending, then it becomes ready or goes. */
  lemma ReleaseSettles(c: Core, repo: Repo)
    requires CanRelease(c, repo)
    ensures var info := c.repos[repo].(pending := false);
            var mid := c.(repos := c.repos[repo := info], pendingCount := c.pendingCount - 1);
            Release(c, repo) == if info.Wanted() then AddToReady(mid, repo, info)
                                else mid.(repos := mid.repos - {repo})
  {
    var info := c.repos[repo].(pending := false);
    assert c.repos[repo := info] - {repo} == c.repos - {repo};
  }

  lemma LockKeeps(c: Core, locked: bool)
    requires Consistent(c)
    ensures Consistent(c.(locked := locked))
    ensures Pending(c.(locked := locked)) == Pending(c)
    ensures Wanted(c.(locked := locked)) == Wanted(c)
  {
    var c' := c.(locked := locked);
    forall r
      ensures Indexed(c', r)
    {
      assert Indexed(c, r);
    }
  }
}
