/**
 The dispatcher as the program keeps it: one info object for each repository,
 reached from `repos` and at the same time from a ready map.  Each method is
 one critical section; `Take` and `Lock` are cut where they wait.
 */
module RepoDispatcher {
  import opened Collections
  import opened DispatcherCore

  class RepoInfo {
    var lowPriority: bool
    var highPriority: bool
    var pending: bool

    ghost const owner: Repo

    constructor (ghost owner: Repo)
      ensures Value() == Info(false, false, false) && this.owner == owner
    {
      lowPriority, highPriority, pending := false, false, false;
      this.owner := owner;
    }

    function Value(): Info
      reads this
    {
      Info(lowPriority, highPriority, pending)
    }

    method Start()
      modifies this
      ensures Value() == Info(false, false, true)
    {
      pending := true;
      lowPriority := false;
      highPriority := false;
    }

    /** The flags of an entry after one more request for its repository. */
    method Request(low: bool) returns (added: bool)
      modifies this
      ensures Value() == AddedInfo(old(Value()), low) && added == !old(Value()).Wanted()
    {
      added := !(highPriority || lowPriority);
      if low {
        if !highPriority {
          lowPriority := true;
        }
      } else {
        lowPriority := false;
        highPriority := true;
      }
    }
  }

  class Dispatcher {
    var repos: map<Repo, RepoInfo>
    var lowPriorityRepos: map<Repo, RepoInfo>
    var highPriorityRepos: map<Repo, RepoInfo>
    var pendingCount: int
    var locked: bool

    /** A ready map holds the very objects that `repos` holds, and no two repositories share one. */
    ghost predicate Shared()
      reads this
    {
      && (forall r :: r in lowPriorityRepos ==> r in repos && lowPriorityRepos[r] == repos[r])
      && (forall r :: r in highPriorityRepos ==> r in repos && highPriorityRepos[r] == repos[r])
      && (forall r :: r in repos ==> repos[r].owner == r)
    }

    ghost function Infos(): map<Repo, Info>
      reads this`repos, repos.Values
    {
      map r | r in repos :: repos[r].Value()
    }

    ghost function View(): Core
      reads this, repos.Values
    {
      Core(Infos(), lowPriorityRepos.Keys, highPriorityRepos.Keys, pendingCount, locked)
    }

    constructor ()
      ensures Shared() && View() == EMPTY
    {
      repos, lowPriorityRepos, highPriorityRepos := map[], map[], map[];
      pendingCount, locked := 0, false;
    }

    /** Writing through one shared info object shows in `repos` at that repository only. */
    twostate lemma OneInfoWritten(repo: Repo)
      requires old(Shared()) && repo in repos && unchanged(this)
      requires forall r :: r in repos && r != repo ==> unchanged(repos[r])
      ensures Infos() == old(Infos())[repo := repos[repo].Value()]
    {
    }

    method AddToReady(repo: Repo, info: RepoInfo)
      requires Shared() && repo in repos && repos[repo] == info
      modifies this`lowPriorityRepos, this`highPriorityRepos
      ensures Shared()
      ensures View() == DispatcherCore.AddToReady(old(View()), repo, info.Value())
    {
      if info.lowPriority {
        lowPriorityRepos := lowPriorityRepos[repo := info];
      } else if info.highPriority {
        lowPriorityRepos := lowPriorityRepos - {repo};
        highPriorityRepos := highPriorityRepos[repo := info];
      }
    }

    /** The entry of a repository, made on first use. */
    method Entry(repo: Repo) returns (info: RepoInfo)
      requires Shared()
      modifies this`repos
      ensures Shared() && repo in repos && repos[repo] == info && fresh(repos.Values - old(repos.Values))
      ensures info.Value() == InfoOf(old(View()), repo)
      ensures Infos() == old(Infos())[repo := info.Value()]
    {
      if repo in repos {
        info := repos[repo];
      } else {
        info := new RepoInfo(repo);
        repos := repos[repo := info];
      }
    }

    /** Notes one more request for the repository. */
    method Note(repo: Repo, lowPriority: bool) returns (info: RepoInfo, added: bool)
      requires Shared()
      modifies this`repos, repos.Values
      ensures Shared() && repo in repos && repos[repo] == info && fresh(repos.Values - old(repos.Values))
      ensures Infos() == old(Infos())[repo := AddedInfo(InfoOf(old(View()), repo), lowPriority)]
      ensures added == !InfoOf(old(View()), repo).Wanted()
    {
      info := Entry(repo);
      label entered:
      ghost var before := info.Value();
      added := info.Request(lowPriority);
      OneInfoWritten@entered(repo);
      UpdatedTwice(old(Infos()), repo, before, info.Value());
    }

    /** Makes a repository ready unless it is being fetched. */
    method Queue(repo: Repo, info: RepoInfo)
      requires Shared() && repo in repos && repos[repo] == info
      modifies this`lowPriorityRepos, this`highPriorityRepos
      ensures Shared()
      ensures View() == if info.pending then old(View())
                        else DispatcherCore.AddToReady(old(View()), repo, info.Value())
    {
      if !info.pending {
        AddToReady(repo, info);
      }
    }

    method Add(repo: Repo, lowPriority: bool) returns (signalReady: bool)
      requires Shared()
      modifies this, repos.Values
      ensures Shared() && fresh(repos.Values - old(repos.Values))
      ensures View() == DispatcherCore.Add(old(View()), repo, lowPriority)
      ensures signalReady == AddSignals(old(View()), repo)
    {
      ghost var c := View();
      var info, added := Note(repo, lowPriority);
      assert View() == c.(repos := c.repos[repo := AddedInfo(InfoOf(c, repo), lowPriority)]);
      assert info.Value() == View().repos[repo];
      Queue(repo, info);
      signalReady := !info.pending && added && !locked;
    }

    method SomeReady() returns (some: bool)
      ensures some == DispatcherCore.SomeReady(View())
    {
      some := !locked && (|highPriorityRepos| > 0 || |lowPriorityRepos| > 0);
    }

    /** `range` over the preferred ready map: any of its keys, with the entry removed. */
    method PickReady() returns (repo: Repo, info: RepoInfo)
      requires Shared() && DispatcherCore.SomeReady(View())
      modifies this`lowPriorityRepos, this`highPriorityRepos
      ensures Shared() && repo in repos && repos[repo] == info && repo in Choices(old(View()))
      ensures if old(highPriorityRepos) != map[]
              then highPriorityRepos == old(highPriorityRepos) - {repo} && unchanged(`lowPriorityRepos)
              else lowPriorityRepos == old(lowPriorityRepos) - {repo} && unchanged(`highPriorityRepos)
    {
      if |highPriorityRepos| > 0 {
        repo :| repo in highPriorityRepos;
        info := highPriorityRepos[repo];
        highPriorityRepos := highPriorityRepos - {repo};
      } else {
        repo :| repo in lowPriorityRepos;
        info := lowPriorityRepos[repo];
        lowPriorityRepos := lowPriorityRepos - {repo};
      }
    }

    /** `Take` from acquiring the mutex to its return, or to its next wait when nothing is `taken`. */
    method TryTake() returns (taken: bool, repo: Repo)
      requires Shared()
      modifies this, repos.Values
      ensures Shared() && repos == old(repos)
      ensures taken == DispatcherCore.SomeReady(old(View()))
      ensures taken ==> repo in Choices(old(View())) && View() == DispatcherCore.Take(old(View()), repo)
      ensures !taken ==> View() == old(View())
    {
      taken := SomeReady();
      repo := "";
      if taken {
        repo := Grab();
      }
    }

    /** Counts a repository as being fetched and clears its request. */
    method MarkPending(repo: Repo, info: RepoInfo)
      requires Shared() && repo in repos && repos[repo] == info
      modifies this`pendingCount, info
      ensures Shared()
      ensures Infos() == old(Infos())[repo := Info(false, false, true)] && pendingCount == old(pendingCount) + 1
    {
      pendingCount := pendingCount + 1;
      label counted:
      info.Start();
      OneInfoWritten@counted(repo);
    }

    method Grab() returns (repo: Repo)
      requires Shared() && DispatcherCore.SomeReady(View())
      modifies this, repos.Values
      ensures Shared() && repos == old(repos)
      ensures repo in Choices(old(View())) && View() == DispatcherCore.Take(old(View()), repo)
    {
      ghost var c := View();
      assert c.high != {} <==> highPriorityRepos != map[];
      var info;
      repo, info := PickReady();
      assert Infos() == c.repos;
      MarkPending(repo, info);
    }

    /** Undoes what `MarkPending` counted and marked. */
    method UnmarkPending(repo: Repo, info: RepoInfo)
      requires Shared() && repo in repos && repos[repo] == info
      modifies this`pendingCount, info
      ensures Shared() && info.Value() == old(info.Value()).(pending := false)
      ensures Infos() == old(Infos())[repo := info.Value()] && pendingCount == old(pendingCount) - 1
    {
      pendingCount := pendingCount - 1;
      label counted:
      info.pending := false;
      OneInfoWritten@counted(repo);
    }

    /** Ready if it was asked for meanwhile, forgotten otherwise. */
    method Settle(repo: Repo, info: RepoInfo) returns (wanted: bool)
      requires Shared() && repo in repos && repos[repo] == info
      modifies this`repos, this`lowPriorityRepos, this`highPriorityRepos
      ensures wanted == info.Value().Wanted() && repos.Values <= old(repos.Values)
      ensures Shared() <== wanted || (repo !in old(lowPriorityRepos) && repo !in old(highPriorityRepos))
      ensures View() == if wanted then DispatcherCore.AddToReady(old(View()), repo, info.Value())
                        else old(View()).(repos := old(Infos()) - {repo})
    {
      wanted := info.lowPriority || info.highPriority;
      if wanted {
        AddToReady(repo, info);
      } else {
        repos := repos - {repo};
        assert Infos() == old(Infos()) - {repo};
      }
    }

    /** The ready maps still share the info objects unless the repository was, against the invariant, in one of them. */
    method Release(repo: Repo) returns (panicked: bool, signalReady: bool)
      requires Shared()
      modifies this, repos.Values
      ensures repos.Values <= old(repos.Values) && (Indexed(old(View()), repo) ==> Shared())
      ensures panicked == !CanRelease(old(View()), repo)
      ensures panicked ==> View() == old(View())
      ensures !panicked ==> View() == DispatcherCore.Release(old(View()), repo)
                            && signalReady == ReleaseSignals(old(View()), repo)
    {
      panicked := repo !in repos || !repos[repo].pending;
      signalReady := false;
      if panicked {
        return;
      }
      ghost var c := View();
      var info := repos[repo];
      UnmarkPending(repo, info);
      assert View() == c.(repos := c.repos[repo := info.Value()], pendingCount := c.pendingCount - 1);
      ReleaseSettles(c, repo);
      var wanted := Settle(repo, info);
      signalReady := wanted && !locked;
    }

    /** `Lock` up to its first test of the pending count. */
    method LockStart() returns (waits: bool)
      requires Shared()
      modifies this`locked
      ensures Shared() && View() == old(View()).(locked := true)
      ensures waits == (View().pendingCount > 0)
    {
      locked := true;
      waits := pendingCount > 0;
      assert View() == old(View()).(locked := true);
    }

    method Unlock() returns (broadcastReady: bool)
      requires Shared()
      modifies this`locked
      ensures Shared() && View() == old(View()).(locked := false)
      ensures broadcastReady == DispatcherCore.SomeReady(View())
    {
      locked := false;
      broadcastReady := SomeReady();
      assert View() == old(View()).(locked := false);
    }
  }
}
