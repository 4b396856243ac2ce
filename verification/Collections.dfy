/** Facts about sequences, bags and sets that the proofs of several modules share. */
module Collections {
  // ----- Runs -----

  /** Each state steps to the next by the action between them. */
  ghost predicate Chained<S(!new), A(!new)>(step: (S, A, S) -> bool, states: seq<S>, actions: seq<A>) {
    && |states| == |actions| + 1
    && forall k {:trigger actions[k]} :: 0 <= k < |actions| ==> step(states[k], actions[k], states[k + 1])
  }

  ghost predicate Kept<S(!new), A(!new)>(step: (S, A, S) -> bool, good: S -> bool) {
    forall x, a, x' :: good(x) && step(x, a, x') ==> good(x')
  }

  /** What every step keeps holds from any state of a run on. */
  lemma {:induction false} KeptAlong<S(!new), A(!new)>(step: (S, A, S) -> bool, good: S -> bool,
                                                       states: seq<S>, actions: seq<A>, i: nat, j: nat)
    requires Chained(step, states, actions) && Kept(step, good) && i <= j <= |actions| && good(states[i])
    ensures good(states[j])
    decreases j
  {
    if i == j {
    } else {
      KeptAlong(step, good, states, actions, i, j - 1);
      assert step(states[j - 1], actions[j - 1], states[j]);
    }
  }

  // ----- Sequences -----

  lemma Regroup<T>(a: seq<T>, b: seq<T>, c: seq<T>)
    ensures (a + b) + c == a + (b + c)
  {
  }

  lemma TailOfConcat<T>(a: seq<T>, b: seq<T>)
    requires a != []
    ensures (a + b)[0] == a[0] && (a + b)[1..] == a[1..] + b
  {
  }

  lemma TailOfCons<T>(x: T, s: seq<T>)
    ensures ([x] + s)[0] == x && ([x] + s)[1..] == s
  {
  }

  lemma FrontAndLast<T>(s: seq<T>)
    requires s != []
    ensures s == s[..|s| - 1] + [s[|s| - 1]]
  {
  }

  lemma FrontOfConcat<T>(a: seq<T>, b: seq<T>)
    requires b != []
    ensures (a + b)[|a + b| - 1] == b[|b| - 1] && (a + b)[..|a + b| - 1] == a + b[..|b| - 1]
  {
  }

  lemma BagOfTail<T>(s: seq<T>)
    requires s != []
    ensures multiset(s[1..]) == multiset(s) - multiset{s[0]}
  {
    assert s == [s[0]] + s[1..];
    assert multiset(s) == multiset{s[0]} + multiset(s[1..]);
  }

  lemma BagOfFront<T>(s: seq<T>)
    requires s != []
    ensures multiset(s[..|s| - 1]) == multiset(s) - multiset{s[|s| - 1]}
    ensures multiset(s) == multiset(s[..|s| - 1]) + multiset{s[|s| - 1]}
  {
    FrontAndLast(s);
  }

  lemma BagOfUpdate<T>(s: seq<T>, i: nat, x: T)
    requires i < |s|
    ensures multiset(s[i := x]) == multiset(s) - multiset{s[i]} + multiset{x}
  {
  }

  lemma BagSwap<T>(bag: multiset<T>, x: T, y: T)
    requires x in bag
    ensures bag - multiset{x} + multiset{y} == bag + multiset{y} - multiset{x}
  {
  }

  lemma UpdatedTwice<K, V>(m: map<K, V>, k: K, v: V, w: V)
    ensures m[k := v][k := w] == m[k := w]
  {
  }

  // ----- Going through a set in any order: `left` is what remains of `all` -----

  lemma OneMoreDone<T>(all: set<T>, left: set<T>, x: T)
    requires x in left && left <= all
    ensures all - (left - {x}) == (all - left) + {x}
    ensures left - {x} <= all
  {
  }

  lemma OneMoreAdded<T>(before: set<T>, all: set<T>, left: set<T>, x: T)
    requires x in left && left <= all
    ensures before + (all - (left - {x})) == before + (all - left) + {x}
    ensures left - {x} <= all
  {
  }

  lemma AllDone<T>(all: set<T>)
    ensures all - {} == all
    ensures all - all == {}
  {
  }
}
