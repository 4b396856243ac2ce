/**
 Go's order on strings and what `sort.Strings` promises.

 A string is a sequence of code points; on valid UTF-8 the byte order that Go
 uses and the code point order used here are the same.
 */
module GoStrings {
  import opened Collections

  predicate Leq(a: string, b: string) {
    a == [] || (b != [] && (a[0] < b[0] || (a[0] == b[0] && Leq(a[1..], b[1..]))))
  }

  predicate Less(a: string, b: string) {
    !Leq(b, a)
  }

  /** The smaller character at the first difference decides. */
  ghost predicate SmallerAt(a: string, b: string, i: int) {
    0 <= i < |a| && i < |b| && a[..i] == b[..i] && a[i] < b[i]
  }

  /** The order is by characters: a prefix comes first, and otherwise the first difference decides. */
  lemma {:induction false} LeqIff(a: string, b: string)
    ensures Leq(a, b) <==> (|a| <= |b| && a == b[..|a|]) || exists i :: SmallerAt(a, b, i)
  {
    if a == [] || b == [] {
      assert b[..0] == [];
    } else {
      LeqIff(a[1..], b[1..]);
      assert a == [a[0]] + a[1..] && b == [b[0]] + b[1..];
      assert |a| <= |b| ==> b[..|a|] == [b[0]] + b[1..][..|a[1..]|];
      assert a[0] < b[0] ==> SmallerAt(a, b, 0);
      if a[0] == b[0] {
        SmallerAtCons(a, b);
      }
    }
  }

  lemma SmallerAtCons(a: string, b: string)
    requires a != [] && b != [] && a[0] == b[0]
    ensures (exists i :: SmallerAt(a, b, i)) <==> exists i :: SmallerAt(a[1..], b[1..], i)
  {
    if i :| SmallerAt(a, b, i) {
      assert a[1..][..i - 1] == a[..i][1..] && b[1..][..i - 1] == b[..i][1..];
      assert SmallerAt(a[1..], b[1..], i - 1);
    }
    if i :| SmallerAt(a[1..], b[1..], i) {
      assert a[..i + 1] == [a[0]] + a[1..][..i] && b[..i + 1] == [b[0]] + b[1..][..i];
      assert SmallerAt(a, b, i + 1);
    }
  }

  lemma {:induction false} LeqReflexive(a: string)
    ensures Leq(a, a)
  {
    if a == [] {
    } else {
      LeqReflexive(a[1..]);
    }
  }

  lemma {:induction false} LeqTotal(a: string, b: string)
    ensures Leq(a, b) || Leq(b, a)
  {
    if a == [] || b == [] {
    } else {
      LeqTotal(a[1..], b[1..]);
    }
  }

  lemma {:induction false} LeqAntisymmetric(a: string, b: string)
    requires Leq(a, b) && Leq(b, a)
    ensures a == b
  {
    if a == [] || b == [] {
    } else {
      LeqAntisymmetric(a[1..], b[1..]);
      assert a == [a[0]] + a[1..] && b == [b[0]] + b[1..];
    }
  }

  lemma {:induction false} LeqTransitive(a: string, b: string, c: string)
    requires Leq(a, b) && Leq(b, c)
    ensures Leq(a, c)
  {
    if a != [] && a[0] == b[0] && b[0] == c[0] {
      LeqTransitive(a[1..], b[1..], c[1..]);
    }
  }

  /** `Less` is the strict part of a total order, so it chains with `Leq`. */
  lemma LessLeq(a: string, b: string, c: string)
    requires Less(a, b) && Leq(b, c)
    ensures Less(a, c) && a != c
  {
    LeqTotal(a, b);
    if Leq(c, a) {
      LeqTransitive(b, c, a);
    }
    LeqReflexive(a);
  }

  /** Exactly one of `a < b`, `a == b`, `b < a`. */
  lemma LessTrichotomy(a: string, b: string)
    ensures Less(a, b) || a == b || Less(b, a)
    ensures !(Less(a, b) && Less(b, a)) && (a == b ==> !Less(a, b))
  {
    LeqReflexive(a);
    LeqTotal(a, b);
    if Leq(a, b) && Leq(b, a) {
      LeqAntisymmetric(a, b);
    }
  }

  ghost predicate Sorted(s: seq<string>) {
    forall i, j :: 0 <= i < j < |s| ==> Leq(s[i], s[j])
  }

  function Insert(x: string, s: seq<string>): (r: seq<string>)
    ensures multiset(r) == multiset(s) + multiset{x}
    ensures Sorted(s) ==> Sorted(r)
  {
    if s == [] then
      [x]
    else if Leq(x, s[0]) then
      InsertFront(x, s);
      assert multiset([x] + s) == multiset{x} + multiset(s);
      [x] + s
    else
      var rest := Insert(x, s[1..]);
      InsertDeeper(x, s, rest);
      [s[0]] + rest
  }

  lemma InsertFront(x: string, s: seq<string>)
    requires s != [] && Leq(x, s[0])
    ensures Sorted(s) ==> Sorted([x] + s)
  {
    var r := [x] + s;
    if Sorted(s) {
      forall i, j | 0 <= i < j < |r|
        ensures Leq(r[i], r[j])
      {
        if i == 0 && j > 1 {
          LeqTransitive(x, s[0], s[j - 1]);
        }
      }
    }
  }

  lemma InsertDeeper(x: string, s: seq<string>, rest: seq<string>)
    requires s != [] && !Leq(x, s[0])
    requires multiset(rest) == multiset(s[1..]) + multiset{x}
    requires Sorted(s[1..]) ==> Sorted(rest)
    ensures multiset([s[0]] + rest) == multiset(s) + multiset{x}
    ensures Sorted(s) ==> Sorted([s[0]] + rest)
  {
    assert s == [s[0]] + s[1..];
    if Sorted(s) {
      LeqTotal(x, s[0]);
      forall j | 0 <= j < |rest|
        ensures Leq(s[0], rest[j])
      {
        assert rest[j] in multiset(rest);
        assert rest[j] in s[1..] || rest[j] == x;
      }
    }
  }

  /** `sort.Strings`: a sorted permutation of its argument. */
  function Sort(s: seq<string>): (r: seq<string>)
    ensures Sorted(r) && multiset(r) == multiset(s)
  {
    if s == [] then
      []
    else
      assert s == [s[0]] + s[1..];
      Insert(s[0], Sort(s[1..]))
  }

  /** The head of a sorted sequence is below every member. */
  lemma SortedHead(a: seq<string>, x: string)
    requires Sorted(a) && x in multiset(a)
    ensures a != [] && Leq(a[0], x)
  {
    var i :| 0 <= i < |a| && a[i] == x;
    LeqReflexive(x);
  }

  /** A bag of strings has only one sorted arrangement. */
  lemma {:induction false} SortedUnique(a: seq<string>, b: seq<string>)
    requires Sorted(a) && Sorted(b) && multiset(a) == multiset(b)
    ensures a == b
  {
    if a == [] {
      assert |multiset(b)| == 0;
    } else {
      assert a[0] in multiset(a);
      SortedHead(b, a[0]);
      assert b[0] in multiset(b);
      SortedHead(a, b[0]);
      LeqAntisymmetric(a[0], b[0]);
      BagOfTail(a);
      BagOfTail(b);
      SortedUnique(a[1..], b[1..]);
      assert a == [a[0]] + a[1..] && b == [b[0]] + b[1..];
    }
  }
}
