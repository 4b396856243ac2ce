/**
 The containment relation that assertions on query results are checked with.
 */
module JsonContains {

  /**
   A Go value of type `interface{}`.  Decoding JSON gives `Float` for every
   number and `Null` for null, and neither contains nor is contained in
   anything; `Int` can only come from Go code.
   */
  datatype Json =
    | Null
    | Bool(b: bool)
    | Int(i: int)
    | Float(f: real)
    | String(s: string)
    | Array(items: seq<Json>)
    | Object(members: map<string, Json>)

  predicate Contains(a: Json, b: Json)
    decreases a, 1
  {
    match a
    case Object(am) =>
      b.Object? && forall k :: k in b.members ==> k in am && Contains(am[k], b.members[k])
    case Array(ai) =>
      b.Array? && forall i :: 0 <= i < |b.items| ==> SomeContains(ai, b.items[i])
    case Int(_) => a == b
    case String(_) => a == b
    case Bool(_) => a == b
    case Null => false
    case Float(_) => false
  }

  predicate SomeContains(items: seq<Json>, b: Json)
    decreases items, 0
  {
    exists j :: 0 <= j < |items| && Contains(items[j], b)
  }

  /** `jsonContains`, with its loops over the members and items of `b`. */
  method JsonContainsLoop(a: Json, b: Json) returns (contains: bool)
    ensures contains == Contains(a, b)
    decreases a, b
  {
    match a {
      case Object(am) =>
        if !b.Object? {
          return false;
        }
        var left := b.members.Keys;
        while left != {}
          invariant left <= b.members.Keys
          invariant forall k :: k in b.members.Keys - left ==> k in am && Contains(am[k], b.members[k])
        {
          var key :| key in left;
          if key !in am {
            return false;
          }
          var inner := JsonContainsLoop(am[key], b.members[key]);
          if !inner {
            return false;
          }
          left := left - {key};
        }
      case Array(ai) =>
        if !b.Array? {
          return false;
        }
        for i := 0 to |b.items|
          invariant forall k :: 0 <= k < i ==> SomeContains(ai, b.items[k])
        {
          var found := false;
          for j := 0 to |ai|
            invariant !found
            invariant forall k :: 0 <= k < j ==> !Contains(ai[k], b.items[i])
          {
            var inner := JsonContainsLoop(ai[j], b.items[i]);
            if inner {
              found := true;
              break;
            }
          }
          if !found {
            return false;
          }
        }
      case Int(_) =>
        if a != b {
          return false;
        }
      case String(_) =>
        if a != b {
          return false;
        }
      case Bool(_) =>
        if a != b {
          return false;
        }
      case _ =>
        return false;
    }
    return true;
  }

  /** Free of numbers as JSON decoding makes them, and of null. */
  predicate Comparable(a: Json) {
    match a
    case Null => false
    case Float(_) => false
    case Array(items) => forall i :: 0 <= i < |items| ==> Comparable(items[i])
    case Object(members) => forall k :: k in members ==> Comparable(members[k])
    case _ => true
  }

  /** Only comparable values are contained in anything. */
  lemma {:induction false} ContainedIsComparable(a: Json, b: Json)
    requires Contains(a, b)
    ensures Comparable(b)
    decreases a
  {
    match a {
      case Object(am) =>
        forall k | k in b.members
          ensures Comparable(b.members[k])
        {
          ContainedIsComparable(am[k], b.members[k]);
        }
      case Array(ai) =>
        forall i | 0 <= i < |b.items|
          ensures Comparable(b.items[i])
        {
          assert SomeContains(ai, b.items[i]);
          var j :| 0 <= j < |ai| && Contains(ai[j], b.items[i]);
          ContainedIsComparable(ai[j], b.items[i]);
        }
      case _ =>
    }
  }

  lemma {:induction false} ComparableContainsItself(a: Json)
    requires Comparable(a)
    ensures Contains(a, a)
  {
    match a {
      case Object(members) =>
        forall k | k in members
          ensures Contains(members[k], members[k])
        {
          ComparableContainsItself(members[k]);
        }
      case Array(items) =>
        forall i | 0 <= i < |items|
          ensures SomeContains(items, items[i])
        {
          ComparableContainsItself(items[i]);
        }
      case _ =>
    }
  }

  /** A value contains itself if and only if it is free of numbers and null. */
  lemma ReflexiveIff(a: Json)
    ensures Contains(a, a) <==> Comparable(a)
  {
    if Comparable(a) {
      ComparableContainsItself(a);
    }
    if Contains(a, a) {
      ContainedIsComparable(a, a);
    }
  }

  lemma {:induction false} Transitive(a: Json, b: Json, c: Json)
    requires Contains(a, b) && Contains(b, c)
    ensures Contains(a, c)
    decreases a
  {
    match a {
      case Object(am) =>
        forall k | k in c.members
          ensures k in am && Contains(am[k], c.members[k])
        {
          Transitive(am[k], b.members[k], c.members[k]);
        }
      case Array(ai) =>
        forall i | 0 <= i < |c.items|
          ensures SomeContains(ai, c.items[i])
        {
          assert SomeContains(b.items, c.items[i]);
          var m :| 0 <= m < |b.items| && Contains(b.items[m], c.items[i]);
          assert SomeContains(ai, b.items[m]);
          var j :| 0 <= j < |ai| && Contains(ai[j], b.items[m]);
          Transitive(ai[j], b.items[m], c.items[i]);
        }
      case _ =>
    }
  }

  // ----- What containment accepts -----

  /** Leaving out members of an object. */
  lemma SubObjectContained(members: map<string, Json>, some: map<string, Json>)
    requires Comparable(Object(members))
    requires forall k :: k in some ==> k in members && some[k] == members[k]
    ensures Contains(Object(members), Object(some))
  {
    forall k | k in some
      ensures Contains(members[k], some[k])
    {
      ComparableContainsItself(members[k]);
    }
  }

  /** Leaving out, reordering and repeating items of an array. */
  lemma SubArrayContained(items: seq<Json>, some: seq<Json>)
    requires Comparable(Array(items)) && forall i :: 0 <= i < |some| ==> some[i] in items
    ensures Contains(Array(items), Array(some))
  {
    forall i | 0 <= i < |some|
      ensures SomeContains(items, some[i])
    {
      var j :| 0 <= j < |items| && items[j] == some[i];
      ComparableContainsItself(items[j]);
    }
  }

  /** A new member takes nothing away, whatever its value. */
  lemma MemberAdded(members: map<string, Json>, key: string, value: Json, b: Json)
    requires Contains(Object(members), b) && key !in members
    ensures Contains(Object(members[key := value]), b)
  {
    forall k | k in b.members
      ensures k in members[key := value] && Contains(members[key := value][k], b.members[k])
    {
      assert k in members && k != key;
    }
  }

  /** Nor does a new item, wherever it is put. */
  lemma ItemAdded(items: seq<Json>, at: nat, item: Json, b: Json)
    requires Contains(Array(items), b) && at <= |items|
    ensures Contains(Array(items[..at] + [item] + items[at..]), b)
  {
    var more := items[..at] + [item] + items[at..];
    forall i | 0 <= i < |b.items|
      ensures SomeContains(more, b.items[i])
    {
      assert SomeContains(items, b.items[i]);
      var j :| 0 <= j < |items| && Contains(items[j], b.items[i]);
      assert more[if j < at then j else j + 1] == items[j];
    }
  }

  /** Replacing one member's value, or one item, by a value that contains it. */
  lemma MemberGrown(members: map<string, Json>, key: string, value: Json, b: Json)
    requires Contains(Object(members), b) && key in members && Contains(value, members[key])
    ensures Contains(Object(members[key := value]), b)
  {
    forall k | k in b.members
      ensures k in members[key := value] && Contains(members[key := value][k], b.members[k])
    {
      if k == key {
        Transitive(value, members[key], b.members[k]);
      }
    }
  }

  lemma ItemGrown(items: seq<Json>, at: nat, item: Json, b: Json)
    requires Contains(Array(items), b) && at < |items| && Contains(item, items[at])
    ensures Contains(Array(items[at := item]), b)
  {
    var more := items[at := item];
    forall i | 0 <= i < |b.items|
      ensures SomeContains(more, b.items[i])
    {
      assert SomeContains(items, b.items[i]);
      var j :| 0 <= j < |items| && Contains(items[j], b.items[i]);
      if j == at {
        Transitive(item, items[at], b.items[i]);
      }
      assert Contains(more[j], b.items[i]);
    }
  }

  // ----- What it rejects -----

  /** The Go type that the switch looks at. */
  function Kind(a: Json): nat {
    match a
    case Null => 0
    case Bool(_) => 1
    case Int(_) => 2
    case Float(_) => 3
    case String(_) => 4
    case Array(_) => 5
    case Object(_) => 6
  }

  lemma OtherKindRejected(a: Json, b: Json)
    requires Kind(a) != Kind(b)
    ensures !Contains(a, b)
  {
  }

  /** Strings, booleans and Go integers are contained in themselves and in nothing else. */
  lemma ScalarsMustBeEqual(s: string, t: string, p: bool, q: bool, m: int, n: int)
    ensures Contains(String(s), String(t)) <==> s == t
    ensures Contains(Bool(p), Bool(q)) <==> p == q
    ensures Contains(Int(m), Int(n)) <==> m == n
  {
  }

  lemma NumbersAndNullRejected(a: Json, f: real)
    ensures !Contains(a, Float(f)) && !Contains(Float(f), a)
    ensures !Contains(a, Null) && !Contains(Null, a)
  {
  }

  /** A missing key, or one whose value is not contained, is enough to reject an object. */
  lemma MemberRejected(members: map<string, Json>, some: map<string, Json>, key: string)
    requires key in some && (key in members ==> !Contains(members[key], some[key]))
    ensures !Contains(Object(members), Object(some))
  {
  }

  /** An item that no item contains is enough to reject an array. */
  lemma ItemRejected(items: seq<Json>, some: seq<Json>, at: nat)
    requires at < |some| && forall j :: 0 <= j < |items| ==> !Contains(items[j], some[at])
    ensures !Contains(Array(items), Array(some))
  {
    assert !SomeContains(items, some[at]);
  }

  // ----- Assertions -----

  datatype Assertion = Assertion(kind: string, test: Json)

  predicate Known(a: Assertion) {
    a.kind == "contains" || a.kind == "not-contains"
  }

  predicate Fails(result: Json, a: Assertion) {
    if a.kind == "contains" then !Contains(result, a.test) else Contains(result, a.test)
  }

  /** The failing assertions, in order. */
  function Failing(result: Json, assertions: seq<Assertion>): seq<Assertion> {
    if assertions == [] then []
    else
      var last := assertions[|assertions| - 1];
      Failing(result, assertions[..|assertions| - 1]) + if Fails(result, last) then [last] else []
  }

  /**
   An unknown kind stops the check, and what failed before it is returned with
   the error.  Without one, a "contains" assertion is reported exactly when its
   test is not contained, and a "not-contains" assertion exactly when it is.
   */
  method CheckAssertions(result: Json, assertions: seq<Assertion>) returns (failures: seq<Assertion>, err: bool)
    ensures err <==> exists i :: 0 <= i < |assertions|
                                 && assertions[i].kind != "contains" && assertions[i].kind != "not-contains"
    ensures !err ==> failures == Failing(result, assertions)
    ensures !err ==> forall test :: Assertion("contains", test) in assertions ==>
                       (Assertion("contains", test) in failures <==> !Contains(result, test))
    ensures !err ==> forall test :: Assertion("not-contains", test) in assertions ==>
                       (Assertion("not-contains", test) in failures <==> Contains(result, test))
    ensures err ==> exists n :: 0 <= n < |assertions| && !Known(assertions[n])
                                && (forall i :: 0 <= i < n ==> Known(assertions[i]))
                                && failures == Failing(result, assertions[..n])
  {
    failures, err := [], false;
    for n := 0 to |assertions|
      invariant !err && failures == Failing(result, assertions[..n])
      invariant forall i :: 0 <= i < n ==> Known(assertions[i])
    {
      var assertion := assertions[n];
      assert assertions[..n + 1][..n] == assertions[..n];
      if assertion.kind == "contains" {
        var contained := JsonContainsLoop(result, assertion.test);
        if !contained {
          failures := failures + [assertion];
        }
      } else if assertion.kind == "not-contains" {
        var contained := JsonContainsLoop(result, assertion.test);
        if contained {
          failures := failures + [assertion];
        }
      } else {
        err := true;
        return;
      }
    }
    assert assertions[..|assertions|] == assertions;
    ReportedIff(result, assertions);
  }

  lemma ReportedIff(result: Json, assertions: seq<Assertion>)
    ensures forall test :: Assertion("contains", test) in assertions ==>
              (Assertion("contains", test) in Failing(result, assertions) <==> !Contains(result, test))
    ensures forall test :: Assertion("not-contains", test) in assertions ==>
              (Assertion("not-contains", test) in Failing(result, assertions) <==> Contains(result, test))
  {
    assert "contains"[0] != "not-contains"[0];
    forall test
      ensures Assertion("contains", test) in assertions ==>
                (Assertion("contains", test) in Failing(result, assertions) <==> !Contains(result, test))
      ensures Assertion("not-contains", test) in assertions ==>
                (Assertion("not-contains", test) in Failing(result, assertions) <==> Contains(result, test))
    {
      FailingIff(result, assertions, Assertion("contains", test));
      FailingIff(result, assertions, Assertion("not-contains", test));
    }
  }

  lemma {:induction false} FailingIff(result: Json, assertions: seq<Assertion>, a: Assertion)
    ensures a in Failing(result, assertions) <==> a in assertions && Fails(result, a)
  {
    if assertions == [] {
    } else {
      var front, last := assertions[..|assertions| - 1], assertions[|assertions| - 1];
      FailingIff(result, front, a);
      assert assertions == front + [last];
    }
  }

  /** When a result grows by containment no "contains" assertion starts to fail, and no "not-contains" one stops. */
  lemma GrowthIsMonotone(before: Json, after: Json, assertions: seq<Assertion>, a: Assertion)
    requires Contains(after, before)
    ensures a.kind == "contains" && a in Failing(after, assertions) ==> a in Failing(before, assertions)
    ensures a.kind == "not-contains" && a in Failing(before, assertions) ==> a in Failing(after, assertions)
  {
    FailingIff(before, assertions, a);
    FailingIff(after, assertions, a);
    if Contains(before, a.test) {
      Transitive(after, before, a.test);
    }
  }
}
