/**
 Turning the two row streams of a query into repositories: adjacent rows are
 grouped by name, and the two lists of groups are merged by name.
 */
module Results {
  import opened Collections
  import opened GoStrings

  /** A repository of a query result, with images of type `I` and lists of type `L`. */
  datatype Repository<I, L> = Repository(name: string, images: seq<I>, lists: seq<L>)

  datatype Group<T> = Group(name: string, items: seq<T>)

  // ----- Grouping -----

  function AddRow<T>(groups: seq<Group<T>>, name: string, item: T): seq<Group<T>> {
    var n := |groups|;
    if n > 0 && groups[n - 1].name == name
    then groups[..n - 1] + [Group(name, groups[n - 1].items + [item])]
    else groups + [Group(name, [item])]
  }

  function Grouped<T>(rows: seq<(string, T)>): seq<Group<T>> {
    if rows == [] then []
    else
      var last := rows[|rows| - 1];
      AddRow(Grouped(rows[..|rows| - 1]), last.0, last.1)
  }

  method GroupRows<T>(rows: seq<(string, T)>) returns (groups: seq<Group<T>>)
    ensures groups == Grouped(rows)
  {
    groups := [];
    for i := 0 to |rows|
      invariant groups == Grouped(rows[..i])
    {
      GroupedNext(rows, i);
      groups := PlaceRow(groups, rows[i].0, rows[i].1);
    }
    assert rows[..|rows|] == rows;
  }

  /** Opens a group if need be, then appends to the last one. */
  method PlaceRow<T>(was: seq<Group<T>>, name: string, item: T) returns (groups: seq<Group<T>>)
    ensures groups == AddRow(was, name, item)
  {
    groups := was;
    if groups == [] || name != groups[|groups| - 1].name {
      groups := groups + [Group(name, [])];
      assert [] + [item] == [item];
    }
    var current := |groups| - 1;
    groups := groups[current := Group(name, groups[current].items + [item])];
  }

  lemma GroupedNext<T>(rows: seq<(string, T)>, i: nat)
    requires i < |rows|
    ensures Grouped(rows[..i + 1]) == AddRow(Grouped(rows[..i]), rows[i].0, rows[i].1)
  {
    assert rows[..i + 1][..i] == rows[..i];
  }

  /** The rows a list of groups stands for. */
  function RowsOf<T>(groups: seq<Group<T>>): seq<(string, T)> {
    if groups == [] then []
    else RowsOf(groups[..|groups| - 1]) + Tagged(groups[|groups| - 1].name, groups[|groups| - 1].items)
  }

  function Tagged<T>(name: string, items: seq<T>): (r: seq<(string, T)>)
    ensures |r| == |items|
  {
    seq(|items|, i requires 0 <= i < |items| => (name, items[i]))
  }

  /** Grouping loses no row and moves none. */
  lemma {:induction false} GroupingKeepsRows<T>(rows: seq<(string, T)>)
    ensures RowsOf(Grouped(rows)) == rows
  {
    if rows == [] {
    } else {
      var front, last := rows[..|rows| - 1], rows[|rows| - 1];
      GroupingKeepsRows(front);
      AddRowKeepsRows(Grouped(front), last.0, last.1);
      FrontAndLast(rows);
    }
  }

  lemma AddRowKeepsRows<T>(groups: seq<Group<T>>, name: string, item: T)
    ensures RowsOf(AddRow(groups, name, item)) == RowsOf(groups) + [(name, item)]
  {
    var r := AddRow(groups, name, item);
    var n := |groups|;
    if n > 0 && groups[n - 1].name == name {
      assert r[..|r| - 1] == groups[..n - 1];
      assert Tagged(name, groups[n - 1].items + [item]) == Tagged(name, groups[n - 1].items) + [(name, item)];
    } else {
      assert r[..|r| - 1] == groups;
      assert Tagged(name, [item]) == [(name, item)];
    }
  }

  // ----- Merging -----

  /** The next entry comes from `a`, from `b`, or from both under one name. */
  predicate FromA<I, L>(a: seq<Repository<I, L>>, b: seq<Repository<I, L>>) {
    a != [] && (b == [] || a[0].name == b[0].name || Less(a[0].name, b[0].name))
  }

  predicate FromB<I, L>(a: seq<Repository<I, L>>, b: seq<Repository<I, L>>) {
    b != [] && (a == [] || a[0].name == b[0].name || !Less(a[0].name, b[0].name))
  }

  function Next<I, L>(a: seq<Repository<I, L>>, b: seq<Repository<I, L>>): Repository<I, L>
    requires a != [] || b != []
  {
    if !FromA(a, b) then b[0]
    else if FromB(a, b) then a[0].(lists := b[0].lists)
    else a[0]
  }

  function Merged<I, L>(a: seq<Repository<I, L>>, b: seq<Repository<I, L>>): seq<Repository<I, L>>
    decreases |a| + |b|
  {
    if a == [] && b == [] then []
    else [Next(a, b)] + Merged(if FromA(a, b) then a[1..] else a, if FromB(a, b) then b[1..] else b)
  }

  method MergeRepos<I, L>(imageRepos: seq<Repository<I, L>>, listRepos: seq<Repository<I, L>>)
    returns (result: seq<Repository<I, L>>)
    ensures result == Merged(imageRepos, listRepos)
  {
    var i, j := 0, 0;
    result := [];
    while i < |imageRepos| || j < |listRepos|
      invariant i <= |imageRepos| && j <= |listRepos|
      invariant result + Merged(imageRepos[i..], listRepos[j..]) == Merged(imageRepos, listRepos)
      decreases |imageRepos| - i + |listRepos| - j
    {
      ghost var a, b, before := imageRepos[i..], listRepos[j..], result;
      var next: Repository<I, L>;
      var fromA, fromB := false, false;
      if i < |imageRepos| && j < |listRepos| {
        if imageRepos[i].name == listRepos[j].name {
          next := imageRepos[i].(lists := listRepos[j].lists);
          fromA, fromB := true, true;
        } else if Less(imageRepos[i].name, listRepos[j].name) {
          next := imageRepos[i];
          fromA := true;
        } else {
          next := listRepos[j];
          fromB := true;
        }
      } else if i < |imageRepos| {
        next := imageRepos[i];
        fromA := true;
      } else {
        next := listRepos[j];
        fromB := true;
      }
      assert next == Next(a, b) && fromA == FromA(a, b) && fromB == FromB(a, b);
      result := result + [next];
      if fromA {
        i := i + 1;
      }
      if fromB {
        j := j + 1;
      }
      MergedStep(a, b, imageRepos[i..], listRepos[j..]);
      Regroup(before, [next], Merged(imageRepos[i..], listRepos[j..]));
    }
  }

  lemma MergedStep<I, L>(a: seq<Repository<I, L>>, b: seq<Repository<I, L>>,
                         a': seq<Repository<I, L>>, b': seq<Repository<I, L>>)
    requires a != [] || b != []
    requires a' == (if FromA(a, b) then a[1..] else a) && b' == (if FromB(a, b) then b[1..] else b)
    ensures Merged(a, b) == [Next(a, b)] + Merged(a', b')
  {
  }

  function ImageRows<I, L>(rs: seq<Repository<I, L>>): seq<(string, I)> {
    if rs == [] then [] else Tagged(rs[0].name, rs[0].images) + ImageRows(rs[1..])
  }

  function ListRows<I, L>(rs: seq<Repository<I, L>>): seq<(string, L)> {
    if rs == [] then [] else Tagged(rs[0].name, rs[0].lists) + ListRows(rs[1..])
  }

  ghost predicate NoLists<I, L>(rs: seq<Repository<I, L>>) {
    forall i :: 0 <= i < |rs| ==> rs[i].lists == []
  }

  ghost predicate NoImages<I, L>(rs: seq<Repository<I, L>>) {
    forall i :: 0 <= i < |rs| ==> rs[i].images == []
  }

  /** Merging loses no image and no list, moves none to another name and reorders none. */
  lemma {:induction false} MergingKeepsRows<I, L>(a: seq<Repository<I, L>>, b: seq<Repository<I, L>>)
    requires NoLists(a) && NoImages(b)
    ensures ImageRows(Merged(a, b)) == ImageRows(a)
    ensures ListRows(Merged(a, b)) == ListRows(b)
    decreases |a| + |b|
  {
    if a == [] && b == [] {
    } else {
      var a', b' := if FromA(a, b) then a[1..] else a, if FromB(a, b) then b[1..] else b;
      MergingKeepsRows(a', b');
      var m := Merged(a, b);
      assert m[1..] == Merged(a', b');
      if !FromA(a, b) {
        assert Tagged(b[0].name, b[0].images) == [];
      } else if !FromB(a, b) {
        assert Tagged(a[0].name, a[0].lists) == [];
      }
    }
  }

  // ----- Order -----

  ghost predicate Ascending<I, L>(rs: seq<Repository<I, L>>) {
    forall i, j :: 0 <= i < j < |rs| ==> Less(rs[i].name, rs[j].name)
  }

  ghost predicate Above<I, L>(name: string, rs: seq<Repository<I, L>>) {
    forall i :: 0 <= i < |rs| ==> Less(name, rs[i].name)
  }

  lemma AscendingCons<I, L>(rs: seq<Repository<I, L>>)
    requires rs != []
    ensures Ascending(rs) <==> Above(rs[0].name, rs[1..]) && Ascending(rs[1..])
  {
    var tail := rs[1..];
    assert forall i :: 0 <= i < |tail| ==> tail[i] == rs[i + 1];
    if Ascending(rs) {
      forall i, j | 0 <= i < j < |tail|
        ensures Less(tail[i].name, tail[j].name)
      {
        assert Less(rs[i + 1].name, rs[j + 1].name);
      }
    }
    if Above(rs[0].name, tail) && Ascending(tail) {
      forall i, j | 0 <= i < j < |rs|
        ensures Less(rs[i].name, rs[j].name)
      {
        assert rs[j] == tail[j - 1];
        if i > 0 {
          assert rs[i] == tail[i - 1];
        }
      }
    }
  }

  /** A name is below the merged list exactly when it is below both lists. */
  lemma {:induction false} AboveMerged<I, L>(name: string, a: seq<Repository<I, L>>, b: seq<Repository<I, L>>)
    ensures Above(name, Merged(a, b)) <==> Above(name, a) && Above(name, b)
    decreases |a| + |b|
  {
    if a == [] && b == [] {
    } else {
      var a', b' := if FromA(a, b) then a[1..] else a, if FromB(a, b) then b[1..] else b;
      AboveMerged(name, a', b');
      AboveCons(name, Merged(a, b));
      assert Merged(a, b)[1..] == Merged(a', b');
      if a != [] {
        AboveCons(name, a);
      }
      if b != [] {
        AboveCons(name, b);
      }
    }
  }

  lemma AboveCons<I, L>(name: string, rs: seq<Repository<I, L>>)
    requires rs != []
    ensures Above(name, rs) <==> Less(name, rs[0].name) && Above(name, rs[1..])
  {
    var tail := rs[1..];
    if Less(name, rs[0].name) && Above(name, tail) {
      forall i | 0 <= i < |rs|
        ensures Less(name, rs[i].name)
      {
        if i > 0 {
          assert rs[i] == tail[i - 1];
        }
      }
    }
    assert forall i :: 0 <= i < |tail| ==> tail[i] == rs[i + 1];
  }

  /** In an ascending list, everything after the head is above whatever the head is above. */
  lemma AscendingHead<I, L>(name: string, rs: seq<Repository<I, L>>)
    requires Ascending(rs) && (rs == [] || Less(name, rs[0].name))
    ensures Above(name, rs)
  {
    forall i | 0 <= i < |rs|
      ensures Less(name, rs[i].name)
    {
      if i > 0 {
        assert Less(rs[0].name, rs[i].name);
        LessTrichotomy(rs[0].name, rs[i].name);
        LeqTotal(rs[0].name, rs[i].name);
        LessLeq(name, rs[0].name, rs[i].name);
      }
    }
  }

  /** The merged list is strictly ordered if and only if both lists are. */
  lemma {:induction false} MergedAscendingIff<I, L>(a: seq<Repository<I, L>>, b: seq<Repository<I, L>>)
    ensures Ascending(Merged(a, b)) <==> Ascending(a) && Ascending(b)
    decreases |a| + |b|
  {
    if a == [] && b == [] {
    } else {
      var a', b' := if FromA(a, b) then a[1..] else a, if FromB(a, b) then b[1..] else b;
      var name := Next(a, b).name;
      MergedAscendingIff(a', b');
      AscendingCons(Merged(a, b));
      assert Merged(a, b)[1..] == Merged(a', b');
      AboveMerged(name, a', b');
      if a != [] {
        AscendingCons(a);
      }
      if b != [] {
        AscendingCons(b);
      }
      if a != [] && b != [] {
        LessTrichotomy(a[0].name, b[0].name);
        if Ascending(a) && Ascending(b) {
          AscendingHead(name, a');
          AscendingHead(name, b');
        }
      }
    }
  }

  /** Rows in name order; equal names may repeat. */
  ghost predicate RowsSorted<T>(rows: seq<(string, T)>) {
    forall i, j :: 0 <= i < j < |rows| ==> Leq(rows[i].0, rows[j].0)
  }

  ghost predicate GroupsAscending<T>(groups: seq<Group<T>>) {
    forall i, j :: 0 <= i < j < |groups| ==> Less(groups[i].name, groups[j].name)
  }

  function Names<T>(rows: seq<(string, T)>): set<string> {
    set i | 0 <= i < |rows| :: rows[i].0
  }

  function GroupNames<T>(groups: seq<Group<T>>): set<string> {
    set i | 0 <= i < |groups| :: groups[i].name
  }

  lemma AddRowNames<T>(groups: seq<Group<T>>, name: string, item: T)
    ensures var r := AddRow(groups, name, item);
            && GroupNames(r) == GroupNames(groups) + {name}
            && r != [] && r[|r| - 1].name == name
            && (forall i :: 0 <= i < |groups| ==> i < |r| && r[i].name == groups[i].name)
  {
    var r := AddRow(groups, name, item);
    assert forall i :: 0 <= i < |groups| ==> r[i].name == groups[i].name;
    forall n
      ensures n in GroupNames(r) <==> n in GroupNames(groups) + {name}
    {
      if n in GroupNames(groups) {
        var i :| 0 <= i < |groups| && groups[i].name == n;
        assert r[i].name == n;
      } else if n == name {
        assert r[|r| - 1].name == n;
      }
    }
  }

  /** The group names are the row names. */
  lemma {:induction false} GroupedNames<T>(rows: seq<(string, T)>)
    ensures GroupNames(Grouped(rows)) == Names(rows)
  {
    if rows == [] {
    } else {
      var front, last := rows[..|rows| - 1], rows[|rows| - 1];
      GroupedNames(front);
      AddRowNames(Grouped(front), last.0, last.1);
      NamesSnoc(front, last);
      assert rows == front + [last];
    }
  }

  lemma NamesSnoc<T>(front: seq<(string, T)>, last: (string, T))
    ensures Names(front + [last]) == Names(front) + {last.0}
  {
    var rows := front + [last];
    assert rows[|front|] == last;
    forall n | n in Names(front)
      ensures n in Names(rows)
    {
      var i :| 0 <= i < |front| && front[i].0 == n;
      assert rows[i].0 == n;
    }
  }

  /** Grouping gives strictly ordered names if and only if the rows come in name order. */
  lemma {:induction false} GroupedAscendingIff<T>(rows: seq<(string, T)>)
    ensures GroupsAscending(Grouped(rows)) <==> RowsSorted(rows)
  {
    if rows == [] {
    } else {
      var front, last := rows[..|rows| - 1], rows[|rows| - 1];
      GroupedAscendingIff(front);
      GroupedNames(front);
      AddRowAscendingIff(Grouped(front), last.0, last.1);
      RowsSortedSnoc(front, last);
      assert rows == front + [last];
    }
  }

  lemma RowsSortedSnoc<T>(front: seq<(string, T)>, last: (string, T))
    ensures RowsSorted(front + [last]) <==> RowsSorted(front) && forall n :: n in Names(front) ==> Leq(n, last.0)
  {
    var rows := front + [last];
    assert forall i :: 0 <= i < |front| ==> rows[i] == front[i] && front[i].0 in Names(front);
    assert rows[|front|] == last;
    if RowsSorted(rows) {
      forall n | n in Names(front)
        ensures Leq(n, last.0)
      {
        var i :| 0 <= i < |front| && front[i].0 == n;
        assert Leq(rows[i].0, rows[|front|].0);
      }
      forall i, j | 0 <= i < j < |front|
        ensures Leq(front[i].0, front[j].0)
      {
        assert Leq(rows[i].0, rows[j].0);
      }
    }
  }

  lemma AddRowAscendingIff<T>(g: seq<Group<T>>, name: string, item: T)
    ensures GroupsAscending(AddRow(g, name, item))
       <==> GroupsAscending(g) && forall n :: n in GroupNames(g) ==> Leq(n, name)
  {
    var r := AddRow(g, name, item);
    AddRowNames(g, name, item);
    if GroupsAscending(r) {
      forall i, j | 0 <= i < j < |g|
        ensures Less(g[i].name, g[j].name)
      {
        assert Less(r[i].name, r[j].name);
      }
      forall n | n in GroupNames(g)
        ensures Leq(n, name)
      {
        var i :| 0 <= i < |g| && g[i].name == n;
        LeqReflexive(name);
        LeqTotal(n, name);
        if i < |r| - 1 {
          assert Less(r[i].name, r[|r| - 1].name);
        }
      }
    }
    if GroupsAscending(g) && forall n :: n in GroupNames(g) ==> Leq(n, name) {
      AddRowAscending(g, name, item);
    }
  }

  lemma AddRowAscending<T>(g: seq<Group<T>>, name: string, item: T)
    requires GroupsAscending(g) && forall n :: n in GroupNames(g) ==> Leq(n, name)
    ensures GroupsAscending(AddRow(g, name, item))
  {
    var r := AddRow(g, name, item);
    AddRowNames(g, name, item);
    if |r| > |g| && g != [] {
      var top := g[|g| - 1].name;
      assert top in GroupNames(g);
      LessTrichotomy(top, name);
      forall i | 0 <= i < |g| - 1
        ensures Less(g[i].name, name)
      {
        LessLeq(g[i].name, top, name);
      }
    }
  }

  // ----- From the two row streams to the result -----

  function ImageRepos<I, L>(groups: seq<Group<I>>): (r: seq<Repository<I, L>>)
    ensures |r| == |groups|
    ensures NoLists(r)
  {
    seq(|groups|, i requires 0 <= i < |groups| => Repository(groups[i].name, groups[i].items, []))
  }

  function ListRepos<I, L>(groups: seq<Group<L>>): (r: seq<Repository<I, L>>)
    ensures |r| == |groups|
    ensures NoImages(r)
  {
    seq(|groups|, i requires 0 <= i < |groups| => Repository(groups[i].name, [], groups[i].items))
  }

  lemma {:induction false} ImageRowsConcat<I, L>(a: seq<Repository<I, L>>, b: seq<Repository<I, L>>)
    ensures ImageRows(a + b) == ImageRows(a) + ImageRows(b)
    ensures ListRows(a + b) == ListRows(a) + ListRows(b)
  {
    if a == [] {
      assert a + b == b;
    } else {
      ImageRowsConcat(a[1..], b);
      assert (a + b)[1..] == a[1..] + b;
      Regroup(Tagged(a[0].name, a[0].images), ImageRows(a[1..]), ImageRows(b));
      Regroup(Tagged(a[0].name, a[0].lists), ListRows(a[1..]), ListRows(b));
    }
  }

  lemma OneRepository<I, L>(r: Repository<I, L>)
    ensures ImageRows([r]) == Tagged(r.name, r.images) && ListRows([r]) == Tagged(r.name, r.lists)
  {
    assert [r][1..] == [];
  }

  lemma {:induction false} ImageReposRows<I, L>(groups: seq<Group<I>>)
    ensures ImageRows(ImageRepos<I, L>(groups)) == RowsOf(groups)
  {
    if groups != [] {
      var front, last := groups[..|groups| - 1], groups[|groups| - 1];
      ImageReposRows<I, L>(front);
      var r: Repository<I, L> := Repository(last.name, last.items, []);
      assert ImageRepos<I, L>(groups) == ImageRepos<I, L>(front) + [r];
      ImageRowsConcat(ImageRepos<I, L>(front), [r]);
      OneRepository(r);
    }
  }

  lemma {:induction false} ListReposRows<I, L>(groups: seq<Group<L>>)
    ensures ListRows(ListRepos<I, L>(groups)) == RowsOf(groups)
  {
    if groups != [] {
      var front, last := groups[..|groups| - 1], groups[|groups| - 1];
      ListReposRows<I, L>(front);
      var r: Repository<I, L> := Repository(last.name, [], last.items);
      assert ListRepos<I, L>(groups) == ListRepos<I, L>(front) + [r];
      ImageRowsConcat(ListRepos<I, L>(front), [r]);
      OneRepository(r);
    }
  }

  /** Rows that all carry one name. */
  ghost predicate OnlyNamed<T>(rows: seq<(string, T)>, name: string) {
    forall i :: 0 <= i < |rows| ==> rows[i].0 == name
  }

  lemma {:induction false} OneGroup<T>(rows: seq<(string, T)>, name: string)
    requires OnlyNamed(rows, name)
    ensures |Grouped(rows)| <= 1 && forall i :: 0 <= i < |Grouped(rows)| ==> Grouped(rows)[i].name == name
  {
    if rows == [] {
    } else {
      OneGroup(rows[..|rows| - 1], name);
      AddRowToOne(Grouped(rows[..|rows| - 1]), name, rows[|rows| - 1].1);
    }
  }

  lemma AddRowToOne<T>(groups: seq<Group<T>>, name: string, item: T)
    requires |groups| <= 1 && forall i :: 0 <= i < |groups| ==> groups[i].name == name
    ensures |AddRow(groups, name, item)| == 1 && AddRow(groups, name, item)[0].name == name
  {
  }

  lemma MergeOne<I, L>(a: seq<Repository<I, L>>, b: seq<Repository<I, L>>, name: string)
    requires |a| <= 1 && |b| <= 1
    requires a != [] ==> a[0].name == name
    requires b != [] ==> b[0].name == name
    ensures |Merged(a, b)| <= 1
  {
    if a != [] {
      assert a[1..] == [];
    }
    if b != [] {
      assert b[1..] == [];
    }
  }

  // ----- Every entry comes from a row -----

  ghost predicate NoneEmpty<I, L>(rs: seq<Repository<I, L>>) {
    forall i :: 0 <= i < |rs| ==> rs[i].images != [] || rs[i].lists != []
  }

  function RepoNames<I, L>(rs: seq<Repository<I, L>>): set<string> {
    set i | 0 <= i < |rs| :: rs[i].name
  }

  lemma {:induction false} GroupsNotEmpty<T>(rows: seq<(string, T)>)
    ensures forall i :: 0 <= i < |Grouped(rows)| ==> Grouped(rows)[i].items != []
  {
    if rows == [] {
    } else {
      GroupsNotEmpty(rows[..|rows| - 1]);
    }
  }

  lemma {:induction false} MergedNotEmpty<I, L>(a: seq<Repository<I, L>>, b: seq<Repository<I, L>>)
    requires forall i :: 0 <= i < |a| ==> a[i].images != []
    requires forall i :: 0 <= i < |b| ==> b[i].lists != []
    ensures NoneEmpty(Merged(a, b))
    decreases |a| + |b|
  {
    if a == [] && b == [] {
    } else {
      var a', b' := if FromA(a, b) then a[1..] else a, if FromB(a, b) then b[1..] else b;
      MergedNotEmpty(a', b');
      MergedStep(a, b, a', b');
    }
  }

  lemma NamesConcat<T>(a: seq<(string, T)>, b: seq<(string, T)>)
    ensures Names(a + b) == Names(a) + Names(b)
  {
    forall n | n in Names(a) + Names(b)
      ensures n in Names(a + b)
    {
      if i :| 0 <= i < |a| && a[i].0 == n {
        assert (a + b)[i].0 == n;
      } else {
        var i :| 0 <= i < |b| && b[i].0 == n;
        assert (a + b)[|a| + i].0 == n;
      }
    }
  }

  lemma NamesOfTagged<T>(name: string, items: seq<T>)
    ensures Names(Tagged(name, items)) == if items == [] then {} else {name}
  {
    if items != [] {
      assert Tagged(name, items)[0].0 == name;
    }
  }

  lemma RepoNamesCons<I, L>(rs: seq<Repository<I, L>>)
    requires rs != []
    ensures RepoNames(rs) == {rs[0].name} + RepoNames(rs[1..])
  {
    forall n | n in RepoNames(rs[1..])
      ensures n in RepoNames(rs)
    {
      var i :| 0 <= i < |rs[1..]| && rs[1..][i].name == n;
      assert rs[i + 1].name == n;
    }
    forall n | n in RepoNames(rs)
      ensures n == rs[0].name || n in RepoNames(rs[1..])
    {
      var i :| 0 <= i < |rs| && rs[i].name == n;
      assert i > 0 ==> rs[1..][i - 1].name == n;
    }
  }

  /** The names of a result whose entries all hold something are those of its rows, and there are no others. */
  lemma {:induction false} NamesOfResult<I, L>(rs: seq<Repository<I, L>>)
    requires NoneEmpty(rs)
    ensures RepoNames(rs) == Names(ImageRows(rs)) + Names(ListRows(rs))
  {
    if rs == [] {
    } else {
      var r := rs[0];
      NamesOfResult(rs[1..]);
      RepoNamesCons(rs);
      NamesConcat(Tagged(r.name, r.images), ImageRows(rs[1..]));
      NamesConcat(Tagged(r.name, r.lists), ListRows(rs[1..]));
      NamesOfTagged(r.name, r.images);
      NamesOfTagged(r.name, r.lists);
    }
  }

  /**
   What `DoQuery` makes of its two row streams.  No row is lost, moved to
   another name or reordered; there is an entry for each name in either stream
   and no other; names are strictly ascending if and only if both streams come
   in name order; and rows of a single repository make at most one entry, in
   whatever order they come.
   */
  method BuildResult<I, L>(imageRows: seq<(string, I)>, listRows: seq<(string, L)>)
    returns (result: seq<Repository<I, L>>)
    ensures ImageRows(result) == imageRows && ListRows(result) == listRows
    ensures NoneEmpty(result) && RepoNames(result) == Names(imageRows) + Names(listRows)
    ensures Ascending(result) <==> RowsSorted(imageRows) && RowsSorted(listRows)
    ensures forall name :: OnlyNamed(imageRows, name) && OnlyNamed(listRows, name) ==> |result| <= 1
  {
    var imageGroups := GroupRows(imageRows);
    var listGroups := GroupRows(listRows);
    result := MergeRepos(ImageRepos<I, L>(imageGroups), ListRepos<I, L>(listGroups));
    ResultRows<I, L>(imageRows, listRows);
    ResultOrder<I, L>(imageRows, listRows);
    GroupsNotEmpty(imageRows);
    GroupsNotEmpty(listRows);
    MergedNotEmpty(ImageRepos<I, L>(imageGroups), ListRepos<I, L>(listGroups));
    NamesOfResult(result);
    forall name | OnlyNamed(imageRows, name) && OnlyNamed(listRows, name)
      ensures |result| <= 1
    {
      OneGroup(imageRows, name);
      OneGroup(listRows, name);
      MergeOne(ImageRepos<I, L>(imageGroups), ListRepos<I, L>(listGroups), name);
    }
  }

  lemma ResultRows<I, L>(imageRows: seq<(string, I)>, listRows: seq<(string, L)>)
    ensures var r := Merged(ImageRepos<I, L>(Grouped(imageRows)), ListRepos<I, L>(Grouped(listRows)));
            ImageRows(r) == imageRows && ListRows(r) == listRows
  {
    GroupingKeepsRows(imageRows);
    GroupingKeepsRows(listRows);
    ImageReposRows<I, L>(Grouped(imageRows));
    ListReposRows<I, L>(Grouped(listRows));
    MergingKeepsRows(ImageRepos<I, L>(Grouped(imageRows)), ListRepos<I, L>(Grouped(listRows)));
  }

  lemma ResultOrder<I, L>(imageRows: seq<(string, I)>, listRows: seq<(string, L)>)
    ensures var r := Merged(ImageRepos<I, L>(Grouped(imageRows)), ListRepos<I, L>(Grouped(listRows)));
            Ascending(r) <==> RowsSorted(imageRows) && RowsSorted(listRows)
  {
    GroupedAscendingIff(imageRows);
    GroupedAscendingIff(listRows);
    SameOrder(Grouped(imageRows), ImageRepos<I, L>(Grouped(imageRows)));
    SameOrder(Grouped(listRows), ListRepos<I, L>(Grouped(listRows)));
    MergedAscendingIff(ImageRepos<I, L>(Grouped(imageRows)), ListRepos<I, L>(Grouped(listRows)));
  }

  lemma SameOrder<T, I, L>(groups: seq<Group<T>>, rs: seq<Repository<I, L>>)
    requires |rs| == |groups| && forall i :: 0 <= i < |rs| ==> rs[i].name == groups[i].name
    ensures Ascending(rs) <==> GroupsAscending(groups)
  {
    if GroupsAscending(groups) {
      forall i, j | 0 <= i < j < |rs|
        ensures Less(rs[i].name, rs[j].name)
      {
        assert Less(groups[i].name, groups[j].name);
      }
    }
    if Ascending(rs) {
      forall i, j | 0 <= i < j < |rs|
        ensures Less(groups[i].name, groups[j].name)
      {
        assert Less(rs[i].name, rs[j].name);
      }
    }
  }

  // ----- One entry per name carries all that name's items -----

  function ItemsNamed<T>(rows: seq<(string, T)>, name: string): seq<T> {
    if rows == [] then []
    else (if rows[0].0 == name then [rows[0].1] else []) + ItemsNamed(rows[1..], name)
  }

  lemma {:induction false} ItemsNamedConcat<T>(a: seq<(string, T)>, b: seq<(string, T)>, name: string)
    ensures ItemsNamed(a + b, name) == ItemsNamed(a, name) + ItemsNamed(b, name)
  {
    if a == [] {
      assert a + b == b;
    } else {
      ItemsNamedConcat(a[1..], b, name);
      TailOfConcat(a, b);
      Regroup(if a[0].0 == name then [a[0].1] else [], ItemsNamed(a[1..], name), ItemsNamed(b, name));
    }
  }

  lemma {:induction false} ItemsOfTagged<T>(n: string, items: seq<T>, name: string)
    ensures ItemsNamed(Tagged(n, items), name) == if n == name then items else []
  {
    if items == [] {
    } else {
      assert Tagged(n, items)[1..] == Tagged(n, items[1..]);
      ItemsOfTagged(n, items[1..], name);
    }
  }

  lemma ItemsOfFirst<I, L>(rs: seq<Repository<I, L>>, name: string)
    requires rs != []
    ensures ItemsNamed(ImageRows(rs), name)
         == (if rs[0].name == name then rs[0].images else []) + ItemsNamed(ImageRows(rs[1..]), name)
    ensures ItemsNamed(ListRows(rs), name)
         == (if rs[0].name == name then rs[0].lists else []) + ItemsNamed(ListRows(rs[1..]), name)
  {
    var r := rs[0];
    ItemsNamedConcat(Tagged(r.name, r.images), ImageRows(rs[1..]), name);
    ItemsNamedConcat(Tagged(r.name, r.lists), ListRows(rs[1..]), name);
    ItemsOfTagged(r.name, r.images, name);
    ItemsOfTagged(r.name, r.lists, name);
  }

  lemma {:induction false} ItemsAbove<I, L>(rs: seq<Repository<I, L>>, name: string)
    requires Above(name, rs)
    ensures ItemsNamed(ImageRows(rs), name) == [] && ItemsNamed(ListRows(rs), name) == []
  {
    if rs == [] {
    } else {
      AboveCons(name, rs);
      LessTrichotomy(name, rs[0].name);
      ItemsAbove(rs[1..], name);
      ItemsOfFirst(rs, name);
    }
  }

  /** In a strictly ordered result each entry holds all and only its name's images and lists. */
  lemma {:induction false} EntryIsComplete<I, L>(rs: seq<Repository<I, L>>, i: nat)
    requires Ascending(rs) && i < |rs|
    ensures rs[i].images == ItemsNamed(ImageRows(rs), rs[i].name)
    ensures rs[i].lists == ItemsNamed(ListRows(rs), rs[i].name)
  {
    var name := rs[i].name;
    AscendingCons(rs);
    ItemsOfFirst(rs, name);
    if i == 0 {
      ItemsAbove(rs[1..], name);
      assert rs[0].images + [] == rs[0].images && rs[0].lists + [] == rs[0].lists;
    } else {
      LessTrichotomy(rs[0].name, name);
      EntryIsComplete(rs[1..], i - 1);
    }
  }

  // ----- Changing items in place -----

  function MapSeq<T>(items: seq<T>, f: T -> T): (r: seq<T>)
    ensures |r| == |items|
  {
    seq(|items|, i requires 0 <= i < |items| => f(items[i]))
  }

  function MapRows<T>(rows: seq<(string, T)>, f: T -> T): (r: seq<(string, T)>)
    ensures |r| == |rows|
  {
    seq(|rows|, i requires 0 <= i < |rows| => (rows[i].0, f(rows[i].1)))
  }

  function MapRepository<I, L>(r: Repository<I, L>, f: I -> I, g: L -> L): Repository<I, L> {
    Repository(r.name, MapSeq(r.images, f), MapSeq(r.lists, g))
  }

  function MapRepositories<I, L>(rs: seq<Repository<I, L>>, f: I -> I, g: L -> L): (r: seq<Repository<I, L>>)
    ensures |r| == |rs|
  {
    seq(|rs|, i requires 0 <= i < |rs| => MapRepository(rs[i], f, g))
  }

  method MapItems<I, L>(repositories: seq<Repository<I, L>>, f: I -> I, g: L -> L)
    returns (result: seq<Repository<I, L>>)
    ensures result == MapRepositories(repositories, f, g)
  {
    result := [];
    for i := 0 to |repositories|
      invariant result == MapRepositories(repositories[..i], f, g)
    {
      result := result + [MapRepository(repositories[i], f, g)];
    }
  }

  /** Changing items changes the rows accordingly, under the same names in the same order. */
  lemma {:induction false} MappedRows<I, L>(rs: seq<Repository<I, L>>, f: I -> I, g: L -> L)
    ensures ImageRows(MapRepositories(rs, f, g)) == MapRows(ImageRows(rs), f)
    ensures ListRows(MapRepositories(rs, f, g)) == MapRows(ListRows(rs), g)
  {
    if rs == [] {
    } else {
      MappedRows(rs[1..], f, g);
      var m := MapRepositories(rs, f, g);
      assert m[1..] == MapRepositories(rs[1..], f, g);
      MappedConcat(rs[0].name, rs[0].images, ImageRows(rs[1..]), f);
      MappedConcat(rs[0].name, rs[0].lists, ListRows(rs[1..]), g);
    }
  }

  lemma MappedConcat<T>(name: string, items: seq<T>, rows: seq<(string, T)>, f: T -> T)
    ensures MapRows(Tagged(name, items) + rows, f) == Tagged(name, MapSeq(items, f)) + MapRows(rows, f)
  {
  }

  lemma MappedOrder<I, L>(rs: seq<Repository<I, L>>, f: I -> I, g: L -> L)
    ensures Ascending(MapRepositories(rs, f, g)) <==> Ascending(rs)
    ensures NoneEmpty(rs) ==> NoneEmpty(MapRepositories(rs, f, g))
  {
    var m := MapRepositories(rs, f, g);
    if Ascending(m) {
      forall i, j | 0 <= i < j < |rs|
        ensures Less(rs[i].name, rs[j].name)
      {
        assert Less(m[i].name, m[j].name);
      }
    }
  }
}
