/**
 What the where builder generates for a query, and why it means the query.
 */
module CompileQuery {
  import opened Collections
  import opened Options
  import opened Queries
  import opened Sql
  import opened WhereBuilder
  import Glob

  /** The terms of one field, as they are handed to the builder. */
  datatype Subclause = Subclause(field: Field, terms: seq<QueryTerm>)

  /** The condition for a term when `n` arguments were added before it. */
  function TermAtom(field: Field, term: QueryTerm, n: nat): Atom {
    match field
    case Plain(c) =>
      if term.queryType.QueryMatches? then LikeParam(c, n + 1) else Equals(c, n + 1)
    case Keyed(m, _) =>
      match term.queryType
      case QueryIs => ContainsPair(m, n + 1)
      case QueryMatches => KeyLike(m, n + 1, n + 2)
      case QueryExists => HasKey(m, n + 1)
  }

  function TermArgs(field: Field, term: QueryTerm): seq<Arg> {
    match field
    case Plain(c) =>
      if term.queryType.QueryMatches? then [Text(Glob.Translate(term.argument))] else [Text(term.argument)]
    case Keyed(_, k) =>
      match term.queryType
      case QueryIs => [JsonObject(map[k := term.argument])]
      case QueryMatches => [Text(k), Text(Glob.Translate(term.argument))]
      case QueryExists => [Text(k)]
  }

  function SubAtoms(s: Subclause, n: nat): (r: seq<Atom>)
    ensures |r| == |s.terms|
    decreases |s.terms|
  {
    if s.terms == [] then []
    else
      var a := TermArgs(s.field, s.terms[0]);
      [TermAtom(s.field, s.terms[0], n)] + SubAtoms(s.(terms := s.terms[1..]), n + |a|)
  }

  function SubArgs(s: Subclause): seq<Arg>
    decreases |s.terms|
  {
    if s.terms == [] then []
    else TermArgs(s.field, s.terms[0]) + SubArgs(s.(terms := s.terms[1..]))
  }

  function Pieces(atoms: seq<Atom>): seq<Piece> {
    if atoms == [] then [None] else [Some(atoms[0])] + Pieces(atoms[1..])
  }

  function AllPieces(subs: seq<Subclause>): seq<Piece> {
    if subs == [] then []
    else
      var front, last := subs[..|subs| - 1], subs[|subs| - 1];
      AllPieces(front) + Pieces(SubAtoms(last, |AllArgs(front)|))
  }

  function AllArgs(subs: seq<Subclause>): seq<Arg> {
    if subs == [] then []
    else AllArgs(subs[..|subs| - 1]) + SubArgs(subs[|subs| - 1])
  }

  lemma Unroll(s: Subclause, n: nat)
    requires s.terms != []
    ensures var a := TermArgs(s.field, s.terms[0]);
            var rest := s.(terms := s.terms[1..]);
            && Pieces(SubAtoms(s, n)) == [Some(TermAtom(s.field, s.terms[0], n))] + Pieces(SubAtoms(rest, n + |a|))
            && SubArgs(s) == a + SubArgs(rest)
  {
    assert SubAtoms(s, n)[1..] == SubAtoms(s.(terms := s.terms[1..]), n + |TermArgs(s.field, s.terms[0])|);
  }

  // ----- Parameters line up -----

  function ParamsOf(atom: Atom): seq<nat> {
    match atom
    case Equals(_, p) => [p]
    case LikeParam(_, p) => [p]
    case ContainsPair(_, p) => [p]
    case KeyLike(_, k, p) => [k, p]
    case HasKey(_, p) => [p]
  }

  function PieceParams(ps: seq<Piece>): seq<nat> {
    if ps == [] then []
    else (if ps[0].None? then [] else ParamsOf(ps[0].value)) + PieceParams(ps[1..])
  }

  /** n + 1, n + 2, ... */
  function Numbers(n: nat, count: nat): (r: seq<nat>)
    ensures |r| == count
  {
    if count == 0 then [] else Numbers(n, count - 1) + [n + count]
  }

  lemma {:induction false} NumbersAppend(n: nat, a: nat, b: nat)
    ensures Numbers(n, a) + Numbers(n + a, b) == Numbers(n, a + b)
  {
    if b == 0 {
      assert Numbers(n, a) + [] == Numbers(n, a);
    } else {
      NumbersAppend(n, a, b - 1);
      Regroup(Numbers(n, a), Numbers(n + a, b - 1), [n + a + b]);
    }
  }

  lemma {:induction false} PieceParamsConcat(a: seq<Piece>, b: seq<Piece>)
    ensures PieceParams(a + b) == PieceParams(a) + PieceParams(b)
  {
    if a == [] {
      assert a + b == b;
    } else {
      PieceParamsConcat(a[1..], b);
      TailOfConcat(a, b);
      Regroup(if a[0].None? then [] else ParamsOf(a[0].value), PieceParams(a[1..]), PieceParams(b));
    }
  }

  lemma TermParams(field: Field, term: QueryTerm, n: nat)
    ensures ParamsOf(TermAtom(field, term, n)) == Numbers(n, |TermArgs(field, term)|)
  {
  }

  lemma {:induction false} SubParams(s: Subclause, n: nat)
    ensures PieceParams(Pieces(SubAtoms(s, n))) == Numbers(n, |SubArgs(s)|)
    decreases |s.terms|
  {
    var ps := Pieces(SubAtoms(s, n));
    if s.terms == [] {
      assert ps[1..] == [];
    } else {
      var args := TermArgs(s.field, s.terms[0]);
      var rest := s.(terms := s.terms[1..]);
      SubParams(rest, n + |args|);
      Unroll(s, n);
      TailOfCons(Some(TermAtom(s.field, s.terms[0], n)), Pieces(SubAtoms(rest, n + |args|)));
      TermParams(s.field, s.terms[0], n);
      NumbersAppend(n, |args|, |SubArgs(rest)|);
    }
  }

  /** One more subclause goes on counting where the ones before it stopped. */
  lemma ParamsGoOn(pieces: seq<Piece>, args: seq<Arg>, s: Subclause)
    requires PieceParams(pieces) == Numbers(0, |args|)
    ensures PieceParams(pieces + Pieces(SubAtoms(s, |args|))) == Numbers(0, |args + SubArgs(s)|)
  {
    SubParams(s, |args|);
    PieceParamsConcat(pieces, Pieces(SubAtoms(s, |args|)));
    NumbersAppend(0, |args|, |SubArgs(s)|);
  }

  /** In the order they are generated the placeholders are $1 to $n, n the number of arguments. */
  lemma {:induction false} ParamsLineUp(subs: seq<Subclause>)
    ensures PieceParams(AllPieces(subs)) == Numbers(0, |AllArgs(subs)|)
  {
    if subs == [] {
    } else {
      var front, last := subs[..|subs| - 1], subs[|subs| - 1];
      ParamsLineUp(front);
      ParamsGoOn(AllPieces(front), AllArgs(front), last);
    }
  }

  // ----- Runs of the generated pieces -----

  lemma {:induction false} RunsOfPieces(atoms: seq<Atom>)
    requires atoms != []
    ensures FirstRun(Pieces(atoms)) == atoms && AfterRun(Pieces(atoms)) == [None]
    ensures Runs(Pieces(atoms)) == [atoms]
  {
    var ps := Pieces(atoms);
    if |atoms| == 1 {
      assert ps == [Some(atoms[0]), None];
      assert ps[1..] == [None];
      assert FirstRun(ps[1..]) == [] && AfterRun(ps[1..]) == [None];
    } else {
      RunsOfPieces(atoms[1..]);
      assert ps[1..] == Pieces(atoms[1..]);
    }
    assert Runs([None]) == Runs([None][1..]);
  }

  lemma {:induction false} RunsAppend(a: seq<Piece>, b: seq<Piece>)
    requires a == [] || a[|a| - 1].None?
    ensures Runs(a + b) == Runs(a) + Runs(b)
    decreases |a|
  {
    if a == [] {
      assert a + b == b;
    } else if a[0].None? {
      assert (a + b)[1..] == a[1..] + b;
      RunsAppend(a[1..], b);
    } else {
      FirstRunAppend(a, b);
      RunsAppend(AfterRun(a), b);
    }
  }

  lemma {:induction false} FirstRunAppend(a: seq<Piece>, b: seq<Piece>)
    requires a != [] && a[|a| - 1].None?
    ensures FirstRun(a + b) == FirstRun(a) && AfterRun(a + b) == AfterRun(a) + b
    ensures AfterRun(a) != [] && AfterRun(a)[|AfterRun(a)| - 1].None?
    decreases |a|
  {
    if a[0].Some? {
      assert (a + b)[1..] == a[1..] + b;
      FirstRunAppend(a[1..], b);
    }
  }

  lemma {:induction false} PiecesEnd(atoms: seq<Atom>)
    ensures var ps := Pieces(atoms); ps != [] && ps[|ps| - 1].None?
  {
    if atoms == [] {
    } else {
      PiecesEnd(atoms[1..]);
    }
  }

  ghost predicate NonEmpty(subs: seq<Subclause>) {
    forall i :: 0 <= i < |subs| ==> subs[i].terms != []
  }

  lemma RunsOfAll(front: seq<Subclause>, last: Subclause)
    requires last.terms != []
    ensures var run := SubAtoms(last, |AllArgs(front)|);
            Runs(AllPieces(front + [last])) == Runs(AllPieces(front)) + [run]
  {
    var subs := front + [last];
    assert subs[..|subs| - 1] == front;
    var run := SubAtoms(last, |AllArgs(front)|);
    if front != [] {
      PiecesEnd(SubAtoms(front[|front| - 1], |AllArgs(front[..|front| - 1])|));
    }
    RunsAppend(AllPieces(front), Pieces(run));
    RunsOfPieces(run);
  }

  // ----- Meaning -----

  /** The clause is about what the query is about: no `exists` on a plain column, no backslash in a pattern. */
  ghost predicate Exact(s: Subclause) {
    forall i :: 0 <= i < |s.terms| ==> ExactTerm(s.field, s.terms[i])
  }

  predicate ExactTerm(field: Field, term: QueryTerm) {
    && (field.Plain? ==> !term.queryType.QueryExists?)
    && (term.queryType.QueryMatches? ==> '\\' !in term.argument)
  }

  /** A term's condition, reading its own arguments among all of them, is true when the row satisfies the term. */
  lemma TermMeans(field: Field, term: QueryTerm, before: seq<Arg>, after: seq<Arg>, row: Row)
    requires ExactTerm(field, term)
    ensures var args := before + TermArgs(field, term) + after;
            var atom := TermAtom(field, term, |before|);
            Bound(atom, args) && (EvalAtom(atom, args, row) == True <==> Satisfies(row, field, term))
  {
    var args := before + TermArgs(field, term) + after;
    var n := |before|;
    assert forall i :: 0 <= i < |TermArgs(field, term)| ==> args[n + i] == TermArgs(field, term)[i];
    assert args[n] == TermArgs(field, term)[0];
    if term.queryType.QueryMatches? {
      var v := ValueOf(row, field);
      if v.Some? {
        Glob.BackslashFreeExact(term.argument, v.value);
      }
      if field.Keyed? {
        assert args[n + 1] == TermArgs(field, term)[1];
      }
    } else if term.queryType.QueryIs? && field.Keyed? {
      var entries := MapOf(row, field.name);
      if entries.Some? {
        PairContained(field.key, term.argument, entries.value);
      }
    }
  }

  lemma PairContained(k: string, v: string, entries: map<string, string>)
    ensures map[k := v].Items <= entries.Items <==> k in entries && entries[k] == v
  {
    assert (k, v) in map[k := v].Items;
    forall p | p in map[k := v].Items
      ensures p == (k, v)
    {
    }
    if k in entries && entries[k] == v {
      assert (k, v) in entries.Items;
    }
  }

  lemma {:induction false} SubMeans(s: Subclause, before: seq<Arg>, row: Row)
    requires Exact(s)
    ensures var args := before + SubArgs(s);
            var run := SubAtoms(s, |before|);
            RunBound(run, args) && (RunTrue(run, args, row) <==> SomeSatisfied(row, s.field, s.terms))
    decreases |s.terms|
  {
    if s.terms == [] {
    } else {
      var t := s.terms[0];
      var mine := TermArgs(s.field, t);
      var rest := s.(terms := s.terms[1..]);
      var args := before + SubArgs(s);
      var run := SubAtoms(s, |before|);
      var run' := SubAtoms(rest, |before + mine|);
      assert ExactTerm(s.field, t);
      TermMeans(s.field, t, before, SubArgs(rest), row);
      assert args == before + mine + SubArgs(rest);
      SubMeans(rest, before + mine, row);
      assert run == [TermAtom(s.field, t, |before|)] + run';
      assert RunBound(run, args);
      SomeOfCons(row, s);
      RunTrueCons(run, args, row);
      assert run[1..] == run';
    }
  }

  lemma RunTrueCons(run: seq<Atom>, args: seq<Arg>, row: Row)
    requires run != [] && RunBound(run, args)
    ensures RunBound(run[1..], args)
    ensures RunTrue(run, args, row) <==> EvalAtom(run[0], args, row) == True || RunTrue(run[1..], args, row)
  {
    var tail := run[1..];
    assert RunBound(tail, args);
    if RunTrue(run, args, row) {
      var i :| 0 <= i < |run| && EvalAtom(run[i], args, row) == True;
      if i > 0 {
        assert EvalAtom(tail[i - 1], args, row) == True;
      }
    }
    if RunTrue(tail, args, row) {
      var i :| 0 <= i < |tail| && EvalAtom(tail[i], args, row) == True;
      assert EvalAtom(run[i + 1], args, row) == True;
    }
  }

  lemma SomeOfCons(row: Row, s: Subclause)
    requires s.terms != []
    ensures SomeSatisfied(row, s.field, s.terms)
       <==> Satisfies(row, s.field, s.terms[0]) || SomeSatisfied(row, s.field, s.terms[1..])
  {
    var tail := s.terms[1..];
    if SomeSatisfied(row, s.field, s.terms) {
      var i :| 0 <= i < |s.terms| && Satisfies(row, s.field, s.terms[i]);
      if i > 0 {
        assert Satisfies(row, s.field, tail[i - 1]);
      }
    }
    if SomeSatisfied(row, s.field, tail) {
      var i :| 0 <= i < |tail| && Satisfies(row, s.field, tail[i]);
      assert Satisfies(row, s.field, s.terms[i + 1]);
    }
  }

  ghost predicate AllSatisfied(subs: seq<Subclause>, row: Row) {
    forall i :: 0 <= i < |subs| ==> SomeSatisfied(row, subs[i].field, subs[i].terms)
  }

  ghost predicate AllExact(subs: seq<Subclause>) {
    forall i :: 0 <= i < |subs| ==> Exact(subs[i])
  }

  /** Later arguments do not disturb earlier conditions. */
  lemma RunsWithMoreArgs(runs: seq<seq<Atom>>, args: seq<Arg>, more: seq<Arg>, row: Row)
    requires RunsBound(runs, args)
    ensures RunsBound(runs, args + more)
    ensures RunsTrue(runs, args + more, row) <==> RunsTrue(runs, args, row)
  {
    forall r | 0 <= r < |runs|
      ensures RunBound(runs[r], args + more)
      ensures RunTrue(runs[r], args + more, row) <==> RunTrue(runs[r], args, row)
    {
      RunWithMoreArgs(runs[r], args, more, row);
    }
  }

  lemma RunWithMoreArgs(run: seq<Atom>, args: seq<Arg>, more: seq<Arg>, row: Row)
    requires RunBound(run, args)
    ensures RunBound(run, args + more)
    ensures RunTrue(run, args + more, row) <==> RunTrue(run, args, row)
  {
    forall i | 0 <= i < |run|
      ensures Bound(run[i], args + more)
      ensures EvalAtom(run[i], args + more, row) == EvalAtom(run[i], args, row)
    {
      assert Bound(run[i], args);
    }
  }

  lemma {:induction false} AllMeans(subs: seq<Subclause>, row: Row)
    requires NonEmpty(subs) && AllExact(subs)
    ensures var runs := Runs(AllPieces(subs));
            && |runs| == |subs|
            && RunsBound(runs, AllArgs(subs))
            && (RunsTrue(runs, AllArgs(subs), row) <==> AllSatisfied(subs, row))
  {
    if subs == [] {
    } else {
      var front, last := subs[..|subs| - 1], subs[|subs| - 1];
      assert subs == front + [last];
      AllMeans(front, row);
      RunsOfAll(front, last);
      SubMeans(last, AllArgs(front), row);
      var runs := Runs(AllPieces(front));
      RunsWithMoreArgs(runs, AllArgs(front), SubArgs(last), row);
      var run := SubAtoms(last, |AllArgs(front)|);
      assert RunsBound(runs + [run], AllArgs(subs));
      RunsTrueSnoc(runs, run, AllArgs(subs), row);
      AllSatisfiedSnoc(front, last, row);
    }
  }

  lemma AllSatisfiedSnoc(front: seq<Subclause>, last: Subclause, row: Row)
    ensures AllSatisfied(front + [last], row)
       <==> AllSatisfied(front, row) && SomeSatisfied(row, last.field, last.terms)
  {
    var all := front + [last];
    assert all[|front|] == last;
    assert forall i :: 0 <= i < |front| ==> all[i] == front[i];
  }

  lemma RunsTrueSnoc(runs: seq<seq<Atom>>, run: seq<Atom>, args: seq<Arg>, row: Row)
    requires RunsBound(runs, args) && RunBound(run, args)
    ensures RunsBound(runs + [run], args)
    ensures RunsTrue(runs + [run], args, row) <==> RunsTrue(runs, args, row) && RunTrue(run, args, row)
  {
    var all := runs + [run];
    assert all[|runs|] == run;
    assert forall i :: 0 <= i < |runs| ==> all[i] == runs[i];
  }

  /** The generated clause lets a row through exactly when each subclause has a satisfied term. */
  lemma CompiledMeans(subs: seq<Subclause>, row: Row)
    requires subs != [] && NonEmpty(subs) && AllExact(subs)
    ensures Selects(Some(Render(AllPieces(subs))), AllArgs(subs), row) <==> AllSatisfied(subs, row)
  {
    AllMeans(subs, row);
    RenderMeans(Runs(AllPieces(subs)), AllArgs(subs), row);
  }
}
