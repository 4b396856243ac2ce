/**
 From a query to a WHERE clause: pieces and numbered arguments, flattened
 into one clause that means what the query asks.
 */
module WhereBuilder {
  import opened Collections
  import opened Options
  import opened Queries
  import opened Sql

  /** A piece is a condition, or the empty string that ends a group. */
  type Piece = Option<Atom>

  // ----- flatten -----

  /** The conditions before the first empty piece, and what comes from there on. */
  function FirstRun(ps: seq<Piece>): seq<Atom> {
    if ps == [] || ps[0].None? then [] else [ps[0].value] + FirstRun(ps[1..])
  }

  function AfterRun(ps: seq<Piece>): (r: seq<Piece>)
    ensures |r| <= |ps|
    ensures ps != [] && ps[0].Some? ==> |r| < |ps|
  {
    if ps == [] || ps[0].None? then ps else AfterRun(ps[1..])
  }

  /** The maximal runs of non-empty pieces. */
  function Runs(ps: seq<Piece>): (r: seq<seq<Atom>>)
    ensures NonEmptyRuns(r)
    decreases |ps|
  {
    if ps == [] then []
    else if ps[0].None? then Runs(ps[1..])
    else [FirstRun(ps)] + Runs(AfterRun(ps))
  }

  /** `OR` before each condition */
  function OrTail(run: seq<Atom>): seq<Token> {
    if run == [] then [] else [Or, Condition(run[0])] + OrTail(run[1..])
  }

  function RenderRun(run: seq<Atom>): seq<Token>
    requires run != []
  {
    if |run| == 1 then [Condition(run[0])]
    else [LParen, Condition(run[0])] + OrTail(run[1..]) + [RParen]
  }

  ghost predicate NonEmptyRuns(runs: seq<seq<Atom>>) {
    forall i :: 0 <= i < |runs| ==> runs[i] != []
  }

  /** The runs joined by `AND`, with one in front when something came before. */
  function AndTail(more: bool, runs: seq<seq<Atom>>): seq<Token>
    requires NonEmptyRuns(runs)
    decreases |runs|
  {
    if runs == [] then []
    else (if more then [And] else []) + RenderRun(runs[0]) + AndTail(true, runs[1..])
  }

  function Render(ps: seq<Piece>): seq<Token> {
    AndTail(false, Runs(ps))
  }

  /** What the loop of `flatten` still has to emit for the pieces it has not seen. */
  function Remaining(inOr: bool, nAnds: nat, nOrs: nat, ps: seq<Piece>): seq<Token> {
    if inOr then
      OrTail(FirstRun(ps)) + (if nOrs + |FirstRun(ps)| > 1 then [RParen] else [])
      + AndTail(nAnds > 0, Runs(AfterRun(ps)))
    else
      AndTail(nAnds > 0, Runs(ps))
  }

  lemma RemainingClose(nAnds: nat, nOrs: nat, ps: seq<Piece>)
    requires ps != [] && ps[0].None?
    ensures Remaining(true, nAnds, nOrs, ps)
         == (if nOrs > 1 then [RParen] else []) + Remaining(false, nAnds, 0, ps[1..])
    ensures Remaining(false, nAnds, nOrs, ps) == Remaining(false, nAnds, 0, ps[1..])
  {
  }

  lemma RemainingNext(nAnds: nat, nOrs: nat, ps: seq<Piece>)
    requires ps != [] && ps[0].Some?
    ensures Remaining(true, nAnds, nOrs, ps)
         == [Or, Condition(ps[0].value)] + Remaining(true, nAnds, nOrs + 1, ps[1..])
  {
    var run, close := FirstRun(ps[1..]), if nOrs + |FirstRun(ps)| > 1 then [RParen] else [];
    TailOfCons(ps[0].value, run);
    assert OrTail(FirstRun(ps)) == [Or, Condition(ps[0].value)] + OrTail(run);
    Regroup([Or, Condition(ps[0].value)], OrTail(run), close);
    Regroup([Or, Condition(ps[0].value)], OrTail(run) + close, AndTail(nAnds > 0, Runs(AfterRun(ps))));
  }

  /** A run opens a parenthesis exactly when its second condition comes next, and closes it. */
  lemma RenderFirst(ps: seq<Piece>)
    requires ps != [] && ps[0].Some?
    ensures var run := FirstRun(ps[1..]);
            RenderRun(FirstRun(ps)) == (if |ps| > 1 && ps[1].Some? then [LParen] else [])
                                       + [Condition(ps[0].value)]
                                       + (OrTail(run) + (if 1 + |run| > 1 then [RParen] else []))
  {
    var run := FirstRun(ps[1..]);
    TailOfCons(ps[0].value, run);
    assert run != [] <==> |ps| > 1 && ps[1].Some?;
    if run != [] {
      assert [LParen, Condition(ps[0].value)] == [LParen] + [Condition(ps[0].value)];
      Regroup([LParen, Condition(ps[0].value)], OrTail(run), [RParen]);
    }
  }

  /** The look-ahead for a parenthesis agrees with the count that closes it. */
  lemma RemainingOpen(nAnds: nat, ps: seq<Piece>)
    requires ps != [] && ps[0].Some?
    ensures Remaining(false, nAnds, 0, ps)
         == (if nAnds > 0 then [And] else []) + (if |ps| > 1 && ps[1].Some? then [LParen] else [])
            + [Condition(ps[0].value)] + Remaining(true, nAnds + 1, 1, ps[1..])
  {
    var run, tail := FirstRun(ps[1..]), AndTail(true, Runs(AfterRun(ps)));
    var more, open := if nAnds > 0 then [And] else [], if |ps| > 1 && ps[1].Some? then [LParen] else [];
    var cond, rest := [Condition(ps[0].value)], OrTail(run) + if 1 + |run| > 1 then [RParen] else [];
    TailOfCons(FirstRun(ps), Runs(AfterRun(ps)));
    assert AndTail(nAnds > 0, Runs(ps)) == more + RenderRun(FirstRun(ps)) + tail;
    RenderFirst(ps);
    Regroup5(more, open, cond, rest, tail);
  }

  lemma Regroup5<T>(a: seq<T>, b: seq<T>, c: seq<T>, d: seq<T>, e: seq<T>)
    ensures a + (b + c + d) + e == a + b + c + (d + e)
  {
    Regroup(a, b + c, d);
    Regroup(a, b, c);
    Regroup(a + b + c, d, e);
  }

  // ----- The rendered clause parses back to the intended expression -----

  function DisjAll(e: Expr, run: seq<Atom>): Expr
    decreases |run|
  {
    if run == [] then e else DisjAll(Disj(e, Leaf(run[0])), run[1..])
  }

  function RunExpr(run: seq<Atom>): Expr
    requires run != []
  {
    DisjAll(Leaf(run[0]), run[1..])
  }

  function ConjAll(e: Expr, runs: seq<seq<Atom>>): Expr
    requires NonEmptyRuns(runs)
    decreases |runs|
  {
    if runs == [] then e else ConjAll(Conj(e, RunExpr(runs[0])), runs[1..])
  }

  lemma FactorOfCondition(a: Atom, rest: seq<Token>)
    ensures ParseFactor([Condition(a)] + rest) == Some((Leaf(a), rest))
    ensures (rest == [] || rest[0] != And) ==> ParseAnd([Condition(a)] + rest) == Some((Leaf(a), rest))
  {
    assert ([Condition(a)] + rest)[1..] == rest;
  }

  lemma {:induction false} ParseOrChain(e: Expr, run: seq<Atom>, rest: seq<Token>)
    requires rest != [] && rest[0] == RParen
    ensures ParseOrTail(e, OrTail(run) + rest) == Some((DisjAll(e, run), rest))
    decreases |run|
  {
    if run == [] {
      assert OrTail(run) + rest == rest;
    } else {
      var ts := OrTail(run) + rest;
      var next := OrTail(run[1..]) + rest;
      assert ts[0] == Or;
      assert ts[1..] == [Condition(run[0])] + next;
      FactorOfCondition(run[0], next);
      ParseOrChain(Disj(e, Leaf(run[0])), run[1..], rest);
    }
  }

  lemma ParseRun(run: seq<Atom>, rest: seq<Token>)
    requires run != []
    ensures ParseFactor(RenderRun(run) + rest) == Some((RunExpr(run), rest))
  {
    if |run| == 1 {
      FactorOfCondition(run[0], rest);
      assert run[1..] == [];
    } else {
      var ts := RenderRun(run) + rest;
      var close := [RParen] + rest;
      var next := OrTail(run[1..]) + close;
      assert ts[0] == LParen;
      assert ts[1..] == [Condition(run[0])] + next;
      FactorOfCondition(run[0], next);
      ParseOrChain(Leaf(run[0]), run[1..], close);
      assert ParseOr(ts[1..]) == Some((RunExpr(run), close));
      assert close[1..] == rest;
    }
  }

  lemma {:induction false} ParseAndChain(e: Expr, runs: seq<seq<Atom>>)
    requires NonEmptyRuns(runs)
    ensures ParseAndTail(e, AndTail(true, runs)) == Some((ConjAll(e, runs), []))
    decreases |runs|
  {
    if runs == [] {
    } else {
      var ts := AndTail(true, runs);
      Regroup([And], RenderRun(runs[0]), AndTail(true, runs[1..]));
      TailOfCons(And, RenderRun(runs[0]) + AndTail(true, runs[1..]));
      ParseRun(runs[0], AndTail(true, runs[1..]));
      ParseAndChain(Conj(e, RunExpr(runs[0])), runs[1..]);
    }
  }

  /** The clause is the conjunction over the runs of the disjunction of each run. */
  lemma RenderParses(runs: seq<seq<Atom>>)
    requires runs != [] && NonEmptyRuns(runs)
    ensures Parse(AndTail(false, runs)) == Some(ConjAll(RunExpr(runs[0]), runs[1..]))
  {
    var first, rest := RunExpr(runs[0]), AndTail(true, runs[1..]);
    ParseRun(runs[0], rest);
    ParseAndChain(first, runs[1..]);
    ParseWhole(RenderRun(runs[0]) + rest, first, rest, ConjAll(first, runs[1..]));
    AndTailHead(runs);
  }

  lemma AndTailHead(runs: seq<seq<Atom>>)
    requires runs != [] && NonEmptyRuns(runs)
    ensures AndTail(false, runs) == RenderRun(runs[0]) + AndTail(true, runs[1..])
  {
    assert [] + RenderRun(runs[0]) == RenderRun(runs[0]);
  }

  lemma ParseWhole(ts: seq<Token>, first: Expr, rest: seq<Token>, whole: Expr)
    requires ParseFactor(ts) == Some((first, rest)) && ParseAndTail(first, rest) == Some((whole, []))
    ensures Parse(ts) == Some(whole)
  {
    assert ParseAnd(ts) == Some((whole, []));
    assert ParseOr(ts) == ParseOrTail(whole, []);
  }

  // ----- and evaluates as intended -----

  ghost predicate RunBound(run: seq<Atom>, args: seq<Arg>) {
    forall i :: 0 <= i < |run| ==> Bound(run[i], args)
  }

  ghost predicate RunTrue(run: seq<Atom>, args: seq<Arg>, row: Row)
    requires RunBound(run, args)
  {
    exists i :: 0 <= i < |run| && EvalAtom(run[i], args, row) == True
  }

  lemma {:induction false} EvalDisjAll(e: Expr, run: seq<Atom>, args: seq<Arg>, row: Row)
    requires AllBound(e, args) && RunBound(run, args)
    ensures AllBound(DisjAll(e, run), args)
    ensures Eval(DisjAll(e, run), args, row) == True <==> Eval(e, args, row) == True || RunTrue(run, args, row)
    decreases |run|
  {
    if run == [] {
    } else {
      var tail := run[1..];
      assert RunBound(tail, args);
      EvalDisjAll(Disj(e, Leaf(run[0])), tail, args, row);
      assert RunTrue(run, args, row) <==> EvalAtom(run[0], args, row) == True || RunTrue(tail, args, row) by {
        if RunTrue(run, args, row) {
          var i :| 0 <= i < |run| && EvalAtom(run[i], args, row) == True;
          if i > 0 {
            assert EvalAtom(tail[i - 1], args, row) == True;
          }
        }
        if RunTrue(tail, args, row) {
          var i :| 0 <= i < |tail| && EvalAtom(tail[i], args, row) == True;
          assert EvalAtom(run[i + 1], args, row) == True;
        }
      }
    }
  }

  lemma EvalRun(run: seq<Atom>, args: seq<Arg>, row: Row)
    requires run != [] && RunBound(run, args)
    ensures AllBound(RunExpr(run), args)
    ensures Eval(RunExpr(run), args, row) == True <==> RunTrue(run, args, row)
  {
    var tail := run[1..];
    assert RunBound(tail, args);
    EvalDisjAll(Leaf(run[0]), tail, args, row);
    if RunTrue(run, args, row) {
      var i :| 0 <= i < |run| && EvalAtom(run[i], args, row) == True;
      if i > 0 {
        assert EvalAtom(tail[i - 1], args, row) == True;
      }
    }
    if RunTrue(tail, args, row) {
      var i :| 0 <= i < |tail| && EvalAtom(tail[i], args, row) == True;
      assert EvalAtom(run[i + 1], args, row) == True;
    }
  }

  ghost predicate RunsBound(runs: seq<seq<Atom>>, args: seq<Arg>) {
    forall i :: 0 <= i < |runs| ==> RunBound(runs[i], args)
  }

  ghost predicate RunsTrue(runs: seq<seq<Atom>>, args: seq<Arg>, row: Row)
    requires RunsBound(runs, args)
  {
    forall i :: 0 <= i < |runs| ==> RunTrue(runs[i], args, row)
  }

  lemma {:induction false} EvalConjAll(e: Expr, runs: seq<seq<Atom>>, args: seq<Arg>, row: Row)
    requires AllBound(e, args) && NonEmptyRuns(runs) && RunsBound(runs, args)
    ensures AllBound(ConjAll(e, runs), args)
    ensures Eval(ConjAll(e, runs), args, row) == True <==> Eval(e, args, row) == True && RunsTrue(runs, args, row)
    decreases |runs|
  {
    if runs == [] {
    } else {
      EvalRun(runs[0], args, row);
      EvalConjAll(Conj(e, RunExpr(runs[0])), runs[1..], args, row);
    }
  }

  /** Parsed with SQL's precedence, the clause is true when every run has a true condition. */
  lemma RenderMeans(runs: seq<seq<Atom>>, args: seq<Arg>, row: Row)
    requires runs != [] && NonEmptyRuns(runs) && RunsBound(runs, args)
    ensures Selects(Some(AndTail(false, runs)), args, row) <==> RunsTrue(runs, args, row)
  {
    RenderParses(runs);
    EvalRun(runs[0], args, row);
    EvalConjAll(RunExpr(runs[0]), runs[1..], args, row);
  }
}
