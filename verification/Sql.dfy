/**
 The SQL boolean clause: tokens, a parser with SQL's precedence (AND binds
 tighter than OR, section 4.1.6 of the PostgreSQL manual), and evaluation in
 three-valued logic.
 */
module Sql {
  import opened Options
  import opened Queries
  import Glob

  /** An elementary condition; parameters are numbered from 1. */
  datatype Atom =
    | Equals(column: Column, param: nat)
    | LikeParam(column: Column, param: nat)
    | ContainsPair(name: MapColumn, param: nat)
    | KeyLike(name: MapColumn, keyParam: nat, patternParam: nat)
    | HasKey(name: MapColumn, param: nat)

  datatype Token = LParen | RParen | And | Or | Condition(atom: Atom)

  datatype Expr = Leaf(atom: Atom) | Conj(left: Expr, right: Expr) | Disj(left: Expr, right: Expr)

  // ----- Parsing -----

  type Parsed = Option<(Expr, seq<Token>)>

  function ParseOr(ts: seq<Token>): (r: Parsed)
    ensures r.Some? ==> |r.value.1| < |ts|
    decreases |ts|, 3
  {
    match ParseAnd(ts)
    case None => None
    case Some((e, rest)) => ParseOrTail(e, rest)
  }

  function ParseOrTail(e: Expr, ts: seq<Token>): (r: Parsed)
    ensures r.Some? ==> |r.value.1| <= |ts|
    decreases |ts|, 2
  {
    if ts == [] || ts[0] != Or then Some((e, ts))
    else
      match ParseAnd(ts[1..])
      case None => None
      case Some((f, rest)) => ParseOrTail(Disj(e, f), rest)
  }

  function ParseAnd(ts: seq<Token>): (r: Parsed)
    ensures r.Some? ==> |r.value.1| < |ts|
    decreases |ts|, 1
  {
    match ParseFactor(ts)
    case None => None
    case Some((e, rest)) => ParseAndTail(e, rest)
  }

  function ParseAndTail(e: Expr, ts: seq<Token>): (r: Parsed)
    ensures r.Some? ==> |r.value.1| <= |ts|
    decreases |ts|, 0
  {
    if ts == [] || ts[0] != And then Some((e, ts))
    else
      match ParseFactor(ts[1..])
      case None => None
      case Some((f, rest)) => ParseAndTail(Conj(e, f), rest)
  }

  function ParseFactor(ts: seq<Token>): (r: Parsed)
    ensures r.Some? ==> |r.value.1| < |ts|
    decreases |ts|, 0
  {
    if ts == [] then None
    else
      match ts[0]
      case Condition(a) => Some((Leaf(a), ts[1..]))
      case LParen =>
        (match ParseOr(ts[1..])
         case None => None
         case Some((e, rest)) => if rest != [] && rest[0] == RParen then Some((e, rest[1..])) else None)
      case _ => None
  }

  /** The whole token sequence as one expression. */
  function Parse(ts: seq<Token>): Option<Expr> {
    match ParseOr(ts)
    case None => None
    case Some((e, rest)) => if rest == [] then Some(e) else None
  }

  // AND binds tighter than OR, on either side of it, and parentheses override that.

  lemma AndAfterOr(a: Atom, b: Atom, c: Atom)
    ensures Parse([Condition(a), Or, Condition(b), And, Condition(c)]) == Some(Disj(Leaf(a), Conj(Leaf(b), Leaf(c))))
  {
    var ts := [Condition(a), Or, Condition(b), And, Condition(c)];
    assert ts[1..][1..] == [Condition(b), And, Condition(c)];
    ConjParsed(b, c, []);
    assert [Condition(b), And, Condition(c)] == [Condition(b), And, Condition(c)] + [];
    assert ParseAnd(ts) == Some((Leaf(a), ts[1..]));
    assert ts[1..][0] == Or;
    assert ParseOrTail(Leaf(a), ts[1..]) == ParseOrTail(Disj(Leaf(a), Conj(Leaf(b), Leaf(c))), []);
  }

  lemma AndBeforeOr(a: Atom, b: Atom, c: Atom)
    ensures Parse([Condition(a), And, Condition(b), Or, Condition(c)]) == Some(Disj(Conj(Leaf(a), Leaf(b)), Leaf(c)))
  {
    var ts := [Condition(a), And, Condition(b), Or, Condition(c)];
    var rest := [Or, Condition(c)];
    assert ts == [Condition(a), And, Condition(b)] + rest;
    ConjParsed(a, b, rest);
    assert rest[1..] == [Condition(c)] && [Condition(c)][1..] == [];
    assert ParseAnd([Condition(c)]) == Some((Leaf(c), []));
    assert ParseOrTail(Conj(Leaf(a), Leaf(b)), rest) == ParseOrTail(Disj(Conj(Leaf(a), Leaf(b)), Leaf(c)), []);
  }

  lemma OrInParentheses(a: Atom, b: Atom, c: Atom)
    ensures Parse([LParen, Condition(a), Or, Condition(b), RParen, And, Condition(c)])
         == Some(Conj(Disj(Leaf(a), Leaf(b)), Leaf(c)))
  {
    var ts := [LParen, Condition(a), Or, Condition(b), RParen, And, Condition(c)];
    var inner, tail := ts[1..], [RParen, And, Condition(c)];
    assert inner[1..][1..] == [Condition(b)] + tail && ([Condition(b)] + tail)[1..] == tail;
    assert ParseAnd([Condition(b)] + tail) == Some((Leaf(b), tail));
    assert ParseAnd(inner) == Some((Leaf(a), inner[1..])) && inner[1..][0] == Or;
    assert ParseOrTail(Leaf(a), inner[1..]) == ParseOrTail(Disj(Leaf(a), Leaf(b)), tail);
    assert ParseOr(inner) == Some((Disj(Leaf(a), Leaf(b)), tail));
    assert tail[1..] == [And, Condition(c)];
    assert ParseFactor(ts) == Some((Disj(Leaf(a), Leaf(b)), [And, Condition(c)]));
    assert [And, Condition(c)][1..] == [Condition(c)] && [Condition(c)][1..] == [];
    assert ParseFactor([Condition(c)]) == Some((Leaf(c), []));
    assert ParseAndTail(Disj(Leaf(a), Leaf(b)), [And, Condition(c)])
        == ParseAndTail(Conj(Disj(Leaf(a), Leaf(b)), Leaf(c)), []);
    assert ParseAnd(ts) == Some((Conj(Disj(Leaf(a), Leaf(b)), Leaf(c)), []));
    assert ParseOr(ts) == ParseOrTail(Conj(Disj(Leaf(a), Leaf(b)), Leaf(c)), []);
  }

  lemma ConjParsed(a: Atom, b: Atom, rest: seq<Token>)
    requires rest == [] || rest[0] != And
    ensures ParseAnd([Condition(a), And, Condition(b)] + rest) == Some((Conj(Leaf(a), Leaf(b)), rest))
  {
    var ts := [Condition(a), And, Condition(b)] + rest;
    assert ts[1..][1..] == [Condition(b)] + rest && ([Condition(b)] + rest)[1..] == rest;
    assert ParseFactor(ts) == Some((Leaf(a), ts[1..])) && ts[1..][0] == And;
    assert ParseFactor([Condition(b)] + rest) == Some((Leaf(b), rest));
    assert ParseAndTail(Leaf(a), ts[1..]) == ParseAndTail(Conj(Leaf(a), Leaf(b)), rest);
  }

  // ----- Evaluation -----

  /** A query argument: text, or the JSON text of an object with string members. */
  datatype Arg = Text(text: string) | JsonObject(members: map<string, string>)

  datatype Truth = True | False | Unknown

  function ToTruth(b: bool): Truth {
    if b then True else False
  }

  predicate IsText(args: seq<Arg>, param: nat) {
    1 <= param <= |args| && args[param - 1].Text?
  }

  /** Every parameter is supplied, with a value of the right kind. */
  predicate Bound(atom: Atom, args: seq<Arg>) {
    match atom
    case Equals(_, p) => IsText(args, p)
    case LikeParam(_, p) => IsText(args, p)
    case ContainsPair(_, p) => 1 <= p <= |args| && args[p - 1].JsonObject?
    case KeyLike(_, k, p) => IsText(args, k) && IsText(args, p)
    case HasKey(_, p) => IsText(args, p)
  }

  function EvalAtom(atom: Atom, args: seq<Arg>, row: Row): Truth
    requires Bound(atom, args)
  {
    match atom
    case Equals(c, p) =>
      (match ColumnOf(row, c)
       case None => Unknown
       case Some(v) => ToTruth(v == args[p - 1].text))
    case LikeParam(c, p) =>
      (match ColumnOf(row, c)
       case None => Unknown
       case Some(v) => ToTruth(Glob.Like(args[p - 1].text, v)))
    case ContainsPair(m, p) =>
      (match MapOf(row, m)
       case None => Unknown
       case Some(entries) => ToTruth(args[p - 1].members.Items <= entries.Items))
    case KeyLike(m, k, p) =>
      (match MapOf(row, m)
       case None => Unknown
       case Some(entries) =>
         var key := args[k - 1].text;
         if key in entries then ToTruth(Glob.Like(args[p - 1].text, entries[key])) else Unknown)
    case HasKey(m, p) =>
      (match MapOf(row, m)
       case None => Unknown
       case Some(entries) => ToTruth(args[p - 1].text in entries))
  }

  function And3(a: Truth, b: Truth): Truth {
    if a == False || b == False then False
    else if a == True && b == True then True
    else Unknown
  }

  function Or3(a: Truth, b: Truth): Truth {
    if a == True || b == True then True
    else if a == False && b == False then False
    else Unknown
  }

  predicate AllBound(e: Expr, args: seq<Arg>) {
    match e
    case Leaf(a) => Bound(a, args)
    case Conj(l, r) => AllBound(l, args) && AllBound(r, args)
    case Disj(l, r) => AllBound(l, args) && AllBound(r, args)
  }

  function Eval(e: Expr, args: seq<Arg>, row: Row): Truth
    requires AllBound(e, args)
  {
    match e
    case Leaf(a) => EvalAtom(a, args, row)
    case Conj(l, r) => And3(Eval(l, args, row), Eval(r, args, row))
    case Disj(l, r) => Or3(Eval(l, args, row), Eval(r, args, row))
  }

  /** A WHERE clause lets a row through when it evaluates to true; no clause lets every row through. */
  predicate Selects(clause: Option<seq<Token>>, args: seq<Arg>, row: Row) {
    clause.None? ||
    (var e := Parse(clause.value);
     e.Some? && AllBound(e.value, args) && Eval(e.value, args, row) == True)
  }
}
