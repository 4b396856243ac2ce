/**
 The where builder as an object, and the method that compiles a query.
 */
module MakeWhereClause {
  import opened Collections
  import opened Options
  import opened Queries
  import opened Sql
  import opened WhereBuilder
  import opened CompileQuery
  import Glob

  class Builder {
    var pieces: seq<Piece>
    var args: seq<Arg>

    constructor ()
      ensures pieces == [] && args == []
    {
      pieces, args := [], [];
    }

    method Flatten() returns (result: seq<Token>)
      ensures result == Render(pieces)
    {
      result := [];
      var inOr, nAnds, nOrs := false, 0, 0;
      ghost var st := State(false, 0, 0);
      RestIsRemaining(st, pieces);
      assert pieces[0..] == pieces && pieces[|pieces|..] == [];
      for i := 0 to |pieces|
        invariant st == State(inOr, nAnds, nOrs) && InStep(st)
        invariant result + Rest(st, pieces[i..]) == Rest(State(false, 0, 0), pieces)
      {
        ghost var before, was, ps := result, st, pieces[i..];
        assert ps[1..] == pieces[i + 1..] && ps[0] == pieces[i] && (|ps| > 1 ==> ps[1] == pieces[i + 1]);
        if pieces[i].None? {
          if inOr {
            if nOrs > 1 {
              result := result + [RParen];
            }
            inOr := false;
            nOrs := 0;
          }
        } else {
          if !inOr {
            if nAnds > 0 {
              result := result + [And];
            }
            if i + 1 < |pieces| && pieces[i + 1].Some? {
              result := result + [LParen];
            }
            nAnds := nAnds + 1;
            inOr := true;
          } else {
            if nOrs > 0 {
              result := result + [Or];
            }
          }
          nOrs := nOrs + 1;
          result := result + [Condition(pieces[i].value)];
        }
        st := State(inOr, nAnds, nOrs);
        RestStep(before, was, ps);
        assert result == Appended(before, was, ps) && st == After(was, ps);
      }
      if nOrs > 1 {
        result := result + [RParen];
      }
    }

    /** Returns the number of the placeholder. */
    method AddArg(arg: Arg) returns (param: nat)
      modifies this`args
      ensures args == old(args) + [arg] && param == |args|
    {
      args := args + [arg];
      param := |args|;
    }

    method AddPiece(piece: Piece)
      modifies this`pieces
      ensures pieces == old(pieces) + [piece]
    {
      pieces := pieces + [piece];
    }

    method AddPlainTerm(column: Column, term: QueryTerm)
      requires !term.queryType.QueryExists?
      modifies this
      ensures pieces == old(pieces) + [Some(TermAtom(Plain(column), term, |old(args)|))]
      ensures args == old(args) + TermArgs(Plain(column), term)
    {
      if term.queryType.QueryIs? {
        var p := AddArg(Text(term.argument));
        AddPiece(Some(Equals(column, p)));
      } else {
        var pattern := Glob.LikePattern(term.argument);
        var p := AddArg(Text(pattern));
        AddPiece(Some(LikeParam(column, p)));
      }
    }

    method AddKeyedTerm(name: MapColumn, key: string, term: QueryTerm)
      modifies this
      ensures pieces == old(pieces) + [Some(TermAtom(Keyed(name, key), term, |old(args)|))]
      ensures args == old(args) + TermArgs(Keyed(name, key), term)
    {
      match term.queryType
      case QueryIs =>
        var p := AddArg(JsonObject(map[key := term.argument]));
        AddPiece(Some(ContainsPair(name, p)));
      case QueryMatches =>
        var k := AddArg(Text(key));
        var pattern := Glob.LikePattern(term.argument);
        var p := AddArg(Text(pattern));
        AddPiece(Some(KeyLike(name, k, p)));
      case QueryExists =>
        var p := AddArg(Text(key));
        AddPiece(Some(HasKey(name, p)));
    }

    /** The program panics on `exists` here. */
    method MakeWhereSubclause(column: Column, terms: seq<QueryTerm>)
      requires forall i :: 0 <= i < |terms| ==> !terms[i].queryType.QueryExists?
      modifies this
      ensures pieces == old(pieces) + Pieces(SubAtoms(Subclause(Plain(column), terms), |old(args)|))
      ensures args == old(args) + SubArgs(Subclause(Plain(column), terms))
    {
      ghost var s := Subclause(Plain(column), terms);
      ghost var all := Pieces(SubAtoms(s, |args|));
      assert terms[0..] == terms;
      for i := 0 to |terms|
        invariant pieces + Pieces(SubAtoms(s.(terms := terms[i..]), |args|)) == old(pieces) + all
        invariant args + SubArgs(s.(terms := terms[i..])) == old(args) + SubArgs(s)
      {
        ghost var was, had := pieces, args;
        Unroll(s.(terms := terms[i..]), |args|);
        assert terms[i..][1..] == terms[i + 1..];
        AddPlainTerm(column, terms[i]);
        Regroup(was, pieces[|was|..], Pieces(SubAtoms(s.(terms := terms[i + 1..]), |args|)));
        Regroup(had, args[|had|..], SubArgs(s.(terms := terms[i + 1..])));
      }
      AddPiece(None);
    }

    method MakeMapSubclause(name: MapColumn, key: string, terms: seq<QueryTerm>)
      modifies this
      ensures pieces == old(pieces) + Pieces(SubAtoms(Subclause(Keyed(name, key), terms), |old(args)|))
      ensures args == old(args) + SubArgs(Subclause(Keyed(name, key), terms))
    {
      ghost var s := Subclause(Keyed(name, key), terms);
      ghost var all := Pieces(SubAtoms(s, |args|));
      assert terms[0..] == terms;
      for i := 0 to |terms|
        invariant pieces + Pieces(SubAtoms(s.(terms := terms[i..]), |args|)) == old(pieces) + all
        invariant args + SubArgs(s.(terms := terms[i..])) == old(args) + SubArgs(s)
      {
        ghost var was, had := pieces, args;
        Unroll(s.(terms := terms[i..]), |args|);
        assert terms[i..][1..] == terms[i + 1..];
        AddKeyedTerm(name, key, terms[i]);
        Regroup(was, pieces[|was|..], Pieces(SubAtoms(s.(terms := terms[i + 1..]), |args|)));
        Regroup(had, args[|had|..], SubArgs(s.(terms := terms[i + 1..])));
      }
      AddPiece(None);
    }
  }

  // ----- The loop of `flatten`, step by step -----

  datatype State = State(inOr: bool, nAnds: nat, nOrs: nat)

  predicate InStep(st: State) {
    if st.inOr then st.nAnds > 0 && st.nOrs > 0 else st.nOrs == 0
  }

  function After(st: State, ps: seq<Piece>): State
    requires ps != []
  {
    if ps[0].None? then State(false, st.nAnds, 0)
    else State(true, if st.inOr then st.nAnds else st.nAnds + 1, st.nOrs + 1)
  }

  function Emitted(st: State, ps: seq<Piece>): seq<Token>
    requires ps != []
  {
    if ps[0].None? then (if st.nOrs > 1 then [RParen] else [])
    else if st.inOr then [Or, Condition(ps[0].value)]
    else (if st.nAnds > 0 then [And] else []) + (if |ps| > 1 && ps[1].Some? then [LParen] else [])
         + [Condition(ps[0].value)]
  }

  /** The text after the step, as the loop appends to it. */
  function Appended(text: seq<Token>, st: State, ps: seq<Piece>): seq<Token>
    requires ps != []
  {
    if ps[0].None? then (if st.nOrs > 1 then text + [RParen] else text)
    else if st.inOr then text + [Or] + [Condition(ps[0].value)]
    else
      var text' := if st.nAnds > 0 then text + [And] else text;
      (if |ps| > 1 && ps[1].Some? then text' + [LParen] else text') + [Condition(ps[0].value)]
  }

  lemma AppendsEmitted(text: seq<Token>, st: State, ps: seq<Piece>)
    requires ps != []
    ensures Appended(text, st, ps) == text + Emitted(st, ps)
  {
  }

  function Rest(st: State, ps: seq<Piece>): seq<Token>
    decreases |ps|
  {
    if ps == [] then (if st.nOrs > 1 then [RParen] else [])
    else Emitted(st, ps) + Rest(After(st, ps), ps[1..])
  }

  /** One round of the loop moves what it emits from the rest to the text. */
  lemma RestStep(text: seq<Token>, st: State, ps: seq<Piece>)
    requires ps != []
    ensures Appended(text, st, ps) + Rest(After(st, ps), ps[1..]) == text + Rest(st, ps)
  {
    AppendsEmitted(text, st, ps);
    Regroup(text, Emitted(st, ps), Rest(After(st, ps), ps[1..]));
  }

  lemma {:induction false} RestIsRemaining(st: State, ps: seq<Piece>)
    requires InStep(st)
    ensures Rest(st, ps) == Remaining(st.inOr, st.nAnds, st.nOrs, ps)
    decreases |ps|
  {
    if ps == [] {
    } else {
      RestIsRemaining(After(st, ps), ps[1..]);
      if ps[0].None? {
        RemainingClose(st.nAnds, st.nOrs, ps);
      } else if st.inOr {
        RemainingNext(st.nAnds, st.nOrs, ps);
      } else {
        RemainingOpen(st.nAnds, ps);
      }
    }
  }

  // ----- The compiler -----

  /** No match pattern of the query has a backslash. */
  ghost predicate BackslashFree(q: QueryData) {
    forall f, i :: 0 <= i < |TermsOf(q, f)| && TermsOf(q, f)[i].queryType.QueryMatches? ==>
      '\\' !in TermsOf(q, f)[i].argument
  }

  /** The subclauses are the non-empty fields of the query among `fields`. */
  ghost predicate Lists(subs: seq<Subclause>, q: QueryData, fields: iset<Field>) {
    && (forall i :: 0 <= i < |subs| ==> subs[i].terms == TermsOf(q, subs[i].field) && subs[i].terms != [])
    && (forall f :: f in fields && TermsOf(q, f) != [] ==> Subclause(f, TermsOf(q, f)) in subs)
  }

  lemma ListsOne(subs: seq<Subclause>, q: QueryData, fields: iset<Field>, f: Field)
    requires Lists(subs, q, fields)
    ensures TermsOf(q, f) == [] ==> Lists(subs, q, fields + iset{f})
    ensures TermsOf(q, f) != [] ==> Lists(subs + [Subclause(f, TermsOf(q, f))], q, fields + iset{f})
  {
    var more := subs + [Subclause(f, TermsOf(q, f))];
    assert more[|subs|] == Subclause(f, TermsOf(q, f));
    assert forall s :: s in subs ==> s in more;
  }

  /** All the fields of the query are listed, so satisfying the subclauses is answering the query. */
  lemma ListsAll(subs: seq<Subclause>, q: QueryData, fields: iset<Field>, row: Row)
    requires Lists(subs, q, fields) && forall f :: TermsOf(q, f) != [] ==> f in fields
    ensures AllSatisfied(subs, row) <==> Answers(row, q)
  {
    if AllSatisfied(subs, row) {
      forall f | TermsOf(q, f) != []
        ensures SomeSatisfied(row, f, TermsOf(q, f))
      {
        var i :| 0 <= i < |subs| && subs[i] == Subclause(f, TermsOf(q, f));
      }
    }
  }

  lemma ListsExact(subs: seq<Subclause>, q: QueryData, fields: iset<Field>)
    requires Lists(subs, q, fields) && WellBuilt(q) && BackslashFree(q)
    ensures AllExact(subs) && NonEmpty(subs)
  {
    forall i, j | 0 <= i < |subs| && 0 <= j < |subs[i].terms|
      ensures ExactTerm(subs[i].field, subs[i].terms[j])
    {
      var f := subs[i].field;
      assert subs[i].terms[j] == TermsOf(q, f)[j];
      if f.Plain? {
        assert TermsOf(q, f) == PlainTerms(q, f.column);
      }
    }
  }

  /** What the builder has generated for the listed fields. */
  ghost predicate Generated(b: Builder, subs: seq<Subclause>)
    reads b
  {
    b.pieces == AllPieces(subs) && b.args == AllArgs(subs)
  }

  lemma GeneratedSnoc(subs: seq<Subclause>, s: Subclause)
    ensures AllPieces(subs + [s]) == AllPieces(subs) + Pieces(SubAtoms(s, |AllArgs(subs)|))
    ensures AllArgs(subs + [s]) == AllArgs(subs) + SubArgs(s)
  {
    assert (subs + [s])[..|subs|] == subs;
  }

  method AddPlainField(b: Builder, column: Column, q: QueryData, ghost subs: seq<Subclause>, ghost fields: iset<Field>)
    returns (ghost subs': seq<Subclause>)
    requires WellBuilt(q) && Generated(b, subs) && Lists(subs, q, fields)
    modifies b
    ensures Generated(b, subs') && Lists(subs', q, fields + iset{Plain(column)})
  {
    var terms := PlainTerms(q, column);
    subs' := subs;
    ListsOne(subs, q, fields, Plain(column));
    if |terms| > 0 {
      ghost var s := Subclause(Plain(column), terms);
      GeneratedSnoc(subs, s);
      b.MakeWhereSubclause(column, terms);
      subs' := subs + [s];
    }
  }

  function KeyFields(name: MapColumn, keys: set<string>): iset<Field> {
    iset k | k in keys :: Keyed(name, k)
  }

  lemma OneMoreKey(fields: iset<Field>, name: MapColumn, keys: set<string>, key: string)
    ensures fields + KeyFields(name, keys) + iset{Keyed(name, key)} == fields + KeyFields(name, keys + {key})
  {
  }

  /** `range` over a map column: its keys in any order. */
  method AddMapFields(b: Builder, name: MapColumn, q: QueryData, ghost subs: seq<Subclause>, ghost fields: iset<Field>)
    returns (ghost subs': seq<Subclause>)
    requires WellBuilt(q) && Generated(b, subs) && Lists(subs, q, fields)
    modifies b
    ensures Generated(b, subs') && Lists(subs', q, fields + KeyFields(name, KeyedTerms(q, name).Keys))
  {
    var entries := KeyedTerms(q, name);
    var left := entries.Keys;
    subs' := subs;
    assert fields + KeyFields(name, {}) == fields;
    while left != {}
      invariant left <= entries.Keys
      invariant Generated(b, subs') && Lists(subs', q, fields + KeyFields(name, entries.Keys - left))
    {
      var key :| key in left;
      ghost var s := Subclause(Keyed(name, key), entries[key]);
      ghost var done := fields + KeyFields(name, entries.Keys - left);
      ListsOne(subs', q, done, Keyed(name, key));
      GeneratedSnoc(subs', s);
      b.MakeMapSubclause(name, key, entries[key]);
      OneMoreDone(entries.Keys, left, key);
      OneMoreKey(fields, name, entries.Keys - left, key);
      subs' := subs' + [s];
      left := left - {key};
    }
  }

  lemma CompileMeans(subs: seq<Subclause>, q: QueryData, fields: iset<Field>, clause: Option<seq<Token>>)
    requires WellBuilt(q) && Lists(subs, q, fields) && forall f :: TermsOf(q, f) != [] ==> f in fields
    requires clause == if AllPieces(subs) == [] then None else Some(Render(AllPieces(subs)))
    ensures BackslashFree(q) ==> forall row :: Selects(clause, AllArgs(subs), row) <==> Answers(row, q)
    ensures clause.None? <==> forall f :: TermsOf(q, f) == []
  {
    if subs != [] {
      PiecesEnd(SubAtoms(subs[|subs| - 1], |AllArgs(subs[..|subs| - 1])|));
      assert TermsOf(q, subs[0].field) != [];
    } else {
      forall f
        ensures TermsOf(q, f) == []
      {
        assert Subclause(f, TermsOf(q, f)) !in subs;
      }
    }
    if BackslashFree(q) {
      ListsExact(subs, q, fields);
      forall row
        ensures Selects(clause, AllArgs(subs), row) <==> Answers(row, q)
      {
        ListsAll(subs, q, fields, row);
        if subs != [] {
          CompiledMeans(subs, row);
        }
      }
    }
  }

  /** The placeholders of a clause, from left to right. */
  function TokenParams(ts: seq<Token>): seq<nat> {
    if ts == [] then []
    else (if ts[0].Condition? then ParamsOf(ts[0].atom) else []) + TokenParams(ts[1..])
  }

  lemma {:induction false} TokenParamsConcat(a: seq<Token>, b: seq<Token>)
    ensures TokenParams(a + b) == TokenParams(a) + TokenParams(b)
  {
    if a == [] {
      assert a + b == b;
    } else {
      TokenParamsConcat(a[1..], b);
      TailOfConcat(a, b);
      Regroup(if a[0].Condition? then ParamsOf(a[0].atom) else [], TokenParams(a[1..]), TokenParams(b));
    }
  }

  lemma EmittedParams(st: State, ps: seq<Piece>)
    requires ps != []
    ensures TokenParams(Emitted(st, ps)) == if ps[0].None? then [] else ParamsOf(ps[0].value)
  {
    var ts := Emitted(st, ps);
    if ps[0].None? {
      assert ts == [] || ts[1..] == [];
    } else {
      var last := [Condition(ps[0].value)];
      assert last[1..] == [];
      assert TokenParams(last) == ParamsOf(ps[0].value);
      var opening := ts[..|ts| - 1];
      assert ts == opening + last;
      TokenParamsConcat(opening, last);
      assert |opening| <= 2;
      assert |opening| > 0 ==> |opening[1..]| <= 1;
      assert TokenParams(opening) == [];
    }
  }

  lemma {:induction false} RestParams(st: State, ps: seq<Piece>)
    ensures TokenParams(Rest(st, ps)) == PieceParams(ps)
    decreases |ps|
  {
    if ps == [] {
      assert Rest(st, ps) == [] || Rest(st, ps)[1..] == [];
    } else {
      RestParams(After(st, ps), ps[1..]);
      EmittedParams(st, ps);
      TokenParamsConcat(Emitted(st, ps), Rest(After(st, ps), ps[1..]));
    }
  }

  /**
   The compiled clause selects exactly the rows that answer the query, whatever
   order the map columns are ranged over in; its placeholders are $1 to $n for
   its n arguments; and there is no clause only for a query without terms.
   */
  method Compile(query: Query) returns (clause: Option<seq<Token>>, args: seq<Arg>)
    requires WellBuilt(query.Data())
    ensures BackslashFree(query.Data()) ==>
              forall row :: Selects(clause, args, row) <==> Answers(row, query.Data())
    ensures clause.Some? ==> TokenParams(clause.value) == Numbers(0, |args|)
    ensures clause.None? <==> forall f :: TermsOf(query.Data(), f) == []
  {
    var q := query.Data();
    var b := new Builder();
    ghost var subs: seq<Subclause> := [];
    ghost var fields: iset<Field> := iset{};
    subs := AddPlainField(b, Repository, q, subs, fields);
    fields := fields + iset{Plain(Repository)};
    subs := AddPlainField(b, Tag, q, subs, fields);
    fields := fields + iset{Plain(Tag)};
    subs := AddPlainField(b, OS, q, subs, fields);
    fields := fields + iset{Plain(OS)};
    subs := AddPlainField(b, Architecture, q, subs, fields);
    fields := fields + iset{Plain(Architecture)};
    subs := AddMapFields(b, Annotations, q, subs, fields);
    fields := fields + KeyFields(Annotations, q.annotations.Keys);
    subs := AddMapFields(b, Labels, q, subs, fields);
    fields := fields + KeyFields(Labels, q.labels.Keys);
    args := b.args;
    clause := None;
    if |b.pieces| > 0 {
      var tokens := b.Flatten();
      clause := Some(tokens);
      ParamsLineUp(subs);
      RestIsRemaining(State(false, 0, 0), b.pieces);
      RestParams(State(false, 0, 0), b.pieces);
    }
    AllFieldsListed(q, fields);
    CompileMeans(subs, q, fields, clause);
  }

  lemma AllFieldsListed(q: QueryData, fields: iset<Field>)
    requires fields == iset{} + iset{Plain(Repository)} + iset{Plain(Tag)} + iset{Plain(OS)} + iset{Plain(Architecture)}
                       + KeyFields(Annotations, q.annotations.Keys) + KeyFields(Labels, q.labels.Keys)
    ensures forall f :: TermsOf(q, f) != [] ==> f in fields
  {
    forall f | TermsOf(q, f) != []
      ensures f in fields
    {
      FieldListed(q, f, fields);
    }
  }

  lemma FieldListed(q: QueryData, f: Field, fields: iset<Field>)
    requires TermsOf(q, f) != []
    requires fields == iset{} + iset{Plain(Repository)} + iset{Plain(Tag)} + iset{Plain(OS)} + iset{Plain(Architecture)}
                       + KeyFields(Annotations, q.annotations.Keys) + KeyFields(Labels, q.labels.Keys)
    ensures f in fields
  {
    if f.Plain? {
      match f.column
      case Repository =>
      case Tag =>
      case OS =>
      case Architecture =>
    } else {
      match f.name
      case Annotations =>
      case Labels =>
    }
  }

  /** Any query the builder methods can make, compiled, asks what its calls say. */
  method CompileCalls(query: Query, ghost calls: seq<Call>) returns (clause: Option<seq<Token>>, args: seq<Arg>)
    requires query.Data() == Build(calls)
    requires forall call :: call in calls ==> Callable(call)
    ensures CallsBackslashFree(calls) ==> forall row :: Selects(clause, args, row) <==> AnswersCalls(row, calls)
    ensures clause.Some? ==> TokenParams(clause.value) == Numbers(0, |args|)
    ensures clause.None? <==> calls == []
  {
    BuildWellBuilt(calls);
    clause, args := Compile(query);
    BuiltBackslashFree(calls);
    BuiltEmpty(calls);
    forall row {
      BuildMeans(calls, row);
    }
  }

  ghost predicate CallsBackslashFree(calls: seq<Call>) {
    forall call :: call in calls && call.term.queryType.QueryMatches? ==> '\\' !in call.term.argument
  }

  lemma BuiltBackslashFree(calls: seq<Call>)
    ensures CallsBackslashFree(calls) ==> BackslashFree(Build(calls))
  {
    var q := Build(calls);
    if CallsBackslashFree(calls) {
      forall f, i | 0 <= i < |TermsOf(q, f)| && TermsOf(q, f)[i].queryType.QueryMatches?
        ensures '\\' !in TermsOf(q, f)[i].argument
      {
        BuildKeepsCalls(calls, f, TermsOf(q, f)[i]);
        assert Call(f, TermsOf(q, f)[i]) in calls;
      }
    }
  }

  lemma BuiltEmpty(calls: seq<Call>)
    ensures (forall f :: TermsOf(Build(calls), f) == []) <==> calls == []
  {
    if calls == [] {
      forall f
        ensures TermsOf(Build(calls), f) == []
      {
        if TermsOf(Build(calls), f) != [] {
          BuildKeepsCalls(calls, f, TermsOf(Build(calls), f)[0]);
        }
      }
    } else {
      BuildKeepsCalls(calls, calls[0].field, calls[0].term);
      assert calls[0] == Call(calls[0].field, calls[0].term);
    }
  }
}
