/**
 Queries, the calls that build them, and what a query asks of a row.
 */
module Queries {
  import opened Options
  import Glob

  datatype QueryType = QueryIs | QueryExists | QueryMatches

  datatype QueryTerm = QueryTerm(queryType: QueryType, argument: string)

  datatype Column = Repository | Tag | OS | Architecture

  datatype MapColumn = Annotations | Labels

  /** What a term is about: a plain column, or one key of a map column. */
  datatype Field = Plain(column: Column) | Keyed(name: MapColumn, key: string)

  /** A row that a query is asked about; any column may be NULL. */
  datatype Row = Row(repository: Option<string>, tag: Option<string>, os: Option<string>, architecture: Option<string>,
                     annotations: Option<map<string, string>>, labels: Option<map<string, string>>)

  function ColumnOf(row: Row, c: Column): Option<string> {
    match c
    case Repository => row.repository
    case Tag => row.tag
    case OS => row.os
    case Architecture => row.architecture
  }

  function MapOf(row: Row, m: MapColumn): Option<map<string, string>> {
    match m
    case Annotations => row.annotations
    case Labels => row.labels
  }

  /** The value a row has for a field: none for NULL and for a missing key. */
  function ValueOf(row: Row, field: Field): Option<string> {
    match field
    case Plain(c) => ColumnOf(row, c)
    case Keyed(m, k) =>
      var entries := MapOf(row, m);
      if entries.Some? && k in entries.value then Some(entries.value[k]) else None
  }

  predicate Satisfies(row: Row, field: Field, term: QueryTerm) {
    var v := ValueOf(row, field);
    v.Some? &&
    match term.queryType
    case QueryIs => v.value == term.argument
    case QueryExists => true
    case QueryMatches => Glob.Matches(term.argument, v.value)
  }

  /** The contents of a `Query` object. */
  datatype QueryData = QueryData(
    repository: seq<QueryTerm>, tag: seq<QueryTerm>, os: seq<QueryTerm>, architecture: seq<QueryTerm>,
    annotations: map<string, seq<QueryTerm>>, labels: map<string, seq<QueryTerm>>)

  const EMPTY_QUERY := QueryData([], [], [], [], map[], map[])

  function Lookup(m: map<string, seq<QueryTerm>>, k: string): seq<QueryTerm> {
    if k in m then m[k] else []
  }

  function PlainTerms(q: QueryData, c: Column): seq<QueryTerm> {
    match c
    case Repository => q.repository
    case Tag => q.tag
    case OS => q.os
    case Architecture => q.architecture
  }

  function KeyedTerms(q: QueryData, m: MapColumn): map<string, seq<QueryTerm>> {
    match m
    case Annotations => q.annotations
    case Labels => q.labels
  }

  function TermsOf(q: QueryData, field: Field): seq<QueryTerm> {
    match field
    case Plain(c) => PlainTerms(q, c)
    case Keyed(m, k) => Lookup(KeyedTerms(q, m), k)
  }

  /** One builder call: the field it is about and the term it adds. */
  datatype Call = Call(field: Field, term: QueryTerm)

  /** The combinations for which there is a builder method. */
  predicate Callable(call: Call) {
    match call.field
    case Plain(Tag) => !call.term.queryType.QueryExists?
    case Plain(_) => call.term.queryType.QueryIs?
    case Keyed(_, _) => true
  }

  function Append(q: QueryData, field: Field, term: QueryTerm): QueryData {
    match field
    case Plain(Repository) => q.(repository := q.repository + [term])
    case Plain(Tag) => q.(tag := q.tag + [term])
    case Plain(OS) => q.(os := q.os + [term])
    case Plain(Architecture) => q.(architecture := q.architecture + [term])
    case Keyed(Annotations, k) => q.(annotations := q.annotations[k := Lookup(q.annotations, k) + [term]])
    case Keyed(Labels, k) => q.(labels := q.labels[k := Lookup(q.labels, k) + [term]])
  }

  function Build(calls: seq<Call>): QueryData {
    if calls == [] then EMPTY_QUERY
    else
      var last := calls[|calls| - 1];
      Append(Build(calls[..|calls| - 1]), last.field, last.term)
  }

  /** A row answers a query when each field asked about has a satisfied term. */
  ghost predicate Answers(row: Row, q: QueryData) {
    forall f :: TermsOf(q, f) != [] ==> SomeSatisfied(row, f, TermsOf(q, f))
  }

  ghost predicate SomeSatisfied(row: Row, field: Field, terms: seq<QueryTerm>) {
    exists i :: 0 <= i < |terms| && Satisfies(row, field, terms[i])
  }

  /** The same said of the builder calls: for each call, some call about its field is satisfied. */
  ghost predicate AnswersCalls(row: Row, calls: seq<Call>) {
    forall call :: call in calls ==> FieldAnswered(row, calls, call.field)
  }

  ghost predicate FieldAnswered(row: Row, calls: seq<Call>, f: Field) {
    exists call :: call in calls && call.field == f && Satisfies(row, f, call.term)
  }

  /** What the builder methods guarantee about the contents of a query. */
  ghost predicate WellBuilt(q: QueryData) {
    && (forall c, i :: 0 <= i < |PlainTerms(q, c)| ==> !PlainTerms(q, c)[i].queryType.QueryExists?)
    && (forall m, k :: k in KeyedTerms(q, m) ==> KeyedTerms(q, m)[k] != [])
  }

  lemma {:induction false} BuildKeepsCalls(calls: seq<Call>, f: Field, term: QueryTerm)
    ensures term in TermsOf(Build(calls), f) <==> Call(f, term) in calls
  {
    if calls == [] {
    } else {
      var front := calls[..|calls| - 1];
      var last := calls[|calls| - 1];
      BuildKeepsCalls(front, f, term);
      assert calls == front + [last];
      AppendTerms(Build(front), last.field, last.term, f);
    }
  }

  lemma AppendTerms(q: QueryData, field: Field, term: QueryTerm, f: Field)
    ensures TermsOf(Append(q, field, term), f) == TermsOf(q, f) + (if f == field then [term] else [])
  {
  }

  lemma {:induction false} BuildWellBuilt(calls: seq<Call>)
    requires forall call :: call in calls ==> Callable(call)
    ensures WellBuilt(Build(calls))
  {
    if calls == [] {
    } else {
      var front := calls[..|calls| - 1];
      var last := calls[|calls| - 1];
      assert forall call :: call in front ==> call in calls;
      BuildWellBuilt(front);
      assert last in calls;
      AppendWellBuilt(Build(front), last);
    }
  }

  lemma AppendWellBuilt(q: QueryData, call: Call)
    requires WellBuilt(q) && Callable(call)
    ensures WellBuilt(Append(q, call.field, call.term))
  {
    var q' := Append(q, call.field, call.term);
    forall c, i | 0 <= i < |PlainTerms(q', c)|
      ensures !PlainTerms(q', c)[i].queryType.QueryExists?
    {
      AppendTerms(q, call.field, call.term, Plain(c));
      if i < |PlainTerms(q, c)| {
        assert !PlainTerms(q, c)[i].queryType.QueryExists?;
      }
    }
    forall m, k | k in KeyedTerms(q', m)
      ensures KeyedTerms(q', m)[k] != []
    {
      AppendTerms(q, call.field, call.term, Keyed(m, k));
      assert KeyedTerms(q', m)[k] == TermsOf(q', Keyed(m, k));
      assert call.field == Keyed(m, k) || k in KeyedTerms(q, m);
    }
  }

  lemma AnswersThenCalls(calls: seq<Call>, row: Row, call: Call)
    requires Answers(row, Build(calls)) && call in calls
    ensures FieldAnswered(row, calls, call.field)
  {
    var f := call.field;
    var terms := TermsOf(Build(calls), f);
    BuildKeepsCalls(calls, f, call.term);
    var i :| 0 <= i < |terms| && Satisfies(row, f, terms[i]);
    BuildKeepsCalls(calls, f, terms[i]);
    assert Call(f, terms[i]) in calls;
  }

  lemma CallsThenAnswers(calls: seq<Call>, row: Row, f: Field)
    requires AnswersCalls(row, calls) && TermsOf(Build(calls), f) != []
    ensures SomeSatisfied(row, f, TermsOf(Build(calls), f))
  {
    var terms := TermsOf(Build(calls), f);
    BuildKeepsCalls(calls, f, terms[0]);
    assert Call(f, terms[0]) in calls;
    assert FieldAnswered(row, calls, f);
    var other :| other in calls && other.field == f && Satisfies(row, f, other.term);
    BuildKeepsCalls(calls, f, other.term);
    assert Call(f, other.term) == other;
    var i :| 0 <= i < |terms| && terms[i] == other.term;
  }

  /** A query means what its builder calls say, in whatever order they came. */
  lemma BuildMeans(calls: seq<Call>, row: Row)
    ensures Answers(row, Build(calls)) <==> AnswersCalls(row, calls)
  {
    if Answers(row, Build(calls)) {
      forall call | call in calls
        ensures FieldAnswered(row, calls, call.field)
      {
        AnswersThenCalls(calls, row, call);
      }
    }
    if AnswersCalls(row, calls) {
      forall f | TermsOf(Build(calls), f) != []
        ensures SomeSatisfied(row, f, TermsOf(Build(calls), f))
      {
        CallsThenAnswers(calls, row, f);
      }
    }
  }

  /** The builder object. */
  class Query {
    var repository: seq<QueryTerm>
    var tag: seq<QueryTerm>
    var os: seq<QueryTerm>
    var architecture: seq<QueryTerm>
    var annotations: map<string, seq<QueryTerm>>
    var labels: map<string, seq<QueryTerm>>

    function Data(): QueryData
      reads this
    {
      QueryData(repository, tag, os, architecture, annotations, labels)
    }

    constructor ()
      ensures Data() == EMPTY_QUERY
    {
      repository, tag, os, architecture := [], [], [], [];
      annotations, labels := map[], map[];
    }

    method AddRepository(name: string)
      modifies this
      ensures Data() == Append(old(Data()), Plain(Repository), QueryTerm(QueryIs, name))
    {
      repository := repository + [QueryTerm(QueryIs, name)];
    }

    method AddTag(name: string)
      modifies this
      ensures Data() == Append(old(Data()), Plain(Tag), QueryTerm(QueryIs, name))
    {
      tag := tag + [QueryTerm(QueryIs, name)];
    }

    method AddTagMatches(pattern: string)
      modifies this
      ensures Data() == Append(old(Data()), Plain(Tag), QueryTerm(QueryMatches, pattern))
    {
      tag := tag + [QueryTerm(QueryMatches, pattern)];
    }

    method AddOS(name: string)
      modifies this
      ensures Data() == Append(old(Data()), Plain(OS), QueryTerm(QueryIs, name))
    {
      os := os + [QueryTerm(QueryIs, name)];
    }

    method AddArchitecture(name: string)
      modifies this
      ensures Data() == Append(old(Data()), Plain(Architecture), QueryTerm(QueryIs, name))
    {
      architecture := architecture + [QueryTerm(QueryIs, name)];
    }

    method AddAnnotationExists(key: string)
      modifies this
      ensures Data() == Append(old(Data()), Keyed(Annotations, key), QueryTerm(QueryExists, ""))
    {
      annotations := annotations[key := Lookup(annotations, key) + [QueryTerm(QueryExists, "")]];
    }

    method AddAnnotationIs(key: string, value: string)
      modifies this
      ensures Data() == Append(old(Data()), Keyed(Annotations, key), QueryTerm(QueryIs, value))
    {
      annotations := annotations[key := Lookup(annotations, key) + [QueryTerm(QueryIs, value)]];
    }

    method AddAnnotationMatches(key: string, pattern: string)
      modifies this
      ensures Data() == Append(old(Data()), Keyed(Annotations, key), QueryTerm(QueryMatches, pattern))
    {
      annotations := annotations[key := Lookup(annotations, key) + [QueryTerm(QueryMatches, pattern)]];
    }

    method AddLabelExists(key: string)
      modifies this
      ensures Data() == Append(old(Data()), Keyed(Labels, key), QueryTerm(QueryExists, ""))
    {
      labels := labels[key := Lookup(labels, key) + [QueryTerm(QueryExists, "")]];
    }

    method AddLabelIs(key: string, value: string)
      modifies this
      ensures Data() == Append(old(Data()), Keyed(Labels, key), QueryTerm(QueryIs, value))
    {
      labels := labels[key := Lookup(labels, key) + [QueryTerm(QueryIs, value)]];
    }

    method AddLabelMatches(key: string, pattern: string)
      modifies this
      ensures Data() == Append(old(Data()), Keyed(Labels, key), QueryTerm(QueryMatches, pattern))
    {
      labels := labels[key := Lookup(labels, key) + [QueryTerm(QueryMatches, pattern)]];
    }
  }
}
