/**
 Parsing an If-None-Match header: a list of `*` and entity tags, separated by
 commas, with optional whitespace and empty elements (section 3.2 of RFC 7232,
 section 7 of RFC 7230).  Backslash escapes are accepted inside the quotes, as
 in the quoted-string of section 2.2 of RFC 2616.
 */
module IfMatch {
  import opened Collections
  import opened Options

  // ----- Characters -----

  /** `\s` of the regular expression */
  predicate Space(c: char) {
    c == ' ' || c == '\t' || c == '\n' || c == '\r' || c == '\U{000C}'
  }

  /** What `strings.TrimSpace` removes: white space in the sense of Unicode. */
  predicate WideSpace(c: char) {
    Space(c) || c == '\U{000B}' || c == '\U{0085}' || c == '\U{00A0}' || c == '\U{1680}'
    || '\U{2000}' <= c <= '\U{200A}'
    || c == '\U{2028}' || c == '\U{2029}' || c == '\U{202F}' || c == '\U{205F}' || c == '\U{3000}'
  }

  function TrimLeft(s: string): string {
    if s != [] && WideSpace(s[0]) then TrimLeft(s[1..]) else s
  }

  function TrimRight(s: string): string {
    if s != [] && WideSpace(s[|s| - 1]) then TrimRight(s[..|s| - 1]) else s
  }

  function TrimSpace(s: string): string {
    TrimRight(TrimLeft(s))
  }

  // ----- The regular expression -----

  function SkipSpace(s: string): (r: string)
    ensures |r| <= |s|
  {
    if s != [] && Space(s[0]) then SkipSpace(s[1..]) else s
  }

  /** `\s*,\s*` at the start of the text: what follows it. */
  function AfterComma(s: string): (r: Option<string>)
    ensures r.Some? ==> |r.value| < |s|
  {
    var t := SkipSpace(s);
    if t != [] && t[0] == ',' then Some(SkipSpace(t[1..])) else None
  }

  /** `(?:[^"\\]+|\\.)*"` at the start of the text: how much of it. */
  function QuotedLength(s: string): (n: Option<nat>)
    ensures n.Some? ==> 0 < n.value <= |s|
  {
    if s == [] then None
    else if s[0] == '"' then Some(1)
    else if s[0] != '\\' then
      match QuotedLength(s[1..])
      case None => None
      case Some(k) => Some(k + 1)
    else if |s| > 1 && s[1] != '\n' then
      match QuotedLength(s[2..])
      case None => None
      case Some(k) => Some(k + 2)
    else None
  }

  function Plus(k: nat, n: Option<nat>): Option<nat> {
    match n
    case None => None
    case Some(m) => Some(k + m)
  }

  /** `\*|(?:W/)?"(?:[^"\\]+|\\.)*"` at the start of the text: how much of it. */
  function ElementLength(s: string): (n: Option<nat>)
    ensures n.Some? ==> 0 < n.value <= |s|
  {
    if s == [] then None
    else if s[0] == '*' then Some(1)
    else if s[0] == '"' then Plus(1, QuotedLength(s[1..]))
    else if |s| > 2 && s[0] == 'W' && s[1] == '/' && s[2] == '"' then Plus(3, QuotedLength(s[3..]))
    else None
  }

  /** A match of the whole expression: the captured element if any, and what follows the match. */
  datatype Match = Match(element: Option<string>, rest: string)

  function FindMatch(s: string): (m: Option<Match>)
    ensures m.Some? ==> |m.value.rest| < |s|
  {
    match ElementLength(s)
    case Some(n) =>
      (match AfterComma(s[n..])
       case Some(rest) => Some(Match(Some(s[..n]), rest))
       case None => if n == |s| then Some(Match(Some(s), [])) else None)
    case None =>
      match AfterComma(s)
      case Some(rest) => Some(Match(None, rest))
      case None => None
  }

  function Elements(m: Match): seq<string> {
    if m.element.Some? then [m.element.value] else []
  }

  function Prepend(elements: seq<string>, more: Option<seq<string>>): Option<seq<string>> {
    match more
    case None => None
    case Some(rest) => Some(elements + rest)
  }

  /** `None` when some part of the text does not match. */
  function ParseTrimmed(s: string): Option<seq<string>>
    decreases |s|
  {
    match FindMatch(s)
    case None => None
    case Some(m) => Prepend(Elements(m), if m.rest == [] then Some([]) else ParseTrimmed(m.rest))
  }

  lemma PrependTwice(a: seq<string>, b: seq<string>, more: Option<seq<string>>)
    ensures Prepend(a, Prepend(b, more)) == Prepend(a + b, more)
  {
    if more.Some? {
      assert a + (b + more.value) == (a + b) + more.value;
    }
  }

  lemma PrependNothing(more: Option<seq<string>>)
    ensures Prepend([], more) == more
  {
    if more.Some? {
      assert [] + more.value == more.value;
    }
  }

  /** The loop: every match consumes at least one character. */
  method ParseIfMatch(input: string) returns (result: Option<seq<string>>)
    ensures result == ParseTrimmed(TrimSpace(input))
  {
    var elements: seq<string> := [];
    var s := TrimSpace(input);
    PrependNothing(ParseTrimmed(s));
    while true
      invariant ParseTrimmed(TrimSpace(input)) == Prepend(elements, ParseTrimmed(s))
      decreases |s|
    {
      var m := FindMatch(s);
      if m.None? {
        return None;
      }
      var rest := m.value.rest;
      PrependTwice(elements, Elements(m.value), if rest == [] then Some([]) else ParseTrimmed(rest));
      elements := elements + Elements(m.value);
      if rest == [] {
        break;
      }
      s := rest;
    }
    assert elements + [] == elements;
    result := Some(elements);
  }

  // ----- The grammar, from the writer's side -----

  datatype Item = Plain(c: char) | Escaped(c: char)

  datatype ETag = Any | Tag(weak: bool, body: seq<Item>)

  predicate ItemOk(item: Item) {
    match item
    case Plain(c) => c != '"' && c != '\\'
    case Escaped(c) => c != '\n'
  }

  predicate ETagOk(tag: ETag) {
    tag.Tag? ==> forall i :: 0 <= i < |tag.body| ==> ItemOk(tag.body[i])
  }

  function ItemText(item: Item): string {
    match item
    case Plain(c) => [c]
    case Escaped(c) => ['\\', c]
  }

  /** The items and the closing quote. */
  function BodyText(body: seq<Item>): string {
    if body == [] then "\"" else ItemText(body[0]) + BodyText(body[1..])
  }

  function Text(tag: ETag): string {
    match tag
    case Any => "*"
    case Tag(weak, body) => (if weak then "W/\"" else "\"") + BodyText(body)
  }

  /** Whitespace and commas in any arrangement. */
  ghost predicate Filler(s: string) {
    forall i :: 0 <= i < |s| ==> Space(s[i]) || s[i] == ','
  }

  /** A tag and the filler after it. */
  datatype Entry = Entry(tag: ETag, filler: string)

  /** Between two tags there is a comma. */
  ghost predicate EntriesOk(entries: seq<Entry>) {
    && (forall i :: 0 <= i < |entries| ==> ETagOk(entries[i].tag) && Filler(entries[i].filler))
    && (forall i :: 0 <= i < |entries| - 1 ==> ',' in entries[i].filler)
  }

  function Print(entries: seq<Entry>): string {
    if entries == [] then [] else Text(entries[0].tag) + entries[0].filler + Print(entries[1..])
  }

  function Texts(entries: seq<Entry>): seq<string> {
    if entries == [] then [] else [Text(entries[0].tag)] + Texts(entries[1..])
  }

  // ----- An element is found again -----

  lemma {:induction false} QuotedFound(body: seq<Item>, rest: string)
    requires forall i :: 0 <= i < |body| ==> ItemOk(body[i])
    ensures QuotedLength(BodyText(body) + rest) == Some(|BodyText(body)|)
  {
    var s := BodyText(body) + rest;
    if body == [] {
    } else {
      var more := BodyText(body[1..]) + rest;
      QuotedFound(body[1..], rest);
      assert ItemOk(body[0]);
      assert s == ItemText(body[0]) + more;
      if body[0].Plain? {
        assert s[1..] == more;
      } else {
        assert s[2..] == more;
      }
    }
  }

  lemma StrongFound(text: string, rest: string)
    requires QuotedLength(text + rest) == Some(|text|)
    ensures ElementLength("\"" + text + rest) == Some(1 + |text|)
  {
    assert ("\"" + text + rest)[1..] == text + rest;
  }

  lemma WeakFound(text: string, rest: string)
    requires QuotedLength(text + rest) == Some(|text|)
    ensures ElementLength("W/\"" + text + rest) == Some(3 + |text|)
  {
    assert ("W/\"" + text + rest)[3..] == text + rest;
  }

  lemma ElementFound(tag: ETag, rest: string)
    requires ETagOk(tag)
    ensures ElementLength(Text(tag) + rest) == Some(|Text(tag)|)
  {
    if tag.Tag? {
      QuotedFound(tag.body, rest);
      if tag.weak {
        WeakFound(BodyText(tag.body), rest);
      } else {
        StrongFound(BodyText(tag.body), rest);
      }
    }
  }

  lemma TextEnds(tag: ETag)
    ensures var text := Text(tag);
            text != [] && text[0] in "*W\"" && !WideSpace(text[0]) && !WideSpace(text[|text| - 1])
  {
    if tag.Tag? {
      BodyEndsInQuote(tag.body);
    }
  }

  lemma {:induction false} BodyEndsInQuote(body: seq<Item>)
    ensures BodyText(body) != [] && BodyText(body)[|BodyText(body)| - 1] == '"'
  {
    if body == [] {
    } else {
      BodyEndsInQuote(body[1..]);
    }
  }

  // ----- Filler is skipped -----

  /** Text that begins an element, or nothing. */
  ghost predicate AtElement(s: string) {
    s == [] || (!Space(s[0]) && s[0] != ',')
  }

  function DropSpaces(f: string): (r: string)
    ensures |r| <= |f|
  {
    if f != [] && Space(f[0]) then DropSpaces(f[1..]) else f
  }

  lemma {:induction false} DropSpacesShape(f: string)
    requires Filler(f)
    ensures Filler(DropSpaces(f))
    ensures DropSpaces(f) != [] ==> DropSpaces(f)[0] == ','
    ensures ',' in f <==> DropSpaces(f) != []
  {
    if f == [] || !Space(f[0]) {
    } else {
      assert forall i :: 0 <= i < |f[1..]| ==> f[1..][i] == f[i + 1];
      DropSpacesShape(f[1..]);
      assert f == [f[0]] + f[1..];
    }
  }

  lemma {:induction false} SkipSpaceFiller(f: string, rest: string)
    requires Filler(f) && AtElement(rest)
    ensures SkipSpace(f + rest) == DropSpaces(f) + rest
  {
    if f == [] {
      assert f + rest == rest;
    } else {
      assert (f + rest)[1..] == f[1..] + rest;
      if Space(f[0]) {
        SkipSpaceFiller(f[1..], rest);
      }
    }
  }

  /** The filler after its first comma and the spaces that follow. */
  function Later(f: string): string {
    if DropSpaces(f) == [] then [] else DropSpaces(DropSpaces(f)[1..])
  }

  lemma CommaFound(f: string, rest: string)
    requires Filler(f) && ',' in f && AtElement(rest)
    ensures var f' := Later(f);
            && |f'| < |f| && Filler(f') && (f' != [] ==> f'[0] == ',')
            && AfterComma(f + rest) == Some(f' + rest)
  {
    DropSpacesShape(f);
    var g := DropSpaces(f);
    SkipSpaceFiller(f, rest);
    assert (g + rest)[1..] == g[1..] + rest;
    assert Filler(g[1..]);
    DropSpacesShape(g[1..]);
    SkipSpaceFiller(g[1..], rest);
  }

  /** A filler with a comma in front is skipped, however many empty elements it has. */
  lemma {:induction false} FillerParsed(f: string, rest: string)
    requires Filler(f) && f != [] && f[0] == ',' && AtElement(rest)
    ensures ParseTrimmed(f + rest) == if rest == [] then Some([]) else ParseTrimmed(rest)
    decreases |f|
  {
    var s := f + rest;
    assert ElementLength(s) == None;
    assert ',' in f;
    CommaFound(f, rest);
    var f' := Later(f);
    assert FindMatch(s) == Some(Match(None, f' + rest));
    PrependNothing(if f' + rest == [] then Some([]) else ParseTrimmed(f' + rest));
    if f' == [] {
      assert f' + rest == rest;
    } else {
      FillerParsed(f', rest);
    }
  }

  /** Text as the parser sees it after trimming: it does not end in whitespace. */
  ghost predicate EndsOk(entries: seq<Entry>) {
    entries != [] ==> var f := entries[|entries| - 1].filler; f == [] || f[|f| - 1] == ','
  }

  lemma PrintAtElement(entries: seq<Entry>)
    ensures AtElement(Print(entries))
  {
    if entries != [] {
      TextEnds(entries[0].tag);
      assert Print(entries)[0] == Text(entries[0].tag)[0];
    }
  }

  lemma {:induction false} EntriesParsed(entries: seq<Entry>)
    requires entries != [] && EntriesOk(entries) && EndsOk(entries)
    ensures ParseTrimmed(Print(entries)) == Some(Texts(entries))
    decreases |entries|
  {
    var e, more := entries[0], entries[1..];
    assert forall i :: 0 <= i < |more| ==> more[i] == entries[i + 1];
    assert EntriesOk(more) && EndsOk(more);
    PrintAtElement(more);
    if more != [] {
      EntriesParsed(more);
      assert ',' in e.filler;
      PrintAtStart(more);
      EntryParsed(e, Print(more), Texts(more));
    } else if e.filler == [] {
      LastParsed(e.tag);
      assert Print(entries) == Text(e.tag);
      assert Texts(entries) == [Text(e.tag)];
    } else {
      assert ',' in e.filler;
      EntryParsed(e, Print(more), Texts(more));
    }
  }

  lemma PrintAtStart(entries: seq<Entry>)
    requires entries != []
    ensures Print(entries) != [] && !WideSpace(Print(entries)[0])
  {
    TextEnds(entries[0].tag);
    assert Print(entries)[0] == Text(entries[0].tag)[0];
  }

  lemma LastParsed(tag: ETag)
    requires ETagOk(tag)
    ensures ParseTrimmed(Text(tag)) == Some([Text(tag)])
  {
    var text := Text(tag);
    ElementFound(tag, []);
    assert text + [] == text;
    assert text[|text|..] == [];
    assert [text] + [] == [text];
    assert FindMatch(text) == Some(Match(Some(text), []));
  }

  /** One element, its filler, and what the rest parses to. */
  lemma EntryParsed(e: Entry, rest: string, texts: seq<string>)
    requires ETagOk(e.tag) && Filler(e.filler) && ',' in e.filler && AtElement(rest)
    requires if rest == [] then texts == [] else ParseTrimmed(rest) == Some(texts)
    ensures ParseTrimmed(Text(e.tag) + e.filler + rest) == Some([Text(e.tag)] + texts)
  {
    var text, filler := Text(e.tag), e.filler;
    var s := text + filler + rest;
    assert s == text + (filler + rest);
    ElementFound(e.tag, filler + rest);
    assert s[|text|..] == filler + rest && s[..|text|] == text;
    AfterElement(s, text, filler, rest, texts);
  }

  lemma AfterElement(s: string, text: string, filler: string, rest: string, texts: seq<string>)
    requires ElementLength(s) == Some(|text|) && s[..|text|] == text && s[|text|..] == filler + rest
    requires Filler(filler) && ',' in filler && AtElement(rest)
    requires if rest == [] then texts == [] else ParseTrimmed(rest) == Some(texts)
    ensures ParseTrimmed(s) == Some([text] + texts)
  {
    CommaFound(filler, rest);
    var f' := Later(filler);
    assert FindMatch(s) == Some(Match(Some(text), f' + rest));
    if f' == [] {
      assert f' + rest == rest;
    } else {
      FillerParsed(f', rest);
    }
  }

  // ----- Trimming -----

  ghost predicate AllWide(s: string) {
    forall i :: 0 <= i < |s| ==> WideSpace(s[i])
  }

  lemma {:induction false} TrimLeftOf(blank: string, s: string)
    requires AllWide(blank)
    ensures TrimLeft(blank + s) == TrimLeft(s)
  {
    if blank == [] {
      assert blank + s == s;
    } else {
      assert (blank + s)[1..] == blank[1..] + s;
      TrimLeftOf(blank[1..], s);
    }
  }

  lemma {:induction false} TrimRightOf(s: string, blank: string)
    requires AllWide(blank)
    ensures TrimRight(s + blank) == TrimRight(s)
    decreases |blank|
  {
    if blank == [] {
      assert s + blank == s;
    } else {
      var n := |blank| - 1;
      assert (s + blank)[..|s + blank| - 1] == s + blank[..n];
      TrimRightOf(s, blank[..n]);
    }
  }

  /** Filler before an element: the spaces in front go, and what starts at a comma stays. */
  lemma {:induction false} TrimLeftFiller(f: string, rest: string)
    requires Filler(f) && (rest == [] || !WideSpace(rest[0]))
    ensures TrimLeft(f + rest) == DropSpaces(f) + rest
  {
    if f == [] {
      assert f + rest == rest;
    } else {
      assert (f + rest)[1..] == f[1..] + rest;
      if Space(f[0]) {
        TrimLeftFiller(f[1..], rest);
      }
    }
  }

  /** The filler without the spaces at its end. */
  function DropTrailing(f: string): (r: string)
    ensures |r| <= |f|
  {
    if f != [] && Space(f[|f| - 1]) then DropTrailing(f[..|f| - 1]) else f
  }

  lemma {:induction false} DropTrailingShape(f: string)
    requires Filler(f)
    ensures Filler(DropTrailing(f))
    ensures DropTrailing(f) == [] || DropTrailing(f)[|DropTrailing(f)| - 1] == ','
    ensures ',' in f <==> DropTrailing(f) != []
  {
    if f == [] || !Space(f[|f| - 1]) {
    } else {
      DropTrailingShape(f[..|f| - 1]);
      FrontAndLast(f);
    }
  }

  lemma {:induction false} TrimRightFiller(s: string, f: string)
    requires Filler(f) && (s == [] || !WideSpace(s[|s| - 1]))
    ensures TrimRight(s + f) == s + DropTrailing(f)
  {
    if f == [] {
      assert s + f == s;
    } else {
      FrontOfConcat(s, f);
      if Space(f[|f| - 1]) {
        TrimRightFiller(s, f[..|f| - 1]);
      }
    }
  }

  lemma {:induction false} PrintSnoc(front: seq<Entry>, last: Entry)
    ensures Print(front + [last]) == Print(front) + Text(last.tag) + last.filler
    ensures Texts(front + [last]) == Texts(front) + [Text(last.tag)]
  {
    var all := front + [last];
    if front == [] {
      assert all == [last] && all[1..] == [];
    } else {
      TailOfConcat(front, [last]);
      PrintSnoc(front[1..], last);
      var head := Text(front[0].tag) + front[0].filler;
      Regroup(head, Print(front[1..]) + Text(last.tag), last.filler);
      Regroup(head, Print(front[1..]), Text(last.tag));
      Regroup([Text(front[0].tag)], Texts(front[1..]), [Text(last.tag)]);
    }
  }

  lemma TrimLeftPrinted(left: string, lead: string, text: string)
    requires AllWide(left) && Filler(lead) && text != [] && !WideSpace(text[0])
    ensures TrimLeft(left + lead + text) == DropSpaces(lead) + text
  {
    assert left + lead + text == left + (lead + text);
    TrimLeftOf(left, lead + text);
    TrimLeftFiller(lead, text);
  }

  lemma TrimRightPrinted(text: string, filler: string, right: string)
    requires AllWide(right) && Filler(filler) && text != [] && !WideSpace(text[|text| - 1])
    ensures TrimRight(text + filler + right) == text + DropTrailing(filler)
  {
    TrimRightOf(text + filler, right);
    TrimRightFiller(text, filler);
  }

  /** Trimming a printed header takes spaces off its two fillers at the ends, and nothing else. */
  lemma TrimPrinted(left: string, lead: string, front: seq<Entry>, last: Entry, right: string)
    requires AllWide(left) && AllWide(right) && Filler(lead) && Filler(last.filler)
    ensures TrimSpace(left + lead + Print(front + [last]) + right)
         == DropSpaces(lead) + Print(front + [last.(filler := DropTrailing(last.filler))])
  {
    var body := Print(front + [last]);
    var bare := Print(front) + Text(last.tag);
    PrintSnoc(front, last);
    PrintSnoc(front, last.(filler := DropTrailing(last.filler)));
    TextEnds(last.tag);
    PrintAtStart(front + [last]);
    assert left + lead + body + right == left + lead + (body + right);
    TrimLeftPrinted(left, lead, body + right);
    assert body == bare + last.filler;
    assert bare[|bare| - 1] == Text(last.tag)[|Text(last.tag)| - 1];
    TrimRightBody(DropSpaces(lead), bare, last.filler, right);
  }

  lemma TrimRightBody(lead: string, bare: string, filler: string, right: string)
    requires AllWide(right) && Filler(filler) && bare != [] && !WideSpace(bare[|bare| - 1])
    ensures TrimRight(lead + (bare + filler + right)) == lead + (bare + DropTrailing(filler))
  {
    var core := lead + bare;
    assert lead + (bare + filler + right) == core + filler + right;
    TrimRightPrinted(core, filler, right);
    assert core + DropTrailing(filler) == lead + (bare + DropTrailing(filler));
  }

  /**
   Round trip: a header written with any tags of the grammar, any whitespace and
   any number of empty elements parses to exactly those tags.
   */
  lemma RoundTrip(left: string, lead: string, front: seq<Entry>, last: Entry, right: string)
    requires AllWide(left) && AllWide(right) && Filler(lead) && EntriesOk(front + [last])
    ensures ParseTrimmed(TrimSpace(left + lead + Print(front + [last]) + right)) == Some(Texts(front + [last]))
  {
    var entries := front + [last];
    var trimmed := last.(filler := DropTrailing(last.filler));
    var entries' := front + [trimmed];
    assert entries[|front|] == last && entries'[|front|] == trimmed;
    TrimPrinted(left, lead, front, last, right);
    assert forall i :: 0 <= i < |front| ==> entries[i] == entries'[i];
    DropTrailingShape(last.filler);
    assert EntriesOk(entries') && EndsOk(entries');
    EntriesParsed(entries');
    PrintSnoc(front, last);
    PrintSnoc(front, trimmed);
    PrintAtElement(entries');
    PrintAtStart(entries');
    DropSpacesShape(lead);
    var f := DropSpaces(lead);
    if f == [] {
      assert f + Print(entries') == Print(entries');
    } else {
      FillerParsed(f, Print(entries'));
    }
  }

  // ----- Nothing else is accepted -----

  lemma {:induction false} QuotedSound(s: string) returns (body: seq<Item>)
    requires QuotedLength(s).Some?
    ensures BodyText(body) == s[..QuotedLength(s).value]
    ensures forall i :: 0 <= i < |body| ==> ItemOk(body[i])
  {
    if s[0] == '"' {
      body := [];
    } else {
      var item := if s[0] == '\\' then Escaped(s[1]) else Plain(s[0]);
      var k := |ItemText(item)|;
      var more := QuotedSound(s[k..]);
      body := [item] + more;
      assert body[1..] == more;
      assert s[..QuotedLength(s).value] == ItemText(item) + s[k..][..QuotedLength(s[k..]).value];
    }
  }

  lemma ElementSound(s: string) returns (tag: ETag)
    requires ElementLength(s).Some?
    ensures ETagOk(tag) && Text(tag) == s[..ElementLength(s).value]
  {
    if s[0] == '*' {
      tag := Any;
    } else if s[0] == '"' {
      var body := QuotedSound(s[1..]);
      tag := Tag(false, body);
      assert s[..ElementLength(s).value] == "\"" + s[1..][..QuotedLength(s[1..]).value];
    } else {
      var body := QuotedSound(s[3..]);
      tag := Tag(true, body);
      assert s[..ElementLength(s).value] == "W/\"" + s[3..][..QuotedLength(s[3..]).value];
    }
  }

  lemma {:induction false} SkipSpaceSound(s: string) returns (f: string)
    ensures Filler(f) && s == f + SkipSpace(s)
  {
    if s != [] && Space(s[0]) {
      var g := SkipSpaceSound(s[1..]);
      f := [s[0]] + g;
    } else {
      f := [];
    }
  }

  lemma CommaSound(s: string) returns (f: string)
    requires AfterComma(s).Some?
    ensures Filler(f) && ',' in f && s == f + AfterComma(s).value
  {
    var g := SkipSpaceSound(s);
    var t := SkipSpace(s);
    var h := SkipSpaceSound(t[1..]);
    f := g + ([','] + h);
    assert f[|g|] == ',';
    var rest := AfterComma(s).value;
    assert t == [','] + t[1..];
    Regroup([','], h, rest);
    Regroup(g, [','] + h, rest);
  }

  /** What one match consumes: an element or nothing, then filler. */
  lemma MatchSound(s: string) returns (text: string, f: string)
    requires FindMatch(s).Some?
    ensures var m := FindMatch(s).value;
            && s == text + (f + m.rest) && Filler(f)
            && Elements(m) == (if m.element.Some? then [text] else [])
            && (m.element.None? ==> text == [])
            && (m.rest != [] || m.element.None? ==> ',' in f)
  {
    var m := FindMatch(s).value;
    var n := ElementLength(s);
    if n.None? {
      f := CommaSound(s);
      text := "";
    } else {
      text, f := s[..n.value], "";
      if AfterComma(s[n.value..]).Some? {
        f := CommaSound(s[n.value..]);
      } else {
        assert s[..n.value] == s;
      }
    }
  }

  /** Whatever is accepted is a header of the grammar, and the result is its tags. */
  lemma {:induction false} ParseSound(s: string) returns (lead: string, entries: seq<Entry>)
    requires ParseTrimmed(s).Some?
    ensures Filler(lead) && EntriesOk(entries) && s == lead + Print(entries)
    ensures ParseTrimmed(s) == Some(Texts(entries))
    ensures entries == [] ==> ',' in lead
    decreases |s|
  {
    var m := FindMatch(s).value;
    lead, entries := "", [];
    if m.rest == [] {
    } else {
      lead, entries := ParseSound(m.rest);
    }
    var text, f := MatchSound(s);
    if m.element.None? {
      PrependNothing(Some(Texts(entries)));
      Regroup(f, lead, Print(entries));
      FillerConcat(f, lead);
      lead := f + lead;
    } else {
      var tag := ElementSound(s);
      EntryPrepended(tag, f, lead, entries);
      entries := [Entry(tag, f + lead)] + entries;
      lead := "";
      assert lead + Print(entries) == Print(entries);
    }
  }

  lemma FillerConcat(f: string, g: string)
    requires Filler(f) && Filler(g)
    ensures Filler(f + g) && (',' in f || ',' in g ==> ',' in f + g)
  {
  }

  lemma EntryPrepended(tag: ETag, f: string, lead: string, entries: seq<Entry>)
    requires ETagOk(tag) && Filler(f) && Filler(lead) && EntriesOk(entries) && (entries != [] ==> ',' in f)
    ensures var all := [Entry(tag, f + lead)] + entries;
            && EntriesOk(all)
            && Print(all) == Text(tag) + (f + (lead + Print(entries)))
            && Texts(all) == [Text(tag)] + Texts(entries)
  {
    var all := [Entry(tag, f + lead)] + entries;
    TailOfCons(Entry(tag, f + lead), entries);
    Regroup(Text(tag), f + lead, Print(entries));
    Regroup(f, lead, Print(entries));
    assert Filler(f + lead);
    assert forall i :: 0 < i < |all| ==> all[i] == entries[i - 1];
    assert entries != [] ==> ',' in f + lead;
  }

  // ----- The same in characters -----

  /** Blank, tab, line feed, carriage return and form feed. */
  const BLANKS := " \t\n\r\U{000C}"

  const SEPARATORS := " \t\n\r\U{000C},"

  /** The characters that Unicode calls white space. */
  const OUTER := "\t\n\U{000B}\U{000C}\r \U{0085}\U{00A0}\U{1680}"
                 + "\U{2000}\U{2001}\U{2002}\U{2003}\U{2004}\U{2005}\U{2006}\U{2007}\U{2008}\U{2009}\U{200A}"
                 + "\U{2028}\U{2029}\U{202F}\U{205F}\U{3000}"

  ghost predicate AllIn(s: string, chars: string) {
    forall i :: 0 <= i < |s| ==> s[i] in chars
  }

  lemma SpaceIff(c: char)
    ensures Space(c) <==> c in BLANKS
    ensures c in SEPARATORS <==> c in BLANKS || c == ','
  {
    assert SEPARATORS == BLANKS + ",";
  }

  lemma WideSpaceIff(c: char)
    ensures WideSpace(c) <==> c in OUTER
  {
  }

  lemma AllInIsFiller(s: string)
    requires AllIn(s, SEPARATORS)
    ensures Filler(s)
  {
    forall i | 0 <= i < |s|
      ensures Space(s[i]) || s[i] == ','
    {
      SpaceIff(s[i]);
    }
  }

  lemma BlanksAreFiller(s: string)
    requires AllIn(s, BLANKS)
    ensures Filler(s) && ',' !in s
  {
    forall i | 0 <= i < |s|
      ensures Space(s[i]) && s[i] != ','
    {
      SpaceIff(s[i]);
    }
  }

  lemma AllInIsWide(s: string)
    requires AllIn(s, OUTER)
    ensures AllWide(s)
  {
    forall i | 0 <= i < |s|
      ensures WideSpace(s[i])
    {
      WideSpaceIff(s[i]);
    }
  }

  /** `*`, or a quoted text, which `W/` may precede. */
  ghost predicate TagText(t: string) {
    t == "*" || exists body :: Quotable(body) && (t == "\"" + body + "\"" || t == "W/\"" + body + "\"")
  }

  /** Any characters but quote and backslash, and any but a line feed after a backslash. */
  predicate Quotable(body: string) {
    if body == [] then true
    else if body[0] == '\\' then |body| > 1 && body[1] != '\n' && Quotable(body[2..])
    else body[0] != '"' && Quotable(body[1..])
  }

  /** The tags, each with what follows it. */
  function Header(tags: seq<string>, separators: seq<string>): string
    requires |tags| == |separators|
  {
    if tags == [] then [] else tags[0] + separators[0] + Header(tags[1..], separators[1..])
  }

  lemma {:induction false} ItemsOf(body: string) returns (items: seq<Item>)
    requires Quotable(body)
    ensures BodyText(items) == body + "\"" && forall i :: 0 <= i < |items| ==> ItemOk(items[i])
  {
    if body == [] {
      items := [];
    } else {
      var item := if body[0] == '\\' then Escaped(body[1]) else Plain(body[0]);
      var k := |ItemText(item)|;
      var more := ItemsOf(body[k..]);
      items := [item] + more;
      TailOfCons(item, more);
      assert body == ItemText(item) + body[k..];
      Regroup(ItemText(item), body[k..], "\"");
    }
  }

  lemma TagOf(t: string) returns (tag: ETag)
    requires TagText(t)
    ensures ETagOk(tag) && Text(tag) == t
  {
    if t == "*" {
      tag := Any;
    } else {
      var body :| Quotable(body) && (t == "\"" + body + "\"" || t == "W/\"" + body + "\"");
      var items := ItemsOf(body);
      tag := Tag(t == "W/\"" + body + "\"", items);
      Regroup("\"", body, "\"");
      Regroup("W/\"", body, "\"");
    }
  }

  lemma {:induction false} EntriesOf(tags: seq<string>, separators: seq<string>) returns (entries: seq<Entry>)
    requires |tags| == |separators| && forall i :: 0 <= i < |tags| ==> TagText(tags[i])
    requires forall i :: 0 <= i < |separators| ==> AllIn(separators[i], SEPARATORS)
    ensures |entries| == |tags| && Print(entries) == Header(tags, separators) && Texts(entries) == tags
    ensures forall i :: 0 <= i < |entries| ==>
              ETagOk(entries[i].tag) && Filler(entries[i].filler) && entries[i].filler == separators[i]
  {
    if tags == [] {
      entries := [];
    } else {
      var more := EntriesOf(tags[1..], separators[1..]);
      var tag := TagOf(tags[0]);
      entries := [Entry(tag, separators[0])] + more;
      TailOfCons(Entry(tag, separators[0]), more);
      AllInIsFiller(separators[0]);
      assert tags == [tags[0]] + tags[1..];
    }
  }

  /**
   Any non-empty list of tags, separated by any text of blanks and commas with a
   comma in it, with more of that in front and behind and any white space
   around, parses to that list.
   */
  lemma HeaderParses(left: string, lead: string, tags: seq<string>, separators: seq<string>, right: string)
    requires |tags| == |separators| > 0 && forall i :: 0 <= i < |tags| ==> TagText(tags[i])
    requires AllIn(left, OUTER) && AllIn(right, OUTER) && AllIn(lead, SEPARATORS)
    requires forall i :: 0 <= i < |separators| ==> AllIn(separators[i], SEPARATORS)
    requires forall i :: 0 <= i < |separators| - 1 ==> ',' in separators[i]
    ensures ParseTrimmed(TrimSpace(left + lead + Header(tags, separators) + right)) == Some(tags)
  {
    AllInIsWide(left);
    AllInIsWide(right);
    AllInIsFiller(lead);
    var entries := EntriesOf(tags, separators);
    var front, last := entries[..|entries| - 1], entries[|entries| - 1];
    FrontAndLast(entries);
    RoundTrip(left, lead, front, last, right);
  }

  // ----- and what is refused -----

  /** Without white space at its ends a header is parsed as it is. */
  lemma TrimmedStays(s: string)
    requires s != [] && s[0] !in OUTER && s[|s| - 1] !in OUTER
    ensures TrimSpace(s) == s
  {
    WideSpaceIff(s[0]);
    WideSpaceIff(s[|s| - 1]);
  }

  /** Tags that each have a comma after them. */
  ghost predicate Separated(tags: seq<string>, separators: seq<string>) {
    && |tags| == |separators| && (forall i :: 0 <= i < |tags| ==> TagText(tags[i]))
    && (forall i :: 0 <= i < |separators| ==> AllIn(separators[i], SEPARATORS) && ',' in separators[i])
  }

  lemma EntryRefused(e: Entry, rest: string)
    requires ETagOk(e.tag) && Filler(e.filler) && ',' in e.filler && AtElement(rest)
    requires rest != [] && ParseTrimmed(rest) == None
    ensures ParseTrimmed(Text(e.tag) + e.filler + rest) == None
  {
    var text, filler := Text(e.tag), e.filler;
    var s := text + filler + rest;
    assert s == text + (filler + rest);
    ElementFound(e.tag, filler + rest);
    assert s[|text|..] == filler + rest && s[..|text|] == text;
    CommaFound(filler, rest);
    var f' := Later(filler);
    assert FindMatch(s) == Some(Match(Some(text), f' + rest));
    if f' == [] {
      assert f' + rest == rest;
    } else {
      FillerParsed(f', rest);
    }
  }

  lemma {:induction false} RefusedAfter(entries: seq<Entry>, rest: string)
    requires rest != [] && AtElement(rest) && ParseTrimmed(rest) == None
    requires forall i :: 0 <= i < |entries| ==>
               ETagOk(entries[i].tag) && Filler(entries[i].filler) && ',' in entries[i].filler
    ensures ParseTrimmed(Print(entries) + rest) == None
  {
    if entries == [] {
      assert Print(entries) + rest == rest;
    } else {
      var e, more := entries[0], entries[1..];
      RefusedAfter(more, rest);
      PrintAtElement(more);
      if more == [] {
        assert Print(more) + rest == rest;
      } else {
        PrintAtStart(more);
        assert (Print(more) + rest)[0] == Print(more)[0];
      }
      EntryRefused(e, Print(more) + rest);
      Regroup(Text(e.tag) + e.filler, Print(more), rest);
    }
  }

  /** The tags so far do not matter: what cannot be parsed after them cannot be parsed. */
  lemma HeaderRefused(tags: seq<string>, separators: seq<string>, rest: string)
    requires Separated(tags, separators)
    requires rest != [] && rest[0] !in SEPARATORS && ParseTrimmed(rest) == None
    ensures ParseTrimmed(Header(tags, separators) + rest) == None
  {
    SpaceIff(rest[0]);
    var entries := EntriesOf(tags, separators);
    RefusedAfter(entries, rest);
  }

  /** Where a tag should begin, any character that cannot begin one is refused. */
  lemma JunkForTag(tags: seq<string>, separators: seq<string>, c: char, rest: string)
    requires Separated(tags, separators)
    requires c !in SEPARATORS && c !in "*\"W"
    ensures ParseTrimmed(Header(tags, separators) + ([c] + rest)) == None
  {
    SpaceIff(c);
    var s := [c] + rest;
    assert c != '*' && c != '"' && c != 'W' by {
      assert "*\"W"[0] == '*' && "*\"W"[1] == '"' && "*\"W"[2] == 'W';
    }
    assert s[0] == c && ElementLength(s) == None && AfterComma(s) == None;
    HeaderRefused(tags, separators, s);
  }

  /** After a tag, any character but a blank, a comma and the end is refused: tags need a comma between them. */
  lemma JunkAfterTag(tags: seq<string>, separators: seq<string>, tag: string, blanks: string, c: char, rest: string)
    requires Separated(tags, separators)
    requires TagText(tag) && AllIn(blanks, BLANKS) && c !in SEPARATORS
    ensures ParseTrimmed(Header(tags, separators) + (tag + (blanks + ([c] + rest)))) == None
  {
    BlanksAreFiller(blanks);
    SpaceIff(c);
    var t := TagOf(tag);
    var after := blanks + ([c] + rest);
    var s := tag + after;
    ElementFound(t, after);
    assert s[|tag|..] == after;
    SkipSpaceFiller(blanks, [c] + rest);
    DropSpacesShape(blanks);
    assert AfterComma(after) == None;
    TextEnds(t);
    WideSpaceIff(s[0]);
    HeaderRefused(tags, separators, s);
  }

  lemma {:induction false} NoClosingQuote(body: string)
    requires Quotable(body)
    ensures QuotedLength(body) == None
  {
    if body == [] {
    } else if body[0] == '\\' {
      NoClosingQuote(body[2..]);
    } else {
      NoClosingQuote(body[1..]);
    }
  }

  /** A quoted text without its closing quote is refused, and so is a `W` that does not begin a weak tag. */
  lemma UnclosedTag(tags: seq<string>, separators: seq<string>, rest: string)
    requires Separated(tags, separators)
    requires || (exists body :: Quotable(body) && (rest == "\"" + body || rest == "W/\"" + body))
             || (rest != [] && rest[0] == 'W' && rest[1..] != [] && rest[1] != '/')
    ensures ParseTrimmed(Header(tags, separators) + rest) == None
  {
    SpaceIff(rest[0]);
    if body :| Quotable(body) && (rest == "\"" + body || rest == "W/\"" + body) {
      NoClosingQuote(body);
      assert ("\"" + body)[1..] == body && ("W/\"" + body)[3..] == body;
    }
    assert ElementLength(rest) == None && AfterComma(rest) == None;
    HeaderRefused(tags, separators, rest);
  }

  /** A header of empty elements is an empty list, and a header of white space is an error. */
  lemma NoTags(s: string)
    requires AllIn(s, SEPARATORS)
    ensures ParseTrimmed(TrimSpace(s)) == if ',' in s then Some([]) else None
  {
    AllInIsFiller(s);
    TrimLeftFiller(s, []);
    assert s + [] == s && DropSpaces(s) + [] == DropSpaces(s);
    DropSpacesShape(s);
    var f := DropSpaces(s);
    TrimRightFiller([], f);
    DropTrailingShape(f);
    assert [] + f == f && [] + DropTrailing(f) == DropTrailing(f);
    var g := DropTrailing(f);
    if ',' in s {
      assert f[0] == ',';
      DropTrailingHead(f);
      FillerParsed(g, []);
      assert g + [] == g;
    }
  }

  lemma {:induction false} DropTrailingHead(f: string)
    requires f != [] && f[0] == ','
    ensures DropTrailing(f) != [] && DropTrailing(f)[0] == ','
  {
    if !Space(f[|f| - 1]) {
    } else {
      DropTrailingHead(f[..|f| - 1]);
    }
  }

  lemma BlankHeader(s: string)
    requires AllIn(s, OUTER)
    ensures ParseTrimmed(TrimSpace(s)) == None
  {
    AllInIsWide(s);
    TrimLeftOf(s, []);
    assert s + [] == s;
  }
}
