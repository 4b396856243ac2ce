/**
 Glob patterns, their translation to SQL LIKE patterns, and how far the
 translation preserves what a pattern matches.
 */
module Glob {

  /** `*` is any sequence, `?` any one character, everything else itself. */
  predicate Matches(glob: string, s: string) {
    if glob == [] then
      s == []
    else if glob[0] == '*' then
      exists k :: 0 <= k <= |s| && Matches(glob[1..], s[k..])
    else
      s != [] && (glob[0] == '?' || glob[0] == s[0]) && Matches(glob[1..], s[1..])
  }

  /**
   `s LIKE pattern` evaluates to true (section 9.7.1 of the PostgreSQL manual):
   `%` is any sequence, `_` any one character, a backslash takes the next
   character literally.  A pattern that ends in a lone backslash is an error
   in PostgreSQL, so it is true of no string.
   */
  predicate Like(pattern: string, s: string) {
    if pattern == [] then
      s == []
    else if pattern[0] == '%' then
      exists k :: 0 <= k <= |s| && Like(pattern[1..], s[k..])
    else if pattern[0] == '_' then
      s != [] && Like(pattern[1..], s[1..])
    else if pattern[0] == '\\' then
      |pattern| > 1 && s != [] && s[0] == pattern[1] && Like(pattern[2..], s[1..])
    else
      s != [] && s[0] == pattern[0] && Like(pattern[1..], s[1..])
  }

  // What a glob matches, in terms of its characters alone: one character, and one after the other.

  lemma MatchesChar(c: char, s: string)
    ensures Matches([c], s) <==> c == '*' || (|s| == 1 && (c == '?' || s[0] == c))
  {
    assert [c][1..] == [];
    if c == '*' {
      assert s[|s|..] == [] && Matches([c][1..], s[|s|..]);
    } else {
      assert Matches([c], s) <==> s != [] && (c == '?' || c == s[0]) && s[1..] == [];
    }
  }

  lemma {:induction false} MatchesConcat(a: string, b: string, s: string)
    ensures Matches(a + b, s) <==> exists k :: 0 <= k <= |s| && Matches(a, s[..k]) && Matches(b, s[k..])
  {
    if Matches(a + b, s) {
      var k := SplitMatch(a, b, s);
    }
    forall k | 0 <= k <= |s| && Matches(a, s[..k]) && Matches(b, s[k..])
      ensures Matches(a + b, s)
    {
      JoinMatch(a, b, s, k);
    }
  }

  lemma {:induction false} SplitMatch(a: string, b: string, s: string) returns (k: nat)
    requires Matches(a + b, s)
    ensures k <= |s| && Matches(a, s[..k]) && Matches(b, s[k..])
    decreases |a|
  {
    if a == [] {
      k := 0;
      assert a + b == b && s[0..] == s;
    } else {
      assert (a + b)[1..] == a[1..] + b;
      if a[0] == '*' {
        var skip :| 0 <= skip <= |s| && Matches(a[1..] + b, s[skip..]);
        var more := SplitMatch(a[1..], b, s[skip..]);
        k := skip + more;
        assert s[..k][skip..] == s[skip..][..more] && s[skip..][more..] == s[k..];
      } else {
        var more := SplitMatch(a[1..], b, s[1..]);
        k := 1 + more;
        assert s[..k][1..] == s[1..][..more] && s[1..][more..] == s[k..];
      }
    }
  }

  lemma {:induction false} JoinMatch(a: string, b: string, s: string, k: nat)
    requires k <= |s| && Matches(a, s[..k]) && Matches(b, s[k..])
    ensures Matches(a + b, s)
    decreases |a|
  {
    if a == [] {
      assert a + b == b && s[0..] == s;
    } else {
      assert (a + b)[1..] == a[1..] + b;
      if a[0] == '*' {
        var skip :| 0 <= skip <= k && Matches(a[1..], s[..k][skip..]);
        assert s[..k][skip..] == s[skip..][..k - skip] && s[skip..][k - skip..] == s[k..];
        JoinMatch(a[1..], b, s[skip..], k - skip);
      } else {
        assert s[..k][1..] == s[1..][..k - 1] && s[1..][k - 1..] == s[k..];
        JoinMatch(a[1..], b, s[1..], k - 1);
      }
    }
  }

  function TranslateChar(c: char): string {
    if c == '%' || c == '_' then ['\\', c]
    else if c == '*' then "%"
    else if c == '?' then "_"
    else [c]
  }

  function Translate(glob: string): string {
    if glob == [] then [] else TranslateChar(glob[0]) + Translate(glob[1..])
  }

  lemma {:induction false} TranslateSnoc(glob: string, c: char)
    ensures Translate(glob + [c]) == Translate(glob) + TranslateChar(c)
  {
    if glob == [] {
      assert glob + [c] == [c] && [c][1..] == [];
    } else {
      TranslateSnoc(glob[1..], c);
      assert (glob + [c])[1..] == glob[1..] + [c];
    }
  }

  method LikePattern(globPattern: string) returns (pattern: string)
    ensures pattern == Translate(globPattern)
    ensures '\\' !in globPattern ==> forall s :: Like(pattern, s) <==> Matches(globPattern, s)
  {
    pattern := "";
    for i := 0 to |globPattern|
      invariant pattern == Translate(globPattern[..i])
    {
      var c := globPattern[i];
      TranslateSnoc(globPattern[..i], c);
      assert globPattern[..i] + [c] == globPattern[..i + 1];
      if c == '%' || c == '_' {
        pattern := pattern + ['\\', c];
      } else if c == '*' {
        pattern := pattern + "%";
      } else if c == '?' {
        pattern := pattern + "_";
      } else {
        pattern := pattern + [c];
      }
    }
    assert globPattern[..|globPattern|] == globPattern;
    if '\\' !in globPattern {
      forall s {
        BackslashFreeExact(globPattern, s);
      }
    }
  }

  // One step of LIKE for each kind of pattern element.

  lemma LikeAnySequence(rest: string, s: string, k: nat)
    requires k <= |s| && Like(rest, s[k..])
    ensures Like("%" + rest, s)
  {
    assert ("%" + rest)[1..] == rest;
  }

  lemma LikeAnyCharacter(rest: string, s: string)
    ensures Like("_" + rest, s) <==> s != [] && Like(rest, s[1..])
  {
    assert ("_" + rest)[1..] == rest;
  }

  lemma LikeEscape(c: char, rest: string, s: string)
    ensures Like(['\\', c] + rest, s) <==> s != [] && s[0] == c && Like(rest, s[1..])
  {
    assert (['\\', c] + rest)[2..] == rest;
  }

  lemma LikeLiteral(c: char, rest: string, s: string)
    requires c !in "%_\\"
    ensures Like([c] + rest, s) <==> s != [] && s[0] == c && Like(rest, s[1..])
  {
    assert ([c] + rest)[1..] == rest;
  }

  lemma {:induction false} BackslashFreeExact(glob: string, s: string)
    requires '\\' !in glob
    ensures Like(Translate(glob), s) <==> Matches(glob, s)
    decreases |glob|
  {
    if glob == [] {
    } else {
      var c := glob[0];
      var rest := Translate(glob[1..]);
      if c == '*' {
        assert ("%" + rest)[1..] == rest;
        forall k | 0 <= k <= |s| {
          BackslashFreeExact(glob[1..], s[k..]);
        }
      } else {
        if s != [] {
          BackslashFreeExact(glob[1..], s[1..]);
        }
        if c == '?' {
          LikeAnyCharacter(rest, s);
        } else if c == '%' || c == '_' {
          LikeEscape(c, rest, s);
        } else {
          LikeLiteral(c, rest, s);
        }
      }
    }
  }

  // ----- Patterns with a backslash -----
  //
  // Weigh a string by its backslashes (2 each) and its `%` and `_` (1 each).
  // Every string a glob matches weighs at least as much as the glob's own
  // literal characters; a backslash lets LIKE accept something lighter.

  function CharWeight(c: char): nat {
    if c == '\\' then 2 else if c == '%' || c == '_' then 1 else 0
  }

  function Weight(s: string): nat {
    if s == [] then 0 else CharWeight(s[0]) + Weight(s[1..])
  }

  lemma {:induction false} SuffixWeighsLess(s: string, k: nat)
    requires k <= |s|
    ensures Weight(s[k..]) <= Weight(s)
  {
    if k == 0 {
      assert s[0..] == s;
    } else {
      SuffixWeighsLess(s[1..], k - 1);
      assert s[1..][k - 1..] == s[k..];
    }
  }

  lemma {:induction false} MatchWeighsMore(glob: string, s: string)
    requires Matches(glob, s)
    ensures Weight(s) >= Weight(glob)
    decreases |glob|
  {
    if glob == [] {
    } else {
      if glob[0] == '*' {
        var k :| 0 <= k <= |s| && Matches(glob[1..], s[k..]);
        MatchWeighsMore(glob[1..], s[k..]);
        SuffixWeighsLess(s, k);
      } else {
        MatchWeighsMore(glob[1..], s[1..]);
      }
    }
  }

  /** Reading escapes from the left, the pattern ends in a lone backslash. */
  predicate Dangling(glob: string) {
    glob != [] &&
    if glob[0] == '\\' then |glob| == 1 || Dangling(glob[2..]) else Dangling(glob[1..])
  }

  /** What the escaped character `\c` of a glob stands for once it is in a LIKE pattern. */
  function EscapedFill(c: char): (r: string)
    ensures Weight(r) < 2 + CharWeight(c)
  {
    if c == '*' then "%"
    else if c == '?' then "_"
    else if c == '%' then "\\"
    else if c == '_' then assert "\\x"[1..] == "x"; "\\x"
    else [c]
  }

  function PlainFill(c: char): (r: string)
    ensures Weight(r) == CharWeight(c)
  {
    if c == '*' then [] else if c == '?' then "x" else [c]
  }

  /** A light string that the LIKE pattern of a glob accepts. */
  function LikeFill(glob: string): string
    requires !Dangling(glob)
  {
    if glob == [] then []
    else if glob[0] == '\\' then EscapedFill(glob[1]) + LikeFill(glob[2..])
    else PlainFill(glob[0]) + LikeFill(glob[1..])
  }

  lemma {:induction false} WeightConcat(a: string, b: string)
    ensures Weight(a + b) == Weight(a) + Weight(b)
  {
    if a == [] {
      assert a + b == b;
    } else {
      WeightConcat(a[1..], b);
      assert (a + b)[1..] == a[1..] + b;
    }
  }

  lemma {:induction false} LikeFillIsLight(glob: string)
    requires !Dangling(glob)
    ensures Weight(LikeFill(glob)) <= Weight(glob)
    ensures '\\' in glob ==> Weight(LikeFill(glob)) < Weight(glob)
    decreases |glob|
  {
    if glob == [] {
    } else {
      if glob[0] == '\\' {
        LikeFillIsLight(glob[2..]);
        WeightConcat(EscapedFill(glob[1]), LikeFill(glob[2..]));
        assert glob[1..][1..] == glob[2..];
      } else {
        LikeFillIsLight(glob[1..]);
        WeightConcat(PlainFill(glob[0]), LikeFill(glob[1..]));
      }
    }
  }

  /** A backslash and the translated character after it, as one LIKE element. */
  lemma LikeAfterBackslash(c: char, rest: string, s: string)
    ensures var p := ['\\'] + TranslateChar(c) + rest;
            if c == '%' then Like(p, s) <==> s != [] && s[0] == '\\' && Like("%" + rest, s[1..])
            else if c == '_' then Like(p, s) <==> s != [] && s[0] == '\\' && Like("_" + rest, s[1..])
            else Like(p, s) <==> s != [] && s[0] == TranslateChar(c)[0] && Like(rest, s[1..])
  {
    var p := ['\\'] + TranslateChar(c) + rest;
    if c == '%' || c == '_' {
      assert p == ['\\', '\\'] + ([c] + rest);
      LikeEscape('\\', [c] + rest, s);
    } else {
      assert p == ['\\', TranslateChar(c)[0]] + rest;
      LikeEscape(TranslateChar(c)[0], rest, s);
    }
  }

  lemma TranslateEscape(glob: string)
    requires |glob| > 1 && glob[0] == '\\'
    ensures Translate(glob) == ['\\'] + TranslateChar(glob[1]) + Translate(glob[2..])
  {
    assert glob[1..][1..] == glob[2..];
  }

  lemma {:induction false} LikeFillAccepted(glob: string)
    requires !Dangling(glob)
    ensures Like(Translate(glob), LikeFill(glob))
    decreases |glob|
  {
    if glob == [] {
    } else if glob[0] == '\\' {
      LikeFillAccepted(glob[2..]);
      TranslateEscape(glob);
      LikeEscapedFill(glob[1], Translate(glob[2..]), LikeFill(glob[2..]));
    } else {
      LikeFillAccepted(glob[1..]);
      LikePlainFill(glob[0], Translate(glob[1..]), LikeFill(glob[1..]));
    }
  }

  lemma LikeEscapedFill(c: char, rest: string, f: string)
    requires Like(rest, f)
    ensures Like(['\\'] + TranslateChar(c) + rest, EscapedFill(c) + f)
  {
    var s := EscapedFill(c) + f;
    LikeAfterBackslash(c, rest, s);
    if c == '%' {
      assert s[1..] == f && f[0..] == f;
      LikeAnySequence(rest, f, 0);
    } else if c == '_' {
      assert s[1..][1..] == f;
      LikeAnyCharacter(rest, s[1..]);
    } else {
      assert s[1..] == f;
    }
  }

  lemma LikePlainFill(c: char, rest: string, f: string)
    requires c != '\\' && Like(rest, f)
    ensures Like(TranslateChar(c) + rest, PlainFill(c) + f)
  {
    if c == '*' {
      assert [] + f == f && f[0..] == f;
      LikeAnySequence(rest, f, 0);
    } else if c == '?' {
      assert ("x" + f)[1..] == f;
      LikeAnyCharacter(rest, "x" + f);
    } else {
      assert ([c] + f)[1..] == f;
      LikeEscape(c, rest, [c] + f);
      if c != '%' && c != '_' {
        LikeLiteral(c, rest, [c] + f);
      }
    }
  }

  lemma {:induction false} DanglingAcceptsNothing(glob: string, s: string)
    requires Dangling(glob)
    ensures !Like(Translate(glob), s)
    decreases |glob|
  {
    if |glob| <= 1 {
    } else {
      var n := if glob[0] == '\\' then 2 else 1;
      var rest := Translate(glob[n..]);
      forall t
        ensures !Like(rest, t)
      {
        DanglingAcceptsNothing(glob[n..], t);
      }
      if glob[0] == '\\' {
        TranslateEscape(glob);
        LikeAfterBackslash(glob[1], rest, s);
        NothingPrefixed(rest);
      } else {
        NothingPrefixed(rest);
        if glob[0] == '%' || glob[0] == '_' {
          LikeEscape(glob[0], rest, s);
        } else if glob[0] != '*' && glob[0] != '?' {
          LikeLiteral(glob[0], rest, s);
        }
      }
    }
  }

  lemma NothingPrefixed(rest: string)
    requires forall t :: !Like(rest, t)
    ensures forall t :: !Like("%" + rest, t) && !Like("_" + rest, t)
  {
    forall t
      ensures !Like("%" + rest, t) && !Like("_" + rest, t)
    {
      assert ("%" + rest)[1..] == rest && ("_" + rest)[1..] == rest;
    }
  }

  /** Every glob matches something: `*` as nothing, `?` as itself. */
  function SelfFill(glob: string): string {
    if glob == [] then []
    else if glob[0] == '*' then SelfFill(glob[1..])
    else [glob[0]] + SelfFill(glob[1..])
  }

  lemma {:induction false} SelfFillMatches(glob: string)
    ensures Matches(glob, SelfFill(glob))
  {
    if glob == [] {
    } else {
      var f := SelfFill(glob);
      SelfFillMatches(glob[1..]);
      if glob[0] == '*' {
        assert f[0..] == f;
      } else {
        assert f[1..] == SelfFill(glob[1..]);
      }
    }
  }

  /**
   The translation is exact on the strings it is asked about if and only if
   the glob has no backslash.
   */
  lemma LikePatternExactIff(glob: string)
    ensures (forall s :: Like(Translate(glob), s) <==> Matches(glob, s)) <==> '\\' !in glob
  {
    if '\\' !in glob {
      forall s {
        BackslashFreeExact(glob, s);
      }
    } else if Dangling(glob) {
      DanglingAcceptsNothing(glob, SelfFill(glob));
      SelfFillMatches(glob);
    } else {
      LikeFillAccepted(glob);
      LikeFillIsLight(glob);
      assert !Matches(glob, LikeFill(glob)) by {
        if Matches(glob, LikeFill(glob)) {
          MatchWeighsMore(glob, LikeFill(glob));
        }
      }
    }
  }
}
