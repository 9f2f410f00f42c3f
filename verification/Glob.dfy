/** Glob patterns of message matchers (matchGlob in internal/handler/registry.go). The pattern is
    compiled to the text of a regular expression. The fragment of Go's regular expressions that
    this text can use is read and run here. */
module Glob {
  import opened Text
  import opened Wrappers

  // ---- the compiler ----

  /** The characters that regexp.QuoteMeta escapes. */
  const META := "\\.+*?()|[]{}^$"

  function QuoteMeta(s: string): string {
    if s == "" then ""
    else (if s[0] in META then ['\\', s[0]] else [s[0]]) + QuoteMeta(s[1..])
  }

  function RegexBody(pattern: string): string {
    ReplaceAll(ReplaceAll(QuoteMeta(pattern), "\\*", "(.*)"), "\\?", "(.)")
  }

  function RegexText(pattern: string): string {
    "^(?s:" + RegexBody(pattern) + ")$"
  }

  // ---- the regular expressions it emits ----

  /** (.*) and (.) are groups; in single-line mode the dot matches every character. */
  datatype Atom = Literal(c: char) | AnyChar | AnyText

  function ParseBody(text: string): Option<seq<Atom>>
    decreases |text|
  {
    if text == "" then Some([])
    else if text[0] == '\\' then
      if |text| > 1 && text[1] in META then Cons(Literal(text[1]), ParseBody(text[2..])) else None
    else if "(.*)" <= text then Cons(AnyText, ParseBody(text[4..]))
    else if "(.)" <= text then Cons(AnyChar, ParseBody(text[3..]))
    else if text[0] in META then None
    else Cons(Literal(text[0]), ParseBody(text[1..]))
  }

  function Cons(a: Atom, rest: Option<seq<Atom>>): Option<seq<Atom>> {
    if rest.None? then None else Some([a] + rest.value)
  }

  function Parse(text: string): Option<seq<Atom>> {
    if HasPrefix(text, "^(?s:") && HasSuffix(text, ")$") && |text| >= 7 then ParseBody(text[5..|text| - 2])
    else None
  }

  /** The groups of the match that a backtracking matcher prefers: every (.*) takes as much as
      lets the rest match. The expression is anchored at both ends. */
  function Captures(atoms: seq<Atom>, msg: string): Option<seq<string>>
    decreases |atoms|, |msg| + 1
  {
    if atoms == [] then if msg == "" then Some([]) else None
    else match atoms[0]
      case Literal(c) => if msg != "" && msg[0] == c then Captures(atoms[1..], msg[1..]) else None
      case AnyChar => if msg != "" then Prepend([msg[0]], Captures(atoms[1..], msg[1..])) else None
      case AnyText => Longest(atoms, msg, |msg|)
  }

  /** The leading (.*) takes at most n characters. */
  function Longest(atoms: seq<Atom>, msg: string, n: nat): Option<seq<string>>
    requires atoms != [] && n <= |msg|
    decreases |atoms|, n
  {
    var rest := Captures(atoms[1..], msg[n..]);
    if rest.Some? then Prepend(msg[..n], rest)
    else if n == 0 then None
    else Longest(atoms, msg, n - 1)
  }

  function Prepend(s: string, rest: Option<seq<string>>): Option<seq<string>> {
    if rest.None? then None else Some([s] + rest.value)
  }

  datatype Verdict = BadPattern | NoMatch | Matched(captures: seq<string>)

  function MatchGlob(pattern: string, msg: string): Verdict {
    var regex := Parse(RegexText(pattern));
    if regex.None? then BadPattern
    else
      var captures := Captures(regex.value, msg);
      if captures.None? then NoMatch else Matched(captures.value)
  }

  // ---- what a glob means ----

  function Atoms(pattern: string): seq<Atom> {
    if pattern == "" then []
    else [if pattern[0] == '*' then AnyText else if pattern[0] == '?' then AnyChar else Literal(pattern[0])]
         + Atoms(pattern[1..])
  }

  predicate GlobMatches(pattern: string, msg: string)
    decreases |pattern| + |msg|
  {
    if pattern == "" then msg == ""
    else if pattern[0] == '*' then
      GlobMatches(pattern[1..], msg) || (msg != "" && GlobMatches(pattern, msg[1..]))
    else msg != "" && (pattern[0] == '?' || pattern[0] == msg[0]) && GlobMatches(pattern[1..], msg[1..])
  }

  /** The pattern with its wildcards replaced by the captures, one after the other. */
  function Refill(pattern: string, captures: seq<string>): string {
    if pattern == "" then ""
    else if pattern[0] in "*?" && captures != [] then captures[0] + Refill(pattern[1..], captures[1..])
    else [pattern[0]] + Refill(pattern[1..], captures)
  }

  /** One capture for every wildcard, of length one for `?`. */
  predicate Fits(pattern: string, captures: seq<string>) {
    if pattern == "" then captures == []
    else if pattern[0] in "*?" then
      captures != [] && (pattern[0] == '?' ==> |captures[0]| == 1) && Fits(pattern[1..], captures[1..])
    else Fits(pattern[1..], captures)
  }

  /** Where two lists of captures first differ, the first has the longer one. */
  predicate Greedier(a: seq<string>, b: seq<string>) {
    a == [] || b == [] || |a[0]| > |b[0]| || (|a[0]| == |b[0]| && Greedier(a[1..], b[1..]))
  }

  // ---- compiling preserves meaning ----

  function Quoted(c: char): string {
    if c in META then ['\\', c] else [c]
  }

  /** The text of one character after the first, then after both replacements. */
  function StarReplaced(c: char): string {
    if c == '*' then "(.*)" else Quoted(c)
  }

  function BothReplaced(c: char): string {
    if c == '?' then "(.)" else StarReplaced(c)
  }

  function Each(s: string, f: char -> string): string {
    if s == "" then "" else f(s[0]) + Each(s[1..], f)
  }

  lemma {:induction false} QuoteMetaEach(s: string)
    ensures QuoteMeta(s) == Each(s, Quoted)
    ensures s != "" ==> Quoted(s[0])[0] == Each(s, Quoted)[0]
  {
    if s != "" {
      QuoteMetaEach(s[1..]);
    }
  }

  /** No text of a character starts with a bare star, so an escaped star is never misread. */
  lemma NeverStartsBare(s: string)
    requires s != ""
    ensures Each(s, Quoted) != "" && Each(s, Quoted)[0] != '*'
    ensures Each(s, StarReplaced) != "" && Each(s, StarReplaced)[0] != '?'
  {
  }

  lemma StarReplacedOnce(c: char, rest: string)
    requires rest == "" || rest[0] != '*'
    ensures ReplaceAll(Quoted(c) + rest, "\\*", "(.*)") == StarReplaced(c) + ReplaceAll(rest, "\\*", "(.*)")
  {
    hide ReplaceAll;
    if c == '*' {
      ReplaceHead("\\*", "(.*)", rest);
      assert Quoted(c) == "\\*";
    } else {
      ReplaceSkip(c, "\\*", "(.*)", rest);
      EscapeSkipped(c, "\\*", "(.*)", rest);
    }
  }

  lemma QuestionReplacedOnce(c: char, rest: string)
    requires rest == "" || rest[0] != '?'
    ensures ReplaceAll(StarReplaced(c) + rest, "\\?", "(.)") == BothReplaced(c) + ReplaceAll(rest, "\\?", "(.)")
  {
    hide ReplaceAll;
    if c == '?' {
      ReplaceHead("\\?", "(.)", rest);
      assert StarReplaced(c) == "\\?";
    } else if c == '*' {
      SkipGroup(rest);
    } else {
      ReplaceSkip(c, "\\?", "(.)", rest);
      EscapeSkipped(c, "\\?", "(.)", rest);
    }
  }

  lemma EscapeSkipped(c: char, pattern: string, with: string, rest: string)
    requires |pattern| == 2 && pattern[1] != c && (rest == "" || rest[0] != pattern[1])
    ensures ReplaceAll(['\\', c] + rest, pattern, with) == ['\\', c] + ReplaceAll(rest, pattern, with)
  {
    ReplaceSkip(c, pattern, with, rest);
    ReplaceSkip('\\', pattern, with, [c] + rest);
    hide ReplaceAll;
    assert ['\\'] + ([c] + rest) == ['\\', c] + rest;
    var out := ReplaceAll(rest, pattern, with);
    assert ['\\'] + ([c] + out) == ['\\', c] + out;
  }

  lemma {:induction false} StarsReplaced(s: string)
    ensures ReplaceAll(Each(s, Quoted), "\\*", "(.*)") == Each(s, StarReplaced)
  {
    if s != "" {
      hide ReplaceAll, Quoted, StarReplaced;
      StarsReplaced(s[1..]);
      if s[1..] != "" {
        NeverStartsBare(s[1..]);
      }
      StarReplacedOnce(s[0], Each(s[1..], Quoted));
    }
  }

  lemma {:induction false} QuestionsReplaced(s: string)
    ensures ReplaceAll(Each(s, StarReplaced), "\\?", "(.)") == Each(s, BothReplaced)
  {
    if s != "" {
      hide ReplaceAll, StarReplaced, BothReplaced;
      QuestionsReplaced(s[1..]);
      if s[1..] != "" {
        NeverStartsBare(s[1..]);
      }
      QuestionReplacedOnce(s[0], Each(s[1..], StarReplaced));
    }
  }

  lemma SkipGroup(rest: string)
    ensures ReplaceAll("(.*)" + rest, "\\?", "(.)") == "(.*)" + ReplaceAll(rest, "\\?", "(.)")
  {
    hide ReplaceAll;
    var out := ReplaceAll(rest, "\\?", "(.)");
    var a, b, c, d := [')'] + rest, ['*', ')'] + rest, ['.', '*', ')'] + rest, "(.*)" + rest;
    ReplaceSkip(')', "\\?", "(.)", rest);
    assert b == ['*'] + a;
    ReplaceSkip('*', "\\?", "(.)", a);
    assert c == ['.'] + b;
    ReplaceSkip('.', "\\?", "(.)", b);
    assert d == ['('] + c;
    ReplaceSkip('(', "\\?", "(.)", c);
    assert "(.*)" + out == ['('] + (['.'] + (['*'] + ([')'] + out)));
  }

  lemma {:induction false} ParseEach(s: string)
    ensures ParseBody(Each(s, BothReplaced)) == Some(Atoms(s))
  {
    if s != "" {
      var c, rest := s[0], Each(s[1..], BothReplaced);
      ParseEach(s[1..]);
      ParseOne(c, rest);
    }
  }

  lemma ParseOne(c: char, rest: string)
    ensures ParseBody(BothReplaced(c) + rest)
         == Cons(if c == '*' then AnyText else if c == '?' then AnyChar else Literal(c), ParseBody(rest))
  {
    var text := BothReplaced(c) + rest;
    if c == '*' {
      assert text[4..] == rest && "(.*)" <= text;
    } else if c == '?' {
      assert text[3..] == rest && "(.)" <= text && text[2] == ')';
    } else if c in META {
      assert text[0] == '\\' && text[1] == c && text[2..] == rest;
    } else {
      assert text[0] == c && text[1..] == rest;
      assert '\\' in META && '(' in META;
    }
  }

  /** The emitted text is always a regular expression and reads back as the pattern: every
      character for itself, also backslashes, brackets and dots, and the wildcards as groups. */
  lemma CompiledReadsBack(pattern: string)
    ensures Parse(RegexText(pattern)) == Some(Atoms(pattern))
  {
    QuoteMetaEach(pattern);
    StarsReplaced(pattern);
    QuestionsReplaced(pattern);
    ParseEach(pattern);
    hide RegexBody, ParseBody, Atoms;
    var text := RegexText(pattern);
    assert text[5..|text| - 2] == RegexBody(pattern);
    assert text[|text| - 2..] == ")$";
    assert RegexBody(pattern) == Each(pattern, BothReplaced) by {
      RegexBodyEach(pattern);
    }
  }

  lemma RegexBodyEach(pattern: string)
    ensures RegexBody(pattern) == Each(pattern, BothReplaced)
  {
    QuoteMetaEach(pattern);
    StarsReplaced(pattern);
    QuestionsReplaced(pattern);
  }

  // ---- matching ----

  lemma CapturesOfFirst(pattern: string, msg: string)
    requires pattern != ""
    ensures var rest := if msg == "" then None else Captures(Atoms(pattern[1..]), msg[1..]);
            var first := if pattern[0] == '*' then Longest(Atoms(pattern), msg, |msg|)
                         else if msg == "" then None
                         else if pattern[0] == '?' then Prepend([msg[0]], rest)
                         else if pattern[0] == msg[0] then rest
                         else None;
            Captures(Atoms(pattern), msg) == first
  {
    assert Atoms(pattern)[1..] == Atoms(pattern[1..]);
    hide Longest;
  }

  lemma CharTakes(pattern: string, msg: string, captures: seq<string>)
    requires pattern != "" && msg != "" && pattern[0] != '*' && (pattern[0] == '?' || pattern[0] == msg[0])
    requires Fits(pattern[1..], captures) && Refill(pattern[1..], captures) == msg[1..]
    ensures var c := if pattern[0] == '?' then [[msg[0]]] + captures else captures;
            Fits(pattern, c) && Refill(pattern, c) == msg
  {
    assert ([[msg[0]]] + captures)[1..] == captures;
    assert [msg[0]] + msg[1..] == msg;
  }

  /** Captures that the matcher finds fill the pattern up to the message. */
  lemma {:induction false} CapturesFill(pattern: string, msg: string)
    ensures var c := Captures(Atoms(pattern), msg);
            c.Some? ==> Fits(pattern, c.value) && Refill(pattern, c.value) == msg
    decreases |pattern|, |msg| + 1
  {
    if pattern != "" {
      CapturesOfFirst(pattern, msg);
      hide Longest, Captures, Atoms, Fits, Refill;
      if pattern[0] == '*' {
        LongestFills(pattern, msg, |msg|);
      } else if msg != "" && (pattern[0] == '?' || pattern[0] == msg[0]) {
        CapturesFill(pattern[1..], msg[1..]);
        var rest := Captures(Atoms(pattern[1..]), msg[1..]);
        if rest.Some? {
          CharTakes(pattern, msg, rest.value);
        }
      }
    }
  }

  lemma StarTakes(pattern: string, msg: string, n: nat, captures: seq<string>)
    requires pattern != "" && pattern[0] == '*' && n <= |msg|
    requires Fits(pattern[1..], captures) && Refill(pattern[1..], captures) == msg[n..]
    ensures Fits(pattern, [msg[..n]] + captures) && Refill(pattern, [msg[..n]] + captures) == msg
  {
    assert ([msg[..n]] + captures)[1..] == captures;
    assert msg[..n] + msg[n..] == msg;
  }

  lemma {:induction false} LongestFills(pattern: string, msg: string, n: nat)
    requires pattern != "" && pattern[0] == '*' && n <= |msg|
    ensures var c := Longest(Atoms(pattern), msg, n);
            c.Some? ==> Fits(pattern, c.value) && Refill(pattern, c.value) == msg
    decreases |pattern|, n
  {
    var rest := pattern[1..];
    assert Atoms(pattern)[1..] == Atoms(rest);
    hide Fits, Refill, Captures, Atoms;
    CapturesFill(rest, msg[n..]);
    var found := Captures(Atoms(rest), msg[n..]);
    if found.Some? {
      StarTakes(pattern, msg, n, found.value);
    } else if n > 0 {
      LongestFills(pattern, msg, n - 1);
    }
  }

  /** Whatever fills the pattern up to the message, the matcher finds captures, and greedier ones. */
  lemma {:induction false} FillsAreFound(pattern: string, msg: string, fill: seq<string>)
    requires Fits(pattern, fill) && Refill(pattern, fill) == msg
    ensures var c := Captures(Atoms(pattern), msg); c.Some? && Greedier(c.value, fill)
    decreases |pattern|, |msg| + 1
  {
    if pattern != "" {
      var rest := pattern[1..];
      assert Atoms(pattern)[1..] == Atoms(rest);
      if pattern[0] == '*' {
        assert msg[|fill[0]|..] == Refill(rest, fill[1..]);
        LongestIsFound(pattern, msg, fill, |msg|);
      } else if pattern[0] == '?' {
        assert msg[1..] == Refill(rest, fill[1..]);
        FillsAreFound(rest, msg[1..], fill[1..]);
      } else {
        assert msg[1..] == Refill(rest, fill);
        FillsAreFound(rest, msg[1..], fill);
      }
    }
  }

  lemma {:induction false} LongestIsFound(pattern: string, msg: string, fill: seq<string>, n: nat)
    requires pattern != "" && pattern[0] == '*' && Fits(pattern, fill) && Refill(pattern, fill) == msg
    requires |fill[0]| <= n <= |msg|
    ensures var c := Longest(Atoms(pattern), msg, n); c.Some? && Greedier(c.value, fill)
    decreases |pattern|, n
  {
    var rest := pattern[1..];
    assert Atoms(pattern)[1..] == Atoms(rest);
    if n == |fill[0]| {
      assert msg[n..] == Refill(rest, fill[1..]);
      FillsAreFound(rest, msg[n..], fill[1..]);
    } else if Captures(Atoms(rest), msg[n..]).None? {
      LongestIsFound(pattern, msg, fill, n - 1);
    }
  }

  /** The direct relation holds exactly when some captures fill the pattern up to the message. */
  lemma {:induction false} GlobMatchesGivesFill(pattern: string, msg: string) returns (fill: seq<string>)
    requires GlobMatches(pattern, msg)
    ensures Fits(pattern, fill) && Refill(pattern, fill) == msg
    decreases |pattern| + |msg|
  {
    if pattern == "" {
      return [];
    }
    if pattern[0] == '*' {
      if GlobMatches(pattern[1..], msg) {
        fill := GlobMatchesGivesFill(pattern[1..], msg);
        assert "" + Refill(pattern[1..], fill) == msg;
        fill := [""] + fill;
      } else {
        fill := GlobMatchesGivesFill(pattern, msg[1..]);
        var longer := [[msg[0]] + fill[0]] + fill[1..];
        assert Refill(pattern, longer) == [msg[0]] + fill[0] + Refill(pattern[1..], fill[1..]);
        assert [msg[0]] + msg[1..] == msg;
        fill := longer;
      }
    } else {
      fill := GlobMatchesGivesFill(pattern[1..], msg[1..]);
      assert [msg[0]] + msg[1..] == msg;
      if pattern[0] == '?' {
        fill := [[msg[0]]] + fill;
      }
    }
  }

  lemma {:induction false} FillGivesGlobMatches(pattern: string, fill: seq<string>)
    requires Fits(pattern, fill)
    ensures GlobMatches(pattern, Refill(pattern, fill))
    decreases |pattern|, if fill == [] then 0 else |fill[0]|
  {
    if pattern != "" {
      var msg := Refill(pattern, fill);
      if pattern[0] == '*' {
        FillGivesGlobMatches(pattern[1..], fill[1..]);
        if fill[0] == "" {
          assert msg == Refill(pattern[1..], fill[1..]);
        } else {
          var shorter := [fill[0][1..]] + fill[1..];
          FillGivesGlobMatches(pattern, shorter);
          assert msg[1..] == Refill(pattern, shorter);
        }
      } else if pattern[0] == '?' {
        FillGivesGlobMatches(pattern[1..], fill[1..]);
        assert msg[1..] == Refill(pattern[1..], fill[1..]);
      } else {
        FillGivesGlobMatches(pattern[1..], fill);
        assert msg[1..] == Refill(pattern[1..], fill);
      }
    }
  }

  /** The whole of matchGlob: it never rejects a pattern, its verdict is the direct glob relation,
      and on a match the captures refill the wildcards to the message, each as long as the
      captures before it allow. */
  lemma GlobIsPreserved(pattern: string, msg: string)
    ensures MatchGlob(pattern, msg) != BadPattern
    ensures MatchGlob(pattern, msg).Matched? <==> GlobMatches(pattern, msg)
    ensures MatchGlob(pattern, msg).Matched? ==>
              var c := MatchGlob(pattern, msg).captures;
              && Fits(pattern, c) && Refill(pattern, c) == msg
              && forall fill | Fits(pattern, fill) && Refill(pattern, fill) == msg :: Greedier(c, fill)
  {
    CompiledReadsBack(pattern);
    CapturesFill(pattern, msg);
    hide Fits, Refill, Greedier, Captures, Atoms, GlobMatches, Parse, RegexText;
    forall fill | Fits(pattern, fill) && Refill(pattern, fill) == msg
      ensures Captures(Atoms(pattern), msg).Some? && Greedier(Captures(Atoms(pattern), msg).value, fill)
    {
      FillsAreFound(pattern, msg, fill);
    }
    if GlobMatches(pattern, msg) {
      var fill := GlobMatchesGivesFill(pattern, msg);
      FillsAreFound(pattern, msg, fill);
    }
    if Captures(Atoms(pattern), msg).Some? {
      FillGivesGlobMatches(pattern, Captures(Atoms(pattern), msg).value);
    }
  }
}
