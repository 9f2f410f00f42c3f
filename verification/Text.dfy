/** The string helpers of the Go library that the modelled code calls.
    A string is a sequence of code points. */
module Text {

  type Byte = x: int | 0 <= x < 256

  /** The white space that strings.TrimSpace removes (unicode.IsSpace). */
  predicate IsSpace(c: char) {
    || c == ' ' || c == '\t' || c == '\n' || c == '\r'
    || c == '\U{0B}' || c == '\U{0C}' || c == '\U{85}' || c == '\U{A0}'
    || c == '\U{1680}' || '\U{2000}' <= c <= '\U{200A}'
    || c == '\U{2028}' || c == '\U{2029}' || c == '\U{202F}' || c == '\U{205F}' || c == '\U{3000}'
  }

  /** The cut set " \t". */
  predicate IsBlank(c: char) {
    c == ' ' || c == '\t'
  }

  function TrimRight(s: string, cut: char -> bool): string {
    if s != "" && cut(s[|s| - 1]) then TrimRight(s[..|s| - 1], cut) else s
  }

  function TrimLeft(s: string, cut: char -> bool): string {
    if s != "" && cut(s[0]) then TrimLeft(s[1..], cut) else s
  }

  function TrimSpace(s: string): string {
    TrimRight(TrimLeft(s, IsSpace), IsSpace)
  }

  predicate HasPrefix(s: string, prefix: string) {
    prefix <= s
  }

  predicate HasSuffix(s: string, suffix: string) {
    |suffix| <= |s| && s[|s| - |suffix|..] == suffix
  }

  function TrimPrefix(s: string, prefix: string): string {
    if HasPrefix(s, prefix) then s[|prefix|..] else s
  }

  function TrimSuffix(s: string, suffix: string): string {
    if HasSuffix(s, suffix) then s[..|s| - |suffix|] else s
  }

  predicate ContainsAny(s: string, chars: string) {
    exists i | 0 <= i < |s| :: s[i] in chars
  }

  /** The start of the last occurrence of `sub` in `s`, or -1. */
  function LastIndex(s: string, sub: string): (i: int)
    ensures -1 <= i
    ensures i >= 0 ==> i + |sub| <= |s| && sub <= s[i..]
    ensures forall j | i < j <= |s| :: !(sub <= s[j..])
  {
    LastIndexUpTo(s, sub, |s|)
  }

  function LastIndexUpTo(s: string, sub: string, n: nat): (i: int)
    requires n <= |s|
    ensures -1 <= i <= n
    ensures i >= 0 ==> sub <= s[i..]
    ensures forall j | i < j <= n :: !(sub <= s[j..])
  {
    if sub <= s[n..] then n else if n == 0 then -1 else LastIndexUpTo(s, sub, n - 1)
  }

  function Join(parts: seq<string>, sep: string): string {
    if |parts| == 0 then ""
    else if |parts| == 1 then parts[0]
    else parts[0] + sep + Join(parts[1..], sep)
  }

  /** strings.ReplaceAll for a non-empty `pattern`: leftmost, non-overlapping. */
  function ReplaceAll(s: string, pattern: string, with: string): string
    requires pattern != ""
    decreases |s|
  {
    if |s| < |pattern| then s
    else if HasPrefix(s, pattern) then with + ReplaceAll(s[|pattern|..], pattern, with)
    else [s[0]] + ReplaceAll(s[1..], pattern, with)
  }

  lemma ReplaceHead(pattern: string, with: string, rest: string)
    requires pattern != ""
    ensures ReplaceAll(pattern + rest, pattern, with) == with + ReplaceAll(rest, pattern, with)
  {
    assert (pattern + rest)[|pattern|..] == rest;
  }

  lemma ReplaceSkip(c: char, pattern: string, with: string, rest: string)
    requires |pattern| >= 1 && (pattern[0] != c || (|pattern| >= 2 && (rest == "" || rest[0] != pattern[1])))
    ensures ReplaceAll([c] + rest, pattern, with) == [c] + ReplaceAll(rest, pattern, with)
  {
    assert ([c] + rest)[1..] == rest;
    assert rest != "" ==> ([c] + rest)[1] == rest[0];
  }

  /** Decimal digits of a number (%d). */
  function Decimal(n: nat): string {
    if n < 10 then [Digit(n)] else Decimal(n / 10) + [Digit(n % 10)]
  }

  function Digit(n: nat): char
    requires n < 10
  {
    "0123456789"[n]
  }

  // ---- what trimming does ----

  ghost predicate AllOf(s: string, cut: char -> bool) {
    forall c | c in s :: cut(c)
  }

  lemma {:induction false} TrimRightOf(s: string, tail: string, cut: char -> bool)
    requires AllOf(tail, cut) && (s == "" || !cut(s[|s| - 1]))
    ensures TrimRight(s + tail, cut) == s
  {
    if tail == "" {
      assert s + tail == s;
    } else {
      var front, all := tail[..|tail| - 1], s + tail;
      assert all[|all| - 1] == tail[|tail| - 1] && tail[|tail| - 1] in tail;
      assert all[..|all| - 1] == s + front && forall c | c in front :: c in tail;
      TrimRightOf(s, front, cut);
    }
  }

  lemma {:induction false} TrimLeftOf(head: string, s: string, cut: char -> bool)
    requires AllOf(head, cut) && (s == "" || !cut(s[0]))
    ensures TrimLeft(head + s, cut) == s
  {
    if head == "" {
      assert head + s == s;
    } else {
      var all := head + s;
      assert all[0] == head[0] && head[0] in head;
      assert all[1..] == head[1..] + s && forall c | c in head[1..] :: c in head;
      TrimLeftOf(head[1..], s, cut);
    }
  }

  /** White space around a text is trimmed, and nothing else. */
  lemma TrimSpaceOf(head: string, s: string, tail: string)
    requires AllOf(head, IsSpace) && AllOf(tail, IsSpace) && s != "" && !IsSpace(s[0]) && !IsSpace(s[|s| - 1])
    ensures TrimSpace(head + s + tail) == s
  {
    hide IsSpace;
    assert head + s + tail == head + (s + tail);
    TrimLeftOf(head, s + tail, IsSpace);
    TrimRightOf(s, tail, IsSpace);
  }

  lemma {:induction false} TrimRightParts(s: string, cut: char -> bool) returns (tail: string)
    ensures s == TrimRight(s, cut) + tail && AllOf(tail, cut)
    ensures TrimRight(s, cut) == "" || !cut(TrimRight(s, cut)[|TrimRight(s, cut)| - 1])
  {
    tail := "";
    if s != "" && cut(s[|s| - 1]) {
      tail := TrimRightParts(s[..|s| - 1], cut);
      tail := tail + [s[|s| - 1]];
    }
  }
}
