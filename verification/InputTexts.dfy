/** What the input loop of Run (internal/repl/repl.go) makes of what is typed: a heredoc, a command
    continued with backslashes, a plain line. */
module InputTexts {
  import opened HistoryAgreement
  import opened HistoryBlocks
  import opened Text

  // ---- lines ----

  /** The line is split at its last mark. */
  ghost predicate SplitAtMark(line: string, head: string, rest: string) {
    line == head + "<<" + rest && forall j | |head| < j <= |line| :: !("<<" <= line[j..])
  }

  predicate IsDelimiter(s: string) {
    s != "" && forall c | c in s :: c !in [' ', '\t', '"', '\'']
  }

  lemma SpecialsAreFound(s: string)
    ensures s != "" && !ContainsAny(s, " \t\"'") <==> IsDelimiter(s)
  {
    if IsDelimiter(s) {
      assert forall i | 0 <= i < |s| :: s[i] in s;
    }
    if s != "" && !ContainsAny(s, " \t\"'") {
      forall c | c in s
        ensures c !in [' ', '\t', '"', '\'']
      {
        var i :| 0 <= i < |s| && s[i] == c;
        assert c !in " \t\"'";
      }
    }
  }

  /** A line opens a heredoc exactly if what follows its last mark is, without the white space around
      it, a delimiter: one word without quotes. What stands before the mark goes into the input. */
  lemma OpeningLineParts(line: string, head: string, rest: string)
    requires SplitAtMark(line, head, rest)
    ensures BeforeHeredoc(line) == head
    ensures HeredocDelimiter(line) == if IsDelimiter(TrimSpace(rest)) then TrimSpace(rest) else ""
  {
    var idx := LastIndex(line, "<<");
    assert line[|head|..] == "<<" + rest;
    assert "<<" <= line[|head|..];
    assert idx == |head|;
    assert line[idx + 2..] == rest && line[..idx] == head;
    SpecialsAreFound(TrimSpace(rest));
    hide TrimSpace, LastIndex, ContainsAny, IsDelimiter;
  }

  lemma NoMarkNoHeredoc(line: string)
    requires forall j | 0 <= j <= |line| :: !("<<" <= line[j..])
    ensures BeforeHeredoc(line) == line && HeredocDelimiter(line) == ""
  {
    var idx := LastIndex(line, "<<");
    assert idx == -1;
  }

  /** Every line is of one of the two kinds. */
  lemma LineHasMarkOrNot(line: string) returns (head: string, rest: string)
    ensures SplitAtMark(line, head, rest) || forall j | 0 <= j <= |line| :: !("<<" <= line[j..])
  {
    var idx := LastIndex(line, "<<");
    head, rest := "", "";
    if idx >= 0 {
      head, rest := line[..idx], line[idx + 2..];
      assert line[idx..][..2] == "<<";
      assert line == head + "<<" + rest;
    }
  }

  /** A line is continued exactly if, but for blanks, it ends in a backslash, which is cut off. */
  lemma ContinuedLine(line: string)
    ensures EndsInBackslash(line) <==>
              exists s, blanks :: line == s + "\\" + blanks && AllOf(blanks, IsBlank)
  {
    if EndsInBackslash(line) {
      var blanks := TrimRightParts(line, IsBlank);
      var t := TrimRight(line, IsBlank);
      assert t == t[..|t| - 1] + "\\";
      assert line == t[..|t| - 1] + "\\" + blanks;
    }
    if s, blanks :| line == s + "\\" + blanks && AllOf(blanks, IsBlank) {
      BackslashIsCut(s, blanks);
    }
  }

  lemma BackslashIsCut(s: string, blanks: string)
    requires AllOf(blanks, IsBlank)
    ensures EndsInBackslash(s + "\\" + blanks) && WithoutBackslash(s + "\\" + blanks) == s
  {
    var t := s + "\\";
    assert t[|t| - 1] == '\\' && t[|t| - 1..] == "\\" && t[..|t| - 1] == s;
    TrimRightOf(t, blanks, IsBlank);
  }

  // ---- inputs ----

  lemma {:induction false} PickItself(lines: seq<string>, group: seq<nat>, texts: seq<string>, f: string -> string)
    requires InRange(group, |lines|) && |texts| == |group|
    requires forall k | 0 <= k < |group| :: f(lines[group[k]]) == texts[k]
    ensures Pick(lines, group, f) == texts
  {
    if group != [] {
      PickItself(lines, group[1..], texts[1..], f);
    }
  }

  lemma LineIsItsInput(line: string)
    requires !EndsInBackslash(line) && HeredocDelimiter(line) == ""
    ensures Groups([line]) == [[0]] && InputOf([line], [0]) == line
  {
    hide EndsInBackslash, HeredocDelimiter, TrimSpace;
    assert [line][..0] == [];
    assert Assemble([line]) == AssembleLine(ASSEMBLY_START, line, 0);
    assert [[0]] + [] + [] == [[0]];
  }

  /** In the heredoc opened by the first of the lines, after k lines. */
  lemma {:induction false} InsideHeredoc(lines: seq<string>, k: nat)
    requires 1 <= k <= |lines| && HeredocDelimiter(lines[0]) != ""
    requires forall i | 0 <= i < k :: !EndsInBackslash(lines[i])
    requires forall i | 1 <= i < k :: TrimSpace(lines[i]) != HeredocDelimiter(lines[0])
    ensures Assemble(lines[..k]) == Assembly([], HeredocDelimiter(lines[0]), Indices(0, k), [])
    decreases k
  {
    hide EndsInBackslash, HeredocDelimiter, TrimSpace;
    AssembleNext(lines, k - 1);
    if k > 1 {
      InsideHeredoc(lines, k - 1);
      IndicesExtend(0, k - 1);
    } else {
      assert lines[..0] == [];
      assert [0] == Indices(0, 1);
    }
  }

  lemma OneGroup(lines: seq<string>, n: nat)
    requires |lines| == n + 1 && Assemble(lines) == Assembly([], "", [], [Indices(0, n) + [n]])
    ensures Groups(lines) == [Indices(0, n + 1)]
  {
    IndicesExtend(0, n);
    var group := Indices(0, n + 1);
    assert [group] + [] + [] == [group];
    hide Assemble;
  }

  lemma HeredocCloses(lines: seq<string>, n: nat)
    requires |lines| == n + 1 && n >= 1 && HeredocDelimiter(lines[0]) != ""
    requires forall i | 0 <= i <= n :: !EndsInBackslash(lines[i])
    requires forall i | 1 <= i < n :: TrimSpace(lines[i]) != HeredocDelimiter(lines[0])
    requires TrimSpace(lines[n]) == HeredocDelimiter(lines[0])
    ensures Groups(lines) == [Indices(0, n + 1)]
  {
    hide EndsInBackslash, HeredocDelimiter, TrimSpace, Indices, Assemble;
    InsideHeredoc(lines, n);
    AssembleNext(lines, n);
    assert lines[..n + 1] == lines;
    assert [] + [Indices(0, n) + [n]] == [Indices(0, n) + [n]];
    OneGroup(lines, n);
  }

  lemma HeredocText(lines: seq<string>, n: nat, head: string, body: seq<string>)
    requires |lines| == n + 1 && n == |body| + 1 && BeforeHeredoc(lines[0]) == head && !EndsInBackslash(lines[0])
    requires forall i | 1 <= i < n :: lines[i] == body[i - 1]
    ensures InputOf(lines, Indices(0, n + 1)) == Join([head] + body, "\n")
  {
    hide EndsInBackslash, BeforeHeredoc, Join;
    var group := Indices(0, n + 1);
    PickItself(lines, group[1..n], body, Itself);
    assert group[0] == 0;
  }

  /** A heredoc is one input: what stands before its mark, and the lines up to the delimiter. */
  lemma HeredocIsOneInput(opening: string, head: string, rest: string, body: seq<string>, closing: string)
    requires SplitAtMark(opening, head, rest) && IsDelimiter(TrimSpace(rest)) && !EndsInBackslash(opening)
    requires forall b | b in body :: !EndsInBackslash(b) && TrimSpace(b) != TrimSpace(rest)
    requires TrimSpace(closing) == TrimSpace(rest) && !EndsInBackslash(closing)
    ensures var lines := [opening] + body + [closing];
            && Groups(lines) == [Indices(0, |lines|)]
            && InputOf(lines, Indices(0, |lines|)) == Join([head] + body, "\n")
  {
    var lines, n := [opening] + body + [closing], |body| + 1;
    OpeningLineParts(opening, head, rest);
    assert IsDelimiter(TrimSpace(rest)) ==> TrimSpace(rest) != "";
    hide *;
    assert lines[0] == opening && lines[n] == closing;
    forall i | 1 <= i < n
      ensures lines[i] == body[i - 1] && lines[i] in body
    {
      assert body[i - 1] in body;
    }
    HeredocCloses(lines, n);
    HeredocText(lines, n, head, body);
  }

  lemma {:induction false} InsideContinuation(lines: seq<string>, k: nat)
    requires k <= |lines| && forall i | 0 <= i < k :: EndsInBackslash(lines[i])
    ensures Assemble(lines[..k]) == Assembly(Indices(0, k), "", [], [])
    decreases k
  {
    hide EndsInBackslash, HeredocDelimiter, TrimSpace;
    if k > 0 {
      AssembleNext(lines, k - 1);
      InsideContinuation(lines, k - 1);
      IndicesExtend(0, k - 1);
    } else {
      assert lines[..0] == [] && Indices(0, 0) == [];
    }
  }

  /** The line with its backslash and perhaps blanks after it. */
  ghost predicate Continues(line: string, text: string) {
    exists blanks :: line == text + "\\" + blanks && AllOf(blanks, IsBlank)
  }

  lemma ContinuationCloses(lines: seq<string>, n: nat)
    requires |lines| == n + 1 && n >= 1 && !EndsInBackslash(lines[n])
    requires forall i | 0 <= i < n :: EndsInBackslash(lines[i])
    ensures Groups(lines) == [Indices(0, n + 1)]
  {
    InsideContinuation(lines, n);
    AssembleNext(lines, n);
    assert Indices(0, n) != [];
    hide EndsInBackslash, HeredocDelimiter, TrimSpace, Indices, Assemble;
    assert lines[..n + 1] == lines;
    assert [] + [Indices(0, n) + [n]] == [Indices(0, n) + [n]];
    OneGroup(lines, n);
  }

  lemma ContinuationText(lines: seq<string>, n: nat, texts: seq<string>)
    requires |lines| == n + 1 && n == |texts| >= 1 && EndsInBackslash(lines[0])
    requires forall i | 0 <= i < n :: WithoutBackslash(lines[i]) == texts[i]
    ensures InputOf(lines, Indices(0, n + 1)) == Join(texts + [lines[n]], "\n")
  {
    hide EndsInBackslash, WithoutBackslash, Join;
    var group := Indices(0, n + 1);
    PickItself(lines, group[..n], texts, WithoutBackslash);
    assert group[0] == 0 && group[n] == n;
  }

  /** A command continued with backslashes is one input: the lines without them. */
  lemma ContinuationIsOneInput(continued: seq<string>, texts: seq<string>, last: string)
    requires |continued| == |texts| > 0 && !EndsInBackslash(last)
    requires forall k | 0 <= k < |texts| :: Continues(continued[k], texts[k])
    ensures var lines := continued + [last];
            && Groups(lines) == [Indices(0, |lines|)]
            && InputOf(lines, Indices(0, |lines|)) == Join(texts + [last], "\n")
  {
    var lines, n := continued + [last], |continued|;
    forall k | 0 <= k < n
      ensures EndsInBackslash(lines[k]) && WithoutBackslash(lines[k]) == texts[k]
    {
      var blanks :| continued[k] == texts[k] + "\\" + blanks && AllOf(blanks, IsBlank);
      hide EndsInBackslash, WithoutBackslash;
      BackslashIsCut(texts[k], blanks);
    }
    hide *;
    assert lines[n] == last;
    ContinuationCloses(lines, n);
    ContinuationText(lines, n, texts);
  }
}
