/** When findHistoryBlock and the input loop of Run group the lines alike. */
module HistoryAgreement {
  import opened Text
  import opened HistoryBlocks

  function Indices(from: nat, to: nat): (r: seq<nat>)
    requires from <= to
    ensures |r| == to - from && forall k | 0 <= k < |r| :: r[k] == from + k
  {
    seq(to - from, k requires 0 <= k < to - from => from + k)
  }

  /** The blocks of the history are the groups of lines that Run joins. */
  ghost predicate SameGroups(blocks: seq<Block>, groups: seq<seq<nat>>) {
    && |blocks| == |groups|
    && forall k | 0 <= k < |blocks| ::
         blocks[k].start <= blocks[k].end && groups[k] == Indices(blocks[k].start, blocks[k].end + 1)
  }

  /** Between two lines Run is outside a group, inside a continuation or inside a heredoc. In the
      mode Both, Run is inside a continuation that the history takes for a heredoc. */
  datatype Mode = Idle | Continued | Heredoc(delim: string) | Both(delim: string)

  /** The exact condition. A line that ends in a backslash must not lie in a heredoc body. If it
      opens a heredoc, the following lines except the last one must either end in a backslash or,
      trimmed, be the delimiter, but not both; the second sort ends the trouble. */
  predicate Agrees(lines: seq<string>, i: nat, mode: Mode)
    requires i <= |lines|
    decreases |lines| - i
  {
    if i == |lines| then true
    else
      var line := lines[i];
      var slash, opens := EndsInBackslash(line), HeredocDelimiter(line);
      match mode
      case Idle =>
        Agrees(lines, i + 1,
               if opens != "" then if slash then Both(opens) else Heredoc(opens)
               else if slash then Continued else Idle)
      case Continued => Agrees(lines, i + 1, if slash then Continued else Idle)
      case Heredoc(d) => !slash && Agrees(lines, i + 1, if TrimSpace(line) == d then Idle else mode)
      case Both(d) =>
        i == |lines| - 1
        || (slash != (TrimSpace(line) == d) && Agrees(lines, i + 1, if slash then mode else Idle))
  }

  /** No line that ends in a backslash opens a heredoc or lies in a heredoc body. */
  ghost predicate Clean(lines: seq<string>) {
    forall i | 0 <= i < |lines| && EndsInBackslash(lines[i]) ::
      var before := Assemble(lines[..i]);
      before.delim == "" && (before.multi == [] ==> HeredocDelimiter(lines[i]) == "")
  }

  // ---- running the input loop from the middle ----

  function GroupsFrom(lines: seq<string>, i: nat, st: Assembly): seq<seq<nat>>
    requires i <= |lines|
    decreases |lines| - i
  {
    if i < |lines| then GroupsFrom(lines, i + 1, AssembleLine(st, lines[i], i)) else Closed(st)
  }

  lemma AssembleNext(lines: seq<string>, i: nat)
    requires i < |lines|
    ensures Assemble(lines[..i + 1]) == AssembleLine(Assemble(lines[..i]), lines[i], i)
  {
    assert lines[..i + 1][..i] == lines[..i];
  }

  lemma {:induction false} GroupsFromMiddle(lines: seq<string>, i: nat)
    requires i <= |lines|
    ensures GroupsFrom(lines, i, Assemble(lines[..i])) == Groups(lines)
    decreases |lines| - i
  {
    if i < |lines| {
      AssembleNext(lines, i);
      GroupsFromMiddle(lines, i + 1);
    } else {
      assert lines[..i] == lines;
    }
  }

  // ---- what later lines cannot change ----

  lemma {:induction false} FinishedBlocksStay(lines: seq<string>, i: nat, sc: Scan)
    requires i <= |lines| && sc.Ok(i)
    ensures sc.blocks <= BlocksFrom(lines, i, sc)
    decreases |lines| - i
  {
    hide HeredocDelimiter, EndsInBackslash, TrimSpace;
    if i < |lines| {
      FinishedBlocksStay(lines, i + 1, ScanLine(sc, lines[i], i));
    }
  }

  /** An open block takes in the next line. */
  lemma {:induction false} OpenBlockGrows(lines: seq<string>, i: nat, sc: Scan)
    requires i <= |lines| && sc.Ok(i) && sc.start >= 0
    ensures var blocks, n := BlocksFrom(lines, i, sc), |sc.blocks|;
            && sc.blocks <= blocks && |blocks| > n && blocks[n].start == sc.start
            && blocks[n].end >= if i < |lines| then i else i - 1
    decreases |lines| - i
  {
    hide HeredocDelimiter, EndsInBackslash, TrimSpace;
    if i < |lines| {
      var next := ScanLine(sc, lines[i], i);
      FinishedBlocksStay(lines, i + 1, next);
      if next.start >= 0 {
        OpenBlockGrows(lines, i + 1, next);
      } else {
        assert next.blocks[|sc.blocks|] == Block(sc.start, i);
      }
    }
  }

  lemma {:induction false} FinishedGroupsStay(lines: seq<string>, i: nat, st: Assembly)
    requires i <= |lines|
    ensures st.groups <= GroupsFrom(lines, i, st)
    decreases |lines| - i
  {
    hide HeredocDelimiter, EndsInBackslash, TrimSpace;
    if i < |lines| {
      FinishedGroupsStay(lines, i + 1, AssembleLine(st, lines[i], i));
    }
  }

  /** A continuation takes in the next line. */
  lemma {:induction false} ContinuationGrows(lines: seq<string>, i: nat, st: Assembly)
    requires i <= |lines| && st.delim == "" && st.multi != []
    ensures var groups, n := GroupsFrom(lines, i, st), |st.groups|;
            |groups| > n && |groups[n]| >= |st.multi| + if i < |lines| then 1 else 0
    decreases |lines| - i
  {
    hide HeredocDelimiter, EndsInBackslash, TrimSpace;
    if i < |lines| {
      var next := AssembleLine(st, lines[i], i);
      FinishedGroupsStay(lines, i + 1, next);
      if next.multi != [] {
        ContinuationGrows(lines, i + 1, next);
      } else {
        assert next.groups[|st.groups|] == st.multi + [i];
      }
    }
  }

  /** A heredoc group keeps its lines and can only be followed by later ones. */
  lemma {:induction false} HeredocGroupGrows(lines: seq<string>, i: nat, st: Assembly)
    requires i <= |lines| && st.delim != ""
    ensures var groups, n := GroupsFrom(lines, i, st), |st.groups|;
            && |groups| > n && st.here <= groups[n]
            && (|groups[n]| > |st.here| ==> groups[n][|st.here|] >= i)
    decreases |lines| - i
  {
    hide HeredocDelimiter, EndsInBackslash, TrimSpace;
    if i < |lines| {
      var next := AssembleLine(st, lines[i], i);
      FinishedGroupsStay(lines, i + 1, next);
      if next.delim != "" {
        HeredocGroupGrows(lines, i + 1, next);
      } else {
        assert next.groups[|st.groups|] == st.here + [i];
      }
    }
  }

  // ---- both loops side by side ----

  ghost predicate Related(mode: Mode, sc: Scan, st: Assembly, i: nat) {
    && sc.Ok(i) && SameGroups(sc.blocks, st.groups)
    && match mode {
         case Idle => sc.start == -1 && sc.delim == "" && st.multi == [] && st.delim == "" && st.here == []
         case Continued =>
           && sc.start >= 0 && sc.delim == ""
           && st.multi == Indices(sc.start, i) && st.delim == "" && st.here == []
         case Heredoc(d) =>
           && sc.start >= 0 && sc.delim == d == st.delim && d != ""
           && st.here == Indices(sc.start, i) && st.multi == []
         case Both(d) =>
           && sc.start >= 0 && sc.delim == d != ""
           && st.multi == Indices(sc.start, i) && st.delim == "" && st.here == []
       }
  }

  function NextMode(mode: Mode, line: string): Mode {
    var slash, opens := EndsInBackslash(line), HeredocDelimiter(line);
    match mode
    case Idle =>
      if opens != "" then if slash then Both(opens) else Heredoc(opens)
      else if slash then Continued else Idle
    case Continued => if slash then Continued else Idle
    case Heredoc(d) => if TrimSpace(line) == d then Idle else mode
    case Both(d) => if slash then mode else Idle
  }

  /** The line after which the two loops part for good. */
  predicate Parts(mode: Mode, line: string) {
    match mode
    case Idle => false
    case Continued => false
    case Heredoc(_) => EndsInBackslash(line)
    case Both(d) => EndsInBackslash(line) == (TrimSpace(line) == d)
  }

  lemma IndicesExtend(from: nat, to: nat)
    requires from <= to
    ensures Indices(from, to) + [to] == Indices(from, to + 1)
  {
  }

  lemma StaysRelated(mode: Mode, sc: Scan, st: Assembly, line: string, i: nat)
    requires Related(mode, sc, st, i) && !Parts(mode, line)
    ensures Related(NextMode(mode, line), ScanLine(sc, line, i), AssembleLine(st, line, i), i + 1)
  {
    hide HeredocDelimiter, EndsInBackslash, TrimSpace;
    IndicesExtend(i, i);
    assert [] + [i] == [i];
    if sc.start >= 0 {
      IndicesExtend(sc.start, i);
    }
  }

  lemma PartingIsForGood(mode: Mode, lines: seq<string>, i: nat, sc: Scan, st: Assembly)
    requires i < |lines| && Related(mode, sc, st, i) && Parts(mode, lines[i])
    requires mode.Both? ==> i < |lines| - 1
    ensures !SameGroups(BlocksFrom(lines, i, sc), GroupsFrom(lines, i, st))
  {
    hide HeredocDelimiter, EndsInBackslash, TrimSpace;
    var n := |sc.blocks|;
    var sc', st' := ScanLine(sc, lines[i], i), AssembleLine(st, lines[i], i);
    var blocks, groups := BlocksFrom(lines, i, sc), GroupsFrom(lines, i, st);
    OpenBlockGrows(lines, i, sc);
    if mode.Heredoc? {
      HeredocGroupGrows(lines, i + 1, st');
      assert st'.here == Indices(sc.start, i);
    } else if EndsInBackslash(lines[i]) {
      FinishedBlocksStay(lines, i + 1, sc');
      assert sc'.blocks[n] == Block(sc.start, i);
      ContinuationGrows(lines, i + 1, st');
    } else {
      FinishedGroupsStay(lines, i + 1, st');
      assert st'.groups[n] == st.multi + [i];
      OpenBlockGrows(lines, i + 1, sc');
    }
  }

  /** In the mode Both the last line is taken into the group by both, whatever it is. */
  lemma LastLineIsShared(lines: seq<string>, i: nat, sc: Scan, st: Assembly, d: string)
    requires i == |lines| - 1 && Related(Both(d), sc, st, i)
    ensures SameGroups(BlocksFrom(lines, i, sc), GroupsFrom(lines, i, st))
  {
    hide HeredocDelimiter, EndsInBackslash, TrimSpace;
    IndicesExtend(sc.start, i);
    var sc', st' := ScanLine(sc, lines[i], i), AssembleLine(st, lines[i], i);
    assert BlocksFrom(lines, i, sc) == BlocksFrom(lines, i + 1, sc') == sc.blocks + [Block(sc.start, i)];
    assert GroupsFrom(lines, i, st) == GroupsFrom(lines, i + 1, st') == st.groups + [st.multi + [i]];
  }

  lemma {:induction false} AgreementFrom(mode: Mode, lines: seq<string>, i: nat, sc: Scan, st: Assembly)
    requires i <= |lines| && Related(mode, sc, st, i)
    ensures SameGroups(BlocksFrom(lines, i, sc), GroupsFrom(lines, i, st)) <==> Agrees(lines, i, mode)
    decreases |lines| - i
  {
    hide HeredocDelimiter, EndsInBackslash, TrimSpace;
    if i == |lines| {
      ClosingAgrees(mode, lines, sc, st);
    } else if mode.Both? && i == |lines| - 1 {
      LastLineIsShared(lines, i, sc, st, mode.delim);
    } else if Parts(mode, lines[i]) {
      PartingIsForGood(mode, lines, i, sc, st);
    } else {
      hide Related, SameGroups, ScanLine, AssembleLine;
      StaysRelated(mode, sc, st, lines[i], i);
      AgreementFrom(NextMode(mode, lines[i]), lines, i + 1,
                    ScanLine(sc, lines[i], i), AssembleLine(st, lines[i], i));
    }
  }

  lemma ClosingAgrees(mode: Mode, lines: seq<string>, sc: Scan, st: Assembly)
    requires Related(mode, sc, st, |lines|)
    ensures SameGroups(BlocksFrom(lines, |lines|, sc), GroupsFrom(lines, |lines|, st))
  {
  }

  /** The two loops group the lines alike if and only if the lines meet the condition. */
  lemma HistoryAgreesExactly(lines: seq<string>)
    ensures SameGroups(Blocks(lines), Groups(lines)) <==> Agrees(lines, 0, Idle)
  {
    AgreementFrom(Idle, lines, 0, SCAN_START, ASSEMBLY_START);
    GroupsFromMiddle(lines, 0);
    assert lines[..0] == [];
  }

  lemma {:induction false} CleanAgrees(mode: Mode, lines: seq<string>, i: nat, sc: Scan)
    requires i <= |lines| && !mode.Both? && Clean(lines)
    requires Related(mode, sc, Assemble(lines[..i]), i)
    ensures Agrees(lines, i, mode)
    decreases |lines| - i
  {
    if i < |lines| {
      hide HeredocDelimiter, EndsInBackslash, TrimSpace, Assemble, AssembleLine, ScanLine;
      AssembleNext(lines, i);
      StaysRelated(mode, sc, Assemble(lines[..i]), lines[i], i);
      CleanAgrees(NextMode(mode, lines[i]), lines, i + 1, ScanLine(sc, lines[i], i));
    }
  }

  /** Under the condition the block that holds a line is the whole command the line belongs to. */
  lemma HistoryBlockIsTheCommand(lines: seq<string>, target: nat, b: Block) returns (k: nat)
    requires Agrees(lines, 0, Idle) && target < |lines|
    requires b in Blocks(lines) && Contains(b, target)
    ensures SameGroups(Blocks(lines), Groups(lines))
    ensures b.start <= b.end && k < |Groups(lines)| && target in Groups(lines)[k]
    ensures Groups(lines)[k] == Indices(b.start, b.end + 1)
  {
    HistoryAgreesExactly(lines);
    hide Agrees, Blocks, Groups;
    k :| 0 <= k < |Blocks(lines)| && Blocks(lines)[k] == b;
    assert Groups(lines)[k][target - b.start] == target;
  }

  /** Clean lines meet it. */
  lemma CleanLinesAgree(lines: seq<string>)
    requires Clean(lines)
    ensures Agrees(lines, 0, Idle) && SameGroups(Blocks(lines), Groups(lines))
  {
    assert lines[..0] == [];
    CleanAgrees(Idle, lines, 0, SCAN_START);
    HistoryAgreesExactly(lines);
  }

  const OPENING := "<<E\\"

  lemma NothingToTrim(s: string)
    requires s != "" && !IsSpace(s[0]) && !IsSpace(s[|s| - 1])
    ensures TrimSpace(s) == s && TrimRight(s, IsBlank) == s
  {
  }

  lemma OpeningIndex()
    ensures LastIndex(OPENING, "<<") == 0
  {
    var line := OPENING;
    assert line[0] == '<' && line[2] == 'E' && line[3] == '\\' && |line| == 4;
    assert !("<<" <= line[1..]) by {
      assert line[1..][1] == 'E';
    }
    assert !("<<" <= line[2..]) by {
      assert line[2..][0] == 'E';
    }
    assert !("<<" <= line[3..]) && !("<<" <= line[4..]);
    assert LastIndexUpTo(line, "<<", 0) == 0;
    assert LastIndexUpTo(line, "<<", 2) == LastIndexUpTo(line, "<<", 1) == 0;
  }

  lemma OpeningLine()
    ensures HeredocDelimiter(OPENING) == "E\\" && EndsInBackslash(OPENING)
  {
    OpeningIndex();
    NothingToTrim("E\\");
    NothingToTrim(OPENING);
    hide LastIndex, TrimSpace, TrimRight;
    assert OPENING[2..] == "E\\" && OPENING[3..] == "\\";
  }

  lemma PlainLine(c: char)
    requires c == 'a' || c == 'b'
    ensures !EndsInBackslash([c]) && HeredocDelimiter([c]) == "" && TrimSpace([c]) == [c]
  {
    NothingToTrim([c]);
    assert LastIndexUpTo([c], "<<", 1) == LastIndexUpTo([c], "<<", 0) == -1;
  }

  lemma HistoryTakesAll(lines: seq<string>)
    requires |lines| == 3 && HeredocDelimiter(lines[0]) != ""
    requires HeredocDelimiter(lines[0]) !in [TrimSpace(lines[1]), TrimSpace(lines[2])]
    ensures Blocks(lines) == [Block(0, 2)]
  {
    hide HeredocDelimiter, EndsInBackslash, TrimSpace;
    var open := Scan(0, HeredocDelimiter(lines[0]), []);
    assert BlocksFrom(lines, 3, open) == [Block(0, 2)];
    assert BlocksFrom(lines, 2, open) == BlocksFrom(lines, 3, open);
    assert BlocksFrom(lines, 1, open) == BlocksFrom(lines, 2, open);
  }

  lemma RunTakesTwo(lines: seq<string>)
    requires |lines| == 3 && EndsInBackslash(lines[0]) && !EndsInBackslash(lines[1]) && !EndsInBackslash(lines[2])
    requires HeredocDelimiter(lines[2]) == ""
    ensures Groups(lines) == [[0, 1], [2]]
  {
    hide HeredocDelimiter, EndsInBackslash, TrimSpace;
    var a1 := AssembleLine(ASSEMBLY_START, lines[0], 0);
    var a2 := AssembleLine(a1, lines[1], 1);
    var a3 := AssembleLine(a2, lines[2], 2);
    assert a1.multi == [0] && a1.delim == "";
    assert a1.multi + [1] == [0, 1];
    assert a2.multi == [] && a2.delim == "" && a2.groups == [[0, 1]];
    assert a3.groups == [[0, 1], [2]] && a3.multi == [] && a3.delim == "";
    assert a3.groups + [] + [] == a3.groups;
    assert GroupsFrom(lines, 3, a3) == Closed(a3) == a3.groups;
    assert GroupsFrom(lines, 1, a1) == GroupsFrom(lines, 2, a2) == GroupsFrom(lines, 3, a3);
    assert lines[..0] == [];
    GroupsFromMiddle(lines, 0);
  }

  /** The condition excludes something: of a heredoc whose delimiter ends in a backslash and the
      two lines after it the history makes one block, while Run takes the first two lines for an
      input and the third for another. */
  lemma BackslashAfterHeredocMark()
    ensures var lines := [OPENING, "a", "b"];
            Blocks(lines) == [Block(0, 2)] && Groups(lines) == [[0, 1], [2]]
  {
    hide *;
    var lines := [OPENING, "a", "b"];
    OpeningLine();
    PlainLine('a');
    PlainLine('b');
    assert lines[1] == ['a'] && lines[2] == ['b'];
    HistoryTakesAll(lines);
    RunTakesTwo(lines);
  }
}
