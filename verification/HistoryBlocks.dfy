/** Multi-line input of the REPL. Two pieces of code decide which lines belong together: the loop
    in Run joins lines into one input (internal/repl/repl.go), and findHistoryBlock finds the
    lines of a command again in the history (internal/repl/command.go). This module states when
    they agree. */
module HistoryBlocks {
  import opened Text
  import opened Wrappers

  // ---- what the two loops look at in a line ----

  predicate EndsInBackslash(line: string) {
    HasSuffix(TrimRight(line, IsBlank), "\\")
  }

  /** The delimiter of the heredoc that a line opens, or "" if it opens none. */
  function HeredocDelimiter(line: string): string {
    var idx := LastIndex(line, "<<");
    if idx == -1 then ""
    else
      var delim := TrimSpace(line[idx + 2..]);
      if ContainsAny(delim, " \t\"'") then "" else delim
  }

  /** The part of an opening line that goes into the input. */
  function BeforeHeredoc(line: string): string {
    var idx := LastIndex(line, "<<");
    if idx == -1 then line else line[..idx]
  }

  function WithoutBackslash(line: string): string {
    TrimSuffix(TrimRight(line, IsBlank), "\\")
  }

  // ---- findHistoryBlock ----

  datatype Block = Block(start: nat, end: nat)

  /** The variables of the loop; start is -1 outside a block. */
  datatype Scan = Scan(start: int, delim: string, blocks: seq<Block>) {
    ghost predicate Ok(i: nat) {
      -1 <= start < i || start == -1
    }
  }

  const SCAN_START := Scan(-1, "", [])

  function ScanLine(sc: Scan, line: string, i: nat): Scan
    requires sc.Ok(i)
  {
    if sc.start == -1 then
      if HeredocDelimiter(line) != "" then sc.(start := i, delim := HeredocDelimiter(line))
      else if EndsInBackslash(line) then sc.(start := i)
      else sc.(blocks := sc.blocks + [Block(i, i)])
    else if sc.delim != "" then
      if TrimSpace(line) == sc.delim then Scan(-1, "", sc.blocks + [Block(sc.start, i)]) else sc
    else if !EndsInBackslash(line) then sc.(start := -1, blocks := sc.blocks + [Block(sc.start, i)])
    else sc
  }

  /** The blocks once the lines from i on are scanned too; a block still open ends with the list. */
  function BlocksFrom(lines: seq<string>, i: nat, sc: Scan): seq<Block>
    requires i <= |lines| && sc.Ok(i)
    decreases |lines| - i
  {
    if i < |lines| then BlocksFrom(lines, i + 1, ScanLine(sc, lines[i], i))
    else if sc.start != -1 then sc.blocks + [Block(sc.start, |lines| - 1)]
    else sc.blocks
  }

  function Blocks(lines: seq<string>): seq<Block> {
    BlocksFrom(lines, 0, SCAN_START)
  }

  ghost predicate Contains(b: Block, i: int) {
    b.start <= i <= b.end
  }

  /** The blocks cover 0..n in order and without gaps. */
  ghost predicate Partition(blocks: seq<Block>, n: nat) {
    && (forall k | 0 <= k < |blocks| :: blocks[k].start <= blocks[k].end < n)
    && (forall k | 0 <= k < |blocks| - 1 :: blocks[k + 1].start == blocks[k].end + 1)
    && if blocks == [] then n == 0 else blocks[0].start == 0 && blocks[|blocks| - 1].end == n - 1
  }

  lemma PartitionGrows(blocks: seq<Block>, n: nat, end: nat)
    requires Partition(blocks, n) && n <= end
    ensures Partition(blocks + [Block(n, end)], end + 1)
  {
  }

  lemma {:induction false} ScanPartitions(lines: seq<string>, i: nat, sc: Scan)
    requires i <= |lines| && sc.Ok(i)
    requires Partition(sc.blocks, if sc.start == -1 then i else sc.start)
    ensures Partition(BlocksFrom(lines, i, sc), |lines|)
    decreases |lines| - i
  {
    hide HeredocDelimiter, EndsInBackslash, TrimSpace, Partition;
    var from := if sc.start == -1 then i else sc.start;
    if i < |lines| {
      PartitionGrows(sc.blocks, from, i);
      ScanPartitions(lines, i + 1, ScanLine(sc, lines[i], i));
    } else if sc.start != -1 {
      PartitionGrows(sc.blocks, from, i - 1);
    }
  }

  lemma {:induction false} PartitionCovers(blocks: seq<Block>, n: nat, i: nat) returns (k: nat)
    requires Partition(blocks, n) && i < n
    ensures k < |blocks| && Contains(blocks[k], i)
    ensures forall x | 0 <= x < |blocks| && Contains(blocks[x], i) :: x == k
  {
    k := 0;
    while blocks[k].end < i
      invariant k < |blocks| && blocks[k].start <= i
      invariant forall x | 0 <= x < k :: blocks[x].end < i
      decreases |blocks| - k
    {
      k := k + 1;
    }
    var y := k + 1;
    while y < |blocks|
      invariant k < y <= |blocks|
      invariant forall x | k < x < y :: blocks[x].start > i
      invariant y < |blocks| ==> blocks[y].start > i
    {
      y := y + 1;
    }
  }

  method FindBlocks(history: seq<string>) returns (blocks: seq<Block>)
    ensures blocks == Blocks(history)
  {
    hide TrimSpace, TrimRight, LastIndex, LastIndexUpTo, ContainsAny, HasSuffix;
    blocks := [];
    var currentStart := -1;
    var heredocDelim := "";
    var i := 0;
    while i < |history|
      invariant 0 <= i <= |history| && -1 <= currentStart < |history|
      invariant currentStart == -1 ==> heredocDelim == ""
      invariant Scan(currentStart, heredocDelim, blocks).Ok(i)
      invariant BlocksFrom(history, i, Scan(currentStart, heredocDelim, blocks)) == Blocks(history)
      decreases |history| - i
    {
      var line := history[i];
      if currentStart == -1 {
        var trimmed := TrimRight(line, IsBlank);
        var idx := LastIndex(line, "<<");
        if idx != -1 {
          var delim := TrimSpace(line[idx + 2..]);
          if delim != "" && !ContainsAny(delim, " \t\"'") {
            currentStart := i;
            heredocDelim := delim;
            i := i + 1;
            continue;
          }
        }
        if HasSuffix(trimmed, "\\") {
          currentStart := i;
          i := i + 1;
          continue;
        }
        blocks := blocks + [Block(i, i)];
      } else {
        if heredocDelim != "" {
          if TrimSpace(line) == heredocDelim {
            blocks := blocks + [Block(currentStart, i)];
            currentStart := -1;
            heredocDelim := "";
          }
          i := i + 1;
          continue;
        }
        var trimmed := TrimRight(line, IsBlank);
        if !HasSuffix(trimmed, "\\") {
          blocks := blocks + [Block(currentStart, i)];
          currentStart := -1;
        }
      }
      i := i + 1;
    }
    if currentStart != -1 {
      blocks := blocks + [Block(currentStart, |history| - 1)];
    }
  }

  /** The block that holds the target line; no other block does. */
  method FindHistoryBlock(history: seq<string>, targetIdx: int) returns (start: int, end: int)
    ensures 0 <= targetIdx < |history| ==>
              start >= 0 && end >= 0 && Block(start, end) in Blocks(history) && start <= targetIdx <= end
    ensures !(0 <= targetIdx < |history|) ==> start == end == targetIdx
  {
    if targetIdx < 0 || targetIdx >= |history| {
      return targetIdx, targetIdx;
    }
    var blocks := FindBlocks(history);
    ScanPartitions(history, 0, SCAN_START);
    ghost var k := PartitionCovers(blocks, |history|, targetIdx);
    var b := 0;
    while b < |blocks|
      invariant 0 <= b <= k
    {
      if targetIdx >= blocks[b].start && targetIdx <= blocks[b].end {
        return blocks[b].start, blocks[b].end;
      }
      b := b + 1;
    }
    return targetIdx, targetIdx;
  }

  // ---- the input loop of Run ----

  /** Which lines are in the buffers, and which made up the inputs so far. */
  datatype Assembly = Assembly(multi: seq<nat>, delim: string, here: seq<nat>, groups: seq<seq<nat>>)

  const ASSEMBLY_START := Assembly([], "", [], [])

  function AssembleLine(st: Assembly, line: string, i: nat): Assembly {
    if EndsInBackslash(line) then st.(multi := st.multi + [i])
    else if st.delim != "" then
      if TrimSpace(line) == st.delim then
        st.(delim := "", here := [], groups := st.groups + [st.here + [i]])
      else st.(here := st.here + [i])
    else if st.multi != [] then st.(multi := [], groups := st.groups + [st.multi + [i]])
    else if HeredocDelimiter(line) != "" then st.(delim := HeredocDelimiter(line), here := [i])
    else st.(groups := st.groups + [[i]])
  }

  /** The state of the loop after the lines. */
  function Assemble(lines: seq<string>): Assembly {
    if lines == [] then ASSEMBLY_START
    else AssembleLine(Assemble(lines[..|lines| - 1]), lines[|lines| - 1], |lines| - 1)
  }

  /** The groups of lines that make up one input each; a buffer in use holds one more. */
  function Groups(lines: seq<string>): seq<seq<nat>> {
    Closed(Assemble(lines))
  }

  function Closed(st: Assembly): seq<seq<nat>> {
    st.groups + (if st.delim != "" then [st.here] else []) + (if st.multi != [] then [st.multi] else [])
  }

  ghost predicate InRange(group: seq<nat>, n: nat) {
    forall x | 0 <= x < |group| :: group[x] < n
  }

  function Pick(lines: seq<string>, group: seq<nat>, f: string -> string): seq<string>
    requires InRange(group, |lines|)
  {
    if group == [] then [] else [f(lines[group[0]])] + Pick(lines, group[1..], f)
  }

  function Itself(line: string): string {
    line
  }

  /** The text that a group of lines stands for: backslashes cut off, or the heredoc body after
      what stood before the opening mark. */
  function InputOf(lines: seq<string>, group: seq<nat>): string
    requires group != [] && InRange(group, |lines|)
  {
    var n := |group| - 1;
    if n == 0 then lines[group[0]]
    else if EndsInBackslash(lines[group[0]]) then
      Join(Pick(lines, group[..n], WithoutBackslash) + [lines[group[n]]], "\n")
    else Join([BeforeHeredoc(lines[group[0]])] + Pick(lines, group[1..n], Itself), "\n")
  }

  class LineAssembler {
    var multiLineBuffer: seq<string>
    var heredocDelimiter: string
    var heredocBuffer: seq<string>
    ghost var lines: seq<string>  // everything read so far
    ghost var st: Assembly

    ghost predicate Valid()
      reads this
    {
      && st == Assemble(lines)
      && Buffered(lines, st, multiLineBuffer, heredocDelimiter, heredocBuffer)
    }

    constructor ()
      ensures Valid() && lines == [] && multiLineBuffer == [] && heredocDelimiter == ""
    {
      multiLineBuffer, heredocDelimiter, heredocBuffer := [], "", [];
      lines, st := [], ASSEMBLY_START;
    }

    /** Reads one line and gives the finished input, if the line finishes one: the text of the
        group that the line closes. */
    method ReadLine(line: string) returns (finalInput: Option<string>)
      requires Valid()
      modifies this
      ensures Valid() && lines == old(lines) + [line]
      ensures st == AssembleLine(old(st), line, |old(lines)|)
      ensures finalInput.Some? <==> |st.groups| == |old(st).groups| + 1
      ensures finalInput.Some? ==>
                Sound(st, lines) && finalInput.value == InputOf(lines, st.groups[|st.groups| - 1])
    {
      ghost var was, old_ := lines, st;
      lines := lines + [line];
      st := AssembleLine(st, line, |was|);
      assert lines[..|was|] == was && st == Assemble(lines);
      hide *;
      var trimmedRight := TrimRight(line, IsBlank);
      if HasSuffix(trimmedRight, "\\") {
        AfterBackslash(was, old_, line, multiLineBuffer, heredocDelimiter, heredocBuffer);
        multiLineBuffer := multiLineBuffer + [TrimSuffix(trimmedRight, "\\")];
        return None;
      }
      if heredocDelimiter != "" {
        AfterHeredocLine(was, old_, line, multiLineBuffer, heredocDelimiter, heredocBuffer);
        if TrimSpace(line) == heredocDelimiter {
          finalInput := Some(Join(heredocBuffer, "\n"));
          heredocDelimiter := "";
          heredocBuffer := [];
          return;
        } else {
          heredocBuffer := heredocBuffer + [line];
          return None;
        }
      } else if |multiLineBuffer| > 0 {
        AfterLastContinuation(was, old_, line, multiLineBuffer, heredocDelimiter, heredocBuffer);
        multiLineBuffer := multiLineBuffer + [line];
        finalInput := Some(Join(multiLineBuffer, "\n"));
        multiLineBuffer := [];
        return;
      } else {
        AfterPlainLine(was, old_, line, multiLineBuffer, heredocDelimiter, heredocBuffer);
        var delim := HeredocDelimiter(line);
        if delim != "" {
          heredocDelimiter := delim;
          heredocBuffer := [BeforeHeredoc(line)];
          return None;
        }
        finalInput := Some(line);
        return;
      }
    }
  }

  /** The buffers hold the texts of their lines. */
  ghost predicate Buffered(lines: seq<string>, st: Assembly,
                           multi: seq<string>, delim: string, here: seq<string>) {
    && Sound(st, lines)
    && multi == MultiText(lines, st) && delim == st.delim && here == HereText(lines, st)
  }

  /** The contents of the two buffers. */
  ghost function MultiText(lines: seq<string>, st: Assembly): (r: seq<string>)
    requires Sound(st, lines)
    ensures r == [] <==> st.multi == []
  {
    Pick(lines, st.multi, WithoutBackslash)
  }

  ghost function HereText(lines: seq<string>, st: Assembly): seq<string>
    requires Sound(st, lines)
  {
    if st.here == [] then [] else [BeforeHeredoc(lines[st.here[0]])] + Pick(lines, st.here[1..], Itself)
  }

  lemma AfterBackslash(lines: seq<string>, st: Assembly, line: string,
                       multi: seq<string>, delim: string, here: seq<string>)
    requires Buffered(lines, st, multi, delim, here)
    requires HasSuffix(TrimRight(line, IsBlank), "\\")
    ensures var longer, next := lines + [line], AssembleLine(st, line, |lines|);
            && Buffered(longer, next, multi + [TrimSuffix(TrimRight(line, IsBlank), "\\")], delim, here)
            && |next.groups| == |st.groups|
  {
    SoundAfterLine(lines, st, line);
    if st.here != [] {
      SameHereText(lines, st, line);
    }
    PickOfLonger(lines, line, st.multi, WithoutBackslash);
    PickAppend(lines + [line], st.multi, |lines|, WithoutBackslash);
  }

  lemma AfterHeredocLine(lines: seq<string>, st: Assembly, line: string,
                         multi: seq<string>, delim: string, here: seq<string>)
    requires Buffered(lines, st, multi, delim, here)
    requires !HasSuffix(TrimRight(line, IsBlank), "\\") && delim != ""
    ensures var n, longer, next := |st.groups|, lines + [line], AssembleLine(st, line, |lines|);
            if TrimSpace(line) == delim then
              && Buffered(longer, next, multi, "", []) && |next.groups| == n + 1
              && Sound(next, longer) && InputOf(longer, next.groups[n]) == Join(here, "\n")
            else Buffered(longer, next, multi, delim, here + [line]) && |next.groups| == n
  {
    hide TrimSpace, TrimRight, HasSuffix, Join, BeforeHeredoc;
    SoundAfterLine(lines, st, line);
    PickOfLonger(lines, line, st.multi, WithoutBackslash);
    SameHereText(lines, st, line);
    PickAppend(lines + [line], st.here[1..], |lines|, Itself);
    assert (st.here + [|lines|])[1..] == st.here[1..] + [|lines|];
    assert (st.here + [|lines|])[1..|st.here|] == st.here[1..];
  }

  lemma AfterLastContinuation(lines: seq<string>, st: Assembly, line: string,
                              multi: seq<string>, delim: string, here: seq<string>)
    requires Buffered(lines, st, multi, delim, here)
    requires !HasSuffix(TrimRight(line, IsBlank), "\\") && delim == "" && multi != []
    ensures var n, longer, next := |st.groups|, lines + [line], AssembleLine(st, line, |lines|);
            && Buffered(longer, next, [], "", here) && |next.groups| == n + 1
            && Sound(next, longer) && InputOf(longer, next.groups[n]) == Join(multi + [line], "\n")
  {
    hide TrimRight, HasSuffix, Join, WithoutBackslash;
    SoundAfterLine(lines, st, line);
    PickOfLonger(lines, line, st.multi, WithoutBackslash);
    assert (st.multi + [|lines|])[..|st.multi|] == st.multi;
  }

  lemma AfterPlainLine(lines: seq<string>, st: Assembly, line: string,
                       multi: seq<string>, delim: string, here: seq<string>)
    requires Buffered(lines, st, multi, delim, here)
    requires !HasSuffix(TrimRight(line, IsBlank), "\\") && delim == "" && multi == []
    ensures var n, longer, next := |st.groups|, lines + [line], AssembleLine(st, line, |lines|);
            if HeredocDelimiter(line) != "" then
              Buffered(longer, next, [], HeredocDelimiter(line), [BeforeHeredoc(line)]) && |next.groups| == n
            else
              && Buffered(longer, next, [], "", here) && |next.groups| == n + 1
              && Sound(next, longer) && InputOf(longer, next.groups[n]) == line
  {
    hide TrimRight, HasSuffix, HeredocDelimiter, BeforeHeredoc;
    SoundAfterLine(lines, st, line);
    assert [|lines|][1..] == [];
  }

  lemma SameHereText(lines: seq<string>, st: Assembly, line: string)
    requires Sound(st, lines) && st.here != []
    ensures lines[st.here[0]] == (lines + [line])[st.here[0]]
    ensures Pick(lines + [line], st.here[1..], Itself) == Pick(lines, st.here[1..], Itself)
  {
    PickOfLonger(lines, line, st.here[1..], Itself);
  }

  /** The buffers only hold lines that were read, and of the right kind. */
  ghost predicate Sound(st: Assembly, lines: seq<string>) {
    && InRange(st.multi, |lines|) && InRange(st.here, |lines|)
    && (forall x | 0 <= x < |st.multi| :: EndsInBackslash(lines[st.multi[x]]))
    && (st.delim == "" <==> st.here == [])
    && (st.here != [] ==> !EndsInBackslash(lines[st.here[0]]))
    && (forall g | 0 <= g < |st.groups| :: st.groups[g] != [] && InRange(st.groups[g], |lines|))
  }

  lemma SoundAfterLine(lines: seq<string>, st: Assembly, line: string)
    requires Sound(st, lines)
    ensures Sound(AssembleLine(st, line, |lines|), lines + [line])
  {
    hide EndsInBackslash, HeredocDelimiter, TrimSpace;
  }

  lemma {:induction false} PickAppend(lines: seq<string>, group: seq<nat>, i: nat, f: string -> string)
    requires i < |lines| && InRange(group, |lines|)
    ensures Pick(lines, group + [i], f) == Pick(lines, group, f) + [f(lines[i])]
  {
    if group == [] {
      assert (group + [i])[1..] == [];
    } else {
      assert (group + [i])[1..] == group[1..] + [i];
      PickAppend(lines, group[1..], i, f);
    }
  }

  lemma {:induction false} PickOfLonger(lines: seq<string>, line: string, group: seq<nat>, f: string -> string)
    requires InRange(group, |lines|)
    ensures Pick(lines + [line], group, f) == Pick(lines, group, f)
  {
    if group != [] {
      PickOfLonger(lines, line, group[1..], f);
    }
  }

}
