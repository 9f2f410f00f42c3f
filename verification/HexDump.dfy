/** The hex dump of binary messages (hexDump in internal/repl/format.go) and a decoder that
    reads it back. */
module HexDump {
  import opened Text
  import opened Wrappers

  // ---- what the printer writes ----

  function HexDigit(n: nat): char
    requires n < 16
  {
    if n < 10 then ('0' as int + n) as char else ('a' as int + n - 10) as char
  }

  /** %x */
  function Hex(n: nat): (s: string)
    ensures |s| >= 1
  {
    if n < 16 then [HexDigit(n)] else Hex(n / 16) + [HexDigit(n % 16)]
  }

  /** %02x */
  function Hex2(b: Byte): string {
    [HexDigit(b / 16), HexDigit(b % 16)]
  }

  /** Zeros on the left up to a width; longer strings stay as they are. */
  function ZeroPad(s: string, width: nat): string
    decreases width - |s|
  {
    if |s| < width then ZeroPad("0" + s, width) else s
  }

  /** %08x: at least eight digits, more from 0x1_0000_0000 on. */
  function Offset(i: nat): string {
    ZeroPad(Hex(i), 8)
  }

  /** The sixteen bytes from i on, or what is left of them. */
  function Row(data: seq<Byte>, i: nat): (row: seq<Byte>)
    ensures |row| <= 16
  {
    if i >= |data| then [] else if |data| - i < 16 then data[i..] else data[i..i + 16]
  }

  lemma RowByte(data: seq<Byte>, i: nat, j: nat)
    requires i < |data| && j < 16
    ensures j < |Row(data, i)| <==> i + j < |data|
    ensures j < |Row(data, i)| ==> Row(data, i)[j] == data[i + j]
  {
  }

  function HexCell(row: seq<Byte>, j: nat): string {
    (if j < |row| then Hex2(row[j]) + " " else "   ") + if j == 7 then " " else ""
  }

  function HexColumns(row: seq<Byte>, j: nat): string
    requires j <= 16
    decreases 16 - j
  {
    if j == 16 then "" else HexCell(row, j) + HexColumns(row, j + 1)
  }

  function Printable(b: Byte): char {
    if 32 <= b <= 126 then b as char else '.'
  }

  function Ascii(row: seq<Byte>): string {
    seq(|row|, j requires 0 <= j < |row| => Printable(row[j]))
  }

  function Line(data: seq<Byte>, i: nat): string {
    Offset(i) + ("  " + (HexColumns(Row(data, i), 0) + (" |" + Ascii(Row(data, i)) + "|")))
  }

  function Lines(data: seq<Byte>, i: nat): seq<string>
    decreases |data| - i
  {
    if i >= |data| then [] else [Line(data, i)] + Lines(data, i + 16)
  }

  method Dump(data: seq<Byte>) returns (out: string)
    ensures out == Join(Lines(data, 0), "\n")
  {
    var sb := "";
    var i := 0;
    ghost var done: seq<string> := [];
    assert Terminated(done) == "" && done + Lines(data, 0) == Lines(data, 0);
    hide *;
    while i < |data|
      invariant 0 <= i
      invariant Lines(data, 0) == done + Lines(data, i)
      invariant sb == Terminated(done)
    {
      ghost var was := sb;
      sb := sb + (Offset(i) + "  ");
      sb := WriteHexBytes(sb, data, i);
      sb := sb + " |";
      sb := WriteSidebar(sb, data, i);
      sb := sb + "|\n";
      LineAssembled(was, data, i);
      TerminatedAppend(done, Line(data, i));
      NextLine(data, i, done);
      done := done + [Line(data, i)];
      i := i + 16;
    }
    NoMoreLines(data, i, done);
    JoinTerminated(done);
    out := TrimSuffix(sb, "\n");
  }

  lemma NextLine(data: seq<Byte>, i: nat, done: seq<string>)
    requires i < |data|
    ensures done + Lines(data, i) == (done + [Line(data, i)]) + Lines(data, i + 16)
  {
    hide Line;
  }

  lemma NoMoreLines(data: seq<Byte>, i: nat, done: seq<string>)
    requires i >= |data|
    ensures done + Lines(data, i) == done
  {
  }

  lemma LineAssembled(head: string, data: seq<Byte>, i: nat)
    ensures head + (Offset(i) + "  ") + HexColumns(Row(data, i), 0) + " |" + Ascii(Row(data, i)) + "|\n"
         == head + Line(data, i) + "\n"
  {
    hide Offset, HexColumns, Row, Ascii;
    var a, b, c := Offset(i), HexColumns(Row(data, i), 0), Ascii(Row(data, i));
    assert "|" + "\n" == "|\n";
    assert Line(data, i) == a + "  " + b + " |" + c + "|";
  }

  method WriteHexBytes(head: string, data: seq<Byte>, i: nat) returns (sb: string)
    requires i < |data|
    ensures sb == head + HexColumns(Row(data, i), 0)
  {
    hide Hex2, Row, HexColumns;
    sb := head;
    ghost var row := Row(data, i);
    var j := 0;
    while j < 16
      invariant 0 <= j <= 16
      invariant sb + HexColumns(row, j) == head + HexColumns(row, 0)
    {
      ghost var was := sb;
      RowByte(data, i, j);
      if i + j < |data| {
        sb := sb + (Hex2(data[i + j]) + " ");
      } else {
        sb := sb + "   ";
      }
      if j == 7 {
        sb := sb + " ";
      }
      NextColumn(row, j, was);
      assert sb == was + HexCell(row, j);
      j := j + 1;
    }
    NoColumnsLeft(row, sb);
  }

  lemma NextColumn(row: seq<Byte>, j: nat, head: string)
    requires j < 16
    ensures (head + HexCell(row, j)) + HexColumns(row, j + 1) == head + HexColumns(row, j)
  {
    hide HexCell;
  }

  lemma NoColumnsLeft(row: seq<Byte>, head: string)
    ensures head + HexColumns(row, 16) == head
  {
  }

  method WriteSidebar(head: string, data: seq<Byte>, i: nat) returns (sb: string)
    requires i < |data|
    ensures sb == head + Ascii(Row(data, i))
  {
    sb := head;
    ghost var all := Ascii(Row(data, i));
    var j := 0;
    while j < 16
      invariant 0 <= j <= 16
      invariant sb == head + Take(all, j)
    {
      if i + j < |data| {
        var b := data[i + j];
        if b >= 32 && b <= 126 {
          sb := sb + [b as char];
        } else {
          sb := sb + ".";
        }
        assert Take(all, j + 1) == Take(all, j) + [all[j]];
      }
      j := j + 1;
    }
  }

  ghost function Take(s: string, n: nat): string {
    if n < |s| then s[..n] else s
  }

  /** The lines, each with its newline. */
  ghost function Terminated(lines: seq<string>): string {
    if lines == [] then "" else lines[0] + "\n" + Terminated(lines[1..])
  }

  lemma {:induction false} TerminatedAppend(lines: seq<string>, line: string)
    ensures Terminated(lines + [line]) == Terminated(lines) + line + "\n"
  {
    if lines == [] {
      assert [] + [line] == [line] && [line][1..] == [];
    } else {
      assert (lines + [line])[1..] == lines[1..] + [line];
      TerminatedAppend(lines[1..], line);
    }
  }

  lemma {:induction false} JoinTerminated(lines: seq<string>)
    ensures TrimSuffix(Terminated(lines), "\n") == Join(lines, "\n")
    ensures lines != [] ==> Terminated(lines) == Join(lines, "\n") + "\n"
  {
    if |lines| == 1 {
      assert Terminated(lines[1..]) == "";
    } else if |lines| > 1 {
      JoinTerminated(lines[1..]);
    }
  }

  // ---- a reader of dumps, written without the printer ----

  function FirstIndex(s: string, c: char): (i: nat)
    ensures i <= |s| && c !in s[..i] && (i < |s| ==> s[i] == c)
  {
    if s == "" || s[0] == c then 0 else 1 + FirstIndex(s[1..], c)
  }

  function SplitLines(text: string): (lines: seq<string>)
    decreases |text|
  {
    if text == "" then []
    else
      var k := FirstIndex(text, '\n');
      if k == |text| then [text] else [text[..k]] + SplitLines(text[k + 1..])
  }

  function HexValue(c: char): Option<nat> {
    if '0' <= c <= '9' then Some(c as int - '0' as int)
    else if 'a' <= c <= 'f' then Some(c as int - 'a' as int + 10)
    else None
  }

  function ReadHex(s: string): Option<nat> {
    if s == "" then Some(0)
    else
      var front, last := ReadHex(s[..|s| - 1]), HexValue(s[|s| - 1]);
      if front.None? || last.None? then None else Some(front.value * 16 + last.value)
  }

  /** The bytes in the hex columns from column j on; a blank cell ends them. */
  function ReadColumns(cells: string, j: nat): Option<seq<Byte>>
    requires j <= 16
    decreases 16 - j
  {
    if j == 16 then Some([])
    else if |cells| < 4 then None
    else if cells[0] == ' ' then Some([])
    else
      var hi, lo := HexValue(cells[0]), HexValue(cells[1]);
      var rest := ReadColumns(cells[if j == 7 then 4 else 3..], j + 1);
      if hi.None? || lo.None? || rest.None? then None
      else Some([hi.value * 16 + lo.value] + rest.value)
  }

  /** Reads the hex columns of one line: they start two places after the offset, which ends at
      the first space. The ASCII column is not looked at. */
  function ReadLine(line: string): Option<seq<Byte>> {
    var k := FirstIndex(line, ' ');
    if k + 2 > |line| then None else ReadColumns(line[k + 2..], 0)
  }

  function ReadLines(lines: seq<string>): Option<seq<Byte>> {
    if lines == [] then Some([])
    else
      var first, rest := ReadLine(lines[0]), ReadLines(lines[1..]);
      if first.None? || rest.None? then None else Some(first.value + rest.value)
  }

  function Read(text: string): Option<seq<Byte>> {
    ReadLines(SplitLines(text))
  }

  // ---- reading undoes printing ----

  lemma {:induction false} FirstIndexAfter(s: string, rest: string, c: char)
    requires c !in s && (rest == "" || rest[0] == c)
    ensures FirstIndex(s + rest, c) == |s|
  {
    if s == "" {
      assert s + rest == rest;
    } else {
      assert s[0] in s;
      assert (s + rest)[1..] == s[1..] + rest;
      FirstIndexAfter(s[1..], rest, c);
    }
  }

  ghost predicate HexText(s: string) {
    forall k | 0 <= k < |s| :: HexValue(s[k]).Some?
  }

  lemma ReadHexSnoc(s: string, c: char)
    requires ReadHex(s).Some? && HexValue(c).Some?
    ensures ReadHex(s + [c]) == Some(ReadHex(s).value * 16 + HexValue(c).value)
  {
    assert (s + [c])[..|s|] == s;
  }

  lemma {:induction false} ReadHexOfHex(n: nat)
    ensures ReadHex(Hex(n)) == Some(n)
    ensures HexText(Hex(n))
  {
    if n < 16 {
      ReadHexSnoc("", HexDigit(n));
      assert "" + [HexDigit(n)] == Hex(n);
    } else {
      ReadHexOfHex(n / 16);
      ReadHexSnoc(Hex(n / 16), HexDigit(n % 16));
    }
  }

  lemma {:induction false} ReadHexLeadingZero(s: string)
    requires HexText(s)
    ensures ReadHex("0" + s) == ReadHex(s)
  {
    if s == "" {
      ReadHexSnoc("", '0');
      assert "" + ['0'] == "0" + s;
    } else {
      assert ("0" + s)[..|s|] == "0" + s[..|s| - 1];
      ReadHexLeadingZero(s[..|s| - 1]);
    }
  }

  lemma {:induction false} ReadHexOfPadded(s: string, width: nat)
    requires HexText(s)
    ensures ReadHex(ZeroPad(s, width)) == ReadHex(s)
    ensures HexText(ZeroPad(s, width)) && |ZeroPad(s, width)| >= width
    decreases width - |s|
  {
    if |s| < width {
      ReadHexLeadingZero(s);
      ReadHexOfPadded("0" + s, width);
    }
  }

  lemma OffsetReadsBack(i: nat)
    ensures ReadHex(Offset(i)) == Some(i)
    ensures HexText(Offset(i)) && |Offset(i)| >= 8
  {
    ReadHexOfHex(i);
    ReadHexOfPadded(Hex(i), 8);
  }

  lemma HexDigitReadsBack(n: nat)
    requires n < 16
    ensures HexValue(HexDigit(n)) == Some(n) && HexDigit(n) != ' ' && HexDigit(n) != '\n'
  {
  }

  lemma ReadFilledCell(cells: string, b: Byte, j: nat, later: string)
    requires j < 16 && |cells| >= 4
    requires cells[0] == HexDigit(b / 16) && cells[1] == HexDigit(b % 16)
    requires cells[if j == 7 then 4 else 3..] == later && ReadColumns(later, j + 1).Some?
    ensures ReadColumns(cells, j) == Some([b] + ReadColumns(later, j + 1).value)
  {
    hide HexDigit, HexValue;
    HexDigitReadsBack(b / 16);
    HexDigitReadsBack(b % 16);
  }

  lemma CellParts(row: seq<Byte>, j: nat, later: string)
    requires j < 16 && |later| >= 1
    ensures var cells := HexCell(row, j) + later;
            && |cells| >= 4 && cells[if j == 7 then 4 else 3..] == later
            && (j < |row| ==> cells[0] == HexDigit(row[j] / 16) && cells[1] == HexDigit(row[j] % 16))
            && (j >= |row| ==> cells[0] == ' ')
  {
    hide HexDigit;
  }

  lemma CellFirst(row: seq<Byte>, j: nat, tail: string)
    requires j < 16
    ensures HexColumns(row, j) + tail == HexCell(row, j) + (HexColumns(row, j + 1) + tail)
  {
    hide HexCell;
  }

  lemma {:induction false} HexColumnsReadBack(row: seq<Byte>, j: nat, tail: string)
    requires |row| <= 16 && j <= 16 && |tail| >= 1
    ensures ReadColumns(HexColumns(row, j) + tail, j) == Some(if j < |row| then row[j..] else [])
    decreases 16 - j
  {
    hide HexCell, HexDigit, HexValue;
    if j < 16 {
      HexColumnsReadBack(row, j + 1, tail);
      var cells, later := HexColumns(row, j) + tail, HexColumns(row, j + 1) + tail;
      CellFirst(row, j, tail);
      CellParts(row, j, later);
      if j < |row| {
        hide ReadColumns;
        ReadFilledCell(cells, row[j], j, later);
        assert row[j..] == [row[j]] + row[j + 1..];
      }
    }
  }

  lemma {:induction false} HexColumnsLayout(row: seq<Byte>, j: nat)
    requires |row| <= 16 && j <= 16
    ensures |HexColumns(row, j)| == 3 * (16 - j) + if j <= 7 then 1 else 0
    ensures '\n' !in HexColumns(row, j)
    decreases 16 - j
  {
    hide HexDigit;
    if j < 16 {
      HexColumnsLayout(row, j + 1);
      if j < |row| {
        HexDigitReadsBack(row[j] / 16);
        HexDigitReadsBack(row[j] % 16);
      }
    }
  }

  /** A line holds its bytes and is really one line, whatever the bytes are. */
  lemma LineReadsBack(data: seq<Byte>, i: nat)
    ensures ReadLine(Line(data, i)) == Some(Row(data, i))
    ensures '\n' !in Line(data, i) && Line(data, i) != ""
  {
    var row, cells, o := LineParts(data, i);
    hide Line, Row, HexColumns, Ascii, ReadColumns, FirstIndex, Offset;
    assert row[0..] == row;
  }

  /** A line is its offset up to the first space, two spaces, and the cells. */
  lemma LineParts(data: seq<Byte>, i: nat) returns (row: seq<Byte>, cells: string, o: nat)
    ensures row == Row(data, i)
    ensures cells == HexColumns(row, 0) + (" |" + Ascii(row) + "|")
    ensures Line(data, i) == Offset(i) + ("  " + cells) && '\n' !in Line(data, i)
    ensures ReadColumns(cells, 0) == Some(row[0..])
    ensures o == |Offset(i)| == FirstIndex(Line(data, i), ' ')
    ensures |Line(data, i)| >= o + 2 && Line(data, i)[o + 2..] == cells
  {
    hide Offset, HexColumns, Row, ReadColumns, ReadHex, FirstIndex;
    row := Row(data, i);
    var tail := " |" + Ascii(row) + "|";
    cells := HexColumns(row, 0) + tail;
    o := |Offset(i)|;
    OffsetReadsBack(i);
    HexColumnsReadBack(row, 0, tail);
    HexColumnsLayout(row, 0);
    AsciiPrintable(row);
    assert ' ' !in Offset(i) && '\n' !in Offset(i);
    FirstIndexAfter(Offset(i), "  " + cells, ' ');
    AfterTwo(Offset(i), cells);
  }

  lemma AfterTwo(head: string, cells: string)
    ensures (head + ("  " + cells))[|head| + 2..] == cells
  {
  }

  lemma AsciiPrintable(row: seq<Byte>)
    ensures |Ascii(row)| == |row| && '\n' !in Ascii(row)
    ensures forall j | 0 <= j < |row| :: Shows(Ascii(row)[j], row[j])
  {
  }

  lemma {:induction false} SplitJoined(lines: seq<string>)
    requires forall line | line in lines :: '\n' !in line && line != ""
    ensures SplitLines(Join(lines, "\n")) == lines
  {
    if |lines| == 1 {
      assert lines == [lines[0]] && lines[0] + "" == lines[0];
      FirstIndexAfter(lines[0], "", '\n');
    } else if |lines| > 1 {
      forall line | line in lines[1..]
        ensures '\n' !in line && line != ""
      {
        assert line in lines;
      }
      SplitJoined(lines[1..]);
      SplitFirst(lines[0], Join(lines[1..], "\n"));
    }
  }

  lemma SplitFirst(line: string, rest: string)
    requires '\n' !in line
    ensures SplitLines(line + "\n" + rest) == [line] + SplitLines(rest)
  {
    var text := line + "\n" + rest;
    FirstIndexAfter(line, "\n" + rest, '\n');
    assert text == line + ("\n" + rest);
    assert text[|line| + 1..] == rest && text[..|line|] == line;
  }

  lemma {:induction false} LinesReadBack(data: seq<Byte>, i: nat)
    ensures ReadLines(Lines(data, i)) == Some(if i < |data| then data[i..] else [])
    ensures forall line | line in Lines(data, i) :: '\n' !in line && line != ""
    decreases |data| - i
  {
    hide Line, ReadLine;
    if i < |data| {
      var lines := Lines(data, i);
      LineReadsBack(data, i);
      LinesReadBack(data, i + 16);
      assert lines[0] == Line(data, i) && lines[1..] == Lines(data, i + 16);
      assert data[i..] == Row(data, i) + if i + 16 < |data| then data[i + 16..] else [];
    }
  }

  lemma {:induction false} LinesCounted(data: seq<Byte>, i: nat)
    requires i <= |data|
    ensures |Lines(data, i)| == (|data| - i + 15) / 16
    decreases |data| - i
  {
    if i + 16 <= |data| {
      LinesCounted(data, i + 16);
    } else {
      assert Lines(data, i + 16) == [];
    }
  }

  lemma {:induction false} LineAt(data: seq<Byte>, i: nat, k: nat)
    requires i + 16 * k < |data|
    ensures k < |Lines(data, i)| && Lines(data, i)[k] == Line(data, i + 16 * k)
    decreases k
  {
    hide Line;
    if k > 0 {
      LineAt(data, i + 16, k - 1);
    }
  }

  /** The dump of any bytes reads back to them and has one line for every sixteen. */
  lemma DumpIsInvertible(data: seq<Byte>)
    ensures Read(Join(Lines(data, 0), "\n")) == Some(data)
    ensures |SplitLines(Join(Lines(data, 0), "\n"))| == (|data| + 15) / 16
  {
    LinesReadBack(data, 0);
    LinesCounted(data, 0);
    SplitJoined(Lines(data, 0));
    assert data == [] || data[0..] == data;
  }

  /** The character that stands for a byte in the ASCII column. */
  ghost predicate Shows(c: char, b: Byte) {
    ' ' <= c <= '~' && if 32 <= b <= 126 then c as int == b else c == '.'
  }

  /** Where the parts of a line stand: its offset reads back to i, the hex columns take 49
      places, and the ASCII column between the bars shows every byte of the row. */
  ghost predicate LaidOut(line: string, row: seq<Byte>, i: nat) {
    var o := FirstIndex(line, ' ');
    && ReadHex(line[..o]) == Some(i)
    && |line| == o + 54 + |row|
    && line[o + 51..o + 53] == " |" && line[|line| - 1] == '|'
    && forall j | 0 <= j < |row| :: Shows(line[o + 53 + j], row[j])
  }

  lemma LineIsLaidOut(data: seq<Byte>, i: nat)
    ensures LaidOut(Line(data, i), Row(data, i), i)
  {
    var row, cells, o := LineParts(data, i);
    hide Row, HexColumns, Offset, Line, ReadColumns, ReadHex, FirstIndex, Ascii, Shows, HexText;
    OffsetReadsBack(i);
    HexColumnsLayout(row, 0);
    AsciiPrintable(row);
    var line, columns, ascii := Line(data, i), HexColumns(row, 0), Ascii(row);
    assert line[..o] == Offset(i);
    assert line[o + 2..] == cells;
    assert cells[|columns|..] == " |" + ascii + "|";
    assert cells[|columns| + 2..][..|ascii|] == ascii;
    forall j | 0 <= j < |row|
      ensures line[o + 53 + j] == ascii[j]
    {
      assert line[o + 2..][|columns| + 2 + j] == ascii[j];
    }
  }

  /** Every line of the dump is laid out for its row, with the offsets 0, 16, 32, ... */
  lemma LineLayout(data: seq<Byte>, k: nat)
    requires 16 * k < |data|
    ensures var lines := SplitLines(Join(Lines(data, 0), "\n"));
            k < |lines| && LaidOut(lines[k], Row(data, 16 * k), 16 * k)
  {
    hide *;
    LinesReadBack(data, 0);
    LineAt(data, 0, k);
    SplitJoined(Lines(data, 0));
    LineIsLaidOut(data, 16 * k);
  }
}
