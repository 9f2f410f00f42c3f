/** The tokenizer of REPL commands (splitCommand in internal/repl/repl.go). The code goes byte by
    byte. Every character it treats specially is ASCII, so a string may be read here as the
    bytes of the line or as its code points. */
module SplitCommand {

  /** The variables of the loop. */
  datatype Scan = Scan(inSingle: bool, inDouble: bool, braceLevel: nat, current: string, parts: seq<string>) {
    predicate InQuoted() {
      inSingle || inDouble
    }

    function Write(c: char): Scan {
      this.(current := current + [c])
    }

    function Flush(): Scan {
      if current == [] then this else this.(current := [], parts := parts + [current])
    }
  }

  const START := Scan(false, false, 0, [], [])

  /** One character that is not part of an escape. */
  function Char(st: Scan, c: char): Scan {
    if c == '\'' && !st.inDouble then
      var next := st.(inSingle := !st.inSingle);
      if st.braceLevel > 0 then next.Write(c) else next
    else if c == '"' && !st.inSingle then
      var next := st.(inDouble := !st.inDouble);
      if st.braceLevel > 0 then next.Write(c) else next
    else if c == '{' && !st.InQuoted() then st.(braceLevel := st.braceLevel + 1).Write(c)
    else if c == '}' && !st.InQuoted() then
      st.(braceLevel := if st.braceLevel > 0 then st.braceLevel - 1 else 0).Write(c)
    else if c <= ' ' && !st.InQuoted() && st.braceLevel == 0 then st.Flush()
    else st.Write(c)
  }

  function Rest(line: string, st: Scan): seq<string>
    decreases |line|
  {
    if line == [] then st.Flush().parts
    else if line[0] == '\\' && !st.inSingle && |line| > 1 then Rest(line[2..], st.Write(line[1]))
    else Rest(line[1..], Char(st, line[0]))
  }

  /** The arguments of a command line. */
  function Split(line: string): seq<string> {
    Rest(line, START)
  }

  method SplitLine(line: string) returns (parts: seq<string>)
    ensures parts == Split(line)
  {
    parts := [];
    var current: string := [];
    var inSingle, inDouble, braceLevel: nat := false, false, 0;
    var i := 0;
    assert line[0..] == line;
    while i < |line|
      invariant 0 <= i <= |line|
      invariant Rest(line[i..], Scan(inSingle, inDouble, braceLevel, current, parts)) == Split(line)
    {
      var c := line[i];
      assert line[i..][1..] == line[i + 1..];
      if c == '\\' && !inSingle && i + 1 < |line| {
        assert line[i..][2..] == line[i + 2..];
        current := current + [line[i + 1]];
        i := i + 2;
        continue;
      }
      var inQuoted := inSingle || inDouble;
      if c == '\'' && !inDouble {
        inSingle := !inSingle;
        if braceLevel > 0 {
          current := current + [c];
        }
      } else if c == '"' && !inSingle {
        inDouble := !inDouble;
        if braceLevel > 0 {
          current := current + [c];
        }
      } else if c == '{' && !inQuoted {
        braceLevel := braceLevel + 1;
        current := current + [c];
      } else if c == '}' && !inQuoted {
        if braceLevel > 0 {
          braceLevel := braceLevel - 1;
        }
        current := current + [c];
      } else if c <= ' ' && !inQuoted && braceLevel == 0 {
        if |current| > 0 {
          parts := parts + [current];
          current := [];
        }
      } else {
        current := current + [c];
      }
      i := i + 1;
    }
    if |current| > 0 {
      parts := parts + [current];
    }
  }

  // ---- what a user can type for an argument ----

  /** A stretch of an argument in one of the styles the tokenizer understands. */
  datatype Piece =
    | Escaped(text: string)   // a backslash before every byte
    | Single(text: string)    // between single quotes, as it is
    | Double(text: string)    // between double quotes, backslash before backslash and quote
    | Bare(text: string)      // as it is
    | Braced(text: string)    // balanced braces, as they are

  predicate Writable(p: Piece) {
    match p
    case Escaped(_) => true
    case Single(t) => '\'' !in t
    case Double(_) => true
    case Bare(t) => forall c | c in t :: c > ' ' && c !in ['\\', '\'', '"', '{']
    case Braced(t) => Balanced(t, 0, false, false)
  }

  /** Braces outside quotes balance, every other character stands inside them, quotes are closed,
      and there is no backslash outside single quotes. */
  predicate Balanced(t: string, level: nat, inSingle: bool, inDouble: bool)
    decreases |t|
  {
    if t == [] then level == 0 && !inSingle && !inDouble
    else
      var c, quoted, rest := t[0], inSingle || inDouble, t[1..];
      && (c == '\\' ==> inSingle)
      && if c == '{' && !quoted then Balanced(rest, level + 1, false, false)
         else
           && level > 0
           && if c == '}' && !quoted then Balanced(rest, level - 1, false, false)
              else if c == '\'' && !inDouble then Balanced(rest, level, !inSingle, false)
              else if c == '"' && !inSingle then Balanced(rest, level, false, !inDouble)
              else Balanced(rest, level, inSingle, inDouble)
  }

  function EscapeAll(t: string): string {
    if t == [] then [] else ['\\', t[0]] + EscapeAll(t[1..])
  }

  function EscapeInDouble(t: string): string {
    if t == [] then []
    else (if t[0] in ['\\', '"'] then ['\\', t[0]] else [t[0]]) + EscapeInDouble(t[1..])
  }

  function Typed(p: Piece): string {
    match p
    case Escaped(t) => EscapeAll(t)
    case Single(t) => ['\''] + t + ['\'']
    case Double(t) => ['"'] + EscapeInDouble(t) + ['"']
    case Bare(t) => t
    case Braced(t) => t
  }

  /** An argument is typed piece after piece. */
  function TypedArg(pieces: seq<Piece>): string {
    if pieces == [] then [] else Typed(pieces[0]) + TypedArg(pieces[1..])
  }

  function Meaning(pieces: seq<Piece>): string {
    if pieces == [] then [] else pieces[0].text + Meaning(pieces[1..])
  }

  /** Arguments are separated by one space. */
  function TypedLine(args: seq<seq<Piece>>): string
    decreases |args|, 0
  {
    if args == [] then [] else TypedArg(args[0]) + Separated(args[1..])
  }

  function Separated(args: seq<seq<Piece>>): string
    decreases |args|, 1
  {
    if args == [] then [] else [' '] + TypedLine(args)
  }

  function Meanings(args: seq<seq<Piece>>): (ms: seq<string>)
    ensures |ms| == |args|
  {
    if args == [] then [] else [Meaning(args[0])] + Meanings(args[1..])
  }

  ghost predicate WritableArg(pieces: seq<Piece>) {
    forall p | p in pieces :: Writable(p)
  }

  // ---- the pieces, one style at a time ----

  function Grown(st: Scan, t: string): Scan {
    st.(current := st.current + t)
  }

  lemma GrownTwice(st: Scan, c: char, t: string)
    requires t != [] && t[0] == c
    ensures Grown(Grown(st, [c]), t[1..]) == Grown(st, t)
    ensures st.Write(c) == Grown(st, [c])
  {
    assert t == [c] + t[1..];
    assert st.current + [c] + t[1..] == st.current + t;
  }

  lemma GrownByBoth(st: Scan, a: string, b: string)
    ensures Grown(Grown(st, a), b) == Grown(st, a + b)
    ensures Grown(st, a).InQuoted() == st.InQuoted() && Grown(st, a).braceLevel == st.braceLevel
  {
    assert st.current + a + b == st.current + (a + b);
  }

  lemma GrownByNothing(st: Scan)
    ensures Grown(st, []) == st
  {
    assert st.current + [] == st.current;
  }

  lemma {:induction false} EscapedScans(t: string, rest: string, st: Scan)
    requires !st.inSingle
    ensures Rest(EscapeAll(t) + rest, st) == Rest(rest, Grown(st, t))
    decreases |t|
  {
    if t == [] {
      GrownByNothing(st);
      assert EscapeAll(t) + rest == rest;
    } else {
      GrownTwice(st, t[0], t);
      EscapedScans(t[1..], rest, st.Write(t[0]));
      var line := EscapeAll(t) + rest;
      assert line[0] == '\\' && line[1] == t[0];
      assert line[2..] == EscapeAll(t[1..]) + rest;
    }
  }

  lemma {:induction false} SingleScans(t: string, rest: string, st: Scan)
    requires st.inSingle && !st.inDouble && '\'' !in t
    ensures Rest(t + rest, st) == Rest(rest, Grown(st, t))
    decreases |t|
  {
    if t == [] {
      GrownByNothing(st);
      assert t + rest == rest;
    } else {
      GrownTwice(st, t[0], t);
      SingleScans(t[1..], rest, st.Write(t[0]));
      assert (t + rest)[1..] == t[1..] + rest;
    }
  }

  lemma {:induction false} DoubleScans(t: string, rest: string, st: Scan)
    requires st.inDouble && !st.inSingle && rest != []
    ensures Rest(EscapeInDouble(t) + rest, st) == Rest(rest, Grown(st, t))
    decreases |t|
  {
    if t == [] {
      GrownByNothing(st);
      assert EscapeInDouble(t) + rest == rest;
    } else {
      GrownTwice(st, t[0], t);
      DoubleScans(t[1..], rest, st.Write(t[0]));
      var later := EscapeInDouble(t[1..]) + rest;
      if t[0] in ['\\', '"'] {
        assert EscapeInDouble(t) + rest == ['\\', t[0]] + later;
        assert (['\\', t[0]] + later)[2..] == later;
      } else {
        assert EscapeInDouble(t) + rest == [t[0]] + later;
        assert ([t[0]] + later)[1..] == later;
      }
    }
  }

  lemma {:induction false} BareScans(t: string, rest: string, st: Scan)
    requires !st.InQuoted() && st.braceLevel == 0 && Writable(Bare(t))
    ensures Rest(t + rest, st) == Rest(rest, Grown(st, t))
    decreases |t|
  {
    if t == [] {
      GrownByNothing(st);
      assert t + rest == rest;
    } else {
      GrownTwice(st, t[0], t);
      assert t[0] in t && forall c | c in t[1..] :: c in t;
      BareScans(t[1..], rest, st.Write(t[0]));
      assert (t + rest)[1..] == t[1..] + rest;
    }
  }

  lemma {:induction false} BracedScans(t: string, rest: string, st: Scan)
    requires Balanced(t, st.braceLevel, st.inSingle, st.inDouble) && !(st.inSingle && st.inDouble)
    ensures Rest(t + rest, st)
         == Rest(rest, Grown(st, t).(braceLevel := 0, inSingle := false, inDouble := false))
    decreases |t|
  {
    if t == [] {
      GrownByNothing(st);
      assert t + rest == rest;
    } else {
      GrownTwice(st, t[0], t);
      var next := Char(st, t[0]);
      assert next.current == st.current + [t[0]];
      BracedScans(t[1..], rest, next);
      assert (t + rest)[1..] == t[1..] + rest;
    }
  }

  lemma QuotedSingleScans(t: string, rest: string, st: Scan)
    requires Writable(Single(t)) && !st.InQuoted() && st.braceLevel == 0
    ensures Rest(['\''] + t + ['\''] + rest, st) == Rest(rest, Grown(st, t))
  {
    var line, inside := ['\''] + t + ['\''] + rest, t + (['\''] + rest);
    assert line == ['\''] + inside && line[1..] == inside;
    SingleScans(t, ['\''] + rest, st.(inSingle := true));
    assert (['\''] + rest)[1..] == rest;
  }

  lemma QuotedDoubleScans(t: string, rest: string, st: Scan)
    requires !st.InQuoted() && st.braceLevel == 0
    ensures Rest(['"'] + EscapeInDouble(t) + ['"'] + rest, st) == Rest(rest, Grown(st, t))
  {
    hide EscapeInDouble;
    var line, inside := ['"'] + EscapeInDouble(t) + ['"'] + rest, EscapeInDouble(t) + (['"'] + rest);
    assert line == ['"'] + inside && line[1..] == inside;
    DoubleScans(t, ['"'] + rest, st.(inDouble := true));
    assert (['"'] + rest)[1..] == rest;
  }

  lemma PieceScans(p: Piece, rest: string, st: Scan)
    requires Writable(p) && !st.InQuoted() && st.braceLevel == 0
    ensures Rest(Typed(p) + rest, st) == Rest(rest, Grown(st, p.text))
  {
    hide Rest, Grown, EscapeInDouble, EscapeAll;
    match p
    case Escaped(t) => EscapedScans(t, rest, st);
    case Single(t) => QuotedSingleScans(t, rest, st);
    case Double(t) => QuotedDoubleScans(t, rest, st);
    case Bare(t) => BareScans(t, rest, st);
    case Braced(t) =>
      BracedScans(t, rest, st);
      assert Grown(st, t).(braceLevel := 0, inSingle := false, inDouble := false) == Grown(st, t) by {
        GrownKeepsState(st, t);
      }
  }

  lemma GrownKeepsState(st: Scan, t: string)
    ensures Grown(st, t) == st.(current := Grown(st, t).current)
  {
  }

  lemma {:induction false} ArgScans(pieces: seq<Piece>, rest: string, st: Scan)
    requires WritableArg(pieces) && !st.InQuoted() && st.braceLevel == 0
    ensures Rest(TypedArg(pieces) + rest, st) == Rest(rest, Grown(st, Meaning(pieces)))
    decreases |pieces|
  {
    hide Rest, Typed, Writable, Grown;
    if pieces == [] {
      GrownByNothing(st);
      assert TypedArg(pieces) + rest == rest;
    } else {
      var p, later := pieces[0], TypedArg(pieces[1..]) + rest;
      assert p in pieces;
      PieceScans(p, later, st);
      GrownByBoth(st, p.text, Meaning(pieces[1..]));
      ArgScans(pieces[1..], rest, Grown(st, p.text));
      assert TypedArg(pieces) + rest == Typed(p) + later;
    }
  }

  lemma SpaceEndsToken(m: string, parts: seq<string>, rest: string)
    requires m != []
    ensures Rest([' '] + rest, Grown(START.(parts := parts), m)) == Rest(rest, START.(parts := parts + [m]))
    ensures Rest([], Grown(START.(parts := parts), m)) == parts + [m]
  {
    assert ([' '] + rest)[1..] == rest;
    assert [] + m == m;
  }

  lemma {:induction false} LineScans(args: seq<seq<Piece>>, parts: seq<string>)
    requires forall a | a in args :: WritableArg(a) && Meaning(a) != []
    ensures Rest(TypedLine(args), START.(parts := parts)) == parts + Meanings(args)
    decreases |args|
  {
    hide TypedArg, Meaning, WritableArg, Grown;
    if args == [] {
      assert parts + [] == parts;
    } else {
      hide Rest, TypedLine;
      var a, m, later := args[0], Meaning(args[0]), args[1..];
      assert a in args;
      assert TypedLine(args) == TypedArg(a) + Separated(later) by {
        TypedLineFirst(args);
      }
      ArgScans(a, Separated(later), START.(parts := parts));
      SpaceEndsToken(m, parts, TypedLine(later));
      LineScans(later, parts + [m]);
      assert later == [] ==> Meanings(later) == [];
      assert parts + [m] + Meanings(later) == parts + ([m] + Meanings(later));
    }
  }

  lemma TypedLineFirst(args: seq<seq<Piece>>)
    requires args != []
    ensures TypedLine(args) == TypedArg(args[0]) + Separated(args[1..])
  {
  }

  /** However the arguments are typed, piece by piece in any of the five styles, the tokenizer
      finds what they mean, provided that none of them is empty. */
  lemma SplitUndoesQuoting(args: seq<seq<Piece>>)
    requires forall a | a in args :: WritableArg(a) && Meaning(a) != []
    ensures Split(TypedLine(args)) == Meanings(args)
  {
    LineScans(args, []);
    assert START.(parts := []) == START && [] + Meanings(args) == Meanings(args);
  }

  // ---- any blanks between, before and behind the arguments ----

  /** Characters that end an argument: the blank and all control characters before it. */
  ghost predicate Blank(s: string) {
    forall c | c in s :: c <= ' '
  }

  /** The arguments with a gap before each and one behind the last. */
  function Spaced(args: seq<seq<Piece>>, gaps: seq<string>): string
    requires |gaps| == |args| + 1
    decreases |args|
  {
    if args == [] then gaps[0] else gaps[0] + (TypedArg(args[0]) + Spaced(args[1..], gaps[1..]))
  }

  lemma {:induction false} BlanksAreSkipped(gap: string, rest: string, parts: seq<string>)
    requires Blank(gap)
    ensures Rest(gap + rest, START.(parts := parts)) == Rest(rest, START.(parts := parts))
    decreases |gap|
  {
    if gap == [] {
      assert gap + rest == rest;
    } else {
      assert gap[0] in gap && forall c | c in gap[1..] :: c in gap;
      assert (gap + rest)[1..] == gap[1..] + rest;
      BlanksAreSkipped(gap[1..], rest, parts);
    }
  }

  lemma BlanksEndToken(m: string, parts: seq<string>, gap: string, rest: string)
    requires m != [] && Blank(gap) && gap != []
    ensures Rest(gap + rest, Grown(START.(parts := parts), m)) == Rest(rest, START.(parts := parts + [m]))
  {
    assert gap[0] in gap && forall c | c in gap[1..] :: c in gap;
    assert (gap + rest)[1..] == gap[1..] + rest;
    assert [] + m == m;
    BlanksAreSkipped(gap[1..], rest, parts + [m]);
  }

  lemma {:induction false} SpacedScans(args: seq<seq<Piece>>, gaps: seq<string>, parts: seq<string>)
    requires |gaps| == |args| + 1 && forall k | 0 <= k < |gaps| :: Blank(gaps[k])
    requires forall k | 0 < k < |args| :: gaps[k] != []
    requires forall a | a in args :: WritableArg(a) && Meaning(a) != []
    ensures Rest(Spaced(args, gaps), START.(parts := parts)) == parts + Meanings(args)
    decreases |args|
  {
    hide TypedArg, Meaning, WritableArg, Grown, Blank;
    if args == [] {
      BlanksAreSkipped(gaps[0], [], parts);
      assert gaps[0] + [] == gaps[0] && parts + [] == parts;
    } else {
      hide Rest;
      var a, m, later, rest := args[0], Meaning(args[0]), args[1..], Spaced(args[1..], gaps[1..]);
      assert a in args && forall x | x in later :: x in args;
      BlanksAreSkipped(gaps[0], TypedArg(a) + rest, parts);
      ArgScans(a, rest, START.(parts := parts));
      SpacedScans(later, gaps[1..], parts + [m]);
      AfterToken(later, gaps[1..], m, parts);
      assert parts + [m] + Meanings(later) == parts + ([m] + Meanings(later));
    }
  }

  /** A token ends with the gap behind it, or with the line. */
  lemma AfterToken(args: seq<seq<Piece>>, gaps: seq<string>, m: string, parts: seq<string>)
    requires |gaps| == |args| + 1 && Blank(gaps[0]) && m != [] && (args != [] ==> gaps[0] != [])
    ensures Rest(Spaced(args, gaps), Grown(START.(parts := parts), m))
         == Rest(Spaced(args, gaps), START.(parts := parts + [m]))
  {
    var rest := if args == [] then [] else TypedArg(args[0]) + Spaced(args[1..], gaps[1..]);
    assert Spaced(args, gaps) == gaps[0] + rest;
    hide Spaced, TypedArg, Rest, Grown, Blank;
    if gaps[0] == [] {
      assert gaps[0] + rest == [];
      SpaceEndsToken(m, parts, []);
      BlanksAreSkipped([], [], parts + [m]);
      NothingToRead(parts + [m]);
    } else {
      BlanksEndToken(m, parts, gaps[0], rest);
      BlanksAreSkipped(gaps[0], rest, parts + [m]);
    }
  }

  lemma NothingToRead(parts: seq<string>)
    ensures Rest([], START.(parts := parts)) == parts
  {
  }

  /** However the arguments are typed and spaced, with tabs or runs of blanks between them and with
      blanks around them, the tokenizer finds what they mean. */
  lemma SplitIgnoresSpacing(args: seq<seq<Piece>>, gaps: seq<string>)
    requires |gaps| == |args| + 1 && forall k | 0 <= k < |gaps| :: Blank(gaps[k])
    requires forall k | 0 < k < |args| :: gaps[k] != []
    requires forall a | a in args :: WritableArg(a) && Meaning(a) != []
    ensures Split(Spaced(args, gaps)) == Meanings(args)
  {
    SpacedScans(args, gaps, []);
    assert START.(parts := []) == START && [] + Meanings(args) == Meanings(args);
  }

  // ---- odd ends ----

  /** A backslash at the end of the line stands for itself. */
  lemma TrailingBackslashStays(pieces: seq<Piece>)
    requires WritableArg(pieces)
    ensures Split(TypedArg(pieces) + ['\\']) == [Meaning(pieces) + ['\\']]
  {
    ArgScans(pieces, ['\\'], START);
    assert ['\\'][1..] == [];
    assert [] + Meaning(pieces) == Meaning(pieces);
  }

  /** A quote that is not closed takes the rest of the line. */
  lemma UnclosedQuoteTakesTheRest(text: string)
    requires text != [] && '\'' !in text
    ensures Split(['\''] + text) == [text]
  {
    var line := ['\''] + text;
    assert line[0] == '\'' && line[1..] == text;
    SingleScans(text, [], START.(inSingle := true));
    assert text + [] == text && [] + text == text;
  }

  /** Also in braces a backslash is dropped and the character after it kept, as it is. */
  lemma BackslashInBraces(c: char)
    ensures Split(['{', '\\', c, '}']) == [['{', c, '}']]
  {
    var line, inside := ['{', '\\', c, '}'], START.(braceLevel := 1, current := ['{']);
    assert line[1..] == ['\\', c, '}'] && line[1..][2..] == ['}'] && ['}'][1..] == [];
    assert [] + ['{'] == ['{'] && ['{'] + [c] + ['}'] == ['{', c, '}'];
    assert Char(START, '{') == inside;
    var outside := START.(current := ['{', c, '}']);
    assert Char(inside.Write(c), '}') == outside;
    assert outside.Flush().parts == [['{', c, '}']];
    assert Rest([], outside) == [['{', c, '}']];
    assert Rest(['}'], inside.Write(c)) == Rest([], outside);
    assert Rest(['\\', c, '}'], inside) == Rest(['}'], inside.Write(c));
    assert Rest(line, START) == Rest(['\\', c, '}'], inside);
  }

  // ---- the exact reach of quoting every argument ----

  lemma {:induction false} NoEmptyParts(line: string, st: Scan)
    requires [] !in st.parts
    ensures [] !in Rest(line, st)
    decreases |line|
  {
    if line != [] {
      if line[0] == '\\' && !st.inSingle && |line| > 1 {
        NoEmptyParts(line[2..], st.Write(line[1]));
      } else {
        NoEmptyParts(line[1..], Char(st, line[0]));
      }
    }
  }

  /** Every argument typed as one piece of the given style. */
  function OnePiece(args: seq<string>, style: string -> Piece): (r: seq<seq<Piece>>)
    ensures |r| == |args| && forall k | 0 <= k < |r| :: r[k] == [style(args[k])]
  {
    seq(|args|, k requires 0 <= k < |args| => [style(args[k])])
  }

  lemma {:induction false} MeaningsOfOnePiece(args: seq<string>, typed: seq<seq<Piece>>)
    requires |typed| == |args| && forall k | 0 <= k < |args| :: |typed[k]| == 1 && typed[k][0].text == args[k]
    ensures Meanings(typed) == args
    ensures forall k | 0 <= k < |args| :: Meaning(typed[k]) == args[k]
  {
    forall k | 0 <= k < |args|
      ensures Meaning(typed[k]) == args[k]
    {
      assert typed[k][1..] == [] && args[k] + [] == args[k];
    }
    if args != [] {
      MeaningsOfOnePiece(args[1..], typed[1..]);
    }
  }

  lemma QuotingWorksWithoutEmpty(args: seq<string>, typed: seq<seq<Piece>>)
    requires |typed| == |args| && forall k | 0 <= k < |args| :: |typed[k]| == 1 && typed[k][0].text == args[k]
    requires forall k | 0 <= k < |args| :: Writable(typed[k][0])
    ensures Split(TypedLine(typed)) == args <==> [] !in args
  {
    MeaningsOfOnePiece(args, typed);
    if [] !in args {
      forall a | a in typed
        ensures WritableArg(a) && Meaning(a) != []
      {
        var k :| 0 <= k < |typed| && typed[k] == a;
        assert args[k] in args;
      }
      SplitUndoesQuoting(typed);
    } else {
      NoEmptyParts(TypedLine(typed), START);
    }
  }

  /** A backslash before every byte: exact for all lists without an empty argument. */
  lemma EscapingRoundTrip(args: seq<string>)
    ensures Split(TypedLine(OnePiece(args, t => Escaped(t)))) == args <==> [] !in args
  {
    QuotingWorksWithoutEmpty(args, OnePiece(args, t => Escaped(t)));
  }

  /** Single quotes around arguments that hold none: exact for all lists without an empty argument. */
  lemma SingleQuotingRoundTrip(args: seq<string>)
    requires forall a | a in args :: '\'' !in a
    ensures Split(TypedLine(OnePiece(args, t => Single(t)))) == args <==> [] !in args
  {
    var typed := OnePiece(args, t => Single(t));
    forall k | 0 <= k < |args|
      ensures Writable(typed[k][0])
    {
      assert args[k] in args;
    }
    QuotingWorksWithoutEmpty(args, typed);
  }

  /** A balanced fragment stays one token, spaces and quotes included. */
  lemma BracedFragmentIsOneToken(fragment: string)
    requires fragment != [] && Balanced(fragment, 0, false, false)
    ensures Split(fragment) == [fragment]
  {
    var typed := [[Braced(fragment)]];
    assert typed[0][1..] == [] && typed[1..] == [];
    assert Meaning(typed[0]) == fragment + [] == fragment;
    assert TypedArg(typed[0]) == fragment + [] == fragment;
    assert Meanings(typed) == [fragment] + [];
    SplitUndoesQuoting(typed);
  }
}
