/** The bodies of script aliases (ExecuteCommand in internal/repl/repl.go): arguments are substituted
    by one pass over the text after the other. */
module AliasExpansion {
  import opened Text

  function Positional(body: string, args: seq<string>, i: nat): string
    requires i <= |args|
  {
    if i == 0 then body else ReplaceAll(Positional(body, args, i - 1), "$" + Decimal(i), args[i - 1])
  }

  function Cleaned(s: string, i: nat): string {
    if i == 0 then s else ReplaceAll(Cleaned(s, i - 1), "$" + Decimal(i), "")
  }

  /** The body with $1, $2, ... and $@ replaced and the placeholders $1 to $9 left over removed. */
  function Substituted(body: string, args: seq<string>): string {
    Cleaned(ReplaceAll(Positional(body, args, |args|), "$@", Join(args, " ")), 9)
  }

  // ---- substitution in one reading ----

  /** The characters that make a placeholder of a dollar sign before them. */
  predicate Names(c: char) {
    '1' <= c <= '9' || c == '@'
  }

  /** A body is read once, from the left. */
  datatype Token = Literal(c: char) | Hole(name: char)

  function Tokens(body: string): seq<Token> {
    if body == "" then []
    else if body[0] == '$' && |body| > 1 && Names(body[1]) then [Hole(body[1])] + Tokens(body[2..])
    else [Literal(body[0])] + Tokens(body[1..])
  }

  function Show(t: Token, f: char -> string): string {
    match t
    case Literal(c) => [c]
    case Hole(x) => f(x)
  }

  function Filled(tokens: seq<Token>, f: char -> string): string {
    if tokens == [] then "" else Show(tokens[0], f) + Filled(tokens[1..], f)
  }

  /** $1 to $9 stand for an argument, or for nothing if there is none, and $@ for all of them. */
  function Value(args: seq<string>): char -> string {
    (x: char) => if x == '@' then Join(args, " ") else Argument(x, args)
  }

  function Argument(x: char, args: seq<string>): string {
    if '1' <= x <= '9' && Index(x) <= |args| then args[Index(x) - 1] else ""
  }

  function Index(x: char): nat
    requires '1' <= x <= '9'
  {
    x as int - '0' as int
  }

  function Simultaneous(body: string, args: seq<string>): string {
    Filled(Tokens(body), Value(args))
  }

  /** A dollar sign stands directly before a placeholder. */
  predicate Ambiguous(body: string) {
    |body| > 2 && (DollarsFirst(body) || Ambiguous(body[1..]))
  }

  predicate DollarsFirst(body: string) {
    |body| > 2 && body[0] == '$' && body[1] == '$' && Names(body[2])
  }

  /** Every dollar sign is followed, in the text itself, by a character that makes no placeholder. */
  predicate Inert(s: string) {
    forall i | 0 <= i < |s| && s[i] == '$' :: i + 1 < |s| && !Names(s[i + 1])
  }

  /** The arguments that $1 to $9 stand for are inert, and so is what $@ stands for. */
  predicate Harmless(args: seq<string>) {
    Inert(Join(args, " ")) && forall k | 0 <= k < |args| && k < 9 :: Inert(args[k])
  }

  lemma {:induction false} NothingToReplace(s: string, pattern: string, with: string)
    requires pattern != "" && pattern[0] !in s
    ensures ReplaceAll(s, pattern, with) == s
    decreases |s|
  {
    if |s| >= |pattern| {
      assert s[0] in s;
      assert forall c | c in s[1..] :: c in s;
      NothingToReplace(s[1..], pattern, with);
    }
  }

  lemma {:induction false} NothingToClean(s: string, i: nat)
    requires '$' !in s
    ensures Cleaned(s, i) == s
  {
    if i > 0 {
      NothingToClean(s, i - 1);
      NothingToReplace(s, "$" + Decimal(i), "");
    }
  }

  // ---- one pass ----

  /** No literal dollar sign is directly followed by the character. */
  ghost predicate Guarded(tokens: seq<Token>, f: char -> string, x: char) {
    tokens != [] ==>
      && (tokens[0] == Literal('$') ==> Filled(tokens[1..], f) == "" || Filled(tokens[1..], f)[0] != x)
      && Guarded(tokens[1..], f, x)
  }

  ghost predicate Named(tokens: seq<Token>) {
    forall t | t in tokens && t.Hole? :: Names(t.name)
  }

  /** Placeholders are filled or still there. */
  ghost predicate Partly(f: char -> string) {
    forall y | Names(y) :: f(y) == ['$', y] || Inert(f(y))
  }

  /** The pass with the pattern takes f to g: it fills the placeholder x if that is still there. */
  ghost predicate Fills(pattern: string, w: string, f: char -> string, g: char -> string) {
    && |pattern| >= 2 && pattern[0] == '$' && Names(pattern[1])
    && (forall y | Names(y) && y != pattern[1] :: g(y) == f(y))
    && var x := pattern[1];
       if f(x) == ['$', x] then pattern == ['$', x] && g(x) == w else g(x) == f(x)
  }

  lemma {:induction false} SkipText(text: string, rest: string, pattern: string, w: string)
    requires |pattern| >= 2 && pattern[0] == '$' && Names(pattern[1]) && Inert(text)
    ensures ReplaceAll(text + rest, pattern, w) == text + ReplaceAll(rest, pattern, w)
  {
    if text == "" {
      assert text + rest == rest;
      assert text + ReplaceAll(rest, pattern, w) == ReplaceAll(rest, pattern, w);
    } else {
      hide ReplaceAll, Names;
      assert forall i | 0 <= i < |text[1..]| :: text[1..][i] == text[i + 1];
      SkipText(text[1..], rest, pattern, w);
      ReplaceSkip(text[0], pattern, w, text[1..] + rest);
      assert text + rest == [text[0]] + (text[1..] + rest);
    }
  }

  lemma HoleFilled(y: char, f: char -> string, g: char -> string, pattern: string, w: string, rest: string)
    requires Names(y) && Partly(f) && Fills(pattern, w, f, g)
    ensures ReplaceAll(f(y) + rest, pattern, w) == g(y) + ReplaceAll(rest, pattern, w)
  {
    hide ReplaceAll;
    if f(y) != ['$', y] {
      SkipText(f(y), rest, pattern, w);
    } else if y == pattern[1] {
      ReplaceHead(pattern, w, rest);
    } else {
      ReplaceSkip(y, pattern, w, rest);
      ReplaceSkip('$', pattern, w, [y] + rest);
      var out := ReplaceAll(rest, pattern, w);
      assert ['$', y] + rest == ['$'] + ([y] + rest);
      assert ['$', y] + out == ['$'] + ([y] + out);
    }
  }

  lemma {:induction false} PassFills(tokens: seq<Token>, f: char -> string, g: char -> string, pattern: string,
                                     w: string)
    requires Named(tokens) && Partly(f) && Fills(pattern, w, f, g) && Guarded(tokens, f, pattern[1])
    ensures ReplaceAll(Filled(tokens, f), pattern, w) == Filled(tokens, g)
  {
    if tokens != [] {
      hide ReplaceAll, Fills, Partly;
      assert tokens[0] in tokens && forall t | t in tokens[1..] :: t in tokens;
      PassFills(tokens[1..], f, g, pattern, w);
      var rest := Filled(tokens[1..], f);
      match tokens[0]
      case Literal(c) => PatternSkips(c, pattern, w, f, g, rest);
      case Hole(y) => HoleFilled(y, f, g, pattern, w, rest);
    } else {
      assert ReplaceAll("", pattern, w) == "";
    }
  }

  lemma PatternSkips(c: char, pattern: string, w: string, f: char -> string, g: char -> string, rest: string)
    requires Fills(pattern, w, f, g) && (c == '$' ==> rest == "" || rest[0] != pattern[1])
    ensures ReplaceAll([c] + rest, pattern, w) == [c] + ReplaceAll(rest, pattern, w)
  {
    ReplaceSkip(c, pattern, w, rest);
    hide ReplaceAll;
  }

  // ---- all passes ----

  /** The first i positional passes are done, then the one for all arguments, then j of those that
      remove what is left over. */
  function Stage(args: seq<string>, i: nat, all: bool, j: nat): char -> string
    requires i <= |args|
  {
    (y: char) =>
      if y == '@' then if all then Join(args, " ") else "$@"
      else if '1' <= y <= '9' && Index(y) <= i then args[Index(y) - 1]
      else if '1' <= y <= '9' && Index(y) <= j then ""
      else ['$', y]
  }

  /** No pass finds its placeholder behind a literal dollar sign. */
  ghost predicate Undisturbed(tokens: seq<Token>, args: seq<string>) {
    && (forall i | 0 <= i < |args| :: Guarded(tokens, Stage(args, i, false, 0), Decimal(i + 1)[0]))
    && Guarded(tokens, Stage(args, |args|, false, 0), '@')
  }

  lemma {:induction false} DecimalStarts(n: nat)
    requires n > 0
    ensures |Decimal(n)| > 0 && '1' <= Decimal(n)[0] <= '9'
    ensures n < 10 ==> Decimal(n) == [Decimal(n)[0]] && Index(Decimal(n)[0]) == n
    ensures n >= 10 ==> |Decimal(n)| > 1
  {
    if n >= 10 {
      DecimalStarts(n / 10);
    }
  }

  lemma InertAppend(a: string, b: string)
    requires Inert(a) && Inert(b)
    ensures Inert(a + b)
  {
    hide Names;
  }

  lemma {:induction false} JoinIsInert(args: seq<string>)
    requires forall k | 0 <= k < |args| :: Inert(args[k])
    ensures Inert(Join(args, " "))
  {
    if |args| > 1 {
      assert forall k | 0 <= k < |args[1..]| :: args[1..][k] == args[k + 1];
      JoinIsInert(args[1..]);
      InertAppend(args[0], " ");
      InertAppend(args[0] + " ", Join(args[1..], " "));
    }
  }

  /** Of up to nine arguments, it just means that each is inert. */
  lemma HarmlessOfNine(args: seq<string>)
    ensures (forall k | 0 <= k < |args| :: Inert(args[k])) ==> Harmless(args)
    ensures |args| <= 9 && Harmless(args) ==> forall k | 0 <= k < |args| :: Inert(args[k])
  {
    hide Inert;
    if forall k | 0 <= k < |args| :: Inert(args[k]) {
      JoinIsInert(args);
    }
  }

  lemma StagesArePartly(args: seq<string>, i: nat, all: bool, j: nat)
    requires i <= |args| && Harmless(args)
    ensures Partly(Stage(args, i, all, j))
  {
    hide Join;
    assert Inert("");
  }

  lemma SameIndex(x: char, y: char)
    requires '1' <= x <= '9' && '1' <= y <= '9' && Index(x) == Index(y)
    ensures x == y
  {
  }

  /** One more positional pass concerns one placeholder, if any. */
  lemma StageNext(args: seq<string>, i: nat, y: char)
    requires i < |args| && Names(y)
    ensures y != '@' && Index(y) == i + 1 ==>
              Stage(args, i, false, 0)(y) == ['$', y] && Stage(args, i + 1, false, 0)(y) == args[i]
    ensures y == '@' || Index(y) != i + 1 ==> Stage(args, i + 1, false, 0)(y) == Stage(args, i, false, 0)(y)
    ensures y != '@' && Index(y) <= i ==> Stage(args, i, false, 0)(y) == args[Index(y) - 1]
  {
    hide Join;
  }

  lemma PositionalStep(args: seq<string>, i: nat)
    requires i < |args| && Harmless(args)
    ensures Fills("$" + Decimal(i + 1), args[i], Stage(args, i, false, 0), Stage(args, i + 1, false, 0))
  {
    DecimalStarts(i + 1);
    var pattern, x := "$" + Decimal(i + 1), Decimal(i + 1)[0];
    hide Decimal, Join, Stage, Index;
    var f, g := Stage(args, i, false, 0), Stage(args, i + 1, false, 0);
    assert pattern[0] == '$' && pattern[1] == x;
    forall y | Names(y) && y != x
      ensures g(y) == f(y)
    {
      StageNext(args, i, y);
      if y != '@' && Index(y) == i + 1 {
        NineAtMost(y);
        SameIndex(x, y);
      }
    }
    StageNext(args, i, x);
    NineAtMost(x);
    if i + 1 < 10 {
      assert pattern == ['$', x];
    } else {
      assert Inert(args[Index(x) - 1]);
      hide Harmless;
    }
  }

  lemma NineAtMost(x: char)
    requires '1' <= x <= '9'
    ensures 1 <= Index(x) <= 9
  {
  }

  lemma NextPositional(body: string, args: seq<string>, i: nat)
    requires 0 < i <= |args|
    ensures Positional(body, args, i) == ReplaceAll(Positional(body, args, i - 1), "$" + Decimal(i), args[i - 1])
  {
    hide ReplaceAll, Decimal;
  }

  lemma UndisturbedAt(tokens: seq<Token>, args: seq<string>, i: nat)
    requires i < |args| && Undisturbed(tokens, args)
    ensures |Decimal(i + 1)| > 0 && Guarded(tokens, Stage(args, i, false, 0), Decimal(i + 1)[0])
  {
    DecimalStarts(i + 1);
    hide Guarded, Decimal, Stage;
  }

  lemma PositionalPass(tokens: seq<Token>, args: seq<string>, i: nat)
    requires 0 < i <= |args| && Harmless(args) && Named(tokens)
    requires |Decimal(i)| > 0 && Guarded(tokens, Stage(args, i - 1, false, 0), Decimal(i)[0])
    ensures ReplaceAll(Filled(tokens, Stage(args, i - 1, false, 0)), "$" + Decimal(i), args[i - 1])
         == Filled(tokens, Stage(args, i, false, 0))
  {
    hide *;
    StagesArePartly(args, i - 1, false, 0);
    PositionalStep(args, i - 1);
    assert ("$" + Decimal(i))[1] == Decimal(i)[0];
    PassFills(tokens, Stage(args, i - 1, false, 0), Stage(args, i, false, 0), "$" + Decimal(i), args[i - 1]);
  }

  lemma {:induction false} PositionalFills(body: string, args: seq<string>, i: nat)
    requires i <= |args| && Harmless(args) && Undisturbed(Tokens(body), args)
    ensures Positional(body, args, i) == Filled(Tokens(body), Stage(args, i, false, 0))
  {
    if i == 0 {
      RawText(body, Stage(args, 0, false, 0));
    } else {
      hide *;
      PositionalFills(body, args, i - 1);
      PositionalPass(Tokens(body), args, i) by {
        TokensAreNamed(body);
        UndisturbedAt(Tokens(body), args, i - 1);
      }
      NextPositional(body, args, i);
    }
  }

  lemma {:induction false} TokensAreNamed(body: string)
    ensures Named(Tokens(body))
  {
    if body != "" {
      TokensAreNamed(if Tokens(body)[0].Hole? then body[2..] else body[1..]);
    }
  }

  lemma {:induction false} RawText(body: string, f: char -> string)
    requires forall y | Names(y) :: f(y) == ['$', y]
    ensures Filled(Tokens(body), f) == body
  {
    if body != "" {
      if Tokens(body)[0].Hole? {
        RawText(body[2..], f);
      } else {
        RawText(body[1..], f);
      }
    }
  }

  /** Before anything left over is removed. */
  lemma PassesFill(body: string, args: seq<string>)
    requires Harmless(args) && Undisturbed(Tokens(body), args)
    ensures ReplaceAll(Positional(body, args, |args|), "$@", Join(args, " "))
         == Filled(Tokens(body), Stage(args, |args|, true, 0))
  {
    PositionalFills(body, args, |args|);
    TokensAreNamed(body);
    StagesArePartly(args, |args|, false, 0);
    var f, g := Stage(args, |args|, false, 0), Stage(args, |args|, true, 0);
    assert Fills("$@", Join(args, " "), f, g);
    hide Tokens, Fills, Partly, Guarded, Named, Filled, Positional, Stage;
    PassFills(Tokens(body), f, g, "$@", Join(args, " "));
  }

  lemma CleaningStep(args: seq<string>, j: nat)
    requires 1 <= j <= 9 && Harmless(args)
    ensures Fills("$" + Decimal(j), "", Stage(args, |args|, true, j - 1), Stage(args, |args|, true, j))
    ensures Names(Decimal(j)[0]) && ("$" + Decimal(j))[1] == Decimal(j)[0]
  {
    DecimalStarts(j);
    hide Decimal;
    assert "$" + Decimal(j) == ['$', Decimal(j)[0]];
  }

  lemma {:induction false} CleaningFills(tokens: seq<Token>, args: seq<string>, j: nat)
    requires j <= 9 && Named(tokens) && Harmless(args)
    requires forall k, x | 0 <= k < 9 && Names(x) :: Guarded(tokens, Stage(args, |args|, true, k), x)
    ensures Cleaned(Filled(tokens, Stage(args, |args|, true, 0)), j) == Filled(tokens, Stage(args, |args|, true, j))
  {
    if j > 0 {
      hide Named, Guarded, Filled, Fills, Partly, Stage, Names, Harmless, Decimal;
      CleaningFills(tokens, args, j - 1);
      StagesArePartly(args, |args|, true, j - 1);
      CleaningStep(args, j);
      PassFills(tokens, Stage(args, |args|, true, j - 1), Stage(args, |args|, true, j), "$" + Decimal(j), "");
    }
  }

  lemma {:induction false} SameFilling(tokens: seq<Token>, f: char -> string, g: char -> string)
    requires Named(tokens) && forall y | Names(y) :: f(y) == g(y)
    ensures Filled(tokens, f) == Filled(tokens, g)
  {
    if tokens != [] {
      assert tokens[0] in tokens && forall t | t in tokens[1..] :: t in tokens;
      SameFilling(tokens[1..], f, g);
    }
  }

  // ---- where the passes do not disturb each other ----

  /** A literal dollar sign is followed by no placeholder, nor by what would make it one. */
  ghost predicate Plain(tokens: seq<Token>) {
    forall k | 0 <= k < |tokens| - 1 && tokens[k] == Literal('$') ::
      tokens[k + 1].Literal? && !Names(tokens[k + 1].c)
  }

  /** What is left to read behind the first token. */
  function Unread(body: string): (rest: string)
    requires body != ""
    ensures |rest| < |body| && Tokens(body)[1..] == Tokens(rest)
  {
    if Tokens(body)[0].Hole? then body[2..] else body[1..]
  }

  lemma AmbiguousUnread(body: string)
    requires body != ""
    ensures Ambiguous(body) <==> DollarsFirst(body) || Ambiguous(Unread(body))
    ensures DollarsFirst(body)
       <==> Tokens(body)[0] == Literal('$') && Unread(body) != "" && Tokens(Unread(body))[0].Hole?
    ensures Tokens(body)[0] == Literal('$') && Unread(body) != "" && Tokens(Unread(body))[0].Literal? ==>
              !Names(Tokens(Unread(body))[0].c)
  {
    if Tokens(body)[0].Hole? {
      assert body[1..][1..] == body[2..];
    }
  }

  lemma {:induction false} UnambiguousIsPlain(body: string)
    requires !Ambiguous(body)
    ensures Plain(Tokens(body))
    decreases |body|
  {
    if body != "" {
      AmbiguousUnread(body);
      UnambiguousIsPlain(Unread(body));
      hide Ambiguous, Unread, DollarsFirst, Names;
      PlainCons(Tokens(body));
    }
  }

  lemma PlainCons(tokens: seq<Token>)
    requires tokens != [] && Plain(tokens[1..])
    requires tokens[0] == Literal('$') && |tokens| > 1 ==> tokens[1].Literal? && !Names(tokens[1].c)
    ensures Plain(tokens)
  {
    assert forall k | 0 <= k < |tokens[1..]| :: tokens[1..][k] == tokens[k + 1];
    hide Names;
    forall k | 0 <= k < |tokens| - 1 && tokens[k] == Literal('$')
      ensures tokens[k + 1].Literal? && !Names(tokens[k + 1].c)
    {
      if k > 0 {
        assert tokens[1..][k - 1] == Literal('$') && tokens[1..][k] == tokens[k + 1];
      }
    }
  }

  lemma {:induction false} PlainIsGuarded(tokens: seq<Token>, f: char -> string, x: char)
    requires Plain(tokens) && Names(x)
    ensures Guarded(tokens, f, x)
  {
    if tokens != [] {
      assert forall k | 0 <= k < |tokens[1..]| :: tokens[1..][k] == tokens[k + 1];
      PlainIsGuarded(tokens[1..], f, x);
    }
  }

  /** If no dollar sign stands before a placeholder and none is in the arguments, of which there may
      be any number, the passes come to substitution in one reading. */
  lemma SubstitutionIsSimultaneous(body: string, args: seq<string>)
    requires !Ambiguous(body) && Harmless(args)
    ensures Substituted(body, args) == Simultaneous(body, args)
  {
    var tokens := Tokens(body);
    UnambiguousIsPlain(body);
    TokensAreNamed(body);
    hide Tokens, Plain, Guarded, Named, Filled, Ambiguous, Harmless, Positional, Stage;
    forall i | 0 <= i < |args|
      ensures Guarded(tokens, Stage(args, i, false, 0), Decimal(i + 1)[0])
    {
      DecimalStarts(i + 1);
      PlainIsGuarded(tokens, Stage(args, i, false, 0), Decimal(i + 1)[0]);
    }
    PlainIsGuarded(tokens, Stage(args, |args|, false, 0), '@');
    PassesFill(body, args);
    forall k, x | 0 <= k < 9 && Names(x)
      ensures Guarded(tokens, Stage(args, |args|, true, k), x)
    {
      PlainIsGuarded(tokens, Stage(args, |args|, true, k), x);
    }
    CleaningFills(tokens, args, 9);
    LastStage(args);
    SameFilling(tokens, Stage(args, |args|, true, 9), Value(args));
  }

  /** No dollar sign stands directly before what would make it a placeholder. */
  ghost predicate NoPlaceholder(s: string) {
    forall i | 0 <= i < |s| - 1 && s[i] == '$' :: !Names(s[i + 1])
  }

  lemma InertBefore(text: string, rest: string)
    requires Inert(text) && NoPlaceholder(rest)
    ensures NoPlaceholder(text + rest)
  {
    hide Names;
    var all := text + rest;
    forall i | 0 <= i < |all| - 1 && all[i] == '$'
      ensures !Names(all[i + 1])
    {
      if i >= |text| {
        assert rest[i - |text|] == '$' && rest[i - |text| + 1] == all[i + 1];
      }
    }
  }

  lemma {:induction false} PlainLeavesNone(tokens: seq<Token>, f: char -> string)
    requires Plain(tokens) && Named(tokens) && forall y | Names(y) :: Inert(f(y))
    ensures NoPlaceholder(Filled(tokens, f))
  {
    if tokens != [] {
      var rest := Filled(tokens[1..], f);
      assert forall k | 0 <= k < |tokens[1..]| :: tokens[1..][k] == tokens[k + 1];
      assert tokens[0] in tokens && forall t | t in tokens[1..] :: t in tokens;
      PlainLeavesNone(tokens[1..], f);
      if tokens[0] == Literal('$') {
        assert tokens[1..] != [] ==> !Names(rest[0]);
        DollarBefore(rest);
      } else {
        assert tokens[0].Literal? ==> Inert([tokens[0].c]);
        hide Filled, Names, NoPlaceholder, Plain;
        InertBefore(Show(tokens[0], f), rest);
        assert Filled(tokens, f) == Show(tokens[0], f) + rest by {
          FilledFirst(tokens, f);
        }
      }
    }
  }

  lemma FilledFirst(tokens: seq<Token>, f: char -> string)
    requires tokens != []
    ensures Filled(tokens, f) == Show(tokens[0], f) + Filled(tokens[1..], f)
  {
  }

  lemma DollarBefore(rest: string)
    requires NoPlaceholder(rest) && (rest == "" || !Names(rest[0]))
    ensures NoPlaceholder(['$'] + rest)
  {
    hide Names;
    var all := ['$'] + rest;
    forall i | 0 <= i < |all| - 1 && all[i] == '$'
      ensures !Names(all[i + 1])
    {
      assert all[i + 1] == rest[i];
      assert i > 0 ==> all[i] == rest[i - 1];
    }
  }

  /** Then no placeholder is left, in the body or in what is put into it. */
  lemma NoPlaceholderIsLeft(body: string, args: seq<string>)
    requires !Ambiguous(body) && Harmless(args)
    ensures NoPlaceholder(Substituted(body, args))
  {
    SubstitutionIsSimultaneous(body, args);
    UnambiguousIsPlain(body);
    TokensAreNamed(body);
    ValuesAreInert(args);
    hide Tokens, Plain, Named, Filled, Ambiguous, Harmless, Substituted, Value, NoPlaceholder;
    PlainLeavesNone(Tokens(body), Value(args));
  }

  lemma ValuesAreInert(args: seq<string>)
    requires Harmless(args)
    ensures forall y | Names(y) :: Inert(Value(args)(y))
  {
    hide Join;
    assert Inert("");
  }

  lemma LastStage(args: seq<string>)
    ensures forall y | Names(y) :: Stage(args, |args|, true, 9)(y) == Value(args)(y)
  {
  }

  // ---- where they do ----

  const ONES := ["1", "1", "1", "1", "1", "1", "1", "1", "1"]

  /** What the parse promises without any condition on the body. */
  ghost predicate Parsed(tokens: seq<Token>) {
    forall k | 0 <= k < |tokens| - 1 && tokens[k] == Literal('$') && tokens[k + 1].Literal? :: !Names(tokens[k + 1].c)
  }

  lemma {:induction false} TokensAreParsed(body: string)
    ensures Parsed(Tokens(body))
    ensures body != "" && Tokens(body)[0].Literal? ==> Tokens(body)[0].c == body[0]
  {
    if body != "" {
      var rest := if Tokens(body)[0].Hole? then body[2..] else body[1..];
      TokensAreParsed(rest);
      assert Tokens(body)[1..] == Tokens(rest);
    }
  }

  lemma {:induction false} HeadsGuard(tokens: seq<Token>, f: char -> string, x: char)
    requires Parsed(tokens) && Named(tokens) && Names(x)
    requires forall y | Names(y) :: f(y) != "" && f(y)[0] != x
    ensures Guarded(tokens, f, x)
  {
    if tokens != [] {
      assert forall k | 0 <= k < |tokens[1..]| :: tokens[1..][k] == tokens[k + 1];
      assert forall t | t in tokens[1..] :: t in tokens;
      HeadsGuard(tokens[1..], f, x);
      if tokens[1..] != [] {
        assert tokens[1] in tokens;
      }
    }
  }

  lemma {:induction false} AmbiguousHasHole(body: string) returns (k: nat)
    requires Ambiguous(body)
    ensures k < |Tokens(body)| - 1 && Tokens(body)[k] == Literal('$') && Tokens(body)[k + 1].Hole?
    decreases |body|
  {
    AmbiguousUnread(body);
    var tokens, rest := Tokens(body), Unread(body);
    assert tokens != [] && tokens[1..] == Tokens(rest);
    assert rest != "" ==> Tokens(rest) != [];
    hide Ambiguous, Unread, DollarsFirst, Tokens;
    if DollarsFirst(body) {
      assert tokens[1] == tokens[1..][0];
      k := 0;
    } else {
      k := AmbiguousHasHole(rest);
      assert tokens[k + 1] == tokens[1..][k] && tokens[k + 2] == tokens[1..][k + 1];
      k := k + 1;
    }
  }

  ghost predicate Occurs(pattern: string, s: string) {
    exists i | 0 <= i <= |s| :: pattern <= s[i..]
  }

  lemma {:induction false} HoleMakesPlaceholder(tokens: seq<Token>, f: char -> string, k: nat)
    requires Named(tokens) && k < |tokens| - 1 && tokens[k] == Literal('$') && tokens[k + 1].Hole?
    requires forall y | Names(y) :: f(y) != "" && f(y)[0] == '1'
    ensures Occurs("$1", Filled(tokens, f))
  {
    var s, rest := Filled(tokens, f), Filled(tokens[1..], f);
    assert forall t | t in tokens[1..] :: t in tokens;
    if k == 0 {
      assert tokens[1] in tokens && rest != "" && rest[0] == '1';
      assert "$1" <= s[0..];
    } else {
      HoleMakesPlaceholder(tokens[1..], f, k - 1);
      var i :| 0 <= i <= |rest| && "$1" <= rest[i..];
      var n := |s| - |rest|;
      assert s[n..] == rest && s[n + i..] == rest[i..];
    }
  }

  lemma {:induction false} RemovingShortens(s: string, pattern: string)
    requires pattern != ""
    ensures |ReplaceAll(s, pattern, "")| <= |s|
    ensures Occurs(pattern, s) ==> |ReplaceAll(s, pattern, "")| < |s|
    decreases |s|
  {
    if |s| < |pattern| {
      assert forall i | 0 <= i <= |s| :: |s[i..]| < |pattern|;
    } else if HasPrefix(s, pattern) {
      RemovingShortens(s[|pattern|..], pattern);
    } else {
      RemovingShortens(s[1..], pattern);
      if Occurs(pattern, s) {
        var i :| 0 <= i <= |s| && pattern <= s[i..];
        assert i > 0 by {
          assert s[0..] == s;
        }
        assert s[1..][i - 1..] == s[i..];
      }
    }
  }

  lemma {:induction false} CleaningShortens(s: string, j: nat)
    requires j >= 1 && Occurs("$1", s)
    ensures |Cleaned(s, j)| < |s|
  {
    hide Occurs, ReplaceAll;
    if j == 1 {
      assert "$" + Decimal(1) == "$1";
      assert Cleaned(s, 0) == s;
      RemovingShortens(s, "$1");
    } else {
      CleaningShortens(s, j - 1);
      RemovingShortens(Cleaned(s, j - 1), "$" + Decimal(j));
    }
  }

  lemma OnesAreHarmless()
    ensures Harmless(ONES)
  {
    hide Join;
    HarmlessOfNine(ONES);
  }

  lemma OnesUndisturbed(body: string)
    ensures Harmless(ONES) && Undisturbed(Tokens(body), ONES)
  {
    OnesAreHarmless();
    hide Join, Harmless;
    var tokens := Tokens(body);
    TokensAreParsed(body);
    TokensAreNamed(body);
    hide Tokens, Parsed, Named, Guarded;
    forall i | 0 <= i < |ONES|
      ensures Guarded(tokens, Stage(ONES, i, false, 0), Decimal(i + 1)[0])
    {
      DecimalStarts(i + 1);
      hide Decimal;
      HeadsGuard(tokens, Stage(ONES, i, false, 0), Decimal(i + 1)[0]);
    }
    HeadsGuard(tokens, Stage(ONES, |ONES|, false, 0), '@');
  }

  /** With a dollar sign before a placeholder some arguments give something else: what is left over
      is removed also where it has come about by substitution. */
  lemma AmbiguousGoesWrong(body: string)
    requires Ambiguous(body)
    ensures Substituted(body, ONES) != Simultaneous(body, ONES)
  {
    var tokens, f := Tokens(body), Stage(ONES, 9, true, 0);
    OnesUndisturbed(body);
    PassesFill(body, ONES);
    TokensAreNamed(body);
    var k := AmbiguousHasHole(body);
    OnesAreFilled();
    hide Tokens, Ambiguous, Undisturbed, Named, Filled, Positional, Stage, Cleaned, Value;
    SameFilling(tokens, f, Value(ONES));
    HoleMakesPlaceholder(tokens, f, k);
    CleaningShortens(Filled(tokens, f), 9);
  }

  lemma OnesAreFilled()
    ensures forall y | Names(y) :: Stage(ONES, 9, true, 0)(y) == Value(ONES)(y)
    ensures forall y | Names(y) :: Value(ONES)(y) != "" && Value(ONES)(y)[0] == '1'
  {
  }

  /** The bodies for which the passes come to substitution in one reading, whatever the arguments
      without dollar signs are. */
  lemma SimultaneousIffUnambiguous(body: string)
    ensures (forall args | Harmless(args) :: Substituted(body, args) == Simultaneous(body, args))
       <==> !Ambiguous(body)
  {
    hide Substituted, Simultaneous, Ambiguous, Harmless;
    if Ambiguous(body) {
      AmbiguousGoesWrong(body);
      OnesAreHarmless();
    } else {
      forall args | Harmless(args)
        ensures Substituted(body, args) == Simultaneous(body, args)
      {
        SubstitutionIsSimultaneous(body, args);
      }
    }
  }

  /** An argument with a dollar sign is substituted into again. */
  lemma ArgumentIsSubstitutedInto()
    ensures Substituted("$1", ["$2", "x"]) == "x" && Simultaneous("$1", ["$2", "x"]) == "$2"
  {
    assert Positional("$1", ["$2", "x"], 2) == "x";
    assert Cleaned("x", 9) == "x" by {
      NothingToClean("x", 9);
    }
  }

  /** A dollar sign before a placeholder makes another one of the argument. */
  lemma DollarBeforePlaceholder()
    ensures Substituted("$$1", ["2", "x"]) == "x" && Simultaneous("$$1", ["2", "x"]) == "$2"
  {
    ReplaceSkip('$', "$1", "2", "$1");
    assert Positional("$$1", ["2", "x"], 1) == "$2";
    assert Positional("$$1", ["2", "x"], 2) == "x";
    assert Cleaned("x", 9) == "x" by {
      NothingToClean("x", 9);
    }
  }

  lemma {:induction false} OneIsLeft(j: nat)
    requires 1 <= j <= 9
    ensures Cleaned("$$11", j) == "$1"
  {
    if j == 1 {
      ReplaceSkip('$', "$1", "", "$11");
      ReplaceHead("$1", "", "1");
      assert ReplaceAll("1", "$1", "") == "1";
      assert ['$'] + "$11" == "$$11" && "$1" + "1" == "$11";
    } else {
      OneIsLeft(j - 1);
      DecimalStarts(j);
      var pattern := "$" + Decimal(j);
      ReplaceSkip('$', pattern, "", "1");
      ReplaceSkip('1', pattern, "", "");
      assert ['$'] + "1" == "$1" && ['1'] + "" == "1";
    }
  }

  /** Removing what is left over can leave a placeholder. */
  lemma PlaceholderIsLeft()
    ensures Substituted("$$11", []) == "$1"
  {
    OneIsLeft(9);
    hide Cleaned, ReplaceAll;
    ReplaceSkip('$', "$@", "", "$11");
    ReplaceSkip('$', "$@", "", "11");
    NothingToReplace("11", "$@", "");
    assert ['$'] + "11" == "$11" && ['$'] + "$11" == "$$11";
  }

  method ExpandAlias(body: string, args: seq<string>) returns (expanded: string)
    ensures expanded == Substituted(body, args)
    ensures !Ambiguous(body) && Harmless(args) ==> expanded == Simultaneous(body, args) && NoPlaceholder(expanded)
  {
    expanded := body;
    for i := 0 to |args|
      invariant expanded == Positional(body, args, i)
    {
      expanded := ReplaceAll(expanded, "$" + Decimal(i + 1), args[i]);
    }
    expanded := ReplaceAll(expanded, "$@", Join(args, " "));
    ghost var replaced := expanded;
    for i := 1 to 10
      invariant expanded == Cleaned(replaced, i - 1)
    {
      expanded := ReplaceAll(expanded, "$" + Decimal(i), "");
    }
    if !Ambiguous(body) && Harmless(args) {
      SubstitutionIsSimultaneous(body, args);
      NoPlaceholderIsLeft(body, args);
    }
  }
}
