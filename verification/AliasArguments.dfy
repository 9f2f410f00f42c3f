/** For which arguments the passes over the body of a script alias come to substitution in one
    reading (ExecuteCommand in internal/repl/repl.go). */
module AliasArguments {
  import opened AliasExpansion
  import opened Text

  lemma NothingOccurs(s: string, pattern: string, w: string)
    requires pattern != "" && !Occurs(pattern, s)
    ensures ReplaceAll(s, pattern, w) == s
    decreases |s|
  {
    if |s| >= |pattern| {
      assert s[0..] == s;
      assert forall i | 0 <= i <= |s[1..]| :: s[1..][i..] == s[i + 1..];
      NothingOccurs(s[1..], pattern, w);
    }
  }

  /** What is left over is only removed. */
  lemma {:induction false} CleaningRemoves(s: string, j: nat)
    ensures |Cleaned(s, j)| <= |s|
    ensures forall t | 1 <= t <= j && Occurs("$" + Decimal(t), s) :: |Cleaned(s, j)| < |s|
  {
    hide Occurs, ReplaceAll, Decimal;
    if j > 0 {
      CleaningRemoves(s, j - 1);
      var before, pattern := Cleaned(s, j - 1), "$" + Decimal(j);
      RemovingShortens(before, pattern);
      if Occurs(pattern, s) && |before| == |s| {
        CleaningKeeps(s, j - 1);
      }
    }
  }

  lemma {:induction false} CleaningKeeps(s: string, j: nat)
    requires |Cleaned(s, j)| == |s|
    ensures Cleaned(s, j) == s
  {
    hide ReplaceAll, Decimal;
    if j > 0 {
      var before, pattern := Cleaned(s, j - 1), "$" + Decimal(j);
      CleaningRemoves(s, j - 1);
      RemovingShortens(before, pattern);
      CleaningKeeps(s, j - 1);
      NothingOccurs(s, pattern, "");
    }
  }

  /** A dollar sign before a digit is removed. */
  lemma DigitIsRemoved(s: string, i: nat)
    requires i + 1 < |s| && s[i] == '$' && '1' <= s[i + 1] <= '9'
    ensures Cleaned(s, 9) != s
  {
    var d := Index(s[i + 1]);
    DecimalStarts(d);
    assert Decimal(d) == [s[i + 1]];
    assert "$" + Decimal(d) <= s[i..];
    CleaningRemoves(s, 9);
  }

  /** Where no positional pass finds anything. */
  lemma {:induction false} PositionalMisses(body: string, args: seq<string>, from: nat, i: nat)
    requires from <= i <= |args|
    requires forall t | from < t <= i :: !Occurs("$" + Decimal(t), Positional(body, args, from))
    ensures Positional(body, args, i) == Positional(body, args, from)
  {
    hide Occurs, ReplaceAll, Decimal;
    if i > from {
      PositionalMisses(body, args, from, i - 1);
      NothingOccurs(Positional(body, args, from), "$" + Decimal(i), args[i - 1]);
    }
  }

  lemma PrefixAt(pattern: string, s: string, i: nat)
    requires |pattern| >= 2 && i <= |s|
    ensures pattern <= s[i..] ==> i + |pattern| <= |s| && s[i] == pattern[0] && s[i + 1] == pattern[1]
  {
  }

  lemma OccursNowhere(s: string, pattern: string)
    requires |pattern| >= 2
    requires forall i | 0 <= i <= |s| - |pattern| :: !(s[i] == pattern[0] && s[i + 1] == pattern[1])
    ensures !Occurs(pattern, s)
  {
    forall i | 0 <= i <= |s|
      ensures !(pattern <= s[i..])
    {
      PrefixAt(pattern, s, i);
    }
  }

  /** A placeholder followed by 1, a body that shows how what is put in its place ends. */
  function AndOne(x: char): string {
    ['$', x, '1']
  }

  lemma OnlyItsOwnPass(x: char, pattern: string)
    requires |pattern| >= 2 && pattern[0] == '$' && Names(x) && pattern[1] != x
    ensures !Occurs(pattern, AndOne(x))
  {
    OccursNowhere(AndOne(x), pattern);
  }

  lemma AndOneIsClear(x: char, args: seq<string>)
    requires Names(x)
    ensures !Ambiguous(AndOne(x))
    ensures Simultaneous(AndOne(x), args) == Value(args)(x) + "1"
  {
    var tokens := [Hole(x)] + [Literal('1')];
    assert AndOne(x)[2..] == "1" && "1"[1..] == "";
    assert Tokens("1") == [Literal('1')];
    assert Tokens(AndOne(x)) == tokens;
    hide Value;
    assert tokens[1..] == [Literal('1')] && [Literal('1')][1..] == [];
    assert Filled([], Value(args)) == "";
    assert Filled([Literal('1')], Value(args)) == "1" + "" == "1";
    assert Filled(tokens, Value(args)) == Value(args)(x) + "1";
  }

  lemma OwnPass(x: char, w: string)
    requires Names(x)
    ensures ReplaceAll(AndOne(x), ['$', x], w) == w + "1"
  {
    ReplaceHead(['$', x], w, "1");
    assert ['$', x] + "1" == AndOne(x);
  }

  lemma SubstitutedInAll(args: seq<string>)
    ensures Substituted(AndOne('@'), args) == Cleaned(Join(args, " ") + "1", 9)
  {
    forall t | 0 < t <= |args|
      ensures !Occurs("$" + Decimal(t), AndOne('@'))
    {
      DecimalStarts(t);
      hide Decimal, Occurs;
      OnlyItsOwnPass('@', "$" + Decimal(t));
    }
    PositionalMisses(AndOne('@'), args, 0, |args|);
    OwnPass('@', Join(args, " "));
    hide Cleaned, ReplaceAll, Occurs, Decimal, Join;
    assert "$@" == ['$', '@'];
  }

  lemma AllAt(s: string, i: nat)
    ensures i < |s| - 1 && s[i] == '$' && s[i + 1] == '@' ==> Occurs("$@", s)
  {
    if i < |s| - 1 && s[i] == '$' && s[i + 1] == '@' {
      assert "$@" <= s[i..];
    }
  }

  /** The body $@1 shows what the arguments hold and how the last one ends. */
  lemma AllGoesWrong(args: seq<string>)
    requires !Inert(Join(args, " ")) && !Occurs("$@", Join(args, " "))
    ensures !Ambiguous(AndOne('@'))
    ensures Substituted(AndOne('@'), args) != Simultaneous(AndOne('@'), args)
  {
    SubstitutedInAll(args);
    AndOneIsClear('@', args);
    var all := Join(args, " ");
    var i :| 0 <= i < |all| && all[i] == '$' && (i + 1 == |all| || Names(all[i + 1]));
    hide Cleaned, Substituted, Simultaneous, Join, Ambiguous;
    AllAt(all, i);
    var x := (all + "1")[i + 1];
    assert x == if i + 1 < |all| then all[i + 1] else '1';
    assert Names(x) && x != '@';
    DigitIsRemoved(all + "1", i);
  }

  lemma SliceBehind(a: string, rest: string, o: nat, n: nat)
    requires o + n <= |rest|
    ensures (a + rest)[|a| + o..|a| + o + n] == rest[o..o + n]
  {
  }

  lemma JoinFirst(args: seq<string>)
    requires |args| > 1
    ensures Join(args, " ") == (args[0] + " ") + Join(args[1..], " ")
  {
  }

  lemma {:induction false} JoinHolds(args: seq<string>, k: nat) returns (o: nat)
    requires k < |args|
    ensures o + |args[k]| <= |Join(args, " ")| && Join(args, " ")[o..o + |args[k]|] == args[k]
  {
    o := 0;
    if |args| > 1 {
      JoinFirst(args);
      hide Join;
      if k > 0 {
        var o' := JoinHolds(args[1..], k - 1);
        SliceBehind(args[0] + " ", Join(args[1..], " "), o', |args[k]|);
        o := |args[0] + " "| + o';
      }
    }
  }

  lemma ArgumentHasNone(args: seq<string>, k: nat)
    requires k < |args| && Inert(Join(args, " "))
    ensures NoPlaceholder(args[k])
  {
    var o := JoinHolds(args, k);
    hide Names, Join;
    assert forall i | 0 <= i < |args[k]| :: args[k][i] == Join(args, " ")[o + i];
  }

  /** Behind such an argument with 1 only the removal of $1 finds anything. */
  lemma LaterPassesMiss(a: string, pattern: string)
    requires |pattern| >= 2 && pattern[0] == '$' && Names(pattern[1]) && pattern != "$1" && NoPlaceholder(a)
    ensures !Occurs(pattern, a + "1")
  {
    hide Names, Occurs;
    var s := a + "1";
    assert |pattern| == 2 && pattern[1] == '1' ==> pattern == "$1";
    forall i | 0 <= i <= |s| - |pattern|
      ensures !(s[i] == pattern[0] && s[i + 1] == pattern[1])
    {
      assert i + 1 < |a| ==> s[i] == a[i] && s[i + 1] == a[i + 1];
    }
    OccursNowhere(s, pattern);
  }

  /** The text after the passes for the arguments up to the k-th, and after all of them. */
  lemma PositionalOfOne(args: seq<string>, k: nat, x: char)
    requires k < |args| && k < 9 && Decimal(k + 1) == [x] && Names(x) && NoPlaceholder(args[k])
    ensures Positional(AndOne(x), args, |args|) == args[k] + "1"
  {
    var body, a := AndOne(x), args[k];
    forall t | 0 < t <= k
      ensures !Occurs("$" + Decimal(t), body)
    {
      DecimalStarts(t);
      DecimalStarts(k + 1);
      hide Decimal, Occurs;
      OnlyItsOwnPass(x, "$" + Decimal(t));
    }
    PositionalMisses(body, args, 0, k);
    NextPositional(body, args, k + 1);
    OwnPass(x, a);
    assert "$" + [x] == ['$', x];
    hide Positional, ReplaceAll;
    forall t | k + 1 < t <= |args|
      ensures !Occurs("$" + Decimal(t), a + "1")
    {
      DecimalStarts(t);
      hide Decimal, Occurs, NoPlaceholder;
      LaterPassesMiss(a, "$" + Decimal(t));
    }
    PositionalMisses(body, args, k + 1, |args|);
  }

  /** If an argument of the first nine ends in a dollar sign, the body with its placeholder and 1
      goes wrong. */
  lemma ArgumentGoesWrong(args: seq<string>, k: nat) returns (body: string)
    requires k < |args| && k < 9 && !Inert(args[k])
    requires Inert(Join(args, " ")) && !Occurs("$@", Join(args, " "))
    ensures !Ambiguous(body) && Substituted(body, args) != Simultaneous(body, args)
  {
    var a := args[k];
    DecimalStarts(k + 1);
    var x := Decimal(k + 1)[0];
    body := AndOne(x);
    ArgumentHasNone(args, k);
    PositionalOfOne(args, k, x);
    AndOneIsClear(x, args);
    assert Value(args)(x) == a;
    LaterPassesMiss(a, "$@");
    NothingOccurs(a + "1", "$@", Join(args, " "));
    var i :| 0 <= i < |a| && a[i] == '$' && (i + 1 == |a| || Names(a[i + 1]));
    assert i + 1 == |a|;
    hide Cleaned, Simultaneous, Join, Ambiguous, Positional, ReplaceAll, Value;
    assert Substituted(body, args) == Cleaned(a + "1", 9);
    DigitIsRemoved(a + "1", i);
  }

  /** The arguments for which the passes come to substitution in one reading, whatever the body is
      among those without a dollar sign before a placeholder. There may be any number of arguments.
      What an argument with $@ does depends on more than it. */
  lemma SimultaneousIffHarmless(args: seq<string>)
    requires !Occurs("$@", Join(args, " "))
    ensures (forall body | !Ambiguous(body) :: Substituted(body, args) == Simultaneous(body, args))
       <==> Harmless(args)
  {
    hide Substituted, Simultaneous, Ambiguous, Inert, Join, Occurs;
    if Harmless(args) {
      forall body | !Ambiguous(body)
        ensures Substituted(body, args) == Simultaneous(body, args)
      {
        SubstitutionIsSimultaneous(body, args);
      }
    } else if !Inert(Join(args, " ")) {
      AllGoesWrong(args);
    } else {
      var k :| 0 <= k < |args| && k < 9 && !Inert(args[k]);
      var body := ArgumentGoesWrong(args, k);
    }
  }

  /** With $@ in an argument, it can come out right ... */
  lemma AllInArgument()
    ensures Substituted("$1", ["$@"]) == Simultaneous("$1", ["$@"])
  {
    var args := ["$@"];
    assert Join(args, " ") == "$@" && Value(args)('1') == "$@";
    OneAlone(args);
    OwnReplaced("$1", "$@");
    assert Positional("$1", args, 1) == "$@";
    hide Positional, Simultaneous, Join, Cleaned, ReplaceAll;
    OwnReplaced("$@", "$@");
    NoDigitsToClean("$@", 9);
  }

  /** ... and, with one argument more, wrong. */
  lemma AllInArgumentGoesWrong()
    ensures Substituted("$1", ["$@", "x"]) == "$@ x" && Simultaneous("$1", ["$@", "x"]) == "$@"
  {
    var args := ["$@", "x"];
    assert Join(args, " ") == "$@ x" && Value(args)('1') == "$@";
    OneAlone(args);
    TwoPasses(args);
    hide Positional, Simultaneous, Join, Cleaned, ReplaceAll;
    OwnReplaced("$@", "$@ x");
    NoDigitsToClean("$@ x", 9);
  }

  lemma TwoPasses(args: seq<string>)
    requires args == ["$@", "x"]
    ensures Positional("$1", args, 2) == "$@"
  {
    NextPositional("$1", args, 1);
    NextPositional("$1", args, 2);
    assert Decimal(1) == "1" && Decimal(2) == "2" && ['$'] + "@" == "$@";
    assert Positional("$1", args, 0) == "$1";
    hide Positional, ReplaceAll;
    OwnReplaced("$1", "$@");
    ReplaceSkip('$', "$2", "x", "@");
    NothingToReplace("@", "$2", "x");
  }

  lemma OneAlone(args: seq<string>)
    ensures Simultaneous("$1", args) == Value(args)('1')
  {
    hide Value;
    assert "$1"[2..] == "" && Tokens("$1") == [Hole('1')] + [];
    assert Filled([], Value(args)) == "" && [Hole('1')][1..] == [];
    assert Value(args)('1') + "" == Value(args)('1');
  }

  lemma OwnReplaced(pattern: string, w: string)
    requires pattern != ""
    ensures ReplaceAll(pattern, pattern, w) == w
  {
    assert pattern[|pattern|..] == "" && w + "" == w;
  }

  lemma {:induction false} NoDigitsToClean(s: string, j: nat)
    requires forall i | 0 <= i < |s| - 1 && s[i] == '$' :: !('1' <= s[i + 1] <= '9')
    ensures Cleaned(s, j) == s
  {
    hide ReplaceAll, Decimal;
    if j > 0 {
      NoDigitsToClean(s, j - 1);
      DecimalStarts(j);
      var pattern := "$" + Decimal(j);
      hide Occurs;
      OccursNowhere(s, pattern);
      NothingOccurs(s, pattern, "");
    }
  }
}
