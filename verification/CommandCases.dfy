/** What a command line and a script do, case by case (ExecuteCommand in internal/repl/repl.go and
    `:source` in internal/repl/command.go). */
module CommandCases {
  import opened AliasExpansion
  import opened CommandExecution
  import SplitCommand
  import opened Text
  import opened Wrappers

  // ---- scripts ----

  /** The lines of a script that are executed: trimmed, neither blank nor comments. */
  function Significant(lines: seq<string>): seq<string> {
    if lines == [] then []
    else
      var line := TrimSpace(lines[0]);
      (if line == "" || line[0] == '#' then [] else [line]) + Significant(lines[1..])
  }

  /** The line expands, and what it expands to is executed without an error. */
  ghost predicate Succeeds(env: Env, w: World, depth: Depth, line: string, next: World) {
    var expanded := env.expand(w, line);
    && expanded.Some? && Exec(env, w, depth, expanded.value).err == None
    && Exec(env, w, depth, expanded.value).world == next
  }

  /** The line fails, and the script with it. An exit stays an exit. */
  ghost predicate FailsWith(env: Env, w: World, depth: Depth, line: string, next: World, err: Err) {
    var expanded := env.expand(w, line);
    if expanded.None? then next == w && err == Failed("template error")
    else
      var r := Exec(env, w, depth, expanded.value);
      && r.err.Some? && next == r.world
      && err == if r.err.value == Exit then Exit else InScript(r.err.value)
  }

  /** The worlds after the lines executed: one line after the other, each in the world that the one
      before leaves, to the end of the script or up to the first line that fails. */
  ghost predicate Executes(env: Env, depth: Depth, lines: seq<string>, worlds: seq<World>, r: Result) {
    && 1 <= |worlds| <= |lines| + 1
    && (forall i | 0 <= i < |worlds| - 1 :: Succeeds(env, worlds[i], depth, lines[i], worlds[i + 1]))
    && var n := |worlds| - 1;
       if n == |lines| then r.err == None && r.world == worlds[n]
       else r.err.Some? && FailsWith(env, worlds[n], depth, lines[n], r.world, r.err.value)
  }

  lemma ExecutesFirst(env: Env, depth: Depth, line: string, lines: seq<string>, w: World, worlds: seq<World>,
                      r: Result, r': Result)
    requires Executes(env, depth, lines, worlds, r) && Succeeds(env, w, depth, line, worlds[0])
    requires r.world == r'.world && r.err == r'.err
    ensures Executes(env, depth, [line] + lines, [w] + worlds, r')
  {
    hide Succeeds, FailsWith;
    var all, longer := [line] + lines, [w] + worlds;
    forall i | 0 <= i < |longer| - 1
      ensures Succeeds(env, longer[i], depth, all[i], longer[i + 1])
    {
      if i > 0 {
        assert longer[i] == worlds[i - 1] && all[i] == lines[i - 1] && longer[i + 1] == worlds[i];
      }
    }
  }

  /** A script executes its significant lines. */
  lemma {:induction false} ScriptExecutesItsLines(env: Env, w: World, depth: Depth, lines: seq<string>)
    returns (worlds: seq<World>)
    ensures Executes(env, depth, Significant(lines), worlds, ExecLines(env, w, depth, lines)) && worlds[0] == w
    decreases |lines|
  {
    hide Exec, TrimSpace;
    if lines == [] {
      return [w];
    }
    var line, later := TrimSpace(lines[0]), Significant(lines[1..]);
    var expanded := env.expand(w, line);
    if line == "" || line[0] == '#' {
      worlds := ScriptExecutesItsLines(env, w, depth, lines[1..]);
      assert Significant(lines) == [] + later == later;
    } else if expanded.None? || Exec(env, w, depth, expanded.value).err.Some? {
      worlds := [w];
      assert Significant(lines)[0] == line;
    } else {
      var next := Exec(env, w, depth, expanded.value).world;
      worlds := ScriptExecutesItsLines(env, next, depth, lines[1..]);
      hide Executes;
      ExecutesFirst(env, depth, line, later, w, worlds, ExecLines(env, next, depth, lines[1..]),
                    ExecLines(env, w, depth, lines));
      worlds := [w] + worlds;
    }
  }

  /** Scripts can be joined. */
  lemma {:induction false} ScriptsJoin(env: Env, w: World, depth: Depth, a: seq<string>, b: seq<string>)
    requires ExecLines(env, w, depth, a).err == None
    ensures var r, rest := ExecLines(env, w, depth, a + b), ExecLines(env, ExecLines(env, w, depth, a).world, depth, b);
            r.world == rest.world && r.err == rest.err
    decreases |a|
  {
    hide Exec, TrimSpace;
    if a == [] {
      assert a + b == b;
    } else {
      assert (a + b)[0] == a[0] && (a + b)[1..] == a[1..] + b;
      var line := TrimSpace(a[0]);
      if line == "" || HasPrefix(line, "#") {
        ScriptsJoin(env, w, depth, a[1..], b);
      } else {
        ScriptsJoin(env, Exec(env, w, depth, env.expand(w, line).value).world, depth, a[1..], b);
      }
    }
  }

  // ---- lines ----

  lemma BlankLineDoesNothing(env: Env, w: World, depth: Depth, line: string)
    requires forall c | c in line :: IsSpace(c)
    ensures Exec(env, w, depth, line) == Result(w, None, false)
  {
    AllTrimmed(line);
    hide TrimSpace;
  }

  lemma {:induction false} AllTrimmed(s: string)
    requires forall c | c in s :: IsSpace(c)
    ensures TrimSpace(s) == ""
  {
    hide IsSpace;
    if s != "" {
      assert s[0] in s && forall c | c in s[1..] :: c in s;
      AllTrimmed(s[1..]);
    }
  }

  /** Bare text does what it does as the argument of `:send`. */
  lemma BareTextIsSent(env: Env, w: World, depth: Depth, line: string)
    requires TrimSpace(line) != "" && TrimSpace(line)[0] != ':'
    ensures Exec(env, w, depth, line) == Exec(env, w, depth, ":send " + TrimSpace(line))
  {
    hide TrimSpace, SplitCommand.Split, Substituted;
  }

  /** The shell gets the raw text, with its quotes and blanks. */
  lemma ShellGetsRawText(env: Env, w: World, depth: Depth, line: string, text: string)
    requires TrimSpace(line) == ":!" + text
    ensures var (next, err) := env.shell(w, text); Exec(env, w, depth, line) == Result(next, err, false)
  {
    assert (":!" + text)[2..] == text;
    hide TrimSpace, SplitCommand.Split, Substituted;
  }

  /** The line is the call of a command, with these arguments. */
  predicate Calls(line: string, name: string, args: seq<string>) {
    var t := TrimSpace(line);
    && t != "" && t[0] == ':' && (|t| > 1 ==> t[1] != '!')
    && SplitCommand.Split(t) == [":" + name] + args
  }

  lemma CallParts(line: string, name: string, args: seq<string>)
    requires Calls(line, name, args)
    ensures var t, parts := TrimSpace(line), SplitCommand.Split(TrimSpace(line));
            && t != "" && HasPrefix(t, ":") && !HasPrefix(t, ":!")
            && parts != [] && TrimPrefix(parts[0], ":") == name && parts[1..] == args
  {
    hide TrimSpace, SplitCommand.Split;
    assert (":" + name)[1..] == name;
    assert ([":" + name] + args)[1..] == args;
  }

  /** A script alias executes its body, with the arguments put in, one level deeper, up to ten. */
  lemma ScriptAliasExecutesItsBody(env: Env, w: World, depth: Depth, line: string, name: string, args: seq<string>)
    requires Calls(line, name, args) && name in w.scriptAliases
    ensures depth < 10 ==>
              Exec(env, w, depth, line) == Exec(env, w, depth + 1, Substituted(w.scriptAliases[name], args))
    ensures depth == 10 ==> Exec(env, w, depth, line) == Result(w, Some(TooDeep), true)
  {
    CallParts(line, name, args);
    hide TrimSpace, SplitCommand.Split, Substituted, TrimPrefix, HasPrefix;
  }

  /** The command that a name stands for: a plain alias is looked up once, a script alias goes before. */
  predicate StandsFor(w: World, name: string, command: string) {
    && name !in w.scriptAliases
    && (if name in w.aliases then w.aliases[name] == command else name == command)
  }

  /** A command gets exactly the arguments that were typed. */
  lemma CommandGetsArguments(env: Env, w: World, depth: Depth, line: string, name: string, args: seq<string>,
                             command: string)
    requires Calls(line, name, args) && StandsFor(w, name, command) && command != "source"
    ensures command in env.commands ==>
              var (next, err) := env.run(w, command, args);
              Exec(env, w, depth, line).world == next
              && Exec(env, w, depth, line).err
                 == if err == None || err == Some(Exit) then err else env.settle(next, err.value)
    ensures command !in env.commands ==> Exec(env, w, depth, line) == Result(w, Some(Unknown(command)), false)
  {
    CallParts(line, name, args);
    hide TrimSpace, SplitCommand.Split, Substituted, TrimPrefix, HasPrefix;
  }

  /** `:source` executes the lines of the file, one level deeper, up to ten. */
  lemma SourceExecutesTheFile(env: Env, w: World, depth: Depth, line: string, name: string, args: seq<string>)
    requires Calls(line, name, args) && StandsFor(w, name, "source")
    ensures var r := Exec(env, w, depth, line);
            if args == [] then r.world == w && r.err == env.settle(w, Failed("usage: :source <file>"))
            else if depth == 10 then r.world == w && r.err == env.settle(w, TooDeep)
            else if args[0] !in w.files then r.world == w && r.err == env.settle(w, Failed("opening script"))
            else
              var script := ExecLines(env, w, depth + 1, w.files[args[0]]);
              && r.world == script.world
              && r.err == if script.err == None || script.err == Some(Exit) then script.err
                          else env.settle(script.world, script.err.value)
  {
    CallParts(line, name, args);
    hide TrimSpace, SplitCommand.Split, Substituted, TrimPrefix, HasPrefix, ExecLines;
  }

  /** Nothing of a typed call is lost: with the call typed as a line of arguments in any style, the
      command gets what the arguments mean. */
  lemma TypedCall(args: seq<seq<SplitCommand.Piece>>, name: string)
    requires args != [] && forall a | a in args :: SplitCommand.WritableArg(a) && SplitCommand.Meaning(a) != []
    requires SplitCommand.Meaning(args[0]) == ":" + name
    requires var t := SplitCommand.TypedLine(args);
             TrimSpace(t) == t && t != "" && t[0] == ':' && (|t| > 1 ==> t[1] != '!')
    ensures Calls(SplitCommand.TypedLine(args), name, SplitCommand.Meanings(args[1..]))
  {
    SplitCommand.SplitUndoesQuoting(args);
  }
}
