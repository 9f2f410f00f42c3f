/** How the REPL executes a command line (ExecuteCommand in internal/repl/repl.go and `:source` in
    internal/repl/command.go): aliases and sourced scripts execute further lines, up to a depth. */
module CommandExecution {
  import opened AliasExpansion
  import SplitCommand
  import opened Text
  import opened Wrappers

  const MAX_DEPTH: nat := 10

  type Depth = d: nat | d <= MAX_DEPTH

  datatype Err = Exit | TooDeep | Unknown(name: string) | Failed(what: string) | InScript(cause: Err)

  /** The state that commands can change. */
  datatype World = World(
    scriptAliases: map<string, string>,  // name to body
    aliases: map<string, string>,        // name to command name
    files: map<string, seq<string>>,     // path to lines
    rest: seq<string>)                   // everything else

  /** The commands themselves, the template engine, and what is made of a command's error. Any of
      them may redefine aliases and files. */
  datatype Env = Env(
    commands: set<string>,
    run: (World, string, seq<string>) -> (World, Option<Err>),
    shell: (World, string) -> (World, Option<Err>),
    expand: (World, string) -> Option<string>,
    settle: (World, Err) -> Option<Err>)

  /** What a command line comes to; `limited` says that the depth limit was met on the way. */
  datatype Result = Result(world: World, err: Option<Err>, limited: bool)

  // ---- lines ----

  predicate IsBare(line: string) {
    var t := TrimSpace(line);
    t != "" && !HasPrefix(t, ":")
  }

  lemma {:induction false} TrimRightKeepsHead(s: string, cut: char -> bool)
    requires s != "" && !cut(s[0])
    ensures TrimRight(s, cut) != "" && TrimRight(s, cut)[0] == s[0]
  {
    if cut(s[|s| - 1]) {
      TrimRightKeepsHead(s[..|s| - 1], cut);
    }
  }

  /** A bare line is sent: what is executed in its place is not bare. */
  lemma SendIsNotBare(line: string)
    ensures !IsBare(":send " + line)
  {
    var s := ":send " + line;
    assert s[0] == ':' && TrimLeft(s, IsSpace) == s;
    TrimRightKeepsHead(s, IsSpace);
    assert TrimSpace(s)[0] == ':';
  }

  function Settled(env: Env, w: World, err: Option<Err>): Option<Err> {
    if err.None? || err.value == Exit then err else env.settle(w, err.value)
  }

  function Exec(env: Env, w: World, depth: Depth, line: string): Result
    decreases MAX_DEPTH - depth, if IsBare(line) then 2 else 1, 0
  {
    var t := TrimSpace(line);
    if t == "" then Result(w, None, false)
    else if !HasPrefix(t, ":") then
      SendIsNotBare(t);
      Exec(env, w, depth, ":send " + t)
    else if HasPrefix(t, ":!") then
      var (w', err) := env.shell(w, TrimPrefix(t, ":!"));
      Result(w', err, false)
    else
      var parts := SplitCommand.Split(t);
      if parts == [] then Result(w, None, false)
      else
        var name, args := TrimPrefix(parts[0], ":"), parts[1..];
        if name in w.scriptAliases then
          if depth >= MAX_DEPTH then Result(w, Some(TooDeep), true)
          else Exec(env, w, depth + 1, Substituted(w.scriptAliases[name], args))
        else
          var command := if name in w.aliases then w.aliases[name] else name;
          if command == "source" then
            var r := Source(env, w, depth, args);
            r.(err := Settled(env, r.world, r.err))
          else if command !in env.commands then Result(w, Some(Unknown(command)), false)
          else
            var (w', err) := env.run(w, command, args);
            Result(w', Settled(env, w', err), false)
  }

  function Source(env: Env, w: World, depth: Depth, args: seq<string>): Result
    decreases MAX_DEPTH - depth, 0, 0
  {
    if |args| < 1 then Result(w, Some(Failed("usage: :source <file>")), false)
    else if depth >= MAX_DEPTH then Result(w, Some(TooDeep), true)
    else if args[0] !in w.files then Result(w, Some(Failed("opening script")), false)
    else ExecLines(env, w, depth + 1, w.files[args[0]])
  }

  function ExecLines(env: Env, w: World, depth: Depth, lines: seq<string>): Result
    decreases MAX_DEPTH - depth, 3, |lines|
  {
    if lines == [] then Result(w, None, false)
    else
      var line := TrimSpace(lines[0]);
      if line == "" || HasPrefix(line, "#") then ExecLines(env, w, depth, lines[1..])
      else
        var expanded := env.expand(w, line);
        if expanded.None? then Result(w, Some(Failed("template error")), false)
        else
          var r := Exec(env, w, depth, expanded.value);
          if r.err.Some? then r.(err := Some(if r.err.value == Exit then Exit else InScript(r.err.value)))
          else
            var later := ExecLines(env, r.world, depth, lines[1..]);
            later.(limited := r.limited || later.limited)
  }

  /** The REPL. The type of execDepth says that no assignment ever takes it above the limit. */
  class REPL {
    var world: World
    var execDepth: Depth
    const env: Env

    constructor (env: Env, world: World)
      ensures this.env == env && this.world == world && execDepth == 0
    {
      this.env, this.world, this.execDepth := env, world, 0;
    }

    method ExecuteCommand(line: string) returns (err: Option<Err>)
      modifies this
      ensures execDepth == old(execDepth)
      ensures world == Exec(env, old(world), old(execDepth), line).world
      ensures err == Exec(env, old(world), old(execDepth), line).err
      decreases MAX_DEPTH - execDepth, if IsBare(line) then 2 else 1, 0
    {
      hide Substituted, TrimSpace, ExecLines;
      var trimmed := TrimSpace(line);
      if trimmed == "" {
        return None;
      }
      if !HasPrefix(trimmed, ":") {
        SendIsNotBare(trimmed);
        err := ExecuteCommand(":send " + trimmed);
        return;
      }
      if HasPrefix(trimmed, ":!") {
        var (w, e) := env.shell(world, TrimPrefix(trimmed, ":!"));
        world, err := w, e;
        return;
      }
      var parts := SplitCommand.SplitLine(trimmed);
      if |parts| == 0 {
        return None;
      }
      var cmdName := TrimPrefix(parts[0], ":");
      var args := parts[1..];
      if cmdName in world.scriptAliases {
        if execDepth >= MAX_DEPTH {
          return Some(TooDeep);
        }
        execDepth := execDepth + 1;
        var expanded := ExpandAlias(world.scriptAliases[cmdName], args);
        err := ExecuteCommand(expanded);
        execDepth := execDepth - 1;
        return;
      }
      if cmdName in world.aliases {
        cmdName := world.aliases[cmdName];
      }
      if cmdName == "source" {
        err := ExecuteSource(args);
        err := Settled(env, world, err);
        return;
      }
      if cmdName !in env.commands {
        return Some(Unknown(cmdName));
      }
      var (w, e) := env.run(world, cmdName, args);
      world := w;
      err := Settled(env, w, e);
    }

    method ExecuteSource(args: seq<string>) returns (err: Option<Err>)
      modifies this
      ensures execDepth == old(execDepth)
      ensures world == Source(env, old(world), old(execDepth), args).world
      ensures err == Source(env, old(world), old(execDepth), args).err
      decreases MAX_DEPTH - execDepth, 0, 0
    {
      hide Exec, TrimSpace;
      if |args| < 1 {
        return Some(Failed("usage: :source <file>"));
      }
      var path := args[0];
      if execDepth >= MAX_DEPTH {
        return Some(TooDeep);
      }
      execDepth := execDepth + 1;
      if path !in world.files {
        execDepth := execDepth - 1;
        return Some(Failed("opening script"));
      }
      err := ExecuteLines(world.files[path]);
      execDepth := execDepth - 1;
    }

    /** The scanning loop of `:source`. */
    method ExecuteLines(lines: seq<string>) returns (err: Option<Err>)
      modifies this
      ensures execDepth == old(execDepth)
      ensures world == ExecLines(env, old(world), old(execDepth), lines).world
      ensures err == ExecLines(env, old(world), old(execDepth), lines).err
      decreases MAX_DEPTH - execDepth, 3, 0
    {
      hide Exec, TrimSpace;
      ghost var all := ExecLines(env, world, execDepth, lines);
      var i := 0;
      assert lines[0..] == lines;
      while i < |lines|
        invariant 0 <= i <= |lines| && execDepth == old(execDepth)
        invariant ExecLines(env, world, execDepth, lines[i..]).world == all.world
        invariant ExecLines(env, world, execDepth, lines[i..]).err == all.err
      {
        assert lines[i..][1..] == lines[i + 1..];
        var line := TrimSpace(lines[i]);
        if line == "" || HasPrefix(line, "#") {
          i := i + 1;
          continue;
        }
        var expanded := env.expand(world, line);
        if expanded.None? {
          return Some(Failed("template error"));
        }
        err := ExecuteCommand(expanded.value);
        if err.Some? {
          if err.value == Exit {
            return Some(Exit);
          }
          return Some(InScript(err.value));
        }
        i := i + 1;
      }
      return None;
    }
  }

  // ---- the limit only shows when it is met ----

  /** A line that does not meet the limit does the same from any smaller depth. */
  lemma {:induction false} DepthDoesNotShow(env: Env, w: World, depth: Depth, shallower: Depth, line: string)
    requires shallower <= depth && !Exec(env, w, depth, line).limited
    ensures Exec(env, w, shallower, line) == Exec(env, w, depth, line)
    decreases MAX_DEPTH - depth, if IsBare(line) then 2 else 1, 0
  {
    hide Substituted, ExecLines, TrimSpace, SplitCommand.Split;
    var t := TrimSpace(line);
    if t == "" {
    } else if !HasPrefix(t, ":") {
      SendIsNotBare(t);
      DepthDoesNotShow(env, w, depth, shallower, ":send " + t);
    } else if !HasPrefix(t, ":!") && SplitCommand.Split(t) != [] {
      var parts := SplitCommand.Split(t);
      var name, args := TrimPrefix(parts[0], ":"), parts[1..];
      if name in w.scriptAliases {
        DepthDoesNotShow(env, w, depth + 1, shallower + 1, Substituted(w.scriptAliases[name], args));
      } else if (if name in w.aliases then w.aliases[name] else name) == "source" {
        if |args| >= 1 && args[0] in w.files {
          LinesDoNotShowDepth(env, w, depth + 1, shallower + 1, w.files[args[0]]);
        }
      }
    }
  }

  lemma {:induction false} LinesDoNotShowDepth(env: Env, w: World, depth: Depth, shallower: Depth, lines: seq<string>)
    requires shallower <= depth && !ExecLines(env, w, depth, lines).limited
    ensures ExecLines(env, w, shallower, lines) == ExecLines(env, w, depth, lines)
    decreases MAX_DEPTH - depth, 3, |lines|
  {
    hide Exec, TrimSpace;
    if lines != [] {
      var line := TrimSpace(lines[0]);
      if line == "" || HasPrefix(line, "#") {
        LinesDoNotShowDepth(env, w, depth, shallower, lines[1..]);
      } else if env.expand(w, line).Some? {
        DepthDoesNotShow(env, w, depth, shallower, env.expand(w, line).value);
        var r := Exec(env, w, depth, env.expand(w, line).value);
        if r.err.None? {
          LinesDoNotShowDepth(env, r.world, depth, shallower, lines[1..]);
        }
      }
    }
  }

  // ---- cycles of aliases ----

  /** The line that a call of a script alias, or a bare line, is replaced by. */
  function Rewritten(w: World, line: string): Option<string> {
    var t := TrimSpace(line);
    if t == "" then None
    else if !HasPrefix(t, ":") then Some(":send " + t)
    else if HasPrefix(t, ":!") then None
    else
      var parts := SplitCommand.Split(t);
      if parts == [] then None
      else
        var name := TrimPrefix(parts[0], ":");
        if name in w.scriptAliases then Some(Substituted(w.scriptAliases[name], parts[1..])) else None
  }

  /** If every line of a set is replaced by a line of the set, as for an alias that calls itself or
      aliases that call each other, also by way of bare text and an alias named send, then executing
      such a line ends in the depth error and changes nothing. */
  lemma {:induction false} CyclesEndInError(env: Env, w: World, depth: Depth, line: string, cycle: set<string>)
    requires line in cycle
    requires forall l | l in cycle :: Rewritten(w, l).Some? && Rewritten(w, l).value in cycle
    ensures Exec(env, w, depth, line) == Result(w, Some(TooDeep), true)
    decreases MAX_DEPTH - depth, if IsBare(line) then 2 else 1, 0
  {
    hide Substituted, SplitCommand.Split, TrimSpace;
    var t := TrimSpace(line);
    assert Rewritten(w, line).Some?;
    if !HasPrefix(t, ":") {
      SendIsNotBare(t);
      CyclesEndInError(env, w, depth, ":send " + t, cycle);
    } else if depth < MAX_DEPTH {
      CyclesEndInError(env, w, depth + 1, Rewritten(w, line).value, cycle);
    }
  }

  /** A word that the tokenizer keeps as it is and in which nothing is substituted. */
  predicate PlainWord(name: string) {
    && name != "" && name[0] != '!'
    && forall c | c in name :: c > ' ' && !IsSpace(c) && c !in ['\\', '\'', '"', '{', '$']
  }

  lemma PlainCall(name: string)
    requires PlainWord(name)
    ensures TrimSpace(":" + name) == ":" + name && SplitCommand.Split(":" + name) == [":" + name]
  {
    var line := ":" + name;
    assert forall c | c in line :: c == ':' || c in name;
    assert line[|line| - 1] in line;
    var args := [[SplitCommand.Bare(line)]];
    assert args[0][1..] == [] && args[1..] == [];
    assert SplitCommand.Meaning(args[0]) == line + [] == line;
    assert SplitCommand.TypedArg(args[0]) == line + [] == line;
    assert SplitCommand.TypedLine(args) == line + [] == line;
    assert SplitCommand.Meanings(args) == [line] + [];
    SplitCommand.SplitUndoesQuoting(args);
  }

  /** An alias whose body calls the alias itself. */
  lemma SelfAliasEndsInError(env: Env, w: World, depth: Depth, name: string)
    requires PlainWord(name) && name in w.scriptAliases && w.scriptAliases[name] == ":" + name
    ensures Exec(env, w, depth, ":" + name) == Result(w, Some(TooDeep), true)
  {
    var line := ":" + name;
    PlainCall(name);
    assert '$' !in line;
    NothingToReplace(line, "$@", "");
    NothingToClean(line, 9);
    hide TrimSpace, SplitCommand.Split;
    assert Substituted(line, []) == line;
    assert [line][1..] == [];
    assert Rewritten(w, line) == Some(line);
    CyclesEndInError(env, w, depth, line, {line});
  }
}
