/** Message matchers: nested All/Any combinations over leaf tests (matchMatcher in
    internal/handler/registry.go). Regular expressions, jq, JSON Schema and templates are given
    by oracles; globs are those of module Glob. */
module Matchers {
  import opened Text
  import Glob
  import opened Wrappers

  datatype Matcher = Matcher(
    all: seq<Matcher>, any: seq<Matcher>, binary: Option<bool>,
    regex: string, jq: string, jsonPath: string, equals: string, jsonSchema: string, template: string,
    pattern: string, kind: string)

  datatype Message = Message(text: string, isBinary: bool)

  /** What the libraries answer for an expression and the trimmed message. */
  datatype Found = BadExpression(error: string) | NoGroups | Groups(groups: seq<string>)

  datatype Check = BadQuery(error: string) | Holds(holds: bool)

  datatype Oracles = Oracles(
    regex: (string, string) -> Found,
    jq: (string, string) -> Check,
    jsonPath: (string, string, string) -> Check,
    jsonSchema: (string, string) -> Check,
    template: (string, string) -> Check)

  datatype Result = Error(error: string) | Verdict(matched: bool, captures: seq<string>)

  /** The answer of the leaf test; without captures of its own it passes on those of the parts. */
  datatype Leaf = LeafError(error: string) | LeafNo | LeafYes(own: Option<seq<string>>)

  function Lower(c: char): char {
    if 'A' <= c <= 'Z' then (c as int + 32) as char else c
  }

  function ToLower(s: string): string {
    if s == "" then "" else [Lower(s[0])] + ToLower(s[1..])
  }

  function Checked(c: Check, yes: Leaf): Leaf {
    match c
    case BadQuery(e) => LeafError(e)
    case Holds(b) => if b then yes else LeafNo
  }

  function GlobLeaf(pattern: string, text: string): Leaf {
    match Glob.MatchGlob(pattern, text)
    case BadPattern => LeafError("glob to regex error")
    case NoMatch => LeafNo
    case Matched(captures) => LeafYes(Some(captures))
  }

  function PatternLeaf(o: Oracles, m: Matcher, text: string): Leaf {
    var kind := ToLower(m.kind);
    if kind == "text" || kind == "" then
      if ContainsAny(m.pattern, "*?") then GlobLeaf(m.pattern, text)
      else if text == m.pattern then LeafYes(Some([])) else LeafNo
    else if kind == "regex" then
      match o.regex(m.pattern, text) {
        case BadExpression(e) => LeafError(e)
        case NoGroups => LeafNo
        case Groups(g) => LeafYes(Some(if |g| > 1 then g[1..] else []))
      }
    else if kind == "glob" then GlobLeaf(m.pattern, text)
    else if kind == "json" || kind == "jq" then Checked(o.jq(m.pattern, text), LeafYes(Some([])))
    else if kind == "json_schema" then Checked(o.jsonSchema(m.pattern, text), LeafYes(Some([])))
    else if kind == "template" then Checked(o.template(m.pattern, text), LeafYes(Some([])))
    else LeafError("unknown matcher type")
  }

  function LeafTest(o: Oracles, m: Matcher, msg: Message): Leaf {
    var text := TrimSpace(msg.text);
    if m.regex != "" then
      match o.regex(m.regex, text) {
        case BadExpression(e) => LeafError(e)
        case NoGroups => LeafNo
        case Groups(g) => LeafYes(Some(g))
      }
    else if m.jq != "" then Checked(o.jq(m.jq, text), LeafYes(None))
    else if m.jsonPath != "" then Checked(o.jsonPath(m.jsonPath, m.equals, text), LeafYes(None))
    else if m.jsonSchema != "" then Checked(o.jsonSchema(m.jsonSchema, text), LeafYes(None))
    else if m.template != "" then Checked(o.template(m.template, text), LeafYes(None))
    else if m.pattern != "" then PatternLeaf(o, m, text)
    else LeafYes(None)
  }

  predicate BinaryTest(m: Matcher, msg: Message) {
    m.binary.None? || m.binary.value == msg.isBinary
  }

  /** The first non-empty captures win. */
  function FirstOf(captures: seq<string>, more: seq<string>): seq<string> {
    if captures == [] then more else captures
  }

  function Eval(o: Oracles, m: Matcher, msg: Message): Result
    decreases m, 1
  {
    var all := EvalAll(o, m.all, msg, []);
    if all.Error? || !all.matched then all
    else
      var any := if m.any == [] then all else EvalAny(o, m.any, msg, all.captures);
      if any.Error? || !any.matched then any
      else if !BinaryTest(m, msg) then Verdict(false, [])
      else
        match LeafTest(o, m, msg)
        case LeafError(e) => Error(e)
        case LeafNo => Verdict(false, [])
        case LeafYes(own) => Verdict(true, if own.Some? then own.value else any.captures)
  }

  /** The loop over All: it stops at the first error and at the first part that does not match. */
  function EvalAll(o: Oracles, ms: seq<Matcher>, msg: Message, captures: seq<string>): Result
    decreases ms, 0
  {
    if ms == [] then Verdict(true, captures)
    else
      var first := Eval(o, ms[0], msg);
      if first.Error? then first
      else if !first.matched then Verdict(false, [])
      else EvalAll(o, ms[1..], msg, FirstOf(captures, first.captures))
  }

  /** The loop over Any: it stops at the first error and at the first part that matches. */
  function EvalAny(o: Oracles, ms: seq<Matcher>, msg: Message, captures: seq<string>): Result
    decreases ms, 0
  {
    if ms == [] then Verdict(false, [])
    else
      var first := Eval(o, ms[0], msg);
      if first.Error? then first
      else if first.matched then Verdict(true, FirstOf(captures, first.captures))
      else EvalAny(o, ms[1..], msg, captures)
  }

  // ---- the meaning ----

  /** `supposed` says what to take for a leaf test that fails with an error. */
  predicate LeafTruth(o: Oracles, m: Matcher, msg: Message, supposed: Matcher -> bool) {
    match LeafTest(o, m, msg)
    case LeafError(_) => supposed(m)
    case LeafNo => false
    case LeafYes(_) => true
  }

  predicate Means(o: Oracles, m: Matcher, msg: Message, supposed: Matcher -> bool) {
    && (forall k | 0 <= k < |m.all| :: Means(o, m.all[k], msg, supposed))
    && (m.any == [] || exists k | 0 <= k < |m.any| :: Means(o, m.any[k], msg, supposed))
    && BinaryTest(m, msg)
    && LeafTruth(o, m, msg, supposed)
  }

  /** No leaf test anywhere in the matcher raises an error. */
  predicate NoErrors(o: Oracles, m: Matcher, msg: Message) {
    && !LeafTest(o, m, msg).LeafError?
    && (forall k | 0 <= k < |m.all| :: NoErrors(o, m.all[k], msg))
    && (forall k | 0 <= k < |m.any| :: NoErrors(o, m.any[k], msg))
  }

  /** A verdict, when there is one, is the meaning, whatever is supposed for the leaf tests that
      would fail: none of them matters then. */
  lemma {:induction false} VerdictIsMeaning(o: Oracles, m: Matcher, msg: Message, supposed: Matcher -> bool)
    requires Eval(o, m, msg).Verdict?
    ensures Eval(o, m, msg).matched == Means(o, m, msg, supposed)
    decreases m, 1
  {
    hide LeafTest;
    var all := EvalAll(o, m.all, msg, []);
    AllIsMeaning(o, m.all, msg, [], supposed);
    if all.matched && m.any != [] {
      AnyIsMeaning(o, m.any, msg, all.captures, supposed);
    }
  }

  lemma {:induction false} AllIsMeaning(o: Oracles, ms: seq<Matcher>, msg: Message, captures: seq<string>,
                                        supposed: Matcher -> bool)
    requires EvalAll(o, ms, msg, captures).Verdict?
    ensures EvalAll(o, ms, msg, captures).matched
       <==> forall k | 0 <= k < |ms| :: Means(o, ms[k], msg, supposed)
    decreases ms, 0
  {
    hide Means;
    if ms != [] {
      VerdictIsMeaning(o, ms[0], msg, supposed);
      var first, rest := Eval(o, ms[0], msg), ms[1..];
      if first.matched {
        AllIsMeaning(o, rest, msg, FirstOf(captures, first.captures), supposed);
        assert forall k | 1 <= k < |ms| :: ms[k] == rest[k - 1];
        assert forall k | 0 <= k < |rest| :: rest[k] == ms[k + 1];
      }
    }
  }

  lemma {:induction false} AnyIsMeaning(o: Oracles, ms: seq<Matcher>, msg: Message, captures: seq<string>,
                                        supposed: Matcher -> bool)
    requires EvalAny(o, ms, msg, captures).Verdict?
    ensures EvalAny(o, ms, msg, captures).matched
       <==> exists k | 0 <= k < |ms| :: Means(o, ms[k], msg, supposed)
    decreases ms, 0
  {
    hide Means;
    if ms != [] {
      VerdictIsMeaning(o, ms[0], msg, supposed);
      var rest := ms[1..];
      if !Eval(o, ms[0], msg).matched {
        AnyIsMeaning(o, rest, msg, captures, supposed);
        assert forall k | 1 <= k < |ms| :: ms[k] == rest[k - 1];
        assert forall k | 0 <= k < |rest| :: rest[k] == ms[k + 1];
      }
    }
  }

  lemma {:induction false} NoErrorsNoError(o: Oracles, m: Matcher, msg: Message)
    requires NoErrors(o, m, msg)
    ensures Eval(o, m, msg).Verdict?
    decreases m, 1
  {
    hide LeafTest;
    LoopsWithoutError(o, m.all, msg, []);
    LoopsWithoutError(o, m.any, msg, EvalAllCaptures(o, m, msg));
  }

  function EvalAllCaptures(o: Oracles, m: Matcher, msg: Message): seq<string> {
    var all := EvalAll(o, m.all, msg, []);
    if all.Verdict? then all.captures else []
  }

  lemma {:induction false} LoopsWithoutError(o: Oracles, ms: seq<Matcher>, msg: Message, captures: seq<string>)
    requires forall k | 0 <= k < |ms| :: NoErrors(o, ms[k], msg)
    ensures EvalAll(o, ms, msg, captures).Verdict? && EvalAny(o, ms, msg, captures).Verdict?
    decreases ms, 0
  {
    hide NoErrors;
    if ms != [] {
      NoErrorsNoError(o, ms[0], msg);
      LoopsWithoutError(o, ms[1..], msg, captures);
      var first := Eval(o, ms[0], msg);
      LoopsWithoutError(o, ms[1..], msg, FirstOf(captures, first.captures));
    }
  }

  /** With no errors the verdict is (all of All) and (some of Any, if there is one) and the binary
      test and the leaf test. */
  lemma MatchIsBoolean(o: Oracles, m: Matcher, msg: Message)
    requires NoErrors(o, m, msg)
    ensures Eval(o, m, msg).Verdict?
    ensures Eval(o, m, msg).matched == Means(o, m, msg, _ => false)
  {
    NoErrorsNoError(o, m, msg);
    VerdictIsMeaning(o, m, msg, _ => false);
  }

  // ---- consequences ----

  ghost predicate AllMean(o: Oracles, ms: seq<Matcher>, msg: Message) {
    forall k | 0 <= k < |ms| :: Means(o, ms[k], msg, _ => false)
  }

  ghost predicate SomeMeans(o: Oracles, ms: seq<Matcher>, msg: Message) {
    exists k | 0 <= k < |ms| :: Means(o, ms[k], msg, _ => false)
  }

  ghost predicate AllClean(o: Oracles, ms: seq<Matcher>, msg: Message) {
    forall k | 0 <= k < |ms| :: NoErrors(o, ms[k], msg)
  }

  /** Replacing the parts of a matcher by parts that say the same keeps the verdict. */
  lemma PartsReplaced(o: Oracles, m: Matcher, all: seq<Matcher>, any: seq<Matcher>, msg: Message)
    requires NoErrors(o, m, msg) && AllClean(o, all, msg) && AllClean(o, any, msg)
    requires AllMean(o, m.all, msg) == AllMean(o, all, msg)
    requires (m.any == [] || SomeMeans(o, m.any, msg)) == (any == [] || SomeMeans(o, any, msg))
    ensures var other := m.(all := all, any := any);
            && Eval(o, m, msg).Verdict? && Eval(o, other, msg).Verdict?
            && Eval(o, m, msg).matched == Eval(o, other, msg).matched
  {
    var other := m.(all := all, any := any);
    LeafPrecedence(o, m, other, msg);
    hide LeafTest, Eval;
    assert NoErrors(o, other, msg);
    MatchIsBoolean(o, m, msg);
    MatchIsBoolean(o, other, msg);
  }

  lemma SameMembers(o: Oracles, ms: seq<Matcher>, others: seq<Matcher>, msg: Message)
    requires forall x :: x in ms <==> x in others
    ensures AllMean(o, ms, msg) == AllMean(o, others, msg)
    ensures SomeMeans(o, ms, msg) == SomeMeans(o, others, msg)
    ensures AllClean(o, ms, msg) == AllClean(o, others, msg)
    ensures ms == [] <==> others == []
  {
    SubsetOfMembers(o, ms, others, msg);
    SubsetOfMembers(o, others, ms, msg);
    assert ms != [] ==> ms[0] in others;
    assert others != [] ==> others[0] in ms;
  }

  lemma SubsetOfMembers(o: Oracles, ms: seq<Matcher>, others: seq<Matcher>, msg: Message)
    requires forall x | x in ms :: x in others
    ensures AllMean(o, others, msg) ==> AllMean(o, ms, msg)
    ensures SomeMeans(o, ms, msg) ==> SomeMeans(o, others, msg)
    ensures AllClean(o, others, msg) ==> AllClean(o, ms, msg)
  {
    hide Means, NoErrors;
    forall k | 0 <= k < |ms|
      ensures exists x :: 0 <= x < |others| && others[x] == ms[k]
    {
      assert ms[k] in others;
    }
  }

  /** The verdict does not depend on the order of the parts, nor on repeating them. */
  lemma OrderDoesNotMatter(o: Oracles, m: Matcher, all: seq<Matcher>, any: seq<Matcher>, msg: Message)
    requires NoErrors(o, m, msg)
    requires (forall x :: x in m.all <==> x in all) && (forall x :: x in m.any <==> x in any)
    ensures var other := m.(all := all, any := any);
            && Eval(o, m, msg).Verdict? && Eval(o, other, msg).Verdict?
            && Eval(o, m, msg).matched == Eval(o, other, msg).matched
  {
    hide LeafTest, Eval, Means;
    SameMembers(o, m.all, all, msg);
    SameMembers(o, m.any, any, msg);
    assert AllClean(o, m.all, msg) && AllClean(o, m.any, msg);
    PartsReplaced(o, m, all, any, msg);
  }

  const EMPTY := Matcher([], [], None, "", "", "", "", "", "", "", "")

  function PureAll(ms: seq<Matcher>): Matcher {
    EMPTY.(all := ms)
  }

  function PureAny(ms: seq<Matcher>): Matcher {
    EMPTY.(any := ms)
  }

  /** A pure All inside All may be replaced by its parts. */
  lemma FlattenAll(o: Oracles, m: Matcher, before: seq<Matcher>, inner: seq<Matcher>, after: seq<Matcher>,
                   msg: Message)
    requires m.all == before + [PureAll(inner)] + after && NoErrors(o, m, msg)
    ensures var flat := m.(all := before + inner + after);
            && Eval(o, m, msg).Verdict? && Eval(o, flat, msg).Verdict?
            && Eval(o, m, msg).matched == Eval(o, flat, msg).matched
  {
    PureParts(o, inner, msg);
    hide LeafTest, Eval, Means, PureAll;
    assert AllClean(o, m.all, msg) && AllClean(o, m.any, msg);
    hide NoErrors;
    Joined(o, before, [PureAll(inner)], after, msg);
    Joined(o, before, inner, after, msg);
    PartsReplaced(o, m, before + inner + after, m.any, msg);
    assert m.(all := before + inner + after, any := m.any) == m.(all := before + inner + after);
  }

  /** A pure Any inside Any may be replaced by its parts. An Any without parts is none. */
  lemma FlattenAny(o: Oracles, m: Matcher, before: seq<Matcher>, inner: seq<Matcher>, after: seq<Matcher>,
                   msg: Message)
    requires m.any == before + [PureAny(inner)] + after && inner != [] && NoErrors(o, m, msg)
    ensures var flat := m.(any := before + inner + after);
            && Eval(o, m, msg).Verdict? && Eval(o, flat, msg).Verdict?
            && Eval(o, m, msg).matched == Eval(o, flat, msg).matched
  {
    PureParts(o, inner, msg);
    hide LeafTest, Eval, Means, PureAny;
    assert AllClean(o, m.all, msg) && AllClean(o, m.any, msg);
    hide NoErrors;
    Joined(o, before, [PureAny(inner)], after, msg);
    Joined(o, before, inner, after, msg);
    PartsReplaced(o, m, m.all, before + inner + after, msg);
    assert m.(all := m.all, any := before + inner + after) == m.(any := before + inner + after);
  }

  lemma PureParts(o: Oracles, inner: seq<Matcher>, msg: Message)
    ensures AllMean(o, [PureAll(inner)], msg) == AllMean(o, inner, msg)
    ensures inner != [] ==> SomeMeans(o, [PureAny(inner)], msg) == SomeMeans(o, inner, msg)
    ensures AllClean(o, [PureAll(inner)], msg) == AllClean(o, inner, msg)
    ensures AllClean(o, [PureAny(inner)], msg) == AllClean(o, inner, msg)
  {
    var all, any := PureAll(inner), PureAny(inner);
    assert LeafTest(o, all, msg).LeafYes? && LeafTest(o, any, msg).LeafYes?;
    hide LeafTest;
    assert Means(o, all, msg, _ => false) == AllMean(o, inner, msg);
    assert inner != [] ==> Means(o, any, msg, _ => false) == SomeMeans(o, inner, msg);
    assert NoErrors(o, all, msg) == AllClean(o, inner, msg) == NoErrors(o, any, msg);
    hide Means, NoErrors;
    assert [all][0] == all && [any][0] == any;
  }

  lemma Joined(o: Oracles, a: seq<Matcher>, b: seq<Matcher>, c: seq<Matcher>, msg: Message)
    ensures AllMean(o, a + b + c, msg) <==> AllMean(o, a, msg) && AllMean(o, b, msg) && AllMean(o, c, msg)
    ensures SomeMeans(o, a + b + c, msg) <==> SomeMeans(o, a, msg) || SomeMeans(o, b, msg) || SomeMeans(o, c, msg)
    ensures AllClean(o, a + b + c, msg) <==> AllClean(o, a, msg) && AllClean(o, b, msg) && AllClean(o, c, msg)
  {
    hide Means, NoErrors;
    var s := a + b + c;
    assert forall k | 0 <= k < |a| :: a[k] == s[k];
    assert forall k | 0 <= k < |b| :: b[k] == s[|a| + k];
    assert forall k | 0 <= k < |c| :: c[k] == s[|a| + |b| + k];
  }

  /** Of several leaf tests only the first in the order regex, jq, json path, json schema, template,
      pattern is looked at. */
  lemma LeafPrecedence(o: Oracles, m: Matcher, other: Matcher, msg: Message)
    requires m.regex == other.regex
    requires m.regex == "" ==> m.jq == other.jq
    requires m.regex == m.jq == "" ==> m.jsonPath == other.jsonPath && (m.jsonPath != "" ==> m.equals == other.equals)
    requires m.regex == m.jq == m.jsonPath == "" ==> m.jsonSchema == other.jsonSchema
    requires m.regex == m.jq == m.jsonPath == m.jsonSchema == "" ==> m.template == other.template
    requires m.regex == m.jq == m.jsonPath == m.jsonSchema == m.template == "" ==>
               m.pattern == other.pattern && m.kind == other.kind
    ensures LeafTest(o, m, msg) == LeafTest(o, other, msg)
  {
  }
}
