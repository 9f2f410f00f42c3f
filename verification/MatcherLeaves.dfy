/** What a leaf test answers and which captures a match comes with (matchMatcher in
    internal/handler/registry.go). */
module MatcherLeaves {
  import Glob
  import opened Matchers
  import opened Text
  import opened Wrappers

  /** Nothing but a leaf test. */
  predicate Alone(m: Matcher) {
    m.all == [] && m.any == [] && m.binary == None
  }

  /** Nothing but a pattern. */
  predicate OnlyPattern(m: Matcher) {
    Alone(m) && m.regex == m.jq == m.jsonPath == m.jsonSchema == m.template == "" && m.pattern != ""
  }

  predicate HasWildcard(pattern: string) {
    '*' in pattern || '?' in pattern
  }

  lemma LoneLeaf(o: Oracles, m: Matcher, msg: Message)
    requires Alone(m)
    ensures Eval(o, m, msg) == match LeafTest(o, m, msg) {
              case LeafError(e) => Error(e)
              case LeafNo => Verdict(false, [])
              case LeafYes(own) => Verdict(true, if own.Some? then own.value else [])
            }
  {
    hide LeafTest;
  }

  lemma WildcardsAreFound(pattern: string)
    ensures ContainsAny(pattern, "*?") <==> HasWildcard(pattern)
  {
    if '*' in pattern {
      var i :| 0 <= i < |pattern| && pattern[i] == '*';
      assert pattern[i] in "*?";
    }
    if '?' in pattern {
      var i :| 0 <= i < |pattern| && pattern[i] == '?';
      assert pattern[i] in "*?";
    }
  }

  /** A text pattern without wildcards matches exactly the message that is, without the white space
      around it, the pattern. */
  lemma TextIsEqual(o: Oracles, m: Matcher, msg: Message)
    requires OnlyPattern(m) && ToLower(m.kind) in ["", "text"] && !HasWildcard(m.pattern)
    ensures Eval(o, m, msg) == Verdict(TrimSpace(msg.text) == m.pattern, [])
  {
    WildcardsAreFound(m.pattern);
    hide TrimSpace, ContainsAny, ToLower, HasWildcard;
    LoneLeaf(o, m, msg);
  }

  /** A glob, or a text pattern with wildcards, matches what the glob does, and the captures put in
      place of the wildcards give the message. */
  lemma GlobIsGlob(o: Oracles, m: Matcher, msg: Message)
    requires OnlyPattern(m)
    requires ToLower(m.kind) == "glob" || (ToLower(m.kind) in ["", "text"] && HasWildcard(m.pattern))
    ensures var text, r := TrimSpace(msg.text), Eval(o, m, msg);
            && r.Verdict? && (r.matched <==> Glob.GlobMatches(m.pattern, text))
            && (r.matched ==> Glob.Fits(m.pattern, r.captures) && Glob.Refill(m.pattern, r.captures) == text)
  {
    WildcardsAreFound(m.pattern);
    Glob.GlobIsPreserved(m.pattern, TrimSpace(msg.text));
    hide TrimSpace, ContainsAny, ToLower, HasWildcard, Glob.MatchGlob, Glob.GlobMatches, Glob.Fits, Glob.Refill;
    LoneLeaf(o, m, msg);
  }

  /** What comes of the answer of a query. */
  function Answer(c: Check): Result {
    match c
    case BadQuery(e) => Error(e)
    case Holds(b) => Verdict(b, [])
  }

  /** Patterns of the other kinds are what their library answers for the trimmed message; the groups
      of a regular expression come without the whole match. Unknown kinds are errors. */
  lemma OtherKindsAreAsked(o: Oracles, m: Matcher, msg: Message)
    requires OnlyPattern(m)
    ensures var text, kind, r := TrimSpace(msg.text), ToLower(m.kind), Eval(o, m, msg);
            && (kind == "regex" ==>
                  match o.regex(m.pattern, text) {
                    case BadExpression(e) => r == Error(e)
                    case NoGroups => r == Verdict(false, [])
                    case Groups(g) => r == Verdict(true, if g == [] then [] else g[1..])
                  })
            && (kind in ["json", "jq"] ==> r == Answer(o.jq(m.pattern, text)))
            && (kind == "json_schema" ==> r == Answer(o.jsonSchema(m.pattern, text)))
            && (kind == "template" ==> r == Answer(o.template(m.pattern, text)))
            && (kind !in ["", "text", "glob", "regex", "json", "jq", "json_schema", "template"] ==> r.Error?)
  {
    hide TrimSpace, ContainsAny, ToLower, Glob.MatchGlob;
    LoneLeaf(o, m, msg);
  }

  /** The shorthands, in their order, whatever else the matcher asks for. */
  lemma ShorthandsAreAsked(o: Oracles, m: Matcher, msg: Message)
    requires Alone(m)
    ensures var text, r := TrimSpace(msg.text), Eval(o, m, msg);
            if m.regex != "" then
              match o.regex(m.regex, text) {
                case BadExpression(e) => r == Error(e)
                case NoGroups => r == Verdict(false, [])
                case Groups(g) => r == Verdict(true, g)
              }
            else if m.jq != "" then r == Answer(o.jq(m.jq, text))
            else if m.jsonPath != "" then r == Answer(o.jsonPath(m.jsonPath, m.equals, text))
            else if m.jsonSchema != "" then r == Answer(o.jsonSchema(m.jsonSchema, text))
            else if m.template != "" then r == Answer(o.template(m.template, text))
            else m.pattern == "" ==> r == Verdict(true, [])
  {
    hide TrimSpace, PatternLeaf;
    LoneLeaf(o, m, msg);
  }

  /** A matcher that asks for binary or text messages matches no others. */
  lemma BinaryIsAsked(o: Oracles, m: Matcher, msg: Message, binary: bool)
    requires m.binary == Some(binary) && Eval(o, m, msg).Verdict?
    ensures Eval(o, m, msg).matched ==> msg.isBinary == binary
    ensures m == EMPTY.(binary := Some(binary)) ==> Eval(o, m, msg) == Verdict(msg.isBinary == binary, [])
  {
    hide TrimSpace, PatternLeaf;
  }

  // ---- captures ----

  function FirstNonEmpty(xs: seq<seq<string>>): seq<string> {
    if xs == [] then [] else if xs[0] != [] then xs[0] else FirstNonEmpty(xs[1..])
  }

  function CapturesOf(o: Oracles, ms: seq<Matcher>, msg: Message): seq<seq<string>> {
    if ms == [] then []
    else
      var r := Eval(o, ms[0], msg);
      [if r.Verdict? then r.captures else []] + CapturesOf(o, ms[1..], msg)
  }

  lemma {:induction false} AllCaptures(o: Oracles, ms: seq<Matcher>, msg: Message, captures: seq<string>)
    requires EvalAll(o, ms, msg, captures).Verdict? && EvalAll(o, ms, msg, captures).matched
    ensures EvalAll(o, ms, msg, captures).captures == FirstNonEmpty([captures] + CapturesOf(o, ms, msg))
  {
    hide Eval;
    if ms == [] {
      assert ([captures] + [])[1..] == [];
    } else {
      var first, rest := Eval(o, ms[0], msg).captures, CapturesOf(o, ms[1..], msg);
      AllCaptures(o, ms[1..], msg, FirstOf(captures, first));
      assert ([captures] + ([first] + rest))[1..] == [first] + rest;
      assert ([first] + rest)[1..] == rest && ([FirstOf(captures, first)] + rest)[1..] == rest;
    }
  }

  lemma FirstOfTwo(a: seq<string>, b: seq<string>)
    ensures FirstNonEmpty([a] + [b]) == FirstOf(a, b)
  {
    assert [b][1..] == [];
    assert FirstNonEmpty([]) == [];
    assert FirstNonEmpty([b]) == b;
    assert ([a] + [b])[1..] == [b];
  }

  lemma {:induction false} AnyCaptures(o: Oracles, ms: seq<Matcher>, msg: Message, captures: seq<string>)
    returns (k: nat)
    requires EvalAny(o, ms, msg, captures).Verdict? && EvalAny(o, ms, msg, captures).matched
    ensures k < |ms| && Eval(o, ms[k], msg).Verdict? && Eval(o, ms[k], msg).matched
    ensures forall j | 0 <= j < k :: Eval(o, ms[j], msg).Verdict? && !Eval(o, ms[j], msg).matched
    ensures EvalAny(o, ms, msg, captures).captures == FirstNonEmpty([captures] + [Eval(o, ms[k], msg).captures])
  {
    hide Eval;
    if Eval(o, ms[0], msg).matched {
      k := 0;
      var first := Eval(o, ms[0], msg).captures;
      FirstOfTwo(captures, first);
    } else {
      k := AnyCaptures(o, ms[1..], msg, captures);
      assert forall j | 1 <= j < |ms| :: ms[j] == ms[1..][j - 1];
      k := k + 1;
    }
  }

  /** A match comes with the captures that its own leaf test gives. If that leaves them to the parts,
      it is with the first that are not empty among those of the All parts, in order, and of the first
      Any part that matches. */
  lemma CapturesComeFrom(o: Oracles, m: Matcher, msg: Message) returns (ofAny: seq<seq<string>>)
    requires Eval(o, m, msg).Verdict? && Eval(o, m, msg).matched
    ensures Eval(o, m, msg).captures
         == match LeafTest(o, m, msg) {
              case LeafYes(Some(own)) => own
              case _ => FirstNonEmpty([FirstNonEmpty([[]] + CapturesOf(o, m.all, msg))] + ofAny)
            }
    ensures if m.any == [] then ofAny == []
            else exists k | 0 <= k < |m.any| ::
              && Eval(o, m.any[k], msg).Verdict? && Eval(o, m.any[k], msg).matched
              && ofAny == [Eval(o, m.any[k], msg).captures]
              && forall j | 0 <= j < k :: Eval(o, m.any[j], msg).Verdict? && !Eval(o, m.any[j], msg).matched
  {
    hide LeafTest;
    var all := EvalAll(o, m.all, msg, []);
    AllCaptures(o, m.all, msg, []);
    ofAny := [];
    if m.any != [] {
      var k := AnyCaptures(o, m.any, msg, all.captures);
      ofAny := [Eval(o, m.any[k], msg).captures];
    } else {
      assert ([all.captures] + [])[1..] == [];
    }
  }
}
