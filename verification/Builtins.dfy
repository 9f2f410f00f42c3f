/** The builtins that keep their state in the registry: sequence and once
    (internal/handler/builtins_impl.go). */
module Builtins {
  import Debounce
  import opened Matchers
  import opened Registry
  import opened RegistryCases
  import opened RegistryRuns

  const ANONYMOUS_SEQUENCE := "anonymous-sequence"

  function SequenceKey(handlerName: string): string {
    if handlerName == "" then ANONYMOUS_SEQUENCE else handlerName
  }

  /** The response template that is sent. Validation has refused empty lists. */
  method ExecuteSequence(registry: Registry, handlerName: string, connID: string, responses: seq<string>,
                         loop: bool, perClient: bool) returns (response: string)
    requires responses != []
    modifies registry`sequenceIndices, registry`sequenceClientIndices
    ensures var (tables, idx) := NextSequence(old(registry.Tabs()), SequenceKey(handlerName), connID, |responses|,
                                              loop, perClient);
            && registry.View() == old(registry.View()).(tables := tables)
            && idx < |responses| && response == responses[idx]
  {
    var key := handlerName;
    if key == "" {
      key := ANONYMOUS_SEQUENCE;
    }
    var idx := registry.GetNextSequenceIndex(key, connID, |responses|, loop, perClient);
    response := responses[idx];
  }

  /** Handlers have sequences of their own; those without a name share one, which they would share
      with a handler that is called like it. */
  lemma SequencesDiffer(a: string, b: string)
    ensures SequenceKey(a) == SequenceKey(b)
       <==> a == b || (a == "" && b == "anonymous-sequence") || (a == "anonymous-sequence" && b == "")
  {
  }

  /** The k-th response sent from a fresh sequence of n responses. */
  lemma ResponsesInTurn(s: State, accepts: Handler -> bool, ops: seq<Op>, handlerName: string, conn: string,
                        responses: seq<string>, loop: bool, perClient: bool, k: nat)
    requires responses != []
    requires SequenceKey(handlerName) !in s.tables.sequenceIndices
    requires SequenceKey(handlerName) !in s.tables.sequenceClientIndices
    requires forall i | 0 <= i < |ops| :: KeepsSequences(ops[i], SequenceKey(handlerName), conn, perClient)
    requires forall i | 0 <= i < |ops| && SameSequence(ops[i], SequenceKey(handlerName), conn, perClient) ::
               ops[i].count == |responses| && ops[i].loop == loop
    requires k < |Replies(s, accepts, ops, SequenceKey(handlerName), conn, perClient)|
    ensures var idx := Replies(s, accepts, ops, SequenceKey(handlerName), conn, perClient)[k];
            idx < |responses| && responses[idx] == responses[if loop then k % |responses| else
                                                             if k < |responses| then k else |responses| - 1]
  {
    SequenceStarts(s, accepts, ops, SequenceKey(handlerName), conn, |responses|, loop, perClient);
  }

  datatype OnceResult = Fired | NoHandlerName | CannotDisable

  /** What once does to the registry, before anything is sent. */
  function Once(s: State, handlerName: string): (State, OnceResult) {
    if handlerName == "" then (s, NoHandlerName)
    else (Disable(s, handlerName, "once").0, if Named(s.handlers, handlerName) then Fired else CannotDisable)
  }

  method ExecuteOnce(registry: Registry, handlerName: string) returns (r: OnceResult)
    modifies registry`disabled
    ensures (registry.View(), r) == Once(old(registry.View()), handlerName)
  {
    if handlerName == "" {
      return NoHandlerName;
    }
    var out := registry.DisableHandlerWithReason(handlerName, "once");
    if out != Ok {
      return CannotDisable;
    }
    return Fired;
  }

  /** The debouncer under the key is the same. */
  predicate KeepsDebouncer(s: State, next: State, key: string) {
    && key in s.tables.debouncers && key in next.tables.debouncers
    && next.tables.debouncers[key] == s.tables.debouncers[key]
  }

  lemma DeletingKeepsKey(s: State, name: string, key: string)
    requires key in s.tables.debouncers && key != name
    ensures KeepsDebouncer(s, Remove(s, name).0, key)
  {
    ForgettingKeepsKey(s.tables, name, key);
    hide Named, FirstNamed, ForgetOnDelete;
  }

  lemma ForgettingKeepsKey(t: Tables, name: string, key: string)
    requires key in t.debouncers && key != name
    ensures key in ForgetOnDelete(t, name).debouncers && ForgetOnDelete(t, name).debouncers[key] == t.debouncers[key]
  {
    hide Without;
  }

  lemma UpdatingKeepsKey(s: State, accepts: Handler -> bool, h: Handler, key: string)
    requires key in s.tables.debouncers && key != h.name
    ensures KeepsDebouncer(s, Update(s, accepts, h).0, key)
  {
    hide Without, Named, ByPriority;
  }

  lemma RenamingKeepsKey(s: State, from: string, to: string, key: string)
    requires key in s.tables.debouncers && key != from && key != to
    ensures KeepsDebouncer(s, Rename(s, from, to).0, key)
  {
    hide RenamePrefix, Named;
  }

  /** Update, Delete and Rename look for debouncers under the bare name of the handler. What its
      debounce builtin has put into the table, under keys of its own, they leave there. */
  lemma DebounceKeysStay(s: State, accepts: Handler -> bool, h: Handler, to: string, key: string)
    requires key in s.tables.debouncers && to != key
    requires key == Debounce.GlobalKey(h.name) || exists conn :: key == Debounce.ClientKey(h.name, conn)
    ensures KeepsDebouncer(s, Remove(s, h.name).0, key)
    ensures KeepsDebouncer(s, Update(s, accepts, h).0, key)
    ensures KeepsDebouncer(s, Rename(s, h.name, to).0, key)
  {
    assert key != h.name;
    hide Remove, Update, Rename, KeepsDebouncer;
    DeletingKeepsKey(s, h.name, key);
    UpdatingKeepsKey(s, accepts, h, key);
    RenamingKeepsKey(s, h.name, to, key);
  }

  /** Once fires only for a registered handler, which is then disabled with the reason once. */
  lemma OnceDisables(s: State, name: string)
    ensures var (next, r) := Once(s, name);
            if name == "" then next == s && r == NoHandlerName
            else if !InUse(s.handlers, name) then next == s && r == CannotDisable
            else
              && r == Fired && next == s.(tables := s.tables.(disabled := s.tables.disabled[name := "once"]))
              && Marked(next.tables, name)
  {
    NamedIsInUse(s.handlers, name);
    hide Named, InUse;
  }

  /** A handler that has fired once is not matched again in any run in which it is not enabled,
      deleted or replaced, under whatever name it goes by then. */
  lemma FiredIsNotMatchedAgain(s: State, accepts: Handler -> bool, ops: seq<Op>, name: string, o: Oracles, msg: Message)
    requires Valid(s) && Named(s.handlers, name)
    requires var fired := Disable(s, name, "once").0;
             FreshBatches(fired, accepts, ops) && NeverFreed(fired, accepts, ops, name)
    ensures var fired := Disable(s, name, "once").0;
            var found := MatchFrom(Run(fired, accepts, ops), o, msg, 0);
            found.Results? ==>
              forall r | r in found.results :: r.handler.name != NameAfter(fired, accepts, ops, name)
  {
    var fired := Disable(s, name, "once").0;
    StepKeepsValid(s, accepts, Disabling(name, "once"));
    assert fired == Step(s, accepts, Disabling(name, "once"));
    assert IsDisabled(fired.tables, name);
    DisabledIsNeverMatched(fired, accepts, ops, name, o, msg);
  }
}
