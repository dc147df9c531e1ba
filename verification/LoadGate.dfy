/** internal/app/resource_gate.go: the gates in front of asynchronous loads. */
module LoadGate {

  /** One key's state in a gate. */
  datatype Gate = Gate(loaded: bool, pending: bool, exhausted: bool, version: nat)

  const IDLE := Gate(false, false, false, 0)

  function Begin(g: Gate): (Gate, bool) {
    if g.loaded || g.pending then (g, false) else (g.(pending := true), true)
  }

  function BeginOlder(g: Gate): (Gate, bool) {
    if g.pending || g.exhausted then (g, false) else (g.(pending := true), true)
  }

  function Finish(g: Gate, version: nat, ok: bool): (Gate, bool) {
    if g.version != version then (g, false)
    else (g.(pending := false, loaded := g.loaded || ok), true)
  }

  function FinishOlder(g: Gate, version: nat, exhausted: bool): (Gate, bool) {
    if g.version != version then (g, false)
    else (g.(pending := false, exhausted := g.exhausted || exhausted), true)
  }

  function MarkLoaded(g: Gate): Gate { g.(version := g.version + 1, loaded := true, pending := false) }

  function MarkExhausted(g: Gate): Gate { g.(exhausted := true) }

  function Invalidate(g: Gate): Gate { Gate(false, false, false, g.version + 1) }

  class KeyedGate<K(==)> {
    var loaded: set<K>
    var pending: set<K>
    var exhausted: set<K>
    var version: map<K, nat>

    function View(key: K): Gate
      reads this
    {
      Gate(key in loaded, key in pending, key in exhausted, Version(key))
    }

    function Version(key: K): nat
      reads this
    {
      if key in version then version[key] else 0
    }

    /** `key` now is in state `becomes`; the other keys are as before. */
    twostate predicate Only(key: K, becomes: Gate)
      reads this
    {
      && View(key) == becomes
      && loaded - {key} == old(loaded) - {key}
      && pending - {key} == old(pending) - {key}
      && exhausted - {key} == old(exhausted) - {key}
      && version - {key} == old(version) - {key}
    }

    constructor ()
      ensures loaded == pending == exhausted == {} && version == map[]
    {
      loaded, pending, exhausted, version := {}, {}, {}, map[];
    }

    method BeginVersion(key: K) returns (v: nat, ok: bool)
      modifies this
      ensures Only(key, Begin(old(View(key))).0) && ok == Begin(old(View(key))).1 && v == Version(key)
    {
      if key in loaded { return Version(key), false; }
      if key in pending { return Version(key), false; }
      pending := pending + {key};
      v, ok := Version(key), true;
    }

    method BeginOlderVersion(key: K) returns (v: nat, ok: bool)
      modifies this
      ensures Only(key, BeginOlder(old(View(key))).0) && ok == BeginOlder(old(View(key))).1 && v == Version(key)
    {
      if key in pending { return Version(key), false; }
      if key in exhausted { return Version(key), false; }
      pending := pending + {key};
      v, ok := Version(key), true;
    }

    method FinishVersion(key: K, v: nat, success: bool) returns (current: bool)
      modifies this
      ensures Only(key, Finish(old(View(key)), v, success).0) && current == Finish(old(View(key)), v, success).1
    {
      if Version(key) != v { return false; }
      pending := pending - {key};
      if success { loaded := loaded + {key}; }
      current := true;
    }

    method FinishOlderVersion(key: K, v: nat, isExhausted: bool) returns (current: bool)
      modifies this
      ensures Only(key, FinishOlder(old(View(key)), v, isExhausted).0)
      ensures current == FinishOlder(old(View(key)), v, isExhausted).1
    {
      if Version(key) != v { return false; }
      pending := pending - {key};
      if isExhausted { exhausted := exhausted + {key}; }
      current := true;
    }

    method MarkKeyLoaded(key: K)
      modifies this
      ensures Only(key, MarkLoaded(old(View(key))))
    {
      version := version[key := Version(key) + 1];
      loaded := loaded + {key};
      pending := pending - {key};
    }

    method MarkKeyExhausted(key: K)
      modifies this
      ensures Only(key, MarkExhausted(old(View(key))))
    {
      exhausted := exhausted + {key};
    }

    method InvalidateKey(key: K)
      modifies this
      ensures Only(key, Invalidate(old(View(key))))
    {
      version := version[key := Version(key) + 1];
      loaded := loaded - {key};
      pending := pending - {key};
      exhausted := exhausted - {key};
    }
  }

  // ---- runs of one key: requests are named by tickets

  type Ticket = nat

  datatype State = State(gate: Gate, outstanding: map<Ticket, nat>)

  datatype Step =
    | StepBegin(ticket: Ticket)
    | StepBeginOlder(ticket: Ticket)
    | StepComplete(ticket: Ticket, ok: bool)
    | StepCompleteOlder(ticket: Ticket, exhausted: bool)
    | StepMarkLoaded
    | StepMarkExhausted
    | StepInvalidate

  /** A granted request takes a ticket not in use; a completion hands its ticket back. */
  ghost predicate Enabled(s: State, step: Step) {
    match step
    case StepBegin(t) => t !in s.outstanding
    case StepBeginOlder(t) => t !in s.outstanding
    case StepComplete(t, _) => t in s.outstanding
    case StepCompleteOlder(t, _) => t in s.outstanding
    case _ => true
  }

  ghost function Next(s: State, step: Step): State
    requires Enabled(s, step)
  {
    match step
    case StepBegin(t) =>
      var (g, granted) := Begin(s.gate);
      State(g, if granted then s.outstanding[t := g.version] else s.outstanding)
    case StepBeginOlder(t) =>
      var (g, granted) := BeginOlder(s.gate);
      State(g, if granted then s.outstanding[t := g.version] else s.outstanding)
    case StepComplete(t, ok) => State(Finish(s.gate, s.outstanding[t], ok).0, s.outstanding - {t})
    case StepCompleteOlder(t, exhausted) =>
      State(FinishOlder(s.gate, s.outstanding[t], exhausted).0, s.outstanding - {t})
    case StepMarkLoaded => s.(gate := MarkLoaded(s.gate))
    case StepMarkExhausted => s.(gate := MarkExhausted(s.gate))
    case StepInvalidate => s.(gate := Invalidate(s.gate))
  }

  ghost predicate Current(s: State, t: Ticket) {
    t in s.outstanding && s.outstanding[t] == s.gate.version
  }

  /** A load is pending exactly while one outstanding request carries the current version. */
  ghost predicate Inv(s: State) {
    && (forall t :: t in s.outstanding ==> s.outstanding[t] <= s.gate.version)
    && (forall t, u :: Current(s, t) && Current(s, u) ==> t == u)
    && (s.gate.pending <==> exists t :: Current(s, t))
  }

  lemma NextKeepsInv(s: State, step: Step)
    requires Inv(s) && Enabled(s, step)
    ensures Inv(Next(s, step))
  {
    var s' := Next(s, step);
    match step
    case StepBegin(t) => if Begin(s.gate).1 { assert Current(s', t); }
      assert forall u :: u != t ==> (Current(s', u) <==> Current(s, u));
    case StepBeginOlder(t) => if BeginOlder(s.gate).1 { assert Current(s', t); }
      assert forall u :: u != t ==> (Current(s', u) <==> Current(s, u));
    case StepComplete(t, _) =>
      assert Current(s, t) <==> s.outstanding[t] == s.gate.version;
      assert forall u :: u != t ==> (Current(s', u) <==> Current(s, u));
    case StepCompleteOlder(t, _) =>
      assert Current(s, t) <==> s.outstanding[t] == s.gate.version;
      assert forall u :: u != t ==> (Current(s', u) <==> Current(s, u));
    case StepMarkLoaded =>
    case StepInvalidate =>
    case StepMarkExhausted =>
      assert forall u :: Current(s', u) <==> Current(s, u);
  }

  ghost predicate EnabledAll(s: State, steps: seq<Step>)
    decreases |steps|
  {
    steps != [] ==> Enabled(s, steps[0]) && EnabledAll(Next(s, steps[0]), steps[1..])
  }

  ghost function Run(s: State, steps: seq<Step>): State
    requires EnabledAll(s, steps)
    decreases |steps|
  {
    if steps == [] then s else Run(Next(s, steps[0]), steps[1..])
  }

  lemma {:induction false} RunKeepsInv(s: State, steps: seq<Step>)
    requires Inv(s) && EnabledAll(s, steps)
    ensures Inv(Run(s, steps))
    decreases |steps|
  {
    if steps != [] {
      NextKeepsInv(s, steps[0]);
      RunKeepsInv(Next(s, steps[0]), steps[1..]);
    }
  }

  /** Over every run: at most one current request, pending exactly while there is one,
      and a completion of an older version leaves the gate as it was. */
  lemma GateIsExclusive(steps: seq<Step>, t: Ticket, u: Ticket, ok: bool)
    requires EnabledAll(State(IDLE, map[]), steps)
    ensures var s := Run(State(IDLE, map[]), steps);
            (Current(s, t) && Current(s, u) ==> t == u) &&
            (s.gate.pending <==> exists v :: Current(s, v)) &&
            (t in s.outstanding && !Current(s, t) ==>
               s.outstanding[t] < s.gate.version &&
               Next(s, StepComplete(t, ok)).gate == s.gate && Next(s, StepCompleteOlder(t, ok)).gate == s.gate)
  {
    var start := State(IDLE, map[]);
    assert forall v :: !Current(start, v);
    RunKeepsInv(start, steps);
  }
}
