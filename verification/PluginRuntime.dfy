/** internal/plugin/manager.go and internal/plugin/runtime.go: one worker runs every piece of
    Lua, from a bounded queue that any goroutine may add to. */
module PluginRuntime {
  import opened Collections
  import opened PluginRegistry

  type Owner = nat

  /** A command or key handler is looked up where it is submitted; the other jobs look when they run. */
  datatype Job =
    | LoadJob(owner: Owner)
    | TimerJob(owner: Owner)
    | ViewJob(owner: Owner)
    | EventJob(name: string)
    | HandlerJob(owner: Owner)

  // ---- the four registries

  datatype Kind = Event | Command | Key | Theme

  datatype Registries = Registries(events: Stacks<string, nat>, commands: Stacks<string, nat>,
                                   keys: Stacks<string, nat>, themes: Stacks<string, nat>)

  function At(r: Registries, kind: Kind): Stacks<string, nat> {
    match kind
    case Event => r.events
    case Command => r.commands
    case Key => r.keys
    case Theme => r.themes
  }

  function Put(r: Registries, kind: Kind, stacks: Stacks<string, nat>): Registries {
    match kind
    case Event => r.(events := stacks)
    case Command => r.(commands := stacks)
    case Key => r.(keys := stacks)
    case Theme => r.(themes := stacks)
  }

  function RolledBackAll(r: Registries, owner: Owner): Registries {
    Registries(RolledBack(r.events, owner), RolledBack(r.commands, owner),
               RolledBack(r.keys, owner), RolledBack(r.themes, owner))
  }

  // ---- the worker

  /** What the worker is doing between jobs: a load spans several steps. */
  datatype Phase = Idle | Loading(owner: Owner) | Exited

  datatype World = World(
    limit: nat,
    phase: Phase,
    queue: seq<Job>,
    quit: bool,
    begun: set<Owner>,
    live: set<Owner>,
    closed: set<Owner>,
    registries: Registries,
    views: map<nat, Owner>,
    timers: map<nat, Owner>,
    open: set<nat>,
    stops: seq<nat>,
    log: seq<Owner>,
    called: set<Owner>,
    risky: set<Owner>)

  datatype Move =
    | SubmitLoad(owner: Owner)
    | Emit(name: string)
    | RunHandler(kind: Kind, name: string)
    | Tick(timer: nat)
    | Press(view: nat)
    | Take
    | Register(owner: Owner, kind: Kind, name: string, fn: nat)
    | OpenView(owner: Owner, view: nat)
    | Every(owner: Owner, timer: nat)
    | Commit
    | Fail
    | Stop
    | Exit
    | Close

  const QUEUE := 256

  function Start(limit: nat): World {
    World(limit, Idle, [], false, {}, {}, {}, Registries(map[], map[], map[], map[]), map[], map[], {}, [], [], {}, {})
  }

  /** Lua only runs on the worker: in a load, or in a callback of a committed state. */
  predicate Running(w: World, owner: Owner) {
    w.phase == Loading(owner) || (w.phase.Idle? && owner in w.live)
  }

  ghost predicate Enabled(w: World, m: Move) {
    match m
    case SubmitLoad(owner) => |w.queue| < w.limit && owner !in w.begun && LoadJob(owner) !in w.queue
    case RunHandler(kind, _) => kind.Command? || kind.Key?
    case Tick(timer) => timer in w.timers
    case Press(view) => view in w.views
    case Take => w.phase.Idle? && w.queue != []
    case Register(owner, _, _, _) => Running(w, owner)
    case OpenView(owner, view) => Running(w, owner) && view !in w.views
    case Every(owner, timer) => Running(w, owner) && timer !in w.timers
    case Commit => w.phase.Loading?
    case Fail => w.phase.Loading?
    case Exit => w.quit && w.phase.Idle?
    case Close => w.phase.Exited?
    case _ => true
  }

  /** Dropped when stopping or full. */
  function Submit(w: World, job: Job): World {
    if w.quit || |w.queue| >= w.limit then w else w.(queue := w.queue + [job])
  }

  /** Every call is logged; `called` are the states that were called once closed. */
  function Call(w: World, owner: Owner): World {
    w.(log := w.log + [owner], called := w.called + if owner in w.closed then {owner} else {})
  }

  function CallAll(w: World, subs: seq<Owned<nat>>): World {
    if subs == [] then w else Call(CallAll(w, subs[..|subs| - 1]), subs[|subs| - 1].owner)
  }

  function Perform(w: World, job: Job): World {
    match job
    case LoadJob(owner) => w.(phase := Loading(owner), begun := w.begun + {owner})
    case TimerJob(owner) => if owner in w.live then Call(w, owner) else w
    case ViewJob(owner) => if owner in w.live then Call(w, owner) else w
    case EventJob(name) => CallAll(w, StackOf(w.registries.events, name))
    case HandlerJob(owner) => Call(w, owner)
  }

  function Lookup(w: World, kind: Kind, name: string): Option<Owner> {
    var stack := StackOf(At(w.registries, kind), name);
    if stack == [] then None else Some(stack[|stack| - 1].owner)
  }

  function TimersOf(w: World, owner: Owner): set<nat> { set t | t in w.open && t in w.timers && w.timers[t] == owner }

  ghost function CloseStops(w: World, ts: set<nat>): World {
    w.(open := w.open - ts, stops := w.stops + Listing(ts))
  }

  ghost function Next(w: World, m: Move): World
    requires Enabled(w, m)
  {
    match m
    case SubmitLoad(owner) => w.(queue := w.queue + [LoadJob(owner)])
    case Emit(name) => Submit(w, EventJob(name))
    case RunHandler(kind, name) =>
      (match Lookup(w, kind, name)
       case None => w
       case Some(owner) =>
         var looked := if w.phase == Loading(owner) then w.(risky := w.risky + {owner}) else w;
         Submit(looked, HandlerJob(owner)))
    case Tick(timer) => Submit(w, TimerJob(w.timers[timer]))
    case Press(view) => Submit(w, ViewJob(w.views[view]))
    case Take => Perform(w.(queue := w.queue[1..]), w.queue[0])
    case Register(owner, kind, name, fn) =>
      w.(registries := Put(w.registries, kind, Added(At(w.registries, kind), name, Owned(owner, fn))))
    case OpenView(owner, view) => w.(views := w.views[view := owner])
    case Every(owner, timer) => w.(timers := w.timers[timer := owner], open := w.open + {timer})
    case Commit => w.(phase := Idle, live := w.live + {w.phase.owner})
    case Fail =>
      var owner := w.phase.owner;
      CloseStops(w, TimersOf(w, owner)).(
        phase := Idle, closed := w.closed + {owner}, registries := RolledBackAll(w.registries, owner))
    case Stop => w.(quit := true)
    case Exit => w.(phase := Exited)
    case Close => CloseStops(w, w.open).(closed := w.closed + w.live, live := {})
  }

  // ---- what every run keeps

  predicate OwnersIn(stack: seq<Owned<nat>>, owners: set<Owner>) {
    forall i :: 0 <= i < |stack| ==> stack[i].owner in owners
  }

  /** No stack is empty, and only these owners have registrations. */
  predicate AllOwnersIn(stacks: Stacks<string, nat>, owners: set<Owner>) {
    forall k :: k in stacks ==> stacks[k] != [] && OwnersIn(stacks[k], owners)
  }

  ghost predicate RegisteredBy(r: Registries, owners: set<Owner>) {
    forall kind :: AllOwnersIn(At(r, kind), owners)
  }

  function Working(w: World): set<Owner> { w.live + if w.phase.Loading? then {w.phase.owner} else {} }

  /** States that are or may yet be usable are not closed; registries and timers only name those. */
  ghost predicate Owning(w: World) {
    && Working(w) !! w.closed && Working(w) + w.closed <= w.begun
    && (w.phase.Loading? ==> w.phase.owner !in w.live)
    && (forall o :: LoadJob(o) in w.queue ==> o !in w.begun)
    && (!w.phase.Exited? ==> RegisteredBy(w.registries, Working(w)))
  }

  ghost predicate LoadsOnce(queue: seq<Job>) {
    forall i, j :: 0 <= i < j < |queue| && queue[i].LoadJob? ==> queue[j] != queue[i]
  }

  /** A stop channel is closed once at most, and open as long as the timer's state is in use. */
  ghost predicate Stopping(w: World) {
    && w.open <= w.timers.Keys && Distinct(w.stops) && (forall t :: t in w.stops ==> t in w.timers && t !in w.open)
    && (forall t :: t in w.timers ==> t in w.open || t in w.stops)
    && (!w.phase.Exited? ==> forall t :: t in w.open ==> w.timers[t] in Working(w))
  }

  /** Closed states are only called through handlers looked up while they were loading. */
  ghost predicate Calling(w: World) {
    && w.called <= w.risky && w.risky <= w.begun && w.called <= w.closed
    && (!w.phase.Exited? ==> forall o :: HandlerJob(o) in w.queue ==> o in w.risky || o in w.live)
    && |w.queue| <= w.limit
  }

  ghost predicate Inv(w: World) { Owning(w) && LoadsOnce(w.queue) && Stopping(w) && Calling(w) }

  lemma OwnersMore(stacks: Stacks<string, nat>, a: set<Owner>, b: set<Owner>)
    requires AllOwnersIn(stacks, a) && a <= b
    ensures AllOwnersIn(stacks, b)
  {
    forall k | k in stacks
      ensures stacks[k] != [] && OwnersIn(stacks[k], b)
    {
      assert OwnersIn(stacks[k], a);
    }
  }

  lemma RegisteredByMore(r: Registries, a: set<Owner>, b: set<Owner>)
    requires RegisteredBy(r, a) && a <= b
    ensures RegisteredBy(r, b)
  {
    forall kind
      ensures AllOwnersIn(At(r, kind), b)
    {
      OwnersMore(At(r, kind), a, b);
    }
  }

  lemma {:induction false} WithoutOwners(stack: seq<Owned<nat>>, owner: Owner, owners: set<Owner>)
    requires OwnersIn(stack, owners)
    ensures OwnersIn(Without(stack, owner), owners - {owner})
  {
    if stack != [] {
      var n := |stack| - 1;
      assert forall i :: 0 <= i < n ==> stack[..n][i] == stack[i];
      WithoutOwners(stack[..n], owner, owners);
    }
  }

  lemma RolledBackOwners(stacks: Stacks<string, nat>, owner: Owner, owners: set<Owner>)
    requires AllOwnersIn(stacks, owners)
    ensures AllOwnersIn(RolledBack(stacks, owner), owners - {owner})
  {
    forall k | k in RolledBack(stacks, owner)
      ensures OwnersIn(RolledBack(stacks, owner)[k], owners - {owner})
    {
      WithoutOwners(stacks[k], owner, owners);
    }
  }

  lemma AddedOwners(stacks: Stacks<string, nat>, name: string, e: Owned<nat>, owners: set<Owner>)
    requires AllOwnersIn(stacks, owners) && e.owner in owners
    ensures AllOwnersIn(Added(stacks, name, e), owners)
  {
    assert OwnersIn(StackOf(stacks, name), owners);
  }

  lemma AllRolledBack(r: Registries, owner: Owner, owners: set<Owner>)
    requires RegisteredBy(r, owners)
    ensures RegisteredBy(RolledBackAll(r, owner), owners - {owner})
  {
    forall kind
      ensures AllOwnersIn(At(RolledBackAll(r, owner), kind), owners - {owner})
    {
      RolledBackOwners(At(r, kind), owner, owners);
    }
  }

  lemma OneAdded(r: Registries, kind: Kind, name: string, e: Owned<nat>, owners: set<Owner>)
    requires RegisteredBy(r, owners) && e.owner in owners
    ensures RegisteredBy(Put(r, kind, Added(At(r, kind), name, e)), owners)
  {
    hide AllOwnersIn, Added;
    AddedOwners(At(r, kind), name, e, owners);
    var r' := Put(r, kind, Added(At(r, kind), name, e));
    forall k
      ensures AllOwnersIn(At(r', k), owners)
    {
      if k != kind { assert At(r', k) == At(r, k); }
    }
  }

  /** Dispatching to states none of which is closed calls no closed state. */
  lemma {:induction false} CallAllSafe(w: World, subs: seq<Owned<nat>>)
    requires OwnersIn(subs, Working(w)) && Working(w) !! w.closed
    ensures CallAll(w, subs) == w.(log := w.log + OwnersOf(subs))
  {
    if subs != [] {
      var n := |subs| - 1;
      assert forall i :: 0 <= i < n ==> subs[..n][i] == subs[i];
      CallAllSafe(w, subs[..n]);
      assert w.called + {} == w.called;
      assert OwnersOf(subs) == OwnersOf(subs[..n]) + [subs[n].owner];
    } else {
      assert w.log + [] == w.log;
    }
  }

  function OwnersOf(subs: seq<Owned<nat>>): seq<Owner> {
    seq(|subs|, i requires 0 <= i < |subs| => subs[i].owner)
  }

  lemma InvIgnoresLog(w: World, log: seq<Owner>)
    requires Inv(w)
    ensures Inv(w.(log := log))
  {
    assert Working(w.(log := log)) == Working(w);
  }

  lemma SubmitKeeps(w: World, job: Job)
    requires Inv(w) && !job.LoadJob?
    requires job.HandlerJob? && !w.phase.Exited? ==> job.owner in w.risky || job.owner in w.live
    ensures Inv(Submit(w, job))
  {
    var w' := Submit(w, job);
    assert forall j :: j in w'.queue ==> j in w.queue || j == job;
    assert Working(w') == Working(w);
  }

  lemma TakeKeeps(w: World)
    requires Inv(w) && Enabled(w, Take)
    ensures Inv(Next(w, Take))
  {
    hide Owning, LoadsOnce, Stopping, Calling, AllOwnersIn;
    var job, left := w.queue[0], w.(queue := w.queue[1..]);
    Dequeued(w);
    if job.LoadJob? {
      LoadBegins(w);
    } else if job.EventJob? {
      QueuedEventSafe(left, job.name);
      InvIgnoresLog(left, left.log + OwnersOf(StackOf(left.registries.events, job.name)));
    } else {
      OneCall(w);
    }
  }

  lemma Dequeued(w: World)
    requires Inv(w) && w.queue != []
    ensures Inv(w.(queue := w.queue[1..]))
  {
    hide AllOwnersIn, Distinct;
    var rest := w.queue[1..];
    assert forall j :: j in rest ==> j in w.queue;
    assert forall i :: 0 <= i < |rest| ==> rest[i] == w.queue[i + 1];
    assert Working(w.(queue := rest)) == Working(w);
  }

  lemma LoadBegins(w: World)
    requires Inv(w) && Enabled(w, Take) && w.queue[0].LoadJob?
    ensures Inv(Next(w, Take))
  {
    hide AllOwnersIn, Distinct;
    var w' := Next(w, Take);
    Dequeued(w);
    assert w.queue[0] in w.queue;
    assert forall i :: 0 <= i < |w.queue| - 1 ==> w.queue[1..][i] == w.queue[i + 1] && w.queue[i + 1] != w.queue[0];
    RegisteredByMore(w.registries, Working(w), Working(w'));
  }

  lemma QueuedEventSafe(w: World, name: string)
    requires Inv(w) && w.phase.Idle?
    ensures Perform(w, EventJob(name)) == w.(log := w.log + OwnersOf(StackOf(w.registries.events, name)))
  {
    EventSafe(w, name);
  }

  lemma OneCall(w: World)
    requires Inv(w) && Enabled(w, Take) && (w.queue[0].TimerJob? || w.queue[0].ViewJob? || w.queue[0].HandlerJob?)
    ensures Inv(Next(w, Take))
  {
    hide AllOwnersIn, Distinct;
    Dequeued(w);
    assert w.queue[0] in w.queue;
    assert Working(Next(w, Take)) == Working(w);
  }

  lemma EventSafe(w: World, name: string)
    requires RegisteredBy(w.registries, Working(w)) && Working(w) !! w.closed
    ensures Perform(w, EventJob(name)) == w.(log := w.log + OwnersOf(StackOf(w.registries.events, name)))
  {
    var stack := StackOf(w.registries.events, name);
    assert At(w.registries, Event) == w.registries.events;
    assert OwnersIn(stack, Working(w));
    CallAllSafe(w, stack);
  }

  lemma HandlerKeeps(w: World, kind: Kind, name: string)
    requires Inv(w) && Enabled(w, RunHandler(kind, name))
    ensures Inv(Next(w, RunHandler(kind, name)))
  {
    var found := Lookup(w, kind, name);
    if found.Some? {
      var owner := found.value;
      var looked := if w.phase == Loading(owner) then w.(risky := w.risky + {owner}) else w;
      assert Working(looked) == Working(w);
      assert !w.phase.Exited? ==> owner in Working(w) by {
        var stack := StackOf(At(w.registries, kind), name);
        assert stack[|stack| - 1].owner == owner;
      }
      assert Inv(looked);
      SubmitKeeps(looked, HandlerJob(owner));
    }
  }

  lemma RegisterKeeps(w: World, m: Move)
    requires Inv(w) && Enabled(w, m) && (m.Register? || m.OpenView? || m.Every?)
    ensures Inv(Next(w, m))
  {
    var w' := Next(w, m);
    assert Working(w') == Working(w) && m.owner in Working(w);
    if m.Register? { OneAdded(w.registries, m.kind, m.name, Owned(m.owner, m.fn), Working(w)); }
  }

  lemma CommitKeeps(w: World)
    requires Inv(w) && Enabled(w, Commit)
    ensures Inv(Next(w, Commit))
  {
    assert Working(Next(w, Commit)) == Working(w);
  }

  /** Stopping some of the open timers closes each of their channels once. */
  lemma StopsOnce(w: World, ts: set<nat>) returns (w': World)
    requires Stopping(w) && ts <= w.open
    ensures w' == CloseStops(w, ts) && w' == w.(open := w.open - ts, stops := w'.stops)
    ensures w'.open <= w'.timers.Keys && Distinct(w'.stops)
    ensures forall t :: t in w'.stops ==> t in w'.timers && t !in w'.open
    ensures forall t :: t in w'.timers ==> t in w'.open || t in w'.stops
  {
    hide Distinct;
    var listed := Listing(ts);
    w' := CloseStops(w, ts);
    assert forall t :: t in w.stops + listed <==> t in w.stops || t in ts;
    DistinctAppend(w.stops, listed);
  }

  lemma FailKeeps(w: World)
    requires Inv(w) && Enabled(w, Fail)
    ensures Inv(Next(w, Fail))
  {
    hide AllOwnersIn, RolledBack, Distinct, Listing, CloseStops;
    var owner := w.phase.owner;
    var stopped := StopsOnce(w, TimersOf(w, owner));
    var w' := Next(w, Fail);
    assert Working(w') == Working(w) - {owner};
    AllRolledBack(w.registries, owner, Working(w));
  }

  lemma CloseKeeps(w: World)
    requires Inv(w) && Enabled(w, Close)
    ensures Inv(Next(w, Close)) && forall t :: t in w.timers ==> t in Next(w, Close).stops
  {
    hide AllOwnersIn, Distinct, Listing, CloseStops;
    var stopped := StopsOnce(w, w.open);
  }

  lemma SubmitLoadKeeps(w: World, owner: Owner)
    requires Inv(w) && Enabled(w, SubmitLoad(owner))
    ensures Inv(Next(w, SubmitLoad(owner)))
  {
    var w' := Next(w, SubmitLoad(owner));
    assert Working(w') == Working(w);
    assert forall j :: j in w'.queue ==> j in w.queue || j == LoadJob(owner);
    assert forall i :: 0 <= i < |w.queue| ==> w'.queue[i] == w.queue[i] && w.queue[i] in w.queue;
  }

  lemma NextKeepsInv(w: World, m: Move)
    requires Inv(w) && Enabled(w, m)
    ensures Inv(Next(w, m))
  {
    hide Owning, LoadsOnce, Stopping, Calling;
    if m.SubmitLoad? { SubmitLoadKeeps(w, m.owner); }
    else if m.Emit? { SubmitKeeps(w, EventJob(m.name)); }
    else if m.RunHandler? { HandlerKeeps(w, m.kind, m.name); }
    else if m.Tick? { SubmitKeeps(w, TimerJob(w.timers[m.timer])); }
    else if m.Press? { SubmitKeeps(w, ViewJob(w.views[m.view])); }
    else if m.Take? { TakeKeeps(w); }
    else if m.Register? || m.OpenView? || m.Every? { RegisterKeeps(w, m); }
    else if m.Commit? { CommitKeeps(w); }
    else if m.Fail? { FailKeeps(w); }
    else if m.Close? { CloseKeeps(w); }
    else { QuietKeeps(w, m); }
  }

  lemma QuietKeeps(w: World, m: Move)
    requires Inv(w) && Enabled(w, m) && (m.Stop? || m.Exit?)
    ensures Inv(Next(w, m))
  {
    assert Working(Next(w, m)) == Working(w);
  }

  ghost predicate EnabledRun(w: World, moves: seq<Move>)
    decreases |moves|
  {
    moves != [] ==> Enabled(w, moves[0]) && EnabledRun(Next(w, moves[0]), moves[1..])
  }

  ghost function Run(w: World, moves: seq<Move>): World
    requires EnabledRun(w, moves)
    decreases |moves|
  {
    if moves == [] then w else Run(Next(w, moves[0]), moves[1..])
  }

  lemma {:induction false} RunKeepsInv(w: World, moves: seq<Move>)
    requires Inv(w) && EnabledRun(w, moves)
    ensures Inv(Run(w, moves))
    decreases |moves|
  {
    if moves != [] {
      hide Inv, Next, Enabled;
      NextKeepsInv(w, moves[0]);
      RunKeepsInv(Next(w, moves[0]), moves[1..]);
    }
  }

  /** Of all jobs only a handler can call a closed state, and then one looked up while it was loading. */
  lemma OnlyRiskyHandlersCallClosed(w: World)
    requires Inv(w) && Enabled(w, Take)
    ensures if w.queue[0].HandlerJob? then Next(w, Take).called <= w.called + w.risky * {w.queue[0].owner}
            else Next(w, Take).called == w.called
  {
    var left := w.(queue := w.queue[1..]);
    Dequeued(w);
    assert w.queue[0] in w.queue;
    if w.queue[0].EventJob? { QueuedEventSafe(left, w.queue[0].name); }
  }

  /** In every run: no timer, viewport or event job ever calls a closed state, a handler only one it looked
      up while that state was loading, and no stop channel is closed twice; the queue stays
      within its bound. */
  lemma ClosedStatesAreNotCalled(limit: nat, moves: seq<Move>)
    requires EnabledRun(Start(limit), moves)
    ensures var w := Run(Start(limit), moves);
            Enabled(w, Take) ==>
              if w.queue[0].HandlerJob? then Next(w, Take).called <= w.called + w.risky * {w.queue[0].owner}
              else Next(w, Take).called == w.called
    ensures var w := Run(Start(limit), moves);
            w.called <= w.risky && Distinct(w.stops) && |w.queue| <= limit &&
            forall t :: t in w.timers ==> (t in w.open <==> t !in w.stops)
  {
    RunKeepsInv(Start(limit), moves);
    LimitStays(Start(limit), moves);
    var w := Run(Start(limit), moves);
    if Enabled(w, Take) { OnlyRiskyHandlersCallClosed(w); }
  }

  lemma {:induction false} LimitStays(w: World, moves: seq<Move>)
    requires EnabledRun(w, moves)
    ensures Run(w, moves).limit == w.limit
    decreases |moves|
  {
    if moves != [] {
      OneLimit(w, moves[0]);
      hide Next, Enabled;
      LimitStays(Next(w, moves[0]), moves[1..]);
    }
  }

  lemma OneLimit(w: World, m: Move)
    requires Enabled(w, m)
    ensures Next(w, m).limit == w.limit
  {
    if m.Take? && w.queue[0].EventJob? {
      CallsOnly(w.(queue := w.queue[1..]), StackOf(w.registries.events, w.queue[0].name));
    }
  }

  lemma {:induction false} CallsOnly(w: World, subs: seq<Owned<nat>>)
    ensures CallAll(w, subs).limit == w.limit
  {
    if subs != [] { CallsOnly(w, subs[..|subs| - 1]); }
  }

  /** Once closed, every timer there ever was has been stopped. */
  lemma CloseStopsEveryTimer(limit: nat, moves: seq<Move>)
    requires EnabledRun(Start(limit), moves) && Run(Start(limit), moves).phase.Exited?
    ensures var w := Next(Run(Start(limit), moves), Close);
            Distinct(w.stops) && w.live == {} && forall t :: t in w.timers ==> t in w.stops
  {
    RunKeepsInv(Start(limit), moves);
    CloseKeeps(Run(Start(limit), moves));
  }

  // ---- when a handler meets a closed state

  lemma RunStep(w: World, moves: seq<Move>)
    requires moves != [] && Enabled(w, moves[0]) && EnabledRun(Next(w, moves[0]), moves[1..])
    ensures EnabledRun(w, moves) && Run(w, moves) == Run(Next(w, moves[0]), moves[1..])
  {
  }

  /** A state in use stays so until the worker exits, and is not called once closed. */
  ghost predicate InUse(w: World, owner: Owner) {
    owner !in w.called && (owner in w.live || w.phase.Exited?)
  }

  lemma InUseStays(w: World, m: Move, owner: Owner)
    requires Inv(w) && InUse(w, owner) && Enabled(w, m)
    ensures InUse(Next(w, m), owner)
  {
    if m.Take? {
      var left := w.(queue := w.queue[1..]);
      Dequeued(w);
      if w.queue[0].EventJob? { QueuedEventSafe(left, w.queue[0].name); }
    }
  }

  lemma {:induction false} InUseOverRuns(w: World, moves: seq<Move>, owner: Owner)
    requires Inv(w) && InUse(w, owner) && EnabledRun(w, moves)
    ensures InUse(Run(w, moves), owner)
    decreases |moves|
  {
    if moves != [] {
      NextKeepsInv(w, moves[0]);
      InUseStays(w, moves[0], owner);
      hide Inv, Next, Enabled, InUse;
      InUseOverRuns(Next(w, moves[0]), moves[1..], owner);
    }
  }

  lemma {:induction false} CallAllTouches(w: World, subs: seq<Owned<nat>>)
    ensures CallAll(w, subs) == w.(log := CallAll(w, subs).log, called := CallAll(w, subs).called)
    ensures w.called <= CallAll(w, subs).called
  {
    if subs != [] { CallAllTouches(w, subs[..|subs| - 1]); }
  }

  /** Between two jobs: the next one is taken, and a load ended at once. */
  lemma TakeOne(w: World) returns (moves: seq<Move>, w': World)
    requires w.phase.Idle? && w.queue != []
    ensures EnabledRun(w, moves) && Run(w, moves) == w'
    ensures w'.phase.Idle? && w'.queue == w.queue[1..] && w.closed <= w'.closed && w.called <= w'.called
    ensures w.queue[0].HandlerJob? && w.queue[0].owner in w.closed ==> w.queue[0].owner in w'.called
  {
    hide Listing, TimersOf, RolledBackAll;
    var taken := Next(w, Take);
    if w.queue[0].EventJob? {
      CallAllTouches(w.(queue := w.queue[1..]), StackOf(w.registries.events, w.queue[0].name));
    }
    if w.queue[0].LoadJob? {
      moves := [Take, Fail];
      w' := Next(taken, Fail);
      assert moves[1..] == [Fail] && [Fail][1..] == [];
      RunStep(taken, [Fail]);
    } else {
      moves := [Take];
      w' := taken;
      assert moves[1..] == [];
    }
    RunStep(w, moves);
  }

  lemma {:induction false} RunAppend(w: World, a: seq<Move>, b: seq<Move>)
    requires EnabledRun(w, a) && EnabledRun(Run(w, a), b)
    ensures EnabledRun(w, a + b) && Run(w, a + b) == Run(Run(w, a), b)
    decreases |a|
  {
    hide Next, Enabled;
    if a == [] {
      assert a + b == b;
    } else {
      RunAppend(Next(w, a[0]), a[1..], b);
      assert (a + b)[1..] == a[1..] + b;
    }
  }

  /** An idle worker gets to every queued handler. */
  lemma {:induction false} HandlerReached(w: World, owner: Owner) returns (moves: seq<Move>)
    requires w.phase.Idle? && owner in w.closed && HandlerJob(owner) in w.queue
    ensures EnabledRun(w, moves) && owner in Run(w, moves).called
    decreases |w.queue|
  {
    var first, w' := TakeOne(w);
    hide Next, Enabled;
    if w.queue[0] == HandlerJob(owner) {
      moves := first;
    } else {
      var rest := HandlerReached(w', owner);
      RunAppend(w, first, rest);
      moves := first + rest;
    }
  }

  /** A handler that is accepted can come to call a closed state if and only if it was looked
      up while that state was loading. */
  lemma HandlerMayCallClosedIff(w: World, kind: Kind, name: string)
    requires Inv(w) && Enabled(w, RunHandler(kind, name)) && Lookup(w, kind, name).Some?
    requires !w.quit && !w.phase.Exited? && |w.queue| < w.limit
    ensures var owner := Lookup(w, kind, name).value;
            (exists moves :: EnabledRun(Next(w, RunHandler(kind, name)), moves) &&
                             owner in Run(Next(w, RunHandler(kind, name)), moves).called)
            <==> w.phase == Loading(owner)
  {
    var owner := Lookup(w, kind, name).value;
    var w' := Next(w, RunHandler(kind, name));
    HandlerKeeps(w, kind, name);
    LookedUpWorks(w, kind, name);
    if w.phase == Loading(owner) {
      var failed := Next(w', Fail);
      assert w'.queue[|w.queue|] == HandlerJob(owner);
      assert HandlerJob(owner) in failed.queue;
      var moves := HandlerReached(failed, owner);
      assert ([Fail] + moves)[1..] == moves;
      RunStep(w', [Fail] + moves);
    } else {
      assert owner in w.live;
      assert InUse(w', owner);
      forall moves | EnabledRun(w', moves)
        ensures owner !in Run(w', moves).called
      {
        InUseOverRuns(w', moves, owner);
      }
    }
  }

  lemma LookedUpWorks(w: World, kind: Kind, name: string)
    requires Inv(w) && !w.phase.Exited? && Lookup(w, kind, name).Some?
    ensures Lookup(w, kind, name).value in Working(w)
  {
    var stack := StackOf(At(w.registries, kind), name);
    assert OwnersIn(stack, Working(w));
    assert stack[|stack| - 1].owner == Lookup(w, kind, name).value;
  }

  function Registering(): World {
    Start(QUEUE).(phase := Loading(1), begun := {1},
                  registries := Registries(map[], map["x" := [Owned(1, 0)]], map[], map[]))
  }

  lemma StartupRegisters()
    ensures var moves := [SubmitLoad(1), Take, Register(1, Command, "x", 0)];
            EnabledRun(Start(QUEUE), moves) && Run(Start(QUEUE), moves) == Registering()
  {
    var w0 := Start(QUEUE);
    var w1 := w0.(queue := [LoadJob(1)]);
    var w2 := w0.(phase := Loading(1), begun := {1});
    var w3 := Registering();
    assert w1.queue[1..] == [] && StackOf(w2.registries.commands, "x") == [];
    var none: Stacks<string, nat> := map[];
    assert StackOf(none, "x") == [] && [] + [Owned(1, 0)] == [Owned(1, 0)];
    assert Added(none, "x", Owned(1, 0)) == map["x" := [Owned(1, 0)]];
    assert Next(w2, Register(1, Command, "x", 0)) == w3;
    assert Run(w3, []) == w3;
    RunStep(w2, [Register(1, Command, "x", 0)]);
    RunStep(w1, [Take, Register(1, Command, "x", 0)]);
    RunStep(w0, [SubmitLoad(1), Take, Register(1, Command, "x", 0)]);
  }

  /** A command submitted during startup outlives the rollback: it calls a closed state. */
  lemma CommandDuringStartupCallsClosedState() returns (moves: seq<Move>)
    ensures EnabledRun(Start(QUEUE), moves) && 1 in Run(Start(QUEUE), moves).called
  {
    var begin := [SubmitLoad(1), Take, Register(1, Command, "x", 0)];
    StartupRegisters();
    RunKeepsInv(Start(QUEUE), begin);
    var w := Registering();
    assert StackOf(At(w.registries, Command), "x") == [Owned(1, 0)];
    HandlerMayCallClosedIff(w, Command, "x");
    var submitted := Next(w, RunHandler(Command, "x"));
    var rest :| EnabledRun(submitted, rest) && 1 in Run(submitted, rest).called;
    hide Next, Enabled;
    assert Enabled(w, RunHandler(Command, "x")) by { RunHandlerEnabled(w); }
    assert ([RunHandler(Command, "x")] + rest)[1..] == rest;
    RunStep(w, [RunHandler(Command, "x")] + rest);
    RunAppend(Start(QUEUE), begin, [RunHandler(Command, "x")] + rest);
    moves := begin + ([RunHandler(Command, "x")] + rest);
  }

  lemma RunHandlerEnabled(w: World)
    ensures Enabled(w, RunHandler(Command, "x"))
  {
  }

  // ---- a failed startup leaves no trace

  predicate Finishes(m: Move) { m.Commit? || m.Fail? }

  /** The registries are what they were when the load began, but for the loading state's own. */
  ghost predicate Shadowing(was: World, w: World, owner: Owner) {
    w.phase == Loading(owner) && RolledBackAll(w.registries, owner) == was.registries &&
    w.live == was.live && w.open - TimersOf(w, owner) == was.open && w.open <= w.timers.Keys
  }

  lemma StartupStep(was: World, w: World, m: Move, owner: Owner)
    requires Shadowing(was, w, owner) && Enabled(w, m) && !Finishes(m)
    ensures Shadowing(was, Next(w, m), owner)
  {
    if m.Register? { RollbackSkipsOwn(At(w.registries, m.kind), m.name, Owned(owner, m.fn)); }
    if m.Every? {
      var w' := Next(w, m);
      assert TimersOf(w', owner) == TimersOf(w, owner) + {m.timer};
    }
  }

  lemma {:induction false} NothingOfOwner(stack: seq<Owned<nat>>, owner: Owner, owners: set<Owner>)
    requires OwnersIn(stack, owners) && owner !in owners
    ensures Without(stack, owner) == stack
  {
    if stack != [] {
      var n := |stack| - 1;
      assert forall i :: 0 <= i < n ==> stack[..n][i] == stack[i];
      NothingOfOwner(stack[..n], owner, owners);
      assert stack[..n] + [stack[n]] == stack;
    }
  }

  lemma NothingToRollBack(stacks: Stacks<string, nat>, owner: Owner, owners: set<Owner>)
    requires AllOwnersIn(stacks, owners) && owner !in owners
    ensures RolledBack(stacks, owner) == stacks
  {
    forall k | k in stacks
      ensures Without(stacks[k], owner) == stacks[k]
    {
      NothingOfOwner(stacks[k], owner, owners);
    }
  }

  lemma SameRegistries(a: Registries, b: Registries)
    requires forall kind :: At(a, kind) == At(b, kind)
    ensures a == b
  {
    assert At(a, Event) == At(b, Event) && At(a, Command) == At(b, Command);
    assert At(a, Key) == At(b, Key) && At(a, Theme) == At(b, Theme);
  }

  lemma {:induction false} StartupRun(was: World, w: World, moves: seq<Move>, owner: Owner)
    requires Shadowing(was, w, owner) && EnabledRun(w, moves) && forall i :: 0 <= i < |moves| ==> !Finishes(moves[i])
    ensures Shadowing(was, Run(w, moves), owner)
    decreases |moves|
  {
    if moves != [] {
      hide Next, Enabled, Shadowing;
      StartupStep(was, w, moves[0], owner);
      assert forall i :: 0 <= i < |moves| - 1 ==> moves[1..][i] == moves[i + 1];
      StartupRun(was, Next(w, moves[0]), moves[1..], owner);
    }
  }

  lemma NothingRegistered(r: Registries, owner: Owner, owners: set<Owner>)
    requires RegisteredBy(r, owners) && owner !in owners
    ensures RolledBackAll(r, owner) == r
  {
    forall kind
      ensures At(RolledBackAll(r, owner), kind) == At(r, kind)
    {
      NothingToRollBack(At(r, kind), owner, owners);
    }
    SameRegistries(RolledBackAll(r, owner), r);
  }

  lemma StartupBegins(w: World)
    requires Inv(w) && Enabled(w, Take) && w.queue[0].LoadJob?
    ensures Shadowing(w, Next(w, Take), w.queue[0].owner)
  {
    hide RolledBackAll, RegisteredBy, Listing;
    var owner := w.queue[0].owner;
    assert w.queue[0] in w.queue && w.queue[0] == LoadJob(owner) && owner !in w.begun;
    NothingRegistered(w.registries, owner, Working(w));
    assert TimersOf(Next(w, Take), owner) == {};
  }

  lemma StartupFails(was: World, w: World, owner: Owner)
    requires Shadowing(was, w, owner)
    ensures Enabled(w, Fail)
    ensures var failed := Next(w, Fail);
            failed.registries == was.registries && failed.open == was.open && failed.live == was.live &&
            failed.phase.Idle? && owner in failed.closed
  {
    hide RolledBackAll, Listing;
  }

  /** Startup is a transaction: whatever a plugin registers while it loads, and whatever others
      submit meanwhile, its failure leaves every registry, and the timers still running, as they
      were before it began. */
  lemma FailedStartupLeavesNoTrace(w: World, moves: seq<Move>)
    requires Inv(w) && Enabled(w, Take) && w.queue[0].LoadJob?
    requires EnabledRun(Next(w, Take), moves) && forall i :: 0 <= i < |moves| ==> !Finishes(moves[i])
    ensures Enabled(Run(Next(w, Take), moves), Fail)
    ensures var failed := Next(Run(Next(w, Take), moves), Fail);
            failed.registries == w.registries && failed.open == w.open && failed.live == w.live &&
            failed.phase.Idle? && w.queue[0].owner in failed.closed
  {
    StartupBegins(w);
    var begun := Next(w, Take);
    hide Next, Enabled, Shadowing, Inv;
    StartupRun(w, begun, moves, w.queue[0].owner);
    StartupFails(w, Run(begun, moves), w.queue[0].owner);
  }

  // ---- whom a job calls

  /** A timer or viewport calls its state as long as that is live, an event everyone registered for it, in the
      order of registration, and a handler the state it was looked up for; a load calls nobody. */
  function Callees(w: World, job: Job): seq<Owner> {
    match job
    case LoadJob(_) => []
    case TimerJob(owner) => if owner in w.live then [owner] else []
    case ViewJob(owner) => if owner in w.live then [owner] else []
    case EventJob(name) => OwnersOf(StackOf(w.registries.events, name))
    case HandlerJob(owner) => [owner]
  }

  /** Only the worker calls, when it takes a job, and then exactly those. */
  lemma CallsAreExactly(w: World, m: Move)
    requires Inv(w) && Enabled(w, m)
    ensures Next(w, m).log == if m.Take? then w.log + Callees(w, w.queue[0]) else w.log
  {
    hide AllOwnersIn, Distinct, Listing, RolledBackAll, TimersOf;
    if m.Take? {
      var left := w.(queue := w.queue[1..]);
      Dequeued(w);
      if w.queue[0].EventJob? { QueuedEventSafe(left, w.queue[0].name); }
      assert w.log + [] == w.log;
    }
  }

  /** A registration is what its name is looked up as next, and is called last for its event; it changes no
      other name and no other registry. */
  lemma RegisteredIsFound(w: World, owner: Owner, kind: Kind, name: string, fn: nat)
    requires Enabled(w, Register(owner, kind, name, fn))
    ensures var w' := Next(w, Register(owner, kind, name, fn));
            Lookup(w', kind, name) == Some(owner) &&
            (forall k, n :: k != kind || n != name ==>
               StackOf(At(w'.registries, k), n) == StackOf(At(w.registries, k), n)) &&
            (kind.Event? ==> Callees(w', EventJob(name)) == Callees(w, EventJob(name)) + [owner])
  {
    var w' := Next(w, Register(owner, kind, name, fn));
    forall k
      ensures At(w'.registries, k) ==
        if k == kind then Added(At(w.registries, k), name, Owned(owner, fn)) else At(w.registries, k)
    {
    }
    if kind.Event? {
      var was, now := StackOf(w.registries.events, name), StackOf(w'.registries.events, name);
      assert At(w.registries, Event) == w.registries.events && At(w'.registries, Event) == w'.registries.events;
      assert now == was + [Owned(owner, fn)];
      assert OwnersOf(now) == OwnersOf(was) + [owner];
    }
  }
}
