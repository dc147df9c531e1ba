/** internal/app/app_directory.go: loading the guild and direct-message directory while the
    gateway changes it, with bounded retries. */
module DirectoryLoad {
  import opened Directory
  import DirectoryRuns
  import opened LoadGate
  import opened DirectoryStore

  const DIRECT_MESSAGES: nat := 0xffff_ffff_ffff_ffff
  const MAX_RETRIES := 3

  /** What a request remembers: the store's generations, the gate's version, and how often it
      was retried. */
  datatype Request = Request(snapshot: Dir, version: nat, attempt: nat)

  /** What the two endpoints returned; a failed one returns nothing. */
  datatype Page = Page(guilds: seq<nat>, channels: seq<Channel>, failed: bool)

  function UpsertGuilds(d: Dir, guilds: seq<nat>): Dir {
    if guilds == [] then d else UpsertGuild(UpsertGuilds(d, guilds[..|guilds| - 1]), guilds[|guilds| - 1])
  }

  function UpsertPrivate(d: Dir, channels: seq<Channel>): Dir {
    if channels == [] then d
    else UpsertChannel(UpsertPrivate(d, channels[..|channels| - 1]),
      channels[|channels| - 1].(guild := DIRECT_MESSAGES))
  }

  function Ingest(d: Dir, page: Page): Dir {
    var seen := UpsertGuilds(d, page.guilds);
    if page.channels == [] then seen else UpsertPrivate(UpsertGuild(seen, DIRECT_MESSAGES), page.channels)
  }

  // ---- one completion

  datatype Outcome = Ingested | Retried | GaveUp | Superseded | Settled

  predicate UpToDate(d: Dir, gate: Gate, r: Request) {
    gate.version == r.version && DirectoryRuns.SnapshotCurrent(r.snapshot, d)
  }

  function OutcomeOf(d: Dir, gate: Gate, r: Request): Outcome {
    if UpToDate(d, gate, r) then Ingested
    else if gate.version != r.version then Superseded
    else if r.attempt >= MAX_RETRIES then GaveUp
    else if gate.loaded then Settled
    else Retried
  }

  function GateAfter(d: Dir, gate: Gate, r: Request, page: Page): Gate {
    match OutcomeOf(d, gate, r)
    case Ingested => Finish(gate, gate.version, !page.failed).0
    case Superseded => gate
    case GaveUp => Finish(gate, gate.version, false).0
    case Settled => Finish(gate, gate.version, false).0
    case Retried => Begin(Finish(gate, gate.version, false).0).0
  }

  function DirAfter(d: Dir, gate: Gate, r: Request, page: Page): Dir {
    if UpToDate(d, gate, r) then Ingest(d, page) else d
  }

  class SingleGate {
    var loaded: bool
    var pending: bool
    var version: nat

    function View(): Gate
      reads this
    {
      Gate(loaded, pending, false, version)
    }

    constructor ()
      ensures View() == IDLE
    {
      loaded, pending, version := false, false, 0;
    }

    method BeginVersion() returns (v: nat, ok: bool)
      modifies this
      ensures (View(), ok) == Begin(old(View())) && v == version
    {
      if loaded || pending { return version, false; }
      pending := true;
      v, ok := version, true;
    }

    method FinishVersion(v: nat, success: bool) returns (current: bool)
      modifies this
      ensures (View(), current) == LoadGate.Finish(old(View()), v, success)
    {
      if version != v { return false; }
      pending := false;
      if success { loaded := true; }
      current := true;
    }

    method Invalidate()
      modifies this
      ensures View() == LoadGate.Invalidate(old(View()))
    {
      version := version + 1;
      loaded := false;
      pending := false;
    }
  }

  class GuildLoader {
    const store: ChannelStore
    const gate: SingleGate

    constructor (store: ChannelStore, gate: SingleGate)
      ensures this.store == store && this.gate == gate
    {
      this.store, this.gate := store, gate;
    }

    method LoadGuilds() returns (issued: bool, r: Request)
      modifies gate
      ensures (gate.View(), issued) == Begin(old(gate.View()))
      ensures r == Request(store.View(), gate.version, 0)
    {
      var version;
      version, issued := gate.BeginVersion();
      r := Request(store.View(), version, 0);
    }

    /** On the UI goroutine, once both endpoints returned. */
    method CompleteLoad(r: Request, page: Page) returns (outcome: Outcome, next: Request)
      modifies gate, store
      ensures outcome == OutcomeOf(old(store.View()), old(gate.View()), r)
      ensures gate.View() == GateAfter(old(store.View()), old(gate.View()), r, page)
      ensures store.View() == DirAfter(old(store.View()), old(gate.View()), r, page)
      ensures outcome.Retried? ==> next == Request(store.View(), gate.version, r.attempt + 1)
    {
      next := r;
      if !UpToDate(store.View(), gate.View(), r) {
        var current := gate.FinishVersion(r.version, false);
        if !current { return Superseded, r; }
        if r.attempt >= MAX_RETRIES {
          var _ := gate.FinishVersion(gate.version, false);
          return GaveUp, r;
        }
        var version, ok := gate.BeginVersion();
        if !ok { return Settled, r; }
        return Retried, Request(store.View(), version, r.attempt + 1);
      }
      IngestPage(page);
      var _ := gate.FinishVersion(gate.version, !page.failed);
      outcome := Ingested;
    }

    method IngestPage(page: Page)
      modifies store
      ensures store.View() == Ingest(old(store.View()), page)
    {
      for i := 0 to |page.guilds|
        invariant store.View() == UpsertGuilds(old(store.View()), page.guilds[..i])
      {
        assert page.guilds[..i + 1][..i] == page.guilds[..i];
        store.UpsertGuild(page.guilds[i]);
      }
      assert page.guilds[..|page.guilds|] == page.guilds;
      if |page.channels| > 0 {
        store.UpsertGuild(DIRECT_MESSAGES);
        ghost var before := store.View();
        for i := 0 to |page.channels|
          invariant store.View() == UpsertPrivate(before, page.channels[..i])
        {
          assert page.channels[..i + 1][..i] == page.channels[..i];
          store.UpsertChannel(page.channels[i].(guild := DIRECT_MESSAGES));
        }
        assert page.channels[..|page.channels|] == page.channels;
      }
    }
  }

  // ---- runs

  datatype World = World(dir: Dir, gate: Gate, flying: map<nat, Request>)

  const START := World(EMPTY, IDLE, map[])

  datatype Move =
    | Load(ticket: nat)
    | Change(op: DirectoryRuns.Op)
    | Complete(ticket: nat, page: Page, next: nat)

  /** Gateway handlers reset the gate when they delete, and only then. */
  ghost predicate Deletes(d: Dir, op: DirectoryRuns.Op) {
    match op
    case DeleteChannel(_) => true
    case DeleteGuild(_) => true
    case SyncActive(guild, scope, incoming) => SyncThreads(d, guild, scope, incoming).1 != []
    case _ => false
  }

  ghost predicate Enabled(w: World, m: Move) {
    match m
    case Load(t) => t !in w.flying
    case Change(_) => true
    case Complete(t, _, next) => t in w.flying && next !in w.flying
  }

  ghost function Next(w: World, m: Move): World
    requires Enabled(w, m)
  {
    match m
    case Load(t) =>
      var (g, issued) := Begin(w.gate);
      w.(gate := g, flying := if issued then w.flying[t := Request(w.dir, w.gate.version, 0)] else w.flying)
    case Change(op) =>
      w.(dir := DirectoryRuns.Step(w.dir, op), gate := if Deletes(w.dir, op) then Invalidate(w.gate) else w.gate)
    case Complete(t, page, next) =>
      var r := w.flying[t];
      var left := w.flying - {t};
      World(DirAfter(w.dir, w.gate, r, page), GateAfter(w.dir, w.gate, r, page),
            if OutcomeOf(w.dir, w.gate, r).Retried?
            then left[next := Request(w.dir, w.gate.version, r.attempt + 1)] else left)
  }

  ghost predicate Current(w: World, t: nat) { t in w.flying && w.flying[t].version == w.gate.version }

  /** A load is pending exactly while one request in flight carries the current version, and
      never once the directory is loaded; no request was retried too often. */
  ghost predicate Inv(w: World) {
    && (forall t :: t in w.flying ==> w.flying[t].version <= w.gate.version && w.flying[t].attempt <= MAX_RETRIES)
    && (forall t, u :: Current(w, t) && Current(w, u) ==> t == u)
    && (w.gate.pending <==> exists t :: Current(w, t))
    && (w.gate.loaded ==> !w.gate.pending)
  }

  lemma NextKeepsInv(w: World, m: Move)
    requires Inv(w) && Enabled(w, m)
    ensures Inv(Next(w, m))
  {
    hide DirectoryRuns.Step, Ingest, DirectoryRuns.SnapshotCurrent;
    var w' := Next(w, m);
    match m {
      case Load(t) =>
        if Begin(w.gate).1 { assert Current(w', t); }
        assert forall u :: u != t ==> (Current(w', u) <==> Current(w, u));
      case Change(op) =>
        if Deletes(w.dir, op) {
          assert forall u :: !Current(w', u);
        } else {
          assert forall u :: Current(w', u) <==> Current(w, u);
        }
      case Complete(t, page, next) =>
        CompleteKeepsInv(w, t, page, next);
    }
  }

  lemma CompleteKeepsInv(w: World, t: nat, page: Page, next: nat)
    requires Inv(w) && Enabled(w, Complete(t, page, next))
    ensures Inv(Next(w, Complete(t, page, next)))
  {
    hide Ingest, DirectoryRuns.SnapshotCurrent;
    var w' := Next(w, Complete(t, page, next));
    assert w'.gate.version == w.gate.version;
    assert forall u :: u != t && u != next ==> (Current(w', u) <==> Current(w, u));
    if OutcomeOf(w.dir, w.gate, w.flying[t]).Retried? {
      assert Current(w, t) && Current(w', next) && w'.gate == w.gate;
      assert forall u :: Current(w', u) ==> u == next;
      assert w'.flying[next].attempt <= MAX_RETRIES;
    } else if Current(w, t) {
      assert forall u :: !Current(w', u);
    } else {
      assert forall u :: Current(w', u) <==> Current(w, u);
    }
  }

  ghost predicate EnabledRun(w: World, moves: seq<Move>)
    decreases |moves|
  {
    moves != [] ==> Enabled(w, moves[0]) && EnabledRun(Next(w, moves[0]), moves[1..])
  }

  ghost function Run(w: World, moves: seq<Move>): World
    requires EnabledRun(w, moves)
    decreases |moves|
  {
    if moves == [] then w else Run(Next(w, moves[0]), moves[1..])
  }

  lemma {:induction false} RunKeepsInv(w: World, moves: seq<Move>)
    requires Inv(w) && EnabledRun(w, moves)
    ensures Inv(Run(w, moves))
    decreases |moves|
  {
    if moves != [] {
      hide Inv, Next, Enabled;
      NextKeepsInv(w, moves[0]);
      RunKeepsInv(Next(w, moves[0]), moves[1..]);
    }
  }

  /** Over every run: one current request at most, which is what being pending means, and no
      request is issued after its third retry. */
  lemma LoadsAreExclusiveAndBounded(moves: seq<Move>, t: nat, u: nat)
    requires EnabledRun(START, moves)
    ensures var w := Run(START, moves);
            (Current(w, t) && Current(w, u) ==> t == u) &&
            (w.gate.pending <==> exists v :: Current(w, v)) &&
            (t in w.flying ==> w.flying[t].attempt <= MAX_RETRIES)
  {
    assert forall v :: !Current(START, v);
    RunKeepsInv(START, moves);
  }

  // ---- what happens to a load while the directory changes

  ghost predicate SomeDeletion(d: Dir, ops: seq<DirectoryRuns.Op>) {
    exists k :: 0 <= k < |ops| && Deletes(DirectoryRuns.Run(d, ops[..k]), ops[k])
  }

  /** Gateway changes only: the store follows them, and the version moves exactly on a deletion. */
  ghost function Changed(w: World, ops: seq<DirectoryRuns.Op>): World {
    if ops == [] then w
    else
      var before := Changed(w, ops[..|ops| - 1]);
      Next(before, Change(ops[|ops| - 1]))
  }

  lemma {:induction false} ChangedIs(w: World, ops: seq<DirectoryRuns.Op>)
    ensures var w' := Changed(w, ops);
            w'.dir == DirectoryRuns.Run(w.dir, ops) && w'.flying == w.flying && w'.gate.version >= w.gate.version &&
            (w'.gate.version == w.gate.version <==> !SomeDeletion(w.dir, ops)) &&
            (!SomeDeletion(w.dir, ops) ==> w'.gate == w.gate) &&
            (SomeDeletion(w.dir, ops) ==> !w'.gate.pending && !w'.gate.loaded)
  {
    hide DirectoryRuns.Step;
    if ops != [] {
      var n := |ops| - 1;
      ChangedIs(w, ops[..n]);
      DeletedBefore(w.dir, ops);
      hide SomeDeletion, Deletes;
    }
  }

  lemma DeletedBefore(d: Dir, ops: seq<DirectoryRuns.Op>)
    requires ops != []
    ensures var init := ops[..|ops| - 1];
            SomeDeletion(d, ops) <==> SomeDeletion(d, init) || Deletes(DirectoryRuns.Run(d, init), ops[|ops| - 1])
  {
    hide DirectoryRuns.Run, Deletes;
    var n := |ops| - 1;
    var init := ops[..n];
    assert forall k :: 0 <= k < n ==> init[..k] == ops[..k] && init[k] == ops[k];
    if SomeDeletion(d, init) {
      var k :| 0 <= k < n && Deletes(DirectoryRuns.Run(d, init[..k]), init[k]);
      assert Deletes(DirectoryRuns.Run(d, ops[..k]), ops[k]);
    }
    assert ops[..n] == init;
  }

  /** A request issued in `w` and completed after changes `ops`: it is ingested exactly when no
      lifetime changed, retried exactly when one did without any deletion and retries are left,
      and dropped exactly when something was deleted. */
  lemma OutcomeIff(w: World, t: nat, ops: seq<DirectoryRuns.Op>)
    requires Inv(w) && Current(w, t) && w.flying[t].snapshot == w.dir
    ensures var w' := Changed(w, ops);
            var outcome := OutcomeOf(w'.dir, w'.gate, w.flying[t]);
            (outcome.Ingested? <==> !DirectoryRuns.SomeLifetimeChanged(w.dir, ops)) &&
            (outcome.Superseded? <==> SomeDeletion(w.dir, ops)) &&
            (outcome.Retried? <==>
               DirectoryRuns.SomeLifetimeChanged(w.dir, ops) && !SomeDeletion(w.dir, ops) &&
                 w.flying[t].attempt < MAX_RETRIES)
  {
    ChangedIs(w, ops);
    DirectoryRuns.SnapshotCurrentIff(w.dir, ops);
    DeletionsChangeLifetimes(w.dir, ops);
    hide DirectoryRuns.SomeLifetimeChanged, SomeDeletion, DirectoryRuns.SnapshotCurrent, Changed, DirectoryRuns.Run;
  }

  lemma DeletionsChangeLifetimes(d: Dir, ops: seq<DirectoryRuns.Op>)
    ensures SomeDeletion(d, ops) ==> DirectoryRuns.SomeLifetimeChanged(d, ops)
  {
    hide DirectoryRuns.Run;
    if SomeDeletion(d, ops) {
      var k :| 0 <= k < |ops| && Deletes(DirectoryRuns.Run(d, ops[..k]), ops[k]);
      assert DirectoryRuns.ChangesLifetimes(DirectoryRuns.Run(d, ops[..k]), ops[k]);
    }
  }

  /** A deletion while the only request is out leaves the directory unloaded with nothing under
      way once that request completes: no retry follows, and the page is not used. */
  lemma DeletionStrandsTheLoad(w: World, t: nat, ops: seq<DirectoryRuns.Op>, page: Page, next: nat)
    requires Inv(w) && Current(w, t) && next !in w.flying && SomeDeletion(w.dir, ops)
    ensures t in Changed(w, ops).flying && next !in Changed(w, ops).flying
    ensures var w' := Next(Changed(w, ops), Complete(t, page, next));
            w'.dir == DirectoryRuns.Run(w.dir, ops) && !w'.gate.loaded && !w'.gate.pending &&
              forall u :: !Current(w', u)
  {
    ChangedIs(w, ops);
    hide DirectoryRuns.Run, SomeDeletion, Changed, DirectoryRuns.SnapshotCurrent;
  }
}
