/** Every run of directory changes: the order of channels, the aggregates, and what comparing
    generations tells. */
module DirectoryRuns {
  import opened Collections
  import opened Directory

  datatype Op =
    | SeeGuild(guild: nat)
    | SeeChannel(channel: Channel)
    | DeleteChannel(id: nat)
    | DeleteGuild(guild: nat)
    | SyncActive(guild: nat, scope: Scope, incoming: seq<Channel>)
    | Ping(id: nat)
    | Read(id: nat)

  ghost function Step(d: Dir, op: Op): Dir {
    match op
    case SeeGuild(guild) => UpsertGuild(d, guild)
    case SeeChannel(c) => UpsertChannel(d, c)
    case DeleteChannel(id) => RemoveChannel(d, id)
    case DeleteGuild(guild) => RemoveGuild(d, guild)
    case SyncActive(guild, scope, incoming) => SyncThreads(d, guild, scope, incoming).0
    case Ping(id) => IncrementPing(d, id)
    case Read(id) => ClearPing(d, id)
  }

  ghost function Run(d: Dir, ops: seq<Op>): Dir {
    if ops == [] then d else Step(Run(d, ops[..|ops| - 1]), ops[|ops| - 1])
  }

  // ---- order

  lemma RemoveChannelOrdered(d: Dir, id: nat)
    requires Ordered(d)
    ensures Ordered(RemoveChannel(d, id))
  {
    var l := Listing(ThreadsOf(d, id));
    RemoveAllOrdered(d, l);
    SelfOrdered(RemoveAll(d, l), id);
  }

  lemma SelfOrdered(d: Dir, id: nat)
    requires Ordered(d)
    ensures Ordered(RemoveSelf(d, id))
  {
    if id in d.channels {
      RemoveOneOrdered(d, id);
    } else {
      var d' := RemoveSelf(d, id);
      assert forall g :: OrderOf(d', g) == OrderOf(d, g);
    }
  }

  lemma {:induction false} DropStaleOrdered(d: Dir, ids: seq<nat>, scope: Scope, present: set<nat>)
    requires Ordered(d)
    ensures Ordered(DropStale(d, ids, scope, present).0)
  {
    if ids != [] {
      hide Ordered, RemoveChannel;
      var n := |ids| - 1;
      DropStaleOrdered(d, ids[..n], scope, present);
      RemoveChannelOrdered(DropStale(d, ids[..n], scope, present).0, ids[n]);
    }
  }

  lemma {:induction false} UpsertThreadsOrdered(d: Dir, incoming: seq<Channel>)
    requires Ordered(d)
    ensures Ordered(UpsertThreads(d, incoming))
  {
    if incoming != [] {
      hide Ordered, UpsertChannel;
      var n := |incoming| - 1;
      var c := incoming[n];
      UpsertThreadsOrdered(d, incoming[..n]);
      UpsertOrdered(UpsertThreads(d, incoming[..n]),
        c.(thread := if c.thread.NoMeta? then Meta(false) else c.thread, kind := Thread));
    }
  }

  lemma StepKeepsOrder(d: Dir, op: Op)
    requires Ordered(d)
    ensures Ordered(Step(d, op))
  {
    match op {
      case SeeChannel(c) => UpsertOrdered(d, c);
      case DeleteChannel(id) => RemoveChannelOrdered(d, id);
      case DeleteGuild(guild) => GuildOrdered(d, guild);
      case SyncActive(guild, scope, incoming) =>
        hide Ordered, DropStale, UpsertThreads;
        var present := set c | c in incoming :: c.id;
        DropStaleOrdered(d, OrderOf(d, guild), scope, present);
        UpsertThreadsOrdered(DropStale(d, OrderOf(d, guild), scope, present).0, incoming);
      case SeeGuild(guild) => SameOrder(d, UpsertGuild(d, guild));
      case Ping(id) => SameOrder(d, IncrementPing(d, id));
      case Read(id) => SameOrder(d, ClearPing(d, id));
    }
  }

  lemma SameOrder(d: Dir, d': Dir)
    requires Ordered(d) && d'.order == d.order && d'.channels == d.channels
    ensures Ordered(d')
  {
    assert forall g :: OrderOf(d', g) == OrderOf(d, g);
  }

  /** In every reachable store each guild's order lists exactly its channels, each once. */
  lemma {:induction false} RunKeepsOrder(ops: seq<Op>)
    ensures Ordered(Run(EMPTY, ops))
  {
    if ops != [] {
      RunKeepsOrder(ops[..|ops| - 1]);
      StepKeepsOrder(Run(EMPTY, ops[..|ops| - 1]), ops[|ops| - 1]);
    }
  }

  // ---- aggregates

  /** The upsert does not bring a counted channel into a guild. */
  predicate BringsNoCount(d: Dir, c: Channel) {
    (c.id in d.channels && d.channels[c.id].guild == c.guild) || Pings(d, c.id) == 0
  }

  ghost predicate BringNoCounts(d: Dir, incoming: seq<Channel>) {
    forall k :: 0 <= k < |incoming| ==> BringsNoCount(UpsertThreads(d, incoming[..k]), incoming[k])
  }

  ghost predicate Guarded(d: Dir, op: Op) {
    match op
    case SeeChannel(c) => BringsNoCount(d, c)
    case SyncActive(guild, scope, incoming) =>
      BringNoCounts(DropStale(d, OrderOf(d, guild), scope, set c | c in incoming :: c.id).0, incoming)
    case _ => true
  }

  ghost predicate GuardedRun(d: Dir, ops: seq<Op>) {
    forall k :: 0 <= k < |ops| ==> Guarded(Run(d, ops[..k]), ops[k])
  }

  lemma RemoveChannelAgrees(d: Dir, id: nat)
    requires Ordered(d) && Agrees(d)
    ensures Agrees(RemoveChannel(d, id))
  {
    var l := Listing(ThreadsOf(d, id));
    RemoveAllOrdered(d, l);
    RemoveAllAgrees(d, l);
    var e := RemoveAll(d, l);
    if id in e.channels {
      RemoveOneAgrees(e, id);
    } else {
      ClearAgrees(e, id);
      SameSums(ClearPing(e, id), RemoveSelf(e, id));
    }
  }

  lemma SameSums(d: Dir, d': Dir)
    requires Agrees(d) && d'.order == d.order && d'.pings == d.pings && d'.guildPings == d.guildPings
    ensures Agrees(d')
  {
    assert forall g :: OrderOf(d', g) == OrderOf(d, g) && GuildPings(d', g) == GuildPings(d, g);
  }

  lemma {:induction false} DropStaleAgrees(d: Dir, ids: seq<nat>, scope: Scope, present: set<nat>)
    requires Ordered(d) && Agrees(d)
    ensures Agrees(DropStale(d, ids, scope, present).0)
  {
    if ids != [] {
      hide Ordered, Agrees, RemoveChannel;
      var n := |ids| - 1;
      DropStaleOrdered(d, ids[..n], scope, present);
      DropStaleAgrees(d, ids[..n], scope, present);
      RemoveChannelAgrees(DropStale(d, ids[..n], scope, present).0, ids[n]);
    }
  }

  lemma {:induction false} UpsertThreadsAgrees(d: Dir, incoming: seq<Channel>)
    requires Ordered(d) && Agrees(d) && BringNoCounts(d, incoming)
    ensures Agrees(UpsertThreads(d, incoming))
  {
    if incoming != [] {
      var n := |incoming| - 1;
      var init, c := incoming[..n], incoming[n];
      assert forall k :: 0 <= k < n ==> init[..k] == incoming[..k];
      assert BringsNoCount(UpsertThreads(d, incoming[..n]), incoming[n]);
      assert BringNoCounts(d, init);
      hide Ordered, Agrees, UpsertChannel;
      UpsertThreadsOrdered(d, init);
      UpsertThreadsAgrees(d, init);
      UpsertAgreesIff(UpsertThreads(d, init),
        c.(thread := if c.thread.NoMeta? then Meta(false) else c.thread, kind := Thread));
    }
  }

  lemma StepKeepsAggregates(d: Dir, op: Op)
    requires Ordered(d) && Agrees(d) && Guarded(d, op)
    ensures Agrees(Step(d, op))
  {
    match op {
      case SeeChannel(c) => UpsertAgreesIff(d, c);
      case DeleteChannel(id) => RemoveChannelAgrees(d, id);
      case DeleteGuild(guild) => GuildAgrees(d, guild);
      case SyncActive(guild, scope, incoming) =>
        hide Ordered, Agrees, DropStale, UpsertThreads;
        var present := set c | c in incoming :: c.id;
        var ids := OrderOf(d, guild);
        DropStaleOrdered(d, ids, scope, present);
        DropStaleAgrees(d, ids, scope, present);
        UpsertThreadsAgrees(DropStale(d, ids, scope, present).0, incoming);
      case SeeGuild(guild) => SameSums(d, UpsertGuild(d, guild));
      case Ping(id) => IncrementAgrees(d, id);
      case Read(id) => ClearAgrees(d, id);
    }
  }

  /** In every run that never brings an already counted channel into a guild, each guild's count
      is the sum over its channels, whether counts came before or after hydration elsewhere. */
  lemma {:induction false} GuardedRunsAgree(ops: seq<Op>)
    requires GuardedRun(EMPTY, ops)
    ensures Agrees(Run(EMPTY, ops))
  {
    if ops != [] {
      var n := |ops| - 1;
      assert forall k :: 0 <= k < n ==> ops[..n][..k] == ops[..k] && ops[..n][k] == ops[k];
      assert Guarded(Run(EMPTY, ops[..n]), ops[n]);
      assert GuardedRun(EMPTY, ops[..n]);
      hide Agrees, Ordered, Step, Guarded;
      GuardedRunsAgree(ops[..n]);
      RunKeepsOrder(ops[..n]);
      StepKeepsAggregates(Run(EMPTY, ops[..n]), ops[n]);
    }
  }

  /** Every count is the sum at first and after each thread taken in. */
  ghost predicate AgreesThrough(d: Dir, incoming: seq<Channel>) {
    forall k :: 0 <= k <= |incoming| ==> Agrees(UpsertThreads(d, incoming[..k]))
  }

  lemma ThroughSnoc(d: Dir, init: seq<Channel>, c: Channel)
    ensures AgreesThrough(d, init + [c]) <==> AgreesThrough(d, init) && Agrees(UpsertThreads(d, init + [c]))
    ensures BringNoCounts(d, init + [c]) <==> BringNoCounts(d, init) && BringsNoCount(UpsertThreads(d, init), c)
  {
    hide Agrees, UpsertThreads, BringsNoCount;
    var more := init + [c];
    assert more[..|more|] == more && more[..|init|] == init && more[|init|] == c;
    assert forall k :: 0 <= k <= |init| ==> more[..k] == init[..k];
  }

  /** One thread after another: all intermediate counts agree exactly when none brings a count. */
  lemma {:induction false} UpsertThreadsAgreeIff(d: Dir, incoming: seq<Channel>)
    requires Ordered(d) && Agrees(d)
    ensures AgreesThrough(d, incoming) <==> BringNoCounts(d, incoming)
  {
    if incoming == [] {
      assert incoming[..0] == [];
    } else {
      var n := |incoming| - 1;
      var init, c := incoming[..n], incoming[n];
      var thread := c.(thread := if c.thread.NoMeta? then Meta(false) else c.thread, kind := Thread);
      assert incoming == init + [c];
      assert UpsertThreads(d, incoming) == UpsertChannel(UpsertThreads(d, init), thread);
      UpsertThreadsAgreeIff(d, init);
      UpsertThreadsOrdered(d, init);
      ThroughSnoc(d, init, c);
      if AgreesThrough(d, init) {
        assert init[..n] == init;
        assert Agrees(UpsertThreads(d, init));
        hide Ordered, Agrees, UpsertChannel, UpsertThreads, AgreesThrough, BringNoCounts;
        UpsertAgreesIff(UpsertThreads(d, init), thread);
      }
    }
  }

  /** After the operation, and after each thread it takes in, every count is the sum. */
  ghost predicate AgreesAfter(d: Dir, op: Op) {
    match op
    case SyncActive(guild, scope, incoming) =>
      AgreesThrough(DropStale(d, OrderOf(d, guild), scope, set c | c in incoming :: c.id).0, incoming)
    case _ => Agrees(Step(d, op))
  }

  lemma StepAgreesIff(d: Dir, op: Op)
    requires Ordered(d) && Agrees(d)
    ensures AgreesAfter(d, op) <==> Guarded(d, op)
  {
    if op.SeeChannel? {
      UpsertAgreesIff(d, op.channel);
    } else if op.SyncActive? {
      var present := set c | c in op.incoming :: c.id;
      var ids := OrderOf(d, op.guild);
      hide Ordered, Agrees, DropStale, UpsertThreads, AgreesThrough, BringNoCounts;
      DropStaleOrdered(d, ids, op.scope, present);
      DropStaleAgrees(d, ids, op.scope, present);
      UpsertThreadsAgreeIff(DropStale(d, ids, op.scope, present).0, op.incoming);
    } else {
      StepKeepsAggregates(d, op);
    }
  }

  ghost predicate AlwaysAgrees(d: Dir, ops: seq<Op>) {
    forall k :: 0 <= k < |ops| ==> AgreesAfter(Run(d, ops[..k]), ops[k])
  }

  lemma RunSnoc(ops: seq<Op>)
    requires ops != []
    ensures var init, op := ops[..|ops| - 1], ops[|ops| - 1];
            (AlwaysAgrees(EMPTY, ops) <==> AlwaysAgrees(EMPTY, init) && AgreesAfter(Run(EMPTY, init), op)) &&
            (GuardedRun(EMPTY, ops) <==> GuardedRun(EMPTY, init) && Guarded(Run(EMPTY, init), op))
  {
    hide Run, AgreesAfter, Guarded;
    var n := |ops| - 1;
    var init := ops[..n];
    assert forall k :: 0 <= k < n ==> init[..k] == ops[..k] && init[k] == ops[k];
  }

  /** The counts agree at every moment of a run exactly when no upsert of it brings a counted
      channel into a guild. */
  lemma {:induction false} AlwaysAgreesIff(ops: seq<Op>)
    ensures AlwaysAgrees(EMPTY, ops) <==> GuardedRun(EMPTY, ops)
  {
    if ops != [] {
      var n := |ops| - 1;
      var init := ops[..n];
      hide Ordered, Run, Guarded, AgreesAfter, Agrees, AlwaysAgrees, GuardedRun;
      AlwaysAgreesIff(init);
      RunKeepsOrder(init);
      RunSnoc(ops);
      if GuardedRun(EMPTY, init) {
        GuardedRunsAgree(init);
        StepAgreesIff(Run(EMPTY, init), ops[n]);
      }
    } else {
      assert AlwaysAgrees(EMPTY, ops) && GuardedRun(EMPTY, ops);
    }
  }

  /** A mention before its channel is known is never part of the guild's count. */
  lemma EarlyPingIsLost(c: Channel)
    ensures var d := Run(EMPTY, [Ping(c.id), SeeChannel(c)]);
            Pings(d, c.id) == 1 && OrderOf(d, c.guild) == [c.id] && GuildPings(d, c.guild) == 0
  {
    var ops := [Ping(c.id), SeeChannel(c)];
    var one := [Ping(c.id)];
    assert ops[..|ops| - 1] == one && one[..|one| - 1] == [];
    assert Run(EMPTY, one[..|one| - 1]) == EMPTY;
    var d1 := Run(EMPTY, one);
    assert d1 == Step(EMPTY, Ping(c.id));
    assert Run(EMPTY, ops) == UpsertChannel(d1, c);
  }

  // ---- generations

  ghost predicate NoLess(m: map<nat, nat>, m': map<nat, nat>) {
    m.Keys <= m'.Keys && forall k :: Get(m, k, 0) <= Get(m', k, 0)
  }

  ghost predicate NoOlder(d: Dir, d': Dir) {
    NoLess(d.guildGeneration, d'.guildGeneration) && NoLess(d.channelGeneration, d'.channelGeneration)
  }

  ghost predicate SameAge(d: Dir, d': Dir) {
    d.guildGeneration == d'.guildGeneration && d.channelGeneration == d'.channelGeneration
  }

  /** As the directory loader compares them: as many entries, and each the one remembered. */
  predicate Matches(snapshot: map<nat, nat>, now: map<nat, nat>) {
    |now| == |snapshot| && forall id :: id in now ==> Get(snapshot, id, 0) == now[id]
  }

  predicate SnapshotCurrent(snapshot: Dir, now: Dir) {
    Matches(snapshot.guildGeneration, now.guildGeneration) && Matches(snapshot.channelGeneration, now.channelGeneration)
  }

  /** The step creates or deletes a guild or a channel, or deletes one that is not known. */
  ghost predicate ChangesLifetimes(d: Dir, op: Op) {
    match op
    case SeeGuild(guild) => guild !in d.guilds
    case SeeChannel(c) => c.id !in d.channels
    case DeleteChannel(_) => true
    case DeleteGuild(_) => true
    case SyncActive(guild, scope, incoming) =>
      SyncThreads(d, guild, scope, incoming).1 != [] || exists c :: c in incoming && c.id !in d.channels
    case Ping(_) => false
    case Read(_) => false
  }

  ghost predicate SomeLifetimeChanged(d: Dir, ops: seq<Op>) {
    exists k :: 0 <= k < |ops| && ChangesLifetimes(Run(d, ops[..k]), ops[k])
  }

  lemma BumpOlder(m: map<nat, nat>, k: nat)
    ensures NoLess(m, Bump(m, k)) && Bump(m, k) != m
  {
    assert Get(Bump(m, k), k, 0) == Get(m, k, 0) + 1;
  }

  lemma RemoveOneOlder(d: Dir, id: nat)
    ensures NoOlder(d, RemoveOne(d, id))
  {
    BumpOlder(d.channelGeneration, id);
  }

  lemma {:induction false} RemoveAllOlder(d: Dir, ids: seq<nat>)
    ensures NoOlder(d, RemoveAll(d, ids)) && RemoveAll(d, ids).guildGeneration == d.guildGeneration
    decreases |ids|
  {
    if ids != [] {
      hide NoLess;
      RemoveOneOlder(d, ids[0]);
      RemoveAllOlder(RemoveOne(d, ids[0]), ids[1..]);
      NoLessTransitive(d, RemoveOne(d, ids[0]), RemoveAll(d, ids));
    } else {
      assert NoLess(d.channelGeneration, d.channelGeneration);
    }
  }

  lemma NoLessTransitive(a: Dir, b: Dir, c: Dir)
    requires NoOlder(a, b) && NoOlder(b, c)
    ensures NoOlder(a, c) && (SameAge(a, c) ==> SameAge(a, b) && SameAge(b, c))
  {
    if SameAge(a, c) {
      Squeezed(a.guildGeneration, b.guildGeneration);
      Squeezed(a.channelGeneration, b.channelGeneration);
    }
  }

  lemma Squeezed(m: map<nat, nat>, m': map<nat, nat>)
    requires NoLess(m, m') && NoLess(m', m)
    ensures m == m'
  {
    assert forall k :: k in m ==> k in m' && m[k] == Get(m, k, 0) && m'[k] == Get(m', k, 0);
  }

  /** Deleting a channel, known or not, always starts a new lifetime. */
  lemma RemoveChannelOlder(d: Dir, id: nat)
    ensures NoOlder(d, RemoveChannel(d, id)) && !SameAge(d, RemoveChannel(d, id))
  {
    var e := RemoveAll(d, Listing(ThreadsOf(d, id)));
    RemoveAllOlder(d, Listing(ThreadsOf(d, id)));
    BumpOlder(e.channelGeneration, id);
    var d' := RemoveSelf(e, id);
    assert d'.channelGeneration == Bump(e.channelGeneration, id) && d'.guildGeneration == e.guildGeneration;
    hide NoLess, RemoveAll, Bump;
    Reflexive(d.guildGeneration);
    NoLessTransitive(d, e, d');
  }

  lemma Reflexive(m: map<nat, nat>)
    ensures NoLess(m, m)
  {
  }

  lemma {:induction false} DropStaleOlder(d: Dir, ids: seq<nat>, scope: Scope, present: set<nat>)
    ensures var r := DropStale(d, ids, scope, present);
            NoOlder(d, r.0) && (r.1 != [] ==> !SameAge(d, r.0)) && (r.1 == [] ==> r.0 == d)
  {
    Reflexive(d.guildGeneration);
    Reflexive(d.channelGeneration);
    if ids != [] {
      hide NoLess, RemoveChannel;
      var n := |ids| - 1;
      var init := DropStale(d, ids[..n], scope, present).0;
      DropStaleOlder(d, ids[..n], scope, present);
      RemoveChannelOlder(init, ids[n]);
      NoLessTransitive(d, init, RemoveChannel(init, ids[n]));
    }
  }

  lemma UpsertOlder(d: Dir, c: Channel)
    ensures NoOlder(d, UpsertChannel(d, c)) && (SameAge(d, UpsertChannel(d, c)) <==> c.id in d.channels)
    ensures forall id :: id in UpsertChannel(d, c).channels <==> id == c.id || id in d.channels
  {
    Reflexive(d.guildGeneration);
    Reflexive(d.channelGeneration);
    BumpOlder(d.channelGeneration, c.id);
  }

  lemma {:induction false} UpsertThreadsOlder(d: Dir, incoming: seq<Channel>)
    ensures var r := UpsertThreads(d, incoming);
            NoOlder(d, r) && (SameAge(d, r) <==> forall c :: c in incoming ==> c.id in d.channels) &&
            (forall id :: id in r.channels <==> id in d.channels || exists c :: c in incoming && c.id == id)
  {
    if incoming == [] {
      Reflexive(d.guildGeneration);
      Reflexive(d.channelGeneration);
    } else {
      var n := |incoming| - 1;
      var init, last := incoming[..n], incoming[n];
      assert incoming == init + [last];
      var c := last.(thread := if last.thread.NoMeta? then Meta(false) else last.thread, kind := Thread);
      UpsertThreadsOlder(d, init);
      UpsertOlder(UpsertThreads(d, init), c);
      hide NoLess, UpsertChannel;
      var a, b := UpsertThreads(d, init), UpsertThreads(d, incoming);
      NoLessTransitive(d, a, b);
    }
  }

  /** Generations never go back, and move exactly when a lifetime starts or ends. */
  lemma StepAges(d: Dir, op: Op)
    ensures NoOlder(d, Step(d, op)) && (SameAge(d, Step(d, op)) <==> !ChangesLifetimes(d, op))
  {
    Reflexive(d.guildGeneration);
    Reflexive(d.channelGeneration);
    hide NoLess;
    match op {
      case SeeGuild(guild) => BumpOlder(d.guildGeneration, guild);
      case SeeChannel(c) => UpsertOlder(d, c);
      case DeleteChannel(id) => RemoveChannelOlder(d, id);
      case DeleteGuild(guild) =>
        RemoveAllOlder(d, OrderOf(d, guild));
        BumpOlder(d.guildGeneration, guild);
      case SyncActive(guild, scope, incoming) =>
        hide DropStale, UpsertThreads;
        var present := set c | c in incoming :: c.id;
        var r := DropStale(d, OrderOf(d, guild), scope, present);
        DropStaleOlder(d, OrderOf(d, guild), scope, present);
        UpsertThreadsOlder(r.0, incoming);
        NoLessTransitive(d, r.0, UpsertThreads(r.0, incoming));
      case Ping(id) =>
      case Read(id) =>
    }
  }

  lemma {:induction false} RunAges(d: Dir, ops: seq<Op>)
    ensures NoOlder(d, Run(d, ops)) && (SameAge(d, Run(d, ops)) <==> !SomeLifetimeChanged(d, ops))
  {
    if ops == [] {
      Reflexive(d.guildGeneration);
      Reflexive(d.channelGeneration);
    } else {
      var n := |ops| - 1;
      var init := ops[..n];
      hide NoLess, Step, ChangesLifetimes, SomeLifetimeChanged;
      RunAges(d, init);
      StepAges(Run(d, init), ops[n]);
      ChangedBefore(d, ops);
      NoLessTransitive(d, Run(d, init), Run(d, ops));
    }
  }

  lemma ChangedBefore(d: Dir, ops: seq<Op>)
    requires ops != []
    ensures var init := ops[..|ops| - 1];
            SomeLifetimeChanged(d, ops) <==>
            SomeLifetimeChanged(d, init) || ChangesLifetimes(Run(d, init), ops[|ops| - 1])
  {
    hide Run, ChangesLifetimes;
    var n := |ops| - 1;
    var init := ops[..n];
    assert forall k :: 0 <= k < n ==> init[..k] == ops[..k] && init[k] == ops[k];
    if SomeLifetimeChanged(d, init) {
      var k :| 0 <= k < n && ChangesLifetimes(Run(d, init[..k]), init[k]);
      assert ChangesLifetimes(Run(d, ops[..k]), ops[k]);
    }
    assert ops[..n] == init;
  }

  lemma MatchesIff(m: map<nat, nat>, m': map<nat, nat>)
    requires NoLess(m, m')
    ensures Matches(m, m') <==> m == m'
  {
    if Matches(m, m') {
      SameKeys(m.Keys, m'.Keys);
      assert forall k :: k in m' ==> Get(m, k, 0) == m'[k];
    }
  }

  lemma SameKeys(a: set<nat>, b: set<nat>)
    requires a <= b && |a| == |b|
    ensures a == b
  {
    assert b == a + (b - a) && |b - a| == |b| - |a|;
    assert b - a == {};
  }

  /** A directory snapshot compares equal to a later store exactly when no guild and no channel
      was created or deleted in between. */
  lemma SnapshotCurrentIff(d: Dir, ops: seq<Op>)
    ensures SnapshotCurrent(d, Run(d, ops)) <==> !SomeLifetimeChanged(d, ops)
  {
    RunAges(d, ops);
    hide NoLess, Run, SomeLifetimeChanged, Matches;
    MatchesIff(d.guildGeneration, Run(d, ops).guildGeneration);
    MatchesIff(d.channelGeneration, Run(d, ops).channelGeneration);
  }
}
