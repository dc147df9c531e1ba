/** The history gate of one channel over every run, and the load it can leave pending for ever. */
module HistoryGate {
  import opened Collections
  import opened Messages
  import opened History
  import opened HistoryProtocol
  import LoadGate
  import InitialPage

  type Ticket = nat

  ghost predicate Current(s: World, t: Ticket) {
    t in s.requests && s.requests[t].version == s.gate.version
  }

  /** At most one request carries the gate's version, and then the gate is pending. */
  ghost predicate Exclusive(s: World) {
    && (forall t :: t in s.requests ==> s.requests[t].version <= s.gate.version)
    && (forall t, u :: Current(s, t) && Current(s, u) ==> t == u)
    && (forall t :: Current(s, t) ==> s.gate.pending)
  }

  lemma HandedBack(s: World, t: Ticket) returns (s1: World)
    requires Exclusive(s) && t in s.requests
    ensures s1 == s.(requests := s.requests - {t}) && Exclusive(s1)
    ensures s.requests[t].version == s.gate.version ==> forall u :: !Current(s1, u)
  {
    s1 := s.(requests := s.requests - {t});
    assert forall u :: Current(s1, u) ==> Current(s, u) && u != t;
    assert s.requests[t].version == s.gate.version ==> Current(s, t);
  }

  lemma CompleteKeepsExclusive(s: World, t: Ticket, limit: nat)
    requires |Msgs(s.h)| <= limit && Exclusive(s) && Enabled(s, Complete(t))
    ensures Exclusive(Next(s, Complete(t), limit))
  {
    var r := s.requests[t];
    var s1 := HandedBack(s, t);
    var done := Completion(s, t, limit);
    var s' := Installation(s1, r, r.page.value, limit);
    hide Next, Install;
    ReleaseKeepsExclusive(s1, s', r);
  }

  lemma FailKeepsExclusive(s: World, t: Ticket, limit: nat)
    requires |Msgs(s.h)| <= limit && Exclusive(s) && Enabled(s, Fail(t))
    ensures Exclusive(Next(s, Fail(t), limit))
  {
    var s1 := HandedBack(s, t);
    ReleaseKeepsExclusive(s1, Abort(s1, s.requests[t]), s.requests[t]);
  }

  lemma ReleaseKeepsExclusive(s: World, s': World, r: Request)
    requires Exclusive(s) && (r.version == s.gate.version ==> forall u :: !Current(s, u))
    requires s'.requests == s.requests && s'.gate.version == s.gate.version
    requires r.version != s.gate.version ==> s'.gate == s.gate
    ensures Exclusive(s')
  {
    assert forall u :: Current(s', u) <==> Current(s, u);
  }

  lemma LoadKeepsExclusive(s: World, m: Move, limit: nat)
    requires |Msgs(s.h)| <= limit && Exclusive(s) && Enabled(s, m) && (m.Load? || m.LoadOlder?)
    ensures Exclusive(Next(s, m, limit))
  {
    var s' := Loading(s, m, limit);
    hide Next;
    assert forall u :: u != m.t ==> (Current(s', u) <==> Current(s, u));
  }

  lemma NextKeepsExclusive(s: World, m: Move, limit: nat)
    requires |Msgs(s.h)| <= limit && Exclusive(s) && Enabled(s, m)
    ensures Exclusive(Next(s, m, limit))
  {
    if m.Complete? {
      CompleteKeepsExclusive(s, m.t, limit);
    } else if m.Fail? {
      FailKeepsExclusive(s, m.t, limit);
    } else if m.Load? || m.LoadOlder? {
      LoadKeepsExclusive(s, m, limit);
    } else if m.Deliver? {
      var s' := Delivery(s, limit);
      hide Next;
      assert forall u :: Current(s', u) ==> Current(s, u) && s'.gate == s.gate;
    } else {
      var s' := OtherMove(s, m, limit);
      hide Next;
      assert forall u :: Current(s', u) <==> Current(s, u);
    }
  }

  /** The moves that leave the gate and the versions of the requests alone. */
  lemma OtherMove(s: World, m: Move, limit: nat) returns (s': World)
    requires |Msgs(s.h)| <= limit && Enabled(s, m)
    requires !m.Deliver? && !m.Complete? && !m.Fail? && !m.Load? && !m.LoadOlder?
    ensures s' == Next(s, m, limit) && s'.gate == s.gate && s'.requests.Keys == s.requests.Keys
    ensures forall u :: u in s.requests ==> s'.requests[u].version == s.requests[u].version
  {
    hide History.Create, Remove, Append, MarkFailed, Handle, Install, BeginLoad, BeginOlderLoad, Abort;
    s' := Next(s, m, limit);
  }

  lemma {:induction false} RunKeepsExclusive(s: World, moves: seq<Move>, limit: nat)
    requires limit > 0 && |Msgs(s.h)| <= limit && Exclusive(s) && EnabledRun(s, moves, limit)
    ensures Exclusive(After(s, moves, limit))
    decreases |moves|
  {
    if moves != [] {
      BoundKept(s, moves[0], limit);
      NextKeepsExclusive(s, moves[0], limit);
      RunKeepsExclusive(Next(s, moves[0], limit), moves[1..], limit);
    }
  }

  /** Over every run, guarded or not; and a completion of an older version or
      lifetime leaves the store and the gate as they were. */
  lemma LoadsAreExclusive(moves: seq<Move>, t: Ticket, limit: nat)
    requires limit > 0 && EnabledRun(INIT, moves, limit)
    ensures var s := After(INIT, moves, limit);
            Exclusive(s) &&
            (Enabled(s, Complete(t)) && !Accepted(s, s.requests[t]) ==>
               var s' := Next(s, Complete(t), limit);
               s'.h == s.h && s'.gate == s.gate)
  {
    RunKeepsExclusive(INIT, moves, limit);
  }

  // ---- what a completed load allows next

  ghost predicate Grants(s: World, m: Move, limit: nat)
    requires |Msgs(s.h)| <= limit && Enabled(s, m) && (m.Load? || m.LoadOlder?)
  {
    m.t in Next(s, m, limit).requests
  }

  lemma GrantsLoadIff(s: World, u: Ticket, n: nat, limit: nat)
    requires |Msgs(s.h)| <= limit && u !in s.requests
    ensures Grants(s, Load(u, n), limit) <==> !s.gate.pending && !s.gate.loaded
    ensures Grants(s, LoadOlder(u), limit) <==>
            !s.gate.pending && !s.gate.exhausted && Msgs(s.h) != [] && Msgs(s.h)[0].id != 0
  {
    hide Handle, Install, Abort, Append, MarkFailed, History.Create, Remove, Made, Msgs;
  }

  lemma GateAfter(s: World, r: Request, page: seq<Message>, limit: nat)
    requires Accepted(s, r)
    ensures var g := Install(s, r, page, limit).gate;
            !g.pending &&
            (g.loaded <==> s.gate.loaded || (!r.older && !PrunedSince(s.h, r.revision))) &&
            (g.exhausted <==>
               s.gate.exhausted || (!PrunedSince(s.h, r.revision) && (|page| < r.limit || (!r.older && r.limit == 0))))
  {
    hide PrependSince, SetMessages, InitialPage.Merge, PrunedSince;
    var g := s.gate;
    if PrunedSince(s.h, r.revision) {
      assert Install(s, r, page, limit).gate == g.(pending := false);
    } else if r.older {
      assert Install(s, r, page, limit).gate == g.(pending := false, exhausted := g.exhausted || |page| < r.limit);
    } else {
      assert Install(s, r, page, limit).gate ==
        g.(pending := false, loaded := true, exhausted := g.exhausted || r.limit == 0 || |page| < r.limit);
    }
    hide Install;
  }

  /** Once an accepted completion is in: the channel is loaded again only if it was not loaded and this
      was an older page or one discarded for pruned tombstones; and it is asked for more only while the
      pages come back full. */
  lemma CompletionDecidesNextLoad(s: World, t: Ticket, u: Ticket, n: nat, limit: nat)
    requires limit > 0 && |Msgs(s.h)| <= limit && Enabled(s, Complete(t)) && Accepted(s, s.requests[t])
    requires u == t || u !in s.requests
    ensures var r := s.requests[t];
            var s' := (BoundKept(s, Complete(t), limit); Next(s, Complete(t), limit));
            var pruned := PrunedSince(s.h, r.revision);
            u !in s'.requests && |Msgs(s'.h)| <= limit &&
            (Grants(s', Load(u, n), limit) <==> !s.gate.loaded && (r.older || pruned)) &&
            (Grants(s', LoadOlder(u), limit) <==>
               !s.gate.exhausted && Msgs(s'.h) != [] && Msgs(s'.h)[0].id != 0 &&
               (pruned || (|r.page.value| >= r.limit && (r.older || r.limit > 0))))
  {
    var r := s.requests[t];
    BoundKept(s, Complete(t), limit);
    var s' := Completion(s, t, limit);
    var s1 := s.(requests := s.requests - {t});
    GateAfter(s1, r, r.page.value, limit);
    var installed := Installation(s1, r, r.page.value, limit);
    hide Next, Install, Grants, Msgs;
    GrantsLoadIff(s', u, n, limit);
  }

  // ---- the load that stays pending

  /** A current request's completion releases the gate if and only if its lifetime still is the channel's. */
  lemma CompletionReleasesIff(s: World, t: Ticket, limit: nat)
    requires |Msgs(s.h)| <= limit && Exclusive(s) && Current(s, t) && Enabled(s, Complete(t))
    ensures Next(s, Complete(t), limit).gate.pending <==> s.requests[t].generation != s.generation
    ensures Next(s, Fail(t), limit).gate.pending <==> s.requests[t].generation != s.generation
  {
    var done := Completion(s, t, limit);
    var s' := Installation(s.(requests := s.requests - {t}), s.requests[t], s.requests[t].page.value, limit);
    hide Install, Handle;
  }

  /** Pending, with no request left that could release it. */
  ghost predicate Stuck(s: World) {
    s.gate.pending && forall t :: !Current(s, t)
  }

  lemma StepStaysStuck(s: World, m: Move, limit: nat)
    requires |Msgs(s.h)| <= limit && Stuck(s) && Enabled(s, m)
    requires m.Deliver? ==> !s.queue[0].EChannelDelete?
    ensures Stuck(Next(s, m, limit)) && Next(s, m, limit).requests.Keys <= s.requests.Keys
  {
    if m.Complete? || m.Fail? {
      hide Handle, PrependSince, SetMessages;
      assert !Current(s, m.t);
      assert Next(s, m, limit).gate == s.gate;
    } else if m.Load? || m.LoadOlder? {
      var s' := Loading(s, m, limit);
      hide Next;
    } else if m.Deliver? {
      var s' := Delivery(s, limit);
      hide Next;
    } else {
      var s' := OtherMove(s, m, limit);
      hide Next;
    }
    var s' := Next(s, m, limit);
    assert forall u :: Current(s', u) ==> Current(s, u);
  }

  /** A run in which no delete of the channel is delivered. */
  ghost predicate KeepsChannel(s: World, moves: seq<Move>, limit: nat)
    requires limit > 0 && |Msgs(s.h)| <= limit && EnabledRun(s, moves, limit)
    decreases |moves|
  {
    moves != [] ==>
      (moves[0].Deliver? ==> !s.queue[0].EChannelDelete?) &&
      (BoundKept(s, moves[0], limit); KeepsChannel(Next(s, moves[0], limit), moves[1..], limit))
  }

  /** A stuck gate grants no load, and stays stuck over every run until a delete of the channel is delivered. */
  lemma {:induction false} StuckUntilChannelDelete(s: World, moves: seq<Move>, limit: nat)
    requires limit > 0 && |Msgs(s.h)| <= limit && Stuck(s)
    requires EnabledRun(s, moves, limit) && KeepsChannel(s, moves, limit)
    ensures Stuck(After(s, moves, limit)) && After(s, moves, limit).requests.Keys <= s.requests.Keys
    decreases |moves|
  {
    hide Next, Stuck;
    if moves != [] {
      BoundKept(s, moves[0], limit);
      StepStaysStuck(s, moves[0], limit);
      StuckUntilChannelDelete(Next(s, moves[0], limit), moves[1..], limit);
    }
  }

  /** Then the delivered delete frees it. */
  lemma ChannelDeleteFrees(s: World, limit: nat)
    requires |Msgs(s.h)| <= limit && s.queue != [] && s.queue[0].EChannelDelete?
    ensures !Next(s, Deliver, limit).gate.pending
  {
  }

  /** And the channel may be loaded again, whatever was loaded before. */
  lemma ChannelDeleteAllowsLoad(s: World, u: Ticket, n: nat, limit: nat)
    requires limit > 0 && |Msgs(s.h)| <= limit && s.queue != [] && s.queue[0].EChannelDelete? && u !in s.requests
    ensures var s' := (BoundKept(s, Deliver, limit); Next(s, Deliver, limit));
            |Msgs(s'.h)| <= limit && Enabled(s', Load(u, n)) && Grants(s', Load(u, n), limit)
  {
    BoundKept(s, Deliver, limit);
    var s' := Delivery(s, limit);
    assert !s'.gate.pending && !s'.gate.loaded;
    hide Next, Grants, Msgs, LoadGate.Invalidate;
    GrantsLoadIff(s', u, n, limit);
  }

  /** Such a gate is reachable: a load of a channel that becomes known while it is in flight. */
  lemma LoadAcrossHydrationSticks() returns (moves: seq<Move>)
    ensures EnabledRun(INIT, moves, 1) && Stuck(After(INIT, moves, 1))
  {
    var r := Request(false, 0, 0, 0, 50, None);
    var s1 := INIT.(gate := LoadGate.IDLE.(pending := true), requests := map[0 := r]);
    var s2 := s1.(up := true, queue := [EChannelUpsert]);
    var s3 := s2.(queue := [], hydrated := true, generation := 1);
    var s4 := s3.(requests := map[0 := r.(page := Some([]))]);
    var s5 := s3.(requests := map[]);
    assert s4.requests - {0} == map[];
    assert Stuck(s5);
    PrependMove(s4, Complete(0), s5, [], 1);
    moves := [Complete(0)] + [];
    PrependMove(s3, Capture(0, []), s4, moves, 1);
    moves := [Capture(0, [])] + moves;
    PrependMove(s2, Deliver, s3, moves, 1);
    moves := [Deliver] + moves;
    PrependMove(s1, CreateChannel, s2, moves, 1);
    moves := [CreateChannel] + moves;
    PrependMove(INIT, Load(0, 50), s1, moves, 1);
    moves := [Load(0, 50)] + moves;
  }
}
