/** One channel's history between the server, the gateway queue and the client.

    The server changes the channel and queues one event per change; the client
    applies events in order (internal/app/gateway_handlers.go) while history pages
    requested earlier arrive later (internal/app/app_history.go). `created` and the
    request pages' contents belong to the server's side of the story. */
module HistoryProtocol {
  import opened Collections
  import opened Messages
  import opened History
  import opened LoadGate
  import InitialPage
  import OlderPage

  /** `body` counts the versions of a message's content. */
  datatype Event =
    | ECreate(id: MessageId, nonce: string, body: nat)
    | EUpdate(id: MessageId, body: nat)
    | EDelete(id: MessageId)
    | EChannelDelete
    | EChannelUpsert

  /** A history request carries the snapshot of the moment it was made. */
  datatype Request = Request(older: bool, revision: Rev, generation: nat, version: nat, limit: nat,
                             page: Option<seq<Message>>)

  /** The client's own send carries a snapshot too; `id` is 0 until the server has the message. */
  datatype Sent = Sent(nonce: string, revision: Rev, generation: nat, id: MessageId)

  datatype World = World(
    up: bool, alive: map<MessageId, nat>, created: map<MessageId, string>,  // the server
    queue: seq<Event>,                                                      // the gateway
    h: Hist, hydrated: bool, generation: nat, gate: Gate,                   // the client
    requests: map<Ticket, Request>,
    sends: map<Ticket, Sent>)

  datatype Move =
    | Create(id: MessageId, nonce: string)
    | Edit(id: MessageId)
    | Delete(id: MessageId)
    | DeleteChannel
    | CreateChannel
    | TouchChannel
    | Deliver
    | ConfirmDelete(id: MessageId)   // the client's own delete, confirmed by REST
    | Send(t: Ticket, nonce: string) // the client shows an echo and posts its message
    | Accept(t: Ticket, id: MessageId)  // the server creates a message that was sent
    | ConfirmSend(t: Ticket)         // REST returns the message
    | FailSend(t: Ticket)            // REST returns an error, whatever the server did
    | Elsewhere(ticks: nat)          // revisions drawn by other channels
    | Load(t: Ticket, limit: nat)
    | LoadOlder(t: Ticket)
    | Capture(t: Ticket, page: seq<Message>)
    | Complete(t: Ticket)
    | Fail(t: Ticket)

  const OLDER_LIMIT := 50

  const INIT := World(false, map[], map[], [], EMPTY, false, 0, IDLE, map[], map[])

  function FromServer(id: MessageId, nonce: string, body: nat): Message {
    Message(id, nonce, body, false, false, 0)
  }

  /** A server message as a page or an event shows it; pages may omit the nonce. */
  predicate Genuine(m: Message, created: map<MessageId, string>) {
    m.id in created && (m.nonce == "" || m.nonce == created[m.id]) && !m.pending && !m.failed
  }

  /** A page holds messages alive on the server at that moment, with their content. */
  predicate PageOf(page: seq<Message>, alive: map<MessageId, nat>, created: map<MessageId, string>) {
    forall m :: m in page ==> Genuine(m, created) && m.id in alive && m.body == alive[m.id]
  }

  ghost predicate Enabled(s: World, m: Move) {
    match m
    case Create(id, _) => s.up && id != 0 && id !in s.created
    case Edit(id) => id in s.alive
    case Delete(id) => id in s.alive
    case DeleteChannel => s.up
    case CreateChannel => !s.up
    case TouchChannel => s.up
    case Deliver => s.queue != []
    case ConfirmDelete(id) => id in s.created && id !in s.alive
    case Send(t, nonce) => t !in s.sends && nonce != ""
    case Accept(t, id) =>
      t in s.sends && s.sends[t].id == 0 && s.up && id != 0 && id !in s.created
    case ConfirmSend(t) => t in s.sends && s.sends[t].id != 0
    case FailSend(t) => t in s.sends
    case Elsewhere(_) => true
    case Load(t, _) => t !in s.requests
    case LoadOlder(t) => t !in s.requests
    case Capture(t, page) => t in s.requests && s.requests[t].page == None && PageOf(page, s.alive, s.created)
    case Complete(t) => t in s.requests && s.requests[t].page.Some?
    case Fail(t) => t in s.requests
  }

  // ---- the client's steps

  ghost function Handle(s: World, e: Event, limit: nat): World
    requires |Msgs(s.h)| <= limit
  {
    match e
    case ECreate(id, nonce, body) => s.(h := History.Create(s.h, FromServer(id, nonce, body), limit))
    case EUpdate(id, body) => s.(h := Update(s.h, id, (m: Message) => m.(body := body)))
    case EDelete(id) => s.(h := Remove(s.h, id, limit))
    case EChannelDelete =>
      s.(h := Drop(s.h), hydrated := false, generation := s.generation + 1, gate := Invalidate(s.gate))
    case EChannelUpsert =>
      if s.hydrated then s else s.(hydrated := true, generation := s.generation + 1)
  }

  function BeginLoad(s: World, t: Ticket, limit: nat): World {
    var (g, granted) := Begin(s.gate);
    if !granted then s
    else s.(gate := g, requests := s.requests[t := Request(false, s.h.rev, s.generation, g.version, limit, None)])
  }

  function BeginOlderLoad(s: World, t: Ticket): World {
    var (g, granted) := BeginOlder(s.gate);
    if !granted then s
    else if Msgs(s.h) == [] || Msgs(s.h)[0].id == 0 then s.(gate := FinishOlder(g, g.version, true).0)
    else s.(gate := g, requests := s.requests[t := Request(true, s.h.rev, s.generation, g.version, OLDER_LIMIT, None)])
  }

  /** Whether a completion may touch the store and the gate. */
  predicate Accepted(s: World, r: Request) {
    s.generation == r.generation && s.gate.version == r.version
  }

  /** The request is over and the channel may be asked again. */
  function Released(gate: Gate, r: Request): Gate {
    if r.older then FinishOlder(gate, gate.version, false).0 else Finish(gate, gate.version, false).0
  }

  function Install(s: World, r: Request, page: seq<Message>, limit: nat): World {
    if !Accepted(s, r) then s
    else if PrunedSince(s.h, r.revision) then
      s.(gate := Released(s.gate, r))
    else if r.older then
      s.(h := PrependSince(s.h, page, r.revision, limit),
         gate := FinishOlder(s.gate, s.gate.version, |page| < r.limit).0)
    else
      var g := Finish(s.gate, s.gate.version, true).0;
      s.(h := SetMessages(s.h, InitialPage.Merge(s.h, page, r.revision), limit),
         gate := if r.limit == 0 || |page| < r.limit then MarkExhausted(g) else g)
  }

  function Abort(s: World, r: Request): World {
    if !Accepted(s, r) then s
    else s.(gate := Released(s.gate, r))
  }

  /** A local echo: no id yet. */
  function Echo(nonce: string): Message { Message(0, nonce, 0, true, false, 0) }

  /** The server has a new message and queues its event. */
  function Made(s: World, id: MessageId, nonce: string): World {
    s.(alive := s.alive[id := 0], created := s.created[id := nonce], queue := s.queue + [ECreate(id, nonce, 0)])
  }

  ghost function Next(s: World, m: Move, limit: nat): World
    requires Enabled(s, m) && |Msgs(s.h)| <= limit
  {
    match m
    case Create(id, nonce) => Made(s, id, nonce)
    case Edit(id) =>
      s.(alive := s.alive[id := s.alive[id] + 1], queue := s.queue + [EUpdate(id, s.alive[id] + 1)])
    case Delete(id) => s.(alive := s.alive - {id}, queue := s.queue + [EDelete(id)])
    case DeleteChannel => s.(up := false, alive := map[], queue := s.queue + [EChannelDelete])
    case CreateChannel => s.(up := true, queue := s.queue + [EChannelUpsert])
    case TouchChannel => s.(queue := s.queue + [EChannelUpsert])
    case Deliver => Handle(s.(queue := s.queue[1..]), s.queue[0], limit)
    case ConfirmDelete(id) => s.(h := Remove(s.h, id, limit))
    case Send(t, nonce) =>
      var shown := Append(s.h, Echo(nonce), limit);
      s.(h := shown, sends := s.sends[t := Sent(nonce, shown.rev, s.generation, 0)])
    case Accept(t, id) => Made(s, id, s.sends[t].nonce).(sends := s.sends[t := s.sends[t].(id := id)])
    case ConfirmSend(t) =>
      s.(h := History.Create(s.h, FromServer(s.sends[t].id, s.sends[t].nonce, 0), limit), sends := s.sends - {t})
    case FailSend(t) => s.(h := MarkFailed(s.h, s.sends[t].nonce), sends := s.sends - {t})
    case Elsewhere(ticks) => s.(h := s.h.(rev := s.h.rev + ticks))
    case Load(t, n) => BeginLoad(s, t, n)
    case LoadOlder(t) => BeginOlderLoad(s, t)
    case Capture(t, page) => s.(requests := s.requests[t := s.requests[t].(page := Some(page))])
    case Complete(t) => Install(s.(requests := s.requests - {t}), s.requests[t], s.requests[t].page.value, limit)
    case Fail(t) => Abort(s.(requests := s.requests - {t}), s.requests[t])
  }

  // ---- what two of the moves come to

  lemma HandleTouches(s: World, e: Event, limit: nat)
    requires |Msgs(s.h)| <= limit
    ensures var s' := Handle(s, e, limit);
            s' == s.(h := s'.h, hydrated := s'.hydrated, generation := s'.generation, gate := s'.gate) &&
            s'.gate == if e.EChannelDelete? then Invalidate(s.gate) else s.gate
  {
    hide History.Create, Update, Remove;
  }

  lemma Delivery(s: World, limit: nat) returns (s': World)
    requires Enabled(s, Deliver) && |Msgs(s.h)| <= limit
    ensures s' == Next(s, Deliver, limit) && s' == Handle(s.(queue := s'.queue), s.queue[0], limit)
    ensures s.queue != [] && s'.queue == s.queue[1..] && s'.alive == s.alive && s'.created == s.created
    ensures s'.requests == s.requests && s'.sends == s.sends
    ensures s'.gate == if s.queue[0].EChannelDelete? then Invalidate(s.gate) else s.gate
  {
    hide Handle, Append, MarkFailed, Install, Abort, BeginLoad, BeginOlderLoad, Made, Invalidate;
    s' := Next(s, Deliver, limit);
    HandleTouches(s.(queue := s.queue[1..]), s.queue[0], limit);
  }

  lemma LoadBegun(s: World, t: Ticket, limit: nat) returns (s': World)
    requires t !in s.requests
    ensures s' == BeginLoad(s, t, limit) && s' == s.(gate := s'.gate, requests := s'.requests)
    ensures s'.gate.version == s.gate.version && s'.gate.pending == (t in s'.requests || s.gate.pending)
    ensures s'.requests ==
      if s.gate.pending || s.gate.loaded then s.requests
      else s.requests[t := Request(false, s.h.rev, s.generation, s.gate.version, limit, None)]
    ensures t in s'.requests ==> !s.gate.pending
  {
    s' := BeginLoad(s, t, limit);
  }

  lemma OlderBegun(s: World, t: Ticket) returns (s': World)
    requires t !in s.requests
    ensures s' == BeginOlderLoad(s, t) && s' == s.(gate := s'.gate, requests := s'.requests)
    ensures s'.gate.version == s.gate.version && s'.gate.pending == (t in s'.requests || s.gate.pending)
    ensures s'.requests == s.requests ||
            s'.requests == s.requests[t := Request(true, s.h.rev, s.generation, s.gate.version, OLDER_LIMIT, None)]
    ensures t in s'.requests ==> !s.gate.pending
  {
    s' := BeginOlderLoad(s, t);
  }

  lemma Loading(s: World, m: Move, limit: nat) returns (s': World)
    requires Enabled(s, m) && (m.Load? || m.LoadOlder?) && |Msgs(s.h)| <= limit
    ensures s' == Next(s, m, limit) && s' == s.(gate := s'.gate, requests := s'.requests)
    ensures s'.requests == s.requests || m.t in s'.requests
    ensures m.t in s'.requests ==> s'.requests == s.requests[m.t := s'.requests[m.t]] && s'.requests[m.t].page == None
    ensures m.t in s'.requests ==> s'.requests[m.t].revision == s.h.rev && s'.requests[m.t].generation == s.generation
    ensures s'.gate.version == s.gate.version && s'.gate.pending == (m.t in s'.requests || s.gate.pending)
    ensures m.t in s'.requests ==> !s.gate.pending && s'.requests[m.t].version == s.gate.version
  {
    hide Handle, Append, MarkFailed, Install, Abort, Made, History.Create, Remove, BeginLoad, BeginOlderLoad;
    s' := Next(s, m, limit);
    if m.Load? { var begun := LoadBegun(s, m.t, m.limit); } else { var begun := OlderBegun(s, m.t); }
  }

  lemma Installation(s: World, r: Request, page: seq<Message>, limit: nat) returns (s': World)
    ensures s' == Install(s, r, page, limit) && s' == s.(h := s'.h, gate := s'.gate)
    ensures s'.h == if !Accepted(s, r) || PrunedSince(s.h, r.revision) then s.h
                    else if r.older then PrependSince(s.h, page, r.revision, limit)
                    else SetMessages(s.h, InitialPage.Merge(s.h, page, r.revision), limit)
    ensures s'.gate.version == s.gate.version
    ensures if Accepted(s, r) then !s'.gate.pending else s'.gate == s.gate
  {
    hide PrependSince, SetMessages, InitialPage.Merge;
    s' := Install(s, r, page, limit);
  }

  lemma Completion(s: World, t: Ticket, limit: nat) returns (s': World)
    requires Enabled(s, Complete(t)) && |Msgs(s.h)| <= limit
    ensures s' == Next(s, Complete(t), limit)
    ensures s' == Install(s.(requests := s.requests - {t}), s.requests[t], s.requests[t].page.value, limit)
  {
    hide Handle, Append, MarkFailed, Install, Abort, BeginLoad, BeginOlderLoad, Made;
    s' := Next(s, Complete(t), limit);
  }

  // ---- runs

  lemma StoreBound(h: Hist, id: MessageId, m: Message, limit: nat)
    requires limit > 0 && |Msgs(h)| <= limit
    ensures |Msgs(Remove(h, id, limit))| <= limit && |Msgs(History.Create(h, m, limit))| <= limit
    ensures |Msgs(Append(h, m, limit))| <= limit
  {
  }

  lemma HandleBound(s: World, e: Event, limit: nat)
    requires limit > 0 && |Msgs(s.h)| <= limit
    ensures |Msgs(Handle(s, e, limit).h)| <= limit
  {
    match e
    case ECreate(id, nonce, body) => StoreBound(s.h, id, FromServer(id, nonce, body), limit);
    case EDelete(id) => StoreBound(s.h, id, BLANK, limit);
    case _ =>
  }

  lemma InstallBound(s: World, r: Request, page: seq<Message>, limit: nat)
    requires limit > 0 && |Msgs(s.h)| <= limit
    ensures |Msgs(Install(s, r, page, limit).h)| <= limit
  {
    hide OlderPage.Bounded, OlderPage.Combined, InitialPage.Merge, Echoes, PushAll, Nonces;
    BoundedFits(OlderPage.Combined(page, Msgs(s.h), s.h.deleted), r.revision, limit);
    SetMessagesWindow(s.h, InitialPage.Merge(s.h, page, r.revision), limit);
  }

  lemma BoundKept(s: World, m: Move, limit: nat)
    requires limit > 0 && Enabled(s, m) && |Msgs(s.h)| <= limit
    ensures |Msgs(Next(s, m, limit).h)| <= limit
  {
    match m
    case Deliver => HandleBound(s.(queue := s.queue[1..]), s.queue[0], limit);
    case Complete(t) => InstallBound(s.(requests := s.requests - {t}), s.requests[t], s.requests[t].page.value, limit);
    case ConfirmDelete(id) => StoreBound(s.h, id, BLANK, limit);
    case Send(t, nonce) => StoreBound(s.h, 0, Echo(nonce), limit);
    case ConfirmSend(t) => StoreBound(s.h, 0, FromServer(s.sends[t].id, s.sends[t].nonce, 0), limit);
    case _ => OtherBound(s, m, limit);
  }

  lemma OtherBound(s: World, m: Move, limit: nat)
    requires Enabled(s, m) && |Msgs(s.h)| <= limit
    requires !m.Deliver? && !m.Complete? && !m.ConfirmDelete? && !m.ConfirmSend? && !m.Send?
    ensures |Msgs(Next(s, m, limit).h)| <= limit
  {
  }

  ghost predicate EnabledRun(s: World, moves: seq<Move>, limit: nat)
    requires limit > 0 && |Msgs(s.h)| <= limit
    decreases |moves|
  {
    moves != [] ==>
      Enabled(s, moves[0]) && (BoundKept(s, moves[0], limit); EnabledRun(Next(s, moves[0], limit), moves[1..], limit))
  }

  ghost function After(s: World, moves: seq<Move>, limit: nat): (s': World)
    requires limit > 0 && |Msgs(s.h)| <= limit && EnabledRun(s, moves, limit)
    ensures |Msgs(s'.h)| <= limit
    decreases |moves|
  {
    if moves == [] then s
    else
      BoundKept(s, moves[0], limit);
      After(Next(s, moves[0], limit), moves[1..], limit)
  }

  lemma PrependMove(s: World, m: Move, s': World, rest: seq<Move>, limit: nat)
    requires limit > 0 && |Msgs(s.h)| <= limit && |Msgs(s'.h)| <= limit
    requires Enabled(s, m) && Next(s, m, limit) == s' && EnabledRun(s', rest, limit)
    ensures EnabledRun(s, [m] + rest, limit) && After(s, [m] + rest, limit) == After(s', rest, limit)
  {
    assert ([m] + rest)[1..] == rest;
  }

  lemma {:induction false} RunsCompose(s: World, a: seq<Move>, b: seq<Move>, limit: nat)
    requires limit > 0 && |Msgs(s.h)| <= limit && EnabledRun(s, a, limit) && EnabledRun(After(s, a, limit), b, limit)
    ensures EnabledRun(s, a + b, limit) && After(s, a + b, limit) == After(After(s, a, limit), b, limit)
    decreases |a|
  {
    if a == [] {
      assert a + b == b;
    } else {
      BoundKept(s, a[0], limit);
      RunsCompose(Next(s, a[0], limit), a[1..], b, limit);
      assert (a + b)[1..] == a[1..] + b;
    }
  }

  // ---- what "its delete is still queued" means

  predicate Kills(e: Event, id: MessageId) { e.EChannelDelete? || (e.EDelete? && e.id == id) }

  predicate Makes(e: Event, id: MessageId) { e.ECreate? && e.id == id }

  /** The queue holds a delete of `id`, or of the channel, with no create of `id` after it. */
  predicate Doomed(q: seq<Event>, id: MessageId) {
    q != [] &&
    (Kills(q[|q| - 1], id) || (!Makes(q[|q| - 1], id) && Doomed(q[..|q| - 1], id)))
  }

  predicate Justified(s: World, id: MessageId) { id in s.alive || Doomed(s.queue, id) }

  /** No message the client shows is gone for good on the server. */
  ghost predicate NoGhosts(s: World) {
    forall m :: m in Msgs(s.h) && m.id != 0 ==> Justified(s, m.id)
  }

  lemma {:induction false} DoomedTail(q: seq<Event>, id: MessageId)
    requires Doomed(q, id) && !Kills(q[0], id)
    ensures Doomed(q[1..], id)
  {
    var n := |q| - 1;
    if n > 0 {
      assert q[1..][n - 1] == q[n];
      if !Kills(q[n], id) {
        assert q[..n][0] == q[0] && q[1..][..n - 1] == q[..n][1..];
        DoomedTail(q[..n], id);
      }
    }
  }

  /** A create behind the head is doomed, if at all, by an event behind the head. */
  lemma {:induction false} DoomedAfterCreate(q: seq<Event>, id: MessageId, i: nat)
    requires Doomed(q, id) && 0 < i < |q| && Makes(q[i], id)
    ensures Doomed(q[1..], id)
  {
    var n := |q| - 1;
    assert q[1..][n - 1] == q[n];
    if !Kills(q[n], id) {
      assert i < n && q[..n][i] == q[i];
      assert q[1..][..n - 1] == q[..n][1..];
      DoomedAfterCreate(q[..n], id, i);
    }
  }

  lemma DoomedLater(q: seq<Event>, e: Event, id: MessageId)
    requires Doomed(q, id) && !Makes(e, id)
    ensures Doomed(q + [e], id)
  {
    assert (q + [e])[..|q|] == q;
  }
}
