/** No message outlives its delete in the client's window, over every guarded run. */
module HistorySafety {
  import opened Collections
  import opened Messages
  import opened History
  import opened HistoryProtocol
  import Tombstones
  import InitialPage
  import OlderPage

  type Ticket = nat

  // ---- the invariant

  ghost predicate EventOk(s: World, e: Event) {
    match e
    case ECreate(id, nonce, _) => id in s.created && nonce == s.created[id] && Justified(s, id)
    case EUpdate(id, _) => id in s.created
    case EDelete(id) => id in s.created && id !in s.alive
    case _ => true
  }

  ghost predicate ServerOk(s: World) {
    && 0 !in s.created
    && s.alive.Keys <= s.created.Keys
    && (forall i :: 0 <= i < |s.queue| ==> EventOk(s, s.queue[i]))
  }

  /** Whatever is shown, local echoes aside, is justified. */
  ghost predicate Shown(s: World, m: Message) { m.id != 0 ==> m.id in s.created && Justified(s, m.id) }

  ghost predicate WindowInv(s: World, limit: nat) {
    WindowOk(s.h, limit) && forall m :: m in Msgs(s.h) ==> Shown(s, m)
  }

  ghost predicate CacheInv(s: World, limit: nat) {
    && Tombstones.CacheOk(s.h, limit)
    && (forall id :: id in s.h.deleted ==> id in s.created && id !in s.alive)
  }

  /** A delete newer than `request` is on record, or lost below the watermark. */
  ghost predicate Buried(h: Hist, id: MessageId, request: Rev) {
    (id in h.deleted && h.deleted[id] > request) || h.pruned > request
  }

  ghost predicate Covered(s: World, id: MessageId, request: Rev) {
    Justified(s, id) || Buried(s.h, id, request)
  }

  ghost predicate PageMessageOk(s: World, r: Request, m: Message) {
    Genuine(m, s.created) && (r.generation == s.generation ==> Covered(s, m.id, r.revision))
  }

  ghost predicate RequestOk(s: World, r: Request) {
    && r.revision <= s.h.rev
    && r.generation <= s.generation
    && (r.page.Some? ==> forall m :: m in r.page.value ==> PageMessageOk(s, r, m))
  }

  ghost predicate RequestsOk(s: World) {
    forall t :: t in s.requests ==> RequestOk(s, s.requests[t])
  }

  /** A message the server has accepted is covered since it was sent. */
  ghost predicate SendOk(s: World, r: Sent) {
    && r.revision <= s.h.rev
    && r.generation <= s.generation
    && (r.id != 0 ==> r.id in s.created && (r.generation == s.generation ==> Covered(s, r.id, r.revision)))
  }

  ghost predicate SendsOk(s: World) {
    forall t :: t in s.sends ==> SendOk(s, s.sends[t])
  }

  ghost predicate ClientOk(s: World, limit: nat) {
    WindowInv(s, limit) && CacheInv(s, limit) && RequestsOk(s) && SendsOk(s)
  }

  ghost predicate Inv(s: World, limit: nat) {
    ServerOk(s) && ClientOk(s, limit)
  }

  // ---- the guards of a run

  /** At most one entry of the window has the id. */
  ghost predicate StandsOnce(h: Hist, id: MessageId) {
    forall i, j :: 0 <= i < j < |Msgs(h)| && Msgs(h)[i].id == id ==> Msgs(h)[j].id != id
  }

  /** A delete that leaves no copy behind, or one whose copies a queued event still removes. */
  ghost predicate DeleteGuarded(s: World, m: Move)
    requires Enabled(s, m)
  {
    && (m.Deliver? && s.queue[0].EDelete? ==>
          var id := s.queue[0].id;
          StandsOnce(s.h, id) || Justified(s.(queue := s.queue[1..]), id))
    && (m.ConfirmDelete? ==> StandsOnce(s.h, m.id) || Justified(s, m.id))
  }

  /** The two places where the code can break the promise: a delete of a message that stands
      twice, and a send confirmed after its message's delete was applied. */
  ghost predicate Guarded(s: World, m: Move) {
    Enabled(s, m) && DeleteGuarded(s, m) && (m.ConfirmSend? ==> Justified(s, s.sends[m.t].id))
  }

  // ---- moves of the server

  /** What a server move leaves as it was for the client. */
  ghost predicate ServerMove(s: World, s': World) {
    && s'.h == s.h && s'.generation == s.generation && s'.requests == s.requests && s'.sends == s.sends
    && (forall id :: id in s.created ==> id in s'.created && s'.created[id] == s.created[id])
    && (forall id :: id in s'.alive ==> id in s.alive || id !in s.created)
    && (forall id :: id in s.created && Justified(s, id) ==> Justified(s', id))
  }

  lemma ServerMoveKeeps(s: World, s': World, limit: nat)
    requires Inv(s, limit) && ServerMove(s, s')
    ensures ClientOk(s', limit)
  {
    forall t | t in s'.requests
      ensures RequestOk(s', s'.requests[t])
    {
      assert RequestOk(s, s.requests[t]);
    }
    assert forall t :: t in s'.sends ==> SendOk(s, s.sends[t]);
  }

  lemma QueueExtended(s: World, s': World, e: Event)
    requires ServerOk(s) && s'.queue == s.queue + [e] && EventOk(s', e)
    requires forall id :: id in s.created ==> id in s'.created && s'.created[id] == s.created[id]
    requires forall id :: id in s'.alive ==> id in s.alive || id !in s.created
    requires forall id :: id in s.created && Justified(s, id) ==> Justified(s', id)
    ensures forall i :: 0 <= i < |s'.queue| ==> EventOk(s', s'.queue[i])
  {
    forall i | 0 <= i < |s.queue|
      ensures EventOk(s', s.queue[i])
    {
      assert EventOk(s, s.queue[i]);
    }
  }

  lemma JustifiedLater(s: World, s': World, e: Event, id: MessageId)
    requires Justified(s, id) && s'.queue == s.queue + [e] && !Makes(e, id)
    requires id in s.alive ==> id in s'.alive || Kills(e, id)
    ensures Justified(s', id)
  {
    if !Kills(e, id) && id !in s.alive {
      DoomedLater(s.queue, e, id);
    }
  }

  lemma ServerMovesKeepInv(s: World, m: Move, limit: nat)
    requires Inv(s, limit) && Enabled(s, m)
    requires m.Create? || m.Edit? || m.Delete? || m.DeleteChannel? || m.CreateChannel? || m.TouchChannel?
    ensures Inv(Next(s, m, limit), limit)
  {
    var s' := Next(s, m, limit);
    var e := s'.queue[|s.queue|];
    forall id | id in s.created && Justified(s, id)
      ensures Justified(s', id)
    {
      JustifiedLater(s, s', e, id);
    }
    QueueExtended(s, s', e);
    ServerMoveKeeps(s, s', limit);
  }

  /** A message sent by the client itself is one more message of the server. */
  lemma AcceptKeepsInv(s: World, t: Ticket, id: MessageId, limit: nat)
    requires Inv(s, limit) && Enabled(s, Accept(t, id))
    ensures Inv(Next(s, Accept(t, id), limit), limit)
  {
    var nonce := s.sends[t].nonce;
    ServerMovesKeepInv(s, HistoryProtocol.Create(id, nonce), limit);
    var made := Made(s, id, nonce);
    assert made == Next(s, HistoryProtocol.Create(id, nonce), limit);
    var s' := Next(s, Accept(t, id), limit);
    assert s' == made.(sends := s'.sends);
    SameServer(made, s');
    forall u | u in s'.sends
      ensures SendOk(s', s'.sends[u])
    {
      assert SendOk(made, made.sends[u]);
    }
    forall u | u in s'.requests
      ensures RequestOk(s', s'.requests[u])
    {
      assert RequestOk(made, made.requests[u]);
    }
  }

  // ---- what store operations do to the window

  lemma CreateWindow(h: Hist, m: Message, limit: nat)
    ensures forall x :: x in Msgs(History.Create(h, m, limit)) ==> x in Msgs(h) || Restamped(x, m)
  {
    var (h1, confirmed) := Confirm(h, m.nonce, m);
    if !confirmed && !HasId(Msgs(h), m.id) { AppendWindow(h1, m, limit); }
  }

  lemma AppendWindow(h: Hist, m: Message, limit: nat)
    ensures forall x :: x in Msgs(Append(h, m, limit)) ==> x in Msgs(h) || Restamped(x, m)
  {
    var all := Msgs(h) + [m.(rev := h.rev + 1)];
    assert Msgs(Append(h, m, limit)) == KeepLast(all, limit);
    assert forall x :: x in KeepLast(all, limit) ==> x in all;
  }

  lemma UpdateWindow(h: Hist, id: MessageId, body: nat)
    ensures var s' := Msgs(Update(h, id, (m: Message) => m.(body := body)));
            |s'| == |Msgs(h)| &&
            forall i :: 0 <= i < |s'| ==> s'[i] == Msgs(h)[i] || s'[i] == Msgs(h)[i].(body := body, rev := h.rev + 1)
  {
  }

  lemma MarkWindow(h: Hist, nonce: string)
    ensures var s' := Msgs(MarkFailed(h, nonce));
            |s'| == |Msgs(h)| &&
            forall i :: 0 <= i < |s'| ==>
              s'[i] == Msgs(h)[i] || s'[i] == Msgs(h)[i].(failed := true, pending := false, rev := h.rev + 1)
  {
  }

  lemma RemoveMessages(h: Hist, id: MessageId, limit: nat)
    requires |Msgs(h)| <= limit && id != 0
    ensures var k := IndexOfId(Msgs(h), id);
            Msgs(Remove(h, id, limit)) == if k == |Msgs(h)| then Msgs(h) else AfterRemove(Msgs(h), k, limit)
  {
    hide AfterRemove, Oldest;
  }

  /** Overrunning or not, a removal keeps entries other than the removed one. */
  lemma AfterRemoveEntries(s: seq<Message>, k: nat, limit: nat, x: Message)
    requires k < |s| <= limit && x in AfterRemove(s, k, limit)
    ensures exists q :: 0 <= q < |s| && q != k && s[q] == x
  {
    var r := AfterRemove(s, k, limit);
    var w := Overrun(|s|, k, limit);
    var p :| 0 <= p < |r| && r[p] == x;
    var q := if p < w then p + 1 else if p < k then p else p + 1;
    assert s[q] == x && q != k;
  }

  /** A removal leaves no entry of an id that stands once, and only entries that were there. */
  lemma RemoveWindow(h: Hist, id: MessageId, limit: nat)
    requires |Msgs(h)| <= limit && id != 0
    ensures var s' := Msgs(Remove(h, id, limit));
            forall x :: x in s' ==> x in Msgs(h) && (StandsOnce(h, id) ==> x.id != id)
  {
    hide Remove, AfterRemove;
    var s := Msgs(h);
    var k := IndexOfId(s, id);
    RemoveMessages(h, id, limit);
    if k < |s| {
      forall x | x in AfterRemove(s, k, limit)
        ensures x in s && (StandsOnce(h, id) ==> x.id != id)
      {
        AfterRemoveEntries(s, k, limit, x);
        var q :| 0 <= q < |s| && q != k && s[q] == x;
      }
    }
  }

  /** A message that stands twice outlives the removal. */
  lemma TwiceOutlives(h: Hist, id: MessageId, limit: nat)
    requires |Msgs(h)| <= limit && id != 0 && !StandsOnce(h, id)
    ensures exists x :: x in Msgs(Remove(h, id, limit)) && x.id == id
  {
    var s := Msgs(h);
    var k := IndexOfId(s, id);
    var i, j :| 0 <= i < j < |s| && s[i].id == id && s[j].id == id;
    var r := AfterRemove(s, k, limit);
    assert Msgs(Remove(h, id, limit)) == r;
    assert k < j && r[j - 1] == s[j] && r[j - 1] in r;
  }

  lemma StampedWindow(s: seq<Message>, rev: Rev)
    ensures forall x :: x in Stamp(s, rev) ==> exists y :: y in s && Restamped(x, y)
  {
    forall x | x in Stamp(s, rev)
      ensures exists y :: y in s && Restamped(x, y)
    {
      var i :| 0 <= i < |s| && Stamp(s, rev)[i] == x;
      assert s[i] in s && Restamped(x, s[i]);
    }
  }

  /** SetMessages shows entries of the page, and echoes that were shown before. */
  lemma SetWindow(h: Hist, page: seq<Message>, limit: nat)
    requires limit > 0
    ensures forall x :: x in Msgs(SetMessages(h, page, limit)) ==>
      (x in Msgs(h) && (x.pending || x.failed)) || x in Stamp(page, h.rev)
  {
    var echoes := Echoes(Msgs(h), Nonces(page));
    var all := Stamp(page, h.rev) + echoes;
    EchoesAreEchoes(Msgs(h), Nonces(page));
    SetMessagesWindow(h, page, limit);
    assert forall x :: x in KeepLast(all, limit) ==> x in all;
  }

  lemma BoundedSelects(c: seq<Message>, request: Rev, limit: nat)
    requires limit > 0
    ensures forall x :: x in OlderPage.Bounded(c, request, limit) ==> x in c
  {
    var at: seq<nat>;
    if OlderPage.Count(OlderPage.ProtectedMask(c, request)) < limit {
      at := OlderPage.BoundedWithRoom(c, request, limit);
    } else {
      at := OlderPage.BoundedWithoutRoom(c, request, limit);
    }
  }

  /** Of an older page, a message that is not tombstoned and not shown. */
  ghost predicate PageAddition(h: Hist, page: seq<Message>, y: Message) {
    y in page && y.id !in h.deleted && (y.id != 0 ==> !HasId(Msgs(h), y.id))
  }

  /** An older page adds such messages and nothing else. */
  lemma PrependWindow(h: Hist, page: seq<Message>, request: Rev, limit: nat)
    requires limit > 0 && page != [] && 0 !in h.deleted
    ensures forall x :: x in Msgs(PrependSince(h, page, request, limit)) ==>
      exists y :: Restamped(x, y) && (y in Msgs(h) || PageAddition(h, page, y))
  {
    var c := OlderPage.Combined(page, Msgs(h), h.deleted);
    OlderPage.FreshIds(page, OlderPage.KnownIds(Msgs(h)), h.deleted);
    BoundedSelects(c, request, limit);
    var b := OlderPage.Bounded(c, request, limit);
    StampedWindow(b, h.rev);
    forall x | x in Msgs(PrependSince(h, page, request, limit))
      ensures exists y :: Restamped(x, y) && (y in Msgs(h) || PageAddition(h, page, y))
    {
      var y :| y in b && Restamped(x, y);
      assert y in c;
      assert y.id != 0 && HasId(Msgs(h), y.id) ==> y.id in OlderPage.KnownIds(Msgs(h));
    }
  }

  // ---- what store operations do to the record of deletes

  lemma RemoveBuries(h: Hist, id: MessageId, limit: nat, j: MessageId, request: Rev)
    requires |Msgs(h)| <= limit && Tombstones.CacheOk(h, limit) && id != 0 && request <= h.rev
    requires j == id || Buried(h, j, request)
    ensures Buried(Remove(h, id, limit), j, request)
  {
    var b := Bury(h, id, limit);
    var r := Remove(h, id, limit);
    assert r.deleted == b.deleted && r.pruned == b.pruned;
    if j == id {
      Tombstones.BuryRecalls(h, id, limit, j, h.rev + 1);
    } else if j in h.deleted && h.deleted[j] > request {
      Tombstones.BuryRecalls(h, id, limit, j, h.deleted[j]);
    }
  }

  lemma RequestsKept(s: World, s': World)
    requires RequestsOk(s) && SendsOk(s) && s'.created == s.created && s.h.rev <= s'.h.rev &&
             s.generation <= s'.generation
    requires forall t :: t in s'.requests ==> t in s.requests && s'.requests[t] == s.requests[t]
    requires forall t :: t in s'.sends ==> t in s.sends && s'.sends[t] == s.sends[t]
    requires s'.generation == s.generation ==>
      forall id, r: Rev :: id in s.created && r <= s.h.rev && Covered(s, id, r) ==> Covered(s', id, r)
    ensures RequestsOk(s') && SendsOk(s')
  {
    forall t | t in s'.requests
      ensures RequestOk(s', s'.requests[t])
    {
      var r := s.requests[t];
      assert RequestOk(s, r);
      if r.page.Some? {
        forall m | m in r.page.value
          ensures PageMessageOk(s', r, m)
        {
          assert PageMessageOk(s, r, m);
        }
      }
    }
    assert forall t :: t in s'.sends ==> SendOk(s, s.sends[t]);
  }

  // ---- steps of the store, seen from the world

  lemma OpKeepsStore(h: Hist, op: Op, limit: nat) returns (h': Hist)
    requires limit > 0 && WindowOk(h, limit) && Tombstones.CacheOk(h, limit)
    ensures h' == Apply(h, op, limit) && StoreOk(h, h', limit)
  {
    StepRevision(h, op, limit);
    h' := Tombstones.StepKeeps(h, map[], op, limit);
  }

  lemma CreateStoreOk(h: Hist, m: Message, limit: nat)
    requires limit > 0 && WindowOk(h, limit) && Tombstones.CacheOk(h, limit)
    ensures StoreOk(h, History.Create(h, m, limit), limit)
  {
    var h' := OpKeepsStore(h, OpCreate(m), limit);
    assert h' == History.Create(h, m, limit);
  }

  lemma UpdateStoreOk(h: Hist, id: MessageId, patch: Message -> Message, limit: nat)
    requires limit > 0 && WindowOk(h, limit) && Tombstones.CacheOk(h, limit)
    ensures StoreOk(h, Update(h, id, patch), limit)
    ensures Update(h, id, patch).deleted == h.deleted && Update(h, id, patch).pruned == h.pruned
  {
    var h' := OpKeepsStore(h, OpUpdate(id, patch), limit);
    assert h' == Update(h, id, patch);
  }

  lemma RemoveStoreOk(h: Hist, id: MessageId, limit: nat)
    requires limit > 0 && WindowOk(h, limit) && Tombstones.CacheOk(h, limit)
    ensures StoreOk(h, Remove(h, id, limit), limit)
  {
    var h' := OpKeepsStore(h, OpRemove(id), limit);
    assert h' == Remove(h, id, limit);
  }

  lemma SetStoreOk(h: Hist, page: seq<Message>, limit: nat) returns (h': Hist)
    requires limit > 0 && WindowOk(h, limit) && Tombstones.CacheOk(h, limit)
    ensures h' == SetMessages(h, page, limit) && StoreOk(h, h', limit)
  {
    h' := OpKeepsStore(h, OpSet(page), limit);
  }

  lemma PrependStoreOk(h: Hist, page: seq<Message>, request: Rev, limit: nat) returns (h': Hist)
    requires limit > 0 && WindowOk(h, limit) && Tombstones.CacheOk(h, limit)
    ensures h' == PrependSince(h, page, request, limit) && StoreOk(h, h', limit)
    ensures h'.deleted == h.deleted && h'.pruned == h.pruned
  {
    h' := OpKeepsStore(h, OpPrepend(page, request), limit);
  }

  ghost predicate StoreOk(before: Hist, h: Hist, limit: nat) {
    before.rev <= h.rev && WindowOk(h, limit) && Tombstones.CacheOk(h, limit)
  }

  /** `s'` differs from `s` by one operation on the store, and perhaps by a shorter queue or fewer requests. */
  ghost predicate StoreStep(s: World, s': World, limit: nat) {
    && s'.alive == s.alive && s'.created == s.created && s'.generation == s.generation
    && (forall t :: t in s'.requests ==> t in s.requests && s'.requests[t] == s.requests[t])
    && (forall t :: t in s'.sends ==> t in s.sends && s'.sends[t] == s.sends[t])
    && StoreOk(s.h, s'.h, limit)
  }

  lemma StoreStepKeeps(s: World, s': World, limit: nat)
    requires RequestsOk(s) && SendsOk(s) && StoreStep(s, s', limit)
    requires forall m :: m in Msgs(s'.h) ==> Shown(s', m)
    requires forall id :: id in s'.h.deleted ==> id in s.created && id !in s.alive
    requires forall id, r: Rev :: id in s.created && r <= s.h.rev && Covered(s, id, r) ==> Covered(s', id, r)
    ensures ClientOk(s', limit)
  {
    RequestsKept(s, s');
  }

  // ---- deliveries

  lemma Popped(s: World, s': World)
    requires ServerOk(s) && s.queue != [] && s'.queue == s.queue[1..]
    requires s'.alive == s.alive && s'.created == s.created
    ensures ServerOk(s')
    ensures forall id :: Justified(s, id) && !Kills(s.queue[0], id) ==> Justified(s', id)
  {
    forall id | Justified(s, id) && !Kills(s.queue[0], id)
      ensures Justified(s', id)
    {
      if id !in s.alive { DoomedTail(s.queue, id); }
    }
    forall i | 0 <= i < |s'.queue|
      ensures EventOk(s', s'.queue[i])
    {
      var e := s.queue[i + 1];
      assert EventOk(s, e);
      if e.ECreate? && e.id !in s.alive {
        DoomedAfterCreate(s.queue, e.id, i + 1);
      }
    }
  }

  /** A create, delivered or confirmed by REST, of a message not yet deleted for the client. */
  lemma CreateKeeps(s: World, s': World, m: Message, limit: nat)
    requires limit > 0 && ClientOk(s, limit)
    requires m.id in s.created && Justified(s', m.id)
    requires s'.alive == s.alive && s'.created == s.created && s'.generation == s.generation &&
             s'.requests == s.requests
    requires forall t :: t in s'.sends ==> t in s.sends && s'.sends[t] == s.sends[t]
    requires forall j :: Justified(s, j) ==> Justified(s', j)
    requires s'.h == History.Create(s.h, m, limit)
    ensures ClientOk(s', limit)
  {
    CreateStoreOk(s.h, m, limit);
    assert forall x :: x in Msgs(s'.h) ==> Shown(s', x) by {
      CreateWindow(s.h, m, limit);
      assert forall x :: x in Msgs(s.h) ==> Shown(s, x);
    }
    var gone := Tombstones.CreateLifts(s.h, m, limit);
    LiftCovers(s, s', gone);
    StoreStepKeeps(s, s', limit);
  }

  /** Lifting the tombstones of justified ids uncovers nothing. */
  lemma LiftCovers(s: World, s': World, gone: set<MessageId>)
    requires s'.h.deleted == s.h.deleted - gone && s'.h.pruned == s.h.pruned
    requires forall j :: Justified(s, j) || j in gone ==> Justified(s', j)
    ensures forall id, r: Rev :: Covered(s, id, r) ==> Covered(s', id, r)
  {
  }

  lemma UpdateShown(s: World, s': World, id: MessageId, body: nat)
    requires forall m :: m in Msgs(s.h) ==> Shown(s, m)
    requires s'.created == s.created && forall j :: Justified(s, j) ==> Justified(s', j)
    requires s'.h == Update(s.h, id, (m: Message) => m.(body := body))
    ensures forall m :: m in Msgs(s'.h) ==> Shown(s', m)
  {
    UpdateWindow(s.h, id, body);
    forall x | x in Msgs(s'.h)
      ensures Shown(s', x)
    {
      var i :| 0 <= i < |Msgs(s'.h)| && Msgs(s'.h)[i] == x;
      assert Msgs(s.h)[i] in Msgs(s.h) && Shown(s, Msgs(s.h)[i]);
    }
  }

  lemma UpdateKeeps(s: World, s': World, id: MessageId, body: nat, limit: nat)
    requires limit > 0 && ClientOk(s, limit)
    requires s'.alive == s.alive && s'.created == s.created && s'.generation == s.generation
    requires s'.requests == s.requests && s'.sends == s.sends
    requires forall j :: Justified(s, j) ==> Justified(s', j)
    requires s'.h == Update(s.h, id, (m: Message) => m.(body := body))
    ensures ClientOk(s', limit)
  {
    UpdateStoreOk(s.h, id, (m: Message) => m.(body := body), limit);
    UpdateShown(s, s', id, body);
    LiftCovers(s, s', {});
    StoreStepKeeps(s, s', limit);
  }

  /** A delete applied to the window, by the gateway or by the client's own confirmed delete. */
  lemma RemoveKeeps(s: World, s': World, id: MessageId, limit: nat)
    requires limit > 0 && ClientOk(s, limit)
    requires id in s.created && id !in s.alive && id != 0 && (StandsOnce(s.h, id) || Justified(s', id))
    requires s'.alive == s.alive && s'.created == s.created && s'.generation == s.generation
    requires s'.requests == s.requests && s'.sends == s.sends
    requires forall j :: j != id && Justified(s, j) ==> Justified(s', j)
    requires s'.h == Remove(s.h, id, limit)
    ensures ClientOk(s', limit)
  {
    RemoveStoreOk(s.h, id, limit);
    RemoveShows(s, s', id, limit);
    RemoveCovers(s, s', id, limit);
    BuriedIds(s.h, id, limit);
    StoreStepKeeps(s, s', limit);
  }

  lemma RemoveShows(s: World, s': World, id: MessageId, limit: nat)
    requires WindowInv(s, limit) && id != 0 && (StandsOnce(s.h, id) || Justified(s', id))
    requires s'.created == s.created && s'.h == Remove(s.h, id, limit)
    requires forall j :: j != id && Justified(s, j) ==> Justified(s', j)
    ensures forall x :: x in Msgs(s'.h) ==> Shown(s', x)
  {
    RemoveWindow(s.h, id, limit);
    assert forall x :: x in Msgs(s'.h) ==> Shown(s, x);
  }

  lemma RemoveCovers(s: World, s': World, id: MessageId, limit: nat)
    requires |Msgs(s.h)| <= limit && Tombstones.CacheOk(s.h, limit) && id != 0
    requires forall j :: j != id && Justified(s, j) ==> Justified(s', j)
    requires s'.h == Remove(s.h, id, limit)
    ensures forall j, r: Rev :: r <= s.h.rev && Covered(s, j, r) ==> Covered(s', j, r)
  {
    forall j, r: Rev | r <= s.h.rev && Covered(s, j, r)
      ensures Covered(s', j, r)
    {
      if j == id || Buried(s.h, j, r) {
        RemoveBuries(s.h, id, limit, j, r);
      }
    }
  }

  lemma BuriedIds(h: Hist, id: MessageId, limit: nat)
    requires |Msgs(h)| <= limit
    ensures Remove(h, id, limit).deleted.Keys <= h.deleted.Keys + {id}
  {
  }

  /** The steps that change no message and no tombstone. */
  lemma NothingStored(s: World, s': World, limit: nat)
    requires ClientOk(s, limit) && s'.h == s.h.(rev := s'.h.rev) && s.h.rev <= s'.h.rev
    requires s'.alive == s.alive && s'.created == s.created && s.generation <= s'.generation
    requires forall t :: t in s'.requests ==> t in s.requests && s'.requests[t] == s.requests[t]
    requires forall t :: t in s'.sends ==> t in s.sends && s'.sends[t] == s.sends[t]
    requires forall j :: Justified(s, j) ==> Justified(s', j)
    ensures ClientOk(s', limit)
  {
    RequestsKept(s, s');
  }

  lemma ChannelDeleteKeeps(s: World, s': World, limit: nat)
    requires ClientOk(s, limit) && s'.h == Drop(s.h) && s'.alive == s.alive && s'.created == s.created
    requires s'.generation == s.generation + 1 && s'.requests == s.requests && s'.sends == s.sends
    ensures ClientOk(s', limit)
  {
    RequestsKept(s, s');
  }

  /** What is left to show of a delivery once its event is popped. */
  ghost predicate Delivered(s: World, s': World, limit: nat) {
    && ServerOk(s') && s.queue != [] && s'.queue == s.queue[1..] && |Msgs(s.h)| <= limit
    && s' == Handle(s.(queue := s'.queue), s.queue[0], limit)
    && (forall id :: Justified(s, id) && !Kills(s.queue[0], id) ==> Justified(s', id))
  }

  lemma DeliveredCreate(s: World, s': World, limit: nat)
    requires limit > 0 && ServerOk(s) && ClientOk(s, limit) && Delivered(s, s', limit) && s.queue[0].ECreate?
    ensures ClientOk(s', limit)
  {
    hide History.Create, ClientOk;
    var e := s.queue[0];
    assert EventOk(s, e);
    CreateKeeps(s, s', FromServer(e.id, e.nonce, e.body), limit);
  }

  lemma DeliveredDelete(s: World, s': World, limit: nat)
    requires limit > 0 && ServerOk(s) && ClientOk(s, limit) && Delivered(s, s', limit) && s.queue[0].EDelete?
    requires StandsOnce(s.h, s.queue[0].id) || Justified(s', s.queue[0].id)
    ensures ClientOk(s', limit)
  {
    hide Remove, ClientOk, StandsOnce;
    assert EventOk(s, s.queue[0]);
    RemoveKeeps(s, s', s.queue[0].id, limit);
  }

  lemma DeliveredOther(s: World, s': World, limit: nat)
    requires limit > 0 && ClientOk(s, limit) && Delivered(s, s', limit)
    requires !s.queue[0].ECreate? && !s.queue[0].EDelete?
    ensures ClientOk(s', limit)
  {
    hide Update, ClientOk;
    match s.queue[0]
    case EUpdate(id, body) => UpdateKeeps(s, s', id, body, limit);
    case EChannelDelete => ChannelDeleteKeeps(s, s', limit);
    case EChannelUpsert => NothingStored(s, s', limit);
  }

  lemma DeliverKeepsInv(s: World, limit: nat)
    requires limit > 0 && Inv(s, limit) && Guarded(s, Deliver)
    ensures Inv(Next(s, Deliver, limit), limit)
  {
    var s' := Delivery(s, limit);
    hide ServerOk, WindowInv, CacheInv, RequestsOk, SendsOk, Next, Handle;
    Popped(s, s');
    if s.queue[0].ECreate? {
      DeliveredCreate(s, s', limit);
    } else if s.queue[0].EDelete? {
      DeliveredDelete(s, s', limit);
    } else {
      DeliveredOther(s, s', limit);
    }
  }

  // ---- page completions

  /** A page message that is not tombstoned, in an accepted and unpruned completion, is justified. */
  lemma PageJustified(s: World, r: Request, m: Message)
    requires RequestOk(s, r) && r.page.Some? && m in r.page.value
    requires s.generation == r.generation && !PrunedSince(s.h, r.revision) && m.id !in s.h.deleted
    ensures Shown(s, m)
  {
    assert PageMessageOk(s, r, m);
  }

  lemma MergedShown(s: World, r: Request, x: Message)
    requires RequestOk(s, r) && r.page.Some? && 0 !in s.h.deleted
    requires Accepted(s, r) && !PrunedSince(s.h, r.revision)
    requires forall m :: m in Msgs(s.h) ==> Shown(s, m)
    requires x in InitialPage.Merge(s.h, r.page.value, r.revision)
    ensures Shown(s, x) && x.id !in s.h.deleted
  {
    var page := r.page.value;
    InitialPage.MergeIds(s.h, page, r.revision);
    var live := InitialPage.LiveById(Msgs(s.h));
    if x !in Msgs(s.h) {
      var m :| m in page && m.id == x.id && x == InitialPage.Newer(m, live, r.revision);
      assert x == m;
      PageJustified(s, r, m);
    }
  }

  /** What the window shows after a page, and that the record of deletes is as before. */
  ghost predicate PageApplied(s: World, h': Hist, limit: nat) {
    && StoreOk(s.h, h', limit)
    && (forall x :: x in Msgs(h') ==> Shown(s, x))
    && h'.deleted == s.h.deleted && h'.pruned == s.h.pruned
  }

  lemma InitialShown(s: World, r: Request, h': Hist, limit: nat)
    requires limit > 0 && WindowInv(s, limit) && CacheInv(s, limit)
    requires RequestOk(s, r) && r.page.Some? && Accepted(s, r) && !PrunedSince(s.h, r.revision)
    requires h' == SetMessages(s.h, InitialPage.Merge(s.h, r.page.value, r.revision), limit)
    ensures forall x :: x in Msgs(h') ==> Shown(s, x)
    ensures h'.deleted == s.h.deleted && h'.pruned == s.h.pruned
  {
    var merged := InitialPage.Merge(s.h, r.page.value, r.revision);
    forall m | m in merged
      ensures Shown(s, m) && m.id !in s.h.deleted
    {
      MergedShown(s, r, m);
    }
    SetWindow(s.h, merged, limit);
    StampedWindow(merged, s.h.rev);
    forall x | x in Msgs(h')
      ensures Shown(s, x)
    {
      if x !in Msgs(s.h) {
        var y :| y in merged && Restamped(x, y);
        assert Shown(s, y);
      }
    }
  }

  lemma OlderShown(s: World, r: Request, h': Hist, limit: nat)
    requires limit > 0 && WindowInv(s, limit) && CacheInv(s, limit)
    requires RequestOk(s, r) && r.page.Some? && Accepted(s, r) && !PrunedSince(s.h, r.revision)
    requires h' == PrependSince(s.h, r.page.value, r.revision, limit)
    ensures forall x :: x in Msgs(h') ==> Shown(s, x)
  {
    var page := r.page.value;
    if page != [] {
      PrependWindow(s.h, page, r.revision, limit);
      forall x | x in Msgs(h')
        ensures Shown(s, x)
      {
        var y :| Restamped(x, y) && (y in Msgs(s.h) || PageAddition(s.h, page, y));
        if y !in Msgs(s.h) { PageJustified(s, r, y); }
        assert Shown(s, y);
      }
    }
  }

  lemma InitialApplied(s: World, r: Request, limit: nat) returns (h': Hist)
    requires limit > 0 && WindowInv(s, limit) && CacheInv(s, limit)
    requires RequestOk(s, r) && r.page.Some? && Accepted(s, r) && !PrunedSince(s.h, r.revision)
    ensures h' == SetMessages(s.h, InitialPage.Merge(s.h, r.page.value, r.revision), limit)
    ensures PageApplied(s, h', limit)
  {
    h' := SetStoreOk(s.h, InitialPage.Merge(s.h, r.page.value, r.revision), limit);
    InitialShown(s, r, h', limit);
  }

  lemma OlderApplied(s: World, r: Request, limit: nat) returns (h': Hist)
    requires limit > 0 && WindowInv(s, limit) && CacheInv(s, limit)
    requires RequestOk(s, r) && r.page.Some? && Accepted(s, r) && !PrunedSince(s.h, r.revision)
    ensures h' == PrependSince(s.h, r.page.value, r.revision, limit)
    ensures PageApplied(s, h', limit)
  {
    h' := PrependStoreOk(s.h, r.page.value, r.revision, limit);
    OlderShown(s, r, h', limit);
  }

  lemma PageAppliedKeeps(s: World, s': World, limit: nat)
    requires ClientOk(s, limit) && PageApplied(s, s'.h, limit) && s' == s.(h := s'.h, gate := s'.gate)
    ensures ClientOk(s', limit)
  {
    LiftCovers(s, s', {});
    StoreStepKeeps(s, s', limit);
  }

  lemma InstallKeeps(s: World, r: Request, limit: nat) returns (s': World)
    requires limit > 0 && ClientOk(s, limit)
    requires RequestOk(s, r) && r.page.Some?
    ensures s' == Install(s, r, r.page.value, limit) && ClientOk(s', limit)
    ensures s'.alive == s.alive && s'.created == s.created && s'.queue == s.queue
  {
    s' := Installation(s, r, r.page.value, limit);
    hide Install, PrependSince, SetMessages;
    if !Accepted(s, r) || PrunedSince(s.h, r.revision) {
      NothingStored(s, s', limit);
    } else {
      var h';
      if r.older { h' := OlderApplied(s, r, limit); } else { h' := InitialApplied(s, r, limit); }
      PageAppliedKeeps(s, s', limit);
    }
  }

  // ---- every move, every run

  lemma SameServer(s: World, s': World)
    requires ServerOk(s) && s'.alive == s.alive && s'.created == s.created && s'.queue == s.queue
    ensures ServerOk(s')
  {
    forall i | 0 <= i < |s'.queue|
      ensures EventOk(s', s'.queue[i])
    {
      assert EventOk(s, s.queue[i]);
    }
  }

  lemma ConfirmDeleteKeepsInv(s: World, id: MessageId, limit: nat)
    requires limit > 0 && Inv(s, limit) && Guarded(s, ConfirmDelete(id))
    ensures Inv(Next(s, ConfirmDelete(id), limit), limit)
  {
    var s' := Next(s, ConfirmDelete(id), limit);
    SameServer(s, s');
    RemoveKeeps(s, s', id, limit);
  }

  lemma ConfirmSendKeepsInv(s: World, t: Ticket, limit: nat)
    requires limit > 0 && Inv(s, limit) && Guarded(s, ConfirmSend(t))
    ensures Inv(Next(s, ConfirmSend(t), limit), limit)
  {
    var s' := Next(s, ConfirmSend(t), limit);
    SameServer(s, s');
    assert SendOk(s, s.sends[t]);
    CreateKeeps(s, s', FromServer(s.sends[t].id, s.sends[t].nonce, 0), limit);
  }

  /** Local echoes come and fail without touching what the invariant speaks of. */
  lemma EchoKeeps(s: World, s': World, limit: nat)
    requires limit > 0 && Inv(s, limit) && StoreOk(s.h, s'.h, limit)
    requires s' == s.(h := s'.h, sends := s'.sends)
    requires forall x :: x in Msgs(s'.h) ==> x.id == 0 || exists y :: y in Msgs(s.h) && y.id == x.id
    requires s'.h.deleted == s.h.deleted && s'.h.pruned == s.h.pruned
    requires forall t :: t in s'.sends ==> if t in s.sends then s'.sends[t] == s.sends[t] else SendOk(s', s'.sends[t])
    ensures Inv(s', limit)
  {
    SameServer(s, s');
    forall x | x in Msgs(s'.h)
      ensures Shown(s', x)
    {
      if x.id != 0 {
        var y :| y in Msgs(s.h) && y.id == x.id;
        assert Shown(s, y);
      }
    }
    var kept := s.(h := s'.h);
    LiftCovers(s, kept, {});
    StoreStepKeeps(s, kept, limit);
    assert forall t :: t in s'.requests ==> RequestOk(kept, s'.requests[t]);
    forall t | t in s'.requests
      ensures RequestOk(s', s'.requests[t])
    {
      PageStillOk(kept, s', s'.requests[t]);
    }
    forall t | t in s'.sends
      ensures SendOk(s', s'.sends[t])
    {
      if t in s.sends { assert SendOk(kept, s.sends[t]); }
    }
  }

  lemma EchoShown(h: Hist, nonce: string, limit: nat) returns (h': Hist)
    requires limit > 0 && WindowOk(h, limit) && Tombstones.CacheOk(h, limit)
    ensures h' == Append(h, Echo(nonce), limit) && StoreOk(h, h', limit)
    ensures h'.deleted == h.deleted && h'.pruned == h.pruned
    ensures forall x :: x in Msgs(h') ==> x.id == 0 || x in Msgs(h)
  {
    h' := OpKeepsStore(h, OpAppend(Echo(nonce)), limit);
    AppendWindow(h, Echo(nonce), limit);
  }

  lemma SendKeepsInv(s: World, t: Ticket, nonce: string, limit: nat)
    requires limit > 0 && Inv(s, limit) && Enabled(s, Send(t, nonce))
    ensures Inv(Next(s, Send(t, nonce), limit), limit)
  {
    var h' := EchoShown(s.h, nonce, limit);
    hide Append, ServerOk, CacheInv, RequestsOk, SendsOk;
    EchoKeeps(s, Next(s, Send(t, nonce), limit), limit);
  }

  lemma EchoFailed(h: Hist, nonce: string, limit: nat) returns (h': Hist)
    requires limit > 0 && WindowOk(h, limit) && Tombstones.CacheOk(h, limit)
    ensures h' == MarkFailed(h, nonce) && StoreOk(h, h', limit)
    ensures h'.deleted == h.deleted && h'.pruned == h.pruned
    ensures forall x :: x in Msgs(h') ==> exists y :: y in Msgs(h) && y.id == x.id
  {
    h' := OpKeepsStore(h, OpMarkFailed(nonce), limit);
    MarkWindow(h, nonce);
    forall x | x in Msgs(h')
      ensures exists y :: y in Msgs(h) && y.id == x.id
    {
      var i :| 0 <= i < |Msgs(h')| && Msgs(h')[i] == x;
      assert Msgs(h)[i] in Msgs(h);
    }
  }

  lemma FailSendKeepsInv(s: World, t: Ticket, limit: nat)
    requires limit > 0 && Inv(s, limit) && Enabled(s, FailSend(t))
    ensures Inv(Next(s, FailSend(t), limit), limit)
  {
    var h' := EchoFailed(s.h, s.sends[t].nonce, limit);
    SendFails(s, t, limit);
    hide Next, MarkFailed, ServerOk, CacheInv, RequestsOk, SendsOk, Echo;
    EchoKeeps(s, Next(s, FailSend(t), limit), limit);
  }

  lemma SendFails(s: World, t: Ticket, limit: nat)
    requires |Msgs(s.h)| <= limit && Enabled(s, FailSend(t))
    ensures Next(s, FailSend(t), limit) == s.(h := MarkFailed(s.h, s.sends[t].nonce), sends := s.sends - {t})
  {
    hide MarkFailed, Handle, Install, Abort, Append, History.Create, Remove, BeginLoad, BeginOlderLoad, Made;
  }

  lemma CompleteKeepsInv(s: World, t: Ticket, limit: nat)
    requires limit > 0 && Inv(s, limit) && Enabled(s, Complete(t))
    ensures Inv(Next(s, Complete(t), limit), limit)
  {
    var s1 := s.(requests := s.requests - {t});
    assert RequestOk(s, s.requests[t]);
    NothingStored(s, s1, limit);
    PageStillOk(s, s1, s.requests[t]);
    var s' := InstallKeeps(s1, s.requests[t], limit);
    SameServer(s, s');
    assert s' == Next(s, Complete(t), limit);
  }

  lemma PageStillOk(s: World, s1: World, r: Request)
    requires RequestOk(s, r) && s1 == s.(requests := s1.requests, sends := s1.sends)
    ensures RequestOk(s1, r)
  {
    if r.page.Some? {
      forall m | m in r.page.value
        ensures PageMessageOk(s1, r, m)
      {
        assert PageMessageOk(s, r, m);
      }
    }
  }

  /** A new request, or one that now has its page. */
  lemma RequestAdded(s: World, s': World, t: Ticket, limit: nat)
    requires ClientOk(s, limit) && s' == s.(gate := s'.gate, requests := s'.requests)
    requires t in s'.requests && s'.requests == s.requests[t := s'.requests[t]] && RequestOk(s', s'.requests[t])
    ensures ClientOk(s', limit)
  {
    forall u | u in s'.requests
      ensures RequestOk(s', s'.requests[u])
    {
      if u != t {
        assert RequestOk(s, s.requests[u]);
        PageStillOk(s, s.(requests := s'.requests), s.requests[u]);
      }
    }
    assert forall u :: u in s'.sends ==> SendOk(s, s.sends[u]);
  }

  lemma LoadKeepsInv(s: World, m: Move, limit: nat)
    requires limit > 0 && Inv(s, limit) && Enabled(s, m) && (m.Load? || m.LoadOlder?)
    ensures Inv(Next(s, m, limit), limit)
  {
    var s' := Loading(s, m, limit);
    hide Next, ServerOk, WindowInv, CacheInv, RequestsOk, SendsOk;
    SameServer(s, s');
    if m.t in s'.requests {
      RequestAdded(s, s', m.t, limit);
    } else {
      NothingStored(s, s', limit);
    }
  }

  lemma CaptureKeepsInv(s: World, t: Ticket, page: seq<Message>, limit: nat)
    requires limit > 0 && Inv(s, limit) && Enabled(s, Capture(t, page))
    ensures Inv(Next(s, Capture(t, page), limit), limit)
  {
    var s' := Next(s, Capture(t, page), limit);
    SameServer(s, s');
    assert RequestOk(s, s.requests[t]);
    RequestAdded(s, s', t, limit);
  }

  lemma QuietMovesKeepInv(s: World, m: Move, limit: nat)
    requires limit > 0 && Inv(s, limit) && Enabled(s, m) && (m.Elsewhere? || m.Fail?)
    ensures Inv(Next(s, m, limit), limit)
  {
    hide History.Create, Remove, Append, MarkFailed, Handle, Install, BeginLoad, BeginOlderLoad, Made;
    hide ServerOk, CacheInv, RequestsOk, SendsOk;
    var s' := Next(s, m, limit);
    SameServer(s, s');
    NothingStored(s, s', limit);
  }

  lemma NextKeepsInv(s: World, m: Move, limit: nat)
    requires limit > 0 && Inv(s, limit) && Guarded(s, m)
    ensures Inv(Next(s, m, limit), limit)
  {
    match m
    case Deliver => DeliverKeepsInv(s, limit);
    case ConfirmDelete(id) => ConfirmDeleteKeepsInv(s, id, limit);
    case ConfirmSend(t) => ConfirmSendKeepsInv(s, t, limit);
    case Send(t, nonce) => SendKeepsInv(s, t, nonce, limit);
    case FailSend(t) => FailSendKeepsInv(s, t, limit);
    case Accept(t, id) => AcceptKeepsInv(s, t, id, limit);
    case Elsewhere(_) => QuietMovesKeepInv(s, m, limit);
    case Fail(_) => QuietMovesKeepInv(s, m, limit);
    case Load(_, _) => LoadKeepsInv(s, m, limit);
    case LoadOlder(_) => LoadKeepsInv(s, m, limit);
    case Capture(t, page) => CaptureKeepsInv(s, t, page, limit);
    case Complete(t) => CompleteKeepsInv(s, t, limit);
    case _ => ServerMovesKeepInv(s, m, limit);
  }

  // ---- runs

  ghost predicate GuardedRun(s: World, moves: seq<Move>, limit: nat)
    requires limit > 0 && |Msgs(s.h)| <= limit
    decreases |moves|
  {
    moves != [] ==>
      Guarded(s, moves[0]) &&
      (BoundKept(s, moves[0], limit); GuardedRun(Next(s, moves[0], limit), moves[1..], limit))
  }

  lemma {:induction false} RunKeepsInv(s: World, moves: seq<Move>, limit: nat)
    requires limit > 0 && Inv(s, limit) && GuardedRun(s, moves, limit)
    ensures EnabledRun(s, moves, limit) && Inv(After(s, moves, limit), limit)
    decreases |moves|
  {
    if moves != [] {
      NextKeepsInv(s, moves[0], limit);
      BoundKept(s, moves[0], limit);
      RunKeepsInv(Next(s, moves[0], limit), moves[1..], limit);
    }
  }

  lemma InvShowsNoGhosts(s: World, limit: nat)
    requires WindowInv(s, limit)
    ensures NoGhosts(s)
  {
    assert forall m :: m in Msgs(s.h) ==> Shown(s, m);
  }

  /** Every message shown after a guarded run is alive on the server, or its delete is still queued. */
  lemma GuardedRunsShowNoGhosts(moves: seq<Move>, limit: nat)
    requires limit > 0 && GuardedRun(INIT, moves, limit)
    ensures EnabledRun(INIT, moves, limit) && NoGhosts(After(INIT, moves, limit))
  {
    RunKeepsInv(INIT, moves, limit);
    InvShowsNoGhosts(After(INIT, moves, limit), limit);
  }

  /** Once the queue is empty, everything shown is alive. */
  lemma DrainedRunsShowLiveMessages(moves: seq<Move>, limit: nat)
    requires limit > 0 && GuardedRun(INIT, moves, limit) && EnabledRun(INIT, moves, limit)
    requires After(INIT, moves, limit).queue == []
    ensures forall m :: m in Msgs(After(INIT, moves, limit).h) && m.id != 0 ==> m.id in After(INIT, moves, limit).alive
  {
    RunKeepsInv(INIT, moves, limit);
    var s := After(INIT, moves, limit);
    assert forall m :: m in Msgs(s.h) ==> Shown(s, m);
  }

  // ---- the guards are exact

  /** A delivered delete breaks the promise exactly when its message stands twice and no
      event still to come accounts for it. */
  lemma DeleteShowsNoGhostIff(s: World, limit: nat)
    requires limit > 0 && Inv(s, limit) && s.queue != [] && s.queue[0].EDelete?
    ensures var id := s.queue[0].id;
            var s' := Next(s, Deliver, limit);
            NoGhosts(s') <==> StandsOnce(s.h, id) || Justified(s', id)
  {
    assert EventOk(s, s.queue[0]);
    var s' := Next(s, Deliver, limit);
    Popped(s, s');
    RemovalIff(s, s', s.queue[0].id, limit);
  }

  /** The same of a delete the client asked for itself. */
  lemma ConfirmDeleteShowsNoGhostIff(s: World, id: MessageId, limit: nat)
    requires limit > 0 && Inv(s, limit) && Enabled(s, ConfirmDelete(id))
    ensures NoGhosts(Next(s, ConfirmDelete(id), limit)) <==> StandsOnce(s.h, id) || Justified(s, id)
  {
    RemovalIff(s, Next(s, ConfirmDelete(id), limit), id, limit);
  }

  lemma RemovalIff(s: World, s': World, id: MessageId, limit: nat)
    requires WindowInv(s, limit) && id != 0 && s'.h == Remove(s.h, id, limit)
    requires forall j :: j != id && Justified(s, j) ==> Justified(s', j)
    ensures NoGhosts(s') <==> StandsOnce(s.h, id) || Justified(s', id)
  {
    RemoveWindow(s.h, id, limit);
    assert forall x :: x in Msgs(s'.h) ==> Shown(s, x);
    if !StandsOnce(s.h, id) { TwiceOutlives(s.h, id, limit); }
  }

  /** What makes a message stand twice: in a window with distinct ids and no echoes, exactly a
      delete whose shift overruns. */
  lemma DeleteKeepsIdsIff(s: World, limit: nat)
    requires limit > 0 && Inv(s, limit) && s.queue != [] && s.queue[0].EDelete?
    requires DistinctIds(Msgs(s.h)) && forall m :: m in Msgs(s.h) ==> m.id != 0
    ensures var k := IndexOfId(Msgs(s.h), s.queue[0].id);
            DistinctIds(Msgs(Next(s, Deliver, limit).h)) <==> (k < |Msgs(s.h)| ==> ShiftFits(|Msgs(s.h)|, k, limit))
  {
    var w := Msgs(s.h);
    var k := IndexOfId(w, s.queue[0].id);
    assert EventOk(s, s.queue[0]);
    if k < |w| {
      RemoveKeepsIdsDistinctIff(w, k, limit);
      assert Msgs(Next(s, Deliver, limit).h) == AfterRemove(w, k, limit);
    }
  }

  lemma CreateMessages(h: Hist, m: Message, limit: nat) returns (x: Message)
    ensures Restamped(x, m)
    ensures var s := Msgs(h);
            var k := IndexOfNonce(s, m.nonce);
            Msgs(History.Create(h, m, limit)) ==
              if m.nonce != "" && k < |s| then s[k := x]
              else if HasId(s, m.id) then s else KeepLast(s + [x], limit)
  {
    var (h1, confirmed) := Confirm(h, m.nonce, m);
    x := m.(rev := if confirmed then h1.rev else h1.rev + 1);
    ConfirmMessages(h, m);
    hide Confirm;
    if !confirmed && !HasId(Msgs(h), m.id) { assert Msgs(Append(h1, m, limit)) == KeepLast(Msgs(h) + [x], limit); }
  }

  lemma ConfirmMessages(h: Hist, m: Message)
    ensures var s := Msgs(h);
            var k := IndexOfNonce(s, m.nonce);
            var (h1, confirmed) := Confirm(h, m.nonce, m);
            confirmed == (m.nonce != "" && k < |s|) &&
            Msgs(h1) == if confirmed then s[k := m.(rev := h1.rev)] else s
  {
  }

  /** The other way: a create that confirms an echo when a page already brought the message. */
  lemma CreateStandsOnceIff(h: Hist, m: Message, limit: nat)
    requires m.id != 0 && StandsOnce(h, m.id)
    ensures var s := Msgs(h);
            var k := IndexOfNonce(s, m.nonce);
            StandsOnce(History.Create(h, m, limit), m.id) <==>
            (m.nonce == "" || k == |s| || forall i :: 0 <= i < |s| && i != k ==> s[i].id != m.id)
  {
    var s := Msgs(h);
    var k := IndexOfNonce(s, m.nonce);
    var x := CreateMessages(h, m, limit);
    hide History.Create;
    var w := Msgs(History.Create(h, m, limit));
    if m.nonce != "" && k < |s| {
      if i :| 0 <= i < |s| && i != k && s[i].id == m.id {
        assert w[i].id == m.id && w[k].id == m.id;
      }
    } else if !HasId(s, m.id) {
      assert forall i :: 0 <= i < |w| - 1 ==> w[i] in s;
    }
  }

  /** A create replaces the first entry with its nonce, confirmed or not; otherwise it can only push out the
      oldest. Every other message stays shown exactly when that entry is an echo, the message itself, or
      not its message's only copy. */
  lemma CreateKeepsOthersIff(h: Hist, m: Message, limit: nat)
    requires 0 < limit && |Msgs(h)| <= limit
    ensures var s := Msgs(h);
            var k := IndexOfNonce(s, m.nonce);
            (forall w :: w in s && w.id != 0 && w.id != m.id ==> HasId(Msgs(History.Create(h, m, limit)), w.id)) <==>
            if m.nonce != "" && k < |s| then Spared(s, k, m.id)
            else HasId(s, m.id) || |s| < limit || Spared(s, 0, m.id)
  {
    var s := Msgs(h);
    var k := IndexOfNonce(s, m.nonce);
    var x := CreateMessages(h, m, limit);
    hide History.Create;
    var w := Msgs(History.Create(h, m, limit));
    if m.nonce != "" && k < |s| {
      ReplacementSpares(s, k, x);
    } else if !HasId(s, m.id) && |s| == limit {
      PushSpares(s, x);
      assert w == s[1..] + [x];
    } else {
      assert forall i :: 0 <= i < |s| ==> w[i] == s[i];
    }
  }

  /** Losing the entry loses no message but `id`. */
  ghost predicate Spared(s: seq<Message>, k: nat, id: MessageId)
    requires k < |s|
  {
    s[k].id == 0 || s[k].id == id || exists i :: 0 <= i < |s| && i != k && s[i].id == s[k].id
  }

  lemma ReplacementSpares(s: seq<Message>, k: nat, x: Message)
    requires k < |s|
    ensures (forall w :: w in s && w.id != 0 && w.id != x.id ==> HasId(s[k := x], w.id)) <==> Spared(s, k, x.id)
  {
    var r := s[k := x];
    if Spared(s, k, x.id) {
      forall w | w in s && w.id != 0 && w.id != x.id
        ensures HasId(r, w.id)
      {
        var i :| 0 <= i < |s| && s[i] == w;
        var j :| 0 <= j < |s| && j != k && s[j].id == w.id;
        assert r[j].id == w.id;
      }
    } else {
      assert s[k] in s && !HasId(r, s[k].id);
    }
  }

  lemma PushSpares(s: seq<Message>, x: Message)
    requires s != []
    ensures (forall w :: w in s && w.id != 0 && w.id != x.id ==> HasId(s[1..] + [x], w.id)) <==> Spared(s, 0, x.id)
  {
    var r := s[1..] + [x];
    assert forall i :: 0 < i < |s| ==> r[i - 1] == s[i];
    if Spared(s, 0, x.id) {
      forall w | w in s && w.id != 0 && w.id != x.id
        ensures HasId(r, w.id)
      {
        var i :| 0 <= i < |s| && s[i] == w;
        var j :| 0 < j < |s| && s[j].id == w.id;
        assert r[j - 1].id == w.id;
      }
    } else {
      assert s[0] in s && !HasId(r, s[0].id);
    }
  }

  /** A confirmed send keeps the promise exactly when the message's delete was not applied yet. */
  lemma ConfirmSendIsSafeIff(s: World, t: Ticket, limit: nat)
    requires limit > 0 && Inv(s, limit) && Enabled(s, ConfirmSend(t))
    ensures NoGhosts(Next(s, ConfirmSend(t), limit)) <==> Justified(s, s.sends[t].id)
  {
    var s' := Next(s, ConfirmSend(t), limit);
    if Justified(s, s.sends[t].id) {
      ConfirmSendKeepsInv(s, t, limit);
      assert forall m :: m in Msgs(s'.h) ==> Shown(s', m);
    } else {
      CreateShows(s.h, FromServer(s.sends[t].id, s.sends[t].nonce, 0), limit);
    }
  }

  /** Confirmed, present or appended: after a create the id is shown. */
  lemma CreateShows(h: Hist, m: Message, limit: nat)
    requires limit > 0
    ensures exists x :: x in Msgs(History.Create(h, m, limit)) && x.id == m.id
  {
    var s := Msgs(h);
    var w := Msgs(History.Create(h, m, limit));
    var (h1, confirmed) := Confirm(h, m.nonce, m);
    if confirmed {
      var k := IndexOfNonce(s, m.nonce);
      assert w[k].id == m.id && w[k] in w;
    } else if HasId(s, m.id) {
      var k :| 0 <= k < |s| && s[k].id == m.id;
      assert w[k] in w;
    } else {
      assert w[|w| - 1].id == m.id && w[|w| - 1] in w;
    }
  }

  // ---- the promise over runs

  /** A move keeps the promise exactly when it is guarded. */
  lemma StepShowsNoGhostsIff(s: World, m: Move, limit: nat)
    requires limit > 0 && Inv(s, limit) && Enabled(s, m)
    ensures NoGhosts(Next(s, m, limit)) <==> Guarded(s, m)
  {
    if Guarded(s, m) {
      NextKeepsInv(s, m, limit);
      InvShowsNoGhosts(Next(s, m, limit), limit);
    } else if m.Deliver? {
      DeleteShowsNoGhostIff(s, limit);
    } else if m.ConfirmDelete? {
      ConfirmDeleteShowsNoGhostIff(s, m.id, limit);
    } else {
      ConfirmSendIsSafeIff(s, m.t, limit);
    }
  }

  /** Nothing deleted is shown at any moment of the run, before its first move and after each. */
  ghost predicate NeverShowsGhosts(s: World, moves: seq<Move>, limit: nat)
    requires limit > 0 && |Msgs(s.h)| <= limit && EnabledRun(s, moves, limit)
    decreases |moves|
  {
    NoGhosts(s) &&
    (moves != [] ==>
       (BoundKept(s, moves[0], limit); NeverShowsGhosts(Next(s, moves[0], limit), moves[1..], limit)))
  }

  lemma {:induction false} RunShowsNoGhostsIff(s: World, moves: seq<Move>, limit: nat)
    requires limit > 0 && Inv(s, limit) && EnabledRun(s, moves, limit)
    ensures NeverShowsGhosts(s, moves, limit) <==> GuardedRun(s, moves, limit)
    decreases |moves|
  {
    InvShowsNoGhosts(s, limit);
    if moves != [] {
      var m := moves[0];
      hide Inv, Next, Enabled, Guarded, NoGhosts;
      assert Enabled(s, m) && |Msgs(s.h)| <= limit;
      BoundKept(s, m, limit);
      StepShowsNoGhostsIff(s, m, limit);
      if Guarded(s, m) {
        NextKeepsInv(s, m, limit);
        RunShowsNoGhostsIff(Next(s, m, limit), moves[1..], limit);
      }
    }
  }

  /** Of all runs from the start, those that never show a deleted message are exactly the guarded ones. */
  lemma NeverShowsGhostsIff(moves: seq<Move>, limit: nat)
    requires limit > 0 && EnabledRun(INIT, moves, limit)
    ensures NeverShowsGhosts(INIT, moves, limit) <==> GuardedRun(INIT, moves, limit)
  {
    RunShowsNoGhostsIff(INIT, moves, limit);
  }

  // ---- what the client could check

  /** The check a page goes through, made for a send: same lifetime, no tombstone of the
      message, and none forgotten since. */
  predicate SendChecksOut(s: World, r: Sent) {
    r.generation == s.generation && !PrunedSince(s.h, r.revision) && r.id !in s.h.deleted
  }

  /** With that check a confirmation shows no ghost. */
  lemma CheckedSendIsSafe(s: World, t: Ticket, limit: nat)
    requires limit > 0 && Inv(s, limit) && Enabled(s, ConfirmSend(t)) && SendChecksOut(s, s.sends[t])
    ensures Justified(s, s.sends[t].id) && NoGhosts(Next(s, ConfirmSend(t), limit))
  {
    assert SendOk(s, s.sends[t]);
    ConfirmSendIsSafeIff(s, t, limit);
  }

  /** That check in place of the condition on the server's state. */
  ghost predicate Checked(s: World, m: Move) {
    Enabled(s, m) && DeleteGuarded(s, m) && (m.ConfirmSend? ==> SendChecksOut(s, s.sends[m.t]))
  }

  ghost predicate CheckedRun(s: World, moves: seq<Move>, limit: nat)
    requires limit > 0 && |Msgs(s.h)| <= limit
    decreases |moves|
  {
    moves != [] ==>
      Checked(s, moves[0]) &&
      (BoundKept(s, moves[0], limit); CheckedRun(Next(s, moves[0], limit), moves[1..], limit))
  }

  lemma {:induction false} CheckedIsGuarded(s: World, moves: seq<Move>, limit: nat)
    requires limit > 0 && Inv(s, limit) && CheckedRun(s, moves, limit)
    ensures GuardedRun(s, moves, limit)
    decreases |moves|
  {
    if moves != [] {
      var m := moves[0];
      if m.ConfirmSend? { CheckedSendIsSafe(s, m.t, limit); }
      NextKeepsInv(s, m, limit);
      BoundKept(s, m, limit);
      CheckedIsGuarded(Next(s, m, limit), moves[1..], limit);
    }
  }

  /** Checking sends as pages are checked, the promise holds in every run whose deletes keep it. */
  lemma CheckedRunsShowNoGhosts(moves: seq<Move>, limit: nat)
    requires limit > 0 && CheckedRun(INIT, moves, limit)
    ensures EnabledRun(INIT, moves, limit) && NoGhosts(After(INIT, moves, limit))
  {
    CheckedIsGuarded(INIT, moves, limit);
    GuardedRunsShowNoGhosts(moves, limit);
  }
}
