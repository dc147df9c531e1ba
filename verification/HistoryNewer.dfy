/** A page that completes never takes the content of a shown message back to an older version.

    Nothing here depends on the guards of HistorySafety: ghosts and repeated entries are
    allowed. What it takes is that repeated entries of a message agree on its content. */
module HistoryNewer {
  import opened Collections
  import opened Messages
  import opened History
  import opened HistoryProtocol
  import opened HistorySafety
  import InitialPage
  import OlderPage

  // ---- no version ahead of the server, no page behind the window

  /** `body` is a version the server has reached. */
  ghost predicate Reached(s: World, id: MessageId, body: nat) {
    id in s.created && (id in s.alive ==> body <= s.alive[id])
  }

  ghost predicate EntryReached(s: World, m: Message) { m.id == 0 || Reached(s, m.id, m.body) }

  ghost predicate EventReached(s: World, e: Event) {
    match e
    case ECreate(id, _, body) => Reached(s, id, body)
    case EUpdate(id, body) => Reached(s, id, body)
    case _ => true
  }

  /** A page of the current lifetime is at least as new as what was shown when it was requested. */
  ghost predicate NotBehind(h: Hist, page: seq<Message>, request: Rev) {
    forall m, w :: m in page && w in Msgs(h) && w.id == m.id && w.rev <= request ==> w.body <= m.body
  }

  ghost predicate PageReached(s: World, r: Request) {
    && r.revision <= s.h.rev && r.generation <= s.generation
    && (r.page.Some? ==> forall m :: m in r.page.value ==> Reached(s, m.id, m.body) && !m.pending && !m.failed)
    && (r.page.Some? && r.generation == s.generation ==> NotBehind(s.h, r.page.value, r.revision))
  }

  ghost predicate SendReached(s: World, r: Sent) { r.id == 0 || r.id in s.created }

  ghost predicate QueueReached(s: World) {
    forall i :: 0 <= i < |s.queue| ==> EventReached(s, s.queue[i])
  }

  ghost predicate RequestsReached(s: World) {
    forall t :: t in s.requests ==> PageReached(s, s.requests[t])
  }

  ghost predicate Versions(s: World) {
    && 0 !in s.created && s.alive.Keys <= s.created.Keys
    && (forall w :: w in Msgs(s.h) ==> EntryReached(s, w))
    && QueueReached(s)
    && RequestsReached(s)
    && (forall t :: t in s.sends ==> SendReached(s, s.sends[t]))
  }

  // ---- moves of the server only advance versions

  lemma ServerMovesKeepVersions(s: World, m: Move, limit: nat)
    requires Versions(s) && Enabled(s, m) && |Msgs(s.h)| <= limit
    requires m.Create? || m.Edit? || m.Delete? || m.DeleteChannel? || m.CreateChannel? || m.TouchChannel? || m.Accept?
    ensures Versions(Next(s, m, limit))
  {
    var s' := Next(s, m, limit);
    assert forall id, body :: Reached(s, id, body) ==> Reached(s', id, body);
    forall i | 0 <= i < |s'.queue|
      ensures EventReached(s', s'.queue[i])
    {
      if i < |s.queue| { assert EventReached(s, s.queue[i]); }
    }
    forall t | t in s'.requests
      ensures PageReached(s', s'.requests[t])
    {
      assert PageReached(s, s.requests[t]);
    }
    assert forall t :: t in s'.sends ==> t in s.sends && SendReached(s, s.sends[t]);
  }

  // ---- moves of the client write under fresh revisions

  /** Entries of `h'` were there, or hold a version the server has reached under a fresh revision. */
  ghost predicate Written(s: World, h': Hist) {
    forall x :: x in Msgs(h') ==> x in Msgs(s.h) || (x.rev > s.h.rev && EntryReached(s, x))
  }

  lemma WritesKeepVersions(s: World, s': World)
    requires Versions(s) && Written(s, s'.h) && s.h.rev <= s'.h.rev && s.generation <= s'.generation
    requires s'.alive == s.alive && s'.created == s.created
    requires s'.queue == s.queue || (s.queue != [] && s'.queue == s.queue[1..])
    requires forall t :: t in s'.requests ==> t in s.requests && s'.requests[t] == s.requests[t]
    requires forall t :: t in s'.sends ==> s'.sends[t].id == 0 || (t in s.sends && s'.sends[t] == s.sends[t])
    ensures Versions(s')
  {
    forall i | 0 <= i < |s'.queue|
      ensures EventReached(s', s'.queue[i])
    {
      assert EventReached(s, s.queue[if s'.queue == s.queue then i else i + 1]);
    }
    forall t | t in s'.requests
      ensures PageReached(s', s'.requests[t])
    {
      assert PageReached(s, s.requests[t]);
    }
    forall t | t in s'.sends
      ensures SendReached(s', s'.sends[t])
    {
      if s'.sends[t].id != 0 { assert SendReached(s, s.sends[t]); }
    }
  }

  lemma CreateWrites(s: World, m: Message, limit: nat)
    requires EntryReached(s, m)
    ensures Written(s, History.Create(s.h, m, limit)) && s.h.rev <= History.Create(s.h, m, limit).rev
  {
    var (h1, confirmed) := Confirm(s.h, m.nonce, m);
    if !confirmed && !HasId(Msgs(s.h), m.id) { AppendWrites(s, h1, m, limit); }
  }

  lemma AppendWrites(s: World, h: Hist, m: Message, limit: nat)
    requires EntryReached(s, m) && Msgs(h) == Msgs(s.h) && s.h.rev <= h.rev
    ensures Written(s, Append(h, m, limit))
  {
    var all := Msgs(h) + [m.(rev := h.rev + 1)];
    assert Msgs(Append(h, m, limit)) == KeepLast(all, limit);
    assert forall x :: x in KeepLast(all, limit) ==> x in all;
  }

  lemma UpdateWrites(s: World, id: MessageId, body: nat)
    requires Reached(s, id, body)
    ensures Written(s, Update(s.h, id, (m: Message) => m.(body := body)))
  {
  }

  lemma MarkWrites(s: World, nonce: string)
    requires forall w :: w in Msgs(s.h) ==> EntryReached(s, w)
    ensures Written(s, MarkFailed(s.h, nonce))
  {
    var k := IndexOfNonce(Msgs(s.h), nonce);
    assert k < |Msgs(s.h)| ==> Msgs(s.h)[k] in Msgs(s.h);
  }

  lemma RemoveWrites(s: World, id: MessageId, limit: nat)
    requires |Msgs(s.h)| <= limit
    ensures Written(s, Remove(s.h, id, limit)) && s.h.rev <= Remove(s.h, id, limit).rev
  {
    if id != 0 { RemoveWindow(s.h, id, limit); }
  }

  lemma NothingWritten(s: World, h': Hist)
    requires Msgs(h') == Msgs(s.h) || Msgs(h') == []
    ensures Written(s, h')
  {
  }

  lemma UpdateRev(h: Hist, id: MessageId, body: nat)
    ensures h.rev <= Update(h, id, (m: Message) => m.(body := body)).rev
  {
  }

  lemma HandleWrites(s: World, e: Event, limit: nat)
    requires EventReached(s, e) && |Msgs(s.h)| <= limit
    ensures Written(s, Handle(s, e, limit).h) && s.h.rev <= Handle(s, e, limit).h.rev
    ensures s.generation <= Handle(s, e, limit).generation
  {
    hide History.Create, Update, Remove, Written;
    match e
    case ECreate(id, nonce, body) => CreateWrites(s, FromServer(id, nonce, body), limit);
    case EUpdate(id, body) => UpdateWrites(s, id, body); UpdateRev(s.h, id, body);
    case EDelete(id) => RemoveWrites(s, id, limit);
    case EChannelDelete => NothingWritten(s, Drop(s.h));
    case EChannelUpsert => NothingWritten(s, s.h);
  }

  lemma DeliverKeepsVersions(s: World, limit: nat)
    requires Versions(s) && s.queue != [] && |Msgs(s.h)| <= limit
    ensures Versions(Next(s, Deliver, limit))
  {
    assert EventReached(s, s.queue[0]);
    var s' := Delivery(s, limit);
    var s1 := s.(queue := s'.queue);
    hide Next, Handle, Versions, Written, EventReached, Msgs;
    assert EventReached(s1, s.queue[0]) by { SameServerReached(s, s1, s.queue[0]); }
    HandleWrites(s1, s.queue[0], limit);
    HandleTouches(s1, s.queue[0], limit);
    assert Written(s, s'.h) by { SameServerWritten(s, s1, s'.h); }
    WritesKeepVersions(s, s');
  }

  lemma SameServerReached(s: World, s1: World, e: Event)
    requires s1 == s.(queue := s1.queue) && EventReached(s, e)
    ensures EventReached(s1, e)
  {
  }

  lemma SameServerWritten(s: World, s1: World, h': Hist)
    requires s1 == s.(queue := s1.queue) && Written(s1, h')
    ensures Written(s, h')
  {
  }

  lemma ClientMoveWrites(s: World, m: Move, limit: nat)
    requires Versions(s) && Enabled(s, m) && |Msgs(s.h)| <= limit
    requires m.ConfirmDelete? || m.Send? || m.ConfirmSend? || m.FailSend? || m.Elsewhere? || m.Fail?
    ensures Written(s, Next(s, m, limit).h) && s.h.rev <= Next(s, m, limit).h.rev
  {
    if m.ConfirmDelete? {
      hide Remove, Written;
      RemoveWrites(s, m.id, limit);
    } else if m.Send? {
      AppendWrites(s, s.h, Echo(m.nonce), limit);
    } else if m.ConfirmSend? {
      assert SendReached(s, s.sends[m.t]);
      hide History.Create, Written, Versions;
      CreateWrites(s, FromServer(s.sends[m.t].id, s.sends[m.t].nonce, 0), limit);
    } else if m.FailSend? {
      MarkWrites(s, s.sends[m.t].nonce);
    } else {
      hide Versions, Written;
      NothingWritten(s, Next(s, m, limit).h);
    }
  }

  lemma ClientMoveTouches(s: World, m: Move, limit: nat) returns (s': World)
    requires Enabled(s, m) && |Msgs(s.h)| <= limit
    requires m.ConfirmDelete? || m.Send? || m.ConfirmSend? || m.FailSend? || m.Elsewhere? || m.Fail?
    ensures s' == Next(s, m, limit)
    ensures s' == s.(h := s'.h, gate := s'.gate, requests := s'.requests, sends := s'.sends)
    ensures forall t :: t in s'.requests ==> t in s.requests && s'.requests[t] == s.requests[t]
    ensures forall t :: t in s'.sends ==> s'.sends[t].id == 0 || (t in s.sends && s'.sends[t] == s.sends[t])
  {
    hide History.Create, Remove, Append, MarkFailed, Handle, Install, BeginLoad, BeginOlderLoad, Made, Msgs;
    s' := Next(s, m, limit);
  }

  lemma ClientMovesKeepVersions(s: World, m: Move, limit: nat)
    requires Versions(s) && Enabled(s, m) && |Msgs(s.h)| <= limit
    requires m.ConfirmDelete? || m.Send? || m.ConfirmSend? || m.FailSend? || m.Elsewhere? || m.Fail?
    ensures Versions(Next(s, m, limit))
  {
    var s' := ClientMoveTouches(s, m, limit);
    hide Next, Versions, Written;
    ClientMoveWrites(s, m, limit);
    WritesKeepVersions(s, s');
  }

  /** A page asked for, or one that has arrived. */
  lemma RequestsKeepVersions(s: World, s': World, t: Ticket)
    requires Versions(s) && s' == s.(gate := s'.gate, requests := s'.requests)
    requires t in s'.requests ==> s'.requests == s.requests[t := s'.requests[t]] && PageReached(s', s'.requests[t])
    requires t !in s'.requests ==> s'.requests == s.requests
    ensures Versions(s')
  {
    forall u | u in s'.requests
      ensures PageReached(s', s'.requests[u])
    {
      if u != t { assert PageReached(s, s.requests[u]); }
    }
    assert forall i :: 0 <= i < |s.queue| ==> EventReached(s, s.queue[i]);
    assert forall u :: u in s.sends ==> SendReached(s, s.sends[u]);
  }

  lemma LoadKeepsVersions(s: World, m: Move, limit: nat)
    requires Versions(s) && Enabled(s, m) && |Msgs(s.h)| <= limit && (m.Load? || m.LoadOlder?)
    ensures Versions(Next(s, m, limit))
  {
    var s' := Loading(s, m, limit);
    hide Next;
    RequestsKeepVersions(s, s', m.t);
  }

  lemma CaptureKeepsVersions(s: World, t: Ticket, page: seq<Message>, limit: nat)
    requires Versions(s) && Enabled(s, Capture(t, page)) && |Msgs(s.h)| <= limit
    ensures Versions(Next(s, Capture(t, page), limit))
  {
    var s' := Next(s, Capture(t, page), limit);
    assert PageReached(s, s.requests[t]);
    RequestsKeepVersions(s, s', t);
  }

  // ---- repeated entries

  /** Entries of one message have the same content. */
  ghost predicate CopiesAgree(h: Hist) {
    forall x, y :: x in Msgs(h) && y in Msgs(h) && x.id == y.id != 0 ==> x.body == y.body
  }

  /** Only local echoes are pending or failed. */
  ghost predicate FlaggedAreEchoes(h: Hist) {
    forall x :: x in Msgs(h) && (x.pending || x.failed) ==> x.id == 0
  }

  ghost predicate Sound(h: Hist) { CopiesAgree(h) && FlaggedAreEchoes(h) }

  /** Content written to entry `k` is what every other entry of the message already has. */
  ghost predicate ReachesAll(s: seq<Message>, k: nat, id: MessageId, body: nat) {
    k < |s| ==> forall i :: 0 <= i < |s| && i != k && s[i].id == id ==> s[i].body == body
  }

  ghost predicate CreateReachesAll(h: Hist, m: Message) {
    m.nonce != "" ==> ReachesAll(Msgs(h), IndexOfNonce(Msgs(h), m.nonce), m.id, m.body)
  }

  ghost predicate UpdateReachesAll(h: Hist, id: MessageId, body: nat) {
    ReachesAll(Msgs(h), IndexOfId(Msgs(h), id), id, body)
  }

  ghost predicate FailsAnEcho(h: Hist, nonce: string) {
    var k := IndexOfNonce(Msgs(h), nonce);
    k < |Msgs(h)| ==> Msgs(h)[k].id == 0
  }

  /** One entry replaced: copies still agree exactly when the new content is everywhere. */
  lemma ReplacedIff(h: Hist, h': Hist, k: nat, m: Message)
    requires Sound(h) && m.id != 0 && k < |Msgs(h)| && Msgs(h') == Msgs(h)[k := m]
    ensures CopiesAgree(h') <==> ReachesAll(Msgs(h), k, m.id, m.body)
  {
    var s := Msgs(h);
    var s' := Msgs(h');
    assert forall i :: 0 <= i < |s| ==> s[i] in s && s'[i] in s';
    assert s'[k] == m;
    if ReachesAll(s, k, m.id, m.body) {
      assert forall x :: x in s' ==> x == m || x in s;
      assert forall x :: x in s' && x.id == m.id ==> x.body == m.body;
    } else {
      var i :| 0 <= i < |s| && i != k && s[i].id == m.id && s[i].body != m.body;
      assert s'[i] == s[i];
    }
  }

  lemma CreateSoundIff(h: Hist, m: Message, limit: nat)
    requires Sound(h) && m.id != 0 && !m.pending && !m.failed
    ensures Sound(History.Create(h, m, limit)) <==> CreateReachesAll(h, m)
  {
    var s := Msgs(h);
    var k := IndexOfNonce(s, m.nonce);
    if m.nonce != "" && k < |s| {
      var m' := m.(rev := h.rev + 1);
      assert Msgs(History.Create(h, m, limit)) == s[k := m'];
      assert forall x :: x in s[k := m'] ==> x == m' || x in s;
      ReplacedIff(h, History.Create(h, m, limit), k, m');
    } else if !HasId(s, m.id) {
      CreateWindow(h, m, limit);
      assert forall x :: x in s ==> x.id != m.id;
    }
  }

  lemma UpdateSoundIff(h: Hist, id: MessageId, body: nat)
    requires Sound(h) && id != 0
    ensures Sound(Update(h, id, (m: Message) => m.(body := body))) <==> UpdateReachesAll(h, id, body)
  {
    var s := Msgs(h);
    var k := IndexOfId(s, id);
    var h' := Update(h, id, (m: Message) => m.(body := body));
    if k < |s| {
      var m' := s[k].(body := body, rev := h.rev + 1);
      assert s[k] in s && Msgs(h') == s[k := m'];
      assert forall x :: x in Msgs(h') ==> x == m' || x in s;
      ReplacedIff(h, h', k, m');
    }
  }

  lemma FailSoundIff(h: Hist, nonce: string)
    requires Sound(h)
    ensures Sound(MarkFailed(h, nonce)) <==> FailsAnEcho(h, nonce)
  {
    var s := Msgs(h);
    var k := IndexOfNonce(s, nonce);
    if k < |s| {
      var m' := s[k].(failed := true, pending := false, rev := h.rev + 1);
      var s' := Msgs(MarkFailed(h, nonce));
      assert s[k] in s && s' == s[k := m'] && s'[k] in s';
      assert forall x :: x in s' ==> x == m' || x in s;
    }
  }

  lemma RemoveSound(h: Hist, id: MessageId, limit: nat)
    requires Sound(h) && |Msgs(h)| <= limit
    ensures Sound(Remove(h, id, limit))
  {
    if id != 0 { RemoveWindow(h, id, limit); }
  }

  lemma AppendEchoSound(h: Hist, nonce: string, limit: nat)
    requires Sound(h)
    ensures Sound(Append(h, Echo(nonce), limit))
  {
    AppendWindow(h, Echo(nonce), limit);
  }

  // ---- pages

  /** A message shown before, if it still is, is shown at that version or a newer one. */
  ghost predicate NothingRolledBack(before: Hist, h: Hist) {
    forall w :: w in Msgs(before) && w.id != 0 && HasId(Msgs(h), w.id) ==>
      exists x :: x in Msgs(h) && x.id == w.id && w.body <= x.body
  }

  /** No entry is at an older version than any entry of its message before. */
  ghost predicate NoEntryOlder(before: Hist, h: Hist) {
    forall w, x :: w in Msgs(before) && x in Msgs(h) && w.id == x.id != 0 ==> w.body <= x.body
  }

  lemma NoEntryOlderSuffices(before: Hist, h: Hist)
    requires NoEntryOlder(before, h)
    ensures NothingRolledBack(before, h)
  {
    forall w | w in Msgs(before) && w.id != 0 && HasId(Msgs(h), w.id)
      ensures exists x :: x in Msgs(h) && x.id == w.id && w.body <= x.body
    {
      var k :| 0 <= k < |Msgs(h)| && Msgs(h)[k].id == w.id;
      assert Msgs(h)[k] in Msgs(h);
    }
  }

  /** What the completion of a page does, from a sound window. */
  ghost predicate PageTaken(s: World, h': Hist) {
    Written(s, h') && Sound(h') && NoEntryOlder(s.h, h') && s.h.rev <= h'.rev
  }

  lemma {:induction false} LiveHolds(current: seq<Message>, w: Message)
    requires w in current && w.id != 0
    ensures w.id in InitialPage.LiveById(current)
  {
    var n := |current| - 1;
    if current[n] != w {
      assert current == current[..n] + [current[n]];
      LiveHolds(current[..n], w);
    }
  }

  /** A message of the merge is no older than any entry shown before. */
  lemma MergedNotBehind(s: World, r: Request, y: Message, w: Message)
    requires Versions(s) && Sound(s.h) && PageReached(s, r) && r.page.Some? && r.generation == s.generation
    requires y in InitialPage.Merge(s.h, r.page.value, r.revision) && y.id != 0
    requires w in Msgs(s.h) && w.id == y.id
    ensures w.body <= y.body
  {
    var page := r.page.value;
    var live := InitialPage.LiveById(Msgs(s.h));
    InitialPage.MergeIds(s.h, page, r.revision);
    if y !in Msgs(s.h) {
      var m :| m in page && m.id == y.id && y == InitialPage.Newer(m, live, r.revision);
      LiveHolds(Msgs(s.h), w);
      assert y == m && live[w.id].rev <= r.revision && live[w.id].body == w.body;
    }
  }

  /** Every message of the merge is confirmed and its version is one the server has reached. */
  lemma MergedReached(s: World, r: Request, y: Message)
    requires Versions(s) && Sound(s.h) && PageReached(s, r) && r.page.Some?
    requires y in InitialPage.Merge(s.h, r.page.value, r.revision)
    ensures EntryReached(s, y) && y.id != 0 && !y.pending && !y.failed
  {
    InitialPage.MergeIds(s.h, r.page.value, r.revision);
    if y !in Msgs(s.h) || InitialPage.Skipped(y, r.revision) {
      var live := InitialPage.LiveById(Msgs(s.h));
      var m :| m in r.page.value && m.id == y.id && y == InitialPage.Newer(m, live, r.revision);
      assert Reached(s, m.id, m.body);
    }
  }

  /** An entry after an initial page: an echo shown before, or a message of the merge restamped. */
  lemma InitialEntry(s: World, r: Request, limit: nat, x: Message) returns (y: Message)
    requires limit > 0 && Versions(s) && Sound(s.h) && PageReached(s, r) && r.page.Some?
    requires x in Msgs(SetMessages(s.h, InitialPage.Merge(s.h, r.page.value, r.revision), limit))
    ensures if x.id == 0 then x in Msgs(s.h) && y == x
            else y in InitialPage.Merge(s.h, r.page.value, r.revision) && Restamped(x, y) && x.rev > s.h.rev &&
                 EntryReached(s, y) && !y.pending && !y.failed
  {
    var merged := InitialPage.Merge(s.h, r.page.value, r.revision);
    SetWindow(s.h, merged, limit);
    if x in Stamp(merged, s.h.rev) {
      StampedWindow(merged, s.h.rev);
      y :| y in merged && Restamped(x, y);
      MergedReached(s, r, y);
    } else {
      y := x;
    }
  }

  lemma InitialTaken(s: World, r: Request, h': Hist, limit: nat)
    requires limit > 0 && Versions(s) && Sound(s.h) && PageReached(s, r) && r.page.Some? && r.generation == s.generation
    requires h' == SetMessages(s.h, InitialPage.Merge(s.h, r.page.value, r.revision), limit)
    ensures PageTaken(s, h')
  {
    hide SetMessages, InitialPage.Merge, Versions, PageReached;
    var merged := InitialPage.Merge(s.h, r.page.value, r.revision);
    forall x | x in Msgs(h')
      ensures x in Msgs(s.h) || (x.rev > s.h.rev && EntryReached(s, x))
      ensures x.pending || x.failed ==> x.id == 0
    {
      var y := InitialEntry(s, r, limit, x);
    }
    forall w, x | w in Msgs(s.h) && x in Msgs(h') && w.id == x.id != 0
      ensures w.body <= x.body
    {
      var y := InitialEntry(s, r, limit, x);
      MergedNotBehind(s, r, y, w);
    }
    forall x, z | x in Msgs(h') && z in Msgs(h') && x.id == z.id != 0
      ensures x.body == z.body
    {
      InitialPage.MergeIds(s.h, r.page.value, r.revision);
      var y := InitialEntry(s, r, limit, x);
      var u := InitialEntry(s, r, limit, z);
      assert y == u by {
        var i :| 0 <= i < |merged| && merged[i] == y;
        var j :| 0 <= j < |merged| && merged[j] == u;
      }
    }
    SetRev(s.h, merged, limit);
  }

  lemma SetRev(h: Hist, page: seq<Message>, limit: nat)
    ensures h.rev <= SetMessages(h, page, limit).rev
  {
  }

  lemma StampedFresh(s: seq<Message>, rev: Rev)
    ensures forall x :: x in Stamp(s, rev) ==> x.rev > rev
  {
  }

  /** An entry after an older page, before its new stamp: shown before, or of a message not shown. */
  lemma OlderEntry(s: World, r: Request, limit: nat, x: Message) returns (y: Message)
    requires limit > 0 && Versions(s) && PageReached(s, r) && r.page.Some? && r.page.value != [] && 0 !in s.h.deleted
    requires x in Msgs(PrependSince(s.h, r.page.value, r.revision, limit))
    ensures Restamped(x, y) && x.rev > s.h.rev && EntryReached(s, y)
    ensures y in Msgs(s.h) ||
            (y in OlderPage.Fresh(r.page.value, OlderPage.KnownIds(Msgs(s.h)), s.h.deleted) &&
             !y.pending && !y.failed && forall w :: w in Msgs(s.h) ==> w.id != y.id)
  {
    var page := r.page.value;
    var c := OlderPage.Combined(page, Msgs(s.h), s.h.deleted);
    var known := OlderPage.KnownIds(Msgs(s.h));
    OlderPage.FreshIds(page, known, s.h.deleted);
    BoundedSelects(c, r.revision, limit);
    var b := OlderPage.Bounded(c, r.revision, limit);
    StampedWindow(b, s.h.rev);
    StampedFresh(b, s.h.rev);
    y :| y in b && Restamped(x, y);
    assert y in c;
    if y !in Msgs(s.h) {
      assert y in page && y.id != 0;
      assert forall w :: w in Msgs(s.h) && w.id != 0 ==> w.id in known;
    }
  }

  lemma OlderTaken(s: World, r: Request, h': Hist, limit: nat)
    requires limit > 0 && Versions(s) && Sound(s.h) && PageReached(s, r) && r.page.Some? && r.page.value != []
    requires 0 !in s.h.deleted && h' == PrependSince(s.h, r.page.value, r.revision, limit)
    ensures PageTaken(s, h')
  {
    hide PrependSince, Versions, PageReached;
    var added := OlderPage.Fresh(r.page.value, OlderPage.KnownIds(Msgs(s.h)), s.h.deleted);
    OlderPage.FreshIds(r.page.value, OlderPage.KnownIds(Msgs(s.h)), s.h.deleted);
    forall x | x in Msgs(h')
      ensures x.rev > s.h.rev && EntryReached(s, x) && (x.pending || x.failed ==> x.id == 0)
      ensures forall w :: w in Msgs(s.h) && w.id == x.id != 0 ==> w.body == x.body
    {
      var y := OlderEntry(s, r, limit, x);
    }
    forall x, z | x in Msgs(h') && z in Msgs(h') && x.id == z.id != 0
      ensures x.body == z.body
    {
      var y := OlderEntry(s, r, limit, x);
      var u := OlderEntry(s, r, limit, z);
      if y !in Msgs(s.h) && u !in Msgs(s.h) {
        assert y == u by {
          var i :| 0 <= i < |added| && added[i] == y;
          var j :| 0 <= j < |added| && added[j] == u;
        }
      }
    }
    PrependRev(s.h, r.page.value, r.revision, limit);
  }

  lemma PrependRev(h: Hist, page: seq<Message>, request: Rev, limit: nat)
    ensures h.rev <= PrependSince(h, page, request, limit).rev
  {
  }

  lemma NoPageTaken(s: World, s': World)
    requires Sound(s.h) && s'.h == s.h
    ensures PageTaken(s, s'.h)
  {
  }

  lemma InstallTakes(s: World, r: Request, limit: nat) returns (s': World)
    requires limit > 0 && |Msgs(s.h)| <= limit && Versions(s) && Sound(s.h) && 0 !in s.h.deleted
    requires PageReached(s, r) && r.page.Some?
    ensures s' == Install(s, r, r.page.value, limit) && PageTaken(s, s'.h) && s' == s.(h := s'.h, gate := s'.gate)
  {
    s' := Installation(s, r, r.page.value, limit);
    hide Install, Versions, PageReached, Sound, PageTaken, PrependSince, SetMessages;
    if s'.h == s.h {
      NoPageTaken(s, s');
    } else if r.older {
      if r.page.value == [] { EmptyPrepend(s.h, r.revision, limit); }
      OlderTaken(s, r, s'.h, limit);
    } else {
      InitialTaken(s, r, s'.h, limit);
    }
  }

  lemma EmptyPrepend(h: Hist, request: Rev, limit: nat)
    ensures PrependSince(h, [], request, limit) == h
  {
  }

  // ---- every move, every run

  /** No tombstone is ever kept for id 0. */
  ghost predicate Steady(s: World) { Versions(s) && Sound(s.h) && 0 !in s.h.deleted }

  /** Completing any captured page, stale or not, rolls no shown message back. */
  lemma CompleteRollsNothingBack(s: World, t: Ticket, limit: nat)
    requires limit > 0 && |Msgs(s.h)| <= limit && Steady(s) && Enabled(s, Complete(t))
    ensures Steady(Next(s, Complete(t), limit))
    ensures NoEntryOlder(s.h, Next(s, Complete(t), limit).h) && NothingRolledBack(s.h, Next(s, Complete(t), limit).h)
  {
    var s1 := s.(requests := s.requests - {t});
    var r := s.requests[t];
    assert PageReached(s, r) && PageReached(s1, r);
    NothingWritten(s, s1.h);
    WritesKeepVersions(s, s1);
    var s' := InstallTakes(s1, r, limit);
    assert s' == Next(s, Complete(t), limit);
    WritesKeepVersions(s1, s');
    InstallKeepsRecord(s1, r, r.page.value, limit);
    NoEntryOlderSuffices(s.h, s'.h);
  }

  lemma InstallKeepsRecord(s: World, r: Request, page: seq<Message>, limit: nat)
    requires 0 !in s.h.deleted
    ensures 0 !in Install(s, r, page, limit).h.deleted
  {
    hide OlderPage.Bounded, OlderPage.Combined, InitialPage.Merge, Echoes, PushAll, Nonces;
  }

  /** The moves that could make copies of a message disagree, or flag one that is not an echo:
      the client can tell each of them from its window before it acts. */
  ghost predicate Careful(s: World, m: Move)
    requires Enabled(s, m)
  {
    match m
    case Deliver =>
      (match s.queue[0]
       case ECreate(id, nonce, body) => CreateReachesAll(s.h, FromServer(id, nonce, body))
       case EUpdate(id, body) => UpdateReachesAll(s.h, id, body)
       case _ => true)
    case ConfirmSend(t) => CreateReachesAll(s.h, FromServer(s.sends[t].id, s.sends[t].nonce, 0))
    case FailSend(t) => FailsAnEcho(s.h, s.sends[t].nonce)
    case _ => true
  }

  lemma DeliverSoundIff(s: World, limit: nat)
    requires Steady(s) && Enabled(s, Deliver) && |Msgs(s.h)| <= limit
    ensures Sound(Next(s, Deliver, limit).h) <==> Careful(s, Deliver)
  {
    assert EventReached(s, s.queue[0]);
    var s' := Delivery(s, limit);
    hide History.Create, Update, Remove, Sound, CreateReachesAll, UpdateReachesAll, Next;
    match s.queue[0]
    case ECreate(id, nonce, body) => CreateSoundIff(s.h, FromServer(id, nonce, body), limit);
    case EUpdate(id, body) => UpdateSoundIff(s.h, id, body);
    case EDelete(id) => RemoveSound(s.h, id, limit);
    case EChannelDelete => SameSound(s.h, Drop(s.h));
    case EChannelUpsert =>
  }

  lemma SameSound(h: Hist, h': Hist)
    requires Sound(h) && (Msgs(h') == Msgs(h) || Msgs(h') == [])
    ensures Sound(h')
  {
  }

  lemma ClientMoveSoundIff(s: World, m: Move, limit: nat)
    requires Steady(s) && Enabled(s, m) && |Msgs(s.h)| <= limit
    requires m.ConfirmDelete? || m.Send? || m.ConfirmSend? || m.FailSend?
    ensures Sound(Next(s, m, limit).h) <==> Careful(s, m)
  {
    if m.ConfirmDelete? {
      hide Remove, Sound;
      RemoveSound(s.h, m.id, limit);
    } else if m.Send? {
      hide Append, Sound;
      AppendEchoSound(s.h, m.nonce, limit);
    } else if m.ConfirmSend? {
      hide History.Create, Sound, CreateReachesAll;
      CreateSoundIff(s.h, FromServer(s.sends[m.t].id, s.sends[m.t].nonce, 0), limit);
    } else {
      hide MarkFailed, Sound, FailsAnEcho;
      FailSoundIff(s.h, s.sends[m.t].nonce);
    }
  }

  /** A move leaves copies that disagree, or a flagged message, exactly when it is not careful. */
  lemma StaysSoundIff(s: World, m: Move, limit: nat)
    requires limit > 0 && Steady(s) && Enabled(s, m) && |Msgs(s.h)| <= limit
    ensures Sound(Next(s, m, limit).h) <==> Careful(s, m)
  {
    if m.Deliver? {
      DeliverSoundIff(s, limit);
    } else if m.ConfirmDelete? || m.Send? || m.ConfirmSend? || m.FailSend? {
      ClientMoveSoundIff(s, m, limit);
    } else if m.Complete? {
      CompleteRollsNothingBack(s, m.t, limit);
    } else {
      SameWindow(s, m, limit);
      SameSound(s.h, Next(s, m, limit).h);
    }
  }

  lemma SameWindow(s: World, m: Move, limit: nat)
    requires Enabled(s, m) && |Msgs(s.h)| <= limit
    requires !m.Deliver? && !m.ConfirmDelete? && !m.Send? && !m.ConfirmSend? && !m.FailSend? && !m.Complete?
    ensures Msgs(Next(s, m, limit).h) == Msgs(s.h) && Next(s, m, limit).h.deleted == s.h.deleted
  {
    if m.Load? || m.LoadOlder? {
      var s' := Loading(s, m, limit);
      hide Next;
    } else {
      hide History.Create, Remove, Append, MarkFailed, Handle, Install, BeginLoad, BeginOlderLoad;
    }
  }

  lemma RemoveRecord(h: Hist, id: MessageId, limit: nat)
    requires 0 !in h.deleted && |Msgs(h)| <= limit
    ensures 0 !in Remove(h, id, limit).deleted
  {
    if id != 0 { BuriedIds(h, id, limit); }
  }

  lemma CreateRecord(h: Hist, m: Message, limit: nat)
    requires 0 !in h.deleted
    ensures 0 !in History.Create(h, m, limit).deleted && 0 !in Append(h, m, limit).deleted
  {
    hide Push, IndexOfNonce, HasId;
  }

  lemma UpdateRecord(h: Hist, id: MessageId, body: nat, nonce: string)
    ensures Update(h, id, (m: Message) => m.(body := body)).deleted == h.deleted
    ensures MarkFailed(h, nonce).deleted == h.deleted
  {
    hide IndexOfId, IndexOfNonce;
  }

  lemma DeliverKeepsRecord(s: World, limit: nat)
    requires Enabled(s, Deliver) && |Msgs(s.h)| <= limit && 0 !in s.h.deleted
    ensures 0 !in Next(s, Deliver, limit).h.deleted
  {
    var s' := Delivery(s, limit);
    hide History.Create, Update, Remove, Next;
    match s.queue[0]
    case ECreate(id, nonce, body) => CreateRecord(s.h, FromServer(id, nonce, body), limit);
    case EUpdate(id, body) => UpdateRecord(s.h, id, body, "");
    case EDelete(id) => RemoveRecord(s.h, id, limit);
    case EChannelDelete =>
    case EChannelUpsert =>
  }

  lemma NextKeepsRecord(s: World, m: Move, limit: nat)
    requires Enabled(s, m) && |Msgs(s.h)| <= limit && 0 !in s.h.deleted && !m.Complete?
    ensures 0 !in Next(s, m, limit).h.deleted
  {
    hide History.Create, Append, MarkFailed, Remove;
    if m.Deliver? {
      DeliverKeepsRecord(s, limit);
    } else if m.ConfirmDelete? {
      RemoveRecord(s.h, m.id, limit);
    } else if m.Send? {
      CreateRecord(s.h, Echo(m.nonce), limit);
    } else if m.ConfirmSend? {
      CreateRecord(s.h, FromServer(s.sends[m.t].id, s.sends[m.t].nonce, 0), limit);
    } else if m.FailSend? {
      UpdateRecord(s.h, 0, 0, s.sends[m.t].nonce);
    } else {
      SameWindow(s, m, limit);
    }
  }

  lemma NextKeepsVersions(s: World, m: Move, limit: nat)
    requires limit > 0 && |Msgs(s.h)| <= limit && Versions(s) && Enabled(s, m) && !m.Complete?
    ensures Versions(Next(s, m, limit))
  {
    hide Next, Versions;
    match m
    case Deliver => assert s.queue != []; DeliverKeepsVersions(s, limit);
    case ConfirmDelete(_) => ClientMovesKeepVersions(s, m, limit);
    case Send(_, _) => ClientMovesKeepVersions(s, m, limit);
    case ConfirmSend(_) => ClientMovesKeepVersions(s, m, limit);
    case FailSend(_) => ClientMovesKeepVersions(s, m, limit);
    case Elsewhere(_) => ClientMovesKeepVersions(s, m, limit);
    case Fail(_) => ClientMovesKeepVersions(s, m, limit);
    case Load(_, _) => LoadKeepsVersions(s, m, limit);
    case LoadOlder(_) => LoadKeepsVersions(s, m, limit);
    case Capture(t, page) => CaptureKeepsVersions(s, t, page, limit);
    case _ => ServerMovesKeepVersions(s, m, limit);
  }

  lemma NextKeepsSteady(s: World, m: Move, limit: nat)
    requires limit > 0 && |Msgs(s.h)| <= limit && Steady(s) && Enabled(s, m) && Careful(s, m)
    ensures Steady(Next(s, m, limit))
  {
    hide Next, Versions, Sound, Careful;
    if m.Complete? {
      CompleteRollsNothingBack(s, m.t, limit);
    } else {
      NextKeepsVersions(s, m, limit);
      NextKeepsRecord(s, m, limit);
      StaysSoundIff(s, m, limit);
    }
  }

  /** Every enabled run whose moves are careful; deletes may overrun and sends may be late. */
  ghost predicate CarefulRun(s: World, moves: seq<Move>, limit: nat)
    requires limit > 0 && |Msgs(s.h)| <= limit
    decreases |moves|
  {
    moves != [] ==>
      Enabled(s, moves[0]) && Careful(s, moves[0]) &&
      (BoundKept(s, moves[0], limit); CarefulRun(Next(s, moves[0], limit), moves[1..], limit))
  }

  lemma {:induction false} RunKeepsSteady(s: World, moves: seq<Move>, limit: nat)
    requires limit > 0 && |Msgs(s.h)| <= limit && Steady(s) && CarefulRun(s, moves, limit)
    ensures EnabledRun(s, moves, limit) && Steady(After(s, moves, limit))
    decreases |moves|
  {
    hide Next, Steady, Careful;
    if moves != [] {
      NextKeepsSteady(s, moves[0], limit);
      BoundKept(s, moves[0], limit);
      RunKeepsSteady(Next(s, moves[0], limit), moves[1..], limit);
    }
  }

  /** After every careful run, whatever page completes next, stale or not, undoes no newer content. */
  lemma PagesNeverUndoNewerContent(moves: seq<Move>, t: Ticket, limit: nat)
    requires limit > 0 && CarefulRun(INIT, moves, limit)
    ensures EnabledRun(INIT, moves, limit)
    ensures var s := After(INIT, moves, limit);
            Enabled(s, Complete(t)) ==>
              NoEntryOlder(s.h, Next(s, Complete(t), limit).h) && NothingRolledBack(s.h, Next(s, Complete(t), limit).h)
  {
    RunKeepsSteady(INIT, moves, limit);
    var s := After(INIT, moves, limit);
    if Enabled(s, Complete(t)) { CompleteRollsNothingBack(s, t, limit); }
  }
}
