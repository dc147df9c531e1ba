/** One channel's message state and every operation on it, as functions.

    internal/store/store.go and internal/store/mutation.go keep this state in maps
    keyed by channel; MessageStore.dfy has those methods, each proved against the
    function here. `limit` is the store's history limit. */
module History {
  import opened Collections
  import opened Messages
  import OlderPage

  /** `rev` is the store-wide revision counter, the rest belongs to the channel. */
  datatype Hist = Hist(rev: Rev, window: Option<Window>, deleted: map<MessageId, Rev>, pruned: Rev)

  const EMPTY := Hist(0, None, map[], 0)

  function Msgs(h: Hist): seq<Message> { if h.window.Some? then h.window.value.msgs else [] }

  function MsgRev(h: Hist): Rev { if h.window.Some? then h.window.value.rev else 0 }

  function Clear(deleted: map<MessageId, Rev>, id: MessageId): map<MessageId, Rev> {
    if id == 0 then deleted else deleted - {id}
  }

  function Append(h: Hist, m: Message, limit: nat): Hist {
    var w := if h.window.Some? then h.window.value else Window([], 0);
    Hist(h.rev + 1, Some(Push(w, m.(rev := h.rev + 1), limit)), Clear(h.deleted, m.id), h.pruned)
  }

  /** Swaps the entry carrying `nonce` for the confirmed message, if there is one. */
  function Confirm(h: Hist, nonce: string, m: Message): (Hist, bool) {
    if nonce == "" || h.window.None? then (h, false)
    else
      var s := h.window.value.msgs;
      var k := IndexOfNonce(s, nonce);
      var r := h.rev + 1;
      if k == |s| then (h.(rev := r), false)
      else (Hist(r, Some(Window(s[k := m.(rev := r)], r)), Clear(h.deleted, m.id), h.pruned), true)
  }

  /** A gateway create: confirm an echo, ignore a message already present, else append. */
  function Create(h: Hist, m: Message, limit: nat): Hist {
    var (h1, confirmed) := Confirm(h, m.nonce, m);
    if confirmed || HasId(Msgs(h1), m.id) then h1 else Append(h1, m, limit)
  }

  function Update(h: Hist, id: MessageId, patch: Message -> Message): Hist {
    if h.window.None? then h
    else
      var s := h.window.value.msgs;
      var k := IndexOfId(s, id);
      var r := h.rev + 1;
      if k == |s| then h.(rev := r)
      else h.(rev := r, window := Some(Window(s[k := patch(s[k]).(rev := r)], r)))
  }

  function MarkFailed(h: Hist, nonce: string): Hist {
    if h.window.None? then h
    else
      var s := h.window.value.msgs;
      var k := IndexOfNonce(s, nonce);
      var r := h.rev + 1;
      if k == |s| then h.(rev := r)
      else h.(rev := r, window := Some(Window(s[k := s[k].(failed := true, pending := false, rev := r)], r)))
  }

  // ---- deletes and their tombstones

  ghost predicate IsOldest(d: map<MessageId, Rev>, id: MessageId) {
    id in d && forall j :: j in d ==> d[id] < d[j] || (d[id] == d[j] && id <= j)
  }

  /** The tombstone with the lowest revision, the lowest id among equals. */
  ghost function Oldest(d: map<MessageId, Rev>): (id: MessageId)
    requires d != map[]
    ensures IsOldest(d, id)
  {
    var k :| k in d;
    var rest := d - {k};
    if rest == map[] then
      assert forall j :: j in d && j != k ==> j in rest;
      k
    else
      var o := Oldest(rest);
      assert forall j :: j in d && j != k ==> j in rest;
      if d[k] < d[o] || (d[k] == d[o] && k <= o) then k else o
  }

  /** Past the limit the oldest tombstone goes and becomes the watermark. */
  ghost function Trim(h: Hist, limit: nat): Hist {
    if |h.deleted| <= limit then h
    else h.(deleted := h.deleted - {Oldest(h.deleted)}, pruned := Max(h.pruned, h.deleted[Oldest(h.deleted)]))
  }

  /** Records a delete under a fresh revision. */
  ghost function Bury(h: Hist, id: MessageId, limit: nat): Hist {
    Trim(h.(rev := h.rev + 1, deleted := h.deleted[id := h.rev + 1]), limit)
  }

  ghost function Remove(h: Hist, id: MessageId, limit: nat): Hist
    requires |Msgs(h)| <= limit
  {
    if id == 0 then h
    else
      var b := Bury(h, id, limit);
      if h.window.None? then b
      else
        var s := h.window.value.msgs;
        var k := IndexOfId(s, id);
        if k == |s| then b else b.(window := Some(Window(AfterRemove(s, k, limit), b.rev)))
  }

  predicate PrunedSince(h: Hist, request: Rev) { h.pruned > request }

  /** Channel removal forgets the window, the tombstones and the watermark. */
  function Drop(h: Hist): Hist { Hist(h.rev, None, map[], 0) }

  // ---- pages

  /** The messages with fresh revisions, one after another. */
  function Stamp(s: seq<Message>, rev: Rev): (r: seq<Message>)
    ensures |r| == |s|
  {
    seq(|s|, i requires 0 <= i < |s| => s[i].(rev := rev + 1 + i))
  }

  function Ids(s: seq<Message>): set<MessageId> { set m | m in s :: m.id }

  function Nonces(s: seq<Message>): set<string> { set m | m in s && m.nonce != "" :: m.nonce }

  predicate IsEcho(m: Message, confirmed: set<string>) {
    (m.pending || m.failed) && (m.nonce == "" || m.nonce !in confirmed)
  }

  /** Pending and failed entries that the page does not confirm by nonce. */
  function Echoes(s: seq<Message>, confirmed: set<string>): seq<Message> {
    if s == [] then []
    else (if IsEcho(s[0], confirmed) then [s[0]] else []) + Echoes(s[1..], confirmed)
  }

  function PushAll(w: Window, s: seq<Message>, limit: nat): (w': Window)
    ensures |w.msgs| <= limit ==> |w'.msgs| <= limit
    decreases |s|
  {
    if s == [] then w else PushAll(Push(w, s[0], limit), s[1..], limit)
  }

  /** Replaces the window by a page, re-appending unconfirmed echoes. */
  function SetMessages(h: Hist, page: seq<Message>, limit: nat): Hist {
    var echoes := Echoes(Msgs(h), Nonces(page));
    if page == [] && echoes == [] then h.(window := None)
    else Hist(h.rev + |page|,
              Some(PushAll(Window([], 0), Stamp(page, h.rev) + echoes, limit)),
              h.deleted - (Ids(page) - {0}),
              h.pruned)
  }

  /** Installs an already bounded list. */
  function ReplaceMessages(h: Hist, s: seq<Message>): Hist {
    if s == [] then h.(window := None)
    else h.(rev := h.rev + |s|, window := Some(Window(Stamp(s, h.rev), h.rev + |s|)))
  }

  function PrependSince(h: Hist, page: seq<Message>, request: Rev, limit: nat): Hist {
    if page == [] then h
    else ReplaceMessages(h, OlderPage.Bounded(OlderPage.Combined(page, Msgs(h), h.deleted), request, limit))
  }

  // ---- what the pushes of a page amount to

  lemma {:induction false} PushAllKeepsLast(w: Window, s: seq<Message>, limit: nat)
    requires |w.msgs| <= limit && limit > 0
    ensures PushAll(w, s, limit).msgs == KeepLast(w.msgs + s, limit)
    ensures PushAll(w, s, limit).rev >= w.rev
    ensures forall m :: m in s ==> m.rev <= PushAll(w, s, limit).rev
    ensures PushAll(w, s, limit).rev == w.rev || exists m :: m in s && m.rev == PushAll(w, s, limit).rev
    decreases |s|
  {
    if s == [] {
      assert w.msgs + s == w.msgs;
    } else {
      var w1 := Push(w, s[0], limit);
      PushAllKeepsLast(w1, s[1..], limit);
      var all := w.msgs + s;
      assert all == (w.msgs + [s[0]]) + s[1..];
      assert KeepLast(w1.msgs + s[1..], limit) == KeepLast(all, limit);
    }
  }

  lemma {:induction false} PushAllConcat(w: Window, a: seq<Message>, b: seq<Message>, limit: nat)
    ensures PushAll(w, a + b, limit) == PushAll(PushAll(w, a, limit), b, limit)
    decreases |a|
  {
    if a == [] {
      assert a + b == b;
    } else {
      PushAllConcat(Push(w, a[0], limit), a[1..], b, limit);
      assert (a + b)[1..] == a[1..] + b;
    }
  }

  lemma PushAllSnoc(w: Window, s: seq<Message>, i: nat, limit: nat)
    requires i < |s|
    ensures PushAll(w, s[..i + 1], limit) == Push(PushAll(w, s[..i], limit), s[i], limit)
  {
    PushAllConcat(w, s[..i], [s[i]], limit);
    assert s[..i + 1] == s[..i] + [s[i]];
    assert PushAll(PushAll(w, s[..i], limit), [s[i]], limit) == Push(PushAll(w, s[..i], limit), s[i], limit);
  }

  lemma IdsSnoc(s: seq<Message>, i: nat)
    requires i < |s|
    ensures Ids(s[..i + 1]) == Ids(s[..i]) + {s[i].id}
  {
    assert s[..i + 1] == s[..i] + [s[i]];
  }

  /** SetMessages installs the last `limit` entries of the stamped page followed by the echoes. */
  lemma SetMessagesWindow(h: Hist, page: seq<Message>, limit: nat)
    requires limit > 0
    ensures Msgs(SetMessages(h, page, limit)) == KeepLast(Stamp(page, h.rev) + Echoes(Msgs(h), Nonces(page)), limit)
  {
    var s := Stamp(page, h.rev) + Echoes(Msgs(h), Nonces(page));
    PushAllKeepsLast(Window([], 0), s, limit);
    assert Window([], 0).msgs + s == s;
  }

  lemma {:induction false} EchoesAreEchoes(s: seq<Message>, confirmed: set<string>)
    ensures forall m :: m in Echoes(s, confirmed) <==> m in s && IsEcho(m, confirmed)
  {
    if s != [] {
      EchoesAreEchoes(s[1..], confirmed);
    }
  }

  // ---- equal revisions mean equal messages

  ghost predicate WindowOk(h: Hist, limit: nat) {
    && |Msgs(h)| <= limit
    && MsgRev(h) <= h.rev
    && (forall m :: m in Msgs(h) ==> 0 < m.rev <= h.rev)
    && (h.window.Some? ==> 0 < MsgRev(h))
  }

  datatype Op =
    | OpAppend(m: Message)
    | OpCreate(m: Message)
    | OpConfirm(nonce: string, m: Message)
    | OpUpdate(id: MessageId, patch: Message -> Message)
    | OpMarkFailed(nonce: string)
    | OpRemove(id: MessageId)
    | OpSet(page: seq<Message>)
    | OpPrepend(page: seq<Message>, request: Rev)
    | OpDrop
    | OpElsewhere(ticks: nat)  // operations on other channels only draw revisions

  ghost function Apply(h: Hist, op: Op, limit: nat): Hist
    requires WindowOk(h, limit)
  {
    match op
    case OpAppend(m) => Append(h, m, limit)
    case OpCreate(m) => Create(h, m, limit)
    case OpConfirm(nonce, m) => Confirm(h, nonce, m).0
    case OpUpdate(id, patch) => Update(h, id, patch)
    case OpMarkFailed(nonce) => MarkFailed(h, nonce)
    case OpRemove(id) => Remove(h, id, limit)
    case OpSet(page) => SetMessages(h, page, limit)
    case OpPrepend(page, request) => PrependSince(h, page, request, limit)
    case OpDrop => Drop(h)
    case OpElsewhere(ticks) => h.(rev := h.rev + ticks)
  }

  /** A window of nothing but unconfirmed echoes, at the revision of the newest of them. */
  ghost predicate OnlyEchoes(h: Hist) {
    && h.window.Some?
    && (forall m :: m in Msgs(h) ==> IsEcho(m, {}) && m.rev <= MsgRev(h))
    && (exists m :: m in Msgs(h) && m.rev == MsgRev(h))
  }

  /** The one operation that brings an old revision back: an empty page over a window that
      shows an echo, and something else or under another revision. */
  ghost predicate ReusesRevision(h: Hist, op: Op) {
    op.OpSet? && op.page == [] && Echoes(Msgs(h), {}) != [] && !OnlyEchoes(h)
  }

  ghost predicate FreshOrSame(h: Hist, h': Hist, limit: nat) {
    && WindowOk(h', limit) && h.rev <= h'.rev
    && (h'.window == h.window || h'.window == None || MsgRev(h') > h.rev)
  }

  lemma PushAllRevisions(s: seq<Message>, top: Rev, limit: nat)
    requires limit > 0 && (forall m :: m in s ==> 0 < m.rev <= top)
    ensures var w := PushAll(Window([], 0), s, limit);
            w.rev <= top && (forall m :: m in w.msgs ==> 0 < m.rev <= top) && (forall m :: m in s ==> m.rev <= w.rev)
  {
    PushAllKeepsLast(Window([], 0), s, limit);
    assert Window([], 0).msgs + s == s;
    assert forall m :: m in KeepLast(s, limit) ==> m in s;
  }

  lemma SetPageRevision(h: Hist, page: seq<Message>, limit: nat)
    requires limit > 0 && WindowOk(h, limit) && page != []
    ensures FreshOrSame(h, SetMessages(h, page, limit), limit)
  {
    var echoes := Echoes(Msgs(h), Nonces(page));
    EchoesAreEchoes(Msgs(h), Nonces(page));
    var stamped := Stamp(page, h.rev);
    var s := stamped + echoes;
    PushAllRevisions(s, h.rev + |page|, limit);
    assert s[|page| - 1] == stamped[|page| - 1] && s[|page| - 1] in s;
  }

  /** An empty page removes the window, or reinstalls the echoes under a revision issued before. */
  lemma SetEmptyPageRevision(h: Hist, limit: nat)
    requires limit > 0 && WindowOk(h, limit)
    ensures var h' := SetMessages(h, [], limit);
            WindowOk(h', limit) && h'.rev == h.rev &&
            if Echoes(Msgs(h), {}) == [] then h'.window == None else h'.window.Some? && MsgRev(h') <= h.rev
  {
    assert Nonces([]) == {};
    var echoes := Echoes(Msgs(h), {});
    EchoesAreEchoes(Msgs(h), {});
    assert Stamp([], h.rev) + echoes == echoes;
    PushAllRevisions(echoes, h.rev, limit);
    if echoes != [] {
      assert echoes[0] in echoes;
    }
  }

  lemma PrependRevision(h: Hist, page: seq<Message>, request: Rev, limit: nat)
    requires limit > 0 && WindowOk(h, limit)
    ensures FreshOrSame(h, PrependSince(h, page, request, limit), limit)
  {
    BoundedFits(OlderPage.Combined(page, Msgs(h), h.deleted), request, limit);
  }

  lemma AppendRevision(h: Hist, m: Message, limit: nat)
    requires limit > 0 && WindowOk(h, limit)
    ensures FreshOrSame(h, Append(h, m, limit), limit)
  {
    var all := Msgs(h) + [m.(rev := h.rev + 1)];
    assert Msgs(Append(h, m, limit)) == KeepLast(all, limit);
    assert forall x :: x in KeepLast(all, limit) ==> x in all;
  }

  lemma ConfirmRevision(h: Hist, nonce: string, m: Message, limit: nat)
    requires limit > 0 && WindowOk(h, limit)
    ensures FreshOrSame(h, Confirm(h, nonce, m).0, limit)
    ensures !Confirm(h, nonce, m).1 ==> Confirm(h, nonce, m).0.window == h.window
  {
  }

  lemma CreateRevision(h: Hist, m: Message, limit: nat)
    requires limit > 0 && WindowOk(h, limit)
    ensures FreshOrSame(h, Create(h, m, limit), limit)
  {
    hide Confirm, Append;
    ConfirmRevision(h, m.nonce, m, limit);
    AppendRevision(Confirm(h, m.nonce, m).0, m, limit);
  }

  lemma RemoveRevision(h: Hist, id: MessageId, limit: nat)
    requires limit > 0 && WindowOk(h, limit)
    ensures FreshOrSame(h, Remove(h, id, limit), limit)
  {
    var s := Msgs(h);
    var k := IndexOfId(s, id);
    if id != 0 && k < |s| {
      assert forall m :: m in AfterRemove(s, k, limit) ==> m in s;
    }
  }

  lemma {:induction false} AllEchoesIff(s: seq<Message>, confirmed: set<string>)
    ensures |Echoes(s, confirmed)| <= |s|
    ensures |Echoes(s, confirmed)| == |s| <==> forall m :: m in s ==> IsEcho(m, confirmed)
    ensures |Echoes(s, confirmed)| == |s| ==> Echoes(s, confirmed) == s
  {
    if s != [] {
      AllEchoesIff(s[1..], confirmed);
      assert s[0] in s && s == [s[0]] + s[1..];
    }
  }

  /** What an empty page reinstalls over a shown echo. */
  lemma EmptyPageWindow(h: Hist, limit: nat) returns (w: Window)
    requires limit > 0 && WindowOk(h, limit) && Echoes(Msgs(h), {}) != []
    ensures SetMessages(h, [], limit).window == Some(w) && w.msgs == Echoes(Msgs(h), {})
    ensures (forall m :: m in w.msgs ==> m.rev <= w.rev) && exists m :: m in w.msgs && m.rev == w.rev
  {
    var echoes := Echoes(Msgs(h), {});
    assert Nonces([]) == {} && Stamp([], h.rev) + echoes == echoes;
    w := PushAll(Window([], 0), echoes, limit);
    PushAllKeepsLast(Window([], 0), echoes, limit);
    assert Window([], 0).msgs + echoes == echoes;
    AllEchoesIff(Msgs(h), {});
    EchoesAreEchoes(Msgs(h), {});
    assert echoes[0] in echoes && echoes[0].rev > 0;
  }

  /** An empty page leaves a window with an echo as it is exactly when it shows only echoes. */
  lemma EmptyPageSameWindowIff(h: Hist, limit: nat)
    requires limit > 0 && WindowOk(h, limit) && Echoes(Msgs(h), {}) != []
    ensures SetMessages(h, [], limit).window == h.window <==> OnlyEchoes(h)
  {
    var w := EmptyPageWindow(h, limit);
    AllEchoesIff(Msgs(h), {});
  }

  /** Each operation leaves the window alone, removes it, or gives it a revision never issued
      before, exactly when it reuses none. */
  lemma StepRevision(h: Hist, op: Op, limit: nat)
    requires limit > 0 && WindowOk(h, limit)
    ensures WindowOk(Apply(h, op, limit), limit) && h.rev <= Apply(h, op, limit).rev
    ensures FreshOrSame(h, Apply(h, op, limit), limit) <==> !ReusesRevision(h, op)
  {
    hide Append, Create, Confirm, Update, MarkFailed, Remove, SetMessages, PrependSince, Drop, WindowOk;
    match op
    case OpAppend(m) => AppendRevision(h, m, limit);
    case OpCreate(m) => CreateRevision(h, m, limit);
    case OpConfirm(nonce, m) => ConfirmRevision(h, nonce, m, limit);
    case OpUpdate(id, patch) => UpdateRevision(h, id, patch, limit);
    case OpMarkFailed(nonce) => MarkRevision(h, nonce, limit);
    case OpRemove(id) => RemoveRevision(h, id, limit);
    case OpSet(page) => SetRevisionIff(h, page, limit);
    case OpPrepend(page, request) => PrependRevision(h, page, request, limit);
    case OpDrop => IdleRevision(h, 0, limit);
    case OpElsewhere(ticks) => IdleRevision(h, ticks, limit);
  }

  lemma UpdateRevision(h: Hist, id: MessageId, patch: Message -> Message, limit: nat)
    requires limit > 0 && WindowOk(h, limit)
    ensures FreshOrSame(h, Update(h, id, patch), limit)
  {
  }

  lemma MarkRevision(h: Hist, nonce: string, limit: nat)
    requires limit > 0 && WindowOk(h, limit)
    ensures FreshOrSame(h, MarkFailed(h, nonce), limit)
  {
  }

  lemma IdleRevision(h: Hist, ticks: nat, limit: nat)
    requires WindowOk(h, limit)
    ensures FreshOrSame(h, Drop(h), limit) && FreshOrSame(h, h.(rev := h.rev + ticks), limit)
  {
  }

  lemma SetRevisionIff(h: Hist, page: seq<Message>, limit: nat)
    requires limit > 0 && WindowOk(h, limit)
    ensures WindowOk(SetMessages(h, page, limit), limit) && h.rev <= SetMessages(h, page, limit).rev
    ensures FreshOrSame(h, SetMessages(h, page, limit), limit) <==> !ReusesRevision(h, OpSet(page))
  {
    if page != [] {
      SetPageRevision(h, page, limit);
    } else {
      SetEmptyPageRevision(h, limit);
      if Echoes(Msgs(h), {}) != [] { EmptyPageSameWindowIff(h, limit); }
    }
  }

  /** And then the revision can mislead: where it is MsgRev that comes back, the messages differ. */
  lemma ReuseMisleads(h: Hist, op: Op, limit: nat)
    requires limit > 0 && WindowOk(h, limit) && ReusesRevision(h, op)
    requires MsgRev(Apply(h, op, limit)) == MsgRev(h)
    ensures Msgs(Apply(h, op, limit)) != Msgs(h)
  {
    var w := EmptyPageWindow(h, limit);
    EmptyPageSameWindowIff(h, limit);
    EchoesAreEchoes(Msgs(h), {});
    assert w.msgs[0] in w.msgs;
  }

  lemma BoundedFits(c: seq<Message>, request: Rev, limit: nat)
    requires limit > 0
    ensures |OlderPage.Bounded(c, request, limit)| <= limit
  {
    if OlderPage.Count(OlderPage.ProtectedMask(c, request)) < limit {
      var at := OlderPage.BoundedWithRoom(c, request, limit);
    }
  }

  /** The state after a run of operations. */
  ghost function Run(h: Hist, ops: seq<Op>, limit: nat): (h': Hist)
    requires limit > 0 && WindowOk(h, limit)
    ensures WindowOk(h', limit)
    decreases |ops|
  {
    if ops == [] then h
    else
      StepRevision(h, ops[0], limit);
      Run(Apply(h, ops[0], limit), ops[1..], limit)
  }

  ghost predicate NoReuse(h: Hist, ops: seq<Op>, limit: nat)
    requires limit > 0 && WindowOk(h, limit)
    decreases |ops|
  {
    ops != [] ==>
      !ReusesRevision(h, ops[0]) &&
      (StepRevision(h, ops[0], limit); NoReuse(Apply(h, ops[0], limit), ops[1..], limit))
  }

  lemma {:induction false} WindowSince(h: Hist, ops: seq<Op>, limit: nat)
    requires limit > 0 && WindowOk(h, limit) && NoReuse(h, ops, limit)
    ensures FreshOrSame(h, Run(h, ops, limit), limit)
    decreases |ops|
  {
    if ops != [] {
      StepRevision(h, ops[0], limit);
      WindowSince(Apply(h, ops[0], limit), ops[1..], limit);
    }
  }

  /** Over a run that reuses no revision, equal MsgRev before and after means equal messages. */
  lemma EqualRevisionsEqualMessages(h: Hist, ops: seq<Op>, limit: nat)
    requires limit > 0 && WindowOk(h, limit) && NoReuse(h, ops, limit)
    requires MsgRev(h) == MsgRev(Run(h, ops, limit))
    ensures Msgs(h) == Msgs(Run(h, ops, limit))
  {
    WindowSince(h, ops, limit);
  }

  const ECHO_A := Message(0, "a", 0, true, false, 1)
  const ECHO_B := Message(0, "b", 0, true, false, 2)
  const SENT_A := Message(7, "a", 0, false, false, 3)
  const AFTER_ECHOES := Hist(2, Some(Window([ECHO_A, ECHO_B], 2)), map[], 0)
  const AFTER_CREATE := Hist(3, Some(Window([SENT_A, ECHO_B], 3)), map[], 0)
  const AFTER_PAGE := Hist(3, Some(Window([ECHO_B], 2)), map[], 0)

  lemma CreateConfirmsFirstEcho()
    ensures Apply(AFTER_ECHOES, OpCreate(SENT_A), 10) == AFTER_CREATE
  {
    assert Clear(map[], 7) == map[];
    assert [ECHO_A, ECHO_B][0 := SENT_A] == [SENT_A, ECHO_B];
  }

  lemma EmptyPageKeepsSecondEcho()
    ensures Echoes(Msgs(AFTER_CREATE), {}) == [ECHO_B]
    ensures Apply(AFTER_CREATE, OpSet([]), 10) == AFTER_PAGE
  {
    assert Nonces([]) == {};
    assert Echoes([SENT_A, ECHO_B], {}) == Echoes([ECHO_B], {}) == [ECHO_B];
    assert Stamp([], 3) + [ECHO_B] == [ECHO_B] && PushAll(Window([], 0), [ECHO_B], 10) == Window([ECHO_B], 2);
    assert EMPTY.deleted - (Ids([]) - {0}) == map[];
  }

  /** With a reuse it fails: of two echoes the first is confirmed, then an empty page arrives. */
  lemma EmptyPageReusesRevision()
    ensures WindowOk(AFTER_ECHOES, 10) && WindowOk(AFTER_CREATE, 10)
    ensures var end := Run(AFTER_ECHOES, [OpCreate(SENT_A), OpSet([])], 10);
            MsgRev(end) == MsgRev(AFTER_ECHOES) && Msgs(end) != Msgs(AFTER_ECHOES)
    ensures !ReusesRevision(AFTER_ECHOES, OpCreate(SENT_A)) && ReusesRevision(AFTER_CREATE, OpSet([]))
  {
    CreateConfirmsFirstEcho();
    EmptyPageKeepsSecondEcho();
    var ops := [OpCreate(SENT_A), OpSet([])];
    assert ops[1..] == [OpSet([])];
    assert Run(AFTER_PAGE, ops[1..][1..], 10) == AFTER_PAGE;
    assert Run(AFTER_CREATE, ops[1..], 10) == AFTER_PAGE;
  }
}
