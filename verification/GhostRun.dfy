/** Runs without the guards. Two have one beginning: in a full window of three the newest
    message is deleted first. The removal's shift overruns, drops message 1 and repeats
    message 2. Deleted next, message 2 outlives its delete; edited instead, only one copy
    changes, and a page loaded before the edit takes the window back behind it. And a third run, in
    which two messages carry the same nonce. */
module GhostRun {
  import opened Collections
  import opened Messages
  import opened History
  import opened HistoryProtocol
  import HistoryNewer
  import HistorySafety
  import InitialPage
  import LoadGate
  import OlderPage

  const LIMIT := 3

  function Sent(id: MessageId): Message { Message(id, "", 0, false, false, id) }

  const CREATED: map<MessageId, string> := map[1 := "", 2 := "", 3 := ""]

  const QUEUE := [EChannelUpsert, ECreate(1, "", 0), ECreate(2, "", 0), ECreate(3, "", 0), EDelete(3)]

  function Client(delivered: nat, h: Hist): World
    requires delivered <= 5
  {
    World(true, map[1 := 0, 2 := 0], CREATED, QUEUE[delivered..], h, delivered > 0, if delivered > 0 then 1 else 0,
          LoadGate.IDLE, map[], map[])
  }

  function Shows(rev: Rev, msgs: seq<Message>, deleted: map<MessageId, Rev>): Hist {
    Hist(rev, Some(Window(msgs, rev)), deleted, 0)
  }

  /** Message 3 deleted, message 2 shown twice. */
  const TWICE := Shows(4, [Sent(2), Sent(2)], map[3 := 4])

  /** The server creates three messages and deletes the last one. */
  lemma ServerSide() returns (moves: seq<Move>)
    ensures EnabledRun(INIT, moves, LIMIT) && After(INIT, moves, LIMIT) == Client(0, EMPTY)
  {
    var s1 := INIT.(up := true, queue := QUEUE[..1]);
    var s2 := s1.(alive := map[1 := 0], created := map[1 := ""], queue := QUEUE[..2]);
    var s3 := s1.(alive := map[1 := 0, 2 := 0], created := map[1 := "", 2 := ""], queue := QUEUE[..3]);
    var s4 := s1.(alive := map[1 := 0, 2 := 0, 3 := 0], created := CREATED, queue := QUEUE[..4]);
    var s5 := Client(0, EMPTY);
    assert s4.alive - {3} == s5.alive;
    PrependMove(s4, Delete(3), s5, [], LIMIT);
    PrependMove(s3, HistoryProtocol.Create(3, ""), s4, [Delete(3)], LIMIT);
    moves := [HistoryProtocol.Create(3, ""), Delete(3)];
    assert moves == [HistoryProtocol.Create(3, "")] + [Delete(3)];
    PrependMove(s2, HistoryProtocol.Create(2, ""), s3, moves, LIMIT);
    moves := [HistoryProtocol.Create(2, "")] + moves;
    PrependMove(s1, HistoryProtocol.Create(1, ""), s2, moves, LIMIT);
    moves := [HistoryProtocol.Create(1, "")] + moves;
    PrependMove(INIT, CreateChannel, s1, moves, LIMIT);
    moves := [CreateChannel] + moves;
  }

  lemma CreatesShown()
    ensures History.Create(EMPTY, FromServer(1, "", 0), LIMIT) == Shows(1, [Sent(1)], map[])
    ensures History.Create(Shows(1, [Sent(1)], map[]), FromServer(2, "", 0), LIMIT) ==
            Shows(2, [Sent(1), Sent(2)], map[])
    ensures History.Create(Shows(2, [Sent(1), Sent(2)], map[]), FromServer(3, "", 0), LIMIT) ==
            Shows(3, [Sent(1), Sent(2), Sent(3)], map[])
  {
    assert [] + [Sent(1)] == [Sent(1)];
    assert [Sent(1)] + [Sent(2)] == [Sent(1), Sent(2)];
    assert [Sent(1), Sent(2)] + [Sent(3)] == [Sent(1), Sent(2), Sent(3)];
    assert forall id :: id != 0 ==> Clear(map[], id) == map[];
  }

  /** Deleting the newest of three drops the oldest and repeats the middle one. */
  lemma FirstDelete()
    ensures Remove(Shows(3, [Sent(1), Sent(2), Sent(3)], map[]), 3, LIMIT) == TWICE
    ensures !ShiftFits(3, 2, LIMIT) && !HistorySafety.StandsOnce(TWICE, 2)
  {
    var s := [Sent(1), Sent(2), Sent(3)];
    assert IndexOfId(s, 3) == 2;
    assert AfterRemove(s, 2, LIMIT) == [Sent(2), Sent(2)];
    assert Msgs(TWICE)[0].id == 2 && Msgs(TWICE)[1].id == 2;
  }

  lemma QueueDelivered()
    ensures var moves := [Deliver, Deliver, Deliver, Deliver, Deliver];
            EnabledRun(Client(0, EMPTY), moves, LIMIT) && After(Client(0, EMPTY), moves, LIMIT) == Client(5, TWICE)
  {
    CreatesShown();
    FirstDelete();
    hide History.Create, Remove;
    var h1 := Shows(1, [Sent(1)], map[]);
    var h2 := Shows(2, [Sent(1), Sent(2)], map[]);
    var h3 := Shows(3, [Sent(1), Sent(2), Sent(3)], map[]);
    PrependMove(Client(4, h3), Deliver, Client(5, TWICE), [], LIMIT);
    PrependMove(Client(3, h2), Deliver, Client(4, h3), [Deliver], LIMIT);
    assert [Deliver] + [Deliver] == [Deliver, Deliver];
    PrependMove(Client(2, h1), Deliver, Client(3, h2), [Deliver, Deliver], LIMIT);
    assert [Deliver] + [Deliver, Deliver] == [Deliver, Deliver, Deliver];
    PrependMove(Client(1, EMPTY), Deliver, Client(2, h1), [Deliver, Deliver, Deliver], LIMIT);
    assert [Deliver] + [Deliver, Deliver, Deliver] == [Deliver, Deliver, Deliver, Deliver];
    PrependMove(Client(0, EMPTY), Deliver, Client(1, EMPTY), [Deliver, Deliver, Deliver, Deliver], LIMIT);
    assert [Deliver] + [Deliver, Deliver, Deliver, Deliver] == [Deliver, Deliver, Deliver, Deliver, Deliver];
  }

  lemma Begun() returns (moves: seq<Move>)
    ensures EnabledRun(INIT, moves, LIMIT) && After(INIT, moves, LIMIT) == Client(5, TWICE)
  {
    var server := ServerSide();
    QueueDelivered();
    RunsCompose(INIT, server, [Deliver, Deliver, Deliver, Deliver, Deliver], LIMIT);
    moves := server + [Deliver, Deliver, Deliver, Deliver, Deliver];
  }

  // ---- message 2 is deleted

  lemma SecondDelete()
    ensures Remove(TWICE, 2, LIMIT) == Shows(5, [Sent(2)], map[3 := 4, 2 := 5])
  {
    assert IndexOfId([Sent(2), Sent(2)], 2) == 0;
    assert Without([Sent(2), Sent(2)], 0) == [Sent(2)];
    assert (map[3 := 4, 2 := 5]).Keys == {3, 2};
  }

  /** Message 2 shown, message 1 alive. */
  function GhostShown(): World {
    Client(5, Shows(5, [Sent(2)], map[3 := 4, 2 := 5])).(alive := map[1 := 0])
  }

  lemma SecondDelivered()
    ensures EnabledRun(Client(5, TWICE), [Delete(2), Deliver], LIMIT)
    ensures After(Client(5, TWICE), [Delete(2), Deliver], LIMIT) == GhostShown()
  {
    SecondDelete();
    hide Remove, Install, Abort;
    var s0 := Client(5, TWICE);
    var s1 := s0.(alive := map[1 := 0], queue := [EDelete(2)]);
    assert s0.alive - {2} == s1.alive;
    PrependMove(s1, Deliver, GhostShown(), [], LIMIT);
    PrependMove(s0, Delete(2), s1, [Deliver], LIMIT);
    assert [Delete(2)] + [Deliver] == [Delete(2), Deliver];
  }

  /** The promise fails with the queue empty: message 2 is shown though deleted, and message 1
      is alive but no longer shown. */
  lemma UnguardedRunShowsGhost() returns (moves: seq<Move>)
    ensures EnabledRun(INIT, moves, LIMIT)
    ensures var s := After(INIT, moves, LIMIT);
            s.queue == [] && s.alive.Keys == {1} && Ids(Msgs(s.h)) == {2} && !NoGhosts(s)
  {
    var begun := Begun();
    SecondDelivered();
    RunsCompose(INIT, begun, [Delete(2), Deliver], LIMIT);
    moves := begun + [Delete(2), Deliver];
    var s := GhostShown();
    assert Msgs(s.h) == [Sent(2)] && Sent(2) in Msgs(s.h);
    assert !Doomed(s.queue, 2);
  }

  // ---- message 2 is edited while a page is on its way

  const PAGE := [FromServer(1, "", 0), FromServer(2, "", 0)]
  const EDITED := Message(2, "", 1, false, false, 5)

  /** The first copy is at the new version, the second is as it was. */
  const DISAGREE := Shows(5, [EDITED, Sent(2)], map[3 := 4])

  const UNDONE := Shows(7, [Message(1, "", 0, false, false, 6), Message(2, "", 0, false, false, 7)], map[3 := 4])

  lemma EditReachesOneCopy()
    ensures Update(TWICE, 2, (m: Message) => m.(body := 1)) == DISAGREE
    ensures !HistoryNewer.UpdateReachesAll(TWICE, 2, 1) && !HistoryNewer.CopiesAgree(DISAGREE)
  {
    assert [Sent(2), Sent(2)][0 := EDITED] == [EDITED, Sent(2)];
    assert Msgs(TWICE)[1] == Sent(2);
    assert EDITED in Msgs(DISAGREE) && Sent(2) in Msgs(DISAGREE);
  }

  /** The later copy counts as the live one, so the page's old version wins. */
  lemma MergeTakesPage()
    ensures InitialPage.Merge(DISAGREE, PAGE, 4) == PAGE
  {
    var current := [EDITED, Sent(2)];
    assert current[..1] == [EDITED] && [EDITED][..0] == [];
    assert InitialPage.LiveById([EDITED]) == map[2 := EDITED];
    var live := InitialPage.LiveById(current);
    assert live == map[2 := Sent(2)];
    var deleted: map<MessageId, Rev> := map[3 := 4];
    assert PAGE[1..] == [PAGE[1]] && [PAGE[1]][1..] == [];
    assert InitialPage.FromPage([PAGE[1]], live, deleted, 4, {} + {1}) ==
           [PAGE[1]] + InitialPage.FromPage([], live, deleted, 4, {1} + {2});
    assert InitialPage.FromPage(PAGE, live, deleted, 4, {}) == PAGE;
    var known := OlderPage.KnownIds(PAGE);
    assert PAGE[1] in PAGE && 2 in known;
    assert current[1..] == [Sent(2)] && [Sent(2)][1..] == [];
    assert InitialPage.FromLive([Sent(2)], deleted, 4, known) == [];
    assert InitialPage.FromLive(current, deleted, 4, known) == [];
    assert PAGE + [] == PAGE;
  }

  lemma NothingToReappend()
    ensures Echoes(Msgs(DISAGREE), Nonces(PAGE)) == []
  {
    assert [EDITED, Sent(2)][1..] == [Sent(2)] && [Sent(2)][1..] == [];
    assert Echoes([Sent(2)], Nonces(PAGE)) == [];
  }

  lemma PagePushed()
    ensures PushAll(Window([], 0), Msgs(UNDONE), LIMIT) == UNDONE.window.value
  {
    PushAllKeepsLast(Window([], 0), Msgs(UNDONE), LIMIT);
    assert Window([], 0).msgs + Msgs(UNDONE) == Msgs(UNDONE);
    assert Msgs(UNDONE)[1] in Msgs(UNDONE);
  }

  lemma PageUndoesEdit()
    ensures SetMessages(DISAGREE, InitialPage.Merge(DISAGREE, PAGE, 4), LIMIT) == UNDONE
  {
    MergeTakesPage();
    NothingToReappend();
    PagePushed();
    hide Echoes, PushAll, InitialPage.Merge, Nonces;
    assert Stamp(PAGE, 5) + [] == Msgs(UNDONE);
    var deleted: map<MessageId, Rev> := map[3 := 4];
    assert 3 !in Ids(PAGE);
    assert deleted - (Ids(PAGE) - {0}) == deleted;
  }

  const LOADING := Request(false, 4, 1, 0, 50, Some(PAGE))

  function Loading(h: Hist, edits: nat): World {
    Client(5, h).(alive := map[1 := 0, 2 := edits], gate := LoadGate.IDLE.(pending := true),
      requests := map[0 := LOADING])
  }

  lemma PageLoaded()
    ensures var moves := [Load(0, 50), Capture(0, PAGE)];
            EnabledRun(Client(5, TWICE), moves, LIMIT) && After(Client(5, TWICE), moves, LIMIT) == Loading(TWICE, 0)
  {
    hide Handle, Install, Abort;
    var s0 := Client(5, TWICE);
    var s2 := Loading(TWICE, 0);
    var s1 := s2.(requests := map[0 := LOADING.(page := None)]);
    assert forall m :: m in PAGE ==> m == PAGE[0] || m == PAGE[1];
    assert s1.requests[0 := LOADING] == s2.requests;
    PrependMove(s1, Capture(0, PAGE), s2, [], LIMIT);
    assert LoadGate.Begin(s0.gate) == (s1.gate, true);
    assert s0.requests[0 := LOADING.(page := None)] == s1.requests;
    PrependMove(s0, Load(0, 50), s1, [Capture(0, PAGE)], LIMIT);
    assert [Load(0, 50)] + [Capture(0, PAGE)] == [Load(0, 50), Capture(0, PAGE)];
  }

  lemma EditShown()
    ensures EnabledRun(Loading(TWICE, 0), [Edit(2), Deliver], LIMIT)
    ensures After(Loading(TWICE, 0), [Edit(2), Deliver], LIMIT) == Loading(DISAGREE, 1)
  {
    EditReachesOneCopy();
    hide Update, Install, Abort;
    var s3 := Loading(TWICE, 1).(queue := [EUpdate(2, 1)]);
    assert (map[1 := 0, 2 := 0])[2 := 1] == s3.alive;
    PrependMove(s3, Deliver, Loading(DISAGREE, 1), [], LIMIT);
    PrependMove(Loading(TWICE, 0), Edit(2), s3, [Deliver], LIMIT);
    assert [Edit(2)] + [Deliver] == [Edit(2), Deliver];
  }

  lemma EditBetween() returns (moves: seq<Move>)
    ensures EnabledRun(Client(5, TWICE), moves, LIMIT) && After(Client(5, TWICE), moves, LIMIT) == Loading(DISAGREE, 1)
  {
    PageLoaded();
    EditShown();
    RunsCompose(Client(5, TWICE), [Load(0, 50), Capture(0, PAGE)], [Edit(2), Deliver], LIMIT);
    moves := [Load(0, 50), Capture(0, PAGE)] + [Edit(2), Deliver];
  }

  /** Copies that disagree let a page undo an edit for good: the completion shows version 0 of
      message 2 in place of version 1, and no event is left that would correct it. */
  lemma CarelessRunUndoesEdit() returns (moves: seq<Move>)
    ensures EnabledRun(INIT, moves, LIMIT)
    ensures var s := After(INIT, moves, LIMIT);
            s.queue == [] && 2 in s.alive && s.alive[2] == 1 && Enabled(s, Complete(0)) &&
            !HistoryNewer.NothingRolledBack(s.h, Next(s, Complete(0), LIMIT).h)
  {
    var begun := Begun();
    var rest := EditBetween();
    var s := Loading(DISAGREE, 1);
    RunsCompose(INIT, begun, rest, LIMIT);
    moves := begun + rest;
    PageUndoesEdit();
    assert Next(s, Complete(0), LIMIT).h == UNDONE;
    assert EDITED in Msgs(DISAGREE) && EDITED.id == 2;
    assert Msgs(UNDONE)[1].id == 2 && HasId(Msgs(UNDONE), 2);
    assert forall x :: x in Msgs(UNDONE) && x.id == 2 ==> x.body == 0;
  }

  // ---- two messages with one nonce

  function Named(id: MessageId, rev: Rev): Message { Message(id, "x", 0, false, false, rev) }

  const NAMES: map<MessageId, string> := map[3 := "x", 5 := "x"]

  function TwoNamed(delivered: nat, h: Hist): World
    requires delivered <= 3
  {
    var queue := [EChannelUpsert, ECreate(3, "x", 0), ECreate(5, "x", 0)];
    World(true, map[3 := 0, 5 := 0], NAMES, queue[delivered..], h, delivered > 0, if delivered > 0 then 1 else 0,
          LoadGate.IDLE, map[], map[])
  }

  lemma SecondTakesFirstsPlace()
    ensures History.Create(EMPTY, FromServer(3, "x", 0), LIMIT) == Shows(1, [Named(3, 1)], map[])
    ensures History.Create(Shows(1, [Named(3, 1)], map[]), FromServer(5, "x", 0), LIMIT) ==
            Shows(2, [Named(5, 2)], map[])
  {
    assert [] + [Named(3, 1)] == [Named(3, 1)];
    assert [Named(3, 1)][0 := Named(5, 2)] == [Named(5, 2)];
    assert forall id :: id != 0 ==> Clear(map[], id) == map[];
  }

  lemma TwoCreated() returns (moves: seq<Move>)
    ensures EnabledRun(INIT, moves, LIMIT) && After(INIT, moves, LIMIT) == TwoNamed(0, EMPTY)
  {
    hide Handle, Install, Abort;
    var s1 := INIT.(up := true, queue := [EChannelUpsert]);
    var s2 := s1.(alive := map[3 := 0], created := map[3 := "x"], queue := [EChannelUpsert, ECreate(3, "x", 0)]);
    PrependMove(s2, HistoryProtocol.Create(5, "x"), TwoNamed(0, EMPTY), [], LIMIT);
    moves := [HistoryProtocol.Create(5, "x")] + [];
    PrependMove(s1, HistoryProtocol.Create(3, "x"), s2, moves, LIMIT);
    moves := [HistoryProtocol.Create(3, "x")] + moves;
    PrependMove(INIT, CreateChannel, s1, moves, LIMIT);
    moves := [CreateChannel] + moves;
  }

  lemma TwoDelivered()
    ensures var moves := [Deliver, Deliver, Deliver];
            EnabledRun(TwoNamed(0, EMPTY), moves, LIMIT) &&
            After(TwoNamed(0, EMPTY), moves, LIMIT) == TwoNamed(3, Shows(2, [Named(5, 2)], map[]))
  {
    SecondTakesFirstsPlace();
    hide History.Create, Install, Abort;
    var h1 := Shows(1, [Named(3, 1)], map[]);
    PrependMove(TwoNamed(2, h1), Deliver, TwoNamed(3, Shows(2, [Named(5, 2)], map[])), [], LIMIT);
    PrependMove(TwoNamed(1, EMPTY), Deliver, TwoNamed(2, h1), [Deliver], LIMIT);
    assert [Deliver] + [Deliver] == [Deliver, Deliver];
    PrependMove(TwoNamed(0, EMPTY), Deliver, TwoNamed(1, EMPTY), [Deliver, Deliver], LIMIT);
    assert [Deliver] + [Deliver, Deliver] == [Deliver, Deliver, Deliver];
  }

  /** Without deletes, with room in the window and nothing queued: message 3 is alive but not shown,
      because message 5 carries its nonce. */
  lemma SharedNonceLosesMessage() returns (moves: seq<Move>)
    ensures EnabledRun(INIT, moves, LIMIT)
    ensures var s := After(INIT, moves, LIMIT);
            s.queue == [] && s.alive.Keys == {3, 5} && Ids(Msgs(s.h)) == {5} && |Msgs(s.h)| < LIMIT
  {
    var begun := TwoCreated();
    TwoDelivered();
    RunsCompose(INIT, begun, [Deliver, Deliver, Deliver], LIMIT);
    moves := begun + [Deliver, Deliver, Deliver];
    assert Msgs(Shows(2, [Named(5, 2)], map[])) == [Named(5, 2)];
  }
}
