/** Runs in which the client tests each move on its own window and record of deletes before making it:
    they show no deleted message at any moment, and no page rolls a message back. */
module HistoryTested {
  import opened Collections
  import opened Messages
  import opened History
  import opened HistoryProtocol
  import opened HistorySafety
  import opened HistoryNewer
  import InitialPage
  import OlderPage

  // ---- the tests

  /** The removal of the message, if it is shown, does not overrun. */
  predicate RemovalFits(h: Hist, id: MessageId, limit: nat) {
    var k := IndexOfId(Msgs(h), id);
    k < |Msgs(h)| ==> ShiftFits(|Msgs(h)|, k, limit)
  }

  /** The create replaces no entry, or no other entry shows the message already. */
  ghost predicate PlacesOnce(h: Hist, m: Message) {
    var s := Msgs(h);
    var k := IndexOfNonce(s, m.nonce);
    m.nonce == "" || k == |s| || forall i :: 0 <= i < |s| && i != k ==> s[i].id != m.id
  }

  ghost predicate Tested(s: World, m: Move, limit: nat)
    requires Enabled(s, m)
  {
    match m
    case Deliver =>
      (match s.queue[0]
       case ECreate(id, nonce, body) => PlacesOnce(s.h, FromServer(id, nonce, body))
       case EDelete(id) => RemovalFits(s.h, id, limit)
       case _ => true)
    case ConfirmDelete(id) => RemovalFits(s.h, id, limit)
    case ConfirmSend(t) =>
      SendChecksOut(s, s.sends[t]) && PlacesOnce(s.h, FromServer(s.sends[t].id, s.sends[t].nonce, 0))
    case FailSend(t) => FailsAnEcho(s.h, s.sends[t].nonce)
    case _ => true
  }

  // ---- what they keep: every message stands once

  ghost predicate Tidy(h: Hist) { DistinctIds(Msgs(h)) && FlaggedAreEchoes(h) }

  ghost predicate Orderly(s: World, limit: nat) { Inv(s, limit) && Steady(s) && Tidy(s.h) }

  lemma TidyStandsOnce(h: Hist, id: MessageId)
    requires Tidy(h) && id != 0
    ensures StandsOnce(h, id)
  {
  }

  lemma OtherBody(s: seq<Message>, k: nat, id: MessageId, body: nat)
    requires forall i :: 0 <= i < |s| && i != k ==> s[i].id != id
    ensures ReachesAll(s, k, id, body)
  {
  }

  /** Tested moves meet the guards. */
  lemma TestedIsGuarded(s: World, m: Move, limit: nat)
    requires limit > 0 && Orderly(s, limit) && Enabled(s, m) && Tested(s, m, limit)
    ensures Guarded(s, m)
  {
    if m.Deliver? {
      assert EventOk(s, s.queue[0]);
      if s.queue[0].EDelete? { TidyStandsOnce(s.h, s.queue[0].id); }
    } else if m.ConfirmDelete? {
      TidyStandsOnce(s.h, m.id);
    } else if m.ConfirmSend? {
      CheckedSendIsSafe(s, m.t, limit);
    }
  }

  lemma TestedIsCareful(s: World, m: Move, limit: nat)
    requires limit > 0 && Orderly(s, limit) && Enabled(s, m) && Tested(s, m, limit)
    ensures Careful(s, m)
  {
    var w := Msgs(s.h);
    if m.Deliver? && s.queue[0].EUpdate? {
      var e := s.queue[0];
      assert EventOk(s, e);
      TidyStandsOnce(s.h, e.id);
      var k := IndexOfId(w, e.id);
      if k < |w| {
        forall i | 0 <= i < |w| && i != k
          ensures w[i].id != e.id
        {
          assert i < k ==> w[i].id != e.id;
        }
        OtherBody(w, k, e.id, e.body);
      }
    }
  }

  // ---- distinct ids, move by move

  lemma CreateDistinct(h: Hist, m: Message, limit: nat)
    requires DistinctIds(Msgs(h)) && m.id != 0 && PlacesOnce(h, m)
    ensures DistinctIds(Msgs(History.Create(h, m, limit)))
  {
    var s := Msgs(h);
    var k := IndexOfNonce(s, m.nonce);
    var x := CreateMessages(h, m, limit);
    hide History.Create;
    if !(m.nonce != "" && k < |s|) && !HasId(s, m.id) { KeepLastDistinct(s + [x], limit); }
  }

  lemma KeepLastDistinct(s: seq<Message>, limit: nat)
    requires DistinctIds(s)
    ensures DistinctIds(KeepLast(s, limit))
  {
  }

  lemma SameIdsDistinct(s: seq<Message>, r: seq<Message>)
    requires DistinctIds(s) && |r| == |s| && forall i :: 0 <= i < |s| ==> r[i].id == s[i].id
    ensures DistinctIds(r)
  {
  }

  lemma RemoveDistinct(h: Hist, id: MessageId, limit: nat)
    requires DistinctIds(Msgs(h)) && |Msgs(h)| <= limit && id != 0 && RemovalFits(h, id, limit)
    ensures DistinctIds(Msgs(Remove(h, id, limit)))
  {
    var s := Msgs(h);
    var k := IndexOfId(s, id);
    RemoveMessages(h, id, limit);
    hide Remove;
    if k < |s| {
      var r := Without(s, k);
      assert AfterRemove(s, k, limit) == r;
      assert forall i :: 0 <= i < |r| ==> r[i] == s[if i < k then i else i + 1];
    }
  }

  lemma EchoesHaveNoId(h: Hist, confirmed: set<string>)
    requires FlaggedAreEchoes(h)
    ensures forall i :: 0 <= i < |Echoes(Msgs(h), confirmed)| ==> Echoes(Msgs(h), confirmed)[i].id == 0
  {
    EchoesAreEchoes(Msgs(h), confirmed);
    var echoes := Echoes(Msgs(h), confirmed);
    assert forall i :: 0 <= i < |echoes| ==> echoes[i] in echoes;
  }

  /** Merged messages and, behind them, echoes. */
  lemma InitialDistinct(h: Hist, page: seq<Message>, request: Rev, limit: nat)
    requires limit > 0 && FlaggedAreEchoes(h)
    ensures DistinctIds(Msgs(SetMessages(h, InitialPage.Merge(h, page, request), limit)))
  {
    var merged := InitialPage.Merge(h, page, request);
    var echoes := Echoes(Msgs(h), Nonces(merged));
    InitialPage.MergeIds(h, page, request);
    SetMessagesWindow(h, merged, limit);
    EchoesHaveNoId(h, Nonces(merged));
    hide SetMessages, InitialPage.Merge, Echoes, Nonces;
    var stamped := Stamp(merged, h.rev);
    SameIdsDistinct(merged, stamped);
    KeepLastDistinct(stamped + echoes, limit);
  }

  lemma OlderDistinct(h: Hist, page: seq<Message>, request: Rev, limit: nat)
    requires limit > 0 && DistinctIds(Msgs(h))
    ensures DistinctIds(Msgs(PrependSince(h, page, request, limit)))
  {
    if page != [] {
      var c := OlderPage.Combined(page, Msgs(h), h.deleted);
      var b := OlderPage.Bounded(c, request, limit);
      OlderPage.CombinedIds(page, Msgs(h), h.deleted);
      var at := OlderPage.BoundedIff(c, request, limit);
      hide OlderPage.Combined, OlderPage.Bounded, OlderPage.Stays;
      forall i, j | 0 <= i < j < |b| && b[i].id != 0
        ensures b[i].id != b[j].id
      {
        assert at[i] < at[j];
      }
      SameIdsDistinct(b, Stamp(b, h.rev));
    }
  }

  lemma CompleteDistinct(s: World, t: Ticket, limit: nat)
    requires limit > 0 && |Msgs(s.h)| <= limit && Tidy(s.h) && Enabled(s, Complete(t))
    ensures DistinctIds(Msgs(Next(s, Complete(t), limit).h))
  {
    var r := s.requests[t];
    var done := Completion(s, t, limit);
    var s' := Installation(s.(requests := s.requests - {t}), r, r.page.value, limit);
    hide Next, Install, SetMessages, PrependSince, InitialPage.Merge;
    if Accepted(s, r) && !PrunedSince(s.h, r.revision) {
      if r.older {
        OlderDistinct(s.h, r.page.value, r.revision, limit);
      } else {
        InitialDistinct(s.h, r.page.value, r.revision, limit);
      }
    }
  }

  lemma DeliverDistinct(s: World, limit: nat)
    requires limit > 0 && Orderly(s, limit) && Enabled(s, Deliver) && Tested(s, Deliver, limit)
    ensures DistinctIds(Msgs(Next(s, Deliver, limit).h))
  {
    assert EventOk(s, s.queue[0]);
    var s' := Delivery(s, limit);
    hide Next, History.Create, Update, Remove;
    match s.queue[0]
    case ECreate(id, nonce, body) => CreateDistinct(s.h, FromServer(id, nonce, body), limit);
    case EUpdate(id, body) =>
      UpdateWindow(s.h, id, body);
      SameIdsDistinct(Msgs(s.h), Msgs(s'.h));
    case EDelete(id) => RemoveDistinct(s.h, id, limit);
    case EChannelDelete =>
    case EChannelUpsert =>
  }

  lemma ClientMoveDistinct(s: World, m: Move, limit: nat)
    requires limit > 0 && Orderly(s, limit) && Enabled(s, m) && Tested(s, m, limit)
    requires m.ConfirmDelete? || m.Send? || m.ConfirmSend? || m.FailSend?
    ensures DistinctIds(Msgs(Next(s, m, limit).h))
  {
    if m.ConfirmDelete? {
      hide Remove;
      RemoveDistinct(s.h, m.id, limit);
    } else if m.Send? {
      EchoDistinct(s.h, m.nonce, limit);
      hide Append;
    } else if m.ConfirmSend? {
      hide History.Create;
      CreateDistinct(s.h, FromServer(s.sends[m.t].id, s.sends[m.t].nonce, 0), limit);
    } else {
      MarkWindow(s.h, s.sends[m.t].nonce);
      hide MarkFailed;
      SameIdsDistinct(Msgs(s.h), Msgs(MarkFailed(s.h, s.sends[m.t].nonce)));
    }
  }

  lemma EchoDistinct(h: Hist, nonce: string, limit: nat)
    requires DistinctIds(Msgs(h))
    ensures DistinctIds(Msgs(Append(h, Echo(nonce), limit)))
  {
    var all := Msgs(h) + [Echo(nonce).(rev := h.rev + 1)];
    assert Msgs(Append(h, Echo(nonce), limit)) == KeepLast(all, limit);
    KeepLastDistinct(all, limit);
  }

  /** A tested move keeps every message standing once, and what the guards of both kinds keep. */
  lemma NextKeepsOrderly(s: World, m: Move, limit: nat)
    requires limit > 0 && Orderly(s, limit) && Enabled(s, m) && Tested(s, m, limit)
    ensures Guarded(s, m) && Careful(s, m) && Orderly(Next(s, m, limit), limit)
  {
    TestedIsGuarded(s, m, limit);
    TestedIsCareful(s, m, limit);
    assert |Msgs(s.h)| <= limit;
    assert DistinctIds(Msgs(Next(s, m, limit).h)) by {
      if m.Deliver? {
        DeliverDistinct(s, limit);
      } else if m.ConfirmDelete? || m.Send? || m.ConfirmSend? || m.FailSend? {
        ClientMoveDistinct(s, m, limit);
      } else if m.Complete? {
        CompleteDistinct(s, m.t, limit);
      } else {
        SameWindow(s, m, limit);
      }
    }
    hide Next, Inv, Versions, Guarded, Careful, Tested;
    NextKeepsInv(s, m, limit);
    NextKeepsSteady(s, m, limit);
  }

  // ---- runs

  ghost predicate TestedRun(s: World, moves: seq<Move>, limit: nat)
    requires limit > 0 && |Msgs(s.h)| <= limit
    decreases |moves|
  {
    moves != [] ==>
      Enabled(s, moves[0]) && Tested(s, moves[0], limit) &&
      (BoundKept(s, moves[0], limit); TestedRun(Next(s, moves[0], limit), moves[1..], limit))
  }

  lemma {:induction false} TestedRunsAreGuarded(s: World, moves: seq<Move>, limit: nat)
    requires limit > 0 && |Msgs(s.h)| <= limit && Orderly(s, limit) && TestedRun(s, moves, limit)
    ensures GuardedRun(s, moves, limit) && CarefulRun(s, moves, limit) && EnabledRun(s, moves, limit)
    ensures Orderly(After(s, moves, limit), limit)
    decreases |moves|
  {
    hide Next, Orderly, Guarded, Careful, Tested;
    if moves != [] {
      NextKeepsOrderly(s, moves[0], limit);
      BoundKept(s, moves[0], limit);
      TestedRunsAreGuarded(Next(s, moves[0], limit), moves[1..], limit);
    }
  }

  /** Every promise at once: nothing deleted is shown at any moment, every message stands once, and
      whatever page completes next rolls nothing back. */
  lemma TestedRunsKeepPromises(moves: seq<Move>, t: Ticket, limit: nat)
    requires limit > 0 && TestedRun(INIT, moves, limit)
    ensures EnabledRun(INIT, moves, limit) && NeverShowsGhosts(INIT, moves, limit)
    ensures var s := After(INIT, moves, limit);
            DistinctIds(Msgs(s.h)) &&
            (Enabled(s, Complete(t)) ==> NothingRolledBack(s.h, Next(s, Complete(t), limit).h))
  {
    TestedRunsAreGuarded(INIT, moves, limit);
    NeverShowsGhostsIff(moves, limit);
    PagesNeverUndoNewerContent(moves, t, limit);
  }
}
