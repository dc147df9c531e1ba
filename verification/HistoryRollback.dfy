/** When a page that completes takes a shown message back to an older version: exactly, for any
    page over any window, in terms of what the client has in hand before it installs the page. */
module HistoryRollback {
  import opened Collections
  import opened Messages
  import opened History
  import opened HistoryProtocol
  import opened HistorySafety
  import opened HistoryNewer
  import InitialPage
  import OlderPage

  // ---- the entry that a merge has of a message

  /** Position of the first copy that may be merged though the page lacks the message, or `|s|`. */
  function FirstUnskipped(s: seq<Message>, id: MessageId, request: Rev): (k: nat)
    ensures k <= |s|
    ensures k < |s| ==> s[k].id == id && !InitialPage.Skipped(s[k], request)
    ensures forall j :: 0 <= j < k ==> s[j].id != id || InitialPage.Skipped(s[j], request)
  {
    if s == [] then 0
    else if s[0].id == id && !InitialPage.Skipped(s[0], request) then 0
    else 1 + FirstUnskipped(s[1..], id, request)
  }

  /** The merge has an entry of the message. */
  predicate Merged(h: Hist, page: seq<Message>, request: Rev, id: MessageId) {
    id != 0 && id !in h.deleted &&
    (IndexOfId(page, id) < |page| || FirstUnskipped(Msgs(h), id, request) < |Msgs(h)|)
  }

  /** For a message on the page, its first page copy or the live one if newer than the request;
      for another, the first shown copy that is. */
  function MergedEntry(h: Hist, page: seq<Message>, request: Rev, id: MessageId): Message
    requires Merged(h, page, request, id)
  {
    var k := IndexOfId(page, id);
    if k < |page| then InitialPage.Newer(page[k], InitialPage.LiveById(Msgs(h)), request)
    else Msgs(h)[FirstUnskipped(Msgs(h), id, request)]
  }

  lemma {:induction false} FromPageFirst(page: seq<Message>, live: map<MessageId, Message>,
      deleted: map<MessageId, Rev>, request: Rev, known: set<MessageId>, x: Message)
    requires forall id :: id in live ==> id != 0 && live[id].id == id
    requires x in InitialPage.FromPage(page, live, deleted, request, known) && x.id != 0
    ensures var k := IndexOfId(page, x.id);
            k < |page| && x == InitialPage.Newer(page[k], live, request)
  {
    var m := page[0];
    var known' := if m.id == 0 || m.id in deleted || m.id in known then known else known + {m.id};
    InitialPage.FromPageIds(page, live, deleted, request, known);
    InitialPage.FromPageIds(page[1..], live, deleted, request, known');
    if x in InitialPage.FromPage(page[1..], live, deleted, request, known') {
      assert m.id != x.id;
      FromPageFirst(page[1..], live, deleted, request, known', x);
    } else {
      assert m.id == x.id;
    }
  }

  lemma {:induction false} FromLiveFirst(current: seq<Message>, deleted: map<MessageId, Rev>, request: Rev,
      known: set<MessageId>, x: Message)
    requires x in InitialPage.FromLive(current, deleted, request, known)
    ensures var k := FirstUnskipped(current, x.id, request);
            k < |current| && x == current[k]
  {
    var m := current[0];
    var known' := if InitialPage.Skipped(m, request) || m.id in deleted || m.id in known then known else known + {m.id};
    InitialPage.FromLiveIds(current, deleted, request, known);
    InitialPage.FromLiveIds(current[1..], deleted, request, known');
    if x in InitialPage.FromLive(current[1..], deleted, request, known') {
      FromLiveFirst(current[1..], deleted, request, known', x);
    }
  }

  lemma {:induction false} FromLiveHas(current: seq<Message>, deleted: map<MessageId, Rev>, request: Rev,
      known: set<MessageId>, id: MessageId)
    requires FirstUnskipped(current, id, request) < |current| && id !in deleted && id !in known
    ensures HasId(InitialPage.FromLive(current, deleted, request, known), id)
  {
    var m := current[0];
    var l := InitialPage.FromLive(current, deleted, request, known);
    if m.id == id && !InitialPage.Skipped(m, request) {
      assert l[0].id == id;
    } else {
      var known' :=
        if InitialPage.Skipped(m, request) || m.id in deleted || m.id in known then known else known + {m.id};
      FromLiveHas(current[1..], deleted, request, known', id);
      var rest := InitialPage.FromLive(current[1..], deleted, request, known');
      var k :| 0 <= k < |rest| && rest[k].id == id;
      assert l[|l| - |rest| + k] == rest[k];
    }
  }

  lemma IndexFound(s: seq<Message>, id: MessageId)
    ensures HasId(s, id) <==> IndexOfId(s, id) < |s|
  {
  }

  /** Of each message the merge has this entry and no other. */
  lemma MergeHolds(h: Hist, page: seq<Message>, request: Rev, id: MessageId)
    requires id != 0
    ensures var merged := InitialPage.Merge(h, page, request);
            (HasId(merged, id) <==> Merged(h, page, request, id)) &&
            forall x :: x in merged && x.id == id ==>
              Merged(h, page, request, id) && x == MergedEntry(h, page, request, id)
  {
    var live := InitialPage.LiveById(Msgs(h));
    var p := InitialPage.FromPage(page, live, h.deleted, request, {});
    var known := OlderPage.KnownIds(p);
    var l := InitialPage.FromLive(Msgs(h), h.deleted, request, known);
    var merged := InitialPage.Merge(h, page, request);
    assert merged == p + l;
    InitialPage.FromPageIds(page, live, h.deleted, request, {});
    InitialPage.FromLiveIds(Msgs(h), h.deleted, request, known);
    IndexFound(page, id);
    forall x | x in merged && x.id == id
      ensures Merged(h, page, request, id) && x == MergedEntry(h, page, request, id)
    {
      MergedFrom(h, page, request, x);
    }
    if Merged(h, page, request, id) { MergedHas(h, page, request, id); }
    if HasId(merged, id) {
      var k :| 0 <= k < |merged| && merged[k].id == id;
      assert merged[k] in merged;
    }
  }

  lemma PageIdKnown(h: Hist, page: seq<Message>, request: Rev, id: MessageId)
    requires id != 0 && HasId(page, id) && id !in h.deleted
    ensures id in OlderPage.KnownIds(InitialPage.FromPage(page, InitialPage.LiveById(Msgs(h)), h.deleted, request, {}))
  {
    var p := InitialPage.FromPage(page, InitialPage.LiveById(Msgs(h)), h.deleted, request, {});
    InitialPage.FromPageComplete(page, InitialPage.LiveById(Msgs(h)), h.deleted, request, {}, id);
    var k :| 0 <= k < |p| && p[k].id == id;
    assert p[k] in p;
  }

  lemma MergedFrom(h: Hist, page: seq<Message>, request: Rev, x: Message)
    requires x in InitialPage.Merge(h, page, request) && x.id != 0
    ensures Merged(h, page, request, x.id) && x == MergedEntry(h, page, request, x.id)
  {
    var live := InitialPage.LiveById(Msgs(h));
    var p := InitialPage.FromPage(page, live, h.deleted, request, {});
    var known := OlderPage.KnownIds(p);
    InitialPage.FromPageIds(page, live, h.deleted, request, {});
    InitialPage.FromLiveIds(Msgs(h), h.deleted, request, known);
    IndexFound(page, x.id);
    if x in p {
      FromPageFirst(page, live, h.deleted, request, {}, x);
    } else {
      FromLiveFirst(Msgs(h), h.deleted, request, known, x);
      if HasId(page, x.id) { PageIdKnown(h, page, request, x.id); }
    }
  }

  lemma MergedHas(h: Hist, page: seq<Message>, request: Rev, id: MessageId)
    requires Merged(h, page, request, id)
    ensures HasId(InitialPage.Merge(h, page, request), id)
  {
    var live := InitialPage.LiveById(Msgs(h));
    var p := InitialPage.FromPage(page, live, h.deleted, request, {});
    var known := OlderPage.KnownIds(p);
    var l := InitialPage.FromLive(Msgs(h), h.deleted, request, known);
    IndexFound(page, id);
    if HasId(page, id) {
      InitialPage.FromPageComplete(page, live, h.deleted, request, {}, id);
      var k :| 0 <= k < |p| && p[k].id == id;
      assert (p + l)[k].id == id;
    } else if id in known {
      InitialPage.FromPageIds(page, live, h.deleted, request, {});
      var y :| y in p && y.id == id;
      FromPageFirst(page, live, h.deleted, request, {}, y);
    } else {
      FromLiveHas(Msgs(h), h.deleted, request, known, id);
      var k :| 0 <= k < |l| && l[k].id == id;
      assert (p + l)[|p| + k].id == id;
    }
  }

  // ---- what is left of it after the cut at the limit

  /** Some entry shows the message at this version or a newer one. */
  ghost predicate ShowsAtLeast(s: seq<Message>, id: MessageId, body: nat) {
    exists x :: x in s && x.id == id && body <= x.body
  }

  /** The entry at a position shows the message at this version or a newer one. */
  ghost predicate ShownAt(s: seq<Message>, i: nat, id: MessageId, body: nat)
    requires i < |s|
  {
    s[i].id == id && body <= s[i].body
  }

  lemma KeepLastShows(s: seq<Message>, limit: nat, id: MessageId, body: nat)
    ensures ShowsAtLeast(KeepLast(s, limit), id, body) <==>
            exists i: nat :: i < |s| && |s| <= i + limit && ShownAt(s, i, id, body)
  {
    var kept := KeepLast(s, limit);
    var cut := |s| - |kept|;
    if ShowsAtLeast(kept, id, body) {
      var x :| x in kept && x.id == id && body <= x.body;
      var k :| 0 <= k < |kept| && kept[k] == x;
      assert ShownAt(s, cut + k, id, body);
    }
    if i: nat :| i < |s| && |s| <= i + limit && ShownAt(s, i, id, body) {
      assert kept[i - cut] == s[i];
    }
  }

  lemma KeepLastEntries(a: seq<Message>, b: seq<Message>, limit: nat, id: MessageId, body: nat)
    ensures ShowsAtLeast(KeepLast(a + b, limit), id, body) <==>
            (exists i: nat :: i < |a| && |a| + |b| <= i + limit && ShownAt(a, i, id, body)) ||
            ShowsAtLeast(KeepLast(b, limit), id, body)
  {
    KeepLastShows(a + b, limit, id, body);
    KeepLastShows(b, limit, id, body);
    hide ShowsAtLeast, KeepLast;
    if i: nat :| i < |a + b| && |a + b| <= i + limit && ShownAt(a + b, i, id, body) {
      if i < |a| { assert ShownAt(a, i, id, body); } else { assert ShownAt(b, i - |a|, id, body); }
    }
    if i: nat :| i < |a| && |a| + |b| <= i + limit && ShownAt(a, i, id, body) {
      assert ShownAt(a + b, i, id, body);
    }
    if i: nat :| i < |b| && |b| <= i + limit && ShownAt(b, i, id, body) {
      assert ShownAt(a + b, |a| + i, id, body);
    }
  }

  /** The echoes that are shown again after the page, within the limit. */
  function Reshown(h: Hist, merged: seq<Message>, limit: nat): seq<Message> {
    KeepLast(Echoes(Msgs(h), Nonces(merged)), limit)
  }

  /** The merged entry of the message is not cut off by the limit. */
  predicate WithinLimit(h: Hist, merged: seq<Message>, limit: nat, id: MessageId) {
    IndexOfId(merged, id) + limit >= |merged| + |Echoes(Msgs(h), Nonces(merged))|
  }

  lemma SetShows(h: Hist, merged: seq<Message>, limit: nat, id: MessageId, body: nat)
    requires limit > 0 && id != 0 && DistinctIds(merged)
    ensures var k := IndexOfId(merged, id);
            ShowsAtLeast(Msgs(SetMessages(h, merged, limit)), id, body) <==>
            (k < |merged| && WithinLimit(h, merged, limit, id) && body <= merged[k].body) ||
            ShowsAtLeast(Reshown(h, merged, limit), id, body)
  {
    var stamped := Stamp(merged, h.rev);
    var echoes := Echoes(Msgs(h), Nonces(merged));
    SetMessagesWindow(h, merged, limit);
    KeepLastEntries(stamped, echoes, limit, id, body);
    hide SetMessages, Echoes, Nonces, Reshown;
    var k := IndexOfId(merged, id);
    assert forall i: nat :: i < |merged| ==> (ShownAt(stamped, i, id, body) <==> ShownAt(merged, i, id, body));
    assert forall i: nat :: i < |merged| && ShownAt(merged, i, id, body) ==> i == k;
    assert k < |merged| && body <= merged[k].body ==> ShownAt(merged, k, id, body);
    assert Reshown(h, merged, limit) == KeepLast(echoes, limit) by { ReshownIs(h, merged, limit); }
  }

  lemma ReshownIs(h: Hist, merged: seq<Message>, limit: nat)
    ensures Reshown(h, merged, limit) == KeepLast(Echoes(Msgs(h), Nonces(merged)), limit)
  {
  }

  // ---- exactly when an initial page rolls a message back

  /** After the page the message is shown no older than `w`, or not at all. */
  ghost predicate Outlasts(h: Hist, page: seq<Message>, request: Rev, limit: nat, w: Message) {
    var merged := InitialPage.Merge(h, page, request);
    var stays := Merged(h, page, request, w.id) && WithinLimit(h, merged, limit, w.id);
    || (stays && w.body <= MergedEntry(h, page, request, w.id).body)
    || ShowsAtLeast(Reshown(h, merged, limit), w.id, w.body)
    || (!stays && !ShowsAtLeast(Reshown(h, merged, limit), w.id, 0))
  }

  lemma InitialShows(h: Hist, page: seq<Message>, request: Rev, limit: nat, id: MessageId, body: nat)
    requires limit > 0 && id != 0
    ensures var merged := InitialPage.Merge(h, page, request);
            ShowsAtLeast(Msgs(SetMessages(h, merged, limit)), id, body) <==>
            (Merged(h, page, request, id) && WithinLimit(h, merged, limit, id) &&
             body <= MergedEntry(h, page, request, id).body) ||
            ShowsAtLeast(Reshown(h, merged, limit), id, body)
  {
    var merged := InitialPage.Merge(h, page, request);
    InitialPage.MergeIds(h, page, request);
    SetShows(h, merged, limit, id, body);
    MergeHolds(h, page, request, id);
    IndexFound(merged, id);
    hide SetMessages, InitialPage.Merge, Merged, MergedEntry, WithinLimit, Reshown, ShowsAtLeast;
    var k := IndexOfId(merged, id);
    if k < |merged| { assert merged[k] in merged; }
  }

  lemma ShownIff(s: seq<Message>, id: MessageId)
    ensures HasId(s, id) <==> ShowsAtLeast(s, id, 0)
  {
    if HasId(s, id) {
      var k :| 0 <= k < |s| && s[k].id == id;
      assert s[k] in s;
    }
  }

  /** For any window and any page: installing their merge rolls nothing back if and only if every
      shown message with an id outlasts it. */
  lemma InitialRollbackIff(h: Hist, page: seq<Message>, request: Rev, limit: nat)
    requires limit > 0
    ensures NothingRolledBack(h, SetMessages(h, InitialPage.Merge(h, page, request), limit)) <==>
            forall w :: w in Msgs(h) && w.id != 0 ==> Outlasts(h, page, request, limit, w)
  {
    var merged := InitialPage.Merge(h, page, request);
    var h' := SetMessages(h, merged, limit);
    forall w | w in Msgs(h) && w.id != 0
      ensures (HasId(Msgs(h'), w.id) ==> ShowsAtLeast(Msgs(h'), w.id, w.body)) <==> Outlasts(h, page, request, limit, w)
    {
      ShownIff(Msgs(h'), w.id);
      InitialShows(h, page, request, limit, w.id, 0);
      InitialShows(h, page, request, limit, w.id, w.body);
      hide SetMessages, InitialPage.Merge, Merged, MergedEntry, WithinLimit, Reshown, ShowsAtLeast, HasId;
    }
    RollbackUnfolds(h, h');
  }

  lemma RollbackUnfolds(h: Hist, h': Hist)
    ensures NothingRolledBack(h, h') <==>
            forall w :: w in Msgs(h) && w.id != 0 ==> HasId(Msgs(h'), w.id) ==> ShowsAtLeast(Msgs(h'), w.id, w.body)
  {
  }

  /** Where only echoes are flagged: if and only if every shown version of a message is at most the
      version that the merge takes for it, unless the limit cuts that off. */
  lemma PageRollbackIff(h: Hist, page: seq<Message>, request: Rev, limit: nat)
    requires limit > 0 && FlaggedAreEchoes(h)
    ensures var merged := InitialPage.Merge(h, page, request);
            NothingRolledBack(h, SetMessages(h, merged, limit)) <==>
            forall w :: w in Msgs(h) && Merged(h, page, request, w.id) && WithinLimit(h, merged, limit, w.id) ==>
              w.body <= MergedEntry(h, page, request, w.id).body
  {
    var merged := InitialPage.Merge(h, page, request);
    InitialRollbackIff(h, page, request, limit);
    forall x | x in Reshown(h, merged, limit)
      ensures x.id == 0
    {
      EchoesAreEchoes(Msgs(h), Nonces(merged));
      var echoes := Echoes(Msgs(h), Nonces(merged));
      assert x in echoes;
    }
    hide SetMessages, InitialPage.Merge, MergedEntry, WithinLimit, Reshown;
    assert forall w :: w in Msgs(h) && Merged(h, page, request, w.id) ==> w.id != 0;
  }

  // ---- and an older page

  /** Of the copies of a shown message, one at least as new stays, or none does. */
  ghost predicate StaysShown(h: Hist, page: seq<Message>, request: Rev, limit: nat, w: Message) {
    var c := OlderPage.Combined(page, Msgs(h), h.deleted);
    || (exists i: nat :: i < |c| && OlderPage.Stays(c, request, limit, i) && ShownAt(c, i, w.id, w.body))
    || (forall i: nat :: i < |c| && OlderPage.Stays(c, request, limit, i) ==> !ShownAt(c, i, w.id, 0))
  }

  lemma OlderShows(h: Hist, page: seq<Message>, request: Rev, limit: nat, id: MessageId, body: nat)
    requires limit > 0 && page != []
    ensures var c := OlderPage.Combined(page, Msgs(h), h.deleted);
            ShowsAtLeast(Msgs(PrependSince(h, page, request, limit)), id, body) <==>
            exists i: nat :: i < |c| && OlderPage.Stays(c, request, limit, i) && ShownAt(c, i, id, body)
  {
    var c := OlderPage.Combined(page, Msgs(h), h.deleted);
    var b := OlderPage.Bounded(c, request, limit);
    var at := OlderPage.BoundedIff(c, request, limit);
    var s := Msgs(PrependSince(h, page, request, limit));
    assert s == Stamp(b, h.rev);
    hide OlderPage.Stays, OlderPage.Bounded, OlderPage.Combined, PrependSince;
    if ShowsAtLeast(s, id, body) {
      var x :| x in s && x.id == id && body <= x.body;
      var k :| 0 <= k < |s| && s[k] == x;
      assert at[k] in at && ShownAt(c, at[k], id, body);
    }
    if i: nat :| i < |c| && OlderPage.Stays(c, request, limit, i) && ShownAt(c, i, id, body) {
      var k :| 0 <= k < |at| && at[k] == i;
      assert s[k].id == id && body <= s[k].body && s[k] in s;
    }
  }

  lemma OlderRollbackIff(h: Hist, page: seq<Message>, request: Rev, limit: nat)
    requires limit > 0 && page != []
    ensures NothingRolledBack(h, PrependSince(h, page, request, limit)) <==>
            forall w :: w in Msgs(h) && w.id != 0 ==> StaysShown(h, page, request, limit, w)
  {
    var h' := PrependSince(h, page, request, limit);
    forall w | w in Msgs(h) && w.id != 0
      ensures (HasId(Msgs(h'), w.id) ==> ShowsAtLeast(Msgs(h'), w.id, w.body)) <==>
              StaysShown(h, page, request, limit, w)
    {
      ShownIff(Msgs(h'), w.id);
      OlderShows(h, page, request, limit, w.id, 0);
      OlderShows(h, page, request, limit, w.id, w.body);
      hide PrependSince, OlderPage.Stays, OlderPage.Combined, ShowsAtLeast, HasId;
    }
    RollbackUnfolds(h, h');
  }

  /** An older page that fits beside the window rolls nothing back, whatever the copies say. */
  lemma FittingOlderPageRollsNothingBack(h: Hist, page: seq<Message>, request: Rev, limit: nat)
    requires limit > 0 && |OlderPage.Combined(page, Msgs(h), h.deleted)| <= limit
    ensures NothingRolledBack(h, PrependSince(h, page, request, limit))
  {
    var c := OlderPage.Combined(page, Msgs(h), h.deleted);
    assert forall k :: 0 <= k < |Msgs(h)| ==> c[|c| - |Msgs(h)| + k] == Msgs(h)[k];
    OlderPage.BoundedKeepsAllThatFits(c, request, limit);
    hide OlderPage.Combined, OlderPage.Bounded, ShowsAtLeast;
    if page != [] {
      var s := Msgs(PrependSince(h, page, request, limit));
      assert s == Stamp(c, h.rev);
      forall w | w in Msgs(h)
        ensures exists x :: x in s && x.id == w.id && w.body <= x.body
      {
        var k :| 0 <= k < |Msgs(h)| && Msgs(h)[k] == w;
        var i := |c| - |Msgs(h)| + k;
        assert c[i] == w && s[i].id == w.id && s[i].body == w.body && s[i] in s;
      }
    } else {
      SameWindowRollsNothingBack(h, PrependSince(h, page, request, limit));
    }
  }

  lemma SameWindowRollsNothingBack(h: Hist, h': Hist)
    requires Msgs(h') == Msgs(h)
    ensures NothingRolledBack(h, h')
  {
  }

  // ---- any completion of any run

  /** What the client could test of a completion before it takes it. */
  ghost predicate KeepsVersions(s: World, r: Request, page: seq<Message>, limit: nat) {
    Accepted(s, r) && !PrunedSince(s.h, r.revision) && (r.older ==> page != []) ==>
      forall w :: w in Msgs(s.h) && w.id != 0 ==>
        if r.older then StaysShown(s.h, page, r.revision, limit, w) else Outlasts(s.h, page, r.revision, limit, w)
  }

  /** From any state, and so after any run, guarded or not, a completion rolls nothing back if and only if it
      is not taken, or every shown message is among those kept at their version. */
  lemma CompletionRollbackIff(s: World, t: Ticket, limit: nat)
    requires limit > 0 && |Msgs(s.h)| <= limit && Enabled(s, Complete(t))
    ensures NothingRolledBack(s.h, Next(s, Complete(t), limit).h) <==>
            KeepsVersions(s, s.requests[t], s.requests[t].page.value, limit)
  {
    var r := s.requests[t];
    var page := r.page.value;
    var s1 := s.(requests := s.requests - {t});
    var done := Completion(s, t, limit);
    var s' := Installation(s1, r, page, limit);
    hide Next, Install, SetMessages, InitialPage.Merge, Outlasts, StaysShown, NothingRolledBack;
    if !Accepted(s, r) || PrunedSince(s.h, r.revision) {
      SameWindowRollsNothingBack(s.h, s'.h);
    } else if !r.older {
      InitialRollbackIff(s.h, page, r.revision, limit);
    } else if page == [] {
      EmptyPrepend(s.h, r.revision, limit);
      SameWindowRollsNothingBack(s.h, s'.h);
    } else {
      hide PrependSince;
      OlderRollbackIff(s.h, page, r.revision, limit);
    }
  }
}
