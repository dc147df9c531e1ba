/** How an initial history page meets newer live state: internal/app/app_history.go, mergeInitialHistory. */
module InitialPage {
  import opened Collections
  import opened Messages
  import opened History
  import OlderPage

  /** The live message of each id; a later entry wins over an earlier one. */
  function LiveById(current: seq<Message>): (live: map<MessageId, Message>)
    ensures forall id :: id in live ==> id != 0 && live[id].id == id && live[id] in current
  {
    if current == [] then map[]
    else
      var last := current[|current| - 1];
      var rest := LiveById(current[..|current| - 1]);
      if last.id == 0 then rest else rest[last.id := last]
  }

  /** A page message, or its live copy when that changed after the request. */
  function Newer(m: Message, live: map<MessageId, Message>, request: Rev): Message {
    if m.id in live && live[m.id].rev > request then live[m.id] else m
  }

  /** The page's part of the merge, skipping tombstoned ids and repetitions. */
  function FromPage(page: seq<Message>, live: map<MessageId, Message>, deleted: map<MessageId, Rev>,
                    request: Rev, known: set<MessageId>): seq<Message> {
    if page == [] then []
    else
      var m := page[0];
      if m.id == 0 then [m] + FromPage(page[1..], live, deleted, request, known)
      else if m.id in deleted || m.id in known then FromPage(page[1..], live, deleted, request, known)
      else [Newer(m, live, request)] + FromPage(page[1..], live, deleted, request, known + {m.id})
  }

  predicate Skipped(m: Message, request: Rev) {
    m.id == 0 || m.pending || m.failed || m.rev <= request
  }

  /** Live messages newer than the request that the page does not hold. */
  function FromLive(current: seq<Message>, deleted: map<MessageId, Rev>, request: Rev,
      known: set<MessageId>): seq<Message> {
    if current == [] then []
    else
      var m := current[0];
      if Skipped(m, request) || m.id in deleted || m.id in known then FromLive(current[1..], deleted, request, known)
      else [m] + FromLive(current[1..], deleted, request, known + {m.id})
  }

  function Merge(h: Hist, page: seq<Message>, request: Rev): seq<Message> {
    var p := FromPage(page, LiveById(Msgs(h)), h.deleted, request, {});
    p + FromLive(Msgs(h), h.deleted, request, OlderPage.KnownIds(p))
  }

  // ---- what the two parts contain

  lemma {:induction false} LiveAt(current: seq<Message>, k: nat)
    requires DistinctIds(current) && k < |current| && current[k].id != 0
    ensures current[k].id in LiveById(current) && LiveById(current)[current[k].id] == current[k]
  {
    var n := |current| - 1;
    if k < n {
      assert current[k].id != current[n].id;
      LiveAt(current[..n], k);
    }
  }

  lemma LiveIsUnique(current: seq<Message>, m: Message)
    requires DistinctIds(current) && m in current && m.id != 0
    ensures m.id in LiveById(current) && LiveById(current)[m.id] == m
  {
    var k :| 0 <= k < |current| && current[k] == m;
    LiveAt(current, k);
  }

  /** `x` stands for a page message, as itself or as its newer live copy. */
  ghost predicate StandsFor(x: Message, page: seq<Message>, live: map<MessageId, Message>, request: Rev) {
    exists m :: m in page && m.id == x.id && x == Newer(m, live, request)
  }

  lemma StandsForTail(x: Message, page: seq<Message>, live: map<MessageId, Message>, request: Rev)
    requires page != [] && StandsFor(x, page[1..], live, request)
    ensures StandsFor(x, page, live, request)
  {
    var m :| m in page[1..] && m.id == x.id && x == Newer(m, live, request);
    assert m in page;
  }

  lemma {:induction false} FromPageIds(page: seq<Message>, live: map<MessageId, Message>, deleted: map<MessageId, Rev>,
                                       request: Rev, known: set<MessageId>)
    requires forall id :: id in live ==> id != 0 && live[id].id == id
    ensures var p := FromPage(page, live, deleted, request, known);
            DistinctIds(p) && forall x :: x in p && x.id != 0 ==> x.id !in deleted && x.id !in known
  {
    if page != [] {
      var m := page[0];
      var known' := if m.id == 0 || m.id in deleted || m.id in known then known else known + {m.id};
      FromPageIds(page[1..], live, deleted, request, known');
      var rest := FromPage(page[1..], live, deleted, request, known');
      assert forall k :: 0 <= k < |rest| ==> rest[k] in rest;
    }
  }

  lemma {:induction false} FromPageOrigin(page: seq<Message>, live: map<MessageId, Message>,
      deleted: map<MessageId, Rev>,
                                          request: Rev, known: set<MessageId>, x: Message)
    requires forall id :: id in live ==> id != 0 && live[id].id == id
    requires x in FromPage(page, live, deleted, request, known)
    ensures StandsFor(x, page, live, request)
  {
    var m := page[0];
    var known' := if m.id == 0 || m.id in deleted || m.id in known then known else known + {m.id};
    if x in FromPage(page[1..], live, deleted, request, known') {
      FromPageOrigin(page[1..], live, deleted, request, known', x);
      StandsForTail(x, page, live, request);
    } else {
      assert m in page && m.id == x.id && x == Newer(m, live, request);
    }
  }

  lemma {:induction false} FromPageComplete(page: seq<Message>, live: map<MessageId, Message>,
      deleted: map<MessageId, Rev>,
                                            request: Rev, known: set<MessageId>, id: MessageId)
    requires forall i :: i in live ==> live[i].id == i
    requires id != 0 && HasId(page, id) && id !in deleted && id !in known
    ensures HasId(FromPage(page, live, deleted, request, known), id)
  {
    var m := page[0];
    var p := FromPage(page, live, deleted, request, known);
    if m.id == id {
      assert p[0].id == id;
    } else {
      var k :| 0 <= k < |page| && page[k].id == id;
      assert page[1..][k - 1].id == id;
      var known' := if m.id == 0 || m.id in deleted || m.id in known then known else known + {m.id};
      FromPageComplete(page[1..], live, deleted, request, known', id);
      var rest := FromPage(page[1..], live, deleted, request, known');
      var j :| 0 <= j < |rest| && rest[j].id == id;
      assert p[|p| - |rest| + j] == rest[j];
    }
  }

  lemma {:induction false} FromLiveIds(current: seq<Message>, deleted: map<MessageId, Rev>, request: Rev,
      known: set<MessageId>)
    ensures var l := FromLive(current, deleted, request, known);
            DistinctIds(l) &&
            forall x :: x in l ==> x in current && !Skipped(x, request) && x.id !in deleted && x.id !in known
  {
    if current != [] {
      var m := current[0];
      var known' := if Skipped(m, request) || m.id in deleted || m.id in known then known else known + {m.id};
      FromLiveIds(current[1..], deleted, request, known');
      var rest := FromLive(current[1..], deleted, request, known');
      assert forall k :: 0 <= k < |rest| ==> rest[k] in rest;
    }
  }

  lemma {:induction false} FromLiveComplete(current: seq<Message>, deleted: map<MessageId, Rev>, request: Rev,
                                            known: set<MessageId>, x: Message)
    requires DistinctIds(current) && x in current && !Skipped(x, request) && x.id !in deleted && x.id !in known
    ensures x in FromLive(current, deleted, request, known)
  {
    var m := current[0];
    if m != x {
      var k :| 1 <= k < |current| && current[k] == x;
      assert m.id != 0 ==> m.id != x.id;
      var known' := if Skipped(m, request) || m.id in deleted || m.id in known then known else known + {m.id};
      FromLiveComplete(current[1..], deleted, request, known', x);
    }
  }

  // ---- the merge

  /** Distinct ids, none tombstoned, each from the page or from newer live state. */
  lemma MergeIds(h: Hist, page: seq<Message>, request: Rev)
    ensures var merged := Merge(h, page, request);
            DistinctIds(merged) &&
            forall x :: x in merged ==>
              (x.id != 0 ==> x.id !in h.deleted) &&
              (StandsFor(x, page, LiveById(Msgs(h)), request) || (x in Msgs(h) && !Skipped(x, request)))
  {
    var live := LiveById(Msgs(h));
    var p := FromPage(page, live, h.deleted, request, {});
    var known := OlderPage.KnownIds(p);
    var l := FromLive(Msgs(h), h.deleted, request, known);
    FromPageIds(page, live, h.deleted, request, {});
    FromLiveIds(Msgs(h), h.deleted, request, known);
    var merged := Merge(h, page, request);
    forall i, j | 0 <= i < j < |merged| && merged[i].id != 0
      ensures merged[i].id != merged[j].id
    {
      if i < |p| <= j {
        assert p[i] in p && l[j - |p|] in l;
      }
    }
    forall x | x in p
      ensures StandsFor(x, page, live, request)
    {
      FromPageOrigin(page, live, h.deleted, request, {}, x);
    }
  }

  /** Every untombstoned page id is there: as the live copy exactly when that is newer than the request. */
  lemma MergeTakesNewer(h: Hist, page: seq<Message>, request: Rev, id: MessageId)
    requires DistinctIds(Msgs(h)) && id != 0 && HasId(page, id) && id !in h.deleted
    ensures HasId(Merge(h, page, request), id)
    ensures forall x, l :: x in Merge(h, page, request) && x.id == id && l in Msgs(h) && l.id == id ==>
      if l.rev > request then x == l else x in page
  {
    var live := LiveById(Msgs(h));
    var p := FromPage(page, live, h.deleted, request, {});
    FromPageComplete(page, live, h.deleted, request, {}, id);
    var k :| 0 <= k < |p| && p[k].id == id;
    assert Merge(h, page, request)[k] == p[k] && p[k] in p;
    forall x, l | x in Merge(h, page, request) && x.id == id && l in Msgs(h) && l.id == id
      ensures if l.rev > request then x == l else x in page
    {
      LiveIsUnique(Msgs(h), l);
      PageIdFromPage(h, page, request, x);
      FromPageOrigin(page, live, h.deleted, request, {}, x);
    }
  }

  /** A merged message whose id the page's part holds is that part's message. */
  lemma PageIdFromPage(h: Hist, page: seq<Message>, request: Rev, x: Message)
    requires x in Merge(h, page, request) && x.id != 0
    requires HasId(FromPage(page, LiveById(Msgs(h)), h.deleted, request, {}), x.id)
    ensures x in FromPage(page, LiveById(Msgs(h)), h.deleted, request, {})
  {
    var p := FromPage(page, LiveById(Msgs(h)), h.deleted, request, {});
    var k :| 0 <= k < |p| && p[k].id == x.id;
    assert p[k] in p;
    FromLiveIds(Msgs(h), h.deleted, request, OlderPage.KnownIds(p));
  }

  /** No newer, untombstoned, confirmed live message is lost. */
  lemma MergeKeepsNewer(h: Hist, page: seq<Message>, request: Rev, x: Message)
    requires DistinctIds(Msgs(h)) && x in Msgs(h) && !Skipped(x, request) && x.id !in h.deleted
    ensures x in Merge(h, page, request)
  {
    var live := LiveById(Msgs(h));
    var p := FromPage(page, live, h.deleted, request, {});
    LiveIsUnique(Msgs(h), x);
    FromPageIds(page, live, h.deleted, request, {});
    if x.id in OlderPage.KnownIds(p) {
      var y :| y in p && y.id == x.id;
      FromPageOrigin(page, live, h.deleted, request, {}, y);
      assert y == x;
    } else {
      FromLiveComplete(Msgs(h), h.deleted, request, OlderPage.KnownIds(p), x);
    }
  }

  // ---- the loops of mergeInitialHistory

  method MergeInitialHistory(h: Hist, incoming: seq<Message>, request: Rev) returns (merged: seq<Message>)
    ensures merged == Merge(h, incoming, request)
  {
    var current := Msgs(h);
    var currentById := IndexLive(current);
    var known;
    merged, known := TakePage(incoming, currentById, h.deleted, request);
    var rest := TakeLive(current, h.deleted, request, known);
    merged := merged + rest;
  }

  method IndexLive(current: seq<Message>) returns (live: map<MessageId, Message>)
    ensures live == LiveById(current)
  {
    live := map[];
    for i := 0 to |current|
      invariant live == LiveById(current[..i])
    {
      assert current[..i + 1][..i] == current[..i];
      if current[i].id != 0 {
        live := live[current[i].id := current[i]];
      }
    }
    assert current[..|current|] == current;
  }

  method TakePage(page: seq<Message>, live: map<MessageId, Message>, deleted: map<MessageId, Rev>, request: Rev)
    returns (merged: seq<Message>, known: set<MessageId>)
    requires forall id :: id in live ==> live[id].id == id
    ensures merged == FromPage(page, live, deleted, request, {})
    ensures known == OlderPage.KnownIds(merged)
  {
    merged, known := [], {};
    ghost var goal := FromPage(page, live, deleted, request, {});
    for i := 0 to |page|
      invariant merged + FromPage(page[i..], live, deleted, request, known) == goal
      invariant known == OlderPage.KnownIds(merged)
    {
      assert page[i..][1..] == page[i + 1..];
      var m := page[i];
      if m.id != 0 {
        if m.id in deleted { continue; }
        if m.id in known { continue; }
        known := known + {m.id};
        if m.id in live && live[m.id].rev > request {
          m := live[m.id];
        }
      }
      assert merged + [m] + FromPage(page[i + 1..], live, deleted, request, known) == goal by {
        Regroup(merged, m, FromPage(page[i + 1..], live, deleted, request, known));
      }
      KnownIdsSnoc(merged, m);
      merged := merged + [m];
    }
  }

  lemma Regroup(a: seq<Message>, m: Message, b: seq<Message>)
    ensures a + [m] + b == a + ([m] + b)
  {
  }

  lemma KnownIdsSnoc(s: seq<Message>, m: Message)
    ensures OlderPage.KnownIds(s + [m]) == OlderPage.KnownIds(s) + if m.id == 0 then {} else {m.id}
  {
  }

  method TakeLive(current: seq<Message>, deleted: map<MessageId, Rev>, request: Rev, known: set<MessageId>)
    returns (merged: seq<Message>)
    ensures merged == FromLive(current, deleted, request, known)
  {
    merged := [];
    var seen := known;
    for i := 0 to |current|
      invariant merged + FromLive(current[i..], deleted, request, seen) == FromLive(current, deleted, request, known)
    {
      assert current[i..][1..] == current[i + 1..];
      var m := current[i];
      if m.id == 0 || m.pending || m.failed || m.rev <= request { continue; }
      if m.id in deleted { continue; }
      if m.id in seen { continue; }
      seen := seen + {m.id};
      merged := merged + [m];
    }
  }
}
