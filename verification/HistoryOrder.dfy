/** Which messages a history page puts where: older ones above what is shown,
    an initial page above what is newer, the client's own echoes last. */
module HistoryOrder {
  import opened Collections
  import opened Messages
  import opened History
  import InitialPage
  import OlderPage

  /** `r` shows, restamped and in the same order, the messages at these places of `s`. */
  ghost predicate ShowsInOrder(r: seq<Message>, s: seq<Message>, at: seq<nat>) {
    && |at| == |r|
    && (forall i :: 0 <= i < |at| ==> at[i] < |s| && Restamped(r[i], s[at[i]]))
    && (forall i, j :: 0 <= i < j < |at| ==> at[i] < at[j])
  }

  /** Neither shown already nor deleted nor repeated earlier on the page; messages without an id always are taken. */
  predicate Takes(page: seq<Message>, shown: seq<Message>, deleted: map<MessageId, Rev>, i: nat)
    requires i < |page|
  {
    var id := page[i].id;
    id == 0 || (id !in deleted && !HasId(shown, id) && !HasId(page[..i], id))
  }

  // ---- the page's messages by their places

  predicate Taken(page: seq<Message>, known: set<MessageId>, deleted: map<MessageId, Rev>, i: nat)
    requires i < |page|
  {
    var id := page[i].id;
    id == 0 || (id !in deleted && id !in known && !HasId(page[..i], id))
  }

  function TakenMask(page: seq<Message>, known: set<MessageId>, deleted: map<MessageId, Rev>): seq<bool> {
    seq(|page|, i requires 0 <= i < |page| => Taken(page, known, deleted, i))
  }

  function Seen(m: Message, known: set<MessageId>, deleted: map<MessageId, Rev>): set<MessageId> {
    if m.id == 0 || m.id in deleted || m.id in known then known else known + {m.id}
  }

  lemma HasIdCons(m: Message, rest: seq<Message>, id: MessageId)
    ensures HasId([m] + rest, id) <==> m.id == id || HasId(rest, id)
  {
    var s := [m] + rest;
    assert m.id == id ==> s[0].id == id;
    assert forall k :: 0 <= k < |rest| ==> s[k + 1] == rest[k];
    if HasId(s, id) && m.id != id {
      var k :| 0 <= k < |s| && s[k].id == id;
      assert rest[k - 1].id == id;
    }
  }

  lemma TakenMaskTail(page: seq<Message>, known: set<MessageId>, deleted: map<MessageId, Rev>)
    requires page != []
    ensures TakenMask(page, known, deleted)[1..] == TakenMask(page[1..], Seen(page[0], known, deleted), deleted)
  {
    forall i | 0 <= i < |page| - 1
      ensures Taken(page, known, deleted, i + 1) == Taken(page[1..], Seen(page[0], known, deleted), deleted, i)
    {
      HasIdCons(page[0], page[1..][..i], page[i + 1].id);
      assert page[..i + 1] == [page[0]] + page[1..][..i];
      hide HasId;
    }
  }

  lemma {:induction false} FreshIsTaken(page: seq<Message>, known: set<MessageId>, deleted: map<MessageId, Rev>)
    ensures OlderPage.Fresh(page, known, deleted) == OlderPage.Select(page, TakenMask(page, known, deleted))
  {
    if page != [] {
      TakenMaskTail(page, known, deleted);
      FreshIsTaken(page[1..], Seen(page[0], known, deleted), deleted);
      assert TakenMask(page, known, deleted)[0] == Taken(page, known, deleted, 0);
      assert !HasId(page[..0], page[0].id);
    }
  }

  lemma ShownIds(shown: seq<Message>, id: MessageId)
    requires id != 0
    ensures id in OlderPage.KnownIds(shown) <==> HasId(shown, id)
  {
    if HasId(shown, id) {
      var k :| 0 <= k < |shown| && shown[k].id == id;
      assert shown[k] in shown;
    }
  }

  /** The combined list is the taken page messages in page order, then the window. */
  lemma CombinedInOrder(page: seq<Message>, shown: seq<Message>, deleted: map<MessageId, Rev>) returns (at: seq<nat>)
    ensures var c := OlderPage.Combined(page, shown, deleted);
            |at| <= |c| && OlderPage.PicksInOrder(c[..|at|], page, at) && c[|at|..] == shown
    ensures forall i :: 0 <= i < |page| ==> (i in at <==> Takes(page, shown, deleted, i))
  {
    var known := OlderPage.KnownIds(shown);
    var mask := TakenMask(page, known, deleted);
    FreshIsTaken(page, known, deleted);
    at := OlderPage.SelectPicks(page, mask);
    forall i | 0 <= i < |page|
      ensures mask[i] == Takes(page, shown, deleted, i)
    {
      if page[i].id != 0 { ShownIds(shown, page[i].id); }
    }
    hide OlderPage.Fresh, OlderPage.Select, Takes, TakenMask;
    assert OlderPage.Combined(page, shown, deleted)[..|at|] == OlderPage.Fresh(page, known, deleted);
  }

  /** Increasing places split at a bound. */
  lemma {:induction false} SplitAt(at: seq<nat>, bound: nat) returns (n: nat)
    requires forall i, j :: 0 <= i < j < |at| ==> at[i] < at[j]
    ensures n <= |at| && (forall i :: 0 <= i < n ==> at[i] < bound) && (forall i :: n <= i < |at| ==> bound <= at[i])
  {
    if at == [] || at[0] >= bound {
      n := 0;
    } else {
      n := SplitAt(at[1..], bound);
      assert forall i :: 1 <= i < |at| ==> at[i] == at[1..][i - 1];
      n := n + 1;
    }
  }

  lemma {:induction false} SamePlaces(s: seq<Message>) returns (at: seq<nat>)
    ensures ShowsInOrder(s, s, at)
  {
    at := seq(|s|, i requires 0 <= i < |s| => i);
  }

  /** Picks among the places that were picked from `a`. */
  lemma PicksCompose(r: seq<Message>, c: seq<Message>, at: seq<nat>, a: seq<Message>, from: seq<nat>)
      returns (into: seq<nat>)
    requires OlderPage.PicksInOrder(r, c, at) && OlderPage.PicksInOrder(c, a, from)
    ensures OlderPage.PicksInOrder(r, a, into)
    ensures |into| == |at| && forall i :: 0 <= i < |at| ==> at[i] < |from| && into[i] == from[at[i]]
  {
    into := seq(|at|, i requires 0 <= i < |at| => from[at[i]]);
    forall i, j | 0 <= i < j < |at|
      ensures into[i] < into[j]
    {
      assert at[i] < at[j];
    }
  }

  lemma PicksBefore(r: seq<Message>, c: seq<Message>, at: seq<nat>, bound: nat, n: nat)
    requires OlderPage.PicksInOrder(r, c, at) && bound <= |c| && n <= |at|
    requires forall i :: 0 <= i < n ==> at[i] < bound
    ensures OlderPage.PicksInOrder(r[..n], c[..bound], at[..n])
  {
    forall i | 0 <= i < n
      ensures r[..n][i] == c[..bound][at[..n][i]]
    {
      assert r[i] == c[at[i]];
    }
  }

  lemma PicksBehind(r: seq<Message>, c: seq<Message>, at: seq<nat>, bound: nat, n: nat) returns (behind: seq<nat>)
    requires OlderPage.PicksInOrder(r, c, at) && bound <= |c| && n <= |at|
    requires forall i :: n <= i < |at| ==> bound <= at[i]
    ensures OlderPage.PicksInOrder(r[n..], c[bound..], behind)
  {
    behind := seq(|at| - n, i requires 0 <= i < |at| - n => at[n + i] - bound);
    forall i | 0 <= i < |behind|
      ensures behind[i] < |c| - bound && r[n..][i] == c[bound..][behind[i]]
    {
      assert at[n + i] < |c| && r[n + i] == c[at[n + i]];
    }
    forall i, j | 0 <= i < j < |behind|
      ensures behind[i] < behind[j]
    {
      assert at[n + i] < at[n + j];
    }
  }

  /** Picks split at a bound. */
  lemma PicksSplit(r: seq<Message>, c: seq<Message>, at: seq<nat>, bound: nat)
      returns (n: nat, before: seq<nat>, behind: seq<nat>)
    requires OlderPage.PicksInOrder(r, c, at) && bound <= |c|
    ensures n <= |r| && before == at[..n] && OlderPage.PicksInOrder(r[..n], c[..bound], before)
    ensures OlderPage.PicksInOrder(r[n..], c[bound..], behind)
  {
    n := SplitAt(at, bound);
    before := at[..n];
    PicksBefore(r, c, at, bound, n);
    behind := PicksBehind(r, c, at, bound, n);
  }

  lemma StampShows(r: seq<Message>, rev: Rev, s: seq<Message>, at: seq<nat>, from: nat, to: nat)
    requires from <= to <= |r| && OlderPage.PicksInOrder(r[from..to], s, at)
    ensures ShowsInOrder(Stamp(r, rev)[from..to], s, at)
  {
    forall i | 0 <= i < |at|
      ensures Restamped(Stamp(r, rev)[from..to][i], s[at[i]])
    {
      assert r[from..to][i] == r[from + i] && Stamp(r, rev)[from..to][i] == Stamp(r, rev)[from + i];
    }
  }

  /** An older page never lands below what is shown: first come page messages in page order,
      each taken by the rule above, then the messages that were shown in their order. */
  lemma OlderPageComesFirst(h: Hist, page: seq<Message>, request: Rev, limit: nat)
      returns (n: nat, atPage: seq<nat>, atShown: seq<nat>)
    requires limit > 0
    ensures var r := Msgs(PrependSince(h, page, request, limit));
            n <= |r| && ShowsInOrder(r[..n], page, atPage) && ShowsInOrder(r[n..], Msgs(h), atShown)
    ensures forall i :: 0 <= i < n ==> i < |atPage| && atPage[i] < |page| && Takes(page, Msgs(h), h.deleted, atPage[i])
  {
    hide OlderPage.Bounded, OlderPage.Combined, Takes;
    var shown := Msgs(h);
    if page == [] {
      n, atPage := 0, [];
      atShown := SamePlaces(shown);
      assert shown[..0] == [] && shown[0..] == shown;
    } else {
      var c := OlderPage.Combined(page, shown, h.deleted);
      var b := OlderPage.Bounded(c, request, limit);
      var from := CombinedInOrder(page, shown, h.deleted);
      var at := OlderPage.BoundedIff(c, request, limit);
      var before;
      n, before, atShown := PicksSplit(b, c, at, |from|);
      atPage := PicksCompose(b[..n], c[..|from|], before, page, from);
      forall i | 0 <= i < n
        ensures atPage[i] < |page| && Takes(page, shown, h.deleted, atPage[i])
      {
        assert atPage[i] == from[before[i]] && atPage[i] in from;
      }
      var r := Msgs(PrependSince(h, page, request, limit));
      assert r == Stamp(b, h.rev);
      StampShows(b, h.rev, page, atPage, 0, n);
      StampShows(b, h.rev, shown, atShown, n, |b|);
      assert b[0..n] == b[..n] && b[n..|b|] == b[n..] && r[0..n] == r[..n] && r[n..|b|] == r[n..];
    }
  }

  // ---- which messages stay

  /** Local echoes and changes newer than the request, which no older page displaces. */
  predicate Firm(m: Message, request: Rev) { m.pending || m.failed || m.rev > request }

  function Firms(s: seq<Message>, request: Rev): nat {
    if s == [] then 0 else (if Firm(s[0], request) then 1 else 0) + Firms(s[1..], request)
  }

  function Others(s: seq<Message>, request: Rev): nat {
    if s == [] then 0 else (if Firm(s[0], request) then 0 else 1) + Others(s[1..], request)
  }

  /** Firm messages stay, or when they alone fill the window the newest of them. Of the others stay the newest,
      up to half of the limit and short of the place kept for an older one, and then the oldest while places last. */
  predicate Keeps(s: seq<Message>, request: Rev, limit: nat, i: nat)
    requires i < |s|
  {
    var firm := Firms(s, request);
    if firm >= limit then Firm(s[i], request) && Firms(s[i..], request) <= limit
    else
      var newest := if (limit + 1) / 2 < limit - firm - 1 then (limit + 1) / 2 else limit - firm - 1;
      var filled := if |s| < firm + newest then |s| else firm + newest;
      Firm(s[i], request) || Others(s[i + 1..], request) < newest || Others(s[..i], request) < limit - filled
  }

  lemma {:induction false} FirmsCounted(s: seq<Message>, request: Rev)
    ensures OlderPage.Count(OlderPage.ProtectedMask(s, request)) == Firms(s, request)
    ensures OlderPage.Displaceable(s, request) == Others(s, request)
  {
    if s != [] {
      FirmsCounted(s[1..], request);
      assert OlderPage.ProtectedMask(s, request)[1..] == OlderPage.ProtectedMask(s[1..], request);
    }
  }

  lemma KeepsIff(s: seq<Message>, request: Rev, limit: nat, i: nat)
    requires i < |s| && limit > 0
    ensures OlderPage.Stays(s, request, limit, i) <==> Keeps(s, request, limit, i)
  {
    FirmsCounted(s, request);
    FirmsCounted(s[i..], request);
    FirmsCounted(s[i + 1..], request);
    FirmsCounted(s[..i], request);
    NewestAre(limit, Firms(s, request));
    hide OlderPage.Count, OlderPage.ProtectedMask, OlderPage.Displaceable, OlderPage.RecentBudget, Firms, Others;
  }

  lemma NewestAre(limit: nat, firm: nat)
    ensures firm < limit ==>
              OlderPage.RecentBudget(limit, firm) ==
              if (limit + 1) / 2 < limit - firm - 1 then (limit + 1) / 2 else limit - firm - 1
  {
  }

  /** The window after an older page, whole: of the taken page messages followed by the window, those that stay. */
  lemma OlderPageIs(h: Hist, page: seq<Message>, request: Rev, limit: nat)
      returns (all: seq<Message>, from: seq<nat>, at: seq<nat>)
    requires limit > 0 && page != []
    ensures |from| <= |all| && OlderPage.PicksInOrder(all[..|from|], page, from) && all[|from|..] == Msgs(h)
    ensures forall i :: 0 <= i < |page| ==> (i in from <==> Takes(page, Msgs(h), h.deleted, i))
    ensures ShowsInOrder(Msgs(PrependSince(h, page, request, limit)), all, at)
    ensures forall i :: 0 <= i < |all| ==> (i in at <==> Keeps(all, request, limit, i))
  {
    all := OlderPage.Combined(page, Msgs(h), h.deleted);
    from := CombinedInOrder(page, Msgs(h), h.deleted);
    hide OlderPage.Bounded, OlderPage.Combined, Takes, Keeps, OlderPage.Stays;
    at := OlderPage.BoundedIff(all, request, limit);
    forall i | 0 <= i < |all|
      ensures i in at <==> Keeps(all, request, limit, i)
    {
      KeepsIff(all, request, limit, i);
    }
    var b := OlderPage.Bounded(all, request, limit);
    assert b[0..|b|] == b && Stamp(b, h.rev)[0..|b|] == Stamp(b, h.rev);
    StampShows(b, h.rev, all, at, 0, |b|);
    assert Msgs(PrependSince(h, page, request, limit)) == Stamp(b, h.rev);
  }

  // ---- with room, an older page moves the oldest edge

  lemma {:induction false} SelectedProtected(s: seq<Message>, mask: seq<bool>, request: Rev)
    requires |s| == |mask|
    ensures OlderPage.Count(OlderPage.ProtectedMask(OlderPage.Select(s, mask), request)) <=
            OlderPage.Count(OlderPage.ProtectedMask(s, request))
  {
    if s != [] {
      SelectedProtected(s[1..], mask[1..], request);
      var rest := OlderPage.Select(s[1..], mask[1..]);
      assert OlderPage.ProtectedMask(s, request)[1..] == OlderPage.ProtectedMask(s[1..], request);
      if mask[0] {
        assert OlderPage.ProtectedMask([s[0]] + rest, request)[1..] == OlderPage.ProtectedMask(rest, request);
      } else {
        assert [] + rest == rest;
      }
    }
  }

  lemma CombinedProtected(page: seq<Message>, shown: seq<Message>, deleted: map<MessageId, Rev>, request: Rev)
    ensures OlderPage.Count(OlderPage.ProtectedMask(OlderPage.Combined(page, shown, deleted), request)) <=
            OlderPage.Count(OlderPage.ProtectedMask(page, request)) +
            OlderPage.Count(OlderPage.ProtectedMask(shown, request))
  {
    var known := OlderPage.KnownIds(shown);
    var f := OlderPage.Fresh(page, known, deleted);
    FreshIsTaken(page, known, deleted);
    SelectedProtected(page, TakenMask(page, known, deleted), request);
    OlderPage.CountConcat(OlderPage.ProtectedMask(f, request), OlderPage.ProtectedMask(shown, request));
    assert OlderPage.ProtectedMask(f + shown, request) ==
      OlderPage.ProtectedMask(f, request) + OlderPage.ProtectedMask(shown, request);
  }

  /** Unless the entries that may not be displaced fill the window, it then starts with the page's
      first message that is taken: paging moves on. */
  lemma OlderPageAdvances(h: Hist, page: seq<Message>, request: Rev, limit: nat, p: nat)
    requires OlderPage.Count(OlderPage.ProtectedMask(page, request)) +
             OlderPage.Count(OlderPage.ProtectedMask(Msgs(h), request)) < limit
    requires p < |page| && Takes(page, Msgs(h), h.deleted, p)
    requires forall q :: 0 <= q < p ==> !Takes(page, Msgs(h), h.deleted, q)
    ensures var r := Msgs(PrependSince(h, page, request, limit));
            r != [] && Restamped(r[0], page[p])
  {
    var c := OlderPage.Combined(page, Msgs(h), h.deleted);
    CombinedProtected(page, Msgs(h), h.deleted, request);
    var at := CombinedInOrder(page, Msgs(h), h.deleted);
    hide OlderPage.Combined, OlderPage.Bounded, OlderPage.ProtectedMask, OlderPage.Count, Takes;
    assert p in at;
    assert at[0] in at && at[0] <= p;
    assert c[..|at|][0] == c[0];
    var kept := OlderPage.BoundedWithRoom(c, request, limit);
  }

  // ---- ids that increase

  /** Confirmed messages stand in the order of their ids. */
  ghost predicate Ascending(s: seq<Message>) {
    forall i, j :: 0 <= i < j < |s| && s[i].id != 0 && s[j].id != 0 ==> s[i].id < s[j].id
  }

  ghost predicate Below(s: seq<Message>, t: seq<Message>) {
    forall m, l :: m in s && l in t && m.id != 0 && l.id != 0 ==> m.id < l.id
  }

  lemma ShownAscend(r: seq<Message>, s: seq<Message>, at: seq<nat>)
    requires ShowsInOrder(r, s, at) && Ascending(s)
    ensures Ascending(r)
  {
    forall i, j | 0 <= i < j < |r| && r[i].id != 0 && r[j].id != 0
      ensures r[i].id < r[j].id
    {
      assert r[i].id == s[at[i]].id && r[j].id == s[at[j]].id && at[i] < at[j];
    }
  }

  lemma AscendingJoin(r: seq<Message>, n: nat)
    requires n <= |r| && Ascending(r[..n]) && Ascending(r[n..]) && Below(r[..n], r[n..])
    ensures Ascending(r)
  {
    forall i, j | 0 <= i < j < |r| && r[i].id != 0 && r[j].id != 0
      ensures r[i].id < r[j].id
    {
      if j < n {
        assert r[..n][i] == r[i] && r[..n][j] == r[j];
      } else if i < n {
        assert r[..n][i] == r[i] && r[n..][j - n] == r[j];
        assert r[i] in r[..n] && r[j] in r[n..];
      } else {
        assert r[n..][i - n] == r[i] && r[n..][j - n] == r[j];
      }
    }
  }

  /** Ids that increase along page and window still increase when the page is older than what is shown. */
  lemma OlderPageAscends(h: Hist, page: seq<Message>, request: Rev, limit: nat)
    requires limit > 0 && Ascending(page) && Ascending(Msgs(h))
    requires forall m, l :: m in page && l in Msgs(h) && m.id != 0 && l.id != 0 && !HasId(Msgs(h), m.id) ==>
               m.id < l.id
    ensures Ascending(Msgs(PrependSince(h, page, request, limit)))
  {
    var r := Msgs(PrependSince(h, page, request, limit));
    var n, atPage, atShown := OlderPageComesFirst(h, page, request, limit);
    hide PrependSince;
    ShownAscend(r[..n], page, atPage);
    ShownAscend(r[n..], Msgs(h), atShown);
    forall m, l | m in r[..n] && l in r[n..] && m.id != 0 && l.id != 0
      ensures m.id < l.id
    {
      var i :| 0 <= i < n && r[..n][i] == m;
      var j :| 0 <= j < |r[n..]| && r[n..][j] == l;
      assert page[atPage[i]] in page && Msgs(h)[atShown[j]] in Msgs(h);
    }
    AscendingJoin(r, n);
  }

  // ---- an initial page and what is newer than its request

  /** Confirmed and changed after the request. */
  predicate NewerLive(m: Message, request: Rev) { m.id != 0 && !m.pending && !m.failed && m.rev > request }

  /** Newer than the request, not deleted, not on the page, and the window's first such message of its id. */
  predicate Adds(shown: seq<Message>, page: seq<Message>, deleted: map<MessageId, Rev>, request: Rev, j: nat)
    requires j < |shown|
  {
    var m := shown[j];
    NewerLive(m, request) && m.id !in deleted && !HasId(page, m.id) &&
    forall l :: 0 <= l < j && NewerLive(shown[l], request) ==> shown[l].id != m.id
  }

  /** The window's last message of an id. */
  ghost predicate LastOf(shown: seq<Message>, k: nat, id: MessageId) {
    k < |shown| && id != 0 && shown[k].id == id && forall j :: k < j < |shown| ==> shown[j].id != id
  }

  /** A page message, or the window's last copy of it when that changed after the request. */
  ghost predicate Stands(x: Message, m: Message, shown: seq<Message>, request: Rev) {
    || (x == m && forall k: nat :: LastOf(shown, k, m.id) ==> shown[k].rev <= request)
    || exists k: nat :: LastOf(shown, k, m.id) && shown[k].rev > request && x == shown[k]
  }

  /** What stands for a page message, up to its revision. */
  ghost predicate StandsRestamped(x: Message, m: Message, shown: seq<Message>, request: Rev) {
    exists y :: Stands(y, m, shown, request) && Restamped(x, y)
  }

  /** `r` shows, restamped and in the same order, what the page messages at these places stand for. */
  ghost predicate StandInOrder(r: seq<Message>, page: seq<Message>, at: seq<nat>, shown: seq<Message>, request: Rev) {
    && |at| == |r|
    && (forall i :: 0 <= i < |at| ==> at[i] < |page| && StandsRestamped(r[i], page[at[i]], shown, request))
    && (forall i, j :: 0 <= i < j < |at| ==> at[i] < at[j])
  }

  lemma LiveStep(shown: seq<Message>)
    requires shown != []
    ensures var last := shown[|shown| - 1];
            var rest := InitialPage.LiveById(shown[..|shown| - 1]);
            InitialPage.LiveById(shown) == if last.id == 0 then rest else rest[last.id := last]
  {
  }

  lemma {:induction false} LiveIsLast(shown: seq<Message>, k: nat, id: MessageId)
    requires LastOf(shown, k, id)
    ensures id in InitialPage.LiveById(shown) && InitialPage.LiveById(shown)[id] == shown[k]
  {
    var n := |shown| - 1;
    LiveStep(shown);
    hide InitialPage.LiveById;
    if k < n {
      assert shown[n].id != id;
      assert LastOf(shown[..n], k, id);
      hide LastOf;
      LiveIsLast(shown[..n], k, id);
    }
  }

  lemma {:induction false} LastExists(shown: seq<Message>, id: MessageId) returns (k: nat)
    requires id != 0 && HasId(shown, id)
    ensures LastOf(shown, k, id)
  {
    var n := |shown| - 1;
    k := n;
    if shown[n].id != id {
      var i :| 0 <= i < |shown| && shown[i].id == id;
      assert shown[..n][i].id == id;
      k := LastExists(shown[..n], id);
      assert forall j :: k < j < n ==> shown[j] == shown[..n][j];
    }
  }

  lemma LiveHasLast(shown: seq<Message>, id: MessageId) returns (k: nat)
    requires id in InitialPage.LiveById(shown)
    ensures LastOf(shown, k, id)
  {
    var m := InitialPage.LiveById(shown)[id];
    var i :| 0 <= i < |shown| && shown[i] == m;
    k := LastExists(shown, id);
  }

  lemma NewerStands(m: Message, shown: seq<Message>, request: Rev)
    ensures Stands(InitialPage.Newer(m, InitialPage.LiveById(shown), request), m, shown, request)
  {
    var live := InitialPage.LiveById(shown);
    hide InitialPage.LiveById;
    if m.id in live {
      var k := LiveHasLast(shown, m.id);
      LiveIsLast(shown, k, m.id);
    } else {
      forall k: nat
        ensures !LastOf(shown, k, m.id)
      {
        if LastOf(shown, k, m.id) { LiveIsLast(shown, k, m.id); }
      }
    }
  }

  lemma FromPageStep(page: seq<Message>, live: map<MessageId, Message>, deleted: map<MessageId, Rev>,
      request: Rev, known: set<MessageId>)
    requires 0 !in live && page != []
    ensures InitialPage.FromPage(page, live, deleted, request, known) ==
            (if Taken(page, known, deleted, 0) then [InitialPage.Newer(page[0], live, request)] else []) +
            InitialPage.FromPage(page[1..], live, deleted, request, Seen(page[0], known, deleted))
  {
    assert !HasId(page[..0], page[0].id);
  }

  lemma {:induction false} FromPageIsTaken(page: seq<Message>, live: map<MessageId, Message>,
      deleted: map<MessageId, Rev>, request: Rev, known: set<MessageId>)
    requires 0 !in live
    ensures var p := InitialPage.FromPage(page, live, deleted, request, known);
            var s := OlderPage.Select(page, TakenMask(page, known, deleted));
            |p| == |s| && forall i :: 0 <= i < |s| ==> p[i] == InitialPage.Newer(s[i], live, request)
  {
    if page != [] {
      TakenMaskTail(page, known, deleted);
      FromPageStep(page, live, deleted, request, known);
      FromPageIsTaken(page[1..], live, deleted, request, Seen(page[0], known, deleted));
      assert TakenMask(page, known, deleted)[0] == Taken(page, known, deleted, 0);
      hide InitialPage.FromPage, Taken, TakenMask, Seen, InitialPage.Newer;
    }
  }

  predicate Added(shown: seq<Message>, known: set<MessageId>, deleted: map<MessageId, Rev>, request: Rev, j: nat)
    requires j < |shown|
  {
    var m := shown[j];
    NewerLive(m, request) && m.id !in deleted && m.id !in known &&
    forall l :: 0 <= l < j && NewerLive(shown[l], request) ==> shown[l].id != m.id
  }

  function AddedMask(shown: seq<Message>, known: set<MessageId>, deleted: map<MessageId, Rev>, request: Rev)
    : seq<bool>
  {
    seq(|shown|, j requires 0 <= j < |shown| => Added(shown, known, deleted, request, j))
  }

  lemma AddedTail(shown: seq<Message>, known: set<MessageId>, deleted: map<MessageId, Rev>, request: Rev, j: nat)
    requires j + 1 < |shown|
    ensures var m := shown[0];
            var known' := if NewerLive(m, request) && m.id !in deleted && m.id !in known then known + {m.id} else known;
            Added(shown, known, deleted, request, j + 1) == Added(shown[1..], known', deleted, request, j)
  {
    var rest := shown[1..];
    assert forall l :: 0 <= l < |rest| ==> rest[l] == shown[l + 1];
    if forall l :: 0 <= l < j && NewerLive(rest[l], request) ==> rest[l].id != rest[j].id {
      forall l | 1 <= l < j + 1 && NewerLive(shown[l], request)
        ensures shown[l].id != shown[j + 1].id
      {
        assert rest[l - 1] == shown[l];
      }
    }
  }

  function SeenLive(m: Message, known: set<MessageId>, deleted: map<MessageId, Rev>, request: Rev): set<MessageId> {
    if NewerLive(m, request) && m.id !in deleted && m.id !in known then known + {m.id} else known
  }

  lemma AddedMaskTail(shown: seq<Message>, known: set<MessageId>, deleted: map<MessageId, Rev>, request: Rev)
    requires shown != []
    ensures AddedMask(shown, known, deleted, request)[1..] ==
            AddedMask(shown[1..], SeenLive(shown[0], known, deleted, request), deleted, request)
  {
    var known' := SeenLive(shown[0], known, deleted, request);
    var a, b := AddedMask(shown, known, deleted, request)[1..], AddedMask(shown[1..], known', deleted, request);
    assert |a| == |b|;
    forall j | 0 <= j < |a|
      ensures a[j] == b[j]
    {
      AddedTail(shown, known, deleted, request, j);
      hide Added;
      assert a[j] == Added(shown, known, deleted, request, j + 1) &&
        b[j] == Added(shown[1..], known', deleted, request, j);
    }
  }

  lemma {:induction false} FromLiveIsAdded(shown: seq<Message>, deleted: map<MessageId, Rev>, request: Rev,
      known: set<MessageId>)
    ensures InitialPage.FromLive(shown, deleted, request, known) ==
            OlderPage.Select(shown, AddedMask(shown, known, deleted, request))
  {
    if shown != [] {
      FromLiveIsAdded(shown[1..], deleted, request, SeenLive(shown[0], known, deleted, request));
      AddedMaskTail(shown, known, deleted, request);
      AddedFirst(shown, known, deleted, request);
      assert AddedMask(shown, known, deleted, request)[0] == Added(shown, known, deleted, request, 0);
      hide Added, AddedMask;
    }
  }

  lemma AddedFirst(shown: seq<Message>, known: set<MessageId>, deleted: map<MessageId, Rev>, request: Rev)
    requires shown != []
    ensures var m := shown[0];
            Added(shown, known, deleted, request, 0) ==
            (!InitialPage.Skipped(m, request) && m.id !in deleted && m.id !in known)
  {
  }

  // ---- the merge in order

  /** The page's part stands for the taken page messages, at their places. */
  lemma PagePartInOrder(h: Hist, page: seq<Message>, request: Rev) returns (at: seq<nat>)
    ensures var p := InitialPage.FromPage(page, InitialPage.LiveById(Msgs(h)), h.deleted, request, {});
            StandInOrder(p, page, at, Msgs(h), request)
    ensures forall i :: 0 <= i < |page| ==> (i in at <==> Takes(page, [], h.deleted, i))
  {
    var live := InitialPage.LiveById(Msgs(h));
    var mask := TakenMask(page, {}, h.deleted);
    var s := OlderPage.Select(page, mask);
    FromPageIsTaken(page, live, h.deleted, request, {});
    at := OlderPage.SelectPicks(page, mask);
    assert forall i :: 0 <= i < |page| ==> mask[i] == Takes(page, [], h.deleted, i);
    hide OlderPage.Select, TakenMask, Takes, Stands, InitialPage.LiveById, InitialPage.FromPage, InitialPage.Newer;
    var p := InitialPage.FromPage(page, live, h.deleted, request, {});
    forall i | 0 <= i < |at|
      ensures at[i] < |page| && StandsRestamped(p[i], page[at[i]], Msgs(h), request)
    {
      NewerStands(page[at[i]], Msgs(h), request);
      assert Restamped(p[i], InitialPage.Newer(page[at[i]], live, request));
    }
  }

  /** The ids of the page's part are the page's ids without the deleted ones. */
  lemma PagePartIds(h: Hist, page: seq<Message>, request: Rev, id: MessageId)
    requires id != 0 && id !in h.deleted
    ensures var p := InitialPage.FromPage(page, InitialPage.LiveById(Msgs(h)), h.deleted, request, {});
            id in OlderPage.KnownIds(p) <==> HasId(page, id)
  {
    var live := InitialPage.LiveById(Msgs(h));
    var p := InitialPage.FromPage(page, live, h.deleted, request, {});
    ShownIds(p, id);
    if HasId(page, id) {
      InitialPage.FromPageComplete(page, live, h.deleted, request, {}, id);
    }
    if HasId(p, id) { PartIdOnPage(h, page, request, id); }
  }

  lemma PartIdOnPage(h: Hist, page: seq<Message>, request: Rev, id: MessageId)
    requires HasId(InitialPage.FromPage(page, InitialPage.LiveById(Msgs(h)), h.deleted, request, {}), id)
    ensures HasId(page, id)
  {
    var live := InitialPage.LiveById(Msgs(h));
    var p := InitialPage.FromPage(page, live, h.deleted, request, {});
    var k :| 0 <= k < |p| && p[k].id == id;
    InitialPage.FromPageOrigin(page, live, h.deleted, request, {}, p[k]);
    var m :| m in page && m.id == id;
    var i :| 0 <= i < |page| && page[i] == m;
  }

  lemma LivePartInOrder(h: Hist, page: seq<Message>, request: Rev) returns (at: seq<nat>)
    ensures var p := InitialPage.FromPage(page, InitialPage.LiveById(Msgs(h)), h.deleted, request, {});
            ShowsInOrder(InitialPage.FromLive(Msgs(h), h.deleted, request, OlderPage.KnownIds(p)), Msgs(h), at)
    ensures forall j :: 0 <= j < |Msgs(h)| ==> (j in at <==> Adds(Msgs(h), page, h.deleted, request, j))
  {
    var shown := Msgs(h);
    var known := OlderPage.KnownIds(InitialPage.FromPage(page, InitialPage.LiveById(shown), h.deleted, request, {}));
    var mask := AddedMask(shown, known, h.deleted, request);
    FromLiveIsAdded(shown, h.deleted, request, known);
    at := OlderPage.SelectPicks(shown, mask);
    forall j | 0 <= j < |shown|
      ensures mask[j] == Adds(shown, page, h.deleted, request, j)
    {
      if shown[j].id != 0 && shown[j].id !in h.deleted { PagePartIds(h, page, request, shown[j].id); }
    }
  }

  /** The merge shows the page in page order, each message as itself or as its newer live copy,
      and below it the newer live messages the page does not hold, in window order. */
  lemma MergeInOrder(h: Hist, page: seq<Message>, request: Rev) returns (n: nat, atPage: seq<nat>, atLive: seq<nat>)
    ensures var merged := InitialPage.Merge(h, page, request);
            n <= |merged| && StandInOrder(merged[..n], page, atPage, Msgs(h), request) &&
            ShowsInOrder(merged[n..], Msgs(h), atLive)
    ensures forall i :: 0 <= i < |page| ==> (i in atPage <==> Takes(page, [], h.deleted, i))
    ensures forall j :: 0 <= j < |Msgs(h)| ==> (j in atLive <==> Adds(Msgs(h), page, h.deleted, request, j))
  {
    var p := InitialPage.FromPage(page, InitialPage.LiveById(Msgs(h)), h.deleted, request, {});
    var l := InitialPage.FromLive(Msgs(h), h.deleted, request, OlderPage.KnownIds(p));
    n := |p|;
    atPage := PagePartInOrder(h, page, request);
    atLive := LivePartInOrder(h, page, request);
    hide InitialPage.FromPage, InitialPage.FromLive, Takes, Adds;
    var merged := InitialPage.Merge(h, page, request);
    assert merged[..n] == p && merged[n..] == l;
  }

  function EchoMask(s: seq<Message>, confirmed: set<string>): seq<bool> {
    seq(|s|, i requires 0 <= i < |s| => IsEcho(s[i], confirmed))
  }

  lemma {:induction false} EchoesSelected(s: seq<Message>, confirmed: set<string>)
    ensures Echoes(s, confirmed) == OlderPage.Select(s, EchoMask(s, confirmed))
  {
    if s != [] {
      EchoesSelected(s[1..], confirmed);
      assert EchoMask(s, confirmed)[1..] == EchoMask(s[1..], confirmed);
    }
  }

  lemma EchoesInOrder(s: seq<Message>, confirmed: set<string>) returns (at: seq<nat>)
    ensures ShowsInOrder(Echoes(s, confirmed), s, at)
    ensures forall j :: 0 <= j < |s| ==> (j in at <==> IsEcho(s[j], confirmed))
  {
    EchoesSelected(s, confirmed);
    at := OlderPage.SelectPicks(s, EchoMask(s, confirmed));
  }

  lemma ShowsTail(r: seq<Message>, s: seq<Message>, at: seq<nat>, cut: nat)
    requires ShowsInOrder(r, s, at) && cut <= |r|
    ensures ShowsInOrder(r[cut..], s, at[cut..])
  {
  }

  lemma StandTail(r: seq<Message>, page: seq<Message>, at: seq<nat>, shown: seq<Message>, request: Rev, cut: nat)
    requires StandInOrder(r, page, at, shown, request) && cut <= |r|
    ensures StandInOrder(r[cut..], page, at[cut..], shown, request)
  {
    hide StandsRestamped;
  }

  lemma StampedStands(x: Message, y: Message, m: Message, shown: seq<Message>, request: Rev)
    requires StandsRestamped(x, m, shown, request) && Restamped(y, x)
    ensures StandsRestamped(y, m, shown, request)
  {
    var z :| Stands(z, m, shown, request) && Restamped(x, z);
    assert Restamped(y, z);
  }

  /** Restamping a list changes none of this. */
  lemma StampKeepsOrder(merged: seq<Message>, rev: Rev, n: nat, page: seq<Message>, atPage: seq<nat>,
      shown: seq<Message>, atLive: seq<nat>, request: Rev)
    requires n <= |merged| && StandInOrder(merged[..n], page, atPage, shown, request)
    requires ShowsInOrder(merged[n..], shown, atLive)
    ensures StandInOrder(Stamp(merged, rev)[..n], page, atPage, shown, request)
    ensures ShowsInOrder(Stamp(merged, rev)[n..], shown, atLive)
  {
    hide Stands;
    var t := Stamp(merged, rev);
    forall i | 0 <= i < n
      ensures StandsRestamped(t[..n][i], page[atPage[i]], shown, request)
    {
      assert Restamped(t[..n][i], merged[..n][i]);
      StampedStands(merged[..n][i], t[..n][i], page[atPage[i]], shown, request);
    }
    forall j | 0 <= j < |atLive|
      ensures Restamped(t[n..][j], shown[atLive[j]])
    {
      assert Restamped(t[n..][j], merged[n..][j]);
    }
  }

  /** Cutting the front of two lists in a row reaches the second only past the end of the first. */
  lemma CutFront(s: seq<Message>, t: seq<Message>, cut: nat) returns (x: nat, y: nat)
    requires cut <= |s| + |t|
    ensures x <= |s| && y <= |t| && (s + t)[cut..] == s[x..] + t[y..] && (x < |s| ==> y == 0)
  {
    x, y := if cut <= |s| then cut else |s|, if cut <= |s| then 0 else cut - |s|;
  }

  lemma ThreeParts(s: seq<Message>, t: seq<Message>, u: seq<Message>)
    ensures var r := s + t + u;
            r[..|s|] == s && r[|s|..|s| + |t|] == t && r[|s| + |t|..] == u
  {
    assert s + t + u == (s + t) + u && (s + t + u)[..|s|] == (s + t)[..|s|];
  }

  predicate IsTail(at: seq<nat>, all: seq<nat>) { |at| <= |all| && at == all[|all| - |at|..] }

  /** Cutting the front of page part, live part and echoes keeps each in order. */
  lemma CutInOrder(first: seq<Message>, n: nat, echoes: seq<Message>, page: seq<Message>, pages: seq<nat>,
      shown: seq<Message>, lives: seq<nat>, kept: seq<nat>, request: Rev, limit: nat)
      returns (a: nat, b: nat, atPage: seq<nat>, atLive: seq<nat>, atEcho: seq<nat>)
    requires n <= |first| && StandInOrder(first[..n], page, pages, shown, request)
    requires ShowsInOrder(first[n..], shown, lives) && ShowsInOrder(echoes, shown, kept)
    ensures var r := KeepLast(first + echoes, limit);
            a <= b <= |r| && StandInOrder(r[..a], page, atPage, shown, request) &&
            ShowsInOrder(r[a..b], shown, atLive) && ShowsInOrder(r[b..], shown, atEcho)
    ensures IsTail(atPage, pages) && IsTail(atLive, lives) && IsTail(atEcho, kept)
    ensures (a > 0 ==> atLive == lives) && (b > 0 ==> atEcho == kept)
  {
    hide StandsRestamped, Restamped;
    var all := first + echoes;
    var cut := |all| - |KeepLast(all, limit)|;
    assert KeepLast(all, limit) == all[cut..];
    hide KeepLast;
    var x, z := CutFront(first, echoes, cut);
    assert first == first[..n] + first[n..];
    var p, l := CutFront(first[..n], first[n..], x);
    StandTail(first[..n], page, pages, shown, request, p);
    ShowsTail(first[n..], shown, lives, l);
    ShowsTail(echoes, shown, kept, z);
    hide StandInOrder, ShowsInOrder;
    ThreeParts(first[..n][p..], first[n..][l..], echoes[z..]);
    a, b := n - p, n - p + (|first| - n - l);
    atPage, atLive, atEcho := pages[p..], lives[l..], kept[z..];
  }

  /** An initial page never lands below newer messages: the window then shows what the page's messages
      stand for, then the newer live messages, then the client's own echoes, each in their order; and
      what is cut off is cut from the front. */
  lemma InitialPageComesFirst(h: Hist, page: seq<Message>, request: Rev, limit: nat)
      returns (a: nat, b: nat, atPage: seq<nat>, atLive: seq<nat>, atEcho: seq<nat>)
    requires limit > 0
    ensures var r := Msgs(SetMessages(h, InitialPage.Merge(h, page, request), limit));
            a <= b <= |r| && StandInOrder(r[..a], page, atPage, Msgs(h), request) &&
            ShowsInOrder(r[a..b], Msgs(h), atLive) && ShowsInOrder(r[b..], Msgs(h), atEcho)
    ensures forall i :: 0 <= i < |page| && i in atPage ==> Takes(page, [], h.deleted, i)
    ensures forall j :: 0 <= j < |Msgs(h)| && j in atLive ==> Adds(Msgs(h), page, h.deleted, request, j)
    ensures a > 0 ==> forall j :: 0 <= j < |Msgs(h)| && Adds(Msgs(h), page, h.deleted, request, j) ==> j in atLive
    ensures forall j :: 0 <= j < |Msgs(h)| && j in atEcho ==>
              IsEcho(Msgs(h)[j], Nonces(InitialPage.Merge(h, page, request)))
    ensures b > 0 ==>
              forall j :: 0 <= j < |Msgs(h)| && IsEcho(Msgs(h)[j], Nonces(InitialPage.Merge(h, page, request))) ==>
                j in atEcho
  {
    var merged := InitialPage.Merge(h, page, request);
    var shown := Msgs(h);
    var n, pages, lives := MergeInOrder(h, page, request);
    var echoes := Echoes(shown, Nonces(merged));
    var kept := EchoesInOrder(shown, Nonces(merged));
    SetMessagesWindow(h, merged, limit);
    StampKeepsOrder(merged, h.rev, n, page, pages, shown, lives, request);
    hide InitialPage.Merge, SetMessages, Echoes, Nonces, Stamp, StandInOrder, ShowsInOrder, Takes, Adds, IsEcho;
    a, b, atPage, atLive, atEcho :=
      CutInOrder(Stamp(merged, h.rev), n, echoes, page, pages, shown, lives, kept, request, limit);
  }

  lemma StandAscend(r: seq<Message>, page: seq<Message>, at: seq<nat>, shown: seq<Message>, request: Rev)
    requires StandInOrder(r, page, at, shown, request) && Ascending(page)
    ensures Ascending(r) && forall m :: m in r ==> exists p :: p in page && p.id == m.id
  {
    forall i | 0 <= i < |r|
      ensures page[at[i]] in page && r[i].id == page[at[i]].id
    {
    }
    forall i, j | 0 <= i < j < |r| && r[i].id != 0 && r[j].id != 0
      ensures r[i].id < r[j].id
    {
      assert at[i] < at[j];
    }
  }

  /** Ids that increase along the page and then along what is newer increase in the window too. */
  lemma InitialPageAscends(h: Hist, page: seq<Message>, request: Rev, limit: nat)
    requires limit > 0 && Ascending(page) && Ascending(Msgs(h))
    requires forall m, j :: m in page && 0 <= j < |Msgs(h)| && Adds(Msgs(h), page, h.deleted, request, j) ==>
               m.id < Msgs(h)[j].id
    requires forall m :: m in Msgs(h) && (m.pending || m.failed) ==> m.id == 0
    ensures Ascending(Msgs(SetMessages(h, InitialPage.Merge(h, page, request), limit)))
  {
    var r := Msgs(SetMessages(h, InitialPage.Merge(h, page, request), limit));
    var a, b, atPage, atLive, atEcho := InitialPageComesFirst(h, page, request, limit);
    EchoesHaveNoIds(r[b..], Msgs(h), atEcho, Nonces(InitialPage.Merge(h, page, request)));
    hide SetMessages, InitialPage.Merge, Nonces, Adds, Takes, IsEcho;
    StandAscend(r[..a], page, atPage, Msgs(h), request);
    ShownAscend(r[a..b], Msgs(h), atLive);
    LiveHaveIds(atLive, Msgs(h), page, h.deleted, request);
    StandBelow(r[..a], page, atPage, r[a..b], Msgs(h), atLive, request);
    hide StandInOrder, ShowsInOrder, Ascending, Below;
    assert r[..b][..a] == r[..a] && r[..b][a..] == r[a..b];
    AscendingJoin(r[..b], a);
    NoIdsAscend(r[..b], r[b..]);
    AscendingJoin(r, b);
  }

  lemma LiveHaveIds(at: seq<nat>, shown: seq<Message>, page: seq<Message>, deleted: map<MessageId, Rev>, request: Rev)
    requires forall j :: 0 <= j < |shown| && j in at ==> Adds(shown, page, deleted, request, j)
    requires forall m, j :: m in page && 0 <= j < |shown| && Adds(shown, page, deleted, request, j) ==>
               m.id < shown[j].id
    ensures forall m, j :: m in page && 0 <= j < |shown| && j in at ==> m.id < shown[j].id
  {
    hide Adds;
  }

  lemma StandBelow(first: seq<Message>, page: seq<Message>, atPage: seq<nat>, live: seq<Message>, shown: seq<Message>,
      atLive: seq<nat>, request: Rev)
    requires StandInOrder(first, page, atPage, shown, request) && ShowsInOrder(live, shown, atLive) && Ascending(page)
    requires forall m, j :: m in page && 0 <= j < |shown| && j in atLive ==> m.id < shown[j].id
    ensures Below(first, live)
  {
    StandAscend(first, page, atPage, shown, request);
    hide StandInOrder, Ascending;
    forall m, l | m in first && l in live
      ensures m.id < l.id
    {
      var p :| p in page && p.id == m.id;
      var j :| 0 <= j < |live| && live[j] == l;
      assert atLive[j] in atLive;
    }
  }

  lemma EchoesHaveNoIds(r: seq<Message>, shown: seq<Message>, at: seq<nat>, confirmed: set<string>)
    requires ShowsInOrder(r, shown, at)
    requires forall j :: 0 <= j < |shown| && j in at ==> IsEcho(shown[j], confirmed)
    requires forall m :: m in shown && (m.pending || m.failed) ==> m.id == 0
    ensures forall m :: m in r ==> m.id == 0
  {
    forall m | m in r
      ensures m.id == 0
    {
      var j :| 0 <= j < |r| && r[j] == m;
      assert at[j] in at && shown[at[j]] in shown;
    }
  }

  lemma NoIdsAscend(first: seq<Message>, s: seq<Message>)
    requires forall m :: m in s ==> m.id == 0
    ensures Ascending(s) && Below(first, s)
  {
  }
}
