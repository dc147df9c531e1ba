/** The window an older history page leaves: internal/store/store.go, PrependMessagesSince. */
module OlderPage {
  import opened Messages

  /** Entries no older page may displace: local echoes and changes newer than the request. */
  predicate Protected(m: Message, request: Rev) {
    m.pending || m.failed || m.rev > request
  }

  function KnownIds(s: seq<Message>): set<MessageId> {
    set m | m in s && m.id != 0 :: m.id
  }

  /** The page without tombstoned ids and without ids already known. */
  function Fresh(page: seq<Message>, known: set<MessageId>, deleted: map<MessageId, Rev>): seq<Message> {
    if page == [] then []
    else
      var m := page[0];
      if m.id == 0 then [m] + Fresh(page[1..], known, deleted)
      else if m.id in deleted || m.id in known then Fresh(page[1..], known, deleted)
      else [m] + Fresh(page[1..], known + {m.id}, deleted)
  }

  function Combined(page: seq<Message>, current: seq<Message>, deleted: map<MessageId, Rev>): seq<Message> {
    Fresh(page, KnownIds(current), deleted) + current
  }

  function ProtectedOnly(s: seq<Message>, request: Rev): seq<Message> {
    if s == [] then []
    else if Protected(s[0], request) then [s[0]] + ProtectedOnly(s[1..], request)
    else ProtectedOnly(s[1..], request)
  }

  // ---- masks: which entries of the combined list stay

  function Count(mask: seq<bool>): (n: nat)
    ensures n <= |mask|
  {
    if mask == [] then 0 else (if mask[0] then 1 else 0) + Count(mask[1..])
  }

  function Select(s: seq<Message>, mask: seq<bool>): (r: seq<Message>)
    requires |s| == |mask|
    ensures |r| == Count(mask)
  {
    if s == [] then [] else (if mask[0] then [s[0]] else []) + Select(s[1..], mask[1..])
  }

  function ProtectedMask(s: seq<Message>, request: Rev): seq<bool> {
    seq(|s|, i requires 0 <= i < |s| => Protected(s[i], request))
  }

  /** Additionally marks the `budget` newest unmarked entries. */
  function MarkNewest(mask: seq<bool>, budget: nat): (r: seq<bool>)
    ensures |r| == |mask|
    ensures forall i :: 0 <= i < |mask| && mask[i] ==> r[i]
  {
    if mask == [] || budget == 0 then mask
    else
      var last := |mask| - 1;
      MarkNewest(mask[..last], if mask[last] then budget else budget - 1) + [true]
  }

  /** Additionally marks the `room` oldest unmarked entries. */
  function MarkOldest(mask: seq<bool>, room: nat): (r: seq<bool>)
    ensures |r| == |mask|
    ensures forall i :: 0 <= i < |mask| && mask[i] ==> r[i]
  {
    if mask == [] || room == 0 then mask
    else [true] + MarkOldest(mask[1..], if mask[0] then room else room - 1)
  }

  function RecentBudget(limit: nat, kept: nat): nat {
    Min((limit + 1) / 2, if limit - kept - 1 > 0 then limit - kept - 1 else 0)
  }

  function Room(limit: nat, kept: nat): nat { if kept < limit then limit - kept else 0 }

  function KeepMask(s: seq<Message>, request: Rev, limit: nat): (r: seq<bool>)
    ensures |r| == |s|
  {
    var own := ProtectedMask(s, request);
    var recent := MarkNewest(own, RecentBudget(limit, Count(own)));
    MarkOldest(recent, Room(limit, Count(recent)))
  }

  /** What of the combined list the window keeps. */
  function Bounded(s: seq<Message>, request: Rev, limit: nat): seq<Message> {
    if Count(ProtectedMask(s, request)) >= limit then KeepLast(ProtectedOnly(s, request), limit)
    else Select(s, KeepMask(s, request, limit))
  }

  // ---- counting

  lemma {:induction false} CountConcat(a: seq<bool>, b: seq<bool>)
    ensures Count(a + b) == Count(a) + Count(b)
  {
    if a == [] {
      assert a + b == b;
    } else {
      CountConcat(a[1..], b);
      assert (a + b)[1..] == a[1..] + b;
    }
  }

  lemma CountSplit(mask: seq<bool>, i: nat)
    requires i < |mask|
    ensures Count(mask[..i + 1]) == Count(mask[..i]) + if mask[i] then 1 else 0
    ensures Count(mask[i..]) == Count(mask[i + 1..]) + if mask[i] then 1 else 0
  {
    CountConcat(mask[..i], [mask[i]]);
    assert mask[..i + 1] == mask[..i] + [mask[i]];
    assert mask[i..][1..] == mask[i + 1..];
  }

  lemma {:induction false} CountMark(mask: seq<bool>, i: nat)
    requires i < |mask| && !mask[i]
    ensures Count(mask[i := true]) == Count(mask) + 1
  {
    if i == 0 {
      assert mask[i := true][1..] == mask[1..];
    } else {
      CountMark(mask[1..], i - 1);
      assert mask[i := true][1..] == mask[1..][i - 1 := true];
    }
  }

  /** One step of the marking loops, from the goal's point of view. */
  lemma MarkOldestStep(mask: seq<bool>, goal: seq<bool>, i: nat, room: nat)
    requires i < |mask| == |goal| && room > 0
    requires goal[i..] == MarkOldest(mask[i..], room)
    ensures goal[i] && goal[i + 1..] == MarkOldest(mask[i + 1..], if mask[i] then room else room - 1)
  {
    assert mask[i..][1..] == mask[i + 1..];
    assert goal[i] == goal[i..][0] && goal[i + 1..] == goal[i..][1..];
  }

  lemma MarkNewestStep(mask: seq<bool>, goal: seq<bool>, i: nat, budget: nat)
    requires i < |mask| == |goal| && budget > 0
    requires goal[..i + 1] == MarkNewest(mask[..i + 1], budget)
    ensures goal[i] && goal[..i] == MarkNewest(mask[..i], if mask[i] then budget else budget - 1)
  {
    assert mask[..i + 1][..i] == mask[..i];
    assert goal[i] == goal[..i + 1][i] && goal[..i] == goal[..i + 1][..i];
  }

  lemma {:induction false} MarkNewestCount(mask: seq<bool>, budget: nat)
    ensures Count(MarkNewest(mask, budget)) == Min(|mask|, Count(mask) + budget)
  {
    if mask != [] && budget != 0 {
      var last := |mask| - 1;
      var rest := if mask[last] then budget else budget - 1;
      MarkNewestCount(mask[..last], rest);
      CountConcat(MarkNewest(mask[..last], rest), [true]);
      CountConcat(mask[..last], [mask[last]]);
      assert mask == mask[..last] + [mask[last]];
    }
  }

  lemma {:induction false} MarkOldestCount(mask: seq<bool>, room: nat)
    ensures Count(MarkOldest(mask, room)) == Min(|mask|, Count(mask) + room)
  {
    if mask != [] && room != 0 {
      MarkOldestCount(mask[1..], if mask[0] then room else room - 1);
    }
  }

  lemma {:induction false} SelectSnoc(s: seq<Message>, mask: seq<bool>, m: Message, keep: bool)
    requires |s| == |mask|
    ensures Select(s + [m], mask + [keep]) == Select(s, mask) + if keep then [m] else []
  {
    if s != [] {
      SelectSnoc(s[1..], mask[1..], m, keep);
      assert (s + [m])[1..] == s[1..] + [m] && (mask + [keep])[1..] == mask[1..] + [keep];
    }
  }

  lemma {:induction false} FullMaskSelectsAll(s: seq<Message>, mask: seq<bool>)
    requires |s| == |mask| == Count(mask)
    ensures Select(s, mask) == s
  {
    if s != [] {
      FullMaskSelectsAll(s[1..], mask[1..]);
      assert s == [s[0]] + s[1..];
    }
  }

  lemma {:induction false} ProtectedOnlyCount(s: seq<Message>, request: Rev)
    ensures |ProtectedOnly(s, request)| == Count(ProtectedMask(s, request))
    ensures ProtectedOnly(s, request) == Select(s, ProtectedMask(s, request))
  {
    if s != [] {
      ProtectedOnlyCount(s[1..], request);
      assert ProtectedMask(s, request)[1..] == ProtectedMask(s[1..], request);
    }
  }

  // ---- order-preserving subsequences

  /** `at` names, in increasing order, the places of `s` that make up `r`. */
  ghost predicate PicksInOrder(r: seq<Message>, s: seq<Message>, at: seq<nat>) {
    && |at| == |r|
    && (forall i :: 0 <= i < |at| ==> at[i] < |s| && r[i] == s[at[i]])
    && (forall i, j :: 0 <= i < j < |at| ==> at[i] < at[j])
  }

  /** The marked places, counted from `from`, in increasing order. */
  ghost function Places(mask: seq<bool>, from: nat): (at: seq<nat>)
    ensures |at| == Count(mask)
  {
    if mask == [] then [] else (if mask[0] then [from] else []) + Places(mask[1..], from + 1)
  }

  /** Places, as counted from `from`, are marked and increase. */
  ghost predicate MarkedPlaces(at: seq<nat>, mask: seq<bool>, from: nat) {
    && (forall i :: 0 <= i < |at| ==> from <= at[i] < from + |mask| && mask[at[i] - from])
    && (forall i, j :: 0 <= i < j < |at| ==> at[i] < at[j])
  }

  lemma {:induction false} PlacesMarked(mask: seq<bool>, from: nat)
    ensures MarkedPlaces(Places(mask, from), mask, from)
  {
    if mask != [] {
      PlacesMarked(mask[1..], from + 1);
      OnePlaceMore(Places(mask[1..], from + 1), mask, from);
    }
  }

  lemma OnePlaceMore(rest: seq<nat>, mask: seq<bool>, from: nat)
    requires mask != [] && MarkedPlaces(rest, mask[1..], from + 1)
    ensures MarkedPlaces((if mask[0] then [from] else []) + rest, mask, from)
  {
    forall k | 0 <= k < |rest|
      ensures from < rest[k] < from + |mask| && mask[rest[k] - from]
    {
      assert mask[1..][rest[k] - (from + 1)] == mask[rest[k] - from];
    }
  }

  lemma {:induction false} PlacesComplete(mask: seq<bool>, from: nat, i: nat)
    requires i < |mask| && mask[i]
    ensures from + i in Places(mask, from)
  {
    if i > 0 {
      PlacesComplete(mask[1..], from + 1, i - 1);
    }
  }

  lemma {:induction false} SelectPicksFrom(s: seq<Message>, mask: seq<bool>, from: nat, i: nat)
    requires |s| == |mask| && i < |Places(mask, from)|
    ensures i < |Select(s, mask)|
    ensures var p := Places(mask, from)[i];
            from <= p < from + |s| && Select(s, mask)[i] == s[p - from]
  {
    var rest := Places(mask[1..], from + 1);
    var picked := Select(s[1..], mask[1..]);
    assert Places(mask, from) == (if mask[0] then [from] else []) + rest;
    assert Select(s, mask) == (if mask[0] then [s[0]] else []) + picked;
    if i > 0 || !mask[0] {
      var k := if mask[0] then i - 1 else i;
      SelectPicksFrom(s[1..], mask[1..], from + 1, k);
      hide Places, Select, Count;
      assert s[1..][rest[k] - (from + 1)] == s[rest[k] - from];
    }
  }

  lemma SelectPicks(s: seq<Message>, mask: seq<bool>) returns (at: seq<nat>)
    requires |s| == |mask|
    ensures at == Places(mask, 0) && PicksInOrder(Select(s, mask), s, at)
    ensures forall i :: 0 <= i < |s| ==> (i in at <==> mask[i])
  {
    at := Places(mask, 0);
    PlacesMarked(mask, 0);
    hide Places, Select;
    forall i | 0 <= i < |at|
      ensures at[i] < |s| && Select(s, mask)[i] == s[at[i]]
    {
      SelectPicksFrom(s, mask, 0, i);
    }
    forall i | 0 <= i < |s| && mask[i]
      ensures i in at
    {
      PlacesComplete(mask, 0, i);
    }
  }

  /** Dropping places from the front keeps exactly those from the first kept one on. */
  lemma PicksTail(r: seq<Message>, s: seq<Message>, all: seq<nat>, cut: nat)
    requires PicksInOrder(r, s, all) && cut < |all|
    ensures PicksInOrder(r[cut..], s, all[cut..])
    ensures forall i :: i in all[cut..] <==> i in all && all[cut] <= i
  {
    forall i | i in all && all[cut] <= i
      ensures i in all[cut..]
    {
      var j :| 0 <= j < |all| && all[j] == i;
      if j < cut { assert false; }
      assert all[cut..][j - cut] == i;
    }
  }

  /** With room beyond the protected entries: all of them stay, and the oldest entry,
      so that paging always advances; and the window is as full as it can be. */
  lemma BoundedWithRoom(s: seq<Message>, request: Rev, limit: nat) returns (at: seq<nat>)
    requires Count(ProtectedMask(s, request)) < limit
    ensures PicksInOrder(Bounded(s, request, limit), s, at)
    ensures |at| == Min(|s|, limit)
    ensures forall i :: 0 <= i < |s| && (i == 0 || Protected(s[i], request)) ==> i in at
  {
    KeepMaskCount(s, request, limit);
    at := SelectPicks(s, KeepMask(s, request, limit));
  }

  lemma KeepMaskCount(s: seq<Message>, request: Rev, limit: nat)
    requires Count(ProtectedMask(s, request)) < limit
    ensures Count(KeepMask(s, request, limit)) == Min(|s|, limit)
    ensures forall i :: 0 <= i < |s| && (i == 0 || Protected(s[i], request)) ==> KeepMask(s, request, limit)[i]
  {
    var own := ProtectedMask(s, request);
    var recent := MarkNewest(own, RecentBudget(limit, Count(own)));
    MarkNewestCount(own, RecentBudget(limit, Count(own)));
    MarkOldestCount(recent, Room(limit, Count(recent)));
  }

  /** Without room: exactly the newest `limit` protected entries stay. */
  lemma BoundedWithoutRoom(s: seq<Message>, request: Rev, limit: nat) returns (at: seq<nat>)
    requires 0 < limit <= Count(ProtectedMask(s, request))
    ensures PicksInOrder(Bounded(s, request, limit), s, at)
    ensures |at| == limit
    ensures forall i :: 0 <= i < |s| ==> (i in at <==> Protected(s[i], request) && at[0] <= i)
  {
    ProtectedOnlyCount(s, request);
    var all := SelectPicks(s, ProtectedMask(s, request));
    PicksTail(ProtectedOnly(s, request), s, all, |all| - limit);
    at := all[|all| - limit..];
  }

  /** When everything fits, nothing is dropped. */
  lemma BoundedKeepsAllThatFits(s: seq<Message>, request: Rev, limit: nat)
    requires |s| <= limit
    ensures Bounded(s, request, limit) == s
  {
    ProtectedOnlyCount(s, request);
    if Count(ProtectedMask(s, request)) >= limit {
      FullMaskSelectsAll(s, ProtectedMask(s, request));
    } else {
      KeepMaskCount(s, request, limit);
      FullMaskSelectsAll(s, KeepMask(s, request, limit));
    }
  }

  /** With two places to spare beyond the protected entries, the newest entry stays too. */
  lemma BoundedKeepsNewest(s: seq<Message>, request: Rev, limit: nat)
    requires s != [] && Count(ProtectedMask(s, request)) + 2 <= limit
    ensures KeepMask(s, request, limit)[|s| - 1]
  {
    var own := ProtectedMask(s, request);
    assert RecentBudget(limit, Count(own)) > 0;
    assert MarkNewest(own, RecentBudget(limit, Count(own)))[|s| - 1];
  }

  // ---- exactly which entries stay

  function Unmarked(mask: seq<bool>): nat { |mask| - Count(mask) }

  /** Entries that a full window may displace. */
  function Displaceable(s: seq<Message>, request: Rev): nat { Unmarked(ProtectedMask(s, request)) }

  lemma {:induction false} MarkNewestIff(mask: seq<bool>, budget: nat, i: nat)
    requires i < |mask|
    ensures MarkNewest(mask, budget)[i] <==> mask[i] || Unmarked(mask[i + 1..]) < budget
  {
    if budget != 0 {
      var last := |mask| - 1;
      if i < last {
        MarkNewestIff(mask[..last], if mask[last] then budget else budget - 1, i);
        assert mask[i + 1..] == mask[..last][i + 1..] + [mask[last]];
        CountConcat(mask[..last][i + 1..], [mask[last]]);
      }
    }
  }

  lemma {:induction false} MarkOldestIff(mask: seq<bool>, room: nat, i: nat)
    requires i < |mask|
    ensures MarkOldest(mask, room)[i] <==> mask[i] || Unmarked(mask[..i]) < room
  {
    if room != 0 && i > 0 {
      MarkOldestIff(mask[1..], if mask[0] then room else room - 1, i - 1);
      assert mask[..i] == [mask[0]] + mask[1..][..i - 1];
      CountConcat([mask[0]], mask[1..][..i - 1]);
    }
  }

  /** An entry stays if it is protected, among the newest of the others within the recent budget,
      or among the oldest of them within what is then left of the limit; when the protected
      entries alone fill the window, if it is one of the newest of them. */
  predicate Stays(s: seq<Message>, request: Rev, limit: nat, i: nat)
    requires i < |s|
  {
    var kept := Count(ProtectedMask(s, request));
    var budget := RecentBudget(limit, kept);
    if kept >= limit then Protected(s[i], request) && Count(ProtectedMask(s[i..], request)) <= limit
    else (Protected(s[i], request) || Displaceable(s[i + 1..], request) < budget ||
          Displaceable(s[..i], request) < limit - Min(|s|, kept + budget))
  }

  lemma MaskSlices(s: seq<Message>, request: Rev, i: nat)
    requires i <= |s|
    ensures ProtectedMask(s[..i], request) == ProtectedMask(s, request)[..i]
    ensures ProtectedMask(s[i..], request) == ProtectedMask(s, request)[i..]
  {
  }

  /** Before an entry that is not among the newest ones, none of the displaceable entries is. */
  lemma {:induction false} NoneRecentBefore(mask: seq<bool>, budget: nat, i: nat)
    requires i < |mask| && !MarkNewest(mask, budget)[i]
    ensures MarkNewest(mask, budget)[..i] == mask[..i]
  {
    MarkNewestIff(mask, budget, i);
    forall j | 0 <= j < i
      ensures MarkNewest(mask, budget)[j] == mask[j]
    {
      MarkNewestIff(mask, budget, j);
      assert mask[j + 1..] == mask[j + 1..i] + mask[i..];
      CountConcat(mask[j + 1..i], mask[i..]);
      CountSplit(mask, i);
    }
  }

  lemma KeepMaskIff(s: seq<Message>, request: Rev, limit: nat, i: nat)
    requires Count(ProtectedMask(s, request)) < limit && i < |s|
    ensures KeepMask(s, request, limit)[i] <==> Stays(s, request, limit, i)
  {
    var own := ProtectedMask(s, request);
    var budget := RecentBudget(limit, Count(own));
    var recent := MarkNewest(own, budget);
    MaskSlices(s, request, i);
    MaskSlices(s, request, i + 1);
    MarkNewestIff(own, budget, i);
    MarkNewestCount(own, budget);
    MarkOldestIff(recent, Room(limit, Count(recent)), i);
    if !recent[i] { NoneRecentBefore(own, budget, i); }
  }

  /** A marked place is listed after the marked places before it. */
  lemma {:induction false} PlaceAt(mask: seq<bool>, from: nat, i: nat) returns (n: nat)
    requires i < |mask| && mask[i]
    ensures n == Count(mask[..i]) && n < |Places(mask, from)| && Places(mask, from)[n] == from + i
  {
    if i == 0 {
      n := 0;
    } else {
      var k := PlaceAt(mask[1..], from + 1, i - 1);
      n := if mask[0] then k + 1 else k;
      assert Places(mask, from)[n] == Places(mask[1..], from + 1)[k];
      assert mask[..i][1..] == mask[1..][..i - 1];
    }
  }

  lemma Increasing(at: seq<nat>, n: nat, k: nat)
    requires n < |at| && k < |at| && forall i, j :: 0 <= i < j < |at| ==> at[i] < at[j]
    ensures at[k] <= at[n] <==> k <= n
  {
  }

  lemma CountParts(mask: seq<bool>, i: nat)
    requires i <= |mask|
    ensures Count(mask) == Count(mask[..i]) + Count(mask[i..])
  {
    hide Count;
    CountConcat(mask[..i], mask[i..]);
    assert mask == mask[..i] + mask[i..];
  }

  lemma LastMarked(mask: seq<bool>, i: nat, k: nat)
    requires k < Count(mask) && i < |mask| && mask[i]
    ensures Places(mask, 0)[k] <= i <==> Count(mask[i..]) <= Count(mask) - k
  {
    hide Places, Count;
    PlacesMarked(mask, 0);
    var n := PlaceAt(mask, 0, i);
    CountParts(mask, i);
    Increasing(Places(mask, 0), n, k);
  }

  /** The window after an older page, place by place of the combined list. */
  lemma BoundedIff(s: seq<Message>, request: Rev, limit: nat) returns (at: seq<nat>)
    requires limit > 0
    ensures PicksInOrder(Bounded(s, request, limit), s, at)
    ensures forall i :: 0 <= i < |s| ==> (i in at <==> Stays(s, request, limit, i))
  {
    var own := ProtectedMask(s, request);
    if Count(own) < limit {
      at := SelectPicks(s, KeepMask(s, request, limit));
      forall i | 0 <= i < |s|
        ensures i in at <==> Stays(s, request, limit, i)
      {
        KeepMaskIff(s, request, limit, i);
      }
    } else {
      at := NewestProtected(s, request, limit);
    }
  }

  /** A place is among the newest protected ones exactly when few enough are protected from it on. */
  lemma PlaceIff(mask: seq<bool>, cut: nat, i: nat)
    requires cut < Count(mask) && i < |mask|
    ensures i in Places(mask, 0) && Places(mask, 0)[cut] <= i <==> mask[i] && Count(mask[i..]) <= Count(mask) - cut
  {
    hide Places, Count;
    if mask[i] {
      PlacesComplete(mask, 0, i);
      LastMarked(mask, i, cut);
    } else {
      PlacesMarked(mask, 0);
    }
  }

  lemma NewestProtected(s: seq<Message>, request: Rev, limit: nat) returns (at: seq<nat>)
    requires 0 < limit <= Count(ProtectedMask(s, request))
    ensures PicksInOrder(Bounded(s, request, limit), s, at)
    ensures forall i :: 0 <= i < |s| ==> (i in at <==> Stays(s, request, limit, i))
  {
    ProtectedOnlyCount(s, request);
    var own := ProtectedMask(s, request);
    var all := SelectPicks(s, own);
    hide Places, ProtectedOnly, Select;
    var cut := |all| - limit;
    PicksTail(ProtectedOnly(s, request), s, all, cut);
    at := all[cut..];
    forall i | 0 <= i < |s|
      ensures i in at <==> Stays(s, request, limit, i)
    {
      MaskSlices(s, request, i);
      PlaceIff(own, cut, i);
    }
  }

  // ---- ids

  lemma {:induction false} FreshIds(page: seq<Message>, known: set<MessageId>, deleted: map<MessageId, Rev>)
    ensures var f := Fresh(page, known, deleted);
            DistinctIds(f) &&
            forall m :: m in f ==> m in page && (m.id != 0 ==> m.id !in deleted && m.id !in known)
  {
    if page != [] {
      var m := page[0];
      var known' := if m.id == 0 || m.id in deleted || m.id in known then known else known + {m.id};
      FreshIds(page[1..], known', deleted);
      var rest := Fresh(page[1..], known', deleted);
      assert forall k :: 0 <= k < |rest| ==> rest[k] in rest;
    }
  }

  lemma {:induction false} FreshIsComplete(page: seq<Message>, known: set<MessageId>, deleted: map<MessageId, Rev>,
      x: Message)
    requires x in page && x.id != 0 && x.id !in deleted && x.id !in known
    ensures HasId(Fresh(page, known, deleted), x.id)
  {
    var m := page[0];
    var f := Fresh(page, known, deleted);
    if m.id == x.id {
      assert f[0].id == x.id;
    } else {
      var known' := if m.id == 0 || m.id in deleted || m.id in known then known else known + {m.id};
      FreshIsComplete(page[1..], known', deleted, x);
      var rest := Fresh(page[1..], known', deleted);
      var k :| 0 <= k < |rest| && rest[k].id == x.id;
      assert f[|f| - |rest| + k] == rest[k];
    }
  }

  /** The combined list holds each id once, and only tombstoned ids the window already held. */
  lemma CombinedIds(page: seq<Message>, current: seq<Message>, deleted: map<MessageId, Rev>)
    requires DistinctIds(current)
    ensures var c := Combined(page, current, deleted);
            DistinctIds(c) &&
            (forall m :: m in c && m.id != 0 && m.id in deleted ==> m in current) &&
            (forall m :: m in page && m.id != 0 && m.id !in deleted ==> HasId(c, m.id))
  {
    var known := KnownIds(current);
    var f := Fresh(page, known, deleted);
    var c := Combined(page, current, deleted);
    FreshIds(page, known, deleted);
    forall i, j | 0 <= i < j < |c| && c[i].id != 0
      ensures c[i].id != c[j].id
    {
      if i < |f| <= j {
        assert c[i] in f && c[j] in current;
      }
    }
    forall m | m in page && m.id != 0 && m.id !in deleted
      ensures HasId(c, m.id)
    {
      if m.id in known {
        var l :| l in current && l.id != 0 && l.id == m.id;
        var k :| 0 <= k < |current| && current[k] == l;
        assert c[|f| + k].id == m.id;
      } else {
        FreshIsComplete(page, known, deleted, m);
        var k :| 0 <= k < |f| && f[k].id == m.id;
        assert c[k].id == m.id;
      }
    }
  }

  // ---- the loops of PrependMessagesSince

  /** Marks the protected entries. */
  method MarkProtected(combined: seq<Message>, request: Rev) returns (keep: seq<bool>, kept: nat)
    ensures keep == ProtectedMask(combined, request)
    ensures kept == Count(keep)
  {
    keep := seq(|combined|, _ => false);
    kept := 0;
    ghost var own := ProtectedMask(combined, request);
    for i := 0 to |combined|
      invariant |keep| == |own|
      invariant forall j :: 0 <= j < |own| ==> keep[j] == (j < i && own[j])
      invariant kept == Count(own[..i])
    {
      CountSplit(own, i);
      if combined[i].pending || combined[i].failed || combined[i].rev > request {
        keep := keep[i := true];
        kept := kept + 1;
      }
    }
    assert own[..|combined|] == own == keep;
  }

  /** Marks up to `budget` unmarked entries, newest first. */
  method MarkRecent(mask: seq<bool>, alreadyKept: nat, budget: nat) returns (keep: seq<bool>, kept: nat)
    requires alreadyKept == Count(mask)
    ensures keep == MarkNewest(mask, budget)
    ensures kept == Count(keep)
  {
    keep, kept := mask, alreadyKept;
    var recentBudget := budget;
    var i := |keep|;
    ghost var goal := MarkNewest(mask, budget);
    assert mask[..i] == mask && goal[..i] == goal;
    while i > 0 && recentBudget > 0
      invariant 0 <= i <= |mask| == |keep|
      invariant forall j :: 0 <= j < |mask| ==> keep[j] == if j < i then mask[j] else goal[j]
      invariant goal[..i] == MarkNewest(mask[..i], recentBudget)
      invariant kept == Count(keep)
    {
      i := i - 1;
      MarkNewestStep(mask, goal, i, recentBudget);
      if keep[i] { continue; }
      CountMark(keep, i);
      keep := keep[i := true];
      kept := kept + 1;
      recentBudget := recentBudget - 1;
    }
    assert goal[..i] == mask[..i];
    assert forall j :: 0 <= j < i ==> goal[j] == goal[..i][j] && mask[j] == mask[..i][j];
  }

  /** Marks unmarked entries, oldest first, up to the history limit. */
  method MarkOlder(mask: seq<bool>, alreadyKept: nat, limit: nat) returns (keep: seq<bool>)
    ensures keep == MarkOldest(mask, Room(limit, alreadyKept))
  {
    keep := mask;
    var kept: nat := alreadyKept;
    var i := 0;
    ghost var goal := MarkOldest(mask, Room(limit, kept));
    assert mask[0..] == mask && goal[0..] == goal;
    while i < |keep| && kept < limit
      invariant 0 <= i <= |mask| == |keep|
      invariant forall j :: 0 <= j < |mask| ==> keep[j] == if j < i then goal[j] else mask[j]
      invariant goal[i..] == MarkOldest(mask[i..], Room(limit, kept))
    {
      MarkOldestStep(mask, goal, i, Room(limit, kept));
      if !keep[i] {
        keep := keep[i := true];
        kept := kept + 1;
      }
      i := i + 1;
    }
    assert goal == goal[..i] + goal[i..] && goal[i..] == mask[i..];
  }

  /** The entries to keep when some places are left for older ones. */
  method KeepWithRoom(combined: seq<Message>, request: Rev, limit: nat) returns (bounded: seq<Message>)
    requires Count(ProtectedMask(combined, request)) < limit
    ensures bounded == Select(combined, KeepMask(combined, request, limit))
  {
    var keep, kept := MarkProtected(combined, request);
    var recentBudget := Min((limit + 1) / 2, if limit - kept - 1 > 0 then limit - kept - 1 else 0);
    keep, kept := MarkRecent(keep, kept, recentBudget);
    keep := MarkOlder(keep, kept, limit);
    bounded := Kept(combined, keep);
  }

  method Kept(combined: seq<Message>, keep: seq<bool>) returns (bounded: seq<Message>)
    requires |keep| == |combined|
    ensures bounded == Select(combined, keep)
  {
    bounded := [];
    for i := 0 to |combined|
      invariant bounded == Select(combined[..i], keep[..i])
    {
      SelectSnoc(combined[..i], keep[..i], combined[i], keep[i]);
      assert combined[..i + 1] == combined[..i] + [combined[i]] && keep[..i + 1] == keep[..i] + [keep[i]];
      if keep[i] {
        bounded := bounded + [combined[i]];
      }
    }
    assert combined[..|combined|] == combined && keep[..|keep|] == keep;
  }

  method CollectIds(current: seq<Message>) returns (known: set<MessageId>)
    ensures known == KnownIds(current)
  {
    known := {};
    for i := 0 to |current|
      invariant known == KnownIds(current[..i])
    {
      assert current[..i + 1] == current[..i] + [current[i]];
      if current[i].id != 0 { known := known + {current[i].id}; }
    }
    assert current[..|current|] == current;
  }

  /** The page without tombstoned and known ids. */
  method FreshPage(page: seq<Message>, current: seq<Message>, deleted: map<MessageId, Rev>)
    returns (combined: seq<Message>)
    ensures combined == Fresh(page, KnownIds(current), deleted)
  {
    var known := CollectIds(current);
    combined := [];
    ghost var unseen := Fresh(page, known, deleted);
    for i := 0 to |page|
      invariant combined + Fresh(page[i..], known, deleted) == unseen
    {
      assert page[i..][1..] == page[i + 1..];
      if page[i].id != 0 {
        if page[i].id in deleted { continue; }
        if page[i].id in known { continue; }
        known := known + {page[i].id};
      }
      combined := combined + [page[i]];
    }
  }

  method CountProtected(combined: seq<Message>, request: Rev) returns (n: nat)
    ensures n == Count(ProtectedMask(combined, request))
  {
    n := 0;
    ghost var own := ProtectedMask(combined, request);
    for i := 0 to |combined|
      invariant n == Count(own[..i])
    {
      CountSplit(own, i);
      if combined[i].pending || combined[i].failed || combined[i].rev > request {
        n := n + 1;
      }
    }
    assert own[..|combined|] == own;
  }

  /** The newest protected entries, when they alone fill the window. */
  method KeepProtected(combined: seq<Message>, request: Rev, limit: nat, protectedCount: nat)
    returns (bounded: seq<Message>)
    requires protectedCount == Count(ProtectedMask(combined, request)) >= limit
    ensures bounded == KeepLast(ProtectedOnly(combined, request), limit)
  {
    ProtectedOnlyCount(combined, request);
    bounded := [];
    var skip := protectedCount - limit;
    assert combined[0..] == combined;
    for i := 0 to |combined|
      invariant 0 <= skip <= |ProtectedOnly(combined[i..], request)|
      invariant bounded + ProtectedOnly(combined[i..], request)[skip..] ==
        KeepLast(ProtectedOnly(combined, request), limit)
      invariant skip > 0 ==> bounded == []
    {
      assert combined[i..][1..] == combined[i + 1..];
      if !(combined[i].pending || combined[i].failed || combined[i].rev > request) { continue; }
      if skip > 0 {
        skip := skip - 1;
        continue;
      }
      bounded := bounded + [combined[i]];
    }
  }
}
