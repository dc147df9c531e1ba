/** What a removal leaves of the directory and what an ingested page adds to it, channel by channel. */
module DirectoryLaws {
  import opened Collections
  import opened Directory
  import opened DirectoryLoad
  import DirectoryRuns

  // ---- a channel goes with the threads under it

  /** The channel itself, and threads whose parent it is; no other channel, whoever its parent. */
  predicate Goes(d: Dir, id: nat, x: nat) {
    x in d.channels && (x == id || (d.channels[x].kind == Thread && d.channels[x].parent == id))
  }

  /** An order without some ids. */
  function Without(s: seq<nat>, gone: set<nat>): seq<nat> {
    if s == [] then [] else (if s[0] in gone then [] else [s[0]]) + Without(s[1..], gone)
  }

  lemma {:induction false} WithoutNothing(s: seq<nat>, gone: set<nat>)
    requires forall x :: x in s ==> x !in gone
    ensures Without(s, gone) == s
  {
    if s != [] {
      WithoutNothing(s[1..], gone);
      assert s == [s[0]] + s[1..];
    }
  }

  lemma {:induction false} WithoutMore(s: seq<nat>, a: set<nat>, b: set<nat>)
    ensures Without(Without(s, a), b) == Without(s, a + b)
  {
    if s != [] {
      WithoutMore(s[1..], a, b);
      if s[0] in a {
        assert [] + Without(s[1..], a) == Without(s[1..], a);
      } else {
        assert ([s[0]] + Without(s[1..], a))[1..] == Without(s[1..], a);
      }
    }
  }

  lemma {:induction false} DropWithout(s: seq<nat>, x: nat)
    requires Distinct(s)
    ensures Drop(s, x) == Without(s, {x})
  {
    if s != [] {
      HeadOnce(s);
      if s[0] == x {
        WithoutNothing(s[1..], {x});
        assert [] + Without(s[1..], {x}) == s[1..];
      } else {
        DropWithout(s[1..], x);
      }
    }
  }

  /** What one removal after another leaves, of a store in order. */
  ghost predicate Removed(d: Dir, d': Dir, gone: set<nat>) {
    && d'.guilds == d.guilds && d'.guildGeneration == d.guildGeneration
    && d'.channels == d.channels - gone
    && (forall g :: OrderOf(d', g) == Without(OrderOf(d, g), gone))
    && (forall x :: Pings(d', x) == if x in gone then 0 else Pings(d, x))
    && (forall x :: Get(d'.channelGeneration, x, 0) == Get(d.channelGeneration, x, 0) + if x in gone then 1 else 0)
  }

  lemma OneRemoved(d: Dir, id: nat)
    requires Ordered(d) && id in d.channels
    ensures Removed(d, RemoveOne(d, id), {id})
  {
    var d' := RemoveOne(d, id);
    var guild := d.channels[id].guild;
    forall g
      ensures OrderOf(d', g) == Without(OrderOf(d, g), {id})
    {
      if g == guild {
        DropWithout(OrderOf(d, g), id);
      } else {
        assert id !in OrderOf(d, g);
        WithoutNothing(OrderOf(d, g), {id});
      }
    }
  }

  lemma RemovedMore(d: Dir, m: Dir, d': Dir, a: set<nat>, b: set<nat>)
    requires Removed(d, m, a) && Removed(m, d', b) && a !! b
    ensures Removed(d, d', a + b)
  {
    forall g
      ensures OrderOf(d', g) == Without(OrderOf(d, g), a + b)
    {
      WithoutMore(OrderOf(d, g), a, b);
    }
    assert d.channels - a - b == d.channels - (a + b);
  }

  lemma NoneRemoved(d: Dir)
    ensures Removed(d, d, {})
  {
    forall g
      ensures OrderOf(d, g) == Without(OrderOf(d, g), {})
    {
      WithoutNothing(OrderOf(d, g), {});
    }
    assert d.channels - {} == d.channels;
  }

  function Elements(s: seq<nat>): set<nat> { set x | x in s }

  lemma HeadApart(d: Dir, m: Dir, ids: seq<nat>)
    requires Distinct(ids) && ids != [] && m.channels == d.channels - {ids[0]} && forall x :: x in ids ==>
             x in d.channels
    ensures Distinct(ids[1..]) && (forall x :: x in ids[1..] ==> x in m.channels)
    ensures Elements(ids) == {ids[0]} + Elements(ids[1..]) && {ids[0]} !! Elements(ids[1..])
  {
    HeadOnce(ids);
  }

  lemma {:induction false} AllRemoved(d: Dir, ids: seq<nat>)
    requires Ordered(d) && Distinct(ids) && forall x :: x in ids ==> x in d.channels
    ensures Removed(d, RemoveAll(d, ids), Elements(ids))
    decreases |ids|
  {
    if ids == [] {
      assert Elements(ids) == {};
      NoneRemoved(d);
    } else {
      var m, rest := RemoveOne(d, ids[0]), ids[1..];
      assert ids[0] in ids;
      OneRemoved(d, ids[0]);
      RemoveOneOrdered(d, ids[0]);
      HeadApart(d, m, ids);
      hide RemoveOne, Ordered, Removed, Distinct, Elements;
      AllRemoved(m, rest);
      RemovedMore(d, m, RemoveAll(m, rest), {ids[0]}, Elements(rest));
    }
  }

  ghost predicate SelfGone(d: Dir, d': Dir, id: nat) {
    && d'.guilds == d.guilds && d'.guildGeneration == d.guildGeneration && d'.channels == d.channels - {id}
    && (forall g :: OrderOf(d', g) == Without(OrderOf(d, g), {id}))
    && (forall x :: Pings(d', x) == if x == id then 0 else Pings(d, x))
    && (forall x :: Get(d'.channelGeneration, x, 0) == Get(d.channelGeneration, x, 0) + if x == id then 1 else 0)
  }

  lemma SelfRemoved(d: Dir, id: nat)
    requires Ordered(d)
    ensures SelfGone(d, RemoveSelf(d, id), id)
  {
    if id in d.channels {
      OneRemoved(d, id);
    } else {
      forall g
        ensures OrderOf(d, g) == Without(OrderOf(d, g), {id})
      {
        assert id !in OrderOf(d, g);
        WithoutNothing(OrderOf(d, g), {id});
      }
      assert d.channels - {id} == d.channels;
    }
  }

  /** Removing a channel removes it and the threads under it and nothing else: every other channel is as it
      was, in its place of its guild's order, with its count and lifetime; each removed one ends its lifetime,
      and so does the channel itself even when it was not known. */
  lemma CascadeIs(d: Dir, id: nat)
    requires Ordered(d)
    ensures var d' := RemoveChannel(d, id);
            var gone := set x | x in d.channels && Goes(d, id, x);
            d'.guilds == d.guilds && d'.guildGeneration == d.guildGeneration &&
            d'.channels == d.channels - gone &&
            (forall g :: OrderOf(d', g) == Without(OrderOf(d, g), gone)) &&
            (forall x :: Pings(d', x) == if x == id || x in gone then 0 else Pings(d, x)) &&
            forall x :: Get(d'.channelGeneration, x, 0) ==
                        Get(d.channelGeneration, x, 0) + (if x == id then 1 else 0) +
                        if x in gone && d.channels[x].kind == Thread && d.channels[x].parent == id then 1 else 0
  {
    var threads := ThreadsOf(d, id);
    var ids := Listing(threads);
    var m := RemoveAll(d, ids);
    AllRemoved(d, ids);
    RemoveAllOrdered(d, ids);
    assert Elements(ids) == threads;
    SelfRemoved(m, id);
    hide RemoveAll, RemoveSelf, Ordered, SelfGone, Removed, Get, OrderOf, Pings;
    CascadeOrder(d, m, RemoveSelf(m, id), id);
    CascadeCounts(d, m, RemoveSelf(m, id), id);
  }

  lemma CascadeOrder(d: Dir, m: Dir, d': Dir, id: nat)
    requires Ordered(d) && Removed(d, m, ThreadsOf(d, id)) && SelfGone(m, d', id)
    ensures var gone := set x | x in d.channels && Goes(d, id, x);
            d'.guilds == d.guilds && d'.guildGeneration == d.guildGeneration && d'.channels == d.channels - gone &&
            forall g :: OrderOf(d', g) == Without(OrderOf(d, g), gone)
  {
    var threads := ThreadsOf(d, id);
    var gone := set x | x in d.channels && Goes(d, id, x);
    assert d.channels - threads - {id} == d.channels - gone;
    hide Ordered, Without;
    forall g
      ensures OrderOf(d', g) == Without(OrderOf(d, g), gone)
    {
      WithoutMore(OrderOf(d, g), threads, {id});
      OnlyChannels(d, g, threads + {id}, gone);
    }
  }

  lemma CascadeCounts(d: Dir, m: Dir, d': Dir, id: nat)
    requires Removed(d, m, ThreadsOf(d, id)) && SelfGone(m, d', id)
    ensures var gone := set x | x in d.channels && Goes(d, id, x);
            (forall x :: Pings(d', x) == if x == id || x in gone then 0 else Pings(d, x)) &&
            forall x :: Get(d'.channelGeneration, x, 0) ==
                        Get(d.channelGeneration, x, 0) + (if x == id then 1 else 0) +
                        if x in gone && d.channels[x].kind == Thread && d.channels[x].parent == id then 1 else 0
  {
    hide Without, OrderOf;
  }

  lemma {:induction false} SameWithout(s: seq<nat>, a: set<nat>, b: set<nat>)
    requires forall x :: x in s ==> (x in a <==> x in b)
    ensures Without(s, a) == Without(s, b)
  {
    if s != [] { SameWithout(s[1..], a, b); }
  }

  lemma OnlyChannels(d: Dir, g: nat, a: set<nat>, b: set<nat>)
    requires Ordered(d) && forall x :: x in d.channels ==> (x in a <==> x in b)
    ensures Without(OrderOf(d, g), a) == Without(OrderOf(d, g), b)
  {
    SameWithout(OrderOf(d, g), a, b);
  }

  // ---- a guild goes with its channels

  lemma {:induction false} OtherCounts(d: Dir, ids: seq<nat>, guild: nat, g: nat)
    requires Ordered(d) && g != guild
    requires forall x :: x in ids && x in d.channels ==> d.channels[x].guild == guild
    ensures GuildPings(RemoveAll(d, ids), g) == GuildPings(d, g)
    decreases |ids|
  {
    if ids != [] {
      var m := RemoveOne(d, ids[0]);
      RemoveOneOrdered(d, ids[0]);
      assert ids == [ids[0]] + ids[1..] && m.channels.Keys <= d.channels.Keys;
      assert GuildPings(m, g) == GuildPings(d, g);
      OtherCounts(m, ids[1..], guild, g);
    }
  }

  /** Removing a guild removes it and its channels and nothing else, and starts every lifetime of theirs anew. */
  lemma RemoveGuildIs(d: Dir, guild: nat)
    requires Ordered(d)
    ensures var d' := RemoveGuild(d, guild);
            var gone := set x | x in d.channels && d.channels[x].guild == guild;
            d'.guilds == d.guilds - {guild} && d'.channels == d.channels - gone &&
            (forall g :: OrderOf(d', g) == if g == guild then [] else OrderOf(d, g)) &&
            (forall x :: Pings(d', x) == if x in gone then 0 else Pings(d, x)) &&
            (forall g :: GuildPings(d', g) == if g == guild then 0 else GuildPings(d, g)) &&
            (forall x :: Get(d'.channelGeneration, x, 0) ==
                         Get(d.channelGeneration, x, 0) + if x in gone then 1 else 0) &&
            forall g :: Get(d'.guildGeneration, g, 0) == Get(d.guildGeneration, g, 0) + if g == guild then 1 else 0
  {
    var ids := OrderOf(d, guild);
    var gone := set x | x in d.channels && d.channels[x].guild == guild;
    AllRemoved(d, ids);
    assert Elements(ids) == gone;
    var e := RemoveAll(d, ids);
    forall g | g != guild
      ensures OrderOf(e, g) == OrderOf(d, g) && GuildPings(e, g) == GuildPings(d, g)
    {
      WithoutNothing(OrderOf(d, g), gone);
      OtherCounts(d, ids, guild, g);
    }
    hide RemoveAll, Ordered, Without;
  }

  // ---- active threads as they are listed

  /** Held as active, in the scope of the list, and not on it. */
  predicate Missing(d: Dir, x: nat, scope: Scope, present: set<nat>) {
    x in d.channels && x !in present && d.channels[x].kind == Thread && d.channels[x].thread == Meta(false) &&
    match scope case Everything => true case Parents(ids) => d.channels[x].parent in ids
  }

  /** The removed channels and the threads under them. */
  function Swept(d: Dir, removed: seq<nat>): set<nat> {
    set x | x in d.channels && (x in removed || (d.channels[x].kind == Thread && d.channels[x].parent in removed))
  }

  /** Of the ids gone through: exactly missing threads are removed, none of those is left, and nothing else goes
      but the threads under a removed one. */
  lemma {:induction false} StaleSwept(d: Dir, ids: seq<nat>, scope: Scope, present: set<nat>)
    requires Ordered(d)
    ensures var (d', removed) := DropStale(d, ids, scope, present);
            Ordered(d') && d'.channels == d.channels - Swept(d, removed) &&
            (forall x :: x in removed ==> x in ids && Missing(d, x, scope, present)) &&
            forall x :: x in ids && Missing(d, x, scope, present) ==> x !in d'.channels
    decreases |ids|
  {
    if ids == [] {
      assert Swept(d, []) == {} && d.channels - {} == d.channels;
    } else {
      var n := |ids| - 1;
      var (m, before) := DropStale(d, ids[..n], scope, present);
      StaleSwept(d, ids[..n], scope, present);
      assert ids == ids[..n] + [ids[n]];
      hide Ordered, RemoveChannel;
      if Stale(m, ids[n], scope, present) {
        CascadeIs(m, ids[n]);
        DirectoryRuns.RemoveChannelOrdered(m, ids[n]);
        SweptMore(d, m, before, ids[n]);
      }
    }
  }

  lemma SweptMore(d: Dir, m: Dir, removed: seq<nat>, x: nat)
    requires m.channels == d.channels - Swept(d, removed) && x in m.channels
    ensures m.channels - (set y | y in m.channels && Goes(m, x, y)) == d.channels - Swept(d, removed + [x])
  {
    var a, b := m.channels - (set y | y in m.channels && Goes(m, x, y)), d.channels - Swept(d, removed + [x]);
    forall y
      ensures y in a <==> y in b
    {
    }
  }

  // ---- what a page adds

  predicate LastListed(channels: seq<Channel>, k: nat) {
    k < |channels| && forall j :: k < j < |channels| ==> channels[j].id != channels[k].id
  }

  predicate Listed(channels: seq<Channel>, id: nat) { exists k :: 0 <= k < |channels| && channels[k].id == id }

  /** The ids of a list that are not known yet, each once, as they first come. */
  function NewIds(channels: seq<Channel>, known: seq<nat>): seq<nat> {
    if channels == [] then []
    else
      var n := |channels| - 1;
      var before := NewIds(channels[..n], known);
      if channels[n].id in known || channels[n].id in before then before else before + [channels[n].id]
  }

  lemma ListedLast(channels: seq<Channel>, id: nat)
    requires channels != []
    ensures var n := |channels| - 1;
            Listed(channels, id) <==> Listed(channels[..n], id) || channels[n].id == id
  {
    var n := |channels| - 1;
    if Listed(channels[..n], id) {
      var k :| 0 <= k < n && channels[..n][k].id == id;
      assert channels[k].id == id;
    }
    if channels[n].id == id { assert Listed(channels, id); }
    if Listed(channels, id) && channels[n].id != id {
      var k :| 0 <= k < |channels| && channels[k].id == id;
      assert channels[..n][k].id == id;
    }
  }

  /** Listed channels are known afterwards, with the details of their last listing, as direct messages; the
      others are as they were; and exactly the channels not known before begin a lifetime. */
  ghost predicate Took(d: Dir, d': Dir, channels: seq<Channel>) {
    && d'.guilds == d.guilds && d'.guildGeneration == d.guildGeneration
    && d'.pings == d.pings && d'.guildPings == d.guildPings
    && (forall x :: x in d'.channels <==> x in d.channels || Listed(channels, x))
    && (forall x :: x in d.channels && !Listed(channels, x) ==> d'.channels[x] == d.channels[x])
    && (forall k: nat :: LastListed(channels, k) ==>
          channels[k].id in d'.channels && d'.channels[channels[k].id] == channels[k].(guild := DIRECT_MESSAGES))
    && (forall x :: Get(d'.channelGeneration, x, 0) ==
                    Get(d.channelGeneration, x, 0) + if Listed(channels, x) && x !in d.channels then 1 else 0)
  }

  lemma {:induction false} PrivateTaken(d: Dir, channels: seq<Channel>)
    ensures Took(d, UpsertPrivate(d, channels), channels)
    decreases |channels|
  {
    if channels != [] {
      var n := |channels| - 1;
      var c := channels[n].(guild := DIRECT_MESSAGES);
      PrivateTaken(d, channels[..n]);
      hide UpsertPrivate;
      OneMoreTaken(d, UpsertPrivate(d, channels[..n]), channels);
    }
  }

  lemma Upserted(d: Dir, c: Channel)
    ensures var d' := UpsertChannel(d, c);
            d'.guilds == d.guilds && d'.guildGeneration == d.guildGeneration && d'.pings == d.pings &&
            d'.guildPings == d.guildPings && d'.channels == d.channels[c.id := c] &&
            forall x :: Get(d'.channelGeneration, x, 0) ==
                        Get(d.channelGeneration, x, 0) + if x == c.id && x !in d.channels then 1 else 0
  {
    hide OrderOf;
  }

  lemma OneMoreTaken(d: Dir, m: Dir, channels: seq<Channel>)
    requires channels != [] && Took(d, m, channels[..|channels| - 1])
    ensures Took(d, UpsertChannel(m, channels[|channels| - 1].(guild := DIRECT_MESSAGES)), channels)
  {
    var n := |channels| - 1;
    var c := channels[n].(guild := DIRECT_MESSAGES);
    var d' := UpsertChannel(m, c);
    forall x
      ensures Listed(channels, x) <==> Listed(channels[..n], x) || channels[n].id == x
    {
      ListedLast(channels, x);
    }
    Upserted(m, c);
    LastTaken(m.channels, channels, (x: Channel) => x.(guild := DIRECT_MESSAGES));
    hide Listed, UpsertChannel, LastListed, Get;
  }

  /** The last listing of each id keeps deciding when one channel more is taken. */
  lemma LastTaken(before: map<nat, Channel>, list: seq<Channel>, shape: Channel -> Channel)
    requires list != []
    requires forall k: nat :: LastListed(list[..|list| - 1], k) ==>
               list[k].id in before && before[list[k].id] == shape(list[k])
    ensures var last := list[|list| - 1];
            var after := before[last.id := shape(last)];
            forall k: nat :: LastListed(list, k) ==> list[k].id in after && after[list[k].id] == shape(list[k])
  {
    var n := |list| - 1;
    var init := list[..n];
    var after := before[list[n].id := shape(list[n])];
    forall k: nat | LastListed(list, k)
      ensures list[k].id in after && after[list[k].id] == shape(list[k])
    {
      if k < n {
        assert init[k] == list[k] && list[n].id != list[k].id;
        assert forall j :: k < j < n ==> init[j] == list[j];
        assert LastListed(init, k);
      }
    }
  }

  // ---- and in which order

  lemma {:induction false} NewIdsAre(channels: seq<Channel>, known: seq<nat>)
    ensures forall x :: x in NewIds(channels, known) <==> Listed(channels, x) && x !in known
    decreases |channels|
  {
    if channels != [] {
      var n := |channels| - 1;
      NewIdsAre(channels[..n], known);
      forall x
        ensures x in NewIds(channels, known) <==> Listed(channels, x) && x !in known
      {
        ListedLast(channels, x);
      }
    }
  }

  /** Direct messages keep their order, and the new ones follow as they first come in the list. */
  lemma {:induction false} PrivateOrder(d: Dir, channels: seq<Channel>)
    requires Ordered(d)
    ensures var d' := UpsertPrivate(d, channels);
            Ordered(d') &&
            OrderOf(d', DIRECT_MESSAGES) == OrderOf(d, DIRECT_MESSAGES) + NewIds(channels, OrderOf(d, DIRECT_MESSAGES))
    decreases |channels|
  {
    var known := OrderOf(d, DIRECT_MESSAGES);
    if channels == [] {
      assert known + [] == known;
    } else {
      var n := |channels| - 1;
      var m, c := UpsertPrivate(d, channels[..n]), channels[n].(guild := DIRECT_MESSAGES);
      PrivateOrder(d, channels[..n]);
      UpsertOrdered(m, c);
      PrivatePlace(m, c);
      assert UpsertPrivate(d, channels) == UpsertChannel(m, c);
      hide UpsertPrivate, UpsertChannel, Ordered, OrderOf;
      NextId(channels, known);
    }
  }

  lemma NextId(channels: seq<Channel>, known: seq<nat>)
    requires channels != []
    ensures var n := |channels| - 1;
            var before, id := known + NewIds(channels[..n], known), channels[n].id;
            known + NewIds(channels, known) == if id in before then before else before + [id]
  {
    var n := |channels| - 1;
    assert known + (NewIds(channels[..n], known) + [channels[n].id]) ==
      known + NewIds(channels[..n], known) + [channels[n].id];
  }

  lemma PrivatePlace(d: Dir, c: Channel)
    requires Ordered(d) && c.guild == DIRECT_MESSAGES
    ensures var was := OrderOf(d, DIRECT_MESSAGES);
            OrderOf(UpsertChannel(d, c), DIRECT_MESSAGES) == if c.id in was then was else was + [c.id]
  {
  }

  // ---- the whole page

  lemma {:induction false} GuildsTaken(d: Dir, guilds: seq<nat>)
    ensures var d' := UpsertGuilds(d, guilds);
            d' == d.(guilds := d'.guilds, guildGeneration := d'.guildGeneration) &&
            (forall g :: g in d'.guilds <==> g in d.guilds || g in guilds) &&
            forall g :: Get(d'.guildGeneration, g, 0) ==
                        Get(d.guildGeneration, g, 0) + if g in guilds && g !in d.guilds then 1 else 0
    decreases |guilds|
  {
    if guilds != [] {
      var n := |guilds| - 1;
      GuildsTaken(d, guilds[..n]);
      assert guilds == guilds[..n] + [guilds[n]];
    }
  }

  /** Whether the page makes a guild known: one of its own, or the one of direct messages when it has any. */
  predicate Brings(page: Page, g: nat) { g in page.guilds || (g == DIRECT_MESSAGES && page.channels != []) }

  /** After a page: the guilds known before and those it brings, each new one in a new lifetime; its channels
      as direct messages behind those there were, and everything else as it was. */
  lemma IngestIs(d: Dir, page: Page)
    requires Ordered(d)
    ensures var d' := Ingest(d, page);
            Ordered(d') &&
            (forall g :: g in d'.guilds <==> g in d.guilds || Brings(page, g)) &&
            (forall g :: Get(d'.guildGeneration, g, 0) ==
                         Get(d.guildGeneration, g, 0) + if Brings(page, g) && g !in d.guilds then 1 else 0) &&
            Took(d.(guilds := d'.guilds, guildGeneration := d'.guildGeneration), d', page.channels) &&
            OrderOf(d', DIRECT_MESSAGES) ==
            OrderOf(d, DIRECT_MESSAGES) + NewIds(page.channels, OrderOf(d, DIRECT_MESSAGES))
  {
    var known := Known(d, page);
    KnownIs(d, page);
    PrivateTaken(known, page.channels);
    PrivateOrder(known, page.channels);
    assert Ingest(d, page) == UpsertPrivate(known, page.channels);
    TookFrom(known, UpsertPrivate(known, page.channels), d, page.channels);
    TookGuilds(known, UpsertPrivate(known, page.channels), page.channels);
    hide Took, Known, UpsertPrivate, Ordered, Brings, NewIds;
  }

  /** The guilds of the page, before its channels. */
  function Known(d: Dir, page: Page): Dir {
    var seen := UpsertGuilds(d, page.guilds);
    if page.channels == [] then seen else UpsertGuild(seen, DIRECT_MESSAGES)
  }

  lemma KnownIs(d: Dir, page: Page)
    requires Ordered(d)
    ensures var k := Known(d, page);
            Ordered(k) && k == d.(guilds := k.guilds, guildGeneration := k.guildGeneration) &&
            OrderOf(k, DIRECT_MESSAGES) == OrderOf(d, DIRECT_MESSAGES) &&
            (forall g :: g in k.guilds <==> g in d.guilds || Brings(page, g)) &&
            forall g :: Get(k.guildGeneration, g, 0) ==
                        Get(d.guildGeneration, g, 0) + if Brings(page, g) && g !in d.guilds then 1 else 0
  {
    GuildsTaken(d, page.guilds);
    hide UpsertGuilds;
    var k := Known(d, page);
    assert forall g :: OrderOf(k, g) == OrderOf(d, g);
  }

  lemma TookGuilds(d: Dir, d': Dir, channels: seq<Channel>)
    requires Took(d, d', channels)
    ensures d'.guilds == d.guilds && d'.guildGeneration == d.guildGeneration
  {
  }

  lemma TookFrom(known: Dir, d': Dir, d: Dir, channels: seq<Channel>)
    requires Took(known, d', channels)
    requires known == d.(guilds := known.guilds, guildGeneration := known.guildGeneration)
    ensures Took(d.(guilds := d'.guilds, guildGeneration := d'.guildGeneration), d', channels)
  {
  }

  /** A listed thread is a thread, active when it comes without details. */
  function AsThread(c: Channel): Channel {
    Channel(c.id, c.guild, Thread, c.parent, if c.thread == NoMeta then Meta(false) else c.thread)
  }

  ghost predicate TookThreads(d: Dir, d': Dir, incoming: seq<Channel>) {
    && (forall x :: x in d'.channels <==> x in d.channels || Listed(incoming, x))
    && (forall x :: x in d.channels && !Listed(incoming, x) ==> d'.channels[x] == d.channels[x])
    && (forall k: nat :: LastListed(incoming, k) ==>
          incoming[k].id in d'.channels && d'.channels[incoming[k].id] == AsThread(incoming[k]))
  }

  lemma OneMoreThread(d: Dir, m: Dir, d': Dir, incoming: seq<Channel>)
    requires incoming != [] && TookThreads(d, m, incoming[..|incoming| - 1])
    requires var c := incoming[|incoming| - 1]; d'.channels == m.channels[c.id := AsThread(c)]
    ensures TookThreads(d, d', incoming)
  {
    var n := |incoming| - 1;
    forall x
      ensures Listed(incoming, x) <==> Listed(incoming[..n], x) || incoming[n].id == x
    {
      ListedLast(incoming, x);
    }
    LastTaken(m.channels, incoming, AsThread);
    hide Listed, LastListed, AsThread;
  }

  lemma {:induction false} ThreadsTaken(d: Dir, incoming: seq<Channel>)
    ensures TookThreads(d, UpsertThreads(d, incoming), incoming)
    decreases |incoming|
  {
    if incoming != [] {
      var n := |incoming| - 1;
      var m := UpsertThreads(d, incoming[..n]);
      ThreadsTaken(d, incoming[..n]);
      Upserted(m, AsThread(incoming[n]));
      assert UpsertThreads(d, incoming) == UpsertChannel(m, AsThread(incoming[n]));
      hide UpsertThreads, UpsertChannel, TookThreads;
      OneMoreThread(d, m, UpsertChannel(m, AsThread(incoming[n])), incoming);
    }
  }

  /** After a list of active threads: the guild's missing threads are gone, with the threads under them; the
      listed ones are known as last listed; and every other channel is as it was. */
  lemma SyncIs(d: Dir, guild: nat, scope: Scope, incoming: seq<Channel>)
    requires Ordered(d)
    ensures var (d', removed) := SyncThreads(d, guild, scope, incoming);
            var present := set c | c in incoming :: c.id;
            (forall x :: x in removed ==> x in OrderOf(d, guild) && Missing(d, x, scope, present)) &&
            (forall x :: x in OrderOf(d, guild) && Missing(d, x, scope, present) ==> x !in d'.channels) &&
            (forall x :: x in d'.channels <==> (x in d.channels && x !in Swept(d, removed)) || Listed(incoming, x)) &&
            (forall x :: x in d'.channels && !Listed(incoming, x) ==> d'.channels[x] == d.channels[x]) &&
            forall k: nat :: LastListed(incoming, k) ==> d'.channels[incoming[k].id] == AsThread(incoming[k])
  {
    var present := set c | c in incoming :: c.id;
    StaleSwept(d, OrderOf(d, guild), scope, present);
    var (m, removed) := DropStale(d, OrderOf(d, guild), scope, present);
    ThreadsTaken(m, incoming);
    forall x
      ensures Listed(incoming, x) <==> x in present
    {
      if x in present {
        var c :| c in incoming && c.id == x;
        var k :| 0 <= k < |incoming| && incoming[k] == c;
      }
    }
    hide DropStale, UpsertThreads, Listed, LastListed, Ordered;
  }
}
