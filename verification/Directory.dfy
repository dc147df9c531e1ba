/** internal/store/store.go and internal/store/channels.go: guilds, channels and their order,
    attention counts, and the generations that tell lifetimes apart. */
module Directory {
  import opened Collections

  datatype Kind = Thread | Other

  /** `thread` is the thread's metadata, of which only being archived matters here. */
  datatype ThreadMeta = NoMeta | Meta(archived: bool)

  datatype Channel = Channel(id: nat, guild: nat, kind: Kind, parent: nat, thread: ThreadMeta)

  datatype Dir = Dir(
    guilds: set<nat>,
    guildGeneration: map<nat, nat>,
    channels: map<nat, Channel>,
    channelGeneration: map<nat, nat>,
    order: map<nat, seq<nat>>,
    pings: map<nat, nat>,
    guildPings: map<nat, int>)

  const EMPTY := Dir({}, map[], map[], map[], map[], map[], map[])

  function Get<K(==), V>(m: map<K, V>, k: K, zero: V): V { if k in m then m[k] else zero }

  function OrderOf(d: Dir, guild: nat): seq<nat> { Get(d.order, guild, []) }
  function Pings(d: Dir, channel: nat): nat { Get(d.pings, channel, 0) }
  function GuildPings(d: Dir, guild: nat): int { Get(d.guildPings, guild, 0) }

  function Bump(m: map<nat, nat>, k: nat): map<nat, nat> { m[k := Get(m, k, 0) + 1] }

  /** Without the first occurrence. */
  function Drop(s: seq<nat>, x: nat): (r: seq<nat>)
    ensures |r| <= |s|
  {
    if s == [] then [] else if s[0] == x then s[1..] else [s[0]] + Drop(s[1..], x)
  }

  function RemoveOrder(d: Dir, guild: nat, id: nat): Dir {
    if id in OrderOf(d, guild) then d.(order := d.order[guild := Drop(OrderOf(d, guild), id)]) else d
  }

  /** A guild's aggregate less one channel's count. */
  function Less(aggregate: map<nat, int>, guild: nat, count: nat): map<nat, int> {
    if count == 0 then aggregate
    else
      var left := Get(aggregate, guild, 0) - count;
      if left <= 0 then aggregate - {guild} else aggregate[guild := left]
  }

  function Cleared(pings: map<nat, nat>, id: nat): map<nat, nat> {
    if Get(pings, id, 0) == 0 then pings else pings - {id}
  }

  function ClearPing(d: Dir, id: nat): Dir {
    d.(guildPings := if id in d.channels then Less(d.guildPings, d.channels[id].guild, Pings(d, id)) else d.guildPings,
       pings := Cleared(d.pings, id))
  }

  function IncrementPing(d: Dir, id: nat): Dir {
    var counted := d.(pings := d.pings[id := Pings(d, id) + 1]);
    if id !in d.channels then counted
    else var g := d.channels[id].guild; counted.(guildPings := d.guildPings[g := GuildPings(d, g) + 1])
  }

  function UpsertGuild(d: Dir, guild: nat): Dir {
    if guild in d.guilds then d
    else d.(guilds := d.guilds + {guild}, guildGeneration := Bump(d.guildGeneration, guild))
  }

  function Append(d: Dir, guild: nat, id: nat): Dir { d.(order := d.order[guild := OrderOf(d, guild) + [id]]) }

  function UpsertChannel(d: Dir, c: Channel): Dir {
    var placed :=
      if c.id !in d.channels then Append(d, c.guild, c.id).(channelGeneration := Bump(d.channelGeneration, c.id))
      else if d.channels[c.id].guild != c.guild then Append(RemoveOrder(d, d.channels[c.id].guild, c.id), c.guild, c.id)
      else d;
    placed.(channels := d.channels[c.id := c])
  }

  function UpsertThread(d: Dir, c: Channel): Dir {
    UpsertChannel(d, c.(thread := if c.thread.NoMeta? then Meta(false) else c.thread, kind := Thread))
  }

  /** One channel, if it is there. */
  function RemoveOne(d: Dir, id: nat): Dir {
    if id !in d.channels then d
    else
      var cleared := ClearPing(RemoveOrder(d, d.channels[id].guild, id), id);
      cleared.(channels := d.channels - {id}, channelGeneration := Bump(d.channelGeneration, id))
  }

  function RemoveAll(d: Dir, ids: seq<nat>): Dir
    decreases |ids|
  {
    if ids == [] then d else RemoveAll(RemoveOne(d, ids[0]), ids[1..])
  }

  function ThreadsOf(d: Dir, parent: nat): set<nat> {
    set id | id in d.channels && d.channels[id].kind == Thread && d.channels[id].parent == parent
  }

  /** The channel itself, or at least its traces and lifetime when it is not known. */
  function RemoveSelf(d: Dir, id: nat): Dir {
    if id in d.channels then RemoveOne(d, id)
    else ClearPing(d, id).(channelGeneration := Bump(d.channelGeneration, id))
  }

  /** A channel after the threads under it. */
  ghost function RemoveChannel(d: Dir, id: nat): Dir {
    RemoveSelf(RemoveAll(d, Listing(ThreadsOf(d, id))), id)
  }

  // ---- active threads as the gateway lists them

  datatype Scope = Everything | Parents(ids: set<nat>)

  /** A thread held as active, in scope, and not in the list. */
  predicate Stale(d: Dir, id: nat, scope: Scope, present: set<nat>) {
    id in d.channels && d.channels[id].kind == Thread && d.channels[id].thread == Meta(false) &&
    (scope.Parents? ==> d.channels[id].parent in scope.ids) && id !in present
  }

  ghost function DropStale(d: Dir, ids: seq<nat>, scope: Scope, present: set<nat>): (Dir, seq<nat>) {
    if ids == [] then (d, [])
    else
      var n := |ids| - 1;
      var init := DropStale(d, ids[..n], scope, present);
      if Stale(init.0, ids[n], scope, present) then (RemoveChannel(init.0, ids[n]), init.1 + [ids[n]]) else init
  }

  function UpsertThreads(d: Dir, incoming: seq<Channel>): Dir {
    if incoming == [] then d else UpsertThread(UpsertThreads(d, incoming[..|incoming| - 1]), incoming[|incoming| - 1])
  }

  ghost function SyncThreads(d: Dir, guild: nat, scope: Scope, incoming: seq<Channel>): (Dir, seq<nat>) {
    var dropped := DropStale(d, OrderOf(d, guild), scope, set c | c in incoming :: c.id);
    (UpsertThreads(dropped.0, incoming), dropped.1)
  }

  function RemoveGuild(d: Dir, guild: nat): Dir {
    var emptied := RemoveAll(d, OrderOf(d, guild));
    emptied.(order := emptied.order - {guild}, guildPings := emptied.guildPings - {guild},
             guilds := d.guilds - {guild}, guildGeneration := Bump(d.guildGeneration, guild))
  }

  // ---- the order of every guild

  /** Each guild's order lists exactly its channels, each once. */
  ghost predicate Ordered(d: Dir) {
    (forall id :: id in d.channels ==> d.channels[id].id == id) &&
    (forall g :: Distinct(OrderOf(d, g))) &&
    (forall g, id :: id in OrderOf(d, g) <==> id in d.channels && d.channels[id].guild == g)
  }

  lemma HeadOnce(ids: seq<nat>)
    requires Distinct(ids) && ids != []
    ensures Distinct(ids[1..]) && ids[0] !in ids[1..]
    ensures forall x :: x in ids <==> x == ids[0] || x in ids[1..]
  {
    assert ids == [ids[0]] + ids[1..];
    assert forall j :: 0 <= j < |ids[1..]| ==> ids[1..][j] == ids[j + 1];
  }

  lemma {:induction false} DropIs(s: seq<nat>, x: nat)
    requires Distinct(s)
    ensures Distinct(Drop(s, x)) && forall y :: y in Drop(s, x) <==> y in s && y != x
  {
    if s != [] {
      hide Distinct;
      HeadOnce(s);
      DropIs(s[1..], x);
      ConsOnce(s[0], Drop(s[1..], x));
    }
  }

  lemma ConsOnce(x: nat, rest: seq<nat>)
    requires Distinct(rest)
    ensures x !in rest ==> Distinct([x] + rest)
    ensures forall y :: y in [x] + rest <==> y == x || y in rest
  {
    assert forall i :: 0 <= i < |rest| ==> ([x] + rest)[i + 1] == rest[i] && rest[i] in rest;
  }

  lemma RemoveOneOrdered(d: Dir, id: nat)
    requires Ordered(d)
    ensures Ordered(RemoveOne(d, id))
  {
    if id in d.channels {
      DropIs(OrderOf(d, d.channels[id].guild), id);
      var d' := RemoveOne(d, id);
      assert forall g :: OrderOf(d', g) == if g == d.channels[id].guild then Drop(OrderOf(d, g), id) else OrderOf(d, g);
    }
  }

  lemma {:induction false} RemoveAllOrdered(d: Dir, ids: seq<nat>)
    requires Ordered(d)
    ensures Ordered(RemoveAll(d, ids))
    decreases |ids|
  {
    if ids != [] {
      RemoveOneOrdered(d, ids[0]);
      RemoveAllOrdered(RemoveOne(d, ids[0]), ids[1..]);
    }
  }

  lemma UpsertOrdered(d: Dir, c: Channel)
    requires Ordered(d)
    ensures Ordered(UpsertChannel(d, c))
  {
    var d' := UpsertChannel(d, c);
    if c.id !in d.channels {
      assert forall g :: OrderOf(d', g) == if g == c.guild then OrderOf(d, g) + [c.id] else OrderOf(d, g);
    } else {
      var was := d.channels[c.id].guild;
      if was != c.guild {
        DropIs(OrderOf(d, was), c.id);
        assert OrderOf(d', c.guild) == OrderOf(d, c.guild) + [c.id] && OrderOf(d', was) == Drop(OrderOf(d, was), c.id);
        assert forall g :: g != c.guild && g != was ==> OrderOf(d', g) == OrderOf(d, g);
      } else {
        assert forall g :: OrderOf(d', g) == OrderOf(d, g);
      }
    }
  }

  lemma EmptiedGuild(d: Dir, guild: nat)
    requires Ordered(d)
    ensures var e := RemoveAll(d, OrderOf(d, guild)); Ordered(e) && OrderOf(e, guild) == []
  {
    var ids := OrderOf(d, guild);
    RemoveAllOrdered(d, ids);
    RemoveAllLeaves(d, ids);
    hide RemoveAll, Distinct;
    var e := RemoveAll(d, ids);
    forall x
      ensures x !in OrderOf(e, guild)
    {
      assert x in OrderOf(e, guild) <==> x in e.channels && e.channels[x].guild == guild;
      assert x in ids <==> x in d.channels && d.channels[x].guild == guild;
    }
    if OrderOf(e, guild) != [] { SomeIn(OrderOf(e, guild)); }
  }

  lemma GuildOrdered(d: Dir, guild: nat)
    requires Ordered(d)
    ensures Ordered(RemoveGuild(d, guild))
  {
    EmptiedGuild(d, guild);
    hide RemoveAll;
    var e, d' := RemoveAll(d, OrderOf(d, guild)), RemoveGuild(d, guild);
    forall g
      ensures OrderOf(d', g) == OrderOf(e, g)
    {
    }
  }

  lemma SomeIn(s: seq<nat>)
    requires s != []
    ensures s[0] in s
  {
  }

  /** What removing channels leaves of the channels. */
  lemma {:induction false} RemoveAllLeaves(d: Dir, ids: seq<nat>)
    ensures var d' := RemoveAll(d, ids);
            (forall id :: id in d'.channels <==> id in d.channels && id !in ids) &&
            forall id :: id in d'.channels ==> d'.channels[id] == d.channels[id]
    decreases |ids|
  {
    if ids != [] {
      assert ids == [ids[0]] + ids[1..];
      RemoveAllLeaves(RemoveOne(d, ids[0]), ids[1..]);
    }
  }

  // ---- the aggregate of a guild's counts

  function Sum(pings: map<nat, nat>, ids: seq<nat>): nat {
    if ids == [] then 0 else Get(pings, ids[0], 0) + Sum(pings, ids[1..])
  }

  /** Each guild's count is the sum over its channels. */
  ghost predicate Agrees(d: Dir) { forall g :: GuildPings(d, g) == Sum(d.pings, OrderOf(d, g)) }

  lemma {:induction false} SumDrop(pings: map<nat, nat>, ids: seq<nat>, id: nat)
    requires id in ids
    ensures Sum(pings, ids) == Get(pings, id, 0) + Sum(pings, Drop(ids, id))
  {
    if ids[0] != id {
      SumDrop(pings, ids[1..], id);
      assert ([ids[0]] + Drop(ids[1..], id))[1..] == Drop(ids[1..], id);
    }
  }

  /** Changing one channel's count changes the sums it is part of. */
  lemma {:induction false} SumChange(pings: map<nat, nat>, pings': map<nat, nat>, ids: seq<nat>, id: nat)
    requires Distinct(ids) && forall x :: x != id ==> Get(pings', x, 0) == Get(pings, x, 0)
    ensures Sum(pings', ids) as int ==
            Sum(pings, ids) + if id in ids then Get(pings', id, 0) as int - Get(pings, id, 0) as int else 0
  {
    if ids != [] {
      HeadOnce(ids);
      hide Distinct;
      SumChange(pings, pings', ids[1..], id);
      assert ids[0] != id ==> Get(pings', ids[0], 0) == Get(pings, ids[0], 0);
    }
  }

  lemma {:induction false} SumAppend(pings: map<nat, nat>, ids: seq<nat>, id: nat)
    ensures Sum(pings, ids + [id]) == Sum(pings, ids) + Get(pings, id, 0)
  {
    if ids == [] {
      assert [] + [id] == [id] && [id][1..] == [];
    } else {
      SumAppend(pings, ids[1..], id);
      assert (ids + [id])[1..] == ids[1..] + [id];
    }
  }

  lemma SumCovers(pings: map<nat, nat>, ids: seq<nat>, id: nat)
    requires id in ids
    ensures Sum(pings, ids) >= Get(pings, id, 0)
  {
    SumDrop(pings, ids, id);
  }

  /** Counting keeps the aggregate whether or not the channel is hydrated. */
  lemma IncrementAgrees(d: Dir, id: nat)
    requires Ordered(d) && Agrees(d)
    ensures Agrees(IncrementPing(d, id))
  {
    var d' := IncrementPing(d, id);
    forall g
      ensures GuildPings(d', g) == Sum(d'.pings, OrderOf(d', g))
    {
      SumChange(d.pings, d'.pings, OrderOf(d, g), id);
    }
  }

  lemma ClearAgrees(d: Dir, id: nat)
    requires Ordered(d) && Agrees(d)
    ensures Agrees(ClearPing(d, id))
  {
    var d' := ClearPing(d, id);
    forall g
      ensures GuildPings(d', g) == Sum(d'.pings, OrderOf(d', g))
    {
      SumChange(d.pings, d'.pings, OrderOf(d, g), id);
      if id in d.channels && d.channels[id].guild == g { SumCovers(d.pings, OrderOf(d, g), id); }
    }
  }

  lemma RemoveOneAgrees(d: Dir, id: nat)
    requires Ordered(d) && Agrees(d)
    ensures Agrees(RemoveOne(d, id))
  {
    if id in d.channels {
      var d' := RemoveOne(d, id);
      var home := d.channels[id].guild;
      DropIs(OrderOf(d, home), id);
      forall g
        ensures GuildPings(d', g) == Sum(d'.pings, OrderOf(d', g))
      {
        if g == home {
          SumDrop(d.pings, OrderOf(d, g), id);
          SumChange(d.pings, d'.pings, Drop(OrderOf(d, g), id), id);
        } else {
          SumChange(d.pings, d'.pings, OrderOf(d, g), id);
        }
      }
    }
  }

  lemma {:induction false} RemoveAllAgrees(d: Dir, ids: seq<nat>)
    requires Ordered(d) && Agrees(d)
    ensures Agrees(RemoveAll(d, ids))
    decreases |ids|
  {
    if ids != [] {
      RemoveOneOrdered(d, ids[0]);
      RemoveOneAgrees(d, ids[0]);
      RemoveAllAgrees(RemoveOne(d, ids[0]), ids[1..]);
    }
  }

  lemma GuildAgrees(d: Dir, guild: nat)
    requires Ordered(d) && Agrees(d)
    ensures Agrees(RemoveGuild(d, guild))
  {
    RemoveAllAgrees(d, OrderOf(d, guild));
    EmptiedGuild(d, guild);
    hide RemoveAll;
    var e, d' := RemoveAll(d, OrderOf(d, guild)), RemoveGuild(d, guild);
    forall g
      ensures GuildPings(d', g) == Sum(d'.pings, OrderOf(d', g))
    {
      assert OrderOf(d', g) == OrderOf(e, g);
      assert g != guild ==> GuildPings(d', g) == GuildPings(e, g);
    }
  }

  /** An upsert keeps the aggregates exactly when the channel stays where it was, or has no
      count yet: nothing carries a count over to a guild. */
  lemma UpsertAgreesIff(d: Dir, c: Channel)
    requires Ordered(d) && Agrees(d)
    ensures Agrees(UpsertChannel(d, c)) <==>
            (c.id in d.channels && d.channels[c.id].guild == c.guild) || Pings(d, c.id) == 0
  {
    var d' := UpsertChannel(d, c);
    assert forall g :: GuildPings(d', g) == GuildPings(d, g);
    if c.id in d.channels && d.channels[c.id].guild == c.guild {
      assert forall g :: OrderOf(d', g) == OrderOf(d, g);
      assert forall g :: GuildPings(d, g) == Sum(d.pings, OrderOf(d, g)) ==>
        GuildPings(d', g) == Sum(d'.pings, OrderOf(d', g));
    } else {
      SumAppend(d.pings, OrderOf(d, c.guild), c.id);
      assert OrderOf(d', c.guild) == OrderOf(d, c.guild) + [c.id];
      assert GuildPings(d', c.guild) == Sum(d'.pings, OrderOf(d', c.guild)) <==> Pings(d, c.id) == 0;
      forall g | Pings(d, c.id) == 0 && g != c.guild
        ensures GuildPings(d', g) == Sum(d'.pings, OrderOf(d', g))
      {
        if c.id in d.channels && d.channels[c.id].guild == g { SumDrop(d.pings, OrderOf(d, g), c.id); }
      }
    }
  }

  // ---- the order in which children are removed does not matter

  lemma {:induction false} DropCommutes(s: seq<nat>, a: nat, b: nat)
    ensures Drop(Drop(s, a), b) == Drop(Drop(s, b), a)
  {
    if s != [] && s[0] != a && s[0] != b {
      DropCommutes(s[1..], a, b);
      assert ([s[0]] + Drop(s[1..], a))[1..] == Drop(s[1..], a);
      assert ([s[0]] + Drop(s[1..], b))[1..] == Drop(s[1..], b);
    } else if s != [] && a != b {
      if s[0] == a { assert ([s[0]] + Drop(s[1..], b))[1..] == Drop(s[1..], b); }
      if s[0] == b { assert ([s[0]] + Drop(s[1..], a))[1..] == Drop(s[1..], a); }
    }
  }

  lemma LessCommutes(aggregate: map<nat, int>, g: nat, m: nat, h: nat, n: nat)
    ensures Less(Less(aggregate, g, m), h, n) == Less(Less(aggregate, h, n), g, m)
  {
  }

  lemma ClearedCommutes(pings: map<nat, nat>, a: nat, b: nat)
    requires a != b
    ensures Cleared(Cleared(pings, a), b) == Cleared(Cleared(pings, b), a)
    ensures Get(Cleared(pings, a), b, 0) == Get(pings, b, 0) && Get(Cleared(pings, b), a, 0) == Get(pings, a, 0)
  {
  }

  lemma RemovedFields(d: Dir, id: nat)
    requires Ordered(d) && id in d.channels
    ensures var d' := RemoveOne(d, id);
            var g := d.channels[id].guild;
            d'.order == d.order[g := Drop(OrderOf(d, g), id)] && d'.pings == Cleared(d.pings, id) &&
            d'.guildPings == Less(d.guildPings, g, Pings(d, id)) &&
            d'.channels == d.channels - {id} && d'.channelGeneration == Bump(d.channelGeneration, id) &&
            d'.guilds == d.guilds && d'.guildGeneration == d.guildGeneration
  {
    assert id in OrderOf(d, d.channels[id].guild);
    hide Ordered, Drop, Cleared, Less, Bump;
  }

  lemma RemoveCommutes(d: Dir, a: nat, b: nat)
    requires Ordered(d) && a != b
    ensures RemoveOne(RemoveOne(d, a), b) == RemoveOne(RemoveOne(d, b), a)
  {
    if a in d.channels && b in d.channels {
      hide RemoveOne, Ordered, Drop, Less, Cleared, Bump;
      var g, h := d.channels[a].guild, d.channels[b].guild;
      RemoveOneOrdered(d, a);
      RemoveOneOrdered(d, b);
      var da, db := RemoveOne(d, a), RemoveOne(d, b);
      RemovedFields(d, a);
      RemovedFields(d, b);
      RemovedFields(da, b);
      RemovedFields(db, a);
      var ab, ba := RemoveOne(da, b), RemoveOne(db, a);
      ClearedCommutes(d.pings, a, b);
      LessCommutes(d.guildPings, g, Pings(d, a), h, Pings(d, b));
      BumpCommutes(d.channelGeneration, a, b);
      OrderCommutes(d.order, g, a, h, b);
      assert ab.channels == ba.channels;
    }
  }

  lemma BumpCommutes(m: map<nat, nat>, a: nat, b: nat)
    ensures Bump(Bump(m, a), b) == Bump(Bump(m, b), a)
  {
  }

  lemma OrderCommutes(order: map<nat, seq<nat>>, g: nat, a: nat, h: nat, b: nat)
    ensures var oa := order[g := Drop(Get(order, g, []), a)];
            var ob := order[h := Drop(Get(order, h, []), b)];
            oa[h := Drop(Get(oa, h, []), b)] == ob[g := Drop(Get(ob, g, []), a)]
  {
    DropCommutes(Get(order, g, []), a, b);
  }

  lemma {:induction false} RemoveAllAppend(d: Dir, a: seq<nat>, b: seq<nat>)
    ensures RemoveAll(d, a + b) == RemoveAll(RemoveAll(d, a), b)
    decreases |a|
  {
    if a == [] {
      assert a + b == b;
    } else {
      assert (a + b)[1..] == a[1..] + b;
      RemoveAllAppend(RemoveOne(d, a[0]), a[1..], b);
    }
  }

  lemma {:induction false} LastComesFirst(d: Dir, ids: seq<nat>, x: nat)
    requires Ordered(d) && x !in ids
    ensures RemoveAll(d, ids + [x]) == RemoveAll(RemoveOne(d, x), ids)
    decreases |ids|
  {
    if ids == [] {
      assert ids + [x] == [x] && [x][1..] == [];
    } else {
      assert (ids + [x])[1..] == ids[1..] + [x];
      RemoveOneOrdered(d, ids[0]);
      LastComesFirst(RemoveOne(d, ids[0]), ids[1..], x);
      RemoveCommutes(d, ids[0], x);
    }
  }

  /** Which thread goes first makes no difference to the cascade. */
  lemma {:induction false} AnyOrderWillDo(d: Dir, a: seq<nat>, b: seq<nat>)
    requires Ordered(d) && Distinct(a) && Distinct(b) && forall x :: x in a <==> x in b
    ensures RemoveAll(d, a) == RemoveAll(d, b)
    decreases |a|
  {
    if a == [] {
      if b != [] { SomeIn(b); }
    } else {
      var x := a[0];
      SomeIn(a);
      var k :| 0 <= k < |b| && b[k] == x;
      var before, after := b[..k], b[k + 1..];
      assert b == (before + [x]) + after;
      HeadOnce(a);
      TakenOut(b, k);
      hide Distinct;
      RemoveAllAppend(d, before + [x], after);
      LastComesFirst(d, before, x);
      RemoveAllAppend(RemoveOne(d, x), before, after);
      RemoveOneOrdered(d, x);
      AnyOrderWillDo(RemoveOne(d, x), a[1..], before + after);
    }
  }

  lemma TakenOut(b: seq<nat>, k: nat)
    requires Distinct(b) && k < |b|
    ensures Distinct(b[..k] + b[k + 1..]) && b[k] !in b[..k]
    ensures forall y :: y in b[..k] + b[k + 1..] <==> y in b && y != b[k]
  {
    var r := b[..k] + b[k + 1..];
    assert forall i :: 0 <= i < |r| ==> r[i] == b[if i < k then i else i + 1];
    forall y | y in b && y != b[k]
      ensures y in r
    {
      var i :| 0 <= i < |b| && b[i] == y;
      assert r[if i < k then i else i - 1] == y;
    }
  }
}
