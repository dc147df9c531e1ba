/** internal/store: the store's guilds, channels and counts as its methods change them. */
module DirectoryStore {
  import opened Collections
  import opened Directory

  class ChannelStore {
    var guilds: set<nat>
    var guildGeneration: map<nat, nat>
    var channels: map<nat, Channel>
    var channelGeneration: map<nat, nat>
    var channelOrder: map<nat, seq<nat>>
    var pings: map<nat, nat>
    var guildPings: map<nat, int>

    function View(): Dir
      reads this
    {
      Dir(guilds, guildGeneration, channels, channelGeneration, channelOrder, pings, guildPings)
    }

    constructor ()
      ensures View() == EMPTY
    {
      guilds, guildGeneration, channels, channelGeneration, channelOrder := {}, map[], map[], map[], map[];
      pings, guildPings := map[], map[];
    }

    method IncrementPing(channel: nat)
      modifies this`pings, this`guildPings
      ensures View() == Directory.IncrementPing(old(View()), channel)
      ensures old(Ordered(View()) && Agrees(View())) ==> Agrees(View())
    {
      if Ordered(View()) && Agrees(View()) { IncrementAgrees(View(), channel); }
      pings := pings[channel := Get(pings, channel, 0) + 1];
      if channel in channels {
        var g := channels[channel].guild;
        guildPings := guildPings[g := Get(guildPings, g, 0) + 1];
      }
    }

    method ClearPing(channel: nat)
      modifies this`pings, this`guildPings
      ensures View() == Directory.ClearPing(old(View()), channel)
    {
      var count := Get(pings, channel, 0);
      if count == 0 { return; }
      if channel in channels {
        var g := channels[channel].guild;
        guildPings := guildPings[g := Get(guildPings, g, 0) - count];
        if guildPings[g] <= 0 { guildPings := guildPings - {g}; }
        LessIs(old(guildPings), g, count);
      }
      pings := pings - {channel};
    }

    method UpsertGuild(guild: nat)
      modifies this`guilds, this`guildGeneration
      ensures View() == Directory.UpsertGuild(old(View()), guild)
    {
      if guild !in guilds { guildGeneration := Bump(guildGeneration, guild); }
      guilds := guilds + {guild};
      if guild in old(guilds) { assert guilds == old(guilds); }
    }

    method UpsertChannel(c: Channel)
      modifies this`channels, this`channelGeneration, this`channelOrder
      ensures View() == Directory.UpsertChannel(old(View()), c)
    {
      if c.id in channels {
        var was := channels[c.id].guild;
        if was != c.guild {
          RemoveChannelOrder(was, c.id);
          channelOrder := channelOrder[c.guild := Get(channelOrder, c.guild, []) + [c.id]];
        }
      } else {
        channelOrder := channelOrder[c.guild := Get(channelOrder, c.guild, []) + [c.id]];
        channelGeneration := Bump(channelGeneration, c.id);
      }
      channels := channels[c.id := c];
    }

    method UpsertThread(c: Channel)
      modifies this`channels, this`channelGeneration, this`channelOrder
      ensures View() == Directory.UpsertThread(old(View()), c)
    {
      var thread := c;
      if thread.thread.NoMeta? { thread := thread.(thread := Meta(false)); }
      UpsertChannel(thread.(kind := Thread));
    }

    method RemoveChannelOrder(guild: nat, id: nat)
      modifies this`channelOrder
      ensures View() == RemoveOrder(old(View()), guild, id)
    {
      var order := Get(channelOrder, guild, []);
      for i := 0 to |order|
        invariant id !in order[..i] && channelOrder == old(channelOrder)
      {
        if order[i] == id {
          DropAt(order, id, i);
          channelOrder := channelOrder[guild := order[..i] + order[i + 1..]];
          return;
        }
      }
      assert order[..|order|] == order;
    }

    method RemoveOneChannel(id: nat) returns (removed: bool)
      modifies this`channels, this`channelGeneration, this`channelOrder, this`pings, this`guildPings
      ensures View() == RemoveOne(old(View()), id) && removed == (id in old(channels))
    {
      if id !in channels { return false; }
      RemoveChannelOrder(channels[id].guild, id);
      ClearPing(id);
      channels := channels - {id};
      channelGeneration := Bump(channelGeneration, id);
      removed := true;
    }

    /** Threads go in whatever order the map yields them. */
    method RemoveChannel(id: nat)
      requires Ordered(View())
      modifies this`channels, this`channelGeneration, this`channelOrder, this`pings, this`guildPings
      ensures View() == Directory.RemoveChannel(old(View()), id) && Ordered(View())
    {
      ghost var before := View();
      var left := ThreadsOf(View(), id);
      ghost var gone: seq<nat> := [];
      assert Distinct(gone);
      hide Ordered, RemoveOne, Distinct;
      while left != {}
        invariant Distinct(gone) && (forall x :: x in gone ==> x !in left)
        invariant forall x :: x in gone || x in left <==> x in ThreadsOf(before, id)
        invariant Ordered(before) && View() == RemoveAll(before, gone)
        decreases |left|
      {
        var child :| child in left;
        var _ := RemoveOneChannel(child);
        RemoveAllSnoc(before, gone, child);
        DistinctSnoc(gone, child);
        gone := gone + [child];
        left := left - {child};
      }
      AnyOrderWillDo(before, gone, Listing(ThreadsOf(before, id)));
      RemoveAllOrdered(before, gone);
      var known := RemoveOneChannel(id);
      if !known {
        RemoveUnknown(RemoveAll(before, gone), id);
        ClearPing(id);
        channelGeneration := Bump(channelGeneration, id);
      }
      StillOrdered(RemoveAll(before, gone), id);
    }

    method RemoveGuild(guild: nat)
      modifies this
      ensures View() == Directory.RemoveGuild(old(View()), guild)
    {
      hide RemoveOne;
      var ids := Get(channelOrder, guild, []);
      ghost var before := View();
      for i := 0 to |ids|
        invariant View() == RemoveAll(before, ids[..i])
      {
        var _ := RemoveOneChannel(ids[i]);
        assert ids[..i + 1] == ids[..i] + [ids[i]];
        RemoveAllSnoc(before, ids[..i], ids[i]);
      }
      assert ids[..|ids|] == ids;
      RemoveAllGuilds(before, ids);
      channelOrder := channelOrder - {guild};
      guildPings := guildPings - {guild};
      guilds := guilds - {guild};
      guildGeneration := Bump(guildGeneration, guild);
    }

    method SyncActiveThreads(guild: nat, scope: Scope, incoming: seq<Channel>) returns (removed: seq<nat>)
      requires Ordered(View())
      modifies this`channels, this`channelGeneration, this`channelOrder, this`pings, this`guildPings
      ensures (View(), removed) == SyncThreads(old(View()), guild, scope, incoming)
    {
      hide Ordered, Directory.RemoveChannel, Directory.UpsertThread;
      var present := set c | c in incoming :: c.id;
      var ids := Get(channelOrder, guild, []);
      ghost var before := View();
      removed := [];
      for i := 0 to |ids|
        invariant Ordered(View()) && (View(), removed) == DropStale(before, ids[..i], scope, present)
      {
        assert ids[..i + 1][..i] == ids[..i];
        if Stale(View(), ids[i], scope, present) {
          RemoveChannel(ids[i]);
          removed := removed + [ids[i]];
        }
      }
      assert ids[..|ids|] == ids;
      ghost var dropped := View();
      for i := 0 to |incoming|
        invariant View() == UpsertThreads(dropped, incoming[..i])
      {
        assert incoming[..i + 1][..i] == incoming[..i];
        UpsertThread(incoming[i]);
      }
      assert incoming[..|incoming|] == incoming;
    }
  }

  lemma LessIs(m: map<nat, int>, g: nat, count: nat)
    requires count > 0
    ensures var left := Get(m, g, 0) - count;
            Less(m, g, count) == if left <= 0 then m[g := left] - {g} else m[g := left]
  {
  }

  lemma {:induction false} DropAt(s: seq<nat>, x: nat, i: nat)
    requires i < |s| && s[i] == x && x !in s[..i]
    ensures Drop(s, x) == s[..i] + s[i + 1..] && x in s
  {
    if i > 0 {
      assert s[0] == s[..i][0];
      assert s[1..][..i - 1] == s[..i][1..];
      DropAt(s[1..], x, i - 1);
    }
  }

  lemma RemoveUnknown(d: Dir, id: nat)
    requires id !in d.channels
    ensures RemoveOne(d, id) == d
  {
  }

  lemma RemoveAllSnoc(d: Dir, ids: seq<nat>, x: nat)
    ensures RemoveAll(d, ids + [x]) == RemoveOne(RemoveAll(d, ids), x)
  {
    RemoveAllAppend(d, ids, [x]);
    assert [x][1..] == [];
  }

  lemma {:induction false} RemoveAllGuilds(d: Dir, ids: seq<nat>)
    ensures RemoveAll(d, ids).guilds == d.guilds && RemoveAll(d, ids).guildGeneration == d.guildGeneration
    decreases |ids|
  {
    if ids != [] { RemoveAllGuilds(RemoveOne(d, ids[0]), ids[1..]); }
  }

  lemma StillOrdered(d: Dir, id: nat)
    requires Ordered(d)
    ensures Ordered(RemoveSelf(d, id))
  {
    if id in d.channels {
      RemoveOneOrdered(d, id);
    } else {
      assert forall g :: OrderOf(RemoveSelf(d, id), g) == OrderOf(d, g);
    }
  }
}
