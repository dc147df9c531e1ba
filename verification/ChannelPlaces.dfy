/** Where each row of the channel sidebar comes from, and in which order the rows stand. */
module ChannelPlaces {
  import opened Sorting
  import opened ChannelRows

  // ---- sorted channels and threads

  /** A guild's channels stand by position, and by id where that is equal. */
  lemma ChannelsByPosition(s: seq<Channel>, i: nat, j: nat)
    requires i < j < |s|
    ensures var r := Sorted(s, LessChannel);
            r[i].position < r[j].position || (r[i].position == r[j].position && r[i].id <= r[j].id)
  {
    ChannelOrders(s);
    var r := Sorted(s, LessChannel);
    assert !LessChannel(r[j], r[i]);
  }

  /** When a thread last was active; without details, never. */
  function Activity(c: Channel): int { match c.thread case Meta(_, at) => at case NoMeta => 0 }

  /** Threads stand by their last activity, the latest first, and by id, the newest first, where that is equal. */
  lemma ThreadsByActivity(s: seq<Channel>, i: nat, j: nat)
    requires i < j < |s|
    ensures var r := Sorted(s, LessThread);
            Activity(r[i]) > Activity(r[j]) || (Activity(r[i]) == Activity(r[j]) && r[i].id >= r[j].id)
  {
    ChannelOrders(s);
    var r := Sorted(s, LessThread);
    assert !LessThread(r[j], r[i]);
  }

  // ---- places

  /** Favorites, pinged direct messages, other pinged channels, channels of no category, categories, each in
      list order (`group`); in a category its header, then its channels in list order (`member`); under a
      channel its threads. */
  datatype Place = Place(tier: nat, group: nat, member: nat, thread: bool, active: int, id: nat)

  function At(tier: nat, group: nat, member: nat): Place { Place(tier, group, member, false, 0, 0) }

  predicate Above(p: Place, q: Place) {
    if p.tier != q.tier then p.tier < q.tier
    else if p.group != q.group then p.group < q.group
    else if p.member != q.member then p.member < q.member
    else if p.thread != q.thread then q.thread
    else if p.active != q.active then p.active > q.active
    else p.id > q.id
  }

  /** Neither favorite nor pinged, and neither a category nor a thread. */
  predicate Ordinarily(v: View, c: Channel) {
    c.kind != Category && c.kind != Thread && c.id !in v.pins && c.id !in v.priority
  }

  predicate InCategory(channels: seq<Channel>, c: Channel) {
    c.parent != 0 && exists k :: 0 <= k < |channels| && channels[k].id == c.parent && channels[k].kind == Category
  }

  /** An active thread of a text or announcement channel, itself neither favorite nor pinged. */
  predicate Under(v: View, t: Channel, c: Channel) {
    t.kind == Thread && t.thread.Meta? && !t.thread.archived && t.parent == c.id &&
      (c.kind == Text || c.kind == Announcement) &&
    t.id !in v.pins && t.id !in v.priority
  }

  /** The row of a channel at its place, or of a thread under it. */
  ghost predicate StandsUnder(row: Row, p: Place, channels: seq<Channel>, v: View, c: Channel, depth: nat) {
    if p.thread then
      exists t :: t in channels && Under(v, t, c) && p.active == Activity(t) && p.id == t.id &&
        row == Row(false, t.name, Thread, false, depth + 1, false, t.id, true)
    else row == Row(false, c.name, c.kind, false, depth, false, c.id, false) && p == At(p.tier, p.group, p.member)
  }

  /** What a row at a place is. */
  ghost predicate Stands(row: Row, p: Place, channels: seq<Channel>, v: View) {
    p.group < |channels| &&
    var c := channels[p.group];
    if p.tier < 3 then
      c.kind != Category && p == At(p.tier, p.group, 0) &&
      (match p.tier
       case 0 => c.id in v.pins
       case 1 => c.id !in v.pins && c.id in v.priority && c.kind == Direct
       case _ => c.id !in v.pins && c.id in v.priority && c.kind != Direct) &&
      row == Row(false, c.name, c.kind, false, 0, p.tier == 0, c.id, c.kind == Thread)
    else if p.tier == 3 then
      Ordinarily(v, c) && !InCategory(channels, c) && p.member == 0 && StandsUnder(row, p, channels, v, c, 0)
    else
      p.tier == 4 && c.kind == Category &&
      if p.member == 0 then
        row == Row(true, c.name, Category, c.id in v.collapsed, 0, false, c.id, false) && p == At(4, p.group, 0)
      else
        p.member <= |channels| && c.id !in v.collapsed &&
        var child := channels[p.member - 1];
        Ordinarily(v, child) && child.parent == c.id && StandsUnder(row, p, channels, v, child, 1)
  }

  ghost predicate AllStand(rows: seq<Row>, at: seq<Place>, channels: seq<Channel>, v: View) {
    |at| == |rows| && forall i :: 0 <= i < |rows| ==> Stands(rows[i], at[i], channels, v)
  }

  predicate Descends(at: seq<Place>) { forall i, j :: 0 <= i < j < |at| ==> Above(at[i], at[j]) }

  predicate Between(at: seq<Place>, lo: Place, hi: Place) { forall p :: p in at ==> !Above(p, lo) && Above(p, hi) }

  /** Rows that descend from one place on and end before another. */
  ghost predicate Block(rows: seq<Row>, lo: Place, hi: Place, channels: seq<Channel>, v: View) {
    exists at :: AllStand(rows, at, channels, v) && Descends(at) && Between(at, lo, hi)
  }

  lemma EmptyBlock(lo: Place, hi: Place, channels: seq<Channel>, v: View)
    ensures Block([], lo, hi, channels, v)
  {
    assert AllStand([], [], channels, v) && Descends([]) && Between([], lo, hi);
  }

  lemma OneBlock(row: Row, p: Place, hi: Place, channels: seq<Channel>, v: View)
    requires Stands(row, p, channels, v) && Above(p, hi)
    ensures Block([row], p, hi, channels, v)
  {
    assert AllStand([row], [p], channels, v) && Descends([p]) && Between([p], p, hi);
  }

  lemma WiderBlock(rows: seq<Row>, lo: Place, hi: Place, lo': Place, hi': Place, channels: seq<Channel>, v: View)
    requires Block(rows, lo, hi, channels, v) && !Above(lo, lo') && !Above(hi', hi)
    ensures Block(rows, lo', hi', channels, v)
  {
    hide AllStand, Descends;
    var at :| AllStand(rows, at, channels, v) && Descends(at) && Between(at, lo, hi);
    assert Between(at, lo', hi');
  }

  lemma JoinBlocks(a: seq<Row>, b: seq<Row>, lo: Place, mid: Place, hi: Place, channels: seq<Channel>, v: View)
    requires Block(a, lo, mid, channels, v) && Block(b, mid, hi, channels, v) && !Above(mid, lo) && !Above(hi, mid)
    ensures Block(a + b, lo, hi, channels, v)
  {
    hide Stands;
    var p :| AllStand(a, p, channels, v) && Descends(p) && Between(p, lo, mid);
    var q :| AllStand(b, q, channels, v) && Descends(q) && Between(q, mid, hi);
    assert AllStand(a + b, p + q, channels, v);
    JoinDescends(p, q, mid);
    assert Between(p + q, lo, hi);
  }

  lemma JoinDescends(p: seq<Place>, q: seq<Place>, mid: Place)
    requires Descends(p) && Descends(q) && (forall x :: x in p ==> Above(x, mid)) && forall y :: y in q ==>
             !Above(y, mid)
    ensures Descends(p + q)
  {
    forall i, j | 0 <= i < j < |p| + |q|
      ensures Above((p + q)[i], (p + q)[j])
    {
      if i < |p| <= j {
        assert p[i] in p && q[j - |p|] in q;
      }
    }
  }

  /** Blocks one after another. */
  lemma {:induction false} PassBlock(list: seq<Channel>, piece: Channel -> seq<Row>, bound: nat -> Place,
      channels: seq<Channel>, v: View)
    requires forall i :: 0 <= i < |list| ==> Block(piece(list[i]), bound(i), bound(i + 1), channels, v)
    requires forall i: nat, j: nat :: i <= j <= |list| ==> !Above(bound(j), bound(i))
    ensures Block(Pass(list, piece), bound(0), bound(|list|), channels, v)
  {
    hide Block, Above;
    if list == [] {
      EmptyBlock(bound(0), bound(0), channels, v);
    } else {
      var n := |list| - 1;
      PassBlock(list[..n], piece, bound, channels, v);
      JoinBlocks(Pass(list[..n], piece), piece(list[n]), bound(0), bound(n), bound(n + 1), channels, v);
    }
  }

  // ---- promoted rows

  function Bounds(tier: nat): nat -> Place { (i: nat) => At(tier, i, 0) }

  lemma PromotedBlocks(channels: seq<Channel>, v: View)
    ensures Block(Pass(channels, Favorites(v)), At(0, 0, 0), At(1, 0, 0), channels, v)
    ensures Block(Pass(channels, PingedDMs(v)), At(1, 0, 0), At(2, 0, 0), channels, v)
    ensures Block(Pass(channels, Pinged(v)), At(2, 0, 0), At(3, 0, 0), channels, v)
  {
    hide Block, Pass;
    forall i | 0 <= i < |channels|
      ensures Block(Favorites(v)(channels[i]), Bounds(0)(i), Bounds(0)(i + 1), channels, v)
      ensures Block(PingedDMs(v)(channels[i]), Bounds(1)(i), Bounds(1)(i + 1), channels, v)
      ensures Block(Pinged(v)(channels[i]), Bounds(2)(i), Bounds(2)(i + 1), channels, v)
    {
      PromotedBlock(channels, v, i);
    }
    PassBlock(channels, Favorites(v), Bounds(0), channels, v);
    PassBlock(channels, PingedDMs(v), Bounds(1), channels, v);
    PassBlock(channels, Pinged(v), Bounds(2), channels, v);
    var n := |channels|;
    WiderBlock(Pass(channels, Favorites(v)), At(0, 0, 0), At(0, n, 0), At(0, 0, 0), At(1, 0, 0), channels, v);
    WiderBlock(Pass(channels, PingedDMs(v)), At(1, 0, 0), At(1, n, 0), At(1, 0, 0), At(2, 0, 0), channels, v);
    WiderBlock(Pass(channels, Pinged(v)), At(2, 0, 0), At(2, n, 0), At(2, 0, 0), At(3, 0, 0), channels, v);
  }

  lemma PromotedBlock(channels: seq<Channel>, v: View, i: nat)
    requires i < |channels|
    ensures Block(Favorites(v)(channels[i]), At(0, i, 0), At(0, i + 1, 0), channels, v)
    ensures Block(PingedDMs(v)(channels[i]), At(1, i, 0), At(1, i + 1, 0), channels, v)
    ensures Block(Pinged(v)(channels[i]), At(2, i, 0), At(2, i + 1, 0), channels, v)
  {
    hide Block;
    var c := channels[i];
    EmptyBlock(At(0, i, 0), At(0, i + 1, 0), channels, v);
    EmptyBlock(At(1, i, 0), At(1, i + 1, 0), channels, v);
    EmptyBlock(At(2, i, 0), At(2, i + 1, 0), channels, v);
    if c.kind != Category {
      if c.id in v.pins {
        OneBlock(Promote(c, true)[0], At(0, i, 0), At(0, i + 1, 0), channels, v);
      } else if c.id in v.priority {
        var tier := if c.kind == Direct then 1 else 2;
        OneBlock(Promote(c, false)[0], At(tier, i, 0), At(tier, i + 1, 0), channels, v);
      }
    }
  }

  // ---- a channel and its threads

  /** Where a channel's rows begin; the next place after them is that of the next member. */
  function ThreadBound(threads: seq<Channel>, tier: nat, group: nat, member: nat): nat -> Place {
    (k: nat) => if k < |threads| then Place(tier, group, member, true, Activity(threads[k]), threads[k].id)
                else At(tier, group, member + 1)
  }

  lemma ThreadsDescend(channels: seq<Channel>, parent: nat, tier: nat, group: nat, member: nat, i: nat, j: nat)
    requires ChannelRows.DistinctIds(channels) && i <= j <= |Threads(channels, parent)|
    ensures var bound := ThreadBound(Threads(channels, parent), tier, group, member);
            !Above(bound(j), bound(i)) && (i < j ==> Above(bound(i), bound(j)))
  {
    var threads := Threads(channels, parent);
    ThreadsAre(channels, parent);
    var bound := ThreadBound(threads, tier, group, member);
    if i < j < |threads| {
      var f := Filter(channels, IsThreadOf(channels, parent));
      assert threads[i].id != threads[j].id;
      ThreadsByActivity(f, i, j);
      hide Threads, Activity;
      assert Activity(threads[i]) > Activity(threads[j]) ||
        (Activity(threads[i]) == Activity(threads[j]) && threads[i].id > threads[j].id);
      assert bound(i) == Place(tier, group, member, true, Activity(threads[i]), threads[i].id);
      assert bound(j) == Place(tier, group, member, true, Activity(threads[j]), threads[j].id);
      assert Above(bound(i), bound(j));
      assert !Above(bound(j), bound(i));
    } else if i < j {
      assert bound(j) == At(tier, group, member + 1);
      assert bound(i) == Place(tier, group, member, true, Activity(threads[i]), threads[i].id);
    } else {
      assert bound(i) == bound(j);
      assert !Above(bound(j), bound(i));
    }
  }

  lemma {:induction false} ByIdIs(channels: seq<Channel>, c: Channel)
    requires ChannelRows.DistinctIds(channels) && c in channels
    ensures c.id in ById(channels) && ById(channels)[c.id] == c
  {
    var n := |channels| - 1;
    if channels[n] != c {
      var k :| 0 <= k < |channels| && channels[k] == c;
      assert channels[..n][k] == c && c in channels[..n];
      assert channels[k].id != channels[n].id;
      ByIdIs(channels[..n], c);
    }
  }

  /** A channel's threads are those under it. */
  lemma ThreadUnder(channels: seq<Channel>, v: View, c: Channel, t: Channel)
    requires ChannelRows.DistinctIds(channels) && c in channels && t in Threads(channels, c.id) && !Promoted(v, t.id)
    ensures t in channels && Under(v, t, c)
  {
    ThreadsAre(channels, c.id);
    ByIdIs(channels, c);
    hide ById, Threads;
  }

  /** Places under which a channel's rows stand as `StandsUnder` says. */
  ghost predicate Hosted(channels: seq<Channel>, v: View, c: Channel, depth: nat, tier: nat, group: nat, member: nat) {
    forall row: Row, p: Place ::
      StandsUnder(row, p, channels, v, c, depth) && p.tier == tier && p.group == group && p.member == member ==>
        Stands(row, p, channels, v)
  }

  lemma ThreadBlock(channels: seq<Channel>, v: View, c: Channel, depth: nat, tier: nat, group: nat, member: nat, k: nat)
    requires ChannelRows.DistinctIds(channels) && c in channels && k < |Threads(channels, c.id)|
    requires Hosted(channels, v, c, depth, tier, group, member)
    ensures var threads := Threads(channels, c.id);
            var bound := ThreadBound(threads, tier, group, member);
            Block(ThreadRows(v, depth + 1)(threads[k]), bound(k), bound(k + 1), channels, v)
  {
    var threads := Threads(channels, c.id);
    var bound := ThreadBound(threads, tier, group, member);
    var t := threads[k];
    ThreadsDescend(channels, c.id, tier, group, member, k, k + 1);
    hide Block, Threads, Above;
    if Promoted(v, t.id) {
      EmptyBlock(bound(k), bound(k + 1), channels, v);
    } else {
      ThreadUnder(channels, v, c, t);
      var row := ThreadRow(t, depth + 1, false);
      assert StandsUnder(row, bound(k), channels, v, c, depth);
      OneBlock(row, bound(k), bound(k + 1), channels, v);
    }
  }

  lemma ThreadsBlock(channels: seq<Channel>, v: View, c: Channel, depth: nat, tier: nat, group: nat, member: nat)
    requires ChannelRows.DistinctIds(channels) && c in channels && Hosted(channels, v, c, depth, tier, group, member)
    ensures var threads := Threads(channels, c.id);
            var bound := ThreadBound(threads, tier, group, member);
            Block(Pass(threads, ThreadRows(v, depth + 1)), bound(0), bound(|threads|), channels, v)
  {
    var threads := Threads(channels, c.id);
    var bound := ThreadBound(threads, tier, group, member);
    hide Block, Threads, Pass, Stands, StandsUnder, ChannelRows.DistinctIds;
    forall k | 0 <= k < |threads|
      ensures Block(ThreadRows(v, depth + 1)(threads[k]), bound(k), bound(k + 1), channels, v)
    {
      ThreadBlock(channels, v, c, depth, tier, group, member, k);
    }
    forall i: nat, j: nat | i <= j <= |threads|
      ensures !Above(bound(j), bound(i))
    {
      ThreadsDescend(channels, c.id, tier, group, member, i, j);
    }
    hide Hosted, Above, ThreadRows, ThreadBound;
    PassBlock(threads, ThreadRows(v, depth + 1), bound, channels, v);
  }

  /** A channel's rows: its own, then those of its threads. */
  lemma EmitBlock(channels: seq<Channel>, v: View, c: Channel, depth: nat, tier: nat, group: nat, member: nat)
    requires ChannelRows.DistinctIds(channels) && c in channels && Hosted(channels, v, c, depth, tier, group, member)
    ensures Block(Emit(channels, v, c, depth), At(tier, group, member), At(tier, group, member + 1), channels, v)
  {
    var threads := Threads(channels, c.id);
    var bound := ThreadBound(threads, tier, group, member);
    var own, lo, hi := ContentRow(c, depth, false), At(tier, group, member), At(tier, group, member + 1);
    assert Above(lo, bound(0)) && bound(|threads|) == hi && StandsUnder(own, lo, channels, v, c, depth);
    hide Block, Threads, Pass, Stands, StandsUnder, ChannelRows.DistinctIds;
    ThreadsBlock(channels, v, c, depth, tier, group, member);
    OneBlock(own, lo, bound(0), channels, v);
    AboveNot(lo, bound(0));
    ThreadsDescend(channels, c.id, tier, group, member, 0, |threads|);
    hide Hosted, Above, ThreadRows, ThreadBound;
    JoinBlocks([own], Pass(threads, ThreadRows(v, depth + 1)), lo, bound(0), hi, channels, v);
  }

  lemma AboveNot(p: Place, q: Place)
    requires Above(p, q)
    ensures !Above(q, p)
  {
  }

  // ---- channels of no category

  lemma LooseBlock(channels: seq<Channel>, v: View, i: nat)
    requires ChannelRows.DistinctIds(channels) && i < |channels|
    ensures Block(Loose(channels, v)(channels[i]), At(3, i, 0), At(3, i + 1, 0), channels, v)
  {
    var c := channels[i];
    SameCategories(channels, c);
    hide Block, Emit, ChannelRows.DistinctIds, StandsUnder;
    if Ordinary(v, c) && !Categorized(channels, c) {
      assert Hosted(channels, v, c, 0, 3, i, 0);
      EmitBlock(channels, v, c, 0, 3, i, 0);
      WiderBlock(Emit(channels, v, c, 0), At(3, i, 0), At(3, i, 1), At(3, i, 0), At(3, i + 1, 0), channels, v);
    } else {
      EmptyBlock(At(3, i, 0), At(3, i + 1, 0), channels, v);
    }
  }

  lemma SameCategories(channels: seq<Channel>, c: Channel)
    ensures Categorized(channels, c) == InCategory(channels, c)
  {
    if HasKind(channels, c.parent, Category) {
      var x :| x in channels && x.id == c.parent && x.kind == Category;
      var k :| 0 <= k < |channels| && channels[k] == x;
    }
  }

  lemma LooseBlocks(channels: seq<Channel>, v: View)
    requires ChannelRows.DistinctIds(channels)
    ensures Block(Pass(channels, Loose(channels, v)), At(3, 0, 0), At(4, 0, 0), channels, v)
  {
    hide Block, Pass, Loose, ChannelRows.DistinctIds;
    forall i | 0 <= i < |channels|
      ensures Block(Loose(channels, v)(channels[i]), Bounds(3)(i), Bounds(3)(i + 1), channels, v)
    {
      LooseBlock(channels, v, i);
    }
    PassBlock(channels, Loose(channels, v), Bounds(3), channels, v);
    WiderBlock(Pass(channels, Loose(channels, v)), At(3, 0, 0), At(3, |channels|, 0), At(3, 0, 0), At(4, 0, 0),
               channels, v);
  }

  // ---- categories

  lemma ChildBlock(channels: seq<Channel>, v: View, i: nat, j: nat)
    requires ChannelRows.DistinctIds(channels) && i < |channels| && j < |channels|
    requires channels[i].kind == Category && channels[i].id !in v.collapsed
    ensures Block(Children(channels, v, channels[i].id)(channels[j]), At(4, i, j + 1), At(4, i, j + 2), channels, v)
  {
    var c := channels[j];
    hide Block, Emit, ChannelRows.DistinctIds, StandsUnder;
    if Ordinary(v, c) && c.parent == channels[i].id {
      assert Hosted(channels, v, c, 1, 4, i, j + 1);
      EmitBlock(channels, v, c, 1, 4, i, j + 1);
    } else {
      EmptyBlock(At(4, i, j + 1), At(4, i, j + 2), channels, v);
    }
  }

  function MemberBounds(group: nat): nat -> Place { (j: nat) => At(4, group, j + 1) }

  lemma ChildBlocks(channels: seq<Channel>, v: View, i: nat)
    requires ChannelRows.DistinctIds(channels) && i < |channels|
    requires channels[i].kind == Category && channels[i].id !in v.collapsed
    ensures Block(Pass(channels, Children(channels, v, channels[i].id)), At(4, i, 1), At(4, i + 1, 0), channels, v)
  {
    var piece, bound := Children(channels, v, channels[i].id), MemberBounds(i);
    MembersRise(i, |channels|);
    hide Block, Above, MemberBounds, Children, Pass, ChannelRows.DistinctIds;
    forall j | 0 <= j < |channels|
      ensures Block(piece(channels[j]), bound(j), bound(j + 1), channels, v)
    {
      ChildBlock(channels, v, i, j);
    }
    PassBlock(channels, piece, bound, channels, v);
    WiderBlock(Pass(channels, piece), bound(0), bound(|channels|), At(4, i, 1), At(4, i + 1, 0), channels, v);
  }

  lemma MembersRise(group: nat, n: nat)
    ensures var bound := MemberBounds(group);
            (forall j: nat :: bound(j) == At(4, group, j + 1)) &&
            (forall j: nat, k: nat :: j <= k <= n ==> !Above(bound(k), bound(j))) &&
            !Above(bound(0), At(4, group, 1)) && !Above(At(4, group + 1, 0), bound(n))
  {
  }

  lemma CategoryBlock(channels: seq<Channel>, v: View, i: nat)
    requires ChannelRows.DistinctIds(channels) && i < |channels|
    ensures Block(Categories(channels, v)(channels[i]), At(4, i, 0), At(4, i + 1, 0), channels, v)
  {
    var c := channels[i];
    hide Block, Pass, Children, ChannelRows.DistinctIds;
    var header := Row(true, c.name, Category, c.id in v.collapsed, 0, false, c.id, false);
    if c.kind != Category {
      EmptyBlock(At(4, i, 0), At(4, i + 1, 0), channels, v);
    } else if c.id in v.collapsed {
      assert CategoryRows(channels, v, c) == [header];
      OneBlock(header, At(4, i, 0), At(4, i + 1, 0), channels, v);
    } else {
      var children := Pass(channels, Children(channels, v, c.id));
      ChildBlocks(channels, v, i);
      if children == [] {
        EmptyBlock(At(4, i, 0), At(4, i + 1, 0), channels, v);
      } else {
        assert CategoryRows(channels, v, c) == [header] + children;
        OneBlock(header, At(4, i, 0), At(4, i, 1), channels, v);
        JoinBlocks([header], children, At(4, i, 0), At(4, i, 1), At(4, i + 1, 0), channels, v);
      }
    }
  }

  lemma CategoryBlocks(channels: seq<Channel>, v: View)
    requires ChannelRows.DistinctIds(channels)
    ensures Block(Pass(channels, Categories(channels, v)), At(4, 0, 0), At(5, 0, 0), channels, v)
  {
    hide Block, Pass, Categories, ChannelRows.DistinctIds;
    forall i | 0 <= i < |channels|
      ensures Block(Categories(channels, v)(channels[i]), Bounds(4)(i), Bounds(4)(i + 1), channels, v)
    {
      CategoryBlock(channels, v, i);
    }
    PassBlock(channels, Categories(channels, v), Bounds(4), channels, v);
    WiderBlock(Pass(channels, Categories(channels, v)), At(4, 0, 0), At(4, |channels|, 0), At(4, 0, 0), At(5, 0, 0),
               channels, v);
  }

  /** The rows of the sidebar descend through their places: favorites, pinged direct messages, other pinged
      channels and channels of no category, each in list order, then category after category with its header
      above its channels; threads under their channel, the most recently active first; and each row is what
      its place says. */
  lemma RowsDescend(channels: seq<Channel>, v: View) returns (at: seq<Place>)
    requires ChannelRows.DistinctIds(channels)
    ensures AllStand(Rows(channels, v), at, channels, v) && Descends(at)
  {
    var a, b, c := Pass(channels, Favorites(v)), Pass(channels, PingedDMs(v)), Pass(channels, Pinged(v));
    var d, e := Pass(channels, Loose(channels, v)), Pass(channels, Categories(channels, v));
    assert Rows(channels, v) == a + b + c + d + e;
    hide Block, Pass, Rows, Favorites, PingedDMs, Pinged, Loose, Categories, AllStand, Descends;
    PromotedBlocks(channels, v);
    LooseBlocks(channels, v);
    CategoryBlocks(channels, v);
    JoinBlocks(a, b, At(0, 0, 0), At(1, 0, 0), At(2, 0, 0), channels, v);
    JoinBlocks(a + b, c, At(0, 0, 0), At(2, 0, 0), At(3, 0, 0), channels, v);
    JoinBlocks(a + b + c, d, At(0, 0, 0), At(3, 0, 0), At(4, 0, 0), channels, v);
    JoinBlocks(a + b + c + d, e, At(0, 0, 0), At(4, 0, 0), At(5, 0, 0), channels, v);
    at := PlacesOf(a + b + c + d + e, At(0, 0, 0), At(5, 0, 0), channels, v);
  }

  lemma PlacesOf(rows: seq<Row>, lo: Place, hi: Place, channels: seq<Channel>, v: View) returns (at: seq<Place>)
    requires Block(rows, lo, hi, channels, v)
    ensures AllStand(rows, at, channels, v) && Descends(at)
  {
    at :| AllStand(rows, at, channels, v) && Descends(at) && Between(at, lo, hi);
  }

  // ---- category headers

  /** A header stands for every collapsed category, and for an open one exactly when it has a channel to show. */
  lemma HeaderIff(channels: seq<Channel>, v: View, cat: Channel)
    requires cat.kind == Category
    ensures Categories(channels, v)(cat) != [] <==>
            cat.id in v.collapsed || exists c :: c in channels && Ordinarily(v, c) && c.parent == cat.id
    ensures Categories(channels, v)(cat) != [] ==>
            Categories(channels, v)(cat)[0] ==
            Row(true, cat.name, Category, cat.id in v.collapsed, 0, false, cat.id, false)
  {
    var piece := Children(channels, v, cat.id);
    PassEmptyIff(channels, piece);
    hide Pass, Emit;
    forall c | c in channels
      ensures piece(c) != [] <==> Ordinarily(v, c) && c.parent == cat.id
    {
      NeverEmpty(channels, v, c, 1);
    }
  }

  lemma NeverEmpty(channels: seq<Channel>, v: View, c: Channel, depth: nat)
    ensures Emit(channels, v, c, depth) != []
  {
    hide Pass;
  }

  lemma {:induction false} PassEmptyIff(channels: seq<Channel>, piece: Channel -> seq<Row>)
    ensures Pass(channels, piece) != [] <==> exists c :: c in channels && piece(c) != []
  {
    if channels != [] {
      var n := |channels| - 1;
      PassEmptyIff(channels[..n], piece);
      assert channels == channels[..n] + [channels[n]];
      assert channels[n] in channels;
    }
  }
}
