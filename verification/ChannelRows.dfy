/** internal/store/ordering.go: the channel sidebar's rows from channels, favorites, attention
    and collapsed categories. */
module ChannelRows {
  import opened Sorting

  datatype Kind = Text | Voice | Category | Direct | Announcement | Forum | Thread

  datatype ThreadMeta = NoMeta | Meta(archived: bool, lastActive: int)

  datatype Channel = Channel(id: nat, name: string, kind: Kind, position: int, parent: nat, thread: ThreadMeta)

  datatype Row = Row(category: bool, name: string, kind: Kind, collapsed: bool, depth: nat, pinned: bool,
    channel: nat, thread: bool)

  datatype View = View(pins: set<nat>, priority: set<nat>, collapsed: set<nat>)

  // ---- orders

  function LessChannel(a: Channel, b: Channel): bool {
    if a.position != b.position then a.position < b.position else a.id < b.id
  }

  /** Most recent activity first, then the newer thread. */
  function LessThread(a: Channel, b: Channel): bool {
    var at := if a.thread.Meta? then a.thread.lastActive else 0;
    var bt := if b.thread.Meta? then b.thread.lastActive else 0;
    if at != bt then at > bt else a.id > b.id
  }

  /** Sorting a guild's channels, or a channel's threads, gives them all in order. */
  lemma ChannelOrders(s: seq<Channel>)
    ensures InOrder(Sorted(s, LessChannel), LessChannel) && multiset(Sorted(s, LessChannel)) == multiset(s)
    ensures InOrder(Sorted(s, LessThread), LessThread) && multiset(Sorted(s, LessThread)) == multiset(s)
  {
    SortedIs(s, LessChannel);
    SortedIs(s, LessThread);
  }

  // ---- the rows, pass by pass

  predicate HasKind(channels: seq<Channel>, id: nat, kind: Kind) {
    exists c :: c in channels && c.id == id && c.kind == kind
  }

  /** The channel of each id; a later entry wins over an earlier one. */
  function ById(channels: seq<Channel>): map<nat, Channel> {
    if channels == [] then map[]
    else
      var last := channels[|channels| - 1];
      ById(channels[..|channels| - 1])[last.id := last]
  }

  predicate TakesThreads(channels: seq<Channel>, id: nat) {
    id in ById(channels) && (ById(channels)[id].kind == Text || ById(channels)[id].kind == Announcement)
  }

  predicate ThreadOf(channels: seq<Channel>, parent: nat, c: Channel) {
    c.kind == Thread && c.thread.Meta? && !c.thread.archived && c.parent == parent && TakesThreads(channels, parent)
  }

  function Filter(channels: seq<Channel>, keep: Channel -> bool): (r: seq<Channel>)
    ensures forall c :: c in r <==> c in channels && keep(c)
  {
    if channels == [] then []
    else
      var n := |channels| - 1;
      assert channels == channels[..n] + [channels[n]];
      Filter(channels[..n], keep) + if keep(channels[n]) then [channels[n]] else []
  }

  function IsThreadOf(channels: seq<Channel>, parent: nat): Channel -> bool {
    (c: Channel) => ThreadOf(channels, parent, c)
  }

  function Threads(channels: seq<Channel>, parent: nat): seq<Channel> {
    Sorted(Filter(channels, IsThreadOf(channels, parent)), LessThread)
  }

  function ContentRow(c: Channel, depth: nat, pinned: bool): Row {
    Row(false, c.name, c.kind, false, depth, pinned, c.id, false)
  }

  function ThreadRow(c: Channel, depth: nat, pinned: bool): Row {
    Row(false, c.name, Thread, false, depth, pinned, c.id, true)
  }

  function Promote(c: Channel, pinned: bool): seq<Row> {
    [if c.kind == Thread then ThreadRow(c, 0, pinned) else ContentRow(c, 0, pinned)]
  }

  predicate Promoted(v: View, id: nat) { id in v.pins || id in v.priority }

  /** The rows of every channel in turn. */
  function Pass(channels: seq<Channel>, piece: Channel -> seq<Row>): seq<Row> {
    if channels == [] then []
    else
      var n := |channels| - 1;
      Pass(channels[..n], piece) + piece(channels[n])
  }

  function Favorites(v: View): Channel -> seq<Row> {
    (c: Channel) => if c.kind != Category && c.id in v.pins then Promote(c, true) else []
  }

  function PingedDMs(v: View): Channel -> seq<Row> {
    (c: Channel) => if c.kind == Direct && c.id in v.priority && c.id !in v.pins then Promote(c, false) else []
  }

  function Pinged(v: View): Channel -> seq<Row> {
    (c: Channel) =>
      if c.kind != Category && c.kind != Direct && c.id in v.priority && c.id !in v.pins then Promote(c, false) else []
  }

  function ThreadRows(v: View, depth: nat): Channel -> seq<Row> {
    (t: Channel) => if Promoted(v, t.id) then [] else [ThreadRow(t, depth, false)]
  }

  /** A channel and its threads, those promoted left out. */
  function Emit(channels: seq<Channel>, v: View, c: Channel, depth: nat): seq<Row> {
    [ContentRow(c, depth, false)] +
    Pass(Threads(channels, c.id), ThreadRows(v, depth + 1))
  }

  predicate Ordinary(v: View, c: Channel) { c.kind != Category && c.kind != Thread && !Promoted(v, c.id) }

  predicate Categorized(channels: seq<Channel>, c: Channel) { c.parent != 0 && HasKind(channels, c.parent, Category) }

  function Loose(channels: seq<Channel>, v: View): Channel -> seq<Row> {
    (c: Channel) => if Ordinary(v, c) && !Categorized(channels, c) then Emit(channels, v, c, 0) else []
  }

  function Children(channels: seq<Channel>, v: View, category: nat): Channel -> seq<Row> {
    (c: Channel) => if Ordinary(v, c) && c.parent == category then Emit(channels, v, c, 1) else []
  }

  function CategoryRows(channels: seq<Channel>, v: View, cat: Channel): seq<Row> {
    var children := if cat.id in v.collapsed then [] else Pass(channels, Children(channels, v, cat.id));
    if cat.id !in v.collapsed && children == [] then []
    else [Row(true, cat.name, Category, cat.id in v.collapsed, 0, false, cat.id, false)] + children
  }

  function Categories(channels: seq<Channel>, v: View): Channel -> seq<Row> {
    (c: Channel) => if c.kind == Category then CategoryRows(channels, v, c) else []
  }

  function Rows(channels: seq<Channel>, v: View): seq<Row> {
    Pass(channels, Favorites(v)) + Pass(channels, PingedDMs(v)) + Pass(channels, Pinged(v)) +
    Pass(channels, Loose(channels, v)) + Pass(channels, Categories(channels, v))
  }

  // ---- how often a channel is shown

  /** Rows of a channel, category headers aside. */
  function Shown(rows: seq<Row>, id: nat): nat {
    if rows == [] then 0
    else Shown(rows[..|rows| - 1], id) + if !rows[|rows| - 1].category && rows[|rows| - 1].channel == id then 1 else 0
  }

  lemma {:induction false} ShownAppend(a: seq<Row>, b: seq<Row>, id: nat)
    ensures Shown(a + b, id) == Shown(a, id) + Shown(b, id)
  {
    if b == [] {
      assert a + b == a;
    } else {
      assert (a + b)[..|a| + |b| - 1] == a + b[..|b| - 1];
      ShownAppend(a, b[..|b| - 1], id);
    }
  }

  predicate DistinctIds(channels: seq<Channel>) {
    forall i, j :: 0 <= i < j < |channels| ==> channels[i].id != channels[j].id
  }

  /** When only one channel's rows show an id, a pass shows it as often as they do. */
  lemma {:induction false} PassShows(channels: seq<Channel>, piece: Channel -> seq<Row>, id: nat, only: Channel)
    requires DistinctIds(channels)
    requires forall c :: c in channels && c != only ==> Shown(piece(c), id) == 0
    ensures Shown(Pass(channels, piece), id) == if only in channels then Shown(piece(only), id) else 0
  {
    if channels != [] {
      var n := |channels| - 1;
      assert channels == channels[..n] + [channels[n]];
      PassShows(channels[..n], piece, id, only);
      ShownAppend(Pass(channels[..n], piece), piece(channels[n]), id);
      assert only == channels[n] ==> only !in channels[..n];
    }
  }

  lemma ShownOne(row: Row, id: nat)
    ensures Shown([row], id) == if !row.category && row.channel == id then 1 else 0
  {
    assert [row][..0] == [];
  }

  lemma SameId(channels: seq<Channel>, a: Channel, b: Channel)
    requires DistinctIds(channels) && a in channels && b in channels && a.id == b.id
    ensures a == b
  {
    var i :| 0 <= i < |channels| && channels[i] == a;
    var j :| 0 <= j < |channels| && channels[j] == b;
    assert i == j;
  }

  // ---- promoted rows

  lemma PromotedShown(channels: seq<Channel>, v: View, x: Channel)
    requires DistinctIds(channels) && x in channels && x.kind != Category
    ensures Shown(Pass(channels, Favorites(v)), x.id) == if x.id in v.pins then 1 else 0
    ensures Shown(Pass(channels, PingedDMs(v)), x.id) + Shown(Pass(channels, Pinged(v)), x.id) ==
            if x.id in v.priority && x.id !in v.pins then 1 else 0
  {
    hide Pass;
    forall c | c in channels
      ensures Shown(Favorites(v)(c), x.id) == if c == x && x.id in v.pins then 1 else 0
      ensures Shown(PingedDMs(v)(c), x.id) ==
              if c == x && x.kind == Direct && x.id in v.priority && x.id !in v.pins then 1 else 0
      ensures Shown(Pinged(v)(c), x.id) ==
              if c == x && x.kind != Direct && x.id in v.priority && x.id !in v.pins then 1 else 0
    {
      if c.id == x.id { SameId(channels, c, x); }
      ShownOne(Promote(c, true)[0], x.id);
      ShownOne(Promote(c, false)[0], x.id);
    }
    PassShows(channels, Favorites(v), x.id, x);
    PassShows(channels, PingedDMs(v), x.id, x);
    PassShows(channels, Pinged(v), x.id, x);
  }

  // ---- threads under their channel

  lemma {:induction false} FilterDistinct(channels: seq<Channel>, keep: Channel -> bool)
    requires DistinctIds(channels)
    ensures DistinctIds(Filter(channels, keep))
  {
    if channels != [] {
      var n := |channels| - 1;
      FilterDistinct(channels[..n], keep);
      var r := Filter(channels[..n], keep);
      assert forall i :: 0 <= i < |r| ==> r[i] in r && r[i].id != channels[n].id by {
        forall i | 0 <= i < |r|
          ensures r[i] in r && r[i].id != channels[n].id
        {
          assert r[i] in channels[..n];
        }
      }
    }
  }

  lemma ThreadsAre(channels: seq<Channel>, parent: nat)
    requires DistinctIds(channels)
    ensures DistinctIds(Threads(channels, parent))
    ensures forall t :: t in Threads(channels, parent) <==> t in channels && ThreadOf(channels, parent, t)
  {
    var f := Filter(channels, IsThreadOf(channels, parent));
    var s := Threads(channels, parent);
    FilterDistinct(channels, IsThreadOf(channels, parent));
    SortedIs(f, LessThread);
    assert forall t :: t in s <==> t in multiset(s);
    assert forall t :: t in f <==> t in multiset(f);
    SameMembersDistinct(f, s);
  }

  lemma SameMembersDistinct(a: seq<Channel>, b: seq<Channel>)
    requires DistinctIds(a) && multiset(a) == multiset(b)
    ensures DistinctIds(b)
  {
    forall i, j | 0 <= i < j < |b|
      ensures b[i].id != b[j].id
    {
      assert b[i] in multiset(b) && b[j] in multiset(b);
      if b[i].id == b[j].id {
        SameId(a, b[i], b[j]);
        TwiceIn(b, i, j);
        OnceIn(a, b[i]);
      }
    }
  }

  lemma TwiceIn(s: seq<Channel>, i: nat, j: nat)
    requires i < j < |s| && s[i] == s[j]
    ensures multiset(s)[s[i]] >= 2
  {
    var a, b, c := s[..i], s[i + 1..j], s[j + 1..];
    assert s == a + [s[i]] + b + [s[j]] + c;
  }

  lemma {:induction false} OnceIn(s: seq<Channel>, x: Channel)
    requires DistinctIds(s)
    ensures multiset(s)[x] <= 1
  {
    if s != [] {
      var n := |s| - 1;
      OnceIn(s[..n], x);
      assert s == s[..n] + [s[n]];
      if s[n] == x && x in s[..n] { SameId(s, x, x); }
    }
  }

  /** A channel's own rows show the channel once, its unpromoted active threads once, and nothing else. */
  lemma EmitShows(channels: seq<Channel>, v: View, c: Channel, depth: nat, x: Channel)
    requires DistinctIds(channels) && c in channels && x in channels && c.kind != Thread
    ensures Shown(Emit(channels, v, c, depth), x.id) ==
      if x == c then 1 else if ThreadOf(channels, c.id, x) && !Promoted(v, x.id) then 1 else 0
  {
    var threads := Threads(channels, c.id);
    var piece := ThreadRows(v, depth + 1);
    ThreadsAre(channels, c.id);
    forall t | t in threads
      ensures Shown(piece(t), x.id) == if t == x && !Promoted(v, x.id) then 1 else 0
    {
      if t.id == x.id { SameId(channels, t, x); }
      ShownOne(ThreadRow(t, depth + 1, false), x.id);
    }
    PassShows(threads, piece, x.id, x);
    ShownOne(ContentRow(c, depth, false), x.id);
    if c.id == x.id { SameId(channels, c, x); }
    ShownAppend([ContentRow(c, depth, false)], Pass(threads, piece), x.id);
  }

  // ---- every channel once

  /** An ordinary channel that is not inside a collapsed category. */
  predicate Standing(channels: seq<Channel>, v: View, c: Channel) {
    Ordinary(v, c) && (Categorized(channels, c) ==> c.parent !in v.collapsed)
  }

  /** Promoted channels are visible, others where they stand, and an active thread of a text or
      announcement channel where that one stands: a promoted parent hides it. */
  predicate Visible(channels: seq<Channel>, v: View, x: Channel) {
    Promoted(v, x.id) ||
    (if x.kind == Thread then
       exists p :: p in channels && p.id == x.parent && ThreadOf(channels, p.id, x) && Standing(channels, v, p)
     else Standing(channels, v, x))
  }

  /** `times` rows of `x` come with the host wherever it stands, and none with other channels. */
  ghost predicate Hosts(channels: seq<Channel>, v: View, host: Channel, x: Channel, times: nat) {
    forall c, depth: nat :: c in channels && Ordinary(v, c) ==>
      Shown(Emit(channels, v, c, depth), x.id) == if c == host then times else 0
  }

  lemma LooseShown(channels: seq<Channel>, v: View, host: Channel, x: Channel, times: nat)
    requires DistinctIds(channels) && host in channels && Hosts(channels, v, host, x, times)
    ensures Shown(Pass(channels, Loose(channels, v)), x.id) ==
            if Ordinary(v, host) && !Categorized(channels, host) then times else 0
  {
    hide Emit, Pass, Categorized, DistinctIds;
    PassShows(channels, Loose(channels, v), x.id, host);
  }

  lemma ChildrenShown(channels: seq<Channel>, v: View, host: Channel, x: Channel, times: nat, category: nat)
    requires DistinctIds(channels) && host in channels && Hosts(channels, v, host, x, times)
    ensures Shown(Pass(channels, Children(channels, v, category)), x.id) ==
            if Ordinary(v, host) && host.parent == category then times else 0
  {
    hide Emit, Pass, DistinctIds;
    PassShows(channels, Children(channels, v, category), x.id, host);
  }

  lemma CategoryShown(channels: seq<Channel>, v: View, host: Channel, x: Channel, times: nat, cat: Channel)
    requires DistinctIds(channels) && host in channels && Hosts(channels, v, host, x, times)
    ensures Shown(CategoryRows(channels, v, cat), x.id) ==
            if Ordinary(v, host) && host.parent == cat.id && cat.id !in v.collapsed then times else 0
  {
    hide Emit, Pass, DistinctIds, Hosts;
    ChildrenShown(channels, v, host, x, times, cat.id);
    var header := Row(true, cat.name, Category, cat.id in v.collapsed, 0, false, cat.id, false);
    var children := if cat.id in v.collapsed then [] else Pass(channels, Children(channels, v, cat.id));
    ShownOne(header, x.id);
    ShownAppend([header], children, x.id);
  }

  lemma CategoriesShown(channels: seq<Channel>, v: View, host: Channel, x: Channel, times: nat)
    requires DistinctIds(channels) && host in channels && Hosts(channels, v, host, x, times)
    ensures Shown(Pass(channels, Categories(channels, v)), x.id) ==
            if Ordinary(v, host) && HasKind(channels, host.parent, Category) && host.parent !in v.collapsed then times
            else 0
  {
    hide CategoryRows, Pass, Hosts;
    forall c | c in channels
      ensures Shown(Categories(channels, v)(c), x.id) ==
        if c.kind == Category && Ordinary(v, host) && host.parent == c.id && c.id !in v.collapsed then times else 0
    {
      CategoryShown(channels, v, host, x, times, c);
    }
    var only := if HasKind(channels, host.parent, Category) then Found(channels, host.parent) else host;
    forall c | c in channels && c != only
      ensures Shown(Categories(channels, v)(c), x.id) == 0
    {
      if c.kind == Category && c.id == host.parent { SameId(channels, c, only); }
    }
    PassShows(channels, Categories(channels, v), x.id, only);
  }

  /** The category with an id. */
  ghost function Found(channels: seq<Channel>, id: nat): (c: Channel)
    requires HasKind(channels, id, Category)
    ensures c in channels && c.id == id && c.kind == Category
  {
    var c :| c in channels && c.id == id && c.kind == Category;
    c
  }

  lemma RowsShown(channels: seq<Channel>, v: View, host: Channel, x: Channel, times: nat)
    requires DistinctIds(channels) && host in channels && x in channels && x.kind != Category
    requires (forall c :: c in channels ==> c.id != 0) && Hosts(channels, v, host, x, times)
    ensures Shown(Rows(channels, v), x.id) ==
            (if Promoted(v, x.id) then 1 else 0) + if Standing(channels, v, host) then times else 0
  {
    hide Pass, Hosts, DistinctIds;
    PromotedShown(channels, v, x);
    LooseShown(channels, v, host, x, times);
    CategoriesShown(channels, v, host, x, times);
    var a, b, c := Pass(channels, Favorites(v)), Pass(channels, PingedDMs(v)), Pass(channels, Pinged(v));
    var d, e := Pass(channels, Loose(channels, v)), Pass(channels, Categories(channels, v));
    ShownAppend(a, b, x.id);
    ShownAppend(a + b, c, x.id);
    ShownAppend(a + b + c, d, x.id);
    ShownAppend(a + b + c + d, e, x.id);
  }

  /** For any favorites, attention and collapsed categories: every channel and thread has one row
      if it is visible and none otherwise. */
  lemma ShownOnceIffVisible(channels: seq<Channel>, v: View, x: Channel)
    requires DistinctIds(channels) && (forall c :: c in channels ==> c.id != 0)
    requires x in channels && x.kind != Category
    ensures Shown(Rows(channels, v), x.id) == if Visible(channels, v, x) then 1 else 0
  {
    hide Rows, DistinctIds, Emit;
    if x.kind != Thread {
      forall c, depth: nat | c in channels && Ordinary(v, c)
        ensures Shown(Emit(channels, v, c, depth), x.id) == if c == x then 1 else 0
      {
        EmitShows(channels, v, c, depth, x);
      }
      RowsShown(channels, v, x, x, 1);
    } else {
      ThreadShown(channels, v, x);
    }
  }

  lemma ThreadShown(channels: seq<Channel>, v: View, x: Channel)
    requires DistinctIds(channels) && (forall c :: c in channels ==> c.id != 0)
    requires x in channels && x.kind == Thread
    ensures Shown(Rows(channels, v), x.id) == if Visible(channels, v, x) then 1 else 0
  {
    hide Rows, DistinctIds, Emit;
    if p :| p in channels && p.id == x.parent {
      var times := if ThreadOf(channels, p.id, x) && !Promoted(v, x.id) then 1 else 0;
      forall c, depth: nat | c in channels && Ordinary(v, c)
        ensures Shown(Emit(channels, v, c, depth), x.id) == if c == p then times else 0
      {
        EmitShows(channels, v, c, depth, x);
        if c.id == x.parent { SameId(channels, c, p); }
      }
      RowsShown(channels, v, p, x, times);
      forall q | q in channels && q.id == x.parent
        ensures q == p
      {
        SameId(channels, q, p);
      }
    } else {
      forall c, depth: nat | c in channels && Ordinary(v, c)
        ensures Shown(Emit(channels, v, c, depth), x.id) == if c == x then 0 else 0
      {
        EmitShows(channels, v, c, depth, x);
      }
      RowsShown(channels, v, x, x, 0);
    }
  }

  // ---- the same rows, built in loops

  lemma PassSnoc(channels: seq<Channel>, i: nat, piece: Channel -> seq<Row>)
    requires i < |channels|
    ensures Pass(channels[..i + 1], piece) == Pass(channels[..i], piece) + piece(channels[i])
  {
    assert channels[..i + 1][..i] == channels[..i];
  }

  lemma FilterSnoc(channels: seq<Channel>, i: nat, keep: Channel -> bool)
    requires i < |channels|
    ensures Filter(channels[..i + 1], keep) ==
            Filter(channels[..i], keep) + if keep(channels[i]) then [channels[i]] else []
  {
    assert channels[..i + 1][..i] == channels[..i];
  }

  ghost predicate CategoriesOf(channels: seq<Channel>, categories: set<nat>) {
    forall id :: id in categories <==> HasKind(channels, id, Category)
  }

  lemma IndexSnoc(channels: seq<Channel>, i: nat, categories: set<nat>)
    requires i < |channels| && CategoriesOf(channels[..i], categories)
    ensures ById(channels[..i + 1]) == ById(channels[..i])[channels[i].id := channels[i]]
    ensures CategoriesOf(channels[..i + 1], categories + if channels[i].kind == Category then {channels[i].id} else {})
  {
    assert channels[..i + 1] == channels[..i] + [channels[i]] && channels[..i + 1][..i] == channels[..i];
  }

  method Index(channels: seq<Channel>) returns (byId: map<nat, Channel>, categories: set<nat>)
    ensures byId == ById(channels) && CategoriesOf(channels, categories)
  {
    byId, categories := map[], {};
    for i := 0 to |channels|
      invariant byId == ById(channels[..i]) && CategoriesOf(channels[..i], categories)
    {
      var c := channels[i];
      IndexSnoc(channels, i, categories);
      hide ById, CategoriesOf;
      byId := byId[c.id := c];
      assert categories + {} == categories;
      if c.kind == Category { categories := categories + {c.id}; }
    }
    assert channels[..|channels|] == channels;
  }

  /** What a bucket holds; a parent without threads has none. */
  function Bucket(threads: map<nat, seq<Channel>>, parent: nat): seq<Channel> {
    if parent in threads then threads[parent] else []
  }

  function Joined(threads: map<nat, seq<Channel>>, c: Channel): map<nat, seq<Channel>> {
    threads[c.parent := Bucket(threads, c.parent) + [c]]
  }

  /** The first `i` channels are in their buckets. */
  ghost predicate Collected(channels: seq<Channel>, i: nat, threads: map<nat, seq<Channel>>)
    requires i <= |channels|
  {
    forall p :: Bucket(threads, p) == Filter(channels[..i], IsThreadOf(channels, p))
  }

  lemma CollectedSnoc(channels: seq<Channel>, i: nat, threads: map<nat, seq<Channel>>)
    requires i < |channels| && Collected(channels, i, threads)
    ensures var c := channels[i];
            Collected(channels, i + 1, if ThreadOf(channels, c.parent, c) then Joined(threads, c) else threads)
  {
    hide ThreadOf, Filter;
    var c := channels[i];
    var threads' := if ThreadOf(channels, c.parent, c) then Joined(threads, c) else threads;
    forall p
      ensures Bucket(threads', p) == Filter(channels[..i + 1], IsThreadOf(channels, p))
    {
      FilterSnoc(channels, i, IsThreadOf(channels, p));
      ParentOnly(channels, p, c);
    }
  }

  lemma ParentOnly(channels: seq<Channel>, p: nat, c: Channel)
    ensures ThreadOf(channels, p, c) ==> p == c.parent
  {
  }

  method CollectThreads(channels: seq<Channel>, byId: map<nat, Channel>) returns (threads: map<nat, seq<Channel>>)
    requires byId == ById(channels)
    ensures Collected(channels, |channels|, threads)
  {
    threads := map[];
    for i := 0 to |channels|
      invariant Collected(channels, i, threads)
    {
      var c := channels[i];
      CollectedSnoc(channels, i, threads);
      hide Filter, Collected, ById;
      if c.kind != Thread || c.thread.NoMeta? || c.thread.archived { continue; }
      if c.parent !in byId || (byId[c.parent].kind != Text && byId[c.parent].kind != Announcement) { continue; }
      threads := Joined(threads, c);
    }
  }

  method SortThreads(threads: seq<Channel>) returns (sorted: seq<Channel>)
    ensures sorted == Sorted(threads, LessThread)
  {
    var a := new Channel[|threads|](i requires 0 <= i < |threads| => threads[i]);
    assert a[..] == threads;
    InsertionSort(a, LessThread);
    sorted := a[..];
  }

  /** Every bucket is sorted, in whatever order the map gives them. */
  method SortBuckets(threads: map<nat, seq<Channel>>) returns (sorted: map<nat, seq<Channel>>)
    ensures forall p :: Bucket(sorted, p) == Sorted(Bucket(threads, p), LessThread)
  {
    sorted := threads;
    var left := threads.Keys;
    while left != {}
      invariant left <= threads.Keys == sorted.Keys
      invariant forall p :: p in threads ==>
        sorted[p] == if p in left then threads[p] else Sorted(threads[p], LessThread)
      decreases |left|
    {
      var p :| p in left;
      var bucket := SortThreads(sorted[p]);
      sorted := sorted[p := bucket];
      left := left - {p};
    }
  }

  method Promotions(pins: seq<nat>, priority: set<nat>) returns (pinned: set<nat>, promoted: set<nat>)
    ensures pinned == (set id | id in pins)
    ensures promoted == pinned + priority
  {
    pinned := {};
    for i := 0 to |pins|
      invariant pinned == (set id | id in pins[..i])
    {
      assert pins[..i + 1] == pins[..i] + [pins[i]];
      pinned := pinned + {pins[i]};
    }
    assert pins[..|pins|] == pins;
    promoted := pinned;
    var left := priority;
    while left != {}
      invariant left <= priority && promoted == pinned + (priority - left)
      decreases |left|
    {
      var id :| id in left;
      if id !in pinned { promoted := promoted + {id}; }
      left := left - {id};
    }
  }

  method FavoriteRows(channels: seq<Channel>, v: View) returns (rows: seq<Row>)
    ensures rows == Pass(channels, Favorites(v))
  {
    rows := [];
    for i := 0 to |channels|
      invariant rows == Pass(channels[..i], Favorites(v))
    {
      var c := channels[i];
      PassSnoc(channels, i, Favorites(v));
      hide Pass;
      if c.kind == Category || c.id !in v.pins { continue; }
      rows := rows + Promote(c, true);
    }
    assert channels[..|channels|] == channels;
  }

  method PingedDMRows(channels: seq<Channel>, v: View) returns (rows: seq<Row>)
    ensures rows == Pass(channels, PingedDMs(v))
  {
    rows := [];
    for i := 0 to |channels|
      invariant rows == Pass(channels[..i], PingedDMs(v))
    {
      var c := channels[i];
      PassSnoc(channels, i, PingedDMs(v));
      hide Pass;
      if c.kind == Direct && c.id in v.priority && c.id !in v.pins { rows := rows + Promote(c, false); }
    }
    assert channels[..|channels|] == channels;
  }

  method PingedRows(channels: seq<Channel>, v: View) returns (rows: seq<Row>)
    ensures rows == Pass(channels, Pinged(v))
  {
    rows := [];
    for i := 0 to |channels|
      invariant rows == Pass(channels[..i], Pinged(v))
    {
      var c := channels[i];
      PassSnoc(channels, i, Pinged(v));
      hide Pass;
      if c.kind == Category || c.kind == Direct || c.id !in v.priority || c.id in v.pins { continue; }
      rows := rows + Promote(c, false);
    }
    assert channels[..|channels|] == channels;
  }

  /** The sets and buckets say what the view and the channels say. */
  ghost predicate Prepared(channels: seq<Channel>, v: View, threads: map<nat, seq<Channel>>, promoted: set<nat>) {
    promoted == v.pins + v.priority && forall p :: Bucket(threads, p) == Threads(channels, p)
  }

  method EmitRows(ghost channels: seq<Channel>, ghost v: View, threads: map<nat, seq<Channel>>, promoted: set<nat>,
                  c: Channel, depth: nat)
    returns (rows: seq<Row>)
    requires Prepared(channels, v, threads, promoted)
    ensures rows == Emit(channels, v, c, depth)
  {
    rows := [ContentRow(c, depth, false)];
    var bucket := Bucket(threads, c.id);
    for i := 0 to |bucket|
      invariant rows == [ContentRow(c, depth, false)] + Pass(bucket[..i], ThreadRows(v, depth + 1))
    {
      PassSnoc(bucket, i, ThreadRows(v, depth + 1));
      if bucket[i].id !in promoted { rows := rows + [ThreadRow(bucket[i], depth + 1, false)]; }
    }
    assert bucket[..|bucket|] == bucket;
  }

  method LooseRows(channels: seq<Channel>, ghost v: View, threads: map<nat, seq<Channel>>, promoted: set<nat>,
      categories: set<nat>)
    returns (rows: seq<Row>)
    requires Prepared(channels, v, threads, promoted)
    requires CategoriesOf(channels, categories)
    ensures rows == Pass(channels, Loose(channels, v))
  {
    rows := [];
    for i := 0 to |channels|
      invariant rows == Pass(channels[..i], Loose(channels, v))
    {
      var c := channels[i];
      PassSnoc(channels, i, Loose(channels, v));
      hide Pass, Emit, Threads;
      if c.kind == Category || c.kind == Thread || c.id in promoted { continue; }
      if c.parent != 0 && c.parent in categories { continue; }
      var more := EmitRows(channels, v, threads, promoted, c, 0);
      rows := rows + more;
    }
    assert channels[..|channels|] == channels;
  }

  method ChildRows(channels: seq<Channel>, ghost v: View, threads: map<nat, seq<Channel>>, promoted: set<nat>,
      category: nat)
    returns (rows: seq<Row>)
    requires Prepared(channels, v, threads, promoted)
    ensures rows == Pass(channels, Children(channels, v, category))
  {
    rows := [];
    for i := 0 to |channels|
      invariant rows == Pass(channels[..i], Children(channels, v, category))
    {
      var c := channels[i];
      PassSnoc(channels, i, Children(channels, v, category));
      hide Pass, Emit, Threads;
      if c.kind == Category || c.kind == Thread || c.id in promoted || c.parent != category { continue; }
      var more := EmitRows(channels, v, threads, promoted, c, 1);
      rows := rows + more;
    }
    assert channels[..|channels|] == channels;
  }

  method CategoryBlock(channels: seq<Channel>, v: View, threads: map<nat, seq<Channel>>, promoted: set<nat>,
      cat: Channel)
    returns (rows: seq<Row>)
    requires Prepared(channels, v, threads, promoted)
    ensures rows == CategoryRows(channels, v, cat)
  {
    hide Pass, Threads, Prepared, Children;
    var collapsed := cat.id in v.collapsed;
    var children := [];
    if !collapsed { children := ChildRows(channels, v, threads, promoted, cat.id); }
    if !collapsed && children == [] { return []; }
    rows := [Row(true, cat.name, Category, collapsed, 0, false, cat.id, false)] + children;
  }

  method CategoryBlocks(channels: seq<Channel>, v: View, threads: map<nat, seq<Channel>>, promoted: set<nat>)
    returns (rows: seq<Row>)
    requires Prepared(channels, v, threads, promoted)
    ensures rows == Pass(channels, Categories(channels, v))
  {
    rows := [];
    for i := 0 to |channels|
      invariant rows == Pass(channels[..i], Categories(channels, v))
    {
      PassSnoc(channels, i, Categories(channels, v));
      hide Pass, Prepared, CategoryRows;
      if channels[i].kind != Category { continue; }
      var block := CategoryBlock(channels, v, threads, promoted, channels[i]);
      rows := rows + block;
    }
    assert channels[..|channels|] == channels;
  }

  /** Index the channels, bucket and sort the threads, then one block of rows after another. */
  method GroupChannels(channels: seq<Channel>, pins: seq<nat>, priority: set<nat>, collapsed: set<nat>)
    returns (rows: seq<Row>)
    ensures rows == Rows(channels, View((set id | id in pins), priority, collapsed))
    ensures DistinctIds(channels) && (forall c :: c in channels ==> c.id != 0) ==>
      var v := View((set id | id in pins), priority, collapsed);
      forall x :: x in channels && x.kind != Category ==> Shown(rows, x.id) == if Visible(channels, v, x) then 1 else 0
  {
    var pinned, promoted := Promotions(pins, priority);
    var v := View(pinned, priority, collapsed);
    var byId, categories := Index(channels);
    var buckets := CollectThreads(channels, byId);
    var threads := SortBuckets(buckets);
    assert channels[..|channels|] == channels;
    assert Prepared(channels, v, threads, promoted);
    hide Pass, Threads, Prepared, Favorites, PingedDMs, Pinged, Loose, Categories, Visible, Shown, DistinctIds;
    var favorites := FavoriteRows(channels, v);
    var direct := PingedDMRows(channels, v);
    var pinged := PingedRows(channels, v);
    var loose := LooseRows(channels, v, threads, promoted, categories);
    var blocks := CategoryBlocks(channels, v, threads, promoted);
    rows := favorites + direct + pinged + loose + blocks;
    assert rows == Rows(channels, v);
    assert v == View((set id | id in pins), priority, collapsed);
    if DistinctIds(channels) && forall c :: c in channels ==> c.id != 0 {
      forall x | x in channels && x.kind != Category
        ensures Shown(Rows(channels, v), x.id) == if Visible(channels, v, x) then 1 else 0
      {
        ShownOnceIffVisible(channels, v, x);
      }
    }
  }
}
