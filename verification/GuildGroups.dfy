/** internal/ui/guild_groups.go: the sidebar layout as groups of guilds. */
module GuildGroups {
  import opened Collections

  const DIRECT_MESSAGES: nat := 0xffff_ffff_ffff_ffff
  const MIN_ID := -0x8000_0000_0000_0000
  const MAX_ID := 0x7fff_ffff_ffff_ffff
  type FolderID = x: int | MIN_ID <= x <= MAX_ID

  datatype Folder = Folder(id: FolderID, name: string, color: nat, guilds: seq<nat>)

  /** The fields of a sidebar row that a drop looks at. */
  datatype Target = Target(folder: bool, guild: nat, folderID: FolderID)

  function Bare(guild: nat): Folder { Folder(0, "", 0, [guild]) }

  // ---- lists

  /** Position of the first occurrence, or -1. */
  function Index<T(==)>(s: seq<T>, x: T): (k: int)
    ensures -1 <= k < |s|
    ensures if k < 0 then x !in s else s[k] == x && x !in s[..k]
  {
    if s == [] then -1
    else if s[0] == x then 0
    else
      var k := Index(s[1..], x);
      assert s == [s[0]] + s[1..];
      assert k >= 0 ==> s[..k + 1] == [s[0]] + s[1..][..k];
      if k < 0 then -1 else k + 1
  }

  function Insert<T>(s: seq<T>, k: nat, x: T): (r: seq<T>)
    requires k <= |s|
    ensures |r| == |s| + 1
  {
    s[..k] + [x] + s[k..]
  }

  lemma SplitAt<T>(s: seq<T>, k: nat)
    requires k < |s|
    ensures s == s[..k] + ([s[k]] + s[k + 1..])
  {
  }

  lemma UpdateAt<T>(s: seq<T>, k: nat, x: T)
    requires k < |s|
    ensures s[k := x] == s[..k] + ([x] + s[k + 1..])
  {
  }

  lemma UpdateInsert<T>(s: seq<T>, k: nat, x: T, y: T)
    requires k < |s|
    ensures Insert(s[k := x], k + 1, y) == s[..k] + ([x, y] + s[k + 1..])
  {
  }

  lemma InsertAt<T>(s: seq<T>, k: nat, x: T)
    requires k <= |s|
    ensures s == s[..k] + s[k..] && Insert(s, k, x) == s[..k] + ([x] + s[k..])
  {
  }

  lemma DistinctInsert<T>(s: seq<T>, k: nat, x: T)
    requires k <= |s|
    ensures Distinct(Insert(s, k, x)) <==> Distinct(s) && x !in s
    ensures forall y :: y in Insert(s, k, x) <==> y == x || y in s
  {
    var r := Insert(s, k, x);
    assert forall i :: 0 <= i < |s| ==> s[i] == r[if i < k then i else i + 1];
    assert r[k] == x;
    assert s == s[..k] + s[k..];
    if Distinct(s) && x !in s {
      forall i, j | 0 <= i < j < |r|
        ensures r[i] != r[j]
      {
        assert r[i] == if i < k then s[i] else if i == k then x else s[i - 1];
        assert r[j] == if j < k then s[j] else if j == k then x else s[j - 1];
      }
    }
  }

  // ---- guilds where they are

  datatype Place = Place(guild: nat, id: FolderID, name: string, color: nat)

  function PlacesIn(f: Folder): (p: seq<Place>)
    ensures |p| == |f.guilds|
  {
    seq(|f.guilds|, i requires 0 <= i < |f.guilds| => Place(f.guilds[i], f.id, f.name, f.color))
  }

  function Places(groups: seq<Folder>): seq<Place> {
    if groups == [] then [] else PlacesIn(groups[0]) + Places(groups[1..])
  }

  function Members(groups: seq<Folder>): seq<nat> {
    if groups == [] then [] else groups[0].guilds + Members(groups[1..])
  }

  lemma {:induction false} MembersArePlaced(groups: seq<Folder>)
    ensures |Members(groups)| == |Places(groups)|
    ensures forall i :: 0 <= i < |Members(groups)| ==> Members(groups)[i] == Places(groups)[i].guild
  {
    if groups != [] { MembersArePlaced(groups[1..]); }
  }

  lemma Cons(f: Folder, rest: seq<Folder>)
    ensures Places([f] + rest) == PlacesIn(f) + Places(rest) && Members([f] + rest) == f.guilds + Members(rest)
  {
    assert ([f] + rest)[1..] == rest;
  }

  lemma Regroup<T>(a: seq<T>, b: seq<T>, c: seq<T>)
    ensures a + (b + c) == a + b + c
  {
  }

  lemma {:induction false} PlacesAppend(a: seq<Folder>, b: seq<Folder>)
    ensures Places(a + b) == Places(a) + Places(b)
    ensures Members(a + b) == Members(a) + Members(b)
  {
    if a == [] {
      assert a + b == b;
    } else {
      hide PlacesIn, Places, Members;
      var f, rest := a[0], a[1..];
      assert [f] + rest == a;
      PlacesAppend(rest, b);
      Cons(f, rest);
      Cons(f, rest + b);
      Regroup([f], rest, b);
      Regroup(PlacesIn(f), Places(rest), Places(b));
      Regroup(f.guilds, Members(rest), Members(b));
    }
  }

  predicate NoneEmpty(groups: seq<Folder>) { forall i :: 0 <= i < |groups| ==> groups[i].guilds != [] }

  predicate Known(guilds: seq<nat>, guild: nat) { guild in guilds && guild != DIRECT_MESSAGES }

  /** A partition of the known guilds, direct messages aside, into groups none of which is empty. */
  ghost predicate Layout(groups: seq<Folder>, guilds: seq<nat>) {
    NoneEmpty(groups) && Distinct(Members(groups)) && forall g: nat :: g in Members(groups) <==> Known(guilds, g)
  }

  // ---- cleaning a saved layout

  /** The members of one group that are known and not seen before. */
  function Kept(ids: seq<nat>, guilds: seq<nat>, seen: seq<nat>): seq<nat> {
    if ids == [] then []
    else
      var n := |ids| - 1;
      var init := Kept(ids[..n], guilds, seen);
      if Known(guilds, ids[n]) && ids[n] !in seen && ids[n] !in init then init + [ids[n]] else init
  }

  function Cleaned(groups: seq<Folder>, guilds: seq<nat>): seq<Folder> {
    if groups == [] then []
    else
      var n := |groups| - 1;
      var init := Cleaned(groups[..n], guilds);
      var kept := Kept(groups[n].guilds, guilds, Members(init));
      if kept == [] then init else init + [groups[n].(guilds := kept)]
  }

  function Missing(guilds: seq<nat>, seen: seq<nat>): seq<Folder> {
    if guilds == [] then []
    else
      var n := |guilds| - 1;
      var init := Missing(guilds[..n], seen);
      if guilds[n] != DIRECT_MESSAGES && guilds[n] !in seen then init + [Bare(guilds[n])] else init
  }

  function Clean(groups: seq<Folder>, guilds: seq<nat>): seq<Folder> {
    Cleaned(groups, guilds) + Missing(guilds, Members(Cleaned(groups, guilds)))
  }

  lemma {:induction false} KeptFresh(ids: seq<nat>, guilds: seq<nat>, seen: seq<nat>)
    ensures var k := Kept(ids, guilds, seen);
            Distinct(k) && (forall g :: g in k ==> Known(guilds, g) && g !in seen && g in ids) &&
            forall g :: g in ids && Known(guilds, g) ==> g in seen || g in k
  {
    if ids != [] {
      var n := |ids| - 1;
      KeptFresh(ids[..n], guilds, seen);
      assert ids == ids[..n] + [ids[n]];
    }
  }

  lemma {:induction false} CleanedFresh(groups: seq<Folder>, guilds: seq<nat>)
    ensures var c := Cleaned(groups, guilds);
            NoneEmpty(c) && Distinct(Members(c)) && forall g :: g in Members(c) ==> Known(guilds, g)
  {
    if groups != [] {
      var n := |groups| - 1;
      CleanedFresh(groups[..n], guilds);
      var init := Cleaned(groups[..n], guilds);
      var kept := Kept(groups[n].guilds, guilds, Members(init));
      KeptFresh(groups[n].guilds, guilds, Members(init));
      var last := groups[n].(guilds := kept);
      AddGroup(init, last);
    }
  }

  /** Adding a group adds its members. */
  lemma AddGroup(init: seq<Folder>, last: Folder)
    ensures Members(init + [last]) == Members(init) + last.guilds
    ensures Places(init + [last]) == Places(init) + PlacesIn(last)
    ensures Distinct(Members(init)) && Distinct(last.guilds) &&
            (forall g :: g in last.guilds ==> g !in Members(init)) ==>
            Distinct(Members(init + [last]))
  {
    PlacesAppend(init, [last]);
    assert Members([last]) == last.guilds + [] && Places([last]) == PlacesIn(last) + [];
    if Distinct(Members(init)) && Distinct(last.guilds) && (forall g :: g in last.guilds ==> g !in Members(init)) {
      DistinctAppend(Members(init), last.guilds);
    }
  }

  lemma {:induction false} MissingMembers(guilds: seq<nat>, seen: seq<nat>)
    ensures var m := Missing(guilds, seen);
            NoneEmpty(m) && (forall g :: g in Members(m) <==> Known(guilds, g) && g !in seen) &&
            (Distinct(guilds) ==> Distinct(Members(m)))
  {
    if guilds != [] {
      var n := |guilds| - 1;
      MissingMembers(guilds[..n], seen);
      assert guilds == guilds[..n] + [guilds[n]];
      AddGroup(Missing(guilds[..n], seen), Bare(guilds[n]));
    }
  }

  /** Cleaning any saved layout for distinct guilds gives a partition of them. */
  lemma CleanIsLayout(groups: seq<Folder>, guilds: seq<nat>)
    requires Distinct(guilds)
    ensures Layout(Clean(groups, guilds), guilds)
  {
    hide Cleaned, Missing;
    var c := Cleaned(groups, guilds);
    var m := Missing(guilds, Members(c));
    CleanedFresh(groups, guilds);
    MissingMembers(guilds, Members(c));
    PlacesAppend(c, m);
    DistinctAppend(Members(c), Members(m));
  }

  lemma {:induction false} KeptAll(ids: seq<nat>, guilds: seq<nat>, seen: seq<nat>)
    requires Distinct(ids) && forall g :: g in ids ==> Known(guilds, g) && g !in seen
    ensures Kept(ids, guilds, seen) == ids
  {
    if ids != [] {
      var n := |ids| - 1;
      assert forall g :: g in ids[..n] ==> g in ids;
      KeptAll(ids[..n], guilds, seen);
      assert ids == ids[..n] + [ids[n]];
      assert ids[n] !in ids[..n];
    }
  }

  lemma {:induction false} CleanedAll(groups: seq<Folder>, guilds: seq<nat>)
    requires NoneEmpty(groups) && Distinct(Members(groups)) && forall g :: g in Members(groups) ==> Known(guilds, g)
    ensures Cleaned(groups, guilds) == groups
  {
    if groups != [] {
      var n := |groups| - 1;
      var init, last := groups[..n], groups[n];
      assert groups == init + [last];
      AddGroup(init, last);
      SplitDistinct(Members(init), last.guilds);
      CleanedAll(init, guilds);
      KeptAll(last.guilds, guilds, Members(init));
    }
  }

  lemma SplitDistinct<T>(a: seq<T>, b: seq<T>)
    requires Distinct(a + b)
    ensures Distinct(a) && Distinct(b) && forall x :: x in b ==> x !in a
  {
    var s := a + b;
    assert forall i :: 0 <= i < |a| ==> s[i] == a[i];
    assert forall i :: 0 <= i < |b| ==> s[|a| + i] == b[i];
  }

  lemma {:induction false} NothingMissing(guilds: seq<nat>, seen: seq<nat>)
    requires forall g :: Known(guilds, g) ==> g in seen
    ensures Missing(guilds, seen) == []
  {
    if guilds != [] {
      var n := |guilds| - 1;
      assert forall g :: Known(guilds[..n], g) ==> Known(guilds, g);
      assert guilds[n] != DIRECT_MESSAGES ==> Known(guilds, guilds[n]);
      NothingMissing(guilds[..n], seen);
    }
  }

  /** Layouts are exactly what cleaning leaves alone, so cleaning twice is cleaning once. */
  lemma CleanIsIdempotent(groups: seq<Folder>, guilds: seq<nat>)
    requires Distinct(guilds)
    ensures Layout(groups, guilds) <==> Clean(groups, guilds) == groups
    ensures Clean(Clean(groups, guilds), guilds) == Clean(groups, guilds)
  {
    CleanIsLayout(groups, guilds);
    LayoutIsClean(Clean(groups, guilds), guilds);
    if Layout(groups, guilds) { LayoutIsClean(groups, guilds); }
  }

  lemma LayoutIsClean(groups: seq<Folder>, guilds: seq<nat>)
    requires Layout(groups, guilds)
    ensures Clean(groups, guilds) == groups
  {
    CleanedAll(groups, guilds);
    NothingMissing(guilds, Members(groups));
    assert groups + [] == groups;
  }

  /** The places that are first to name a known guild. */
  function FirstPlaces(p: seq<Place>, guilds: seq<nat>): seq<Place> {
    if p == [] then []
    else
      var n := |p| - 1;
      var init := FirstPlaces(p[..n], guilds);
      if Known(guilds, p[n].guild) && forall i :: 0 <= i < |init| ==> init[i].guild != p[n].guild
      then init + [p[n]] else init
  }

  /** A known guild stays in the first group that names it, in the order saved; the rest are
      on their own at the end. */
  lemma CleanKeepsPlaces(groups: seq<Folder>, guilds: seq<nat>)
    ensures Places(Clean(groups, guilds)) ==
            FirstPlaces(Places(groups), guilds) + Places(Missing(guilds, Members(Cleaned(groups, guilds))))
  {
    CleanedKeepsPlaces(groups, guilds);
    PlacesAppend(Cleaned(groups, guilds), Missing(guilds, Members(Cleaned(groups, guilds))));
  }

  lemma {:induction false} CleanedKeepsPlaces(groups: seq<Folder>, guilds: seq<nat>)
    ensures Places(Cleaned(groups, guilds)) == FirstPlaces(Places(groups), guilds)
  {
    hide PlacesIn, FirstPlaces;
    if groups == [] {
      assert FirstPlaces([], guilds) == [] by { FirstOfNone(guilds); }
    } else {
      var n := |groups| - 1;
      var init, last := groups[..n], groups[n];
      assert groups == init + [last];
      CleanedKeepsPlaces(init, guilds);
      var c := Cleaned(init, guilds);
      var kept := Kept(last.guilds, guilds, Members(c));
      AddGroup(init, last);
      AddGroup(c, last.(guilds := kept));
      GroupPlaces(last, guilds, Places(init), c);
      if kept == [] { assert PlacesIn(last.(guilds := kept)) == []; }
    }
  }

  lemma FirstOfNone(guilds: seq<nat>)
    ensures FirstPlaces([], guilds) == []
  {
  }

  /** Going through one more group keeps the places of the members it keeps. */
  lemma {:induction false} GroupPlaces(f: Folder, guilds: seq<nat>, before: seq<Place>, c: seq<Folder>)
    requires Places(c) == FirstPlaces(before, guilds)
    ensures FirstPlaces(before + PlacesIn(f), guilds) ==
            FirstPlaces(before, guilds) + PlacesIn(f.(guilds := Kept(f.guilds, guilds, Members(c))))
    decreases |f.guilds|
  {
    hide Members;
    if f.guilds == [] {
      assert before + PlacesIn(f) == before;
    } else {
      var n := |f.guilds| - 1;
      var shorter := f.(guilds := f.guilds[..n]);
      GroupPlaces(shorter, guilds, before, c);
      var p := before + PlacesIn(f);
      var last := Place(f.guilds[n], f.id, f.name, f.color);
      assert p[..|p| - 1] == before + PlacesIn(shorter) && p[|p| - 1] == last;
      var kept := Kept(f.guilds[..n], guilds, Members(c));
      var init := FirstPlaces(before, guilds) + PlacesIn(f.(guilds := kept));
      NamedIn(c, f.(guilds := kept), f.guilds[n]);
      assert PlacesIn(f.(guilds := kept + [f.guilds[n]])) == PlacesIn(f.(guilds := kept)) + [last];
    }
  }

  lemma NamedIn(c: seq<Folder>, f: Folder, guild: nat)
    ensures var all := Places(c) + PlacesIn(f);
            (guild !in Members(c) && guild !in f.guilds) <==> forall i :: 0 <= i < |all| ==> all[i].guild != guild
  {
    MembersArePlaced(c);
    var all := Places(c) + PlacesIn(f);
    var ids := Members(c) + f.guilds;
    assert forall i :: 0 <= i < |all| ==> all[i].guild == ids[i];
    assert guild in ids <==> guild in Members(c) || guild in f.guilds;
  }

  // ---- dragging a guild

  function PullID(ids: seq<nat>, guild: nat): seq<nat> {
    if ids == [] then [] else (if ids[0] == guild then [] else [ids[0]]) + PullID(ids[1..], guild)
  }

  /** Without a guild, and without the groups that leaves empty. */
  function Pull(groups: seq<Folder>, guild: nat): seq<Folder> {
    if groups == [] then []
    else
      var ids := PullID(groups[0].guilds, guild);
      (if ids == [] then [] else [groups[0].(guilds := ids)]) + Pull(groups[1..], guild)
  }

  function GroupIndex(groups: seq<Folder>, guild: nat): (k: int)
    ensures -1 <= k < |groups|
    ensures if k < 0 then guild !in Members(groups) else guild in groups[k].guilds
  {
    if groups == [] then -1
    else if guild in groups[0].guilds then 0
    else
      var k := GroupIndex(groups[1..], guild);
      if k < 0 then -1 else k + 1
  }

  predicate IsFolder(f: Folder, id: FolderID) { f.id == id && (f.id != 0 || f.name != "" || |f.guilds| > 1) }

  function FolderIndex(groups: seq<Folder>, id: FolderID): (k: int)
    ensures -1 <= k < |groups| && (k >= 0 ==> IsFolder(groups[k], id))
  {
    if groups == [] then -1
    else if IsFolder(groups[0], id) then 0
    else
      var k := FolderIndex(groups[1..], id);
      if k < 0 then -1 else k + 1
  }

  function Join(groups: seq<Folder>, k: nat, position: nat, guild: nat): seq<Folder>
    requires k < |groups| && position <= |groups[k].guilds|
  {
    groups[k := groups[k].(guilds := Insert(groups[k].guilds, position, guild))]
  }

  predicate Inert(guild: nat, target: Target) { guild == 0 || guild == DIRECT_MESSAGES || target.guild == guild }

  predicate Collects(f: Folder) { |f.guilds| > 1 || f.id != 0 || f.name != "" }

  /** The layout after a guild was dropped on a row. */
  function Move(groups: seq<Folder>, guild: nat, target: Target, after: bool): seq<Folder> {
    if Inert(guild, target) then groups
    else
      var out := Pull(groups, guild);
      if target.folder && FolderIndex(out, target.folderID) >= 0 then
        var k := FolderIndex(out, target.folderID);
        Join(out, k, |out[k].guilds|, guild)
      else if target.guild != 0 && target.guild != DIRECT_MESSAGES && GroupIndex(out, target.guild) >= 0 then
        var k := GroupIndex(out, target.guild);
        var step := if after then 1 else 0;
        if Collects(out[k]) then Join(out, k, Index(out[k].guilds, target.guild) + step, guild)
        else Insert(out, k + step, Bare(guild))
      else if target.guild == DIRECT_MESSAGES then Insert(out, 0, Bare(guild))
      else out + [Bare(guild)]
  }

  /** How many guilds come before a group. */
  function Offset(groups: seq<Folder>, k: nat): (n: nat)
    requires k <= |groups|
    ensures n <= |Places(groups)|
  {
    PlacesAppend(groups[..k], groups[k..]);
    assert groups == groups[..k] + groups[k..];
    |Places(groups[..k])|
  }

  lemma InsertPlaces(groups: seq<Folder>, k: nat, f: Folder)
    requires k <= |groups| && |f.guilds| == 1
    ensures Places(Insert(groups, k, f)) == Insert(Places(groups), Offset(groups, k), PlacesIn(f)[0])
  {
    hide PlacesIn, Places;
    var a, b := groups[..k], groups[k..];
    InsertAt(groups, k, f);
    hide Insert;
    PlacesAppend(a, b);
    PlacesAppend(a, [f] + b);
    Cons(f, b);
    assert PlacesIn(f) == [PlacesIn(f)[0]];
    Regroup(Places(a), PlacesIn(f), Places(b));
    InsertBetween(Places(a), Places(b), PlacesIn(f)[0]);
  }

  lemma InsertBetween<T>(a: seq<T>, b: seq<T>, x: T)
    ensures Insert(a + b, |a|, x) == a + [x] + b
  {
  }

  lemma JoinPlaces(groups: seq<Folder>, k: nat, position: nat, guild: nat)
    requires k < |groups| && position <= |groups[k].guilds|
    ensures Offset(groups, k) + position <= |Places(groups)|
    ensures var f := groups[k];
            Places(Join(groups, k, position, guild)) ==
            Insert(Places(groups), Offset(groups, k) + position, Place(guild, f.id, f.name, f.color))
  {
    hide PlacesIn, Places;
    var f := groups[k];
    var x := Place(guild, f.id, f.name, f.color);
    var f' := f.(guilds := Insert(f.guilds, position, guild));
    var a, b := groups[..k], groups[k + 1..];
    SplitAt(groups, k);
    UpdateAt(groups, k, f');
    hide Insert;
    PlacesAppend(a, [f] + b);
    PlacesAppend(a, [f'] + b);
    Cons(f, b);
    Cons(f', b);
    JoinedGroup(f, position, guild);
    InsertWithin(Places(a), PlacesIn(f), Places(b), position, x);
    Regroup(Places(a), PlacesIn(f), Places(b));
    Regroup(Places(a), PlacesIn(f'), Places(b));
  }

  lemma JoinedGroup(f: Folder, position: nat, guild: nat)
    requires position <= |f.guilds|
    ensures PlacesIn(f.(guilds := Insert(f.guilds, position, guild))) ==
            Insert(PlacesIn(f), position, Place(guild, f.id, f.name, f.color))
  {
  }

  lemma InsertWithin<T>(a: seq<T>, s: seq<T>, b: seq<T>, k: nat, x: T)
    requires k <= |s|
    ensures a + Insert(s, k, x) + b == Insert(a + s + b, |a| + k, x)
  {
    var all := a + s + b;
    assert all[..|a| + k] == a + s[..k];
    assert all[|a| + k..] == s[k..] + b;
  }

  function Others(p: seq<Place>, guild: nat): seq<Place> {
    if p == [] then [] else (if p[0].guild == guild then [] else [p[0]]) + Others(p[1..], guild)
  }

  lemma OthersCons(x: Place, rest: seq<Place>, guild: nat)
    ensures Others([x] + rest, guild) == (if x.guild == guild then [] else [x]) + Others(rest, guild)
  {
    assert ([x] + rest)[1..] == rest;
  }

  lemma {:induction false} OthersAppend(a: seq<Place>, b: seq<Place>, guild: nat)
    ensures Others(a + b, guild) == Others(a, guild) + Others(b, guild)
  {
    if a == [] {
      assert a + b == b;
    } else {
      hide Others;
      var x, rest := a[0], a[1..];
      assert [x] + rest == a;
      OthersAppend(rest, b, guild);
      OthersCons(x, rest, guild);
      OthersCons(x, rest + b, guild);
      Regroup([x], rest, b);
      Regroup(if x.guild == guild then [] else [x], Others(rest, guild), Others(b, guild));
    }
  }

  lemma {:induction false} PullIDPlaces(f: Folder, guild: nat)
    ensures PlacesIn(f.(guilds := PullID(f.guilds, guild))) == Others(PlacesIn(f), guild)
    decreases |f.guilds|
  {
    if f.guilds != [] {
      var rest := f.(guilds := f.guilds[1..]);
      PullIDPlaces(rest, guild);
      assert PlacesIn(f)[1..] == PlacesIn(rest);
      var kept := PullID(f.guilds[1..], guild);
      assert PlacesIn(f.(guilds := [f.guilds[0]] + kept)) == [PlacesIn(f)[0]] + PlacesIn(f.(guilds := kept));
    }
  }

  /** Pulling a guild out leaves every other guild where it was. */
  lemma {:induction false} PullPlaces(groups: seq<Folder>, guild: nat)
    ensures Places(Pull(groups, guild)) == Others(Places(groups), guild) && NoneEmpty(Pull(groups, guild))
  {
    hide PlacesIn, PullID;
    if groups != [] {
      var f := groups[0];
      var f' := f.(guilds := PullID(f.guilds, guild));
      PullPlaces(groups[1..], guild);
      PullIDPlaces(f, guild);
      OthersAppend(PlacesIn(f), Places(groups[1..]), guild);
      var rest := Pull(groups[1..], guild);
      Cons(f', rest);
      assert [] + rest == rest && [] + Others(Places(groups[1..]), guild) == Others(Places(groups[1..]), guild);
    }
  }

  // ---- where it lands

  datatype Landing = Landing(at: nat, id: FolderID, name: string, color: nat)

  /** The row that a drop means, among the guilds that stay: at the end of the folder dropped
      on, beside the guild dropped on and in its collection if it has one, first when dropped on
      direct messages, and otherwise last. */
  function Lands(out: seq<Folder>, target: Target, after: bool): Landing {
    if target.folder && FolderIndex(out, target.folderID) >= 0 then
      var k := FolderIndex(out, target.folderID);
      Landing(Offset(out, k + 1), out[k].id, out[k].name, out[k].color)
    else if target.guild != 0 && target.guild != DIRECT_MESSAGES && target.guild in Members(out) then
      var f := out[GroupIndex(out, target.guild)];
      var at := Index(Members(out), target.guild) + if after then 1 else 0;
      if Collects(f) then Landing(at, f.id, f.name, f.color) else Landing(at, 0, "", 0)
    else Landing(if target.guild == DIRECT_MESSAGES then 0 else |Places(out)|, 0, "", 0)
  }

  lemma OffsetCons(f: Folder, rest: seq<Folder>, k: nat)
    requires k <= |rest|
    ensures Offset([f] + rest, k + 1) == |f.guilds| + Offset(rest, k)
  {
    hide PlacesIn, Places;
    assert ([f] + rest)[..k + 1] == [f] + rest[..k];
    Cons(f, rest[..k]);
  }

  lemma OffsetNext(groups: seq<Folder>, k: nat)
    requires k < |groups|
    ensures Offset(groups, k + 1) == Offset(groups, k) + |groups[k].guilds|
  {
    hide PlacesIn, Places;
    assert groups[..k + 1] == groups[..k] + [groups[k]];
    AddGroup(groups[..k], groups[k]);
  }

  lemma {:induction false} GroupFinds(groups: seq<Folder>, guild: nat)
    requires GroupIndex(groups, guild) >= 0
    ensures var k := GroupIndex(groups, guild);
            guild in Members(groups) &&
            Index(Members(groups), guild) == Offset(groups, k) + Index(groups[k].guilds, guild)
  {
    hide Places, PlacesIn, Members, Index, GroupIndex, Offset;
    var k := GroupIndex(groups, guild);
    var f, rest := groups[0], groups[1..];
    assert [f] + rest == groups;
    FindCons(f, rest, guild);
    if k == 0 {
      NoneBefore(groups);
    } else {
      GroupFinds(rest, guild);
      OffsetCons(f, rest, k - 1);
    }
  }

  lemma FindCons(f: Folder, rest: seq<Folder>, guild: nat)
    ensures GroupIndex([f] + rest, guild) ==
      if guild in f.guilds then 0 else if GroupIndex(rest, guild) < 0 then -1 else GroupIndex(rest, guild) + 1
    ensures guild in f.guilds ==>
              guild in Members([f] + rest) && Index(Members([f] + rest), guild) == Index(f.guilds, guild)
    ensures guild !in f.guilds && guild in Members(rest) ==>
      guild in Members([f] + rest) && Index(Members([f] + rest), guild) == |f.guilds| + Index(Members(rest), guild)
  {
    assert ([f] + rest)[1..] == rest;
    IndexAppend(f.guilds, Members(rest), guild);
  }

  lemma {:induction false} IndexAppend<T>(a: seq<T>, b: seq<T>, x: T)
    ensures Index(a + b, x) ==
      if x in a then Index(a, x) else if x in b then |a| + Index(b, x) else -1
  {
    if a == [] {
      assert a + b == b;
    } else {
      assert (a + b)[1..] == a[1..] + b;
      IndexAppend(a[1..], b, x);
      assert a == [a[0]] + a[1..];
    }
  }

  /** Every other guild keeps its place and its group's name; the one dropped lands as the row says. */
  lemma MovePlaces(groups: seq<Folder>, guild: nat, target: Target, after: bool)
    requires !Inert(guild, target)
    ensures var rest := Others(Places(groups), guild);
            var l := Lands(Pull(groups, guild), target, after);
            var moved := Move(groups, guild, target, after);
            l.at <= |rest| && Places(moved) == Insert(rest, l.at, Place(guild, l.id, l.name, l.color)) &&
              NoneEmpty(moved)
  {
    hide Places, PlacesIn, Pull, Offset, Index, FolderIndex, GroupIndex, Members, Others;
    var out := Pull(groups, guild);
    PullPlaces(groups, guild);
    if target.folder && FolderIndex(out, target.folderID) >= 0 {
      var k := FolderIndex(out, target.folderID);
      OffsetNext(out, k);
      JoinPlaces(out, k, |out[k].guilds|, guild);
    } else if target.guild != 0 && target.guild != DIRECT_MESSAGES && GroupIndex(out, target.guild) >= 0 {
      BesideGuild(out, guild, target.guild, after);
    } else {
      AtTheEnds(out, guild);
    }
  }

  lemma AtTheEnds(out: seq<Folder>, guild: nat)
    ensures Places(Insert(out, 0, Bare(guild))) == Insert(Places(out), 0, Place(guild, 0, "", 0))
    ensures Places(out + [Bare(guild)]) == Insert(Places(out), |Places(out)|, Place(guild, 0, "", 0))
  {
    hide Places, PlacesIn, Insert, Offset;
    BarePlace(guild);
    InsertPlaces(out, 0, Bare(guild));
    NoneBefore(out);
    AddGroup(out, Bare(guild));
    InsertLast(Places(out), Place(guild, 0, "", 0));
  }

  lemma BarePlace(guild: nat)
    ensures PlacesIn(Bare(guild)) == [Place(guild, 0, "", 0)]
  {
  }

  lemma NoneBefore(groups: seq<Folder>)
    ensures Offset(groups, 0) == 0
  {
    assert groups[..0] == [];
  }

  lemma BesideGuild(out: seq<Folder>, guild: nat, beside: nat, after: bool)
    requires NoneEmpty(out) && GroupIndex(out, beside) >= 0
    ensures var k := GroupIndex(out, beside);
            var step := if after then 1 else 0;
            var at := Index(Members(out), beside) + step;
            var f := out[k];
            beside in Members(out) && at <= |Places(out)| &&
            if Collects(f) then
              Places(Join(out, k, Index(f.guilds, beside) + step, guild)) ==
              Insert(Places(out), at, Place(guild, f.id, f.name, f.color))
            else Places(Insert(out, k + step, Bare(guild))) == Insert(Places(out), at, Place(guild, 0, "", 0))
  {
    hide Places, PlacesIn, Offset, Members, GroupIndex;
    var k := GroupIndex(out, beside);
    var f, step := out[k], if after then 1 else 0;
    GroupFinds(out, beside);
    if Collects(f) {
      JoinPlaces(out, k, Index(f.guilds, beside) + step, guild);
    } else {
      OffsetNext(out, k);
      assert |f.guilds| == 1 by { assert f.guilds != []; }
      InsertPlaces(out, k + step, Bare(guild));
      BarePlace(guild);
    }
  }

  // ---- layouts stay layouts

  function Guilds(p: seq<Place>): (g: seq<nat>)
    ensures |g| == |p|
  {
    seq(|p|, i requires 0 <= i < |p| => p[i].guild)
  }

  lemma MembersAre(groups: seq<Folder>)
    ensures Members(groups) == Guilds(Places(groups))
  {
    MembersArePlaced(groups);
  }

  lemma {:induction false} OthersAre(p: seq<Place>, guild: nat)
    requires Distinct(Guilds(p))
    ensures var g := Guilds(Others(p, guild));
            Distinct(g) && forall x :: x in g <==> x in Guilds(p) && x != guild
  {
    if p != [] {
      assert Guilds(p) == [p[0].guild] + Guilds(p[1..]);
      SplitDistinct([p[0].guild], Guilds(p[1..]));
      OthersAre(p[1..], guild);
      var rest := Others(p[1..], guild);
      if p[0].guild != guild {
        assert Guilds([p[0]] + rest) == [p[0].guild] + Guilds(rest);
        DistinctAppend([p[0].guild], Guilds(rest));
      } else {
        assert [] + rest == rest;
      }
    }
  }

  /** One guild taken out of a layout and put back anywhere: still a layout exactly when it is known. */
  lemma ReplacedGuild(groups: seq<Folder>, moved: seq<Folder>, guilds: seq<nat>, guild: nat, at: nat, x: Place)
    requires Layout(groups, guilds) && NoneEmpty(moved) && x.guild == guild
    requires at <= |Others(Places(groups), guild)| && Places(moved) == Insert(Others(Places(groups), guild), at, x)
    ensures Layout(moved, guilds) <==> Known(guilds, guild)
  {
    hide Places, Others, Members, Guilds;
    var rest := Others(Places(groups), guild);
    MembersAre(groups);
    MembersAre(moved);
    OthersAre(Places(groups), guild);
    GuildsInsert(rest, at, x);
    DistinctInsert(Guilds(rest), at, guild);
    assert guild in Members(moved);
  }

  lemma GuildsInsert(p: seq<Place>, at: nat, x: Place)
    requires at <= |p|
    ensures Guilds(Insert(p, at, x)) == Insert(Guilds(p), at, x.guild)
  {
  }

  /** Dragging keeps the partition, unless it names a guild that is not known. */
  lemma MoveKeepsLayout(groups: seq<Folder>, guild: nat, target: Target, after: bool, guilds: seq<nat>)
    requires Layout(groups, guilds)
    ensures Layout(Move(groups, guild, target, after), guilds) <==> Inert(guild, target) || Known(guilds, guild)
  {
    if !Inert(guild, target) {
      hide Places, Others, Members, Lands, Move;
      MovePlaces(groups, guild, target, after);
      var l := Lands(Pull(groups, guild), target, after);
      ReplacedGuild(groups, Move(groups, guild, target, after), guilds, guild, l.at,
        Place(guild, l.id, l.name, l.color));
    }
  }

  // ---- a new group

  /** One below the least negative id so far, in 64 bits. */
  function Below(id: int): FolderID
    requires MIN_ID <= id <= MAX_ID
  {
    if id == MIN_ID then MAX_ID else id - 1
  }

  function NextID(ids: seq<FolderID>): FolderID {
    if ids == [] then -1
    else
      var n := |ids| - 1;
      var id := NextID(ids[..n]);
      if ids[n] <= id then Below(ids[n]) else id
  }

  function Least(ids: seq<FolderID>): (m: int)
    ensures MIN_ID <= m <= MAX_ID + 1
  {
    if ids == [] then MAX_ID + 1
    else
      var m := Least(ids[..|ids| - 1]);
      if ids[|ids| - 1] < m then ids[|ids| - 1] else m
  }

  /** Ids after the last wrap-around, all of them when there is none. */
  function SinceWrap(ids: seq<FolderID>): (k: nat)
    ensures k <= |ids| && (k > 0 ==> ids[k - 1] == MIN_ID)
    ensures forall i :: k <= i < |ids| ==> ids[i] != MIN_ID
  {
    if ids == [] then 0
    else if ids[|ids| - 1] == MIN_ID then |ids|
    else SinceWrap(ids[..|ids| - 1])
  }

  lemma {:induction false} NextIDIs(ids: seq<FolderID>)
    ensures var k := SinceWrap(ids);
            NextID(ids) == if k == 0 && Least(ids) > -1 then -1 else Least(ids[k..]) - 1
  {
    if ids != [] {
      var n := |ids| - 1;
      var init := ids[..n];
      NextIDIs(init);
      var k := SinceWrap(init);
      if ids[n] == MIN_ID {
        assert ids[|ids|..] == [];
      } else {
        var tail := ids[k..];
        assert tail[..|tail| - 1] == init[k..] && tail[|tail| - 1] == ids[n];
        if k == 0 { assert ids[0..] == ids && init[0..] == init; }
      }
    }
  }

  lemma {:induction false} LeastIs(ids: seq<FolderID>)
    ensures forall i :: 0 <= i < |ids| ==> Least(ids) <= ids[i]
  {
    if ids != [] {
      var n := |ids| - 1;
      LeastIs(ids[..n]);
      assert forall i :: 0 <= i < n ==> ids[i] == ids[..n][i];
    }
  }

  /** The new id is fresh, except when the least possible id was in use and an id up to it
      is one below everything after it. */
  lemma NextIDIsFresh(ids: seq<FolderID>)
    ensures var k := SinceWrap(ids);
            NextID(ids) !in ids <==> k == 0 || Least(ids[k..]) - 1 !in ids[..k]
  {
    var k := SinceWrap(ids);
    NextIDIs(ids);
    LeastIs(ids);
    LeastIs(ids[k..]);
    assert ids == ids[..k] + ids[k..];
    assert ids[0..] == ids;
  }

  /** A layout whose next id is already taken: the least id wraps around. */
  lemma WrappedIDCollides()
    ensures NextID([4, MIN_ID, 5]) == 4
  {
    assert [4, MIN_ID, 5][..2] == [4, MIN_ID] && [4, MIN_ID][..1] == [4] && [4][..0] == [];
    assert NextID([4]) == -1;
    assert NextID([4, MIN_ID]) == MAX_ID;
  }

  function IDs(groups: seq<Folder>): (ids: seq<FolderID>)
    ensures |ids| == |groups|
  {
    seq(|groups|, i requires 0 <= i < |groups| => groups[i].id)
  }

  /** A guild on its own in a new named group, after the one it was in. */
  function MakeGroup(groups: seq<Folder>, guild: nat, name: string): seq<Folder> {
    if guild == 0 || guild == DIRECT_MESSAGES then groups
    else
      var entry := Folder(NextID(IDs(groups)), name, 0, [guild]);
      var k := GroupIndex(groups, guild);
      if k < 0 then groups + [entry]
      else
        var ids := PullID(groups[k].guilds, guild);
        if ids == [] then groups[k := entry] else Insert(groups[k := groups[k].(guilds := ids)], k + 1, entry)
  }

  lemma {:induction false} OthersAbsent(p: seq<Place>, guild: nat)
    requires guild !in Guilds(p)
    ensures Others(p, guild) == p
  {
    if p != [] {
      assert Guilds(p) == [p[0].guild] + Guilds(p[1..]);
      OthersAbsent(p[1..], guild);
    }
  }

  lemma {:induction false} FirstGroup(groups: seq<Folder>, guild: nat)
    ensures var k := GroupIndex(groups, guild);
            guild !in Members(if k < 0 then groups else groups[..k])
  {
    var k := GroupIndex(groups, guild);
    if k > 0 {
      FirstGroup(groups[1..], guild);
      assert groups[..k] == [groups[0]] + groups[1..][..k - 1];
      Cons(groups[0], groups[1..][..k - 1]);
    } else if k == 0 {
      assert groups[..0] == [];
    }
  }

  /** On a layout, the guild comes right after those it was grouped with, in the new group;
      every other guild keeps its place and its group's name. */
  lemma MakeGroupPlaces(groups: seq<Folder>, guild: nat, name: string)
    requires guild != 0 && guild != DIRECT_MESSAGES && NoneEmpty(groups) && Distinct(Members(groups))
    ensures var rest := Others(Places(groups), guild);
            var k := GroupIndex(groups, guild);
            var at := if k < 0 then |rest| else Offset(groups, k) + |PullID(groups[k].guilds, guild)|;
            var made := MakeGroup(groups, guild, name);
            at <= |rest| && NoneEmpty(made) &&
            Places(made) == Insert(rest, at, Place(guild, NextID(IDs(groups)), name, 0))
  {
    hide Places, PlacesIn, Members, GroupIndex, NextID, IDs, Distinct, PullID, Insert, Others, Offset;
    var k := GroupIndex(groups, guild);
    var entry := Folder(NextID(IDs(groups)), name, 0, [guild]);
    MadeNoneEmpty(groups, guild, name);
    if k < 0 {
      AbsentGuild(groups, guild);
      AddGroup(groups, entry);
      LonePlace(entry);
      InsertLast(Places(groups), Place(guild, entry.id, name, 0));
    } else {
      var f' := groups[k].(guilds := PullID(groups[k].guilds, guild));
      SplitAt(groups, k);
      UpdateAt(groups, k, entry);
      UpdateInsert(groups, k, f', entry);
      GroupApart(groups, guild);
      MadeFrom(groups[..k], groups[k], groups[k + 1..], guild, entry);
      OffsetIs(groups, k);
    }
  }

  lemma AbsentGuild(groups: seq<Folder>, guild: nat)
    requires guild !in Members(groups)
    ensures Others(Places(groups), guild) == Places(groups)
  {
    MembersAre(groups);
    OthersAbsent(Places(groups), guild);
  }

  lemma LonePlace(f: Folder)
    requires |f.guilds| == 1
    ensures PlacesIn(f) == [Place(f.guilds[0], f.id, f.name, f.color)]
  {
  }

  lemma InsertLast<T>(s: seq<T>, x: T)
    ensures Insert(s, |s|, x) == s + [x]
  {
  }

  lemma OffsetIs(groups: seq<Folder>, k: nat)
    requires k <= |groups|
    ensures Offset(groups, k) == |Places(groups[..k])|
  {
  }

  /** A guild of a layout is in the first group that has it, and in no other. */
  lemma GroupApart(groups: seq<Folder>, guild: nat)
    requires Distinct(Members(groups)) && GroupIndex(groups, guild) >= 0
    ensures var k := GroupIndex(groups, guild);
            guild !in Members(groups[..k]) && guild !in Members(groups[k + 1..])
  {
    var k := GroupIndex(groups, guild);
    FirstGroup(groups, guild);
    hide Members, GroupIndex, Places, PlacesIn;
    var a, f, b := groups[..k], groups[k], groups[k + 1..];
    SplitAt(groups, k);
    PlacesAppend(a, [f] + b);
    Cons(f, b);
    SplitDistinct(Members(a), f.guilds + Members(b));
    SplitDistinct(f.guilds, Members(b));
  }

  lemma MadeNoneEmpty(groups: seq<Folder>, guild: nat, name: string)
    requires NoneEmpty(groups)
    ensures NoneEmpty(MakeGroup(groups, guild, name))
  {
    hide PullID, GroupIndex, NextID, IDs;
  }

  /** The places of a group and what follows it, without a guild that is only there. */
  lemma OthersAround(a: seq<Folder>, f: Folder, b: seq<Folder>, guild: nat)
    requires guild !in Members(a) && guild !in Members(b)
    ensures Others(Places(a + ([f] + b)), guild) ==
            Places(a) + (PlacesIn(f.(guilds := PullID(f.guilds, guild))) + Places(b))
  {
    MembersAre(a);
    MembersAre(b);
    OthersAbsent(Places(a), guild);
    OthersAbsent(Places(b), guild);
    PullIDPlaces(f, guild);
    hide Places, PlacesIn, Members, Others, Guilds, PullID;
    PlacesAppend(a, [f] + b);
    Cons(f, b);
    OthersAppend(Places(a), PlacesIn(f) + Places(b), guild);
    OthersAppend(PlacesIn(f), Places(b), guild);
  }

  lemma MadeFrom(a: seq<Folder>, f: Folder, b: seq<Folder>, guild: nat, entry: Folder)
    requires entry.guilds == [guild] && guild !in Members(a) && guild !in Members(b)
    ensures var ids := PullID(f.guilds, guild);
            var rest := Others(Places(a + ([f] + b)), guild);
            var made := if ids == [] then a + ([entry] + b) else a + ([f.(guilds := ids), entry] + b);
            |Places(a)| + |ids| <= |rest| &&
            Places(made) == Insert(rest, |Places(a)| + |ids|, Place(guild, entry.id, entry.name, entry.color))
  {
    var ids := PullID(f.guilds, guild);
    var f' := f.(guilds := ids);
    var x := Place(guild, entry.id, entry.name, entry.color);
    assert PlacesIn(entry) == [x];
    OthersAround(a, f, b, guild);
    hide Places, PlacesIn, Members, Others, Insert, PullID;
    var p := PlacesIn(f');
    InsertTwo(Places(a), p, Places(b), x);
    Cons(entry, b);
    if ids == [] {
      PlacesAppend(a, [entry] + b);
      assert p == [];
      assert p + ([x] + Places(b)) == [x] + Places(b);
    } else {
      Regroup([f'], [entry], b);
      assert [f', entry] == [f'] + [entry];
      Cons(f', [entry] + b);
      PlacesAppend(a, [f', entry] + b);
    }
  }

  lemma InsertTwo<T>(a: seq<T>, p: seq<T>, b: seq<T>, x: T)
    ensures Insert(a + (p + b), |a| + |p|, x) == a + (p + ([x] + b))
  {
    assert (a + (p + b))[..|a| + |p|] == a + p;
  }

  /** Making a group keeps the partition, unless it names a guild that is not known; and the
      new group's id is not one already used, as long as the least id is not in use. */
  lemma MakeGroupKeepsLayout(groups: seq<Folder>, guild: nat, name: string, guilds: seq<nat>)
    requires Layout(groups, guilds)
    ensures Layout(MakeGroup(groups, guild, name), guilds) <==>
            guild == 0 || guild == DIRECT_MESSAGES || Known(guilds, guild)
    ensures MIN_ID !in IDs(groups) ==> NextID(IDs(groups)) !in IDs(groups)
  {
    if guild != 0 && guild != DIRECT_MESSAGES {
      hide Places, PlacesIn, Members, Others, Distinct, PullID, GroupIndex, NextID;
      MakeGroupPlaces(groups, guild, name);
      var k := GroupIndex(groups, guild);
      var at := if k < 0 then |Others(Places(groups), guild)|
        else Offset(groups, k) + |PullID(groups[k].guilds, guild)|;
      ReplacedGuild(groups, MakeGroup(groups, guild, name), guilds, guild, at,
        Place(guild, NextID(IDs(groups)), name, 0));
    }
    NextIDIsFresh(IDs(groups));
  }

  // ---- the methods

  method CleanGroups(groups: seq<Folder>, guilds: seq<nat>) returns (out: seq<Folder>)
    ensures out == Clean(groups, guilds)
  {
    hide Known;
    var seen: set<nat> := {};
    out := [];
    for i := 0 to |groups|
      invariant out == Cleaned(groups[..i], guilds)
      invariant forall g :: g in seen <==> g in Members(out)
    {
      assert groups[..i + 1][..i] == groups[..i];
      var kept;
      kept, seen := KeepNew(groups[i].guilds, guilds, Members(out), seen);
      if |kept| > 0 {
        AddGroup(out, groups[i].(guilds := kept));
        out := out + [groups[i].(guilds := kept)];
      }
    }
    assert groups[..|groups|] == groups;
    ghost var cleaned := out;
    for i := 0 to |guilds|
      invariant out == cleaned + Missing(guilds[..i], Members(cleaned))
    {
      assert guilds[..i + 1][..i] == guilds[..i];
      if guilds[i] != DIRECT_MESSAGES && guilds[i] !in seen {
        out := out + [Bare(guilds[i])];
      }
    }
    assert guilds[..|guilds|] == guilds;
  }

  method KeepNew(ids: seq<nat>, guilds: seq<nat>, ghost before: seq<nat>, seen: set<nat>)
    returns (kept: seq<nat>, seen': set<nat>)
    requires forall g :: g in seen <==> g in before
    ensures kept == Kept(ids, guilds, before)
    ensures forall g :: g in seen' <==> g in before || g in kept
  {
    kept, seen' := [], seen;
    for i := 0 to |ids|
      invariant kept == Kept(ids[..i], guilds, before)
      invariant forall g :: g in seen' <==> g in before || g in kept
    {
      assert ids[..i + 1][..i] == ids[..i];
      if Known(guilds, ids[i]) && ids[i] !in seen' {
        kept := kept + [ids[i]];
        seen' := seen' + {ids[i]};
      }
    }
    assert ids[..|ids|] == ids;
  }

  method PullGuild(groups: seq<Folder>, guild: nat) returns (out: seq<Folder>)
    ensures out == Pull(groups, guild)
  {
    out := groups;
    var i := |groups|;
    while i > 0
      invariant 0 <= i <= |groups| && i <= |out|
      invariant out == groups[..i] + Pull(groups[i..], guild)
    {
      i := i - 1;
      assert groups[..i + 1][i] == groups[i] && groups[i..][1..] == groups[i + 1..];
      var ids := PullOne(out[i].guilds, guild);
      if |ids| == 0 {
        out := out[..i] + out[i + 1..];
      } else {
        out := out[i := out[i].(guilds := ids)];
      }
    }
    assert groups[0..] == groups;
  }

  method PullOne(ids: seq<nat>, guild: nat) returns (out: seq<nat>)
    ensures out == PullID(ids, guild)
  {
    hide PullID;
    out := [];
    PullEnds(ids, guild);
    for i := 0 to |ids|
      invariant out + PullID(ids[i..], guild) == PullID(ids, guild)
    {
      PullNext(ids, i, guild);
      Regroup(out, if ids[i] == guild then [] else [ids[i]], PullID(ids[i + 1..], guild));
      if ids[i] != guild { out := out + [ids[i]]; }
    }
  }

  lemma PullNext(ids: seq<nat>, i: nat, guild: nat)
    requires i < |ids|
    ensures PullID(ids[i..], guild) == (if ids[i] == guild then [] else [ids[i]]) + PullID(ids[i + 1..], guild)
  {
    assert ids[i..][0] == ids[i] && ids[i..][1..] == ids[i + 1..];
  }

  lemma PullEnds(ids: seq<nat>, guild: nat)
    ensures ids[0..] == ids && PullID(ids[|ids|..], guild) == []
  {
  }

  method FindGuild(ids: seq<nat>, guild: nat) returns (k: int)
    ensures k == Index(ids, guild)
  {
    for i := 0 to |ids|
      invariant guild !in ids[..i]
    {
      if ids[i] == guild {
        FirstIs(ids, guild, i);
        return i;
      }
    }
    assert ids[..|ids|] == ids;
    k := -1;
  }

  lemma FirstIs<T>(s: seq<T>, x: T, k: nat)
    requires k < |s| && s[k] == x && x !in s[..k]
    ensures Index(s, x) == k
  {
    assert s == s[..k] + s[k..];
    IndexAppend(s[..k], s[k..], x);
  }

  method FindGroup(groups: seq<Folder>, guild: nat) returns (k: int)
    ensures k == GroupIndex(groups, guild)
  {
    for i := 0 to |groups|
      invariant var rest := GroupIndex(groups[i..], guild);
                GroupIndex(groups, guild) == if rest < 0 then -1 else i + rest
    {
      assert groups[i..][1..] == groups[i + 1..];
      var at := FindGuild(groups[i].guilds, guild);
      if at >= 0 { return i; }
    }
    k := -1;
  }

  method FindFolder(groups: seq<Folder>, id: FolderID) returns (k: int)
    ensures k == FolderIndex(groups, id)
  {
    for i := 0 to |groups|
      invariant var rest := FolderIndex(groups[i..], id);
                FolderIndex(groups, id) == if rest < 0 then -1 else i + rest
    {
      assert groups[i..][1..] == groups[i + 1..];
      if IsFolder(groups[i], id) { return i; }
    }
    k := -1;
  }

  method MoveGuild(groups: seq<Folder>, guild: nat, target: Target, after: bool) returns (out: seq<Folder>)
    ensures out == Move(groups, guild, target, after)
  {
    if Inert(guild, target) { return groups; }
    out := PullGuild(groups, guild);
    if target.folder {
      var k := FindFolder(out, target.folderID);
      if k >= 0 {
        var ids := out[k].guilds;
        out := out[k := out[k].(guilds := ids + [guild])];
        assert Insert(ids, |ids|, guild) == ids + [guild];
        return;
      }
    }
    if target.guild != 0 && target.guild != DIRECT_MESSAGES {
      var k := FindGroup(out, target.guild);
      if k >= 0 {
        var position := FindGuild(out[k].guilds, target.guild);
        if after { position := position + 1; }
        if Collects(out[k]) {
          out := out[k := out[k].(guilds := Insert(out[k].guilds, position, guild))];
          return;
        }
        out := Insert(out, if after then k + 1 else k, Bare(guild));
        return;
      }
    }
    if target.guild == DIRECT_MESSAGES {
      out := Insert(out, 0, Bare(guild));
    } else {
      out := out + [Bare(guild)];
    }
  }

  method NextGroupID(groups: seq<Folder>) returns (id: FolderID)
    ensures id == NextID(IDs(groups))
  {
    id := -1;
    var ids := IDs(groups);
    for i := 0 to |groups|
      invariant id == NextID(ids[..i])
    {
      assert ids[..i + 1][..i] == ids[..i];
      if groups[i].id <= id { id := Below(groups[i].id); }
    }
    assert ids[..|ids|] == ids;
  }

  method NewGroup(groups: seq<Folder>, guild: nat, name: string) returns (out: seq<Folder>)
    ensures out == MakeGroup(groups, guild, name)
  {
    if guild == 0 || guild == DIRECT_MESSAGES { return groups; }
    var id := NextGroupID(groups);
    var entry := Folder(id, name, 0, [guild]);
    var k := FindGroup(groups, guild);
    if k < 0 { return groups + [entry]; }
    var ids := PullOne(groups[k].guilds, guild);
    if |ids| == 0 { return groups[k := entry]; }
    out := Insert(groups[k := groups[k].(guilds := ids)], k + 1, entry);
  }
}
