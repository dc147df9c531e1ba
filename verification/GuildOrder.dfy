/** internal/store/ordering.go: the guild rail's rows from a layout, pins and collapsed folders. */
module GuildOrder {
  import opened Collections
  import opened GuildGroups

  datatype Guild = Guild(id: nat, name: string)

  datatype Row = Row(folder: bool, name: string, color: nat, collapsed: bool, indent: bool, pinned: bool, guild: nat,
    folderID: FolderID)

  function Header(f: Folder, collapsed: bool): Row {
    Row(true, if f.name != "" then f.name else "Group", f.color, collapsed, false, false, 0, f.id)
  }

  function GuildRow(g: Guild, indent: bool, pinned: bool, folderID: FolderID): Row {
    Row(false, g.name, 0, false, indent, pinned, g.id, folderID)
  }

  /** One guild on its own, unnamed: not a folder at all. */
  predicate BareFolder(f: Folder) { f.name == "" && f.id == 0 && |f.guilds| == 1 }

  // ---- the rows, pass by pass

  function ByID(guilds: seq<Guild>): (m: map<nat, Guild>)
    ensures forall id :: id in m ==> m[id].id == id && m[id] in guilds
    ensures forall g :: g in guilds ==> g.id in m
  {
    if guilds == [] then map[]
    else
      var n := |guilds| - 1;
      assert guilds == guilds[..n] + [guilds[n]];
      ByID(guilds[..n])[guilds[n].id := guilds[n]]
  }

  /** Rows so far and the guilds already dealt with. */
  datatype Rail = Rail(rows: seq<Row>, done: set<nat>)

  function PinnedRows(pins: seq<nat>, byID: map<nat, Guild>): Rail {
    if pins == [] then Rail([], {})
    else
      var n := |pins| - 1;
      var init := PinnedRows(pins[..n], byID);
      if pins[n] in init.done || pins[n] !in byID then init
      else Rail(init.rows + [GuildRow(byID[pins[n]], false, true, 0)], init.done + {pins[n]})
  }

  function AppendGuild(r: Rail, g: Guild, indent: bool, folderID: FolderID): Rail {
    if g.id in r.done then r else Rail(r.rows + [GuildRow(g, indent, false, folderID)], r.done + {g.id})
  }

  function AppendAll(r: Rail, ids: seq<nat>, byID: map<nat, Guild>, folderID: FolderID): Rail {
    if ids == [] then r
    else
      var n := |ids| - 1;
      var init := AppendAll(r, ids[..n], byID, folderID);
      if ids[n] in byID then AppendGuild(init, byID[ids[n]], true, folderID) else init
  }

  function HideAll(r: Rail, ids: seq<nat>, byID: map<nat, Guild>): Rail {
    r.(done := r.done + set id | id in ids && id in byID)
  }

  function AppendFolder(r: Rail, f: Folder, byID: map<nat, Guild>, collapsed: set<FolderID>): Rail {
    if BareFolder(f) then if f.guilds[0] in byID then AppendGuild(r, byID[f.guilds[0]], false, 0) else r
    else
      var headed := r.(rows := r.rows + [Header(f, f.id in collapsed)]);
      if f.id in collapsed then HideAll(headed, f.guilds, byID) else AppendAll(headed, f.guilds, byID, f.id)
  }

  function AppendFolders(r: Rail, folders: seq<Folder>, byID: map<nat, Guild>, collapsed: set<FolderID>): Rail {
    if folders == [] then r
    else
      var n := |folders| - 1;
      AppendFolder(AppendFolders(r, folders[..n], byID, collapsed), folders[n], byID, collapsed)
  }

  function AppendRest(r: Rail, guilds: seq<Guild>): Rail {
    if guilds == [] then r
    else
      var n := |guilds| - 1;
      AppendGuild(AppendRest(r, guilds[..n]), guilds[n], false, 0)
  }

  function Order(folders: seq<Folder>, guilds: seq<Guild>, pins: seq<nat>, collapsed: set<FolderID>): seq<Row> {
    var byID := ByID(guilds);
    AppendRest(AppendFolders(PinnedRows(pins, byID), folders, byID, collapsed), guilds).rows
  }

  // ---- what is shown

  /** How many rows show a guild. */
  function Shown(rows: seq<Row>, guild: nat): nat {
    if rows == [] then 0
    else Shown(rows[..|rows| - 1], guild) + if !rows[|rows| - 1].folder && rows[|rows| - 1].guild == guild then 1 else 0
  }

  lemma ShownSnoc(rows: seq<Row>, row: Row, guild: nat)
    ensures Shown(rows + [row], guild) == Shown(rows, guild) + if !row.folder && row.guild == guild then 1 else 0
  {
    assert (rows + [row])[..|rows|] == rows;
  }

  predicate KnownGuild(guilds: seq<Guild>, guild: nat) { exists g :: g in guilds && g.id == guild }

  /** The first folder that lists the guild is a collapsed one. */
  predicate HiddenIn(folders: seq<Folder>, guild: nat, collapsed: set<FolderID>) {
    var k := GroupIndex(folders, guild);
    k >= 0 && !BareFolder(folders[k]) && folders[k].id in collapsed
  }

  /** What a guild's rows come to once the folders listed were gone through. */
  predicate Accounted(r: Rail, folders: seq<Folder>, guild: nat, collapsed: set<FolderID>) {
    (guild in r.done <==> guild in Members(folders)) &&
    Shown(r.rows, guild) == if guild in Members(folders) && !HiddenIn(folders, guild, collapsed) then 1 else 0
  }

  lemma {:induction false} PinnedShown(pins: seq<nat>, byID: map<nat, Guild>, guild: nat)
    requires forall id :: id in byID ==> byID[id].id == id
    ensures var r := PinnedRows(pins, byID);
            (guild in r.done <==> guild in pins && guild in byID) &&
            Shown(r.rows, guild) == if guild in pins && guild in byID then 1 else 0
  {
    if pins != [] {
      var n := |pins| - 1;
      PinnedShown(pins[..n], byID, guild);
      assert pins == pins[..n] + [pins[n]];
      if pins[n] in byID {
        ShownSnoc(PinnedRows(pins[..n], byID).rows, GuildRow(byID[pins[n]], false, true, 0), guild);
      }
    }
  }

  lemma AppendShown(r: Rail, g: Guild, indent: bool, folderID: FolderID, guild: nat)
    ensures var r' := AppendGuild(r, g, indent, folderID);
            (guild in r'.done <==> guild in r.done || g.id == guild) &&
            Shown(r'.rows, guild) == Shown(r.rows, guild) + if g.id == guild && guild !in r.done then 1 else 0
  {
    ShownSnoc(r.rows, GuildRow(g, indent, false, folderID), guild);
  }

  lemma {:induction false} AppendAllShown(r: Rail, ids: seq<nat>, byID: map<nat, Guild>, folderID: FolderID, guild: nat)
    requires forall id :: id in byID ==> byID[id].id == id
    ensures var r' := AppendAll(r, ids, byID, folderID);
            (guild in r'.done <==> guild in r.done || (guild in ids && guild in byID)) &&
            Shown(r'.rows, guild) ==
            Shown(r.rows, guild) + if guild in ids && guild in byID && guild !in r.done then 1 else 0
  {
    if ids != [] {
      var n := |ids| - 1;
      AppendAllShown(r, ids[..n], byID, folderID, guild);
      assert ids == ids[..n] + [ids[n]];
      if ids[n] in byID {
        AppendShown(AppendAll(r, ids[..n], byID, folderID), byID[ids[n]], true, folderID, guild);
      }
    }
  }

  /** One folder shows the guilds it lists that were not dealt with, unless it is collapsed. */
  lemma FolderShown(r: Rail, f: Folder, byID: map<nat, Guild>, collapsed: set<FolderID>, guild: nat)
    requires forall id :: id in byID ==> byID[id].id == id
    ensures var r' := AppendFolder(r, f, byID, collapsed);
            (guild in r'.done <==> guild in r.done || (guild in f.guilds && guild in byID)) &&
            Shown(r'.rows, guild) == Shown(r.rows, guild) +
              if guild in f.guilds && guild in byID && guild !in r.done && (BareFolder(f) || f.id !in collapsed)
              then 1 else 0
  {
    hide AppendAll, AppendGuild, Shown;
    if BareFolder(f) {
      if f.guilds[0] in byID { AppendShown(r, byID[f.guilds[0]], false, 0, guild); }
      assert guild in f.guilds <==> guild == f.guilds[0];
    } else {
      ShownSnoc(r.rows, Header(f, f.id in collapsed), guild);
      if f.id !in collapsed {
        AppendAllShown(r.(rows := r.rows + [Header(f, false)]), f.guilds, byID, f.id, guild);
      }
    }
  }

  lemma FirstIn(folders: seq<Folder>, f: Folder, guild: nat)
    ensures GroupIndex(folders + [f], guild) ==
      if guild in Members(folders) then GroupIndex(folders, guild) else if guild in f.guilds then |folders| else -1
    ensures guild in Members(folders + [f]) <==> guild in Members(folders) || guild in f.guilds
    decreases |folders|
  {
    if folders == [] {
      assert [] + [f] == [f] && [f][1..] == [];
      assert Members([f]) == f.guilds + [];
    } else {
      hide Members, Places, PlacesIn, GroupIndex, Index;
      var first, rest := folders[0], folders[1..];
      FirstIn(rest, f, guild);
      assert [first] + rest == folders && [first] + (rest + [f]) == folders + [f];
      FindCons(first, rest, guild);
      FindCons(first, rest + [f], guild);
      Cons(first, rest);
      Cons(first, rest + [f]);
    }
  }

  lemma {:induction false} FoldersShown(r: Rail, folders: seq<Folder>, byID: map<nat, Guild>,
      collapsed: set<FolderID>, guild: nat)
    requires forall id :: id in byID ==> byID[id].id == id
    requires guild in byID && guild !in r.done && Shown(r.rows, guild) == 0
    ensures Accounted(AppendFolders(r, folders, byID, collapsed), folders, guild, collapsed)
  {
    if folders != [] {
      var n := |folders| - 1;
      var init, f := folders[..n], folders[n];
      FoldersShown(r, init, byID, collapsed, guild);
      assert init + [f] == folders;
      hide AppendFolder, Shown, GroupIndex, Members;
      FolderShown(AppendFolders(r, init, byID, collapsed), f, byID, collapsed, guild);
      FirstIn(init, f, guild);
    }
  }

  /** A guild dealt with, or unknown, gets no more rows. */
  lemma {:induction false} FoldersSkip(r: Rail, folders: seq<Folder>, byID: map<nat, Guild>, collapsed: set<FolderID>,
      guild: nat)
    requires forall id :: id in byID ==> byID[id].id == id
    requires guild in r.done || guild !in byID
    ensures var r' := AppendFolders(r, folders, byID, collapsed);
            (guild in r'.done <==> guild in r.done) && Shown(r'.rows, guild) == Shown(r.rows, guild)
  {
    if folders != [] {
      var n := |folders| - 1;
      FoldersSkip(r, folders[..n], byID, collapsed, guild);
      FolderShown(AppendFolders(r, folders[..n], byID, collapsed), folders[n], byID, collapsed, guild);
    }
  }

  lemma {:induction false} RestShown(r: Rail, guilds: seq<Guild>, guild: nat)
    ensures var r' := AppendRest(r, guilds);
            (guild in r'.done <==> guild in r.done || KnownGuild(guilds, guild)) &&
            Shown(r'.rows, guild) ==
            Shown(r.rows, guild) + if KnownGuild(guilds, guild) && guild !in r.done then 1 else 0
  {
    if guilds != [] {
      var n := |guilds| - 1;
      RestShown(r, guilds[..n], guild);
      AppendShown(AppendRest(r, guilds[..n]), guilds[n], false, 0, guild);
      assert guilds == guilds[..n] + [guilds[n]];
      assert KnownGuild(guilds, guild) <==> KnownGuild(guilds[..n], guild) || guilds[n].id == guild;
    }
  }

  /** Whatever the folders, pins and guilds: a guild has one row, or none when it is unknown, or
      unpinned and first listed by a collapsed folder. */
  lemma ShownExactlyOnce(folders: seq<Folder>, guilds: seq<Guild>, pins: seq<nat>, collapsed: set<FolderID>, guild: nat)
    ensures Shown(Order(folders, guilds, pins, collapsed), guild) ==
      if KnownGuild(guilds, guild) && (guild in pins || !HiddenIn(folders, guild, collapsed)) then 1 else 0
  {
    var byID := ByID(guilds);
    var pinned := PinnedRows(pins, byID);
    var foldered := AppendFolders(pinned, folders, byID, collapsed);
    assert KnownGuild(guilds, guild) <==> guild in byID by {
      if KnownGuild(guilds, guild) { var g :| g in guilds && g.id == guild; }
      if guild in byID { assert byID[guild] in guilds; }
    }
    PinnedShown(pins, byID, guild);
    hide PinnedRows, AppendFolders, AppendRest, Shown, ByID, GroupIndex, Members;
    if GroupIndex(folders, guild) >= 0 { GroupFinds(folders, guild); }
    if guild in byID && guild !in pins {
      FoldersShown(pinned, folders, byID, collapsed, guild);
    } else {
      FoldersSkip(pinned, folders, byID, collapsed, guild);
    }
    RestShown(foldered, guilds, guild);
  }

  /** On a layout that is a partition: every guild exactly once, unless it is unpinned and its
      own folder is collapsed. */
  lemma LayoutShownOnce(folders: seq<Folder>, guilds: seq<Guild>, ids: seq<nat>, pins: seq<nat>,
      collapsed: set<FolderID>,
                        k: nat, guild: nat)
    requires Layout(folders, ids) && KnownGuild(guilds, guild) && k < |folders| && guild in folders[k].guilds
    ensures Shown(Order(folders, guilds, pins, collapsed), guild) ==
      if guild in pins || BareFolder(folders[k]) || folders[k].id !in collapsed then 1 else 0
  {
    hide Order, Shown;
    ShownExactlyOnce(folders, guilds, pins, collapsed, guild);
    OnlyGroup(folders, k, guild);
  }

  lemma {:induction false} OnlyGroup(folders: seq<Folder>, k: nat, guild: nat)
    requires Distinct(Members(folders)) && k < |folders| && guild in folders[k].guilds
    ensures GroupIndex(folders, guild) == k
  {
    hide Members, Places, PlacesIn, GroupIndex, Index;
    var a, f, b := folders[..k], folders[k], folders[k + 1..];
    SplitAt(folders, k);
    PlacesAppend(a, [f] + b);
    Cons(f, b);
    SplitDistinct(Members(a), f.guilds + Members(b));
    assert guild in f.guilds + Members(b);
    BeforeGroup(a, [f] + b, guild);
    FindCons(f, b, guild);
  }

  lemma {:induction false} BeforeGroup(a: seq<Folder>, b: seq<Folder>, guild: nat)
    requires guild !in Members(a)
    ensures GroupIndex(a + b, guild) == if GroupIndex(b, guild) < 0 then -1 else |a| + GroupIndex(b, guild)
  {
    if a == [] {
      assert a + b == b;
    } else {
      BeforeGroup(a[1..], b, guild);
      assert (a + b)[1..] == a[1..] + b;
    }
  }

  /** Pinned guilds come first, in the order of the pins, and no later row is pinned. */
  lemma PinsComeFirst(folders: seq<Folder>, guilds: seq<Guild>, pins: seq<nat>, collapsed: set<FolderID>)
    ensures var first := PinnedRows(pins, ByID(guilds)).rows;
            var rows := Order(folders, guilds, pins, collapsed);
            first <= rows && (forall i :: 0 <= i < |rows| ==> (rows[i].pinned <==> i < |first|)) &&
            Subsequence(Guilded(first), pins)
  {
    var byID := ByID(guilds);
    var pinned := PinnedRows(pins, byID);
    PinsInOrder(pins, byID);
    AllPinned(pins, byID);
    hide PinnedRows, AppendFolders, AppendRest, Subsequence, ByID;
    FoldersExtend(pinned, folders, byID, collapsed);
    RestExtends(AppendFolders(pinned, folders, byID, collapsed), guilds);
  }

  function Guilded(rows: seq<Row>): (g: seq<nat>)
    ensures |g| == |rows|
  {
    seq(|rows|, i requires 0 <= i < |rows| => rows[i].guild)
  }

  predicate Subsequence<T(==)>(a: seq<T>, b: seq<T>) {
    a == [] ||
    (b != [] &&
     if a[|a| - 1] == b[|b| - 1] then Subsequence(a[..|a| - 1], b[..|b| - 1]) else Subsequence(a, b[..|b| - 1]))
  }

  /** Rows were only added, none of them pinned. */
  predicate Extends(r: Rail, r': Rail) {
    r.rows <= r'.rows && forall i :: |r.rows| <= i < |r'.rows| ==> !r'.rows[i].pinned
  }

  predicate PinnedOnly(rows: seq<Row>) { forall i :: 0 <= i < |rows| ==> rows[i].pinned }

  lemma {:induction false} AllPinned(pins: seq<nat>, byID: map<nat, Guild>)
    ensures PinnedOnly(PinnedRows(pins, byID).rows)
  {
    if pins != [] { AllPinned(pins[..|pins| - 1], byID); }
  }

  lemma {:induction false} PinsInOrder(pins: seq<nat>, byID: map<nat, Guild>)
    requires forall id :: id in byID ==> byID[id].id == id
    ensures Subsequence(Guilded(PinnedRows(pins, byID).rows), pins)
  {
    if pins != [] {
      var n := |pins| - 1;
      PinsInOrder(pins[..n], byID);
      var init := PinnedRows(pins[..n], byID);
      var g := Guilded(init.rows);
      if pins[n] !in init.done && pins[n] in byID {
        GuildedSnoc(init.rows, GuildRow(byID[pins[n]], false, true, 0));
        assert (g + [pins[n]])[..|g|] == g;
      } else if g != [] && g[|g| - 1] == pins[n] {
        SubsequenceShrinks(g, pins[..n]);
      }
    }
  }

  lemma GuildedSnoc(rows: seq<Row>, row: Row)
    ensures Guilded(rows + [row]) == Guilded(rows) + [row.guild]
  {
  }

  lemma {:induction false} SubsequenceShrinks(a: seq<nat>, b: seq<nat>)
    requires Subsequence(a, b) && a != []
    ensures Subsequence(a[..|a| - 1], b)
  {
    var a' := a[..|a| - 1];
    if a' != [] {
      if a[|a| - 1] != b[|b| - 1] { SubsequenceShrinks(a, b[..|b| - 1]); }
      if a'[|a'| - 1] == b[|b| - 1] && a[|a| - 1] == b[|b| - 1] { SubsequenceShrinks(a', b[..|b| - 1]); }
      if a'[|a'| - 1] == b[|b| - 1] && a[|a| - 1] != b[|b| - 1] { SubsequenceShrinks(a', b[..|b| - 1]); }
    }
  }

  lemma {:induction false} AllExtend(r: Rail, ids: seq<nat>, byID: map<nat, Guild>, folderID: FolderID)
    ensures Extends(r, AppendAll(r, ids, byID, folderID))
  {
    if ids != [] { AllExtend(r, ids[..|ids| - 1], byID, folderID); }
  }

  lemma {:induction false} FoldersExtend(r: Rail, folders: seq<Folder>, byID: map<nat, Guild>, collapsed: set<FolderID>)
    ensures Extends(r, AppendFolders(r, folders, byID, collapsed))
  {
    if folders != [] {
      var n := |folders| - 1;
      FoldersExtend(r, folders[..n], byID, collapsed);
      var init, f := AppendFolders(r, folders[..n], byID, collapsed), folders[n];
      AllExtend(init.(rows := init.rows + [Header(f, false)]), f.guilds, byID, f.id);
    }
  }

  lemma {:induction false} RestExtends(r: Rail, guilds: seq<Guild>)
    ensures Extends(r, AppendRest(r, guilds))
  {
    if guilds != [] { RestExtends(r, guilds[..|guilds| - 1]); }
  }

  // ---- the method

  method OrderGuilds(folders: seq<Folder>, guilds: seq<Guild>, pins: seq<nat>, collapsed: set<FolderID>)
    returns (rows: seq<Row>)
    ensures rows == Order(folders, guilds, pins, collapsed)
  {
    var byID: map<nat, Guild> := map[];
    for i := 0 to |guilds|
      invariant byID == ByID(guilds[..i])
    {
      assert guilds[..i + 1][..i] == guilds[..i];
      byID := byID[guilds[i].id := guilds[i]];
    }
    assert guilds[..|guilds|] == guilds;
    var rail := Rail([], {});
    for i := 0 to |pins|
      invariant rail == PinnedRows(pins[..i], byID)
    {
      assert pins[..i + 1][..i] == pins[..i];
      if pins[i] !in rail.done && pins[i] in byID {
        rail := Rail(rail.rows + [GuildRow(byID[pins[i]], false, true, 0)], rail.done + {pins[i]});
      }
    }
    assert pins[..|pins|] == pins;
    ghost var pinned := rail;
    for i := 0 to |folders|
      invariant rail == AppendFolders(pinned, folders[..i], byID, collapsed)
    {
      assert folders[..i + 1][..i] == folders[..i];
      rail := OrderFolder(rail, folders[i], byID, collapsed);
    }
    assert folders[..|folders|] == folders;
    ghost var foldered := rail;
    for i := 0 to |guilds|
      invariant rail == AppendRest(foldered, guilds[..i])
    {
      assert guilds[..i + 1][..i] == guilds[..i];
      rail := AppendGuild(rail, guilds[i], false, 0);
    }
    rows := rail.rows;
  }

  method OrderFolder(rail: Rail, f: Folder, byID: map<nat, Guild>, collapsed: set<FolderID>) returns (r: Rail)
    ensures r == AppendFolder(rail, f, byID, collapsed)
  {
    r := rail;
    if BareFolder(f) {
      if f.guilds[0] in byID { r := AppendGuild(r, byID[f.guilds[0]], false, 0); }
      return;
    }
    r := r.(rows := r.rows + [Header(f, f.id in collapsed)]);
    ghost var headed := r;
    if f.id in collapsed {
      for i := 0 to |f.guilds|
        invariant r == HideAll(headed, f.guilds[..i], byID)
      {
        if f.guilds[i] in byID { r := r.(done := r.done + {f.guilds[i]}); }
        HideNext(headed, f.guilds, i, byID);
      }
      assert f.guilds[..|f.guilds|] == f.guilds;
      return;
    }
    for i := 0 to |f.guilds|
      invariant r == AppendAll(headed, f.guilds[..i], byID, f.id)
    {
      assert f.guilds[..i + 1][..i] == f.guilds[..i];
      if f.guilds[i] in byID { r := AppendGuild(r, byID[f.guilds[i]], true, f.id); }
    }
    assert f.guilds[..|f.guilds|] == f.guilds;
  }

  lemma HideNext(r: Rail, ids: seq<nat>, i: nat, byID: map<nat, Guild>)
    requires i < |ids|
    ensures HideAll(r, ids[..i + 1], byID).rows == r.rows
    ensures HideAll(r, ids[..i + 1], byID).done ==
            HideAll(r, ids[..i], byID).done + if ids[i] in byID then {ids[i]} else {}
  {
    assert ids[..i + 1] == ids[..i] + [ids[i]];
  }
}
