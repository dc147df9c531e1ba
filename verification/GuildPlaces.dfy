/** Where each row of the guild rail comes from, and in which order the rows stand. */
module GuildPlaces {
  import opened GuildGroups
  import opened GuildOrder

  /** The pins, then the folders with their headers in front, then the guilds of no folder. */
  datatype Place = Pin(i: nat) | Head(k: nat) | Member(k: nat, j: nat) | Rest(i: nat)

  function Tier(p: Place): nat { match p case Pin(_) => 0 case Head(_) => 1 case Member(_, _) => 1 case Rest(_) => 2 }

  function Group(p: Place): nat { match p case Pin(i) => i case Head(k) => k case Member(k, _) => k case Rest(i) => i }

  function Within(p: Place): nat { match p case Member(_, j) => j + 1 case _ => 0 }

  predicate Above(p: Place, q: Place) {
    Tier(p) < Tier(q) ||
    (Tier(p) == Tier(q) && (Group(p) < Group(q) || (Group(p) == Group(q) && Within(p) < Within(q))))
  }

  /** The name by which the guilds last list an id. */
  ghost predicate Named(guilds: seq<Guild>, id: nat, name: string) {
    exists k: nat :: k < |guilds| && guilds[k].id == id && guilds[k].name == name &&
      forall l :: k < l < |guilds| ==> guilds[l].id != id
  }

  /** Pinned, in an earlier folder, or earlier in this one. */
  predicate Taken(folders: seq<Folder>, pins: seq<nat>, k: nat, j: nat, id: nat)
    requires k < |folders| && j <= |folders[k].guilds|
  {
    id in pins || (exists l :: 0 <= l < k && id in folders[l].guilds) || id in folders[k].guilds[..j]
  }

  predicate Bare(f: Folder) { f.name == "" && f.id == 0 && |f.guilds| == 1 }

  /** What a row at a place is. */
  ghost predicate Stands(row: Row, p: Place, folders: seq<Folder>, guilds: seq<Guild>, pins: seq<nat>,
      collapsed: set<FolderID>)
  {
    match p
    case Pin(i) =>
      i < |pins| && pins[i] !in pins[..i] && Named(guilds, pins[i], row.name) &&
      row == Row(false, row.name, 0, false, false, true, pins[i], 0)
    case Head(k) =>
      k < |folders| && !Bare(folders[k]) &&
      row == Row(true, if folders[k].name == "" then "Group" else folders[k].name, folders[k].color,
                 folders[k].id in collapsed, false, false, 0, folders[k].id)
    case Member(k, j) =>
      k < |folders| && j < |folders[k].guilds| && Named(guilds, folders[k].guilds[j], row.name) &&
      !Taken(folders, pins, k, j, folders[k].guilds[j]) &&
      (if Bare(folders[k]) then row == Row(false, row.name, 0, false, false, false, folders[k].guilds[j], 0)
       else folders[k].id !in collapsed &&
            row == Row(false, row.name, 0, false, true, false, folders[k].guilds[j], folders[k].id))
    case Rest(i) =>
      i < |guilds| && guilds[i].id !in pins && (forall f :: f in folders ==> guilds[i].id !in f.guilds) &&
      (forall l :: 0 <= l < i ==> guilds[l].id != guilds[i].id) &&
      row == Row(false, guilds[i].name, 0, false, false, false, guilds[i].id, 0)
  }

  ghost predicate AllStand(rows: seq<Row>, at: seq<Place>, folders: seq<Folder>, guilds: seq<Guild>, pins: seq<nat>,
      collapsed: set<FolderID>)
  {
    |at| == |rows| && forall i :: 0 <= i < |rows| ==> Stands(rows[i], at[i], folders, guilds, pins, collapsed)
  }

  predicate Descends(at: seq<Place>) { forall i, j :: 0 <= i < j < |at| ==> Above(at[i], at[j]) }

  predicate Ends(at: seq<Place>, bound: Place) { forall p :: p in at ==> Above(p, bound) }

  lemma Further(at: seq<Place>, p: Place)
    requires Descends(at) && Ends(at, p)
    ensures Descends(at + [p])
  {
    forall i, j | 0 <= i < j < |at| + 1
      ensures Above((at + [p])[i], (at + [p])[j])
    {
      if j == |at| { assert at[i] in at; }
    }
  }

  lemma Later(at: seq<Place>, p: Place, bound: Place)
    requires Ends(at, p) && Above(p, bound)
    ensures Ends(at, bound) && Ends(at + [p], bound)
  {
    forall q | q in at
      ensures Above(q, bound)
    {
      assert Above(q, p);
    }
  }

  // ---- the passes

  lemma NamedEarlier(guilds: seq<Guild>, id: nat, name: string)
    requires guilds != [] && guilds[|guilds| - 1].id != id && Named(guilds[..|guilds| - 1], id, name)
    ensures Named(guilds, id, name)
  {
    var n := |guilds| - 1;
    var init := guilds[..n];
    var k: nat :| k < n && init[k].id == id && init[k].name == name && forall l :: k < l < n ==> init[l].id != id;
    assert forall l :: k < l < n ==> guilds[l] == init[l];
  }

  lemma ByIDStep(guilds: seq<Guild>, id: nat)
    requires guilds != [] && id in ByID(guilds)
    ensures var n := |guilds| - 1;
            if guilds[n].id == id then ByID(guilds)[id] == guilds[n]
            else id in ByID(guilds[..n]) && ByID(guilds)[id] == ByID(guilds[..n])[id]
  {
  }

  lemma {:induction false} NameOf(guilds: seq<Guild>, id: nat)
    requires id in ByID(guilds)
    ensures ByID(guilds)[id].id == id && Named(guilds, id, ByID(guilds)[id].name)
  {
    var n := |guilds| - 1;
    if guilds == [] {
    } else {
      ByIDStep(guilds, id);
      hide ByID;
      if guilds[n].id != id {
        NameOf(guilds[..n], id);
        hide Named;
        NamedEarlier(guilds, id, ByID(guilds)[id].name);
      } else {
        assert guilds[n].name == ByID(guilds)[id].name;
      }
    }
  }

  /** Guilds dealt with are the known ones among these. */
  ghost predicate Done(r: Rail, byID: map<nat, Guild>, seen: set<nat>) {
    forall id :: id in r.done <==> id in byID && id in seen
  }

  function Elements(ids: seq<nat>): set<nat> { set id | id in ids }

  lemma {:induction false} PinPlaces(folders: seq<Folder>, guilds: seq<Guild>, pins: seq<nat>,
      collapsed: set<FolderID>, n: nat) returns (at: seq<Place>)
    requires n <= |pins|
    ensures var r := PinnedRows(pins[..n], ByID(guilds));
            AllStand(r.rows, at, folders, guilds, pins, collapsed) && Done(r, ByID(guilds), Elements(pins[..n]))
    ensures Descends(at) && Ends(at, Pin(n))
  {
    at := [];
    if n > 0 {
      at := PinPlaces(folders, guilds, pins, collapsed, n - 1);
      assert pins[..n][..n - 1] == pins[..n - 1] && pins[..n] == pins[..n - 1] + [pins[n - 1]];
      var id := pins[n - 1];
      var init := PinnedRows(pins[..n - 1], ByID(guilds));
      if id !in init.done && id in ByID(guilds) {
        NameOf(guilds, id);
        Further(at, Pin(n - 1));
        Later(at, Pin(n - 1), Pin(n));
        at := at + [Pin(n - 1)];
      } else if n > 1 {
        EndsLater(at, Pin(n - 1), Pin(n));
      }
    }
  }

  lemma EndsLater(at: seq<Place>, p: Place, bound: Place)
    requires Ends(at, p) && Above(p, bound)
    ensures Ends(at, bound)
  {
    Later(at, p, bound);
  }

  /** Rows up to a bound, and what they dealt with. */
  ghost predicate Placed(r: Rail, at: seq<Place>, bound: Place, seen: set<nat>, folders: seq<Folder>,
      guilds: seq<Guild>, pins: seq<nat>, collapsed: set<FolderID>)
  {
    && AllStand(r.rows, at, folders, guilds, pins, collapsed)
    && Descends(at) && Ends(at, bound) && Done(r, ByID(guilds), seen)
  }

  lemma OneMore(r: Rail, at: seq<Place>, p: Place, bound: Place, seen: set<nat>, row: Row, id: nat,
      folders: seq<Folder>, guilds: seq<Guild>, pins: seq<nat>, collapsed: set<FolderID>)
    requires Placed(r, at, p, seen, folders, guilds, pins, collapsed) && Above(p, bound)
    requires Stands(row, p, folders, guilds, pins, collapsed) && id in ByID(guilds)
    ensures Placed(Rail(r.rows + [row], r.done + {id}), at + [p], bound, seen + {id}, folders, guilds, pins, collapsed)
  {
    Further(at, p);
    Later(at, p, bound);
  }

  lemma NoMore(r: Rail, at: seq<Place>, p: Place, bound: Place, seen: set<nat>, id: nat,
      folders: seq<Folder>, guilds: seq<Guild>, pins: seq<nat>, collapsed: set<FolderID>)
    requires Placed(r, at, p, seen, folders, guilds, pins, collapsed) && Above(p, bound)
    requires id !in ByID(guilds) || id in r.done
    ensures Placed(r, at, bound, seen + {id}, folders, guilds, pins, collapsed)
  {
    EndsLater(at, p, bound);
  }

  /** What the folders before the k-th, and the first j guilds of that one, list; with the pins. */
  function SeenUpTo(folders: seq<Folder>, pins: seq<nat>, k: nat, j: nat): set<nat>
    requires k < |folders| && j <= |folders[k].guilds|
  {
    Elements(pins) + (set l, id | 0 <= l < k && id in folders[l].guilds :: id) + Elements(folders[k].guilds[..j])
  }

  lemma SeenIsTaken(folders: seq<Folder>, pins: seq<nat>, k: nat, j: nat, id: nat)
    requires k < |folders| && j <= |folders[k].guilds|
    ensures id in SeenUpTo(folders, pins, k, j) <==> Taken(folders, pins, k, j, id)
  {
  }

  lemma SeenNext(folders: seq<Folder>, pins: seq<nat>, k: nat, j: nat)
    requires k < |folders| && j < |folders[k].guilds|
    ensures SeenUpTo(folders, pins, k, j + 1) == SeenUpTo(folders, pins, k, j) + {folders[k].guilds[j]}
  {
    var ids := folders[k].guilds;
    assert ids[..j + 1] == ids[..j] + [ids[j]];
  }

  /** The guilds of an open folder follow its header, those that are known and not taken. */
  lemma {:induction false} MemberPlaces(r: Rail, before: seq<Place>, k: nat, j: nat, folders: seq<Folder>,
      guilds: seq<Guild>, pins: seq<nat>, collapsed: set<FolderID>) returns (at: seq<Place>)
    requires k < |folders| && j <= |folders[k].guilds| && !Bare(folders[k]) && folders[k].id !in collapsed
    requires Placed(r, before, Member(k, 0), SeenUpTo(folders, pins, k, 0), folders, guilds, pins, collapsed)
    ensures Placed(AppendAll(r, folders[k].guilds[..j], ByID(guilds), folders[k].id), at, Member(k, j),
                   SeenUpTo(folders, pins, k, j), folders, guilds, pins, collapsed)
    ensures before <= at
    decreases j
  {
    var ids := folders[k].guilds;
    if j == 0 {
      assert ids[..0] == [];
      at := before;
    } else {
      at := MemberPlaces(r, before, k, j - 1, folders, guilds, pins, collapsed);
      var init := AppendAll(r, ids[..j - 1], ByID(guilds), folders[k].id);
      assert ids[..j][..j - 1] == ids[..j - 1];
      hide AppendAll, Placed;
      at := OneMember(init, at, k, j - 1, folders, guilds, pins, collapsed);
    }
  }

  lemma OneMember(r: Rail, before: seq<Place>, k: nat, j: nat, folders: seq<Folder>, guilds: seq<Guild>,
      pins: seq<nat>, collapsed: set<FolderID>) returns (at: seq<Place>)
    requires k < |folders| && j < |folders[k].guilds| && !Bare(folders[k]) && folders[k].id !in collapsed
    requires Placed(r, before, Member(k, j), SeenUpTo(folders, pins, k, j), folders, guilds, pins, collapsed)
    ensures var id := folders[k].guilds[j];
            Placed(if id in ByID(guilds) then AppendGuild(r, ByID(guilds)[id], true, folders[k].id) else r, at,
                   Member(k, j + 1), SeenUpTo(folders, pins, k, j + 1), folders, guilds, pins, collapsed)
    ensures before <= at
  {
    var id := folders[k].guilds[j];
    var p, bound := Member(k, j), Member(k, j + 1);
    var seen := SeenUpTo(folders, pins, k, j);
    SeenNext(folders, pins, k, j);
    SeenIsTaken(folders, pins, k, j, id);
    at := before;
    if id in ByID(guilds) && id !in r.done {
      NameOf(guilds, id);
      hide ByID, Named, SeenUpTo, Taken;
      var row := GuildRow(ByID(guilds)[id], true, false, folders[k].id);
      OneMore(r, at, p, bound, seen, row, id, folders, guilds, pins, collapsed);
      at := at + [p];
    } else {
      if id in ByID(guilds) { NameOf(guilds, id); }
      NoMore(r, at, p, bound, seen, id, folders, guilds, pins, collapsed);
    }
  }

  function SeenBefore(folders: seq<Folder>, pins: seq<nat>, k: nat): set<nat>
    requires k <= |folders|
  {
    Elements(pins) + set l, id | 0 <= l < k && id in folders[l].guilds :: id
  }

  lemma SeenSteps(folders: seq<Folder>, pins: seq<nat>, k: nat)
    requires k < |folders|
    ensures SeenUpTo(folders, pins, k, 0) == SeenBefore(folders, pins, k)
    ensures SeenUpTo(folders, pins, k, |folders[k].guilds|) == SeenBefore(folders, pins, k + 1)
    ensures SeenBefore(folders, pins, k + 1) == SeenBefore(folders, pins, k) + Elements(folders[k].guilds)
  {
    assert folders[k].guilds[..0] == [] && folders[k].guilds[..|folders[k].guilds|] == folders[k].guilds;
  }

  lemma PlacedLater(r: Rail, at: seq<Place>, p: Place, q: Place, seen: set<nat>, folders: seq<Folder>,
      guilds: seq<Guild>, pins: seq<nat>, collapsed: set<FolderID>)
    requires Placed(r, at, p, seen, folders, guilds, pins, collapsed) && Above(p, q)
    ensures Placed(r, at, q, seen, folders, guilds, pins, collapsed)
  {
    EndsLater(at, p, q);
  }

  /** One folder: a bare guild, or a header and, when it is open, its guilds. */
  lemma FolderPlaces(r: Rail, before: seq<Place>, k: nat, folders: seq<Folder>, guilds: seq<Guild>, pins: seq<nat>,
      collapsed: set<FolderID>) returns (at: seq<Place>)
    requires k < |folders|
    requires Placed(r, before, Head(k), SeenBefore(folders, pins, k), folders, guilds, pins, collapsed)
    ensures Placed(AppendFolder(r, folders[k], ByID(guilds), collapsed), at, Head(k + 1),
                   SeenBefore(folders, pins, k + 1), folders, guilds, pins, collapsed)
    ensures before <= at && (!Bare(folders[k]) ==> Head(k) in at)
  {
    var f := folders[k];
    SeenSteps(folders, pins, k);
    if Bare(f) {
      at := BarePlace(r, before, k, folders, guilds, pins, collapsed);
    } else {
      var headed := r.(rows := r.rows + [Header(f, f.id in collapsed)]);
      var first := HeadPlace(r, before, k, folders, guilds, pins, collapsed);
      assert Head(k) == first[|first| - 1];
      at := first;
      if f.id in collapsed {
        HiddenPlaces(headed, at, k, folders, guilds, pins, collapsed);
      } else {
        hide Placed, AppendAll, SeenUpTo, SeenBefore;
        at := MemberPlaces(headed, first, k, |f.guilds|, folders, guilds, pins, collapsed);
        assert f.guilds[..|f.guilds|] == f.guilds && at[|first| - 1] == Head(k);
        PlacedLater(AppendFolder(r, f, ByID(guilds), collapsed), at, Member(k, |f.guilds|), Head(k + 1),
                    SeenBefore(folders, pins, k + 1), folders, guilds, pins, collapsed);
      }
    }
  }

  lemma HeadPlace(r: Rail, before: seq<Place>, k: nat, folders: seq<Folder>, guilds: seq<Guild>, pins: seq<nat>,
      collapsed: set<FolderID>) returns (at: seq<Place>)
    requires k < |folders| && !Bare(folders[k])
    requires Placed(r, before, Head(k), SeenBefore(folders, pins, k), folders, guilds, pins, collapsed)
    ensures at == before + [Head(k)]
    ensures Placed(r.(rows := r.rows + [Header(folders[k], folders[k].id in collapsed)]), at, Member(k, 0),
                   SeenBefore(folders, pins, k), folders, guilds, pins, collapsed)
  {
    at := before + [Head(k)];
    Further(before, Head(k));
    Later(before, Head(k), Member(k, 0));
  }

  lemma HiddenPlaces(r: Rail, at: seq<Place>, k: nat, folders: seq<Folder>, guilds: seq<Guild>, pins: seq<nat>,
      collapsed: set<FolderID>)
    requires k < |folders|
    requires Placed(r, at, Member(k, 0), SeenBefore(folders, pins, k), folders, guilds, pins, collapsed)
    ensures Placed(HideAll(r, folders[k].guilds, ByID(guilds)), at, Head(k + 1), SeenBefore(folders, pins, k + 1),
                   folders, guilds, pins, collapsed)
  {
    SeenSteps(folders, pins, k);
    EndsLater(at, Member(k, 0), Head(k + 1));
  }

  lemma BarePlace(r: Rail, before: seq<Place>, k: nat, folders: seq<Folder>, guilds: seq<Guild>, pins: seq<nat>,
      collapsed: set<FolderID>) returns (at: seq<Place>)
    requires k < |folders| && Bare(folders[k])
    requires Placed(r, before, Head(k), SeenBefore(folders, pins, k), folders, guilds, pins, collapsed)
    ensures var id := folders[k].guilds[0];
            Placed(if id in ByID(guilds) then AppendGuild(r, ByID(guilds)[id], false, 0) else r, at, Head(k + 1),
                   SeenBefore(folders, pins, k + 1), folders, guilds, pins, collapsed)
    ensures before <= at
  {
    var id := folders[k].guilds[0];
    var p, bound := Member(k, 0), Head(k + 1);
    var seen := SeenBefore(folders, pins, k);
    SeenSteps(folders, pins, k);
    SeenIsTaken(folders, pins, k, 0, id);
    assert Elements(folders[k].guilds) == {id} by { assert folders[k].guilds == [id]; }
    EndsLater(before, Head(k), p);
    at := before;
    if id in ByID(guilds) && id !in r.done {
      NameOf(guilds, id);
      hide ByID, Named, Taken, SeenBefore;
      OneMore(r, at, p, bound, seen, GuildRow(ByID(guilds)[id], false, false, 0), id, folders, guilds, pins, collapsed);
      at := at + [p];
    } else {
      if id in ByID(guilds) { NameOf(guilds, id); }
      NoMore(r, at, p, bound, seen, id, folders, guilds, pins, collapsed);
    }
  }

  ghost predicate Headed(at: seq<Place>, folders: seq<Folder>, n: nat)
    requires n <= |folders|
  {
    forall k :: 0 <= k < n && !Bare(folders[k]) ==> Head(k) in at
  }

  lemma {:induction false} FoldersPlaces(r: Rail, before: seq<Place>, n: nat, folders: seq<Folder>, guilds: seq<Guild>,
      pins: seq<nat>, collapsed: set<FolderID>) returns (at: seq<Place>)
    requires n <= |folders|
    requires Placed(r, before, Head(0), SeenBefore(folders, pins, 0), folders, guilds, pins, collapsed)
    ensures Placed(AppendFolders(r, folders[..n], ByID(guilds), collapsed), at, Head(n),
                   SeenBefore(folders, pins, n), folders, guilds, pins, collapsed)
    ensures before <= at && Headed(at, folders, n)
    decreases n
  {
    if n == 0 {
      assert folders[..0] == [];
      at := before;
    } else {
      var first := FoldersPlaces(r, before, n - 1, folders, guilds, pins, collapsed);
      assert folders[..n][..n - 1] == folders[..n - 1] && folders[..n][n - 1] == folders[n - 1];
      var init := AppendFolders(r, folders[..n - 1], ByID(guilds), collapsed);
      assert AppendFolders(r, folders[..n], ByID(guilds), collapsed) ==
        AppendFolder(init, folders[n - 1], ByID(guilds), collapsed);
      hide *;
      at := FolderPlaces(init, first, n - 1, folders, guilds, pins, collapsed);
      HeadedNext(first, at, folders, n - 1);
    }
  }

  lemma HeadedNext(first: seq<Place>, at: seq<Place>, folders: seq<Folder>, n: nat)
    requires n < |folders| && Headed(first, folders, n) && first <= at && (!Bare(folders[n]) ==> Head(n) in at)
    ensures Headed(at, folders, n + 1)
  {
    hide Bare;
    forall k | 0 <= k < n && !Bare(folders[k])
      ensures Head(k) in at
    {
      assert Head(k) in first;
    }
  }

  // ---- the guilds of no folder

  lemma {:induction false} RestPlaces(r: Rail, before: seq<Place>, n: nat, folders: seq<Folder>, guilds: seq<Guild>,
      pins: seq<nat>, collapsed: set<FolderID>) returns (at: seq<Place>)
    requires n <= |guilds|
    requires Placed(r, before, Rest(0), SeenBefore(folders, pins, |folders|), folders, guilds, pins, collapsed)
    ensures Placed(AppendRest(r, guilds[..n]), at, Rest(n),
                   SeenBefore(folders, pins, |folders|) + IdsOf(guilds[..n]),
                   folders, guilds, pins, collapsed)
    ensures before <= at
    decreases n
  {
    if n == 0 {
      assert guilds[..0] == [];
      assert SeenBefore(folders, pins, |folders|) + IdsOf([]) == SeenBefore(folders, pins, |folders|);
      at := before;
    } else {
      at := RestPlaces(r, before, n - 1, folders, guilds, pins, collapsed);
      var init := AppendRest(r, guilds[..n - 1]);
      assert guilds[..n][..n - 1] == guilds[..n - 1] && guilds[..n] == guilds[..n - 1] + [guilds[n - 1]];
      assert AppendRest(r, guilds[..n]) == AppendGuild(init, guilds[n - 1], false, 0);
      hide *;
      at := OneRest(init, at, n - 1, folders, guilds, pins, collapsed);
    }
  }

  lemma OneRest(r: Rail, before: seq<Place>, i: nat, folders: seq<Folder>, guilds: seq<Guild>, pins: seq<nat>,
      collapsed: set<FolderID>) returns (at: seq<Place>)
    requires i < |guilds|
    requires Placed(r, before, Rest(i), SeenBefore(folders, pins, |folders|) + IdsOf(guilds[..i]),
                    folders, guilds, pins, collapsed)
    ensures Placed(AppendGuild(r, guilds[i], false, 0), at, Rest(i + 1),
                   SeenBefore(folders, pins, |folders|) + IdsOf(guilds[..i + 1]),
                   folders, guilds, pins, collapsed)
    ensures before <= at
  {
    var g := guilds[i];
    var seen := SeenBefore(folders, pins, |folders|) + IdsOf(guilds[..i]);
    IdsNext(guilds, i);
    assert seen + {g.id} == SeenBefore(folders, pins, |folders|) + IdsOf(guilds[..i + 1]);
    assert g in guilds && g.id in ByID(guilds);
    at := before;
    hide SeenBefore, IdsOf;
    if g.id !in r.done {
      assert g.id !in seen;
      RestStands(folders, guilds, pins, collapsed, i);
      hide ByID, Stands, Placed;
      OneMore(r, at, Rest(i), Rest(i + 1), seen, GuildRow(g, false, false, 0), g.id, folders, guilds, pins, collapsed);
      at := at + [Rest(i)];
    } else {
      hide ByID, Placed;
      NoMore(r, at, Rest(i), Rest(i + 1), seen, g.id, folders, guilds, pins, collapsed);
    }
  }

  lemma RestStands(folders: seq<Folder>, guilds: seq<Guild>, pins: seq<nat>, collapsed: set<FolderID>, i: nat)
    requires i < |guilds| && guilds[i].id !in SeenBefore(folders, pins, |folders|) + IdsOf(guilds[..i])
    ensures Stands(GuildRow(guilds[i], false, false, 0), Rest(i), folders, guilds, pins, collapsed)
  {
    NotSeen(folders, guilds, pins, i);
  }

  function IdsOf(guilds: seq<Guild>): set<nat> { set g | g in guilds :: g.id }

  lemma IdsNext(guilds: seq<Guild>, i: nat)
    requires i < |guilds|
    ensures IdsOf(guilds[..i + 1]) == IdsOf(guilds[..i]) + {guilds[i].id}
  {
    assert guilds[..i + 1] == guilds[..i] + [guilds[i]];
  }

  lemma FolderSeen(folders: seq<Folder>, pins: seq<nat>, l: nat, id: nat)
    requires l < |folders| && id in folders[l].guilds
    ensures id in SeenBefore(folders, pins, |folders|)
  {
  }

  lemma EarlierSeen(guilds: seq<Guild>, i: nat, l: nat)
    requires l < i <= |guilds|
    ensures guilds[l].id in IdsOf(guilds[..i])
  {
    assert guilds[l] in guilds[..i];
  }

  lemma NotSeen(folders: seq<Folder>, guilds: seq<Guild>, pins: seq<nat>, i: nat)
    requires i < |guilds| && guilds[i].id !in SeenBefore(folders, pins, |folders|) + IdsOf(guilds[..i])
    ensures guilds[i].id !in pins && (forall f :: f in folders ==> guilds[i].id !in f.guilds)
    ensures forall l :: 0 <= l < i ==> guilds[l].id != guilds[i].id
  {
    var id := guilds[i].id;
    assert id !in Elements(pins);
    hide SeenBefore, IdsOf;
    forall l | 0 <= l < |folders|
      ensures id !in folders[l].guilds
    {
      if id in folders[l].guilds { FolderSeen(folders, pins, l, id); }
    }
    forall l | 0 <= l < i
      ensures guilds[l].id != id
    {
      EarlierSeen(guilds, i, l);
    }
  }

  /** The rows of the rail descend through their places: pins in their order, then folder after folder, each
      one's header above its guilds in its order unless it is bare or collapsed, then the guilds of no folder;
      each row is what its place says, and every folder that is not bare has its header. */
  lemma RowsDescend(folders: seq<Folder>, guilds: seq<Guild>, pins: seq<nat>, collapsed: set<FolderID>)
      returns (at: seq<Place>)
    ensures AllStand(Order(folders, guilds, pins, collapsed), at, folders, guilds, pins, collapsed) && Descends(at)
    ensures forall k :: 0 <= k < |folders| && !Bare(folders[k]) ==> Head(k) in at
  {
    var byID := ByID(guilds);
    at := PinPlaces(folders, guilds, pins, collapsed, |pins|);
    assert pins[..|pins|] == pins && folders[..|folders|] == folders && guilds[..|guilds|] == guilds;
    assert SeenBefore(folders, pins, 0) == Elements(pins);
    EndsLater(at, Pin(|pins|), Head(0));
    var pinned := PinnedRows(pins, byID);
    hide ByID, PinnedRows, AppendFolders, AppendRest, Stands;
    at := FoldersPlaces(pinned, at, |folders|, folders, guilds, pins, collapsed);
    EndsLater(at, Head(|folders|), Rest(0));
    var headed := at;
    at := RestPlaces(AppendFolders(pinned, folders, byID, collapsed), at, |guilds|, folders, guilds, pins, collapsed);
    assert forall p :: p in headed ==> p in at;
  }
}
