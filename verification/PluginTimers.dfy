/** internal/plugin/timers.go: timers and their stop channels, which must not be closed twice. */
module PluginTimers {
  import opened Collections

  class TimerEntry {
    const owner: nat
    var stopped: bool

    constructor (owner: nat)
      ensures this.owner == owner && !stopped
    {
      this.owner, stopped := owner, false;
    }

    /** Closing a closed channel panics. */
    method CloseStop()
      requires !stopped
      modifies this
      ensures stopped
    {
      stopped := true;
    }
  }

  function WithoutOwner(entries: seq<TimerEntry>, owner: nat): seq<TimerEntry> {
    if entries == [] then []
    else
      var n := |entries| - 1;
      if entries[n].owner == owner then WithoutOwner(entries[..n], owner)
        else WithoutOwner(entries[..n], owner) + [entries[n]]
  }

  lemma {:induction false} WithoutOwnerIs(entries: seq<TimerEntry>, owner: nat)
    ensures forall e :: e in WithoutOwner(entries, owner) <==> e in entries && e.owner != owner
  {
    if entries != [] {
      WithoutOwnerIs(entries[..|entries| - 1], owner);
      assert entries == entries[..|entries| - 1] + [entries[|entries| - 1]];
    }
  }

  class TimerRegistry {
    var entries: seq<TimerEntry>
    /** Every entry there ever was. */
    ghost var made: set<TimerEntry>

    /** An entry is listed exactly as long as its stop channel is open, and listed once. */
    ghost predicate Valid()
      reads this, made
    {
      (forall e :: e in entries ==> e in made) &&
      (forall e :: e in made ==> (e in entries <==> !e.stopped)) &&
      Distinct(entries)
    }

    constructor ()
      ensures Valid() && entries == [] && made == {}
    {
      entries, made := [], {};
    }

    method Every(owner: nat) returns (e: TimerEntry)
      requires Valid()
      modifies this
      ensures Valid() && fresh(e) && e.owner == owner && !e.stopped
      ensures entries == old(entries) + [e] && made == old(made) + {e}
    {
      e := new TimerEntry(owner);
      entries := entries + [e];
      made := made + {e};
    }

    /** Stops exactly the owner's timers, each by closing its channel once. */
    method RollbackOwner(owner: nat)
      requires Valid()
      modifies this, made
      ensures Valid() && made == old(made)
      ensures entries == WithoutOwner(old(entries), owner)
      ensures forall e :: e in made ==> e.stopped == (old(e.stopped) || e.owner == owner)
    {
      var kept: seq<TimerEntry> := [];
      ghost var before := entries;
      for i := 0 to |entries|
        invariant entries == before && made == old(made) && kept == WithoutOwner(before[..i], owner)
        invariant forall j :: i <= j < |before| ==> !before[j].stopped
        invariant forall e :: e in made ==> e.stopped == (old(e.stopped) || (e in before[..i] && e.owner == owner))
      {
        assert before[..i + 1] == before[..i] + [before[i]];
        assert before[..i + 1][..i] == before[..i];
        assert before[i] in before && before[i] in made;
        if entries[i].owner == owner {
          entries[i].CloseStop();
        } else {
          kept := kept + [entries[i]];
        }
      }
      assert before[..|before|] == before;
      entries := kept;
      WithoutOwnerIs(before, owner);
      WithoutOwnerOnce(before, owner);
    }

    method Close()
      requires Valid()
      modifies this, made
      ensures Valid() && made == old(made) && entries == [] && forall e :: e in made ==> e.stopped
    {
      ghost var before := entries;
      for i := 0 to |entries|
        invariant entries == before && made == old(made)
        invariant forall j :: i <= j < |before| ==> !before[j].stopped
        invariant forall e :: e in made ==> e.stopped == (old(e.stopped) || e in before[..i])
      {
        assert before[..i + 1] == before[..i] + [before[i]];
        assert before[i] in before && before[i] in made;
        entries[i].CloseStop();
      }
      assert before[..|before|] == before;
      entries := [];
    }
  }

  lemma {:induction false} WithoutOwnerOnce(entries: seq<TimerEntry>, owner: nat)
    requires Distinct(entries)
    ensures Distinct(WithoutOwner(entries, owner))
  {
    if entries != [] {
      var n := |entries| - 1;
      WithoutOwnerOnce(entries[..n], owner);
      WithoutOwnerIs(entries[..n], owner);
      var r := WithoutOwner(entries[..n], owner);
      assert forall i :: 0 <= i < |r| ==> r[i] in r;
      assert entries[n] !in entries[..n];
    }
  }
}
