/** internal/plugin: the command, key, theme and event registries, which share one shape: per
    name a stack of registrations, each owned by the plugin state that made it. */
module PluginRegistry {
  import opened Collections

  datatype Owned<V> = Owned(owner: nat, value: V)

  type Stacks<K, V> = map<K, seq<Owned<V>>>

  datatype Op<K, V> = Add(key: K, entry: Owned<V>) | Rollback(owner: nat)

  function StackOf<K, V>(stacks: Stacks<K, V>, key: K): seq<Owned<V>> { if key in stacks then stacks[key] else [] }

  /** A stack without an owner's entries, the others in their order. */
  function Without<V>(stack: seq<Owned<V>>, owner: nat): seq<Owned<V>> {
    if stack == [] then []
    else
      var n := |stack| - 1;
      if stack[n].owner == owner then Without(stack[..n], owner) else Without(stack[..n], owner) + [stack[n]]
  }

  function RolledBack<K, V>(stacks: Stacks<K, V>, owner: nat): Stacks<K, V> {
    map k | k in stacks && Without(stacks[k], owner) != [] :: Without(stacks[k], owner)
  }

  function Added<K, V>(stacks: Stacks<K, V>, key: K, entry: Owned<V>): Stacks<K, V> {
    stacks[key := StackOf(stacks, key) + [entry]]
  }

  function Run<K, V>(ops: seq<Op<K, V>>): Stacks<K, V> {
    if ops == [] then map[]
    else
      var before := Run(ops[..|ops| - 1]);
      match ops[|ops| - 1]
      case Add(key, entry) => Added(before, key, entry)
      case Rollback(owner) => RolledBack(before, owner)
  }

  /** The same run had the owner never registered anything. */
  function Unregistered<K, V>(ops: seq<Op<K, V>>, owner: nat): seq<Op<K, V>> {
    if ops == [] then []
    else
      var n := |ops| - 1;
      if ops[n].Add? && ops[n].entry.owner == owner then Unregistered(ops[..n], owner)
      else Unregistered(ops[..n], owner) + [ops[n]]
  }

  lemma WithoutSnoc<V>(stack: seq<Owned<V>>, e: Owned<V>, owner: nat)
    ensures Without(stack + [e], owner) ==
      if e.owner == owner then Without(stack, owner) else Without(stack, owner) + [e]
  {
    assert (stack + [e])[..|stack|] == stack;
  }

  lemma {:induction false} WithoutCommutes<V>(stack: seq<Owned<V>>, a: nat, b: nat)
    ensures Without(Without(stack, a), b) == Without(Without(stack, b), a)
  {
    if stack != [] {
      var n := |stack| - 1;
      WithoutCommutes(stack[..n], a, b);
      WithoutSnoc(Without(stack[..n], a), stack[n], b);
      WithoutSnoc(Without(stack[..n], b), stack[n], a);
    }
  }

  lemma RollbackSkipsOwn<K, V>(stacks: Stacks<K, V>, key: K, e: Owned<V>)
    ensures RolledBack(Added(stacks, key, e), e.owner) == RolledBack(stacks, e.owner)
  {
    WithoutSnoc(StackOf(stacks, key), e, e.owner);
    NoneWithout<V>(e.owner);
    hide Without;
  }

  lemma RollbackKeepsOthers<K, V>(stacks: Stacks<K, V>, key: K, e: Owned<V>, owner: nat)
    requires e.owner != owner
    ensures RolledBack(Added(stacks, key, e), owner) == Added(RolledBack(stacks, owner), key, e)
  {
    WithoutSnoc(StackOf(stacks, key), e, owner);
    NoneWithout<V>(owner);
    hide Without;
    var a, b := RolledBack(Added(stacks, key, e), owner), Added(RolledBack(stacks, owner), key, e);
    assert a[key] == b[key];
    assert forall k :: k != key ==> (k in a <==> k in b);
    assert forall k :: k != key && k in a ==> a[k] == b[k];
  }

  lemma RollbacksCommute<K, V>(stacks: Stacks<K, V>, a: nat, b: nat)
    ensures RolledBack(RolledBack(stacks, a), b) == RolledBack(RolledBack(stacks, b), a)
  {
    forall k | k in stacks
      ensures Without(Without(stacks[k], a), b) == Without(Without(stacks[k], b), a)
    {
      WithoutCommutes(stacks[k], a, b);
    }
    NoneWithout<V>(a);
    NoneWithout<V>(b);
    hide Without;
  }

  lemma NoneWithout<V>(owner: nat)
    ensures Without<V>([], owner) == []
  {
  }

  /** However the registrations of several owners interleave, and whoever was rolled back
      before: rolling an owner back leaves what running without its registrations leaves. */
  lemma {:induction false} RollbackIsReplay<K, V>(ops: seq<Op<K, V>>, owner: nat)
    ensures RolledBack(Run(ops), owner) == Run(Unregistered(ops, owner))
  {
    if ops != [] {
      hide RolledBack, Added, Without;
      var n := |ops| - 1;
      var before, op := Run(ops[..n]), ops[n];
      RollbackIsReplay(ops[..n], owner);
      var rest := Unregistered(ops[..n], owner);
      assert (rest + [op])[..|rest|] == rest;
      match op {
        case Add(key, entry) =>
          if entry.owner == owner {
            RollbackSkipsOwn(before, key, entry);
          } else {
            RollbackKeepsOthers(before, key, entry, owner);
          }
        case Rollback(other) => RollbacksCommute(before, other, owner);
      }
    } else {
      RollbackOfNothing<K, V>(owner);
    }
  }

  lemma RollbackOfNothing<K, V>(owner: nat)
    ensures RolledBack<K, V>(map[], owner) == map[]
  {
  }

  // ---- what a stack holds

  /** A registration for the key whose owner was not rolled back later. */
  predicate Survives<K(==), V>(ops: seq<Op<K, V>>, i: nat, key: K)
    requires i < |ops|
  {
    ops[i].Add? && ops[i].key == key && forall j :: i < j < |ops| ==> !RollsBack(ops[j], ops[i].entry.owner)
  }

  predicate RollsBack<K, V>(op: Op<K, V>, owner: nat) { op.Rollback? && op.owner == owner }

  /** The surviving registrations among the first `n`, in the order they were made. */
  function Survivors<K(==), V>(ops: seq<Op<K, V>>, n: nat, key: K): seq<Owned<V>>
    requires n <= |ops|
  {
    if n == 0 then []
    else if Survives(ops, n - 1, key) then Survivors(ops, n - 1, key) + [ops[n - 1].entry]
    else Survivors(ops, n - 1, key)
  }

  lemma {:induction false} SurvivorsAfter<K, V>(ops: seq<Op<K, V>>, op: Op<K, V>, n: nat, key: K)
    requires n <= |ops|
    ensures Survivors(ops + [op], n, key) ==
      if op.Rollback? then Without(Survivors(ops, n, key), op.owner) else Survivors(ops, n, key)
  {
    if n > 0 {
      var i := n - 1;
      SurvivorsAfter(ops, op, i, key);
      var more := ops + [op];
      assert more[i] == ops[i];
      assert Survives(more, i, key) <==>
             Survives(ops, i, key) && !(op.Rollback? && ops[i].Add? && op.owner == ops[i].entry.owner) by {
        assert forall j :: i < j < |ops| ==> more[j] == ops[j];
        assert more[|ops|] == op;
      }
      if op.Rollback? && Survives(ops, i, key) { WithoutSnoc(Survivors(ops, i, key), ops[i].entry, op.owner); }
    }
  }

  /** A stack is exactly the surviving registrations in order: the last of them is active, and a
      rollback reveals the one it shadowed. */
  lemma {:induction false} StackIsSurvivors<K, V>(ops: seq<Op<K, V>>, key: K)
    ensures StackOf(Run(ops), key) == Survivors(ops, |ops|, key)
    ensures key in Run(ops) <==> Survivors(ops, |ops|, key) != []
  {
    if ops != [] {
      var n := |ops| - 1;
      var init, op := ops[..n], ops[n];
      assert init + [op] == ops;
      StackIsSurvivors(init, key);
      SurvivorsAfter(init, op, n, key);
    }
  }

  // ---- the registry

  /** `history` is every registration and rollback so far. */
  class Registry<K(==), V> {
    var stacks: Stacks<K, V>
    ghost var history: seq<Op<K, V>>

    ghost predicate Valid()
      reads this
    {
      stacks == Run(history)
    }

    constructor ()
      ensures Valid() && history == []
    {
      stacks := map[];
      history := [];
    }

    method Register(key: K, value: V, owner: nat)
      requires Valid()
      modifies this
      ensures Valid() && history == old(history) + [Add(key, Owned(owner, value))]
    {
      stacks := stacks[key := StackOf(stacks, key) + [Owned(owner, value)]];
      history := history + [Add(key, Owned(owner, value))];
      assert history[..|history| - 1] == old(history);
    }

    /** The active registration: of those for the key whose owner was not rolled back since, the latest. */
    method Lookup(key: K) returns (r: Option<V>)
      requires Valid()
      ensures var live := Survivors(history, |history|, key);
              r == if live == [] then None else Some(live[|live| - 1].value)
    {
      StackIsSurvivors(history, key);
      var stack := StackOf(stacks, key);
      if |stack| == 0 { return None; }
      r := Some(stack[|stack| - 1].value);
    }

    /** Afterwards the registry is as if the owner had never registered anything. */
    method RollbackOwner(owner: nat)
      requires Valid()
      modifies this
      ensures Valid() && history == old(history) + [Rollback(owner)]
      ensures stacks == Run(Unregistered(old(history), owner))
    {
      DropOwner(owner);
      RollbackIsReplay(history, owner);
      hide RolledBack, Unregistered;
      history := history + [Rollback(owner)];
      assert history[..|history| - 1] == old(history);
    }

    /** Names are visited in whatever order the map yields them. */
    method DropOwner(owner: nat)
      modifies this`stacks
      ensures stacks == RolledBack(old(stacks), owner)
    {
      var left := stacks.Keys;
      while left != {}
        invariant left <= stacks.Keys && left <= old(stacks).Keys
        invariant forall k :: k in left ==> stacks[k] == old(stacks)[k]
        invariant forall k :: k !in left ==> (k in stacks <==> k in old(stacks) && Without(old(stacks)[k], owner) != [])
        invariant forall k :: k in stacks && k !in left ==> stacks[k] == Without(old(stacks)[k], owner)
        decreases |left|
      {
        var name :| name in left;
        left := left - {name};
        var kept := KeepOthers(stacks[name], owner);
        if |kept| == 0 {
          stacks := stacks - {name};
        } else {
          stacks := stacks[name := kept];
        }
      }
    }
  }

  method KeepOthers<V>(stack: seq<Owned<V>>, owner: nat) returns (kept: seq<Owned<V>>)
    ensures kept == Without(stack, owner)
  {
    kept := [];
    for i := 0 to |stack|
      invariant kept == Without(stack[..i], owner)
    {
      assert stack[..i + 1][..i] == stack[..i];
      if stack[i].owner != owner { kept := kept + [stack[i]]; }
    }
    assert stack[..|stack|] == stack;
  }
}
