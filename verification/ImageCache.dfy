/** internal/media/cache.go: the decoded-image LRU, bounded by entries and by bytes. */
module ImageCache {
  const DEFAULT_SIZE := 64
  const DEFAULT_BYTES := 0x400_0000

  /** A decoded image: its pixels, opaque here, and the bytes they take. */
  datatype Image = NoImage | Image(pixels: nat, bytes: int)

  datatype Item = Item(key: string, img: Image)

  function Sum(l: seq<Item>): int {
    if l == [] then 0 else Sum(l[..|l| - 1]) + Size(l[|l| - 1])
  }

  function Size(x: Item): int { if x.img.Image? then x.img.bytes else 0 }

  predicate Sized(l: seq<Item>) { forall i :: 0 <= i < |l| ==> Size(l[i]) > 0 }

  predicate DistinctKeys(l: seq<Item>) { forall i, j :: 0 <= i < j < |l| ==> l[i].key != l[j].key }

  predicate HasKey(l: seq<Item>, key: string) { exists i :: 0 <= i < |l| && l[i].key == key }

  predicate Fits(l: seq<Item>, maxSize: int, maxBytes: int) { |l| <= maxSize && Sum(l) <= maxBytes }

  /** Least recently used entries go until both limits are met. */
  function Evict(l: seq<Item>, maxSize: int, maxBytes: int): (r: seq<Item>)
    ensures r <= l
  {
    if l == [] || Fits(l, maxSize, maxBytes) then l else Evict(l[..|l| - 1], maxSize, maxBytes)
  }

  function PositionOf(l: seq<Item>, key: string): (k: int)
    ensures -1 <= k < |l| && (k >= 0 ==> l[k].key == key)
    ensures k < 0 <==> !HasKey(l, key)
  {
    if l == [] then -1
    else
      HasKeySnoc(l, key);
      if l[|l| - 1].key == key then |l| - 1 else PositionOf(l[..|l| - 1], key)
  }

  lemma HasKeySnoc(l: seq<Item>, key: string)
    requires l != []
    ensures HasKey(l, key) <==> l[|l| - 1].key == key || HasKey(l[..|l| - 1], key)
  {
    if HasKey(l, key) && l[|l| - 1].key != key {
      var i :| 0 <= i < |l| && l[i].key == key;
      assert l[..|l| - 1][i].key == key;
    }
    if HasKey(l[..|l| - 1], key) {
      var i :| 0 <= i < |l| - 1 && l[..|l| - 1][i].key == key;
      assert l[i].key == key;
    }
  }

  function RemoveAt<T>(l: seq<T>, k: nat): (r: seq<T>)
    requires k < |l|
    ensures |r| == |l| - 1
  {
    l[..k] + l[k + 1..]
  }

  function Without(l: seq<Item>, key: string): (r: seq<Item>)
    ensures |r| <= |l|
  {
    var k := PositionOf(l, key);
    if k < 0 then l else RemoveAt(l, k)
  }

  // ---- operations

  datatype Limits = Limits(size: int, bytes: int)

  function Configured(size: int, bytes: int): (l: Limits)
    ensures l.size > 0 && l.bytes > 0
  {
    Limits(if size <= 0 then DEFAULT_SIZE else size, if bytes <= 0 then DEFAULT_BYTES else bytes)
  }

  datatype Op = Get(key: string) | Put(key: string, img: Image) | Configure(size: int, bytes: int)

  /** What an operation leaves when nothing is ever evicted: most recently used first. */
  function Touch(l: seq<Item>, key: string): seq<Item> {
    var k := PositionOf(l, key);
    if k < 0 then l else [l[k]] + Without(l, key)
  }

  predicate Admissible(img: Image, limits: Limits) { img.Image? && 0 < img.bytes <= limits.bytes }

  function Unbounded(l: seq<Item>, limits: Limits, op: Op): seq<Item> {
    match op
    case Get(key) => Touch(l, key)
    case Put(key, img) =>
      if img.NoImage? then l
      else if !Admissible(img, limits) then Without(l, key)
      else [Item(key, img)] + Without(l, key)
    case Configure(_, _) => l
  }

  function NewLimits(limits: Limits, op: Op): Limits {
    match op
    case Configure(size, bytes) => Configured(size, bytes)
    case _ => limits
  }

  /** The cache after an operation. */
  function Step(l: seq<Item>, limits: Limits, op: Op): seq<Item> {
    var after := NewLimits(limits, op);
    Evict(Unbounded(l, limits, op), after.size, after.bytes)
  }

  predicate Good(l: seq<Item>, limits: Limits) {
    limits.size > 0 && limits.bytes > 0 && Sized(l) && DistinctKeys(l) && Fits(l, limits.size, limits.bytes)
  }

  // ---- lists

  lemma WithoutKeys(l: seq<Item>, key: string)
    requires DistinctKeys(l)
    ensures var r := Without(l, key);
            DistinctKeys(r) && !HasKey(r, key) && (Sized(l) ==> Sized(r))
  {
    var k, r := PositionOf(l, key), Without(l, key);
    assert k >= 0 ==> forall i :: 0 <= i < |r| ==> r[i] == if i < k then l[i] else l[i + 1];
  }

  lemma PositionIs(l: seq<Item>, k: nat)
    requires DistinctKeys(l) && k < |l|
    ensures PositionOf(l, l[k].key) == k
  {
    assert HasKey(l, l[k].key);
  }

  lemma {:induction false} SumWithout(l: seq<Item>, k: nat)
    requires k < |l|
    ensures Sum(l) == Sum(RemoveAt(l, k)) + Size(l[k])
  {
    var n := |l| - 1;
    var r := RemoveAt(l, k);
    if k == n {
      assert r == l[..n];
    } else {
      SumWithout(l[..n], k);
      assert r[..n - 1] == RemoveAt(l[..n], k);
    }
  }

  lemma {:induction false} SumFront(x: Item, l: seq<Item>)
    ensures Sum([x] + l) == Size(x) + Sum(l)
  {
    if l == [] {
      assert ([x] + l)[..0] == [];
    } else {
      var n := |l| - 1;
      SumFront(x, l[..n]);
      assert ([x] + l)[..n + 1] == [x] + l[..n];
    }
  }

  lemma EmptySum()
    ensures Sum([]) == 0
  {
  }

  // ---- what eviction leaves

  /** The longest prefix that fits both limits. */
  lemma {:induction false} EvictIsLongestFit(l: seq<Item>, maxSize: int, maxBytes: int)
    requires Sized(l) && maxSize >= 0 && maxBytes >= 0
    ensures var r := Evict(l, maxSize, maxBytes);
            r == l[..|r|] && Fits(r, maxSize, maxBytes) &&
            forall k :: |r| < k <= |l| ==> !Fits(l[..k], maxSize, maxBytes)
  {
    if l != [] && !Fits(l, maxSize, maxBytes) {
      var init := l[..|l| - 1];
      EvictIsLongestFit(init, maxSize, maxBytes);
      var r := Evict(init, maxSize, maxBytes);
      assert r == l[..|r|] by { assert r == init[..|r|]; }
      forall k | |r| < k <= |l|
        ensures !Fits(l[..k], maxSize, maxBytes)
      {
        if k < |l| { assert l[..k] == init[..k]; } else { assert l[..k] == l; }
      }
    } else {
      assert l[..|l|] == l;
    }
  }

  lemma PrefixGood(r: seq<Item>, l: seq<Item>)
    requires r <= l && Sized(l) && DistinctKeys(l)
    ensures Sized(r) && DistinctKeys(r)
  {
    assert forall i :: 0 <= i < |r| ==> r[i] == l[i];
  }

  lemma FrontGood(x: Item, rest: seq<Item>)
    requires DistinctKeys(rest) && Sized(rest) && !HasKey(rest, x.key) && Size(x) > 0
    ensures DistinctKeys([x] + rest) && Sized([x] + rest)
  {
    var l := [x] + rest;
    assert forall i :: 0 < i < |l| ==> l[i] == rest[i - 1];
    assert forall i :: 0 < i < |l| ==> l[i].key != x.key;
  }

  lemma UnboundedGood(l: seq<Item>, limits: Limits, op: Op)
    requires Sized(l) && DistinctKeys(l)
    ensures Sized(Unbounded(l, limits, op)) && DistinctKeys(Unbounded(l, limits, op))
  {
    if !op.Configure? {
      WithoutKeys(l, op.key);
      var k := PositionOf(l, op.key);
      assert k >= 0 ==> Size(l[k]) > 0;
      hide DistinctKeys, Sized, HasKey, Without;
      if op.Put? && Admissible(op.img, limits) { FrontGood(Item(op.key, op.img), Without(l, op.key)); }
      if op.Get? && k >= 0 { FrontGood(l[k], Without(l, op.key)); }
    }
  }

  /** After every operation the list is good, and the longest prefix within both limits of
      what the operation would leave unbounded. */
  lemma StepIsLongestFit(l: seq<Item>, limits: Limits, op: Op)
    requires Good(l, limits)
    ensures var after := NewLimits(limits, op);
            var full := Unbounded(l, limits, op);
            var r := Step(l, limits, op);
            Good(r, after) && r == full[..|r|] &&
            forall k :: |r| < k <= |full| ==> !Fits(full[..k], after.size, after.bytes)
  {
    hide Unbounded, Fits, Sized, DistinctKeys;
    UnboundedGood(l, limits, op);
    var after := NewLimits(limits, op);
    var full := Unbounded(l, limits, op);
    EvictIsLongestFit(full, after.size, after.bytes);
    PrefixGood(Step(l, limits, op), full);
  }

  /** An admitted image is in front afterwards: its own insertion never evicts it. A hit evicts
      nothing, and an image too large or empty is not kept, nor the one it should have replaced. */
  lemma PutAndGet(l: seq<Item>, limits: Limits, key: string, img: Image)
    requires Good(l, limits)
    ensures Admissible(img, limits) ==>
      Step(l, limits, Put(key, img)) != [] && Step(l, limits, Put(key, img))[0] == Item(key, img)
    ensures img.Image? && !Admissible(img, limits) ==> Step(l, limits, Put(key, img)) == Without(l, key)
    ensures HasKey(l, key) ==> Step(l, limits, Get(key)) == [l[PositionOf(l, key)]] + Without(l, key)
    ensures !HasKey(l, key) ==> Step(l, limits, Get(key)) == l
  {
    if Admissible(img, limits) { AdmittedStays(l, limits, Item(key, img)); }
    if HasKey(l, key) { HitKeepsAll(l, limits, key); }
    if img.Image? && !Admissible(img, limits) && HasKey(l, key) { SumWithout(l, PositionOf(l, key)); }
  }

  lemma HitKeepsAll(l: seq<Item>, limits: Limits, key: string)
    requires Good(l, limits) && HasKey(l, key)
    ensures Step(l, limits, Get(key)) == [l[PositionOf(l, key)]] + Without(l, key)
  {
    hide DistinctKeys, Sized, HasKey;
    var k := PositionOf(l, key);
    SumWithout(l, k);
    SumFront(l[k], RemoveAt(l, k));
  }

  lemma AdmittedStays(l: seq<Item>, limits: Limits, x: Item)
    requires Good(l, limits) && Admissible(x.img, limits)
    ensures var r := Step(l, limits, Put(x.key, x.img)); r != [] && r[0] == x
  {
    var full := [x] + Without(l, x.key);
    assert Item(x.key, x.img) == x;
    UnboundedGood(l, limits, Put(x.key, x.img));
    EvictIsLongestFit(full, limits.size, limits.bytes);
    assert full[..1] == [x] && Sum([x]) == Size(x) by { assert [x][..0] == []; }
    assert Fits(full[..1], limits.size, limits.bytes);
  }

  // ---- whole runs

  datatype State = State(list: seq<Item>, limits: Limits)

  function Run(s: State, ops: seq<Op>): State {
    if ops == [] then s
    else
      var before := Run(s, ops[..|ops| - 1]);
      var op := ops[|ops| - 1];
      State(Step(before.list, before.limits, op), NewLimits(before.limits, op))
  }

  /** Every key ever put and not removed, most recently used first: hits count, misses do not. */
  function Recency(s: State, ops: seq<Op>): seq<Item> {
    if ops == [] then s.list
    else
      var op := ops[|ops| - 1];
      var before := Run(s, ops[..|ops| - 1]);
      var all := Recency(s, ops[..|ops| - 1]);
      if op.Get? && !HasKey(before.list, op.key) then all else Unbounded(all, before.limits, op)
  }

  /** In every run, whatever the limits and however they change, the cache is a prefix of the
      recency list: what was evicted was always used less recently than what was kept. */
  lemma {:induction false} RunIsRecencyPrefix(s: State, ops: seq<Op>)
    requires Good(s.list, s.limits)
    ensures var r := Run(s, ops);
            Good(r.list, r.limits) && DistinctKeys(Recency(s, ops)) && Sized(Recency(s, ops)) &&
              r.list <= Recency(s, ops)
  {
    hide Good, DistinctKeys, Sized, Unbounded, HasKey;
    if ops == [] {
      assert DistinctKeys(s.list) && Sized(s.list) by { GoodParts(s.list, s.limits); }
    } else {
      var init, op := ops[..|ops| - 1], ops[|ops| - 1];
      RunIsRecencyPrefix(s, init);
      var before, all := Run(s, init), Recency(s, init);
      GoodParts(before.list, before.limits);
      StepIsLongestFit(before.list, before.limits, op);
      UnboundedGood(all, before.limits, op);
      if op.Get? && !HasKey(before.list, op.key) {
        assert Step(before.list, before.limits, op) <= before.list by {
          MissEvictsOnly(before.list, before.limits, op);
        }
      } else {
        UnboundedMonotone(before.list, all, before.limits, op);
      }
    }
  }

  lemma GoodParts(l: seq<Item>, limits: Limits)
    requires Good(l, limits)
    ensures DistinctKeys(l) && Sized(l)
  {
  }

  lemma MissEvictsOnly(l: seq<Item>, limits: Limits, op: Op)
    requires op.Get? && !HasKey(l, op.key)
    ensures Step(l, limits, op) <= l
  {
  }

  lemma UnboundedMonotone(l: seq<Item>, all: seq<Item>, limits: Limits, op: Op)
    requires l <= all && DistinctKeys(all) && (op.Get? ==> HasKey(l, op.key))
    ensures Unbounded(l, limits, op) <= Unbounded(all, limits, op)
  {
    if !op.Configure? {
      WithoutMonotone(l, all, op.key);
      hide Without, DistinctKeys;
      if op.Get? { PositionIs(all, PositionOf(l, op.key)); }
    }
  }

  lemma RemoveAtAppend(l: seq<Item>, more: seq<Item>, k: nat)
    requires k < |l| + |more|
    ensures RemoveAt(l + more, k) == if k < |l| then RemoveAt(l, k) + more else l + RemoveAt(more, k - |l|)
  {
  }

  lemma WithoutMonotone(l: seq<Item>, all: seq<Item>, key: string)
    requires l <= all && DistinctKeys(all)
    ensures Without(l, key) <= Without(all, key)
  {
    var k, j := PositionOf(l, key), PositionOf(all, key);
    var more := all[|l|..];
    assert all == l + more;
    if k >= 0 {
      assert all[k] == l[k];
      PositionIs(all, k);
    } else {
      assert forall i :: 0 <= i < |l| ==> l[i].key != key && l[i] == all[i];
    }
    hide PositionOf, DistinctKeys, HasKey, RemoveAt;
    if j >= 0 { RemoveAtAppend(l, more, j); }
  }

  // ---- the cache

  class Entry {
    const key: string
    var img: Image

    constructor (key: string, img: Image)
      ensures this.key == key && this.img == img
    {
      this.key, this.img := key, img;
    }
  }

  /** The list's entries carry the keys listed, and the map finds exactly them. */
  ghost predicate Keyed(lru: seq<Entry>, items: map<string, Entry>, l: seq<Item>) {
    |l| == |lru| &&
    (forall i :: 0 <= i < |lru| ==> lru[i].key == l[i].key && lru[i].key in items && items[lru[i].key] == lru[i]) &&
    (forall k :: k in items ==> items[k] in lru && items[k].key == k)
  }

  lemma KeyedRemoved(lru: seq<Entry>, items: map<string, Entry>, l: seq<Item>, k: nat)
    requires Keyed(lru, items, l) && DistinctKeys(l) && k < |l|
    ensures Keyed(RemoveAt(lru, k), items - {lru[k].key}, RemoveAt(l, k))
  {
    var lru', items' := RemoveAt(lru, k), items - {lru[k].key};
    forall key | key in items'
      ensures items'[key] in lru'
    {
      var i :| 0 <= i < |lru| && lru[i] == items[key];
      assert i != k;
      assert lru'[if i < k then i else i - 1] == lru[i];
    }
  }

  lemma KeyedMoved(lru: seq<Entry>, items: map<string, Entry>, l: seq<Item>, k: nat, x: Item)
    requires Keyed(lru, items, l) && k < |l| && x.key == l[k].key
    ensures Keyed([lru[k]] + RemoveAt(lru, k), items, [x] + RemoveAt(l, k))
  {
    var lru' := [lru[k]] + RemoveAt(lru, k);
    forall key | key in items
      ensures items[key] in lru'
    {
      var i :| 0 <= i < |lru| && lru[i] == items[key];
      assert lru'[if i == k then 0 else if i < k then i + 1 else i] == lru[i];
    }
  }

  lemma KeyedPushed(lru: seq<Entry>, items: map<string, Entry>, l: seq<Item>, e: Entry, x: Item)
    requires Keyed(lru, items, l) && x.key == e.key && e.key !in items
    ensures Keyed([e] + lru, items[e.key := e], [x] + l)
  {
    var lru', items', l' := [e] + lru, items[e.key := e], [x] + l;
    forall key | key in items'
      ensures items'[key] in lru' && items'[key].key == key
    {
      if key == e.key {
        assert lru'[0] == e;
      } else {
        var i :| 0 <= i < |lru| && lru[i] == items[key];
        assert lru'[i + 1] == lru[i];
      }
    }
    forall i | 0 < i < |lru'|
      ensures lru'[i].key == l'[i].key && lru'[i].key in items' && items'[lru'[i].key] == lru'[i]
    {
      assert lru'[i] == lru[i - 1] && l'[i] == l[i - 1];
    }
  }

  lemma KeyPresent(lru: seq<Entry>, items: map<string, Entry>, l: seq<Item>, key: string)
    requires Keyed(lru, items, l)
    ensures key in items <==> HasKey(l, key)
    ensures key in items ==> lru[PositionOf(l, key)] == items[key] && items[key].key == key
  {
    if key in items {
      var i :| 0 <= i < |lru| && lru[i] == items[key];
      assert l[i].key == key;
    }
  }

  lemma GoodRemoved(l: seq<Item>, k: nat)
    requires DistinctKeys(l) && Sized(l) && k < |l|
    ensures var r := RemoveAt(l, k); DistinctKeys(r) && Sized(r) && !HasKey(r, l[k].key)
  {
    var r := RemoveAt(l, k);
    assert forall i :: 0 <= i < |r| ==> r[i] == if i < k then l[i] else l[i + 1];
  }

  lemma KeyedOnce(lru: seq<Entry>, items: map<string, Entry>, l: seq<Item>, i: nat, j: nat)
    requires Keyed(lru, items, l) && DistinctKeys(l) && i < |lru| && j < |lru| && lru[i] == lru[j]
    ensures i == j
  {
    assert l[i].key == l[j].key;
  }

  lemma KeyedApart(lru: seq<Entry>, items: map<string, Entry>, l: seq<Item>, k: nat)
    requires Keyed(lru, items, l) && DistinctKeys(l) && k < |lru|
    ensures forall i :: 0 <= i < |lru| && i != k ==> lru[i] != lru[k]
  {
    assert forall i :: 0 <= i < |lru| && i != k ==> l[i].key != l[k].key;
  }

  lemma ImageAt(l: seq<Item>, k: nat)
    requires Sized(l) && k < |l|
    ensures l[k].img.Image? && Size(l[k]) == l[k].img.bytes > 0
  {
    assert Size(l[k]) > 0;
  }

  class Cache {
    var lru: seq<Entry>
    var items: map<string, Entry>
    var limits: Limits
    var lruBytes: int
    ghost var contents: seq<Item>

    /** The map indexes exactly the list, and the byte counter is its sum. */
    ghost predicate Indexed()
      reads this, lru
    {
      |contents| == |lru| && Keyed(lru, items, contents) && DistinctKeys(contents) && Sized(contents) &&
      lruBytes == Sum(contents) &&
      forall i :: 0 <= i < |lru| ==> contents[i].img == lru[i].img
    }

    ghost predicate Valid()
      reads this, lru
    {
      Indexed() && Good(contents, limits)
    }

    constructor (maxEntries: int, maxBytes: int)
      ensures Valid() && contents == [] && limits == Configured(maxEntries, maxBytes)
    {
      lru, items, lruBytes, contents := [], map[], 0, [];
      limits := Configured(maxEntries, maxBytes);
    }

    /** Entries leave from the back. */
    method EvictLRU()
      requires Indexed() && limits.size > 0 && limits.bytes > 0
      modifies this`lru, this`items, this`lruBytes, this`contents
      ensures Valid() && contents == Evict(old(contents), limits.size, limits.bytes)
      ensures forall e :: e in lru ==> e in old(lru)
    {
      hide Sum, DistinctKeys, Sized;
      EmptySum();
      while |lru| > limits.size || lruBytes > limits.bytes
        invariant Indexed() && forall e :: e in lru ==> e in old(lru)
        invariant Evict(contents, limits.size, limits.bytes) == Evict(old(contents), limits.size, limits.bytes)
        decreases |lru|
      {
        if |lru| == 0 { break; }
        var back := |lru| - 1;
        assert RemoveAt(contents, back) == contents[..back];
        Unlink(back);
      }
    }

    /** One element out of the list, the map and the counter. */
    method Unlink(k: nat)
      requires Indexed() && k < |lru|
      modifies this`lru, this`items, this`lruBytes, this`contents
      ensures Indexed() && contents == RemoveAt(old(contents), k) && lru == RemoveAt(old(lru), k)
    {
      hide Sum, Keyed, DistinctKeys;
      var e := lru[k];
      SumWithout(contents, k);
      KeyedRemoved(lru, items, contents, k);
      GoodRemoved(contents, k);
      items := items - {e.key};
      lruBytes := lruBytes - e.img.bytes;
      lru := RemoveAt(lru, k);
      contents := RemoveAt(contents, k);
    }

    /** The entry at a place goes to the front, with the image it has now. */
    method MoveToFront(ghost k: nat, e: Entry)
      requires k < |lru| == |contents| && lru[k] == e && contents[k].key == e.key
      requires Keyed(lru, items, contents) && DistinctKeys(contents) && Sized(contents)
      requires forall i :: 0 <= i < |lru| && i != k ==> contents[i].img == lru[i].img
      requires e.img.Image? && e.img.bytes > 0 && lruBytes == Sum(RemoveAt(contents, k)) + e.img.bytes
      modifies this`lru, this`contents
      ensures Indexed() && contents == [Item(e.key, e.img)] + RemoveAt(old(contents), k)
      ensures forall x :: x in lru ==> x in old(lru)
    {
      hide Sum, Keyed, DistinctKeys, Sized;
      var at :| 0 <= at < |lru| && lru[at] == e;
      ghost var x, rest := Item(e.key, e.img), RemoveAt(contents, k);
      KeyedOnce(lru, items, contents, at, k);
      KeyedMoved(lru, items, contents, k, x);
      GoodRemoved(contents, k);
      FrontGood(x, rest);
      SumFront(x, rest);
      lru := [e] + RemoveAt(lru, at);
      contents := [x] + rest;
    }

    method PushFront(e: Entry)
      requires Indexed() && e.key !in items && e.img.Image? && e.img.bytes > 0
      modifies this`lru, this`items, this`lruBytes, this`contents
      ensures Indexed() && contents == [Item(e.key, e.img)] + old(contents) && lru == [e] + old(lru)
    {
      hide Sum, Keyed, DistinctKeys, Sized;
      ghost var x := Item(e.key, e.img);
      KeyPresent(lru, items, contents, e.key);
      KeyedPushed(lru, items, contents, e, x);
      FrontGood(x, contents);
      SumFront(x, contents);
      lru := [e] + lru;
      items := items[e.key := e];
      lruBytes := lruBytes + e.img.bytes;
      contents := [x] + contents;
    }

    method Remove(e: Entry, ghost k: nat)
      requires Valid() && k < |lru| && lru[k] == e
      modifies this`lru, this`items, this`lruBytes, this`contents
      ensures Valid() && contents == RemoveAt(old(contents), k) && forall x :: x in lru ==> x in old(lru)
    {
      hide Sum, Keyed, DistinctKeys;
      var at :| 0 <= at < |lru| && lru[at] == e;
      KeyedOnce(lru, items, contents, at, k);
      SumWithout(contents, k);
      Unlink(at);
    }

    method GetLRU(url: string) returns (img: Image)
      requires Valid()
      modifies this`lru, this`contents
      ensures Valid() && contents == Step(old(contents), limits, Get(url))
      ensures var k := PositionOf(old(contents), url);
              img == if k < 0 then NoImage else old(contents)[k].img
    {
      hide Sum, Keyed, DistinctKeys, Sized, Step, Fits;
      KeyPresent(lru, items, contents, url);
      PutAndGet(contents, limits, url, NoImage);
      StepIsLongestFit(contents, limits, Get(url));
      if url !in items { return NoImage; }
      var e := items[url];
      ghost var k := PositionOf(contents, url);
      SumWithout(contents, k);
      ImageAt(contents, k);
      MoveToFront(k, e);
      img := e.img;
    }

    /** An entry already there gets the new image in place, and goes to the front. */
    method Renew(e: Entry, img: Image, ghost k: nat)
      requires Indexed() && k < |lru| && lru[k] == e && contents[k].key == e.key && img.Image? && img.bytes > 0
      modifies this`lru, this`lruBytes, this`contents, e
      ensures Indexed() && contents == [Item(e.key, img)] + RemoveAt(old(contents), k)
      ensures forall x :: x in lru ==> x in old(lru)
    {
      hide Sum, Keyed, DistinctKeys, Sized;
      SumWithout(contents, k);
      ImageAt(contents, k);
      KeyedApart(lru, items, contents, k);
      lruBytes := lruBytes - e.img.bytes;
      e.img := img;
      lruBytes := lruBytes + img.bytes;
      MoveToFront(k, e);
    }

    method PutLRU(url: string, img: Image)
      requires Valid()
      modifies this`lru, this`items, this`lruBytes, this`contents, lru
      ensures Valid() && contents == Step(old(contents), limits, Put(url, img))
      ensures forall e :: e in lru ==> e in old(lru) || fresh(e)
    {
      hide Sum, Keyed, DistinctKeys, Sized, Fits;
      if img.NoImage? { return; }
      KeyPresent(lru, items, contents, url);
      PutAndGet(contents, limits, url, img);
      ghost var k := PositionOf(contents, url);
      if img.bytes <= 0 || img.bytes > limits.bytes {
        if url in items { Remove(items[url], k); }
        return;
      }
      if url in items {
        Renew(items[url], img, k);
      } else {
        var e := new Entry(url, img);
        PushFront(e);
      }
      EvictLRU();
    }

    method ConfigureLRU(maxEntries: int, maxBytes: int)
      requires Valid()
      modifies this`lru, this`items, this`lruBytes, this`contents, this`limits
      ensures Valid() && limits == Configured(maxEntries, maxBytes)
      ensures contents == Step(old(contents), old(limits), Configure(maxEntries, maxBytes))
      ensures forall e :: e in lru ==> e in old(lru)
    {
      limits := Configured(maxEntries, maxBytes);
      EvictLRU();
    }
  }
}
