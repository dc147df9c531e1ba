/** What the bounded tombstone cache of internal/store/mutation.go remembers over a run. */
module Tombstones {
  import opened Collections
  import opened Messages
  import opened History

  /** Tombstone revisions are distinct and newer than the watermark. */
  ghost predicate Ordered(d: map<MessageId, Rev>, pruned: Rev, rev: Rev) {
    && (forall id :: id in d ==> id != 0 && pruned < d[id] <= rev)
    && (forall i, j {:trigger d[i], d[j]} :: i in d && j in d && d[i] == d[j] ==> i == j)
  }

  ghost predicate CacheOk(h: Hist, limit: nat) {
    |h.deleted| <= limit && h.pruned <= h.rev && Ordered(h.deleted, h.pruned, h.rev)
  }

  /** Every recorded delete is still tombstoned at its revision, or the watermark covers it. */
  ghost predicate Remembers(h: Hist, deletes: map<MessageId, Rev>) {
    forall id :: id in deletes ==> Recalled(h, id, deletes[id])
  }

  ghost predicate Recalled(h: Hist, id: MessageId, rev: Rev) {
    rev <= h.rev && ((id in h.deleted && h.deleted[id] == rev) || rev <= h.pruned)
  }

  /** The ids an operation brings into the window: a create of a message that is present, or a
      confirmation that finds no echo, brings none. */
  function Created(h: Hist, op: Op): set<MessageId> {
    match op
    case OpAppend(m) => {m.id}
    case OpCreate(m) => if Confirm(h, m.nonce, m).1 || !HasId(Msgs(h), m.id) then {m.id} else {}
    case OpConfirm(nonce, m) => if Confirm(h, nonce, m).1 then {m.id} else {}
    case OpSet(page) => Ids(page)
    case _ => {}
  }

  /** The deletes of the current channel lifetime, except those a create came after. */
  ghost function Deletes(deletes: map<MessageId, Rev>, h: Hist, op: Op): map<MessageId, Rev> {
    match op
    case OpRemove(id) => if id == 0 then deletes else deletes[id := h.rev + 1]
    case OpDrop => map[]
    case _ => deletes - Created(h, op)
  }

  lemma {:induction false} CardinalityMonotone<T>(a: set<T>, b: set<T>)
    requires a <= b
    ensures |a| <= |b|
  {
    if a != {} {
      var x :| x in a;
      CardinalityMonotone(a - {x}, b - {x});
    }
  }

  lemma Insert(d: map<MessageId, Rev>, pruned: Rev, rev: Rev, id: MessageId)
    requires Ordered(d, pruned, rev) && id != 0 && pruned <= rev
    ensures Ordered(d[id := rev + 1], pruned, rev + 1)
    ensures |d[id := rev + 1]| <= |d| + 1
  {
    assert d[id := rev + 1].Keys == d.Keys + {id};
  }

  /** The evicted tombstone is older than every tombstone that stays. */
  lemma TrimKeepsCache(h: Hist, limit: nat)
    requires limit > 0 && |h.deleted| <= limit + 1 && h.pruned <= h.rev && Ordered(h.deleted, h.pruned, h.rev)
    ensures CacheOk(Trim(h, limit), limit)
  {
    if |h.deleted| > limit {
      var o := Oldest(h.deleted);
      assert (h.deleted - {o}).Keys == h.deleted.Keys - {o};
    }
  }

  lemma TrimRecalls(h: Hist, limit: nat, j: MessageId, rev: Rev)
    requires Recalled(h, j, rev)
    ensures Recalled(Trim(h, limit), j, rev)
  {
  }

  lemma BuryKeepsCache(h: Hist, id: MessageId, limit: nat) returns (b: Hist)
    requires limit > 0 && CacheOk(h, limit) && id != 0
    ensures b == Bury(h, id, limit) && CacheOk(b, limit)
  {
    var h1 := h.(rev := h.rev + 1, deleted := h.deleted[id := h.rev + 1]);
    Insert(h.deleted, h.pruned, h.rev, id);
    b := Trim(h1, limit);
    TrimKeepsCache(h1, limit);
  }

  lemma BuryRecalls(h: Hist, id: MessageId, limit: nat, j: MessageId, rev: Rev)
    requires if j == id then rev == h.rev + 1 else Recalled(h, j, rev)
    ensures Recalled(Bury(h, id, limit), j, rev)
  {
    TrimRecalls(h.(rev := h.rev + 1, deleted := h.deleted[id := h.rev + 1]), limit, j, rev);
  }

  lemma RemoveKeepsCache(h: Hist, id: MessageId, limit: nat) returns (r: Hist)
    requires limit > 0 && |Msgs(h)| <= limit && CacheOk(h, limit)
    ensures r == Remove(h, id, limit) && CacheOk(r, limit) && h.rev <= r.rev
  {
    r := Remove(h, id, limit);
    if id != 0 {
      var b := BuryKeepsCache(h, id, limit);
      assert r.rev == b.rev && r.deleted == b.deleted && r.pruned == b.pruned;
    }
  }

  lemma RemoveRemembers(h: Hist, deletes: map<MessageId, Rev>, id: MessageId, limit: nat) returns (r: Hist)
    requires limit > 0 && |Msgs(h)| <= limit && CacheOk(h, limit) && Remembers(h, deletes)
    ensures r == Remove(h, id, limit) && Remembers(r, if id == 0 then deletes else deletes[id := h.rev + 1])
  {
    r := Remove(h, id, limit);
    if id != 0 {
      var b := Bury(h, id, limit);
      assert r.rev == b.rev && r.deleted == b.deleted && r.pruned == b.pruned;
      var deletes' := deletes[id := h.rev + 1];
      forall j | j in deletes'
        ensures Recalled(r, j, deletes'[j])
      {
        BuryRecalls(h, id, limit, j, deletes'[j]);
      }
    }
  }

  /** Operations that only lift tombstones, of ids that leave the record as well. */
  lemma LiftKeeps(h: Hist, h': Hist, deletes: map<MessageId, Rev>, gone: set<MessageId>, more: set<MessageId>,
      limit: nat)
    requires CacheOk(h, limit) && Remembers(h, deletes) && gone <= more
    requires h'.deleted == h.deleted - gone && h'.pruned == h.pruned && h'.rev >= h.rev
    ensures CacheOk(h', limit)
    ensures Remembers(h', deletes - more)
  {
    assert h'.deleted.Keys <= h.deleted.Keys;
    CardinalityMonotone(h'.deleted.Keys, h.deleted.Keys);
    forall j | j in deletes - more
      ensures Recalled(h', j, deletes[j])
    {
      assert Recalled(h, j, deletes[j]);
    }
  }

  lemma AppendLifts(h: Hist, m: Message, limit: nat)
    requires 0 !in h.deleted
    ensures Append(h, m, limit).deleted == h.deleted - {m.id} && Append(h, m, limit).pruned == h.pruned
  {
    assert m.id == 0 ==> h.deleted - {m.id} == h.deleted;
  }

  lemma ConfirmLifts(h: Hist, m: Message, nonce: string) returns (gone: set<MessageId>)
    requires 0 !in h.deleted
    ensures gone == if Confirm(h, nonce, m).1 then {m.id} else {}
    ensures Confirm(h, nonce, m).0.deleted == h.deleted - gone && Confirm(h, nonce, m).0.pruned == h.pruned
  {
    assert h.deleted - {} == h.deleted;
    assert m.id == 0 ==> h.deleted - {m.id} == h.deleted;
    gone := if Confirm(h, nonce, m).1 then {m.id} else {};
  }

  lemma CreateLifts(h: Hist, m: Message, limit: nat) returns (gone: set<MessageId>)
    requires 0 !in h.deleted
    ensures gone <= Created(h, OpCreate(m)) <= {m.id}
    ensures Create(h, m, limit).deleted == h.deleted - gone && Create(h, m, limit).pruned == h.pruned
  {
    gone := ConfirmLifts(h, m, m.nonce);
    var (h1, confirmed) := Confirm(h, m.nonce, m);
    if !confirmed && !HasId(Msgs(h1), m.id) {
      assert h1.deleted == h.deleted;
      AppendLifts(h1, m, limit);
      gone := {m.id};
    }
  }

  lemma SetLifts(h: Hist, page: seq<Message>, limit: nat) returns (gone: set<MessageId>)
    ensures gone <= Ids(page)
    ensures var h' := SetMessages(h, page, limit);
            h'.deleted == h.deleted - gone && h'.pruned == h.pruned && h'.rev >= h.rev
  {
    gone := if page == [] && Echoes(Msgs(h), Nonces(page)) == [] then {} else Ids(page) - {0};
    assert h.deleted - {} == h.deleted;
  }

  /** Operations that lift no tombstone. */
  lemma OthersLiftNothing(h: Hist, op: Op, limit: nat)
    requires limit > 0 && WindowOk(h, limit)
    requires op.OpUpdate? || op.OpMarkFailed? || op.OpPrepend? || op.OpElsewhere?
    ensures var h' := Apply(h, op, limit);
            h'.deleted == h.deleted - {} && h'.pruned == h.pruned && h'.rev >= h.rev
  {
    assert h.deleted - {} == h.deleted;
  }

  /** Creates and pages lift at most the tombstones of the ids they bring. */
  lemma Lifts(h: Hist, op: Op, limit: nat) returns (gone: set<MessageId>)
    requires limit > 0 && WindowOk(h, limit) && 0 !in h.deleted && !op.OpRemove? && !op.OpDrop?
    ensures gone <= Created(h, op)
    ensures var h' := Apply(h, op, limit);
            h'.deleted == h.deleted - gone && h'.pruned == h.pruned && h'.rev >= h.rev
  {
    match op
    case OpAppend(m) =>
      AppendLifts(h, m, limit);
      gone := {m.id};
    case OpCreate(m) => gone := CreateLifts(h, m, limit);
    case OpConfirm(nonce, m) => gone := ConfirmLifts(h, m, nonce);
    case OpSet(page) => gone := SetLifts(h, page, limit);
    case _ =>
      OthersLiftNothing(h, op, limit);
      gone := {};
  }

  /** Each operation keeps the cache in order and forgets no recorded delete. */
  lemma StepKeeps(h: Hist, deletes: map<MessageId, Rev>, op: Op, limit: nat) returns (h': Hist)
    requires limit > 0 && WindowOk(h, limit) && CacheOk(h, limit) && Remembers(h, deletes)
    ensures h' == Apply(h, op, limit) && CacheOk(h', limit)
    ensures Remembers(h', Deletes(deletes, h, op))
  {
    if op.OpRemove? {
      h' := RemoveStepKeeps(h, deletes, op, limit);
    } else if op.OpDrop? {
      h' := Drop(h);
      assert Deletes(deletes, h, op) == map[];
    } else {
      h' := LiftStepKeeps(h, deletes, op, limit);
      assert Deletes(deletes, h, op) == deletes - Created(h, op);
    }
  }

  lemma RemoveStepKeeps(h: Hist, deletes: map<MessageId, Rev>, op: Op, limit: nat) returns (h': Hist)
    requires limit > 0 && WindowOk(h, limit) && CacheOk(h, limit) && Remembers(h, deletes) && op.OpRemove?
    ensures h' == Apply(h, op, limit) && CacheOk(h', limit) && Remembers(h', Deletes(deletes, h, op))
  {
    h' := RemoveKeepsCache(h, op.id, limit);
    var r := RemoveRemembers(h, deletes, op.id, limit);
    assert Remembers(r, Deletes(deletes, h, op));
  }

  lemma LiftStepKeeps(h: Hist, deletes: map<MessageId, Rev>, op: Op, limit: nat) returns (h': Hist)
    requires limit > 0 && WindowOk(h, limit) && CacheOk(h, limit) && Remembers(h, deletes)
    requires !op.OpRemove? && !op.OpDrop?
    ensures h' == Apply(h, op, limit) && CacheOk(h', limit) && Remembers(h', deletes - Created(h, op))
  {
    var gone := Lifts(h, op, limit);
    h' := Apply(h, op, limit);
    LiftKeeps(h, h', deletes, gone, Created(h, op), limit);
  }

  ghost function DeletesOf(deletes: map<MessageId, Rev>, h: Hist, ops: seq<Op>, limit: nat): map<MessageId, Rev>
    requires limit > 0 && WindowOk(h, limit)
    decreases |ops|
  {
    if ops == [] then deletes
    else
      StepRevision(h, ops[0], limit);
      DeletesOf(Deletes(deletes, h, ops[0]), Apply(h, ops[0], limit), ops[1..], limit)
  }

  /** Over every run: no delete of the current lifetime is forgotten silently. */
  lemma {:induction false} RunKeeps(h: Hist, deletes: map<MessageId, Rev>, ops: seq<Op>, limit: nat)
    requires limit > 0 && WindowOk(h, limit) && CacheOk(h, limit) && Remembers(h, deletes)
    ensures CacheOk(Run(h, ops, limit), limit)
    ensures Remembers(Run(h, ops, limit), DeletesOf(deletes, h, ops, limit))
    decreases |ops|
  {
    if ops != [] {
      StepRevision(h, ops[0], limit);
      var h' := StepKeeps(h, deletes, ops[0], limit);
      RunKeeps(Apply(h, ops[0], limit), Deletes(deletes, h, ops[0]), ops[1..], limit);
    }
  }

  lemma TombstonesComplete(ops: seq<Op>, limit: nat)
    requires limit > 0
    ensures CacheOk(Run(EMPTY, ops, limit), limit)
    ensures Remembers(Run(EMPTY, ops, limit), DeletesOf(map[], EMPTY, ops, limit))
  {
    RunKeeps(EMPTY, map[], ops, limit);
  }

  // ---- and nothing else is tombstoned

  /** Every tombstone is a recorded delete, at its revision. */
  ghost predicate Sound(h: Hist, deletes: map<MessageId, Rev>) {
    forall id :: id in h.deleted ==> id in deletes && deletes[id] == h.deleted[id]
  }

  /** The revisions of all deletes of the current lifetime, recorded or recreated since. */
  function Made(made: set<Rev>, h: Hist, op: Op): set<Rev> {
    match op
    case OpRemove(id) => if id == 0 then made else made + {h.rev + 1}
    case OpDrop => {}
    case _ => made
  }

  /** Tombstones and the watermark are revisions of such deletes. */
  ghost predicate FromDeletes(h: Hist, made: set<Rev>) {
    (forall id :: id in h.deleted ==> h.deleted[id] in made) && (h.pruned == 0 || h.pruned in made)
  }

  lemma BuryIsSound(h: Hist, id: MessageId, deletes: map<MessageId, Rev>, made: set<Rev>, limit: nat)
    requires Sound(h, deletes) && FromDeletes(h, made)
    ensures Sound(Bury(h, id, limit), deletes[id := h.rev + 1])
    ensures FromDeletes(Bury(h, id, limit), made + {h.rev + 1})
  {
  }

  lemma RemoveIsSound(h: Hist, id: MessageId, deletes: map<MessageId, Rev>, made: set<Rev>, limit: nat)
    requires |Msgs(h)| <= limit && Sound(h, deletes) && FromDeletes(h, made)
    ensures var h' := Remove(h, id, limit);
            Sound(h', if id == 0 then deletes else deletes[id := h.rev + 1]) &&
            FromDeletes(h', if id == 0 then made else made + {h.rev + 1})
  {
    if id != 0 {
      BuryIsSound(h, id, deletes, made, limit);
      hide Bury, IndexOfId, AfterRemove;
      var b, r := Bury(h, id, limit), Remove(h, id, limit);
      assert r.deleted == b.deleted && r.pruned == b.pruned;
    }
  }

  /** A create, a confirmation or a page lifts exactly the tombstones of the ids it brings. */
  lemma LiftsExactly(h: Hist, op: Op, limit: nat)
    requires limit > 0 && WindowOk(h, limit) && 0 !in h.deleted && !op.OpRemove? && !op.OpDrop?
    ensures var h' := Apply(h, op, limit);
            h'.deleted == h.deleted - Created(h, op) && h'.pruned == h.pruned
  {
    match op
    case OpAppend(m) => AppendLifts(h, m, limit);
    case OpCreate(m) => CreateLiftsExactly(h, m, limit);
    case OpConfirm(nonce, m) => var gone := ConfirmLifts(h, m, nonce);
    case OpSet(page) => SetLiftsExactly(h, page, limit);
    case _ => OthersLiftNothing(h, op, limit);
  }

  lemma CreateLiftsExactly(h: Hist, m: Message, limit: nat)
    requires 0 !in h.deleted
    ensures Create(h, m, limit).deleted == h.deleted - Created(h, OpCreate(m)) && Create(h, m, limit).pruned == h.pruned
  {
    var gone := ConfirmLifts(h, m, m.nonce);
    var (h1, confirmed) := Confirm(h, m.nonce, m);
    assert h.deleted - {} == h.deleted;
    if !confirmed {
      assert Msgs(h1) == Msgs(h) && h1.deleted == h.deleted;
      AppendLifts(h1, m, limit);
    }
  }

  lemma SetLiftsExactly(h: Hist, page: seq<Message>, limit: nat)
    requires 0 !in h.deleted
    ensures SetMessages(h, page, limit).deleted == h.deleted - Ids(page) &&
            SetMessages(h, page, limit).pruned == h.pruned
  {
    hide Echoes, PushAll, Nonces;
    assert page == [] ==> Ids(page) == {};
    assert h.deleted - {} == h.deleted && h.deleted - (Ids(page) - {0}) == h.deleted - Ids(page);
  }

  lemma StepIsSound(h: Hist, deletes: map<MessageId, Rev>, made: set<Rev>, op: Op, limit: nat)
    requires limit > 0 && WindowOk(h, limit) && 0 !in h.deleted && Sound(h, deletes) && FromDeletes(h, made)
    ensures Sound(Apply(h, op, limit), Deletes(deletes, h, op)) && FromDeletes(Apply(h, op, limit), Made(made, h, op))
  {
    if op.OpRemove? {
      RemoveIsSound(h, op.id, deletes, made, limit);
    } else if !op.OpDrop? {
      LiftsExactly(h, op, limit);
      hide Apply, Created;
    }
  }

  ghost function MadeIn(made: set<Rev>, h: Hist, ops: seq<Op>, limit: nat): set<Rev>
    requires limit > 0 && WindowOk(h, limit)
    decreases |ops|
  {
    if ops == [] then made
    else
      StepRevision(h, ops[0], limit);
      MadeIn(Made(made, h, ops[0]), Apply(h, ops[0], limit), ops[1..], limit)
  }

  lemma {:induction false} RunIsSound(h: Hist, deletes: map<MessageId, Rev>, made: set<Rev>, ops: seq<Op>, limit: nat)
    requires limit > 0 && WindowOk(h, limit) && CacheOk(h, limit) && Remembers(h, deletes)
    requires Sound(h, deletes) && FromDeletes(h, made)
    ensures Sound(Run(h, ops, limit), DeletesOf(deletes, h, ops, limit))
    ensures FromDeletes(Run(h, ops, limit), MadeIn(made, h, ops, limit))
    decreases |ops|
  {
    if ops != [] {
      StepRevision(h, ops[0], limit);
      var h' := StepKeeps(h, deletes, ops[0], limit);
      StepIsSound(h, deletes, made, ops[0], limit);
      hide Apply, CacheOk, Remembers, Sound, FromDeletes, Deletes, Made, WindowOk;
      RunIsSound(Apply(h, ops[0], limit), Deletes(deletes, h, ops[0]), Made(made, h, ops[0]), ops[1..], limit);
    }
  }

  /** Over every run the tombstones are exactly the recorded deletes newer than the watermark; and an answer
      to a request is discarded exactly when a delete made after the request is no longer told apart. */
  lemma TombstonesExact(ops: seq<Op>, limit: nat, request: Rev)
    requires limit > 0
    ensures var h := Run(EMPTY, ops, limit);
            var deletes := DeletesOf(map[], EMPTY, ops, limit);
            (forall id :: id in h.deleted <==> id in deletes && deletes[id] > h.pruned) &&
            (forall id :: id in h.deleted ==> h.deleted[id] == deletes[id]) &&
            (PrunedSince(h, request) <==>
               exists r :: r in MadeIn({}, EMPTY, ops, limit) && request < r <= h.pruned)
  {
    TombstonesComplete(ops, limit);
    RunIsSound(EMPTY, map[], {}, ops, limit);
    hide Run, DeletesOf, MadeIn;
    var h := Run(EMPTY, ops, limit);
    var deletes := DeletesOf(map[], EMPTY, ops, limit);
    forall id | id in deletes && deletes[id] > h.pruned
      ensures id in h.deleted
    {
      assert Recalled(h, id, deletes[id]);
    }
  }
}
