/** internal/store/ring.go: the circular buffer behind one channel's window. */
module RingBuffer {
  import opened Messages

  function Slot(start: nat, i: nat, n: nat): nat { if start + i < n then start + i else start + i - n }

  /** How many cells after `i` cell `q` lies, going round. */
  function Offset(i: nat, q: nat, n: nat): int { if q >= i then q - i else q + n - i }

  /** `x % n` for the sums of two indices this file takes it of. */
  method Wrap(x: nat, n: nat) returns (r: nat)
    requires x < 2 * n
    ensures r == if x < n then x else x - n
  {
    r := x % n;
    if x >= n { assert x == n * 1 + (x - n); }
  }

  /** The `size` cells from `start` on, going round. */
  function Logical(cells: seq<Message>, start: nat, size: nat): (s: seq<Message>)
    requires start < |cells| && size <= |cells|
    ensures |s| == size
  {
    seq(size, i requires 0 <= i < size => cells[Slot(start, i, |cells|)])
  }

  lemma PushCells(cells: seq<Message>, start: nat, size: nat, m: Message)
    requires start < |cells| && size <= |cells|
    ensures size < |cells| ==>
      Logical(cells[Slot(start, size, |cells|) := m], start, size + 1) == Logical(cells, start, size) + [m]
    ensures size == |cells| ==>
      Logical(cells[start := m], Slot(start, 1, size), size) == Logical(cells, start, size)[1..] + [m]
  {
  }

  /** Writing the cell behind logical position `k` writes that position only. */
  lemma UpdateCell(cells: seq<Message>, start: nat, size: nat, k: nat, m: Message)
    requires start < |cells| && k < size <= |cells|
    ensures Logical(cells[Slot(start, k, |cells|) := m], start, size) == Logical(cells, start, size)[k := m]
  {
  }

  /** The cells after `size - 1` of them, from `i` on, took their successor's content. */
  ghost function Shifted(cells: seq<Message>, i: nat, size: nat): (after: seq<Message>)
    requires i < |cells|
    ensures |after| == |cells|
  {
    seq(|cells|, q requires 0 <= q < |cells| =>
      if Offset(i, q, |cells|) < size - 1 then cells[Slot(q, 1, |cells|)] else cells[q])
  }

  /** The shift, blanking the last position and rewinding an empty ring complete a removal. */
  lemma RemovedCells(cells: seq<Message>, start: nat, size: nat, k: nat)
    requires start < |cells| && k < size <= |cells|
    ensures var n := |cells|;
            var after := Shifted(cells, Slot(start, k, n), size)[Slot(start, size - 1, n) := BLANK];
            Logical(after, if size == 1 then 0 else start, size - 1) == AfterRemove(Logical(cells, start, size), k, n)
  {
    var n := |cells|;
    var s := Logical(cells, start, size);
    var r := AfterRemove(s, k, n);
    var w := Overrun(size, k, n);
    var after := Shifted(cells, Slot(start, k, n), size)[Slot(start, size - 1, n) := BLANK];
    forall p | 0 <= p < size - 1
      ensures Logical(after, start, size - 1)[p] == r[p]
    {
      assert r[p] == if p >= k || p < w then s[p + 1] else s[p];
      assert Offset(Slot(start, k, n), Slot(start, p, n), n) == if p >= k then p - k else p + n - k;
    }
  }

  class Ring {
    var buf: array<Message>
    var rev: Rev
    var start: nat
    var size: nat

    ghost predicate Valid()
      reads this
    {
      start < buf.Length && size <= buf.Length
    }

    /** The window this ring stands for. */
    ghost function View(): (w: Window)
      requires Valid()
      reads this, buf
      ensures |w.msgs| == size
    {
      Window(Logical(buf[..], start, size), rev)
    }

    constructor (capacity: int)
      ensures Valid() && fresh(buf)
      ensures buf.Length == if capacity < 1 then 1 else capacity
      ensures View() == Window([], 0)
    {
      buf := new Message[if capacity < 1 then 1 else capacity](_ => BLANK);
      rev, start, size := 0, 0, 0;
    }

    method Push(m: Message)
      requires Valid()
      modifies this, buf
      ensures Valid() && buf == old(buf)
      ensures View() == Messages.Push(old(View()), m, buf.Length)
    {
      PushCells(buf[..], start, size, m);
      rev := Max(rev, m.rev);
      if size < buf.Length {
        var end := Wrap(start + size, buf.Length);
        buf[end] := m;
        size := size + 1;
        return;
      }
      buf[start] := m;
      start := Wrap(start + 1, buf.Length);
    }

    method Copy() returns (dst: seq<Message>)
      requires Valid()
      ensures dst == View().msgs
    {
      dst := [];
      for i := 0 to size
        invariant dst == View().msgs[..i]
      {
        var idx := Wrap(start + i, buf.Length);
        dst := dst + [buf[idx]];
      }
    }

    method IndexByNonce(nonce: string) returns (idx: nat, ok: bool, ghost k: nat)
      requires Valid()
      ensures k == IndexOfNonce(View().msgs, nonce) && ok == (k < size)
      ensures ok ==> idx == Slot(start, k, buf.Length) < buf.Length
    {
      k := IndexOfNonce(View().msgs, nonce);
      for i := 0 to size
        invariant forall j :: 0 <= j < i ==> View().msgs[j].nonce != nonce
      {
        idx := Wrap(start + i, buf.Length);
        assert buf[idx] == View().msgs[i];
        if buf[idx].nonce == nonce { return idx, true, k; }
      }
      idx, ok := 0, false;
    }

    method IndexById(id: MessageId) returns (idx: nat, ok: bool, ghost k: nat)
      requires Valid()
      ensures k == IndexOfId(View().msgs, id) && ok == (k < size)
      ensures ok ==> idx == Slot(start, k, buf.Length) < buf.Length
    {
      k := IndexOfId(View().msgs, id);
      for i := 0 to size
        invariant forall j :: 0 <= j < i ==> View().msgs[j].id != id
      {
        idx := Wrap(start + i, buf.Length);
        assert buf[idx] == View().msgs[i];
        if buf[idx].id == id { return idx, true, k; }
      }
      idx, ok := 0, false;
    }

    method ReplaceByNonce(nonce: string, confirmed: Message) returns (ok: bool)
      requires Valid()
      modifies this, buf
      ensures Valid() && buf == old(buf)
      ensures var k := IndexOfNonce(old(View().msgs), nonce);
              ok == (k < old(size)) &&
              View() == if ok then Window(old(View().msgs)[k := confirmed], confirmed.rev) else old(View())
    {
      var i, found, k := IndexByNonce(nonce);
      if found {
        ghost var cells := buf[..];
        buf[i] := confirmed;
        UpdateCell(cells, start, size, k, buf[i]);
        rev := confirmed.rev;
      }
      ok := found;
    }

    method MarkFailed(nonce: string, newRev: Rev) returns (ok: bool)
      requires Valid()
      modifies this, buf
      ensures Valid() && buf == old(buf)
      ensures var k := IndexOfNonce(old(View().msgs), nonce);
              ok == (k < old(size)) &&
              View() == if ok
                        then Window(old(View().msgs)[k :=
                                old(View().msgs)[k].(failed := true, pending := false, rev := newRev)], newRev)
                        else old(View())
    {
      var i, found, k := IndexByNonce(nonce);
      if found {
        ghost var cells := buf[..];
        buf[i] := buf[i].(failed := true);
        buf[i] := buf[i].(pending := false);
        buf[i] := buf[i].(rev := newRev);
        assert buf[..] == cells[i := buf[i]];
        UpdateCell(cells, start, size, k, buf[i]);
        rev := newRev;
      }
      ok := found;
    }

    method UpdateById(id: MessageId, patch: Message -> Message, newRev: Rev) returns (ok: bool)
      requires Valid()
      modifies this, buf
      ensures Valid() && buf == old(buf)
      ensures var k := IndexOfId(old(View().msgs), id);
              ok == (k < old(size)) &&
              View() == if ok
                        then Window(old(View().msgs)[k := patch(old(View().msgs)[k]).(rev := newRev)], newRev)
                        else old(View())
    {
      var i, found, k := IndexById(id);
      if found {
        ghost var cells := buf[..];
        buf[i] := patch(buf[i]);
        buf[i] := buf[i].(rev := newRev);
        assert buf[..] == cells[i := buf[i]];
        UpdateCell(cells, start, size, k, buf[i]);
        rev := newRev;
      }
      ok := found;
    }

    /** Moves `size - 1` cells from `i` on down by one and blanks the last cell. */
    method ShiftDown(i: nat)
      requires Valid() && i < buf.Length && 0 < size
      modifies buf
      ensures buf[..] == Shifted(old(buf[..]), i, size)[Slot(start, size - 1, buf.Length) := BLANK]
    {
      ghost var cells := buf[..];
      var len := buf.Length;
      for n := 0 to size - 1
        invariant forall q :: 0 <= q < len ==>
          buf[q] == if Offset(i, q, len) < n then cells[Slot(q, 1, len)] else cells[q]
      {
        var from := Wrap(i + 1 + n, len);
        var to := Wrap(i + n, len);
        buf[to] := buf[from];
      }
      assert buf[..] == Shifted(cells, i, size);
      var last := Wrap(start + size - 1, len);
      buf[last] := BLANK;
    }

    /** The removal of logical position `k`, found at cell `i`. */
    method RemoveAt(i: nat, ghost k: nat, newRev: Rev)
      requires Valid() && k < size && i == Slot(start, k, buf.Length)
      modifies this, buf
      ensures Valid() && buf == old(buf)
      ensures View() == Window(AfterRemove(old(View().msgs), k, buf.Length), newRev)
    {
      RemovedCells(buf[..], start, size, k);
      ShiftDown(i);
      size := size - 1;
      rev := newRev;
      if size == 0 { start := 0; }
    }

    /** Shifts `size - 1` cells whatever the position found. */
    method RemoveById(id: MessageId, newRev: Rev) returns (ok: bool)
      requires Valid()
      modifies this, buf
      ensures Valid() && buf == old(buf)
      ensures var k := IndexOfId(old(View().msgs), id);
              ok == (k < old(size)) &&
              View() == if ok then Window(AfterRemove(old(View().msgs), k, buf.Length), newRev) else old(View())
    {
      var i, found, k := IndexById(id);
      if found { RemoveAt(i, k, newRev); }
      ok := found;
    }
  }
}
