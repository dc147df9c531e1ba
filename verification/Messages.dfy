/** Messages and the bounded window of a channel, as values.

    A window is what one ring of internal/store/ring.go holds: the messages,
    oldest first, and the revision of its latest change. */
module Messages {
  import opened Collections

  type Rev = nat
  type MessageId = nat

  /** `id == 0` marks a local echo; `body` stands for all rendered content. */
  datatype Message = Message(id: MessageId, nonce: string, body: nat, pending: bool, failed: bool, rev: Rev)

  const BLANK := Message(0, "", 0, false, false, 0)

  datatype Window = Window(msgs: seq<Message>, rev: Rev)

  /** The same message, up to its revision. */
  predicate Restamped(x: Message, y: Message) { x == y.(rev := x.rev) }

  function Max(a: nat, b: nat): nat { if a < b then b else a }
  function Min(a: int, b: int): int { if a < b then a else b }

  /** The last `cap` entries of `s`. */
  function KeepLast(s: seq<Message>, cap: nat): seq<Message> {
    if |s| <= cap then s else s[|s| - cap..]
  }

  function Push(w: Window, m: Message, cap: nat): (w': Window)
    ensures |w'.msgs| <= cap && |w'.msgs| <= |w.msgs| + 1
  {
    Window(KeepLast(w.msgs + [m], cap), Max(w.rev, m.rev))
  }

  /** Position of the oldest entry with this id, or `|s|`. */
  function IndexOfId(s: seq<Message>, id: MessageId): (k: nat)
    ensures k <= |s|
    ensures k < |s| ==> s[k].id == id
    ensures forall j :: 0 <= j < k ==> s[j].id != id
  {
    if s == [] then 0 else if s[0].id == id then 0 else 1 + IndexOfId(s[1..], id)
  }

  /** Position of the oldest entry with this nonce, or `|s|`. */
  function IndexOfNonce(s: seq<Message>, nonce: string): (k: nat)
    ensures k <= |s|
    ensures k < |s| ==> s[k].nonce == nonce
    ensures forall j :: 0 <= j < k ==> s[j].nonce != nonce
  {
    if s == [] then 0 else if s[0].nonce == nonce then 0 else 1 + IndexOfNonce(s[1..], nonce)
  }

  predicate HasId(s: seq<Message>, id: MessageId) {
    exists k :: 0 <= k < |s| && s[k].id == id
  }

  /** No two confirmed messages share an id. */
  ghost predicate DistinctIds(s: seq<Message>) {
    forall i, j :: 0 <= i < j < |s| && s[i].id != 0 ==> s[i].id != s[j].id
  }

  function Without(s: seq<Message>, k: nat): seq<Message>
    requires k < |s|
  {
    s[..k] + s[k + 1..]
  }

  /** When the shift of a removal stays inside the cells at and after the removed one. */
  predicate ShiftFits(size: nat, k: nat, cap: nat) { k + size <= cap + 1 }

  /** How many cells at the front of the window the shift of a removal runs over. */
  function Overrun(size: nat, k: nat, cap: nat): nat {
    if ShiftFits(size, k, cap) then 0 else k + size - (cap + 1)
  }

  /** What a removal leaves. The shift always moves `size - 1` cells, so with an
      overrun of `w` it also drops the oldest entry and repeats entry `w`. */
  function AfterRemove(s: seq<Message>, k: nat, cap: nat): seq<Message>
    requires k < |s| <= cap
  {
    var w := Overrun(|s|, k, cap);
    if w == 0 then Without(s, k) else s[1..w + 1] + s[w..k] + s[k + 1..]
  }

  /** The removal deletes exactly entry `k` if and only if the shift fits. */
  lemma RemoveIsExactIff(s: seq<Message>, k: nat, cap: nat)
    requires k < |s| <= cap
    requires Distinct(s)
    ensures AfterRemove(s, k, cap) == Without(s, k) <==> ShiftFits(|s|, k, cap)
  {
    if !ShiftFits(|s|, k, cap) {
      assert AfterRemove(s, k, cap)[0] == s[1];
      assert Without(s, k)[0] == s[0];
    }
  }

  /** The same guard decides whether ids stay distinct after a removal. */
  lemma RemoveKeepsIdsDistinctIff(s: seq<Message>, k: nat, cap: nat)
    requires k < |s| <= cap
    requires DistinctIds(s) && forall m :: m in s ==> m.id != 0
    ensures DistinctIds(AfterRemove(s, k, cap)) <==> ShiftFits(|s|, k, cap)
  {
    var r := AfterRemove(s, k, cap);
    if ShiftFits(|s|, k, cap) {
      assert forall p :: 0 <= p < |r| ==> r[p] == s[if p < k then p else p + 1];
    } else {
      var w := Overrun(|s|, k, cap);
      assert |s[1..w + 1]| == w && s[1..w + 1][w - 1] == s[w] && s[w..k][0] == s[w];
      assert r[w - 1] == s[w] == r[w];
      assert s[w] in s;
    }
  }
}
