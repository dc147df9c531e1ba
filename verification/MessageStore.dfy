/** The message half of internal/store/store.go and internal/store/mutation.go:
    a store whose methods update maps keyed by channel in place. */
module MessageStore {
  import opened Collections
  import opened Messages
  import opened History
  import OlderPage

  type ChannelId = nat

  class Store {
    const historyLimit: nat
    var rev: Rev
    var messages: map<ChannelId, Window>
    var deletedMessages: map<ChannelId, map<MessageId, Rev>>
    var prunedDeleteRevision: map<ChannelId, Rev>
    var channelGeneration: map<ChannelId, nat>

    ghost predicate Valid()
      reads this
    {
      && historyLimit > 0
      && (forall c :: c in messages ==> |messages[c].msgs| <= historyLimit)
      && (forall c :: c in deletedMessages ==> 0 !in deletedMessages[c])
    }

    /** What the store holds for one channel. */
    ghost function View(c: ChannelId): Hist
      reads this
    {
      Hist(rev,
           if c in messages then Some(messages[c]) else None,
           if c in deletedMessages then deletedMessages[c] else map[],
           if c in prunedDeleteRevision then prunedDeleteRevision[c] else 0)
    }

    function Generation(c: ChannelId): nat
      reads this
    {
      if c in channelGeneration then channelGeneration[c] else 0
    }

    /** Channel `c` now holds `becomes`; the maps agree with before on every other channel. */
    twostate predicate Only(c: ChannelId, becomes: Hist)
      reads this
    {
      && View(c) == becomes
      && channelGeneration == old(channelGeneration)
      && messages - {c} == old(messages) - {c}
      && deletedMessages - {c} == old(deletedMessages) - {c}
      && prunedDeleteRevision - {c} == old(prunedDeleteRevision) - {c}
    }

    constructor (limit: int)
      ensures Valid() && historyLimit == if limit <= 0 then 200 else limit
      ensures forall c :: View(c) == EMPTY && Generation(c) == 0
    {
      historyLimit := if limit <= 0 then 200 else limit;
      rev := 0;
      messages, deletedMessages, prunedDeleteRevision, channelGeneration := map[], map[], map[], map[];
    }

    method NextRevision() returns (r: Rev)
      modifies `rev
      ensures r == rev == old(rev) + 1
    {
      rev := rev + 1;
      r := rev;
    }

    method ClearMessageTombstone(c: ChannelId, id: MessageId)
      requires Valid()
      modifies `deletedMessages
      ensures Valid()
      ensures View(c).deleted == Clear(old(View(c).deleted), id)
      ensures deletedMessages - {c} == old(deletedMessages) - {c}
    {
      if id == 0 { return; }
      if c !in deletedMessages {
        assert Clear(map[], id) == map[];
        return;
      }
      var deleted := deletedMessages[c] - {id};
      if |deleted| == 0 {
        assert deleted == map[];
        deletedMessages := deletedMessages - {c};
      } else {
        deletedMessages := deletedMessages[c := deleted];
      }
    }

    method AppendMessage(c: ChannelId, m: Message)
      requires Valid()
      modifies this
      ensures Valid()
      ensures Only(c, Append(old(View(c)), m, historyLimit))
    {
      var w := if c in messages then messages[c] else Window([], 0);
      var r := NextRevision();
      messages := messages[c := Push(w, m.(rev := r), historyLimit)];
      ClearMessageTombstone(c, m.id);
    }

    method ReplaceMessage(c: ChannelId, nonce: string, confirmed: Message) returns (ok: bool)
      requires Valid()
      modifies this
      ensures Valid()
      ensures Only(c, Confirm(old(View(c)), nonce, confirmed).0) && ok == Confirm(old(View(c)), nonce, confirmed).1
    {
      if nonce == "" || c !in messages { return false; }
      var r := NextRevision();
      var s := messages[c].msgs;
      var k := IndexOfNonce(s, nonce);
      if k == |s| { return false; }
      messages := messages[c := Window(s[k := confirmed.(rev := r)], r)];
      ClearMessageTombstone(c, confirmed.id);
      ok := true;
    }

    method HasMessage(c: ChannelId, id: MessageId) returns (ok: bool)
      ensures ok == HasId(Msgs(View(c)), id)
    {
      ok := c in messages && IndexOfId(messages[c].msgs, id) < |messages[c].msgs|;
    }

    /** The create handler of internal/app/app_gateway_state.go. */
    method HandleMessageCreate(c: ChannelId, m: Message)
      requires Valid()
      modifies this
      ensures Valid()
      ensures Only(c, Create(old(View(c)), m, historyLimit))
    {
      var confirmed := ReplaceMessage(c, m.nonce, m);
      if !confirmed {
        var present := HasMessage(c, m.id);
        if !present {
          AppendMessage(c, m);
        }
      }
    }

    method UpdateMessage(c: ChannelId, id: MessageId, patch: Message -> Message) returns (ok: bool)
      requires Valid()
      modifies this
      ensures Valid()
      ensures Only(c, Update(old(View(c)), id, patch)) && ok == HasId(Msgs(old(View(c))), id)
    {
      if c !in messages { return false; }
      var r := NextRevision();
      var s := messages[c].msgs;
      var k := IndexOfId(s, id);
      if k == |s| { return false; }
      messages := messages[c := Window(s[k := patch(s[k]).(rev := r)], r)];
      ok := true;
    }

    method MarkMessageFailed(c: ChannelId, nonce: string) returns (ok: bool)
      requires Valid()
      modifies this
      ensures Valid()
      ensures Only(c, MarkFailed(old(View(c)), nonce))
    {
      if c !in messages { return false; }
      var r := NextRevision();
      var s := messages[c].msgs;
      var k := IndexOfNonce(s, nonce);
      if k == |s| { return false; }
      messages := messages[c := Window(s[k := s[k].(failed := true, pending := false, rev := r)], r)];
      ok := true;
    }

    /** The scan for the tombstone to evict; ids are never zero, so zero marks "none yet". */
    method FindOldest(deleted: map<MessageId, Rev>) returns (oldestId: MessageId, oldestRevision: Rev)
      requires deleted != map[] && 0 !in deleted
      ensures oldestId == Oldest(deleted) && oldestRevision == deleted[oldestId]
    {
      oldestId, oldestRevision := 0, 0;
      var todo := deleted.Keys;
      while todo != {}
        invariant todo <= deleted.Keys
        invariant oldestId == 0 ==> todo == deleted.Keys
        invariant oldestId != 0 ==> oldestId in deleted && oldestRevision == deleted[oldestId]
        invariant oldestId != 0 ==> forall j :: j in deleted && j !in todo ==>
          oldestRevision < deleted[j] || (oldestRevision == deleted[j] && oldestId <= j)
      {
        var id :| id in todo;
        var revision := deleted[id];
        if oldestId == 0 || revision < oldestRevision || (revision == oldestRevision && id < oldestId) {
          oldestId, oldestRevision := id, revision;
        }
        todo := todo - {id};
      }
      assert IsOldest(deleted, Oldest(deleted));
    }

    /** Evicts the oldest tombstone past the limit and raises the watermark to it. */
    method Evict(c: ChannelId, deleted: map<MessageId, Rev>, ghost buried: Hist) returns (kept: map<MessageId, Rev>)
      requires 0 !in deleted && buried.deleted == deleted && buried.pruned == View(c).pruned
      modifies `prunedDeleteRevision
      ensures Trim(buried, historyLimit) == buried.(deleted := kept, pruned := View(c).pruned) && 0 !in kept
      ensures prunedDeleteRevision - {c} == old(prunedDeleteRevision) - {c}
    {
      kept := deleted;
      if |deleted| > historyLimit {
        var oldestId, oldestRevision := FindOldest(deleted);
        kept := deleted - {oldestId};
        if oldestRevision > (if c in prunedDeleteRevision then prunedDeleteRevision[c] else 0) {
          prunedDeleteRevision := prunedDeleteRevision[c := oldestRevision];
        }
      }
    }

    /** Records the delete of `id`. */
    method RecordDelete(c: ChannelId, id: MessageId)
      requires Valid() && id != 0
      modifies `rev, `deletedMessages, `prunedDeleteRevision
      ensures Valid()
      ensures Only(c, Bury(old(View(c)), id, historyLimit))
    {
      hide Trim;
      ghost var before := View(c);
      var deleted := if c in deletedMessages then deletedMessages[c] else map[];
      var r := NextRevision();
      deleted := deleted[id := r];
      ghost var buried := before.(rev := r, deleted := deleted);
      deleted := Evict(c, deleted, buried);
      deletedMessages := deletedMessages[c := deleted];
      assert View(c) == Trim(buried, historyLimit);
    }

    method RemoveMessage(c: ChannelId, id: MessageId) returns (ok: bool)
      requires Valid()
      modifies this
      ensures Valid()
      ensures Only(c, Remove(old(View(c)), id, historyLimit))
      ensures ok == (id != 0 && HasId(Msgs(old(View(c))), id))
    {
      if id == 0 { return false; }
      RecordDelete(c, id);
      if c !in messages { return false; }
      var s := messages[c].msgs;
      var k := IndexOfId(s, id);
      if k == |s| { return false; }
      messages := messages[c := Window(AfterRemove(s, k, historyLimit), rev)];
      ok := true;
    }

    method UnconfirmedEchoes(c: ChannelId, incoming: seq<Message>) returns (out: seq<Message>)
      ensures out == Echoes(Msgs(View(c)), Nonces(incoming))
    {
      out := [];
      if c !in messages { return; }
      var confirmed: set<string> := {};
      for i := 0 to |incoming|
        invariant confirmed == Nonces(incoming[..i])
      {
        assert incoming[..i + 1] == incoming[..i] + [incoming[i]];
        if incoming[i].nonce != "" {
          confirmed := confirmed + {incoming[i].nonce};
        }
      }
      assert incoming[..|incoming|] == incoming;
      var s := messages[c].msgs;
      for i := 0 to |s|
        invariant out + Echoes(s[i..], confirmed) == Echoes(s, confirmed)
      {
        assert s[i..][1..] == s[i + 1..];
        if !s[i].pending && !s[i].failed { continue; }
        if s[i].nonce in confirmed && s[i].nonce != "" { continue; }
        out := out + [s[i]];
      }
    }

    /** Pushes the page onto an empty window, each entry under a fresh revision. */
    method PushPage(c: ChannelId, page: seq<Message>) returns (w: Window)
      requires Valid()
      modifies `rev, `deletedMessages
      ensures Valid()
      ensures View(c).deleted == old(View(c)).deleted - (Ids(page) - {0})
      ensures deletedMessages - {c} == old(deletedMessages) - {c}
      ensures rev == old(rev) + |page|
      ensures w == PushAll(Window([], 0), Stamp(page, old(rev)), historyLimit)
    {
      w := Window([], 0);
      ghost var stamped := Stamp(page, rev);
      for i := 0 to |page|
        invariant Valid() && rev == old(rev) + i
        invariant deletedMessages - {c} == old(deletedMessages) - {c}
        invariant View(c).deleted == old(View(c)).deleted - (Ids(page[..i]) - {0})
        invariant w == PushAll(Window([], 0), stamped[..i], historyLimit)
      {
        assert stamped[i] == page[i].(rev := rev + 1);
        PushAllSnoc(Window([], 0), stamped, i, historyLimit);
        IdsSnoc(page, i);
        var r := NextRevision();
        w := Push(w, page[i].(rev := r), historyLimit);
        ClearMessageTombstone(c, page[i].id);
      }
      assert page[..|page|] == page && stamped[..|page|] == stamped;
    }

    method PushEchoes(w: Window, echoes: seq<Message>) returns (w': Window)
      ensures w' == PushAll(w, echoes, historyLimit)
    {
      w' := w;
      for i := 0 to |echoes|
        invariant w' == PushAll(w, echoes[..i], historyLimit)
      {
        PushAllSnoc(w, echoes, i, historyLimit);
        w' := Push(w', echoes[i], historyLimit);
      }
      assert echoes[..|echoes|] == echoes;
    }

    method SetMessages(c: ChannelId, page: seq<Message>)
      requires Valid()
      modifies this
      ensures Valid()
      ensures Only(c, History.SetMessages(old(View(c)), page, historyLimit))
    {
      var echoes := UnconfirmedEchoes(c, page);
      if |page| == 0 && |echoes| == 0 {
        messages := messages - {c};
        return;
      }
      ghost var stamped := Stamp(page, rev);
      var w := PushPage(c, page);
      w := PushEchoes(w, echoes);
      assert w == PushAll(Window([], 0), stamped + echoes, historyLimit) by {
        PushAllConcat(Window([], 0), stamped, echoes, historyLimit);
      }
      messages := messages[c := w];
    }

    method InstallMessages(c: ChannelId, s: seq<Message>)
      requires Valid() && |s| <= historyLimit
      modifies this
      ensures Valid()
      ensures Only(c, ReplaceMessages(old(View(c)), s))
    {
      if |s| == 0 {
        messages := messages - {c};
        return;
      }
      var w := Window([], 0);
      for i := 0 to |s|
        invariant rev == old(rev) + i && unchanged(`messages) && unchanged(`deletedMessages)
        invariant unchanged(`prunedDeleteRevision) && unchanged(`channelGeneration)
        invariant w.msgs == Stamp(s, old(rev))[..i] && w.rev == if i == 0 then 0 else rev
      {
        var r := NextRevision();
        w := Push(w, s[i].(rev := r), historyLimit);
      }
      assert w.msgs == Stamp(s, old(rev));
      messages := messages[c := w];
    }

    method RemoveChannelMessages(c: ChannelId)
      requires Valid()
      modifies this
      ensures Valid()
      ensures View(c) == Drop(old(View(c))) && Generation(c) == old(Generation(c)) + 1
      ensures forall d :: d != c ==> View(d) == old(View(d)) && Generation(d) == old(Generation(d))
    {
      messages := messages - {c};
      deletedMessages := deletedMessages - {c};
      prunedDeleteRevision := prunedDeleteRevision - {c};
      channelGeneration := channelGeneration[c := Generation(c) + 1];
    }

    method PrependMessagesSince(c: ChannelId, page: seq<Message>, request: Rev)
      requires Valid()
      modifies this
      ensures Valid()
      ensures Only(c, PrependSince(old(View(c)), page, request, historyLimit))
    {
      if |page| == 0 { return; }
      var current := if c in messages then messages[c].msgs else [];
      var combined := OlderPage.FreshPage(page, current, if c in deletedMessages then deletedMessages[c] else map[]);
      combined := combined + current;
      var protectedCount := OlderPage.CountProtected(combined, request);
      var bounded;
      if protectedCount >= historyLimit {
        bounded := OlderPage.KeepProtected(combined, request, historyLimit, protectedCount);
      } else {
        bounded := OlderPage.KeepWithRoom(combined, request, historyLimit);
      }
      BoundedFits(combined, request, historyLimit);
      InstallMessages(c, bounded);
    }
  }
}
