/** internal/app/app_history.go and the history steps of internal/app/app_gateway_state.go:
    the methods that move one channel of the store and its load gate, each proved to be
    the step of the same name in HistoryProtocol. */
module HistoryLoads {
  import opened Collections
  import opened Messages
  import opened History
  import opened LoadGate
  import MessageStore
  import HistoryProtocol
  import InitialPage

  type ChannelId = MessageStore.ChannelId

  class App {
    const store: MessageStore.Store
    const historyGate: KeyedGate<ChannelId>
    var hydrated: set<ChannelId>

    constructor (limit: int)
      ensures Valid() && fresh(store) && fresh(historyGate)
      ensures forall c :: Client(c) == HistoryProtocol.INIT
    {
      store := new MessageStore.Store(limit);
      historyGate := new KeyedGate<ChannelId>();
      hydrated := {};
    }

    ghost predicate Valid()
      reads this, store
    {
      store.Valid()
    }

    /** The client's part of the protocol's world for one channel. */
    ghost function Client(c: ChannelId): HistoryProtocol.World
      reads this, store, historyGate
    {
      HistoryProtocol.INIT.(h := store.View(c), hydrated := c in hydrated, generation := store.Generation(c),
                            gate := historyGate.View(c))
    }

    /** Begins an initial load; the snapshot is what the completion will compare with. */
    method LoadHistory(c: ChannelId, limit: nat) returns (granted: bool, r: HistoryProtocol.Request)
      requires Valid()
      modifies historyGate
      ensures Valid()
      ensures granted == Begin(old(historyGate.View(c))).1
      ensures Client(c) == old(Client(c)).(gate := Begin(old(historyGate.View(c))).0)
      ensures granted ==>
        HistoryProtocol.BeginLoad(old(Client(c)), 0, limit) == Client(c).(requests := map[0 := r])
    {
      var version;
      version, granted := historyGate.BeginVersion(c);
      r := HistoryProtocol.Request(false, store.rev, store.Generation(c), version, limit, None);
    }

    /** Begins an older load, unless the window is empty or starts with a local echo. */
    method LoadOlderHistory(c: ChannelId) returns (granted: bool, r: HistoryProtocol.Request)
      requires Valid()
      modifies historyGate
      ensures Valid()
      ensures HistoryProtocol.BeginOlderLoad(old(Client(c)), 0) ==
              Client(c).(requests := if granted then map[0 := r] else map[])
    {
      var version;
      version, granted := historyGate.BeginOlderVersion(c);
      r := HistoryProtocol.Request(true, store.rev, store.Generation(c), version, HistoryProtocol.OLDER_LIMIT, None);
      if !granted { return; }
      var messages := if c in store.messages then store.messages[c].msgs else [];
      if |messages| == 0 || messages[0].id == 0 {
        var current := historyGate.FinishOlderVersion(c, historyGate.Version(c), true);
        granted := false;
      }
    }

    /** A page that arrived: discarded when its lifetime or version is over, or when
        deletes were forgotten since; else merged into the window. */
    method CompleteHistory(c: ChannelId, r: HistoryProtocol.Request, page: seq<Message>)
      requires Valid() && !r.older
      modifies store, historyGate
      ensures Valid()
      ensures Client(c) == HistoryProtocol.Install(old(Client(c)), r, page, store.historyLimit)
    {
      if store.Generation(c) != r.generation || historyGate.Version(c) != r.version { return; }
      var pruned := if c in store.prunedDeleteRevision then store.prunedDeleteRevision[c] else 0;
      if pruned > r.revision {
        var current := historyGate.FinishVersion(c, historyGate.Version(c), false);
        return;
      }
      var merged := Merged(c, page, r.revision);
      store.SetMessages(c, merged);
      var current := historyGate.FinishVersion(c, historyGate.Version(c), true);
      if r.limit == 0 || |page| < r.limit {
        historyGate.MarkKeyExhausted(c);
      }
    }

    method Merged(c: ChannelId, page: seq<Message>, revision: Rev) returns (merged: seq<Message>)
      requires Valid()
      ensures merged == InitialPage.Merge(store.View(c), page, revision)
    {
      var window := if c in store.messages then Some(store.messages[c]) else None;
      var deleted := if c in store.deletedMessages then store.deletedMessages[c] else map[];
      merged := InitialPage.MergeInitialHistory(Hist(store.rev, window, deleted, 0), page, revision);
    }

    method CompleteOlderHistory(c: ChannelId, r: HistoryProtocol.Request, page: seq<Message>)
      requires Valid() && r.older
      modifies store, historyGate
      ensures Valid()
      ensures Client(c) == HistoryProtocol.Install(old(Client(c)), r, page, store.historyLimit)
    {
      if store.Generation(c) != r.generation || historyGate.Version(c) != r.version { return; }
      var pruned := if c in store.prunedDeleteRevision then store.prunedDeleteRevision[c] else 0;
      if pruned > r.revision {
        var current := historyGate.FinishOlderVersion(c, historyGate.Version(c), false);
        return;
      }
      store.PrependMessagesSince(c, page, r.revision);
      var current := historyGate.FinishOlderVersion(c, historyGate.Version(c), |page| < r.limit);
    }

    method FailHistory(c: ChannelId, r: HistoryProtocol.Request)
      requires Valid()
      modifies historyGate
      ensures Valid()
      ensures Client(c) == HistoryProtocol.Abort(old(Client(c)), r)
    {
      if store.Generation(c) != r.generation || historyGate.Version(c) != r.version { return; }
      var current;
      if r.older {
        current := historyGate.FinishOlderVersion(c, historyGate.Version(c), false);
      } else {
        current := historyGate.FinishVersion(c, historyGate.Version(c), false);
      }
    }

    /** A gateway event, taken from the head of the queue. */
    method HandleEvent(c: ChannelId, e: HistoryProtocol.Event)
      requires Valid()
      modifies this, store, historyGate
      ensures Valid()
      ensures Client(c) == HistoryProtocol.Handle(old(Client(c)), e, store.historyLimit)
    {
      match e
      case ECreate(id, nonce, body) => store.HandleMessageCreate(c, HistoryProtocol.FromServer(id, nonce, body));
      case EUpdate(id, body) => var found := store.UpdateMessage(c, id, (m: Message) => m.(body := body));
      case EDelete(id) => var found := store.RemoveMessage(c, id);
      case EChannelDelete =>
        historyGate.InvalidateKey(c);
        store.RemoveChannelMessages(c);
        hydrated := hydrated - {c};
      case EChannelUpsert =>
        if c !in hydrated {
          store.channelGeneration := store.channelGeneration[c := store.Generation(c) + 1];
          hydrated := hydrated + {c};
        }
    }
  }
}
