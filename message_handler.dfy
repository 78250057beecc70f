/**
 * message_handler/message_handler.go: the buffer of swarm messages waiting to
 * be stored. Messages are held under fresh keys; every heartbeat stores up to
 * 50 of them in one request and, on success, drops them from the buffer; a
 * requested flush is signalled once the buffer is empty. Each method is one
 * atomic step (a whole heartbeat included), so no message arrives during a
 * store; the database, the clock and the key generator are parameters.
 */
module MessageHandler {
  import opened Wrappers

  const MaxMessagesToStorePerRequest: nat := 50

  /** The machine description attached to stored messages; how it is gathered is not modelled. */
  datatype MachineMeta = MachineMeta(summary: string)

  datatype MessageType = ProcessAborted | ProcessStarted | ProcessExited | ProcessStdOut | ProcessStdErr

  /** A swarm message with the two fields the handler fills in: its time and, before a store, its machine. */
  datatype SwarmMessage = SwarmMessage(
    index: int, pid: int, attempt: int, kind: MessageType, data: string, exitCode: int,
    machine: Option<MachineMeta>, time: int)

  /** min. */
  function Min(a: int, b: int): (r: int)
    ensures r <= a && r <= b && (r == a || r == b)
  {
    if a < b then a else b
  }

  predicate Distinct(keys: seq<string>) {
    forall i, j :: 0 <= i < j < |keys| ==> keys[i] != keys[j]
  }

  /** The held messages after `v.Machine = machineMeta` for the keys in `keys`. */
  function Stamped(held: map<string, SwarmMessage>, keys: seq<string>, meta: MachineMeta): (r: map<string, SwarmMessage>)
    ensures r.Keys == held.Keys
  {
    map k | k in held :: if k in keys then held[k].(machine := Some(meta)) else held[k]
  }

  /** How many messages are held after `calls` successful stores of a buffer of n, with nothing new arriving. */
  function HeldAfterStores(n: nat, calls: nat): nat {
    if calls == 0 then n else HeldAfterStores(n - Min(n, MaxMessagesToStorePerRequest), calls - 1)
  }

  /** A buffer of n messages is empty after ceil(n / 50) successful stores, and not before. */
  lemma {:induction false} StoresToEmpty(n: nat, calls: nat)
    ensures HeldAfterStores(n, calls) == 0 <==> calls * MaxMessagesToStorePerRequest >= n
  {
    if calls > 0 {
      StoresToEmpty(n - Min(n, MaxMessagesToStorePerRequest), calls - 1);
    }
  }

  /** Stamping one more held message. */
  lemma StampNext(held: map<string, SwarmMessage>, keys: seq<string>, key: string, meta: MachineMeta)
    requires key in held
    ensures Stamped(held, keys, meta)[key := held[key].(machine := Some(meta))] == Stamped(held, keys + [key], meta)
  {
  }

  /** The held messages whose keys are not in `keys`. */
  function Without(held: map<string, SwarmMessage>, keys: seq<string>): (r: map<string, SwarmMessage>)
    ensures forall k :: k in r <==> k in held && k !in keys
  {
    map k | k in held && k !in keys :: held[k]
  }

  /** Deleting one more key. */
  lemma WithoutNext(held: map<string, SwarmMessage>, keys: seq<string>, key: string)
    ensures Without(held, keys) - {key} == Without(held, keys + [key])
  {
  }

  /**
   * Removing a batch of distinct held keys removes exactly that many
   * messages and leaves every other message as it was.
   */
  lemma {:induction false} WithoutSize(held: map<string, SwarmMessage>, keys: seq<string>)
    requires Distinct(keys)
    requires forall k :: 0 <= k < |keys| ==> keys[k] in held
    ensures |Without(held, keys)| == |held| - |keys|
    ensures forall k :: k in Without(held, keys) ==> Without(held, keys)[k] == held[k]
  {
    if keys != [] {
      var front := keys[..|keys| - 1];
      var last := keys[|keys| - 1];
      assert Distinct(front);
      assert forall k :: 0 <= k < |front| ==> front[k] in held by {
        forall k | 0 <= k < |front| ensures front[k] in held { assert front[k] == keys[k]; }
      }
      WithoutSize(held, front);
      assert last !in front by {
        forall k | 0 <= k < |front| ensures front[k] != last { assert front[k] == keys[k]; }
      }
      WithoutNext(held, front, last);
      assert front + [last] == keys;
      var w := Without(held, front);
      assert last in w;
      assert (w - {last}).Keys == w.Keys - {last};
      assert |w.Keys - {last}| == |w.Keys| - 1;
    } else {
      assert Without(held, keys) == held;
    }
  }

  /**
   * The `for k, v := range holdingMessages` loop: toWrite distinct held keys,
   * in an order the map chooses, each of their messages stamped with the
   * machine's metadata.
   */
  method PickKeys(held: map<string, SwarmMessage>, toWrite: nat, meta: MachineMeta)
    returns (batch: seq<string>, stamped: map<string, SwarmMessage>)
    requires toWrite <= |held|
    ensures |batch| == toWrite && Distinct(batch)
    ensures forall k :: 0 <= k < |batch| ==> batch[k] in held
    ensures stamped == Stamped(held, batch, meta)
  {
    batch := [];
    stamped := held;
    var remaining := held.Keys;
    while |batch| < toWrite
      invariant |batch| <= toWrite && Distinct(batch)
      invariant forall k :: 0 <= k < |batch| ==> batch[k] in held && batch[k] !in remaining
      invariant remaining <= held.Keys && |remaining| == |held| - |batch|
      invariant stamped == Stamped(held, batch, meta)
    {
      var key :| key in remaining;
      StampNext(held, batch, key, meta);
      batch := batch + [key];
      stamped := stamped[key := stamped[key].(machine := Some(meta))];
      remaining := remaining - {key};
    }
  }

  /** The `docs` loop: the held message of each batched key, in batch order. */
  method CollectDocs(held: map<string, SwarmMessage>, keys: seq<string>) returns (docs: seq<SwarmMessage>)
    requires forall k :: 0 <= k < |keys| ==> keys[k] in held
    ensures |docs| == |keys|
    ensures forall k :: 0 <= k < |keys| ==> docs[k] == held[keys[k]]
  {
    docs := [];
    while |docs| < |keys|
      invariant |docs| <= |keys|
      invariant forall k :: 0 <= k < |docs| ==> docs[k] == held[keys[k]]
    {
      docs := docs + [held[keys[|docs|]]];
    }
  }

  /** The `delete(holdingMessages, k)` loop after a successful store. */
  method DeleteKeys(held: map<string, SwarmMessage>, keys: seq<string>) returns (rest: map<string, SwarmMessage>)
    ensures rest == Without(held, keys)
  {
    rest := held;
    var j := 0;
    while j < |keys|
      invariant 0 <= j <= |keys|
      invariant rest == Without(held, keys[..j])
    {
      WithoutNext(held, keys[..j], keys[j]);
      assert keys[..j] + [keys[j]] == keys[..j + 1];
      rest := rest - {keys[j]};
      j := j + 1;
    }
    assert keys[..j] == keys;
  }

  /**
   * The store over the held messages: the batch picked, the documents sent
   * and the messages held afterwards, given the database's answer.
   */
  method StoreMessages(held: map<string, SwarmMessage>, meta: MachineMeta, insertOk: bool)
    returns (batch: seq<string>, docs: seq<SwarmMessage>, rest: map<string, SwarmMessage>)
    ensures |batch| == Min(|held|, MaxMessagesToStorePerRequest) && Distinct(batch)
    ensures forall k :: 0 <= k < |batch| ==> batch[k] in held
    ensures |docs| == |batch|
    ensures forall k :: 0 <= k < |batch| ==> docs[k] == held[batch[k]].(machine := Some(meta))
    ensures rest == if insertOk then Without(held, batch) else Stamped(held, batch, meta)
    ensures |rest| == if insertOk then |held| - |batch| else |held|
  {
    var stamped;
    batch, stamped := PickKeys(held, Min(|held|, MaxMessagesToStorePerRequest), meta);
    docs := CollectDocs(stamped, batch);
    rest := stamped;
    if insertOk {
      WithoutSize(held, batch);
      rest := DeleteKeys(stamped, batch);
      assert rest == Without(held, batch);
    }
  }

  class Handler {
    /** holdingMessages */
    var holding: map<string, SwarmMessage>
    /** writingMessages: the keys of the batch being stored */
    var writing: seq<string>
    /** flushChan != nil */
    var flushRequested: bool
    /** How many times `true` has been sent on the flush channel. */
    var flushSignals: nat
    var didStartup: bool
    var machineMeta: MachineMeta

    constructor ()
      ensures holding == map[] && writing == [] && !flushRequested && flushSignals == 0
      ensures !didStartup && machineMeta == MachineMeta("")
    {
      holding := map[];
      writing := [];
      flushRequested := false;
      flushSignals := 0;
      didStartup := false;
      machineMeta := MachineMeta("");
    }

    /**
     * Run: only the first call starts up and records the machine's metadata;
     * any later one returns straight away. The heartbeat loop it then enters
     * is the caller invoking BulkStoreMessagesInMongo once a second.
     */
    method Run(meta: MachineMeta) returns (started: bool)
      modifies this
      ensures started == !old(didStartup)
      ensures didStartup
      ensures machineMeta == if started then meta else old(machineMeta)
      ensures holding == old(holding) && writing == old(writing)
      ensures flushRequested == old(flushRequested) && flushSignals == old(flushSignals)
    {
      if didStartup {
        return false;
      }
      didStartup := true;
      machineMeta := meta;
      started := true;
    }

    /** Flush: install (or, with no channel, remove) the channel a completed flush is signalled on. */
    method Flush(given: bool)
      modifies this
      ensures flushRequested == given
      ensures holding == old(holding) && writing == old(writing) && flushSignals == old(flushSignals)
      ensures didStartup == old(didStartup) && machineMeta == old(machineMeta)
    {
      flushRequested := given;
    }

    /** ProcessSwarmMessage: stamp the time and hold the message under the key the generator gave. */
    method ProcessSwarmMessage(message: SwarmMessage, key: string, now: int)
      modifies this
      ensures holding == old(holding)[key := message.(time := now)]
      ensures key !in old(holding) ==> |holding| == old(|holding|) + 1
      ensures writing == old(writing) && flushRequested == old(flushRequested) && flushSignals == old(flushSignals)
      ensures didStartup == old(didStartup) && machineMeta == old(machineMeta)
    {
      holding := holding[key := message.(time := now)];
    }

    /**
     * bulkStoreMessagesInMongo, one heartbeat. With nothing held it only
     * completes a pending flush. Otherwise it stamps and sends the batch of
     * min(held, 50) messages; `insertOk` is the database's answer. Only on
     * success are the batched messages dropped; the stamps stay either way.
     * A pending flush completes once nothing is held.
     */
    method BulkStoreMessagesInMongo(insertOk: bool) returns (batch: seq<string>, docs: seq<SwarmMessage>)
      modifies this
      ensures old(|holding|) == 0 ==> batch == [] && docs == [] && holding == old(holding) && writing == old(writing)
      ensures old(|holding|) > 0 ==> writing == []
      ensures |batch| == Min(old(|holding|), MaxMessagesToStorePerRequest) && Distinct(batch)
      ensures forall k :: 0 <= k < |batch| ==> batch[k] in old(holding)
      ensures |docs| == |batch|
      ensures forall k :: 0 <= k < |batch| ==> docs[k] == old(holding)[batch[k]].(machine := Some(machineMeta))
      ensures holding == if insertOk then Without(old(holding), batch) else Stamped(old(holding), batch, machineMeta)
      ensures |holding| == if insertOk then old(|holding|) - |batch| else old(|holding|)
      ensures insertOk ==> |holding| == HeldAfterStores(old(|holding|), 1)
      ensures flushRequested == (old(flushRequested) && |holding| > 0)
      ensures flushSignals == old(flushSignals) + if old(flushRequested) && |holding| == 0 then 1 else 0
      ensures didStartup == old(didStartup) && machineMeta == old(machineMeta)
    {
      if |holding| <= 0 {
        batch, docs := [], [];
      } else {
        batch, docs := StoreBatch(insertOk);
      }
      CompleteFlush();
    }

    /**
     * The heartbeat loop of Run for `beats` beats during which no message
     * arrives and every store succeeds: HeldAfterStores(n, beats) messages
     * are left of the n held before, so by StoresToEmpty the buffer is empty
     * exactly when beats * 50 >= n.
     */
    method Heartbeats(beats: nat)
      modifies this
      ensures |holding| == HeldAfterStores(old(|holding|), beats)
      ensures |holding| == 0 <==> beats * MaxMessagesToStorePerRequest >= old(|holding|)
      ensures didStartup == old(didStartup) && machineMeta == old(machineMeta)
    {
      var beat := 0;
      while beat < beats
        invariant 0 <= beat <= beats
        invariant HeldAfterStores(|holding|, beats - beat) == HeldAfterStores(old(|holding|), beats)
        invariant didStartup == old(didStartup) && machineMeta == old(machineMeta)
      {
        ghost var before := |holding|;
        var _, _ := BulkStoreMessagesInMongo(true);
        assert HeldAfterStores(before, beats - beat) == HeldAfterStores(|holding|, beats - beat - 1);
        beat := beat + 1;
      }
      StoresToEmpty(old(|holding|), beats);
    }

    /** The part of a heartbeat that runs when messages are held: stamp, send, and drop them on success. */
    method StoreBatch(insertOk: bool) returns (batch: seq<string>, docs: seq<SwarmMessage>)
      requires |holding| > 0
      modifies this
      ensures writing == []
      ensures |batch| == Min(old(|holding|), MaxMessagesToStorePerRequest) && Distinct(batch)
      ensures forall k :: 0 <= k < |batch| ==> batch[k] in old(holding)
      ensures |docs| == |batch|
      ensures forall k :: 0 <= k < |batch| ==> docs[k] == old(holding)[batch[k]].(machine := Some(machineMeta))
      ensures holding == if insertOk then Without(old(holding), batch) else Stamped(old(holding), batch, machineMeta)
      ensures |holding| == if insertOk then old(|holding|) - |batch| else old(|holding|)
      ensures flushRequested == old(flushRequested) && flushSignals == old(flushSignals)
      ensures didStartup == old(didStartup) && machineMeta == old(machineMeta)
    {
      var rest;
      batch, docs, rest := StoreMessages(holding, machineMeta, insertOk);
      writing := batch;
      holding := rest;
      writing := [];
    }

    /** The closing `if flushChan != nil`: signal and clear a pending flush once nothing is held. */
    method CompleteFlush()
      modifies this
      ensures flushRequested == (old(flushRequested) && |holding| > 0)
      ensures flushSignals == old(flushSignals) + if old(flushRequested) && |holding| == 0 then 1 else 0
      ensures holding == old(holding) && writing == old(writing)
      ensures didStartup == old(didStartup) && machineMeta == old(machineMeta)
    {
      if flushRequested {
        if |holding| == 0 {
          flushSignals := flushSignals + 1;
          flushRequested := false;
        }
      }
    }
  }
}
