/**
 Properties that relate several store operations: round trips between the
 writes and the reads, idempotence and overwriting, aborted transactions as
 no-ops, what reads see after a transaction, and the agreement between
 the single-key and the multi-key transaction.
 */
module MemstoreProperties {
  import opened Values
  import opened Memstore

  /** Nothing has been written to a fresh store, so every read misses. */
  lemma FreshStoreHasNoKeys(key: Key)
    ensures GetBytes(MakeMemstore(), key) == Err(NotFound(key))
  {
  }

  /** A write is read back exactly, and reads of every other key are unaffected. */
  lemma SetBytesThenGetBytes(m: Memstore, key: Key, data: Bytes, other: Key)
    ensures GetBytes(SetBytes(m, key, data).0, key) == Ok(data)
    ensures other != key ==> GetBytes(SetBytes(m, key, data).0, other) == GetBytes(m, other)
  {
  }

  /** After a delete the key reads as missing, whether or not it was there, and
      reads of every other key are unaffected. */
  lemma DeleteThenGetBytes(m: Memstore, key: Key, other: Key)
    ensures GetBytes(Delete(m, key).0, key) == Err(NotFound(key))
    ensures other != key ==> GetBytes(Delete(m, key).0, other) == GetBytes(m, other)
  {
  }

  /** Deleting twice is deleting once; deleting an absent key changes nothing. */
  lemma DeleteIdempotent(m: Memstore, key: Key)
    ensures Delete(Delete(m, key).0, key) == Delete(m, key)
    ensures key !in m.store ==> Delete(m, key).0 == m
  {
  }

  /** The second of two writes to one key wins. */
  lemma SetBytesOverwrites(m: Memstore, key: Key, first: Bytes, second: Bytes)
    ensures SetBytes(SetBytes(m, key, first).0, key, second) == SetBytes(m, key, second)
  {
    assert m.store[key := first][key := second] == m.store[key := second];
  }

  /** Writing back what a read returned changes nothing. */
  lemma SetBytesOfReadIsNoOp(m: Memstore, key: Key)
    requires GetBytes(m, key).Ok?
    ensures SetBytes(m, key, GetBytes(m, key).value).0 == m
  {
  }

  /** Typed round trip: when the unmarshaller inverts the marshaller, `Get`
      after `Set` returns the very object stored. */
  lemma SetThenGet<T>(m: Memstore, key: Key, obj: T, marshal: T -> Bytes, unmarshal: Bytes -> Result<T>)
    requires unmarshal(marshal(obj)) == Ok(obj)
    ensures Get(Set(m, key, obj, marshal).0, key, unmarshal) == Ok(obj)
  {
  }

  /** A typed read of a missing key never consults the unmarshaller: any two
      unmarshallers give the same `NotFound`. */
  lemma GetMissingIgnoresUnmarshal<T>(m: Memstore, key: Key, u1: Bytes -> Result<T>, u2: Bytes -> Result<T>)
    requires key !in m.store
    ensures Get(m, key, u1) == Get(m, key, u2) == Err(NotFound(key))
  {
  }

  /** A typed read fails exactly when the raw read fails or the unmarshaller
      rejects the bytes; a decode error is passed through without the key. */
  lemma GetFailsIffReadOrDecodeFails<T>(m: Memstore, key: Key, unmarshal: Bytes -> Result<T>)
    ensures Get(m, key, unmarshal).Err? <==>
      GetBytes(m, key).Err? || unmarshal(GetBytes(m, key).value).Err?
    ensures GetBytes(m, key).Ok? ==> Get(m, key, unmarshal) == unmarshal(GetBytes(m, key).value)
  {
  }

  /** A transaction whose callback fails leaves the whole store as it was.
      Callbacks are pure here: one that edits the bytes it is given is not modelled. */
  lemma FailedTransactionIsNoOp(m: Memstore, key: Key, op: TransactionOperation)
    requires forall data: Bytes, present: bool :: op(data, present).Err?
    ensures Transaction(m, key, op).0 == m
    ensures Transaction(m, key, op).1.err.Fail?
    ensures Transaction(m, key, op).1.existed == (key in m.store)
  {
  }

  /** What a transaction reports is what a raw read just before it returns:
      on success the old bytes exactly when the read succeeds, and in every
      case the presence the read saw. */
  lemma TransactionReportsPriorRead(m: Memstore, key: Key, op: TransactionOperation)
    ensures Transaction(m, key, op).1.existed <==> GetBytes(m, key).Ok?
    ensures Transaction(m, key, op).1.err == Pass && GetBytes(m, key).Ok? ==>
      Transaction(m, key, op).1.oldData == GetBytes(m, key).value
  {
  }

  /** After a successful transaction a raw read of the key returns the
      callback's new bytes, or misses if the callback asked for deletion, and
      raw reads of every other key return what they returned before. */
  lemma TransactionThenGetBytes(m: Memstore, key: Key, op: TransactionOperation, other: Key)
    ensures var u := op(Read(m.store, key).data, key in m.store);
      u.Ok? ==>
        && GetBytes(Transaction(m, key, op).0, key) ==
             (if u.value.deletion then Err(NotFound(key)) else Ok(u.value.newData))
        && (other != key ==> GetBytes(Transaction(m, key, op).0, other) == GetBytes(m, other))
  {
  }

  /** The callback that hands back exactly what it was shown: keeping present
      bytes and deleting an absent key. */
  function KeepAsIs(data: Bytes, present: bool): Result<Update>
  {
    Ok(Update(data, !present))
  }

  /** A transaction that writes back what it read changes nothing. */
  lemma KeepAsIsTransactionIsNoOp(m: Memstore, key: Key)
    ensures Transaction(m, key, KeepAsIs).0 == m
  {
  }

  /** Listing the same keys in another order, or with repeats, yields the same
      snapshot. */
  lemma SnapshotIgnoresOrderAndRepeats(store: map<Key, Bytes>, keys1: seq<Key>, keys2: seq<Key>)
    requires forall k :: k in keys1 <==> k in keys2
    ensures Snapshot(store, keys1) == Snapshot(store, keys2)
  {
  }

  /** A multi-key transaction whose callback fails leaves the whole store as it was.
      Callbacks are pure here: one that edits the snapshot it is given is not modelled. */
  lemma FailedMutualTransactionIsNoOp(m: Memstore, keys: seq<Key>, op: MutualTransactionOperation)
    requires forall snap: map<Key, Value> :: op(snap).Err?
    ensures MutualTransaction(m, keys, op).0 == m
    ensures MutualTransaction(m, keys, op).1.err.Fail?
  {
  }

  /** A callback that answers with nothing writes nothing. */
  lemma EmptyAnswerIsNoOp(m: Memstore, keys: seq<Key>, op: MutualTransactionOperation)
    requires op(Snapshot(m.store, keys)) == Ok(map[])
    ensures MutualTransaction(m, keys, op).0 == m
    ensures MutualTransaction(m, keys, op).1.err == Pass
  {
  }

  /** The multi-key callback that runs a single-key callback on one key and
      answers with that key's new state. */
  function OnOneKey(key: Key, op: TransactionOperation): MutualTransactionOperation
  {
    (shown: map<Key, Value>) =>
      var v := if key in shown then shown[key] else Value([], false);
      match op(v.data, v.present)
      case Err(e) => Err(e)
      case Ok(u) => Ok(map[key := Value(u.newData, !u.deletion)])
  }

  /** A multi-key transaction over the single key `key`, running a single-key
      callback, leaves the store exactly as the single-key transaction does,
      reports the same prior presence, and fails exactly when it fails (the
      single-key one adds the key to the error, the multi-key one does not). */
  lemma OneKeyMutualTransactionAgreesWithTransaction(m: Memstore, key: Key, op: TransactionOperation)
    ensures MutualTransaction(m, [key], OnOneKey(key, op)).0 == Transaction(m, key, op).0
    ensures MutualTransaction(m, [key], OnOneKey(key, op)).1.oldContents[key].present ==
      Transaction(m, key, op).1.existed
    ensures MutualTransaction(m, [key], OnOneKey(key, op)).1.err.Fail? <==>
      Transaction(m, key, op).1.err.Fail?
    ensures Transaction(m, key, op).1.err.Fail? ==>
      Transaction(m, key, op).1.err.error ==
        WithKey(key, MutualTransaction(m, [key], OnOneKey(key, op)).1.err.error)
  {
  }

  /** The callback that exchanges the contents of two keys, presence included. */
  function Swap(k1: Key, k2: Key): MutualTransactionOperation
  {
    (shown: map<Key, Value>) =>
      if k1 in shown && k2 in shown then Ok(map[k1 := shown[k2], k2 := shown[k1]])
      else Err(Caller(0))
  }

  /** Swapping two distinct keys in one multi-key transaction exchanges their
      contents and touches nothing else. */
  lemma SwapExchangesContents(m: Memstore, k1: Key, k2: Key, other: Key)
    requires k1 != k2
    ensures var after := MutualTransaction(m, [k1, k2], Swap(k1, k2)).0;
      && GetBytes(after, k1) == (if k2 in m.store then Ok(m.store[k2]) else Err(NotFound(k1)))
      && GetBytes(after, k2) == (if k1 in m.store then Ok(m.store[k1]) else Err(NotFound(k2)))
      && (other != k1 && other != k2 ==> GetBytes(after, other) == GetBytes(m, other))
  {
  }

  /** The callback that increments a one-byte counter, failing on anything else. */
  function Increment(data: Bytes, present: bool): Result<Update>
  {
    if present && |data| == 1 && data[0] < 255 then Ok(Update([data[0] + 1], false))
    else Err(Caller(1))
  }

  /** Storing 1 under "a" and then incrementing it in a transaction reports the
      old 1 as present and leaves 2 behind. */
  lemma IncrementExample()
    ensures var m := SetBytes(MakeMemstore(), "a", [1]).0;
      && Transaction(m, "a", Increment).1 == TxReturn([1], true, Pass)
      && GetBytes(Transaction(m, "a", Increment).0, "a") == Ok([2])
  {
  }
}
