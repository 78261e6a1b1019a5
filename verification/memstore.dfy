/**
 The in-memory key-value store. Every call of the Go type reads and writes the
 map inside one critical section, so each is modelled here as a single atomic
 step: a pure function from the store before the call to the store after it
 together with what the call returns. The typed wrappers `Set` and `Get` run
 the marshaller before, and the unmarshaller after, that critical section.
 Reads return no new store because they change nothing.
 */
module Memstore {
  import opened Values

  /** The store's whole state: a map from string keys to raw bytes. */
  datatype Memstore = Memstore(store: map<Key, Bytes>)

  /** A single-key transaction callback's successful answer: the new bytes, or
      a request to delete the key. */
  datatype Update = Update(newData: Bytes, deletion: bool)

  /** Called with the key's current bytes and presence. */
  type TransactionOperation = (Bytes, bool) -> Result<Update>

  /** Called with a snapshot of the requested keys; answers with the entries to
      write (`present`) or delete (not `present`). */
  type MutualTransactionOperation = map<Key, Value> -> Result<map<Key, Value>>

  /** What a single-key transaction returns besides the new store. */
  datatype TxReturn = TxReturn(oldData: Bytes, existed: bool, err: Outcome)

  /** What a multi-key transaction returns besides the new store. A nil map is
      the empty map. */
  datatype MutualReturn = MutualReturn(oldContents: map<Key, Value>, newContents: map<Key, Value>, err: Outcome)

  /** A fresh store holds no key at all. */
  function MakeMemstore(): (m: Memstore)
    ensures forall k: Key :: k !in m.store
  {
    Memstore(map[])
  }

  /** Inserts or overwrites one key; never fails. */
  function SetBytes(m: Memstore, key: Key, data: Bytes): (r: (Memstore, Outcome))
    ensures key in r.0.store && r.0.store[key] == data
    ensures r.0.store.Keys == m.store.Keys + {key}
    ensures r.0.store - {key} == m.store - {key}
    ensures r.1 == Pass
  {
    (Memstore(m.store[key := data]), Pass)
  }

  /** Looks a key up; an absent key is reported as `NotFound`. */
  function GetBytes(m: Memstore, key: Key): (r: Result<Bytes>)
    ensures r.Ok? <==> key in m.store
    ensures r.Ok? ==> r.value == m.store[key]
    ensures r.Err? ==> r.error == NotFound(key)
  {
    if key in m.store then Ok(m.store[key]) else Err(NotFound(key))
  }

  /** Removes a key if present; removing an absent key also succeeds. */
  function Delete(m: Memstore, key: Key): (r: (Memstore, Outcome))
    ensures key !in r.0.store
    ensures r.0.store.Keys == m.store.Keys - {key}
    ensures r.0.store - {key} == m.store - {key}
    ensures r.1 == Pass
  {
    (Memstore(m.store - {key}), Pass)
  }

  /** Typed write: the object's own marshaller produces the bytes, which are
      then stored exactly as by `SetBytes`. */
  function Set<T>(m: Memstore, key: Key, obj: T, marshal: T -> Bytes): (r: (Memstore, Outcome))
    ensures key in r.0.store && r.0.store[key] == marshal(obj)
    ensures r.0.store - {key} == m.store - {key}
    ensures r.1 == Pass
  {
    SetBytes(m, key, marshal(obj))
  }

  /** Typed read: a missing key yields `NotFound` and the unmarshaller plays no
      part; otherwise the unmarshaller's verdict on the stored bytes is the
      answer, error included, unchanged. */
  function Get<T>(m: Memstore, key: Key, unmarshal: Bytes -> Result<T>): (r: Result<T>)
    ensures key !in m.store ==> r == Err(NotFound(key))
    ensures key in m.store ==> r == unmarshal(m.store[key])
  {
    match GetBytes(m, key)
    case Err(e) => Err(e)
    case Ok(data) => unmarshal(data)
  }

  /** Atomic read-modify-write of one key. The callback sees the key's bytes
      and presence. If it fails, nothing changes and its error comes back
      annotated with the key, together with empty bytes and the prior
      presence. If it succeeds, the key is deleted or overwritten as asked and
      the call returns what was there before. */
  function Transaction(m: Memstore, key: Key, op: TransactionOperation): (r: (Memstore, TxReturn))
    ensures r.1.existed <==> key in m.store
    ensures op(Read(m.store, key).data, key in m.store).Err? ==>
      && r.0 == m
      && r.1.oldData == []
      && r.1.err == Fail(WithKey(key, op(Read(m.store, key).data, key in m.store).error))
    ensures op(Read(m.store, key).data, key in m.store).Ok? ==>
      && r.1.err == Pass
      && (key in m.store ==> r.1.oldData == m.store[key])
      && (key !in m.store ==> r.1.oldData == [])
      && r.0.store - {key} == m.store - {key}
      && var u := op(Read(m.store, key).data, key in m.store).value;
         (u.deletion ==> key !in r.0.store)
         && (!u.deletion ==> key in r.0.store && r.0.store[key] == u.newData)
  {
    var before := Read(m.store, key);
    match op(before.data, before.present)
    case Err(e) =>
      (m, TxReturn([], before.present, Fail(WithKey(key, e))))
    case Ok(u) =>
      var after := if u.deletion then Delete(m, key).0 else SetBytes(m, key, u.newData).0;
      (after, TxReturn(before.data, before.present, Pass))
  }

  /** The snapshot a multi-key transaction shows its callback, built key by key
      in the order given. Its keys are exactly the distinct requested keys, so
      duplicates collapse, and each entry reports the key's presence and bytes. */
  function Snapshot(store: map<Key, Bytes>, keys: seq<Key>): (s: map<Key, Value>)
    ensures forall k :: k in s <==> k in keys
    ensures forall k :: k in s ==> s[k] == Read(store, k)
    decreases |keys|
  {
    if |keys| == 0 then map[]
    else
      var last := keys[|keys| - 1];
      Snapshot(store, keys[..|keys| - 1])[last := Read(store, last)]
  }

  /** The order-free meaning of writing a callback's answer back: every entry
      marked present is written, every entry marked absent is deleted (whether
      or not it was among the requested keys), and every key the answer does
      not mention is left alone. */
  function Apply(store: map<Key, Bytes>, data: map<Key, Value>): (r: map<Key, Bytes>)
    ensures forall k :: k in data && data[k].present ==> k in r && r[k] == data[k].data
    ensures forall k :: k in data && !data[k].present ==> k !in r
    ensures r - data.Keys == store - data.Keys
  {
    map k | k in store.Keys + data.Keys && (k in data ==> data[k].present) ::
      if k in data then data[k].data else store[k]
  }

  /** Writing the answer back one entry at a time, visiting the entries in
      whatever order the iteration picks, always ends in `Apply(store, data)`:
      the random order of Go's map iteration cannot change the outcome. */
  method WriteBack(store: map<Key, Bytes>, data: map<Key, Value>) returns (r: map<Key, Bytes>)
    ensures r == Apply(store, data)
  {
    r := store;
    var todo := data.Keys;
    while todo != {}
      invariant todo <= data.Keys
      invariant r == Apply(store, data - todo)
      decreases todo
    {
      var k :| k in todo;
      ApplyStep(store, data, todo, k);
      if data[k].present {
        r := r[k := data[k].data];
      } else {
        r := r - {k};
      }
      todo := todo - {k};
    }
    assert data - todo == data;
  }

  /** One step of `WriteBack`: handling one more entry extends the prefix
      already applied. */
  lemma ApplyStep(store: map<Key, Bytes>, data: map<Key, Value>, todo: set<Key>, k: Key)
    requires todo <= data.Keys && k in todo
    ensures Apply(store, data - (todo - {k})) ==
      if data[k].present then Apply(store, data - todo)[k := data[k].data]
      else Apply(store, data - todo) - {k}
  {
  }

  /** Atomic multi-key read-modify-write. The callback sees the snapshot of the
      requested keys. If it fails, nothing changes and the call returns the
      snapshot, an empty answer and the callback's error as it is. If it
      succeeds, its answer is applied entry by entry and returned alongside
      the snapshot. */
  function MutualTransaction(m: Memstore, keys: seq<Key>, op: MutualTransactionOperation): (r: (Memstore, MutualReturn))
    ensures r.1.oldContents == Snapshot(m.store, keys)
    ensures op(Snapshot(m.store, keys)).Err? ==>
      r.0 == m && r.1.newContents == map[] && r.1.err == Fail(op(Snapshot(m.store, keys)).error)
    ensures op(Snapshot(m.store, keys)).Ok? ==>
      var data := op(Snapshot(m.store, keys)).value;
      && r.1.newContents == data
      && r.1.err == Pass
      && (forall k :: k in data && data[k].present ==> k in r.0.store && r.0.store[k] == data[k].data)
      && (forall k :: k in data && !data[k].present ==> k !in r.0.store)
      && r.0.store - data.Keys == m.store - data.Keys
  {
    var oldContents := Snapshot(m.store, keys);
    match op(oldContents)
    case Err(e) => (m, MutualReturn(oldContents, map[], Fail(e)))
    case Ok(data) => (Memstore(Apply(m.store, data)), MutualReturn(oldContents, data, Pass))
  }
}
