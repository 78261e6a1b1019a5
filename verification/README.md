# Memstore in Dafny

A model of `Memstore`, the unencrypted in-memory backend of the `ekv`
key-value store: a map from string keys to byte strings guarded by one
lock, with raw byte reads and writes, typed reads and writes through
caller-supplied marshallers, and two atomic read-modify-write primitives —
`Transaction` over one key and `MutualTransaction` over a set of keys — that
run a caller-supplied callback while the lock is held.

Every call reads and writes the map inside one critical section, so each
call is modelled as one atomic step. That step is a pure function from the
store before the call (`Memstore.Memstore`, a `map<Key, Bytes>`) to the store
after it, paired with what the Go method returns. The typed wrappers `Set` and
`Get` run the marshaller or unmarshaller outside that critical section:
`Marshal` runs before `SetBytes` takes the lock, and `Unmarshal` runs after
`GetBytes` has released it. Callbacks, `Marshal` and `Unmarshal` are pure
function-typed parameters. The properties hold for every callback that does
not edit the map or byte slices it is given (see "## Left out").

Files:

- `values.dfy` (module `Values`): bytes, keys, the `Value` snapshot record,
  the error kinds (`NotFound`, `WithKey` for an error annotated with its key,
  `Caller` for errors produced by caller code), and `Result`/`Outcome` for Go's
  `(T, error)` and `error` returns (`Pass` is a nil error).
- `memstore.dfy` (module `Memstore`): the store and its operations.
- `properties.dfy` (module `MemstoreProperties`): lemmas relating the
  operations to each other.

Two details of the error paths:

- A failed `Transaction` returns a nil `old`, not the bytes it read
  (memstore.go:112). The model returns the empty byte string there.
- A failed `MutualTransaction` returns the callback's error without the key,
  while `Transaction` adds the key (memstore.go:112 against 139).

## Model

| member | source | states |
|---|---|---|
| `Values.Read` | memstore.go:106 | The comma-ok lookup: present exactly when the key is in the map, then the stored bytes; absent reads as empty bytes. |
| `Memstore.MakeMemstore` | memstore.go:29-32 | A new store contains no key. |
| `Memstore.SetBytes` | memstore.go:80-86 | The key afterwards holds exactly the given bytes, the key set grows by at most that key, every other key is unchanged, and the error is nil. |
| `Memstore.GetBytes` | memstore.go:88-99 | Succeeds exactly when the key is present, with the stored bytes; otherwise fails with `NotFound` for that key. |
| `Memstore.Delete` | memstore.go:48-55 | The key is absent afterwards, the key set loses only that key, every other key is unchanged, and the error is nil even if the key was absent. |
| `Memstore.Set` | memstore.go:34-37 | The key holds the marshaller's bytes for the object, other keys are unchanged, and no error is returned. |
| `Memstore.Get` | memstore.go:39-46 | A missing key gives `NotFound`; a present key gives exactly the unmarshaller's result on the stored bytes, error included. |
| `Memstore.Transaction` | memstore.go:101-121 | The callback sees the key's bytes and presence; `existed` is the prior presence; on callback failure the store is unchanged, `old` is empty and the error is the callback's annotated with the key; on success the error is nil, `old` is the prior bytes, the key is deleted or set to the new bytes as asked and no other key changes. |
| `Memstore.Snapshot` | memstore.go:128-134 | The snapshot's keys are exactly the distinct requested keys, and each entry is the key's presence and stored bytes. |
| `Memstore.Apply` | memstore.go:142-149 | Every answer entry marked present is written, every entry marked absent is deleted, requested or not, and keys the answer does not mention keep their contents. |
| `Memstore.WriteBack` | memstore.go:142-149 | Writing the answer back entry by entry, in whatever order the map iteration visits the entries, ends in the same store as `Apply`. |
| `Memstore.MutualTransaction` | memstore.go:123-152 | Returns the snapshot of the requested keys; on callback failure the store is unchanged and the callback's error is returned unannotated with an empty answer; on success the answer is returned, its present entries are written, its absent entries deleted, and all other keys are unchanged. |
| `MemstoreProperties.FreshStoreHasNoKeys` | memstore.go:29-32 | Every raw read of a new store fails with `NotFound`. |
| `MemstoreProperties.SetBytesThenGetBytes` | memstore.go:80-99 | A raw read after a raw write returns the written bytes; reads of other keys are as before. |
| `MemstoreProperties.DeleteThenGetBytes` | memstore.go:48-55 | A raw read after a delete fails with `NotFound`; reads of other keys are as before. |
| `MemstoreProperties.DeleteIdempotent` | memstore.go:48-55 | Deleting twice equals deleting once, and deleting an absent key leaves the store unchanged. |
| `MemstoreProperties.SetBytesOverwrites` | memstore.go:80-86 | Of two writes to one key the second wins entirely. |
| `MemstoreProperties.SetBytesOfReadIsNoOp` | memstore.go:80-99 | Writing back the bytes a read returned leaves the store unchanged. |
| `MemstoreProperties.SetThenGet` | memstore.go:34-46 | If unmarshalling inverts marshalling for an object, a typed read after a typed write returns that object. |
| `MemstoreProperties.GetMissingIgnoresUnmarshal` | memstore.go:40-44 | For a missing key the typed read's result does not depend on the unmarshaller: it is `NotFound`. |
| `MemstoreProperties.GetFailsIffReadOrDecodeFails` | memstore.go:40-46 | A typed read fails exactly when the raw read fails or the unmarshaller rejects the stored bytes, and then equals the unmarshaller's result. |
| `MemstoreProperties.FailedTransactionIsNoOp` | memstore.go:110-113 | A transaction whose callback always fails leaves the store unchanged, returns an error and reports the prior presence. |
| `MemstoreProperties.TransactionReportsPriorRead` | memstore.go:106-120 | `existed` agrees with whether a raw read just before the call succeeds, and a successful transaction returns exactly the bytes that read returns. |
| `MemstoreProperties.TransactionThenGetBytes` | memstore.go:110-120 | After a transaction whose callback succeeds, a raw read of the key returns the callback's new bytes, or `NotFound` if it asked for deletion, and raw reads of every other key are as before. |
| `MemstoreProperties.KeepAsIsTransactionIsNoOp` | memstore.go:106-118 | A transaction whose callback writes back what it was shown, deleting when absent, leaves the store unchanged. |
| `MemstoreProperties.SnapshotIgnoresOrderAndRepeats` | memstore.go:129-134 | Two key lists with the same members, in any order and with any repeats, give the same snapshot. |
| `MemstoreProperties.FailedMutualTransactionIsNoOp` | memstore.go:137-140 | A multi-key transaction whose callback always fails leaves the store unchanged and returns an error. |
| `MemstoreProperties.EmptyAnswerIsNoOp` | memstore.go:143-151 | A multi-key transaction whose callback succeeds with an empty answer leaves the store unchanged. |
| `MemstoreProperties.OneKeyMutualTransactionAgreesWithTransaction` | memstore.go:102-152 | A multi-key transaction over one key running a single-key callback leaves the same store as the single-key transaction, sees the same prior presence, fails in the same cases, and differs in the error only by the key annotation. |
| `MemstoreProperties.SwapExchangesContents` | memstore.go:123-152 | A multi-key transaction that swaps two distinct keys leaves each holding what the other held, presence included, and leaves every other key as it was. |
| `MemstoreProperties.IncrementExample` | memstore.go:80-121 | Storing the byte 1 under "a" and incrementing it in a transaction returns old bytes 1, present, nil error, and leaves 2 stored. |

## Left out

- The `sync.RWMutex` and every claim about concurrent callers (linearizability, a concurrent reader seeing a swap all-or-nothing, stress tests): each call is one atomic step of a sequential state machine, which is what the lock provides, but the lock itself is not modelled.
- `SetInterface` and `GetInterface` (memstore.go:57-78): they rely on `encoding/json`, whose behaviour is not part of this model.
- The concrete `Marshaler` and `Unmarshaler` implementations and the `KeyValue` interface declaration: they are not part of this model; marshalling is an arbitrary total function to bytes and unmarshalling an arbitrary function to a `Result`.
- `Memstore.Get`: Go's `Unmarshal` fills an object in place and returns only an error; the model has it return the decoded object or the error instead.
- Error message text and `errors.Wrapf` formatting: errors are the abstract kinds `NotFound`, `WithKey` and `Caller`.
- Nil versus empty slices and maps: both are the empty sequence or map, so a nil `old`, a nil snapshot `Data` and the nil answer map of a failed `MutualTransaction` are all empty.
- Slice aliasing: `GetBytes` hands out the stored slice itself in Go; values here are immutable, so mutation through a returned slice cannot be expressed.
- Memstore.Transaction: the callback is a pure function, so edits it makes to the byte slice it is given are not modelled. In Go that slice is the stored slice itself (memstore.go:106, 110), so such an edit changes the returned `old` and the store, even when the callback then fails. `MemstoreProperties.FailedTransactionIsNoOp` holds only for callbacks that do not edit their argument.
- Memstore.MutualTransaction: the callback is a pure function, so edits it makes to the snapshot map or to its `Data` slices are not modelled. In Go the callback receives the very `oldContents` map that is returned first (memstore.go:137, 139, 151), so edits to that map show up in the returned `oldContents`. The `Data` slices are the stored slices (memstore.go:132), so edits to them change the store, even when the callback then fails. The model always returns the untouched snapshot. `MemstoreProperties.FailedMutualTransactionIsNoOp` holds only for callbacks that do not edit their argument.
- Callbacks that call back into the store (a deadlock in Go) or never return: callbacks are total functions.
