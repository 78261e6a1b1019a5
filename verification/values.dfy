/**
 The vocabulary shared by the key-value store: keys, raw byte values, the
 (data, exists) snapshot a caller sees, the store's error kinds, and the
 success/failure wrappers that stand for Go's `(value, error)` returns.
 */
module Values {

  /** One octet of a Go `[]byte`. */
  newtype byte = x: int | 0 <= x < 256

  /** A raw stored value. Go's nil slice and empty slice are both the empty sequence. */
  type Bytes = seq<byte>

  type Key = string

  /** The `Value` record handed to multi-key transaction callbacks: the bytes of
      a key and whether the key was present (Go's `Exists` field; `exists` is a
      Dafny keyword). When `present` is false, `data` carries no meaning. */
  datatype Value = Value(data: Bytes, present: bool)

  /** The errors the store reports or passes through. */
  datatype Error =
    | NotFound(key: Key)                 // a read of an absent key
    | WithKey(key: Key, cause: Error)    // a caller's error annotated with the key it concerned
    | Caller(code: nat)                  // an error produced by caller code: a callback or an Unmarshal

  /** A Go `(T, error)` return: exactly one of the two is meaningful. */
  datatype Result<+T> = Ok(value: T) | Err(error: Error)

  /** A Go `error` return on its own: `Pass` is nil. */
  datatype Outcome = Pass | Fail(error: Error)

  /** The comma-ok lookup `data, ok := m[key]`: an absent key reads as the
      empty (nil) byte string together with `false`. */
  function Read(store: map<Key, Bytes>, key: Key): (v: Value)
    ensures v.present <==> key in store
    ensures v.present ==> v.data == store[key]
    ensures !v.present ==> v.data == []
  {
    if key in store then Value(store[key], true) else Value([], false)
  }
}
