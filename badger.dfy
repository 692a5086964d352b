/**
 * Stand-in for the embedded database (github.com/dgraph-io/badger): the whole
 * store is a finite map from keys to values. `View` is the read-only
 * transaction the GET handler runs, `Update` the read-write one of SET.
 * Whether the library reports an error is an input, since its internals are
 * not part of this model.
 */
module Badger {
  import opened Wrappers
  import opened Resp

  type Key = ByteString
  type Store = map<Key, ByteString>

  /** The value stored under `key`, if any. */
  function Lookup(store: Store, key: Key): (v: Option<ByteString>)
    ensures v.Some? <==> key in store
    ensures v.Some? ==> v.value == store[key]
  {
    if key in store then Some(store[key]) else None
  }

  /**
   * The slice a `View` transaction leaves in `val`: nil (`None`) when the
   * lookup reports an error (a missing key is `ErrKeyNotFound`, any other
   * failure is `fails`; a failing `item.Value()` is taken to hand back a nil
   * slice too), otherwise the stored bytes. `emptyReadsNil` says
   * whether the library hands an empty stored value back as a nil slice.
   */
  function View(store: Store, key: Key, fails: bool, emptyReadsNil: bool): (val: Option<ByteString>)
    ensures val.Some? <==> !fails && key in store && !(emptyReadsNil && store[key] == [])
    ensures val.Some? ==> val.value == store[key]
  {
    if fails || key !in store then None
    else if emptyReadsNil && store[key] == [] then None
    else Some(store[key])
  }

  /**
   * An `Update` transaction that sets `key` to `val`. A failed transaction is
   * discarded and leaves the store as it was; a successful one changes that
   * key alone.
   */
  function Update(store: Store, key: Key, val: ByteString, fails: bool): (after: Store)
    ensures fails ==> after == store
    ensures !fails ==> key in after && after[key] == val
    ensures !fails ==> after.Keys == store.Keys + {key}
    ensures forall k :: k != key ==> Lookup(after, k) == Lookup(store, k)
  {
    if fails then store else store[key := val]
  }
}
