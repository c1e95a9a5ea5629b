/**
 * The device's key-value storage as the app reads it back. An item is
 * either JSON of the expected shape or text that does not parse; every
 * reader in the app treats a missing key, an empty item and an unparsable
 * item alike as the empty value.
 */
module Store {

  datatype Option<T> = None | Some(value: T)

  /** What one storage key holds. */
  datatype Raw<T> = Corrupt | Json(value: T)

  /** Read `key`, falling back to `empty` when it is missing or corrupt. */
  function Read<K, T>(items: map<K, Raw<T>>, key: K, empty: T): (r: T)
    ensures key in items && items[key].Json? ==> r == items[key].value
    ensures key !in items || items[key].Corrupt? ==> r == empty
  {
    if key in items && items[key].Json? then items[key].value else empty
  }

  /** Writing a key and reading it back gives what was written; other keys
      read as before. */
  lemma ReadAfterWrite<K, T>(items: map<K, Raw<T>>, key: K, other: K, value: T, empty: T)
    ensures Read(items[key := Json(value)], key, empty) == value
    ensures other != key ==> Read(items[key := Json(value)], other, empty) == Read(items, other, empty)
  {
  }
}
