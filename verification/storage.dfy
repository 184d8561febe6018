/**
 * The browser's key-value store as both scripts read it: each keeps one list
 * under one key, and a key that was never written holds nothing.
 */
module Storage {
  import opened Maybe

  /** `getBookings()` and `getTasksFromStorage()`: the stored list, or the
      empty list when the key is missing. */
  function ReadList<T>(stored: Option<seq<T>>): (items: seq<T>)
    ensures stored.None? ==> items == []
    ensures stored.Some? ==> items == stored.value
  {
    match stored
    case None => []
    case Some(items) => items
  }
}
