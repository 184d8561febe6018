/** Optional values: a missing storage key, an unselected field, an absent id. */
module Maybe {

  datatype Option<+T> = None | Some(value: T)
}
