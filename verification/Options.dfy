/** Nullable columns, nil references and map lookups that may miss. */
module Options {

  datatype Option<+T> = None | Some(value: T)
}

/** Ranging over a map or a set, which the source does in no particular order. */
module Iteration {

  method Pick<T>(s: set<T>) returns (x: T)
    requires s != {}
    ensures x in s
  {
    x :| x in s;
  }
}
