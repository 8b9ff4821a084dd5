/** Small things every part uses. */
module Options {
  datatype Option<+T> = None | Some(value: T)

  /** Nothing is listed twice. */
  predicate RepeatFree<T(==)>(s: seq<T>) {
    forall i, j :: 0 <= i < j < |s| ==> s[i] != s[j]
  }

  function Elements<T(==)>(s: seq<T>): set<T> {
    set x | x in s
  }
}
