// What several widgets' models share.

module Common {
  datatype Option<T> = None | Some(value: T)

  // No element occurs twice.
  ghost predicate Distinct<T>(s: seq<T>) {
    forall i, j :: 0 <= i < j < |s| ==> s[i] != s[j]
  }

  lemma Reassociated<T>(p: seq<T>, q: seq<T>, r: seq<T>)
    ensures p + (q + r) == (p + q) + r
  {
  }
}
