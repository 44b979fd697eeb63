/** The absent-or-present value used wherever the source returns `None`/`False`
    or leaves a dictionary key unset. */
module Optional {

  datatype Option<+T> = None | Some(value: T) {

    /** The value if present, `default` otherwise (Python's `getattr(x, f, default)`). */
    function GetOr(default: T): T {
      match this
      case Some(v) => v
      case None => default
    }
  }
}

/** Facts about sequences used by several modules. */
module Sequences {

  predicate NoDuplicates<T(==)>(s: seq<T>) {
    forall i, j :: 0 <= i < j < |s| ==> s[i] != s[j]
  }

  /** Position of the first occurrence of `x`. */
  function FirstIndex<T(==)>(s: seq<T>, x: T): (k: nat)
    requires x in s
    ensures k < |s| && s[k] == x && x !in s[..k]
  {
    if s[0] == x then 0
    else
      var k := FirstIndex(s[1..], x);
      assert s[..k + 1] == [s[0]] + s[1..][..k];
      k + 1
  }

  /** An element not seen before position `k` first appears at `k`. */
  lemma FirstIndexAt<T>(s: seq<T>, k: nat)
    requires k < |s| && s[k] !in s[..k]
    ensures FirstIndex(s, s[k]) == k
  {
  }
}
