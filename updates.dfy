/**
 * The dynamic `UPDATE ... SET key = ?, ...` both `updateGame` and `updateReview` build from a
 * body: the entries are assigned left to right, so a column ends with the last value written to it.
 */
module Updates {
  import opened Wrappers

  /** The assignments of a `SET` list, left to right. */
  function ApplyAll<R, U>(r: R, us: seq<U>, apply: (R, U) -> R): R
    decreases |us|
  {
    if us == [] then r else apply(ApplyAll(r, us[..|us| - 1], apply), us[|us| - 1])
  }

  /** The value the last entry naming column `c` binds, if any entry names it. */
  function LastWrite<U, C(==), V>(us: seq<U>, column: U -> C, value: U -> V, c: C): Option<V>
    decreases |us|
  {
    if us == [] then None
    else if column(us[|us| - 1]) == c then Some(value(us[|us| - 1]))
    else LastWrite(us[..|us| - 1], column, value, c)
  }

  /** A column is written iff some entry names it. */
  lemma {:induction false} LastWriteNone<U, C, V>(us: seq<U>, column: U -> C, value: U -> V, c: C)
    ensures LastWrite(us, column, value, c).None? <==> forall k :: 0 <= k < |us| ==> column(us[k]) != c
    decreases |us|
  {
    if us != [] {
      LastWriteNone(us[..|us| - 1], column, value, c);
    }
  }

  /** A one-entry list writes its entry's column only. */
  lemma LastWriteSingle<U, C, V>(u: U, column: U -> C, value: U -> V, c: C)
    ensures LastWrite([u], column, value, c) == if column(u) == c then Some(value(u)) else None
  {
    assert [u][..0] == [];
  }

  /** The last write to a column in `a + b` is `b`'s if `b` writes it, else `a`'s. */
  lemma {:induction false} LastWriteAppend<U, C, V>(a: seq<U>, b: seq<U>, column: U -> C, value: U -> V, c: C)
    ensures LastWrite(a + b, column, value, c)
         == if LastWrite(b, column, value, c).Some? then LastWrite(b, column, value, c) else LastWrite(a, column, value, c)
    decreases |b|
  {
    if b == [] {
      assert a + b == a;
    } else {
      assert (a + b)[..|a + b| - 1] == a + b[..|b| - 1];
      LastWriteAppend(a, b[..|b| - 1], column, value, c);
    }
  }

  /**
   * When one assignment sets its own column to its value and leaves every other column alone, the
   * whole list leaves each column with its last written value, or with what it held.
   */
  lemma {:induction false} ApplyAllColumns<R, U, C, V>(r: R, us: seq<U>, apply: (R, U) -> R, read: (R, C) -> V,
                                                           column: U -> C, value: U -> V, c: C)
    requires forall x, u :: read(apply(x, u), column(u)) == value(u)
    requires forall x, u, d :: d != column(u) ==> read(apply(x, u), d) == read(x, d)
    ensures read(ApplyAll(r, us, apply), c) == LastWrite(us, column, value, c).GetOr(read(r, c))
    decreases |us|
  {
    if us != [] {
      ApplyAllColumns(r, us[..|us| - 1], apply, read, column, value, c);
    }
  }
}
