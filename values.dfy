/** Cell values of the pandas tables the pipeline passes between its stages. */
module Values {

  /** A numeric cell: a real number, or the NaN that pandas produces for the
      mean of a column with no usable entries or the maximum of an empty one.
      Every comparison with NaN is false, which the scoring code relies on. */
  datatype Num = Real(r: real) | NaN {

    /** `self > t` in Python: false for NaN. */
    predicate Above(t: real) {
      Real? && r > t
    }

    /** `self >= t` in Python: false for NaN. */
    predicate AtLeast(t: real) {
      Real? && r >= t
    }

    /** `self <= t` in Python: false for NaN. */
    predicate AtMost(t: real) {
      Real? && r <= t
    }
  }

  /** One named column of a single-row table (the session summary row). */
  datatype Column = Column(name: string, value: Num)

  datatype Option<T> = None | Some(value: T)

  /** The column names of a single-row table, in order. */
  function Names(cols: seq<Column>): (names: seq<string>)
    ensures |names| == |cols|
    ensures forall i :: 0 <= i < |cols| ==> names[i] == cols[i].name
  {
    seq(|cols|, i requires 0 <= i < |cols| => cols[i].name)
  }
}
