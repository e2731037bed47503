/** Cell values of the one-row feature table in app.py. */
module Numbers {

  /** A Python number as st.number_input returns it: an `int` when the widget's
      default is an integer, a `float` when it is a float. Floats are modelled
      as reals (no rounding). */
  datatype Num = Int(i: int) | Float(x: real)

  /** The value app.py writes into every expected column the user did not
      supply (`df[col] = 0.0`). */
  const MissingFill: Num := Float(0.0)

  /** One column of a one-row table: its name and its single cell. */
  datatype Column = Column(name: string, value: Num)

  /** No element of `s` occurs twice. */
  predicate Distinct<T(==)>(s: seq<T>) {
    forall i, j :: 0 <= i < j < |s| ==> s[i] != s[j]
  }

  /** The names of a row's columns, in order. */
  function Names(row: seq<Column>): seq<string> {
    seq(|row|, i requires 0 <= i < |row| => row[i].name)
  }
}
