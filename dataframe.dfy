/** The one-row pandas DataFrame that user_input_features builds, extends and
    projects. */
module DataFrames {
  import opened Numbers
  import opened PyDict

  /** The error `df[names]` raises when some requested column does not exist. */
  datatype KeyError = KeyError(missing: seq<string>)

  datatype Result<T> = Ok(value: T) | Err(error: KeyError)

  /** The requested names that are not in `present`. */
  function Absent(names: seq<string>, present: set<string>): (r: seq<string>)
    ensures forall n :: n in r <==> n in names && n !in present
  {
    if names == [] then []
    else if names[0] in present then Absent(names[1..], present)
    else [names[0]] + Absent(names[1..], present)
  }

  /** The columns `names`, in that order, taken from a row that has all of them. */
  function Take(names: seq<string>, cells: map<string, Num>): (row: seq<Column>)
    requires forall n :: n in names ==> n in cells
    ensures Names(row) == names
  {
    seq(|names|, i requires 0 <= i < |names| => Column(names[i], cells[names[i]]))
  }

  /** A DataFrame holding a single row: ordered column labels and that row's cells. */
  class Frame {
    var columns: seq<string>
    var cells: map<string, Num>

    ghost predicate Valid()
      reads this
    {
      Distinct(columns) && forall c :: c in cells <==> c in columns
    }

    /** `pd.DataFrame([data])`: one column per key of the dict, in its order. */
    constructor (data: Dict)
      ensures Valid()
      ensures columns == data.keys && cells == data.entries
    {
      columns := data.keys;
      cells := data.entries;
    }

    /** `df[name] = v`: overwrite the column if it exists, otherwise append it. */
    method SetColumn(name: string, v: Num)
      requires Valid()
      modifies this
      ensures Valid()
      ensures columns == if name in old(columns) then old(columns) else old(columns) + [name]
      ensures cells == old(cells)[name := v]
    {
      if name !in columns {
        assert forall i :: 0 <= i < |columns| ==> columns[i] != name;
        columns := columns + [name];
      }
      cells := cells[name := v];
    }

    /** `df[names]`: the requested columns in the requested order, or a KeyError
        naming every requested column the frame lacks. */
    function Select(names: seq<string>): (r: Result<seq<Column>>)
      reads this
      ensures r.Ok? <==> forall n :: n in names ==> n in cells
      ensures r.Ok? ==> |r.value| == |names|
      ensures r.Ok? ==> forall i :: 0 <= i < |names| ==> r.value[i] == Column(names[i], cells[names[i]])
      ensures r.Err? ==> forall n :: n in r.error.missing <==> n in names && n !in cells
    {
      var missing := Absent(names, cells.Keys);
      if missing == [] then Ok(Take(names, cells))
      else
        assert missing[0] in names && missing[0] !in cells;
        Err(KeyError(missing))
    }
  }
}
