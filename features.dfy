/** user_input_features in app.py: the user's five values become a one-row
    table, every expected feature the row lacks is filled with 0.0, and the row is
    projected onto the expected features in the model's declared order. */
module FeatureSchema {
  import opened Numbers
  import opened PyDict
  import opened DataFrames

  /** The feature names behind the five sidebar fields, in the order app.py
      inserts them. */
  const OrigPort := "id.orig_p"
  const RespPort := "id.resp_p"
  const FlowDuration := "flow_duration"
  const FwdPackets := "fwd_pkts_tot"
  const BwdPackets := "bwd_pkts_tot"

  /** The values of the five fields, keyed by feature name. */
  function UserInputs(origP: int, respP: int, duration: real, fwd: int, bwd: int): map<string, Num> {
    map[OrigPort := Int(origP), RespPort := Int(respP), FlowDuration := Float(duration),
        FwdPackets := Int(fwd), BwdPackets := Int(bwd)]
  }

  /** The fields' widget defaults. */
  const DefaultInputs: map<string, Num> := UserInputs(38667, 1883, 32.0, 9, 5)

  /** What the resolved row holds under an expected name: the supplied value, or
      the fill value when nothing was supplied. */
  function Provided(provided: map<string, Num>, name: string): Num {
    if name in provided then provided[name] else MissingFill
  }

  /** Reference definition of the resolved row: one column per expected name, in
      the expected order. */
  function Resolved(features: seq<string>, provided: map<string, Num>): (row: seq<Column>)
    ensures |row| == |features|
  {
    if features == [] then []
    else [Column(features[0], Provided(provided, features[0]))] + Resolved(features[1..], provided)
  }

  /** Column i of the resolved row is named features[i] and holds the supplied
      value unchanged, or 0.0 when that name was not supplied. */
  lemma {:induction false} ResolvedAt(features: seq<string>, provided: map<string, Num>, i: nat)
    requires i < |features|
    ensures Resolved(features, provided)[i].name == features[i]
    ensures features[i] in provided ==> Resolved(features, provided)[i].value == provided[features[i]]
    ensures features[i] !in provided ==> Resolved(features, provided)[i].value == MissingFill
  {
    if i > 0 {
      ResolvedAt(features[1..], provided, i - 1);
    }
  }

  /** The names of the resolved row are exactly the expected names, in order. */
  lemma {:induction false} ResolvedNames(features: seq<string>, provided: map<string, Num>)
    ensures Names(Resolved(features, provided)) == features
  {
    forall i | 0 <= i < |features| ensures Names(Resolved(features, provided))[i] == features[i] {
      ResolvedAt(features, provided, i);
    }
  }

  /** A supplied key that is not an expected name does not appear in the row. */
  lemma {:induction false} ResolvedDropsExtra(features: seq<string>, provided: map<string, Num>, extra: string)
    requires extra !in features
    ensures forall c :: c in Resolved(features, provided) ==> c.name != extra
  {
    if features != [] {
      ResolvedDropsExtra(features[1..], provided, extra);
    }
  }

  /** The row depends only on what is supplied under the expected names: two
      inputs that agree there resolve to the same row. */
  lemma {:induction false} ResolvedDependsOnExpectedOnly(features: seq<string>, p: map<string, Num>, q: map<string, Num>)
    requires forall n :: n in features ==> (n in p <==> n in q)
    requires forall n :: n in features && n in p ==> p[n] == q[n]
    ensures Resolved(features, p) == Resolved(features, q)
  {
    if features != [] {
      ResolvedDependsOnExpectedOnly(features[1..], p, q);
    }
  }

  /** When the model declares each feature once, each expected name labels exactly
      one column of the row. */
  lemma ResolvedUniqueColumns(features: seq<string>, provided: map<string, Num>)
    requires Distinct(features)
    ensures Distinct(Names(Resolved(features, provided)))
  {
    ResolvedNames(features, provided);
  }

  /** Lines 57-64 for any dict of supplied values: build the one-row frame, add
      every expected column it lacks with 0.0, and project onto the expected
      names. */
  method Reconcile(features: seq<string>, data: Dict) returns (row: seq<Column>)
    ensures row == Resolved(features, data.entries)
  {
    var frame := new Frame(data);
    // The columns the loop appends, and for each the index of the expected name it came from.
    ghost var added: seq<string> := [];
    ghost var origin: seq<nat> := [];
    for i := 0 to |features|
      invariant frame.Valid()
      invariant frame.columns == data.keys + added
      invariant |origin| == |added|
      invariant forall k :: 0 <= k < |added| ==> origin[k] < i && added[k] == features[origin[k]] && added[k] !in data.entries
      invariant forall j :: 0 <= j < i ==> features[j] in frame.cells
      invariant forall c :: c in frame.cells ==> frame.cells[c] == Provided(data.entries, c)
    {
      var col := features[i];
      if col !in frame.columns {
        frame.SetColumn(col, MissingFill);
        added, origin := added + [col], origin + [i];
      }
    }
    var selected := frame.Select(features);
    row := selected.value;
    SelectedIsResolved(features, data.entries, frame.cells, row);
  }

  /** Projecting a table that holds Provided(provided, n) under every expected
      name n gives the resolved row. */
  lemma SelectedIsResolved(features: seq<string>, provided: map<string, Num>, cells: map<string, Num>, row: seq<Column>)
    requires forall n :: n in features ==> n in cells && cells[n] == Provided(provided, n)
    requires |row| == |features|
    requires forall i :: 0 <= i < |features| ==> row[i] == Column(features[i], cells[features[i]])
    ensures row == Resolved(features, provided)
  {
    forall i | 0 <= i < |features| ensures row[i] == Resolved(features, provided)[i] {
      ResolvedAt(features, provided, i);
    }
  }

  /** user_input_features: fill the dict from the five fields in order, then
      reconcile it with the model's expected features. */
  method UserInputFeatures(features: seq<string>, origP: int, respP: int, duration: real, fwd: int, bwd: int)
    returns (row: seq<Column>)
    ensures row == Resolved(features, UserInputs(origP, respP, duration, fwd, bwd))
  {
    var data := Empty;
    data := Put(data, OrigPort, Int(origP));
    data := Put(data, RespPort, Int(respP));
    data := Put(data, FlowDuration, Float(duration));
    data := Put(data, FwdPackets, Int(fwd));
    data := Put(data, BwdPackets, Int(bwd));
    assert data.entries == UserInputs(origP, respP, duration, fwd, bwd);
    row := Reconcile(features, data);
  }

  /** With the widget defaults, each column holds the default of its field when it
      is one of the five, and 0.0 otherwise. */
  lemma DefaultRow(features: seq<string>, i: nat)
    requires i < |features|
    ensures var v := Resolved(features, DefaultInputs)[i].value;
      v == (if features[i] == OrigPort then Int(38667)
            else if features[i] == RespPort then Int(1883)
            else if features[i] == FlowDuration then Float(32.0)
            else if features[i] == FwdPackets then Int(9)
            else if features[i] == BwdPackets then Int(5)
            else Float(0.0))
  {
    ResolvedAt(features, DefaultInputs, i);
  }
}
