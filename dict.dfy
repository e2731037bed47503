/** The Python dict `data` that user_input_features fills key by key. */
module PyDict {
  import opened Numbers

  /** A dict as Python keeps it: keys in insertion order, and their values. */
  datatype DictRep = DictRep(keys: seq<string>, entries: map<string, Num>)

  /** Every key once, and the ordered keys are exactly the mapped ones. */
  ghost predicate WellFormed(d: DictRep) {
    Distinct(d.keys) && forall k :: k in d.entries <==> k in d.keys
  }

  type Dict = d: DictRep | WellFormed(d) witness DictRep([], map[])

  /** `{}` */
  const Empty: Dict := DictRep([], map[])

  /** `d[k] = v`: a new key goes to the end of the order, an existing key keeps its
      place and only its value changes. */
  function Put(d: Dict, k: string, v: Num): (r: Dict)
    ensures r.entries == d.entries[k := v]
    ensures |r.keys| == |d.keys| + (if k in d.entries then 0 else 1)
    ensures r.keys[..|d.keys|] == d.keys
  {
    if k in d.entries then
      DictRep(d.keys, d.entries[k := v])
    else
      assert forall i :: 0 <= i < |d.keys| ==> d.keys[i] != k;
      DictRep(d.keys + [k], d.entries[k := v])
  }
}
