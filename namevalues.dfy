/**
 * Component parameters as an ordered list of name/value entries, and the
 * `setNameVal` upsert that `Generate` uses to fill them.
 */
module NameValues {
  import opened Util

  /** `configtypes.NameValue`. */
  datatype NameValue = NameValue(name: string, value: string, initRequired: bool)


  /** Index of the first entry called `name`, if there is one. */
  function FindName(entries: seq<NameValue>, name: string): (k: Option<nat>)
    ensures k.Some? ==> k.value < |entries| && entries[k.value].name == name &&
                        forall j :: 0 <= j < k.value ==> entries[j].name != name
    ensures k.None? ==> forall j :: 0 <= j < |entries| ==> entries[j].name != name
  {
    if entries == [] then None
    else if entries[0].name == name then Some(0)
    else match FindName(entries[1..], name)
      case None => None
      case Some(k) => Some(k + 1)
  }

  /** The entry a reader of the list sees for `name`: the first one with that name. */
  function Entry(entries: seq<NameValue>, name: string): Option<NameValue>
  {
    match FindName(entries, name)
    case None => None
    case Some(k) => Some(entries[k])
  }

  /**
   * The entry `name` has once `val` is set with flag `required`, given the entry
   * `prev` it had before: an existing entry keeps its `InitRequired`, a new one
   * takes `required`.
   */
  function Upserted(prev: Option<NameValue>, name: string, val: string, required: bool): NameValue
  {
    NameValue(name, val, if prev.Some? then prev.value.initRequired else required)
  }

  /** The list after `setNameVal(entries, name, val, required)`. */
  function Upsert(entries: seq<NameValue>, name: string, val: string, required: bool): (r: seq<NameValue>)
    // An existing entry: only the first one called `name` changes, and only its value.
    ensures FindName(entries, name).Some? ==>
              var k := FindName(entries, name).value;
              |r| == |entries| && r[k] == NameValue(name, val, entries[k].initRequired) &&
              forall j :: 0 <= j < |r| && j != k ==> r[j] == entries[j]
    // No such entry: exactly one entry is appended and the others stay as they were.
    ensures FindName(entries, name).None? ==>
              |r| == |entries| + 1 && r[..|entries|] == entries &&
              r[|entries|] == NameValue(name, val, required)
  {
    match FindName(entries, name)
    case Some(k) => entries[k := entries[k].(value := val)]
    case None => entries + [NameValue(name, val, required)]
  }

  /**
   * `setNameVal`: scans for the first entry called `name`; overwrites its value
   * in place and returns, or appends a fresh entry after the scan.
   */
  method SetNameVal(entries: seq<NameValue>, name: string, val: string, required: bool)
    returns (r: seq<NameValue>)
    ensures r == Upsert(entries, name, val, required)
  {
    r := entries;
    var i := 0;
    while i < |r|
      invariant 0 <= i <= |r| && r == entries
      invariant forall j :: 0 <= j < i ==> entries[j].name != name
    {
      if r[i].name == name {
        r := r[i := r[i].(value := val)];
        assert FindName(entries, name) == Some(i);
        return;
      }
      i := i + 1;
    }
    r := r + [NameValue(name, val, required)];
  }

  /** The first index is determined by the entries' names alone. */
  lemma FindNameIs(entries: seq<NameValue>, name: string, k: Option<nat>)
    requires k.Some? ==> k.value < |entries| && entries[k.value].name == name &&
                         forall j :: 0 <= j < k.value ==> entries[j].name != name
    requires k.None? ==> forall j :: 0 <= j < |entries| ==> entries[j].name != name
    ensures FindName(entries, name) == k
  {
  }

  /**
   * After the upsert, `name` reads as `val` with the flag it already had (or
   * `required` when it is new), and every other name reads as before.
   */
  lemma EntryUpsert(entries: seq<NameValue>, name: string, val: string, required: bool, other: string)
    ensures Entry(Upsert(entries, name, val, required), name) == Some(Upserted(Entry(entries, name), name, val, required))
    ensures other != name ==>
              Entry(Upsert(entries, name, val, required), other) == Entry(entries, other)
  {
    var r := Upsert(entries, name, val, required);
    var k := FindName(entries, name);
    if k.Some? {
      FindNameIs(r, name, k);
    } else {
      FindNameIs(r, name, Some(|entries|));
    }
    if other != name {
      var m := FindName(entries, other);
      if m.Some? {
        assert forall j :: 0 <= j <= m.value ==> r[j].name == entries[j].name;
        assert r[m.value] == entries[m.value];
      } else {
        assert forall j :: 0 <= j < |entries| ==> r[j].name == entries[j].name;
      }
      FindNameIs(r, other, m);
    }
  }

  /** Setting the same value twice is the same as setting it once. */
  lemma UpsertIdempotent(entries: seq<NameValue>, name: string, val: string, required: bool)
    ensures Upsert(Upsert(entries, name, val, required), name, val, required) ==
            Upsert(entries, name, val, required)
  {
    var r := Upsert(entries, name, val, required);
    match FindName(entries, name)
    case Some(k) =>
      assert FindName(r, name) == Some(k);
    case None =>
      assert FindName(r, name) == Some(|entries|);
  }
}
