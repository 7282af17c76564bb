/** Decoded JSON values as the Check-Host backend returns them, with the
    Python truthiness that the client code tests them by. */
module JsonValue {

  datatype Option<+T> = None | Some(value: T)

  /** A decoded JSON value. JSON objects keep their fields in order, as a
      Python dict does. */
  datatype Json =
    | JNull
    | JNum(n: real)
    | JStr(s: string)
    | JList(items: seq<Json>)
    | JObj(fields: seq<(string, Json)>)

  /** Python truthiness: None, 0, "", [] and {} are false, all else true. */
  predicate Truthy(v: Json)
  {
    match v
    case JNull => false
    case JNum(n) => n != 0.0
    case JStr(s) => s != ""
    case JList(items) => items != []
    case JObj(fields) => fields != []
  }

  /** A decoded JSON object (a Python dict) given as its entries in order.
      A dict decoded from JSON text has distinct keys (`DistinctKeys`): a key
      repeated in the text keeps its first position and its last value.
      The type admits repeats; `Lookup` then answers as that decoding does,
      with the value of the last entry for the key. */
  type Dict = seq<(string, Json)>

  /** No key occurs twice. */
  predicate DistinctKeys(d: Dict)
  {
    forall i, j :: 0 <= i < j < |d| ==> d[i].0 != d[j].0
  }

  /** Whether `key` is one of the dict's keys (Python `key in d`). */
  predicate HasKey(d: Dict, key: string)
  {
    exists i :: 0 <= i < |d| && d[i].0 == key
  }

  /** The value stored under `key` (Python `d[key]`): the last entry with the
      key, which in a dict with distinct keys is the only one. */
  function Lookup(d: Dict, key: string): (v: Json)
    requires HasKey(d, key)
    ensures exists i :: 0 <= i < |d| && d[i] == (key, v) && forall j :: i < j < |d| ==> d[j].0 != key
    decreases |d|
  {
    var n := |d| - 1;
    if d[n].0 == key then d[n].1
    else
      assert HasKey(d[..n], key) by {
        var i :| 0 <= i < |d| && d[i].0 == key;
        assert i < n && d[..n][i] == d[i];
      }
      var v := Lookup(d[..n], key);
      assert exists i :: 0 <= i < n && d[i] == (key, v) && forall j :: i < j < |d| ==> d[j].0 != key by {
        var i :| 0 <= i < n && d[..n][i] == (key, v) && forall j :: i < j < n ==> d[..n][j].0 != key;
        assert d[i] == (key, v);
        assert forall j :: i < j < n ==> d[j] == d[..n][j];
      }
      v
  }

  /** In a dict with distinct keys, the value at entry i is what looking up
      its key gives. */
  lemma LookupDistinct(d: Dict, i: nat)
    requires DistinctKeys(d) && i < |d|
    ensures HasKey(d, d[i].0) && Lookup(d, d[i].0) == d[i].1
  {
    var v := Lookup(d, d[i].0);
    var k :| 0 <= k < |d| && d[k] == (d[i].0, v) && forall j :: k < j < |d| ==> d[j].0 != d[i].0;
    assert k == i;
  }

  /** The dict `{'error': msg}` that the client builds for its own failures. */
  function ErrorDict(msg: string): (d: Dict)
    ensures HasKey(d, "error") && Lookup(d, "error") == JStr(msg)
  {
    var d := [("error", JStr(msg))];
    assert d[0].0 == "error";
    d
  }
}
