/** The value space of a parsed JSON document, as the TypeScript code sees it
    through `any`: an object keeps its entries in `Object.entries` order. */
module Json {

  datatype Option<+T> = None | Some(value: T)

  /** The outcome of a JavaScript computation that returns a value or throws. */
  datatype Result<+R, +E> = Ok(value: R) | Err(error: E)

  /** A JSON value. Numbers are kept opaque (their literal text); nothing in
      the model computes with them. */
  datatype Json =
    | JNull
    | JBool(b: bool)
    | JNum(literal: string)
    | JStr(s: string)
    | JArr(items: seq<Json>)
    | JObj(entries: seq<Entry>)

  /** One `[key, value]` pair of `Object.entries`. */
  datatype Entry = Entry(key: string, value: Json)

  /** Does this entry sequence carry the key? */
  predicate HasKey(es: seq<Entry>, k: string)
  {
    exists i :: 0 <= i < |es| && es[i].key == k
  }

  /** `value[k]` for an own property `k`, or None when `value.hasOwnProperty(k)`
      is false. Only objects have named own properties here: a string, number,
      boolean or array answers false for every key the model probes. */
  function Get(value: Json, k: string): (r: Option<Json>)
    ensures r.Some? <==> value.JObj? && HasKey(value.entries, k)
    ensures r.Some? ==> exists i :: 0 <= i < |value.entries| && value.entries[i] == Entry(k, r.value)
  {
    if value.JObj? then Lookup(value.entries, k) else None
  }

  /** The value of the first entry with key `k`. */
  function Lookup(es: seq<Entry>, k: string): (r: Option<Json>)
    ensures r.Some? <==> HasKey(es, k)
    ensures r.Some? ==> exists i :: 0 <= i < |es| && es[i] == Entry(k, r.value) &&
                                    forall j :: 0 <= j < i ==> es[j].key != k
  {
    if es == [] then None
    else if es[0].key == k then Some(es[0].value)
    else
      var r := Lookup(es[1..], k);
      assert forall i :: 1 <= i < |es| ==> es[i] == es[1..][i - 1];
      r
  }

  /** The value of `value[k]` is that of the first entry carrying `k`. */
  lemma GetFirstEntry(value: Json, i: nat, k: string)
    requires value.JObj? && i < |value.entries| && value.entries[i].key == k
    requires forall j :: 0 <= j < i ==> value.entries[j].key != k
    ensures Get(value, k) == Some(value.entries[i].value)
  {
    assert HasKey(value.entries, k);
    var r := Get(value, k);
    var n :| 0 <= n < |value.entries| && value.entries[n] == Entry(k, r.value) &&
             forall j :: 0 <= j < n ==> value.entries[j].key != k;
    assert n == i;
  }
}
