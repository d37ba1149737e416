/** The JavaScript values that `JSON.parse` produces and `res.json` sends.
    An object is the list of its own properties in enumeration order (a
    JavaScript object has each key once); numbers are reals. */
module Json {
  import opened Text

  datatype Json =
    | JNull
    | JBool(b: bool)
    | JNumber(n: real)
    | JString(s: string)
    | JArray(items: seq<Json>)
    | JObject(members: seq<(string, Json)>)

  /** The value of the first member named `key`; `None` is `undefined`. */
  function Lookup(members: seq<(string, Json)>, key: string): Option<Json>
  {
    if |members| == 0 then None
    else if members[0].0 == key then Some(members[0].1)
    else Lookup(members[1..], key)
  }

  /** Lookup finds the first member with the key. */
  lemma {:induction false} LookupFirst(members: seq<(string, Json)>, key: string, k: nat)
    requires k < |members| && members[k].0 == key
    requires forall i :: 0 <= i < k ==> members[i].0 != key
    ensures Lookup(members, key) == Some(members[k].1)
  {
    if k > 0 {
      LookupFirst(members[1..], key, k - 1);
    }
  }

  /** A key no member has is `undefined`. */
  lemma {:induction false} LookupAbsent(members: seq<(string, Json)>, key: string)
    requires forall i :: 0 <= i < |members| ==> members[i].0 != key
    ensures Lookup(members, key) == None
  {
    if |members| > 0 {
      LookupAbsent(members[1..], key);
    }
  }

  /** Property access `v?.key`: an own property of an object; every other
      value, and a missing value, gives `undefined`. */
  function Get(v: Option<Json>, key: string): Option<Json>
  {
    if v.Some? && v.value.JObject? then Lookup(v.value.members, key) else None
  }

  /** JavaScript truthiness (NaN is not modelled). */
  predicate Truthy(v: Json)
  {
    match v
    case JNull => false
    case JBool(b) => b
    case JNumber(n) => n != 0.0
    case JString(s) => s != ""
    case JArray(_) => true
    case JObject(_) => true
  }

  /** `{ key: value, ... }` with string values, in the order given. */
  function StringObject(members: seq<(string, string)>): (j: Json)
    ensures j.JObject? && |j.members| == |members|
    ensures forall i :: 0 <= i < |members| ==> j.members[i] == (members[i].0, JString(members[i].1))
  {
    if members == [] then JObject([])
    else JObject([(members[0].0, JString(members[0].1))] + StringObject(members[1..]).members)
  }

  /** An array of strings. */
  function StringArray(items: seq<string>): (j: Json)
    ensures j.JArray? && |j.items| == |items|
    ensures forall i :: 0 <= i < |items| ==> j.items[i] == JString(items[i])
  {
    if items == [] then JArray([])
    else JArray([JString(items[0])] + StringArray(items[1..]).items)
  }
}
