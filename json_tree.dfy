/** A JSON value as a tree. An object is modelled as the list of its
    members in the order the model writes them; that order is the model's
    own choice, and lookups take the first member with a key. */
module JsonTree {
  import opened Results

  datatype Json =
    | JNull
    | JBool(b: bool)
    | JNumber(n: int)
    | JString(s: string)
    | JArray(items: seq<Json>)
    | JObject(members: seq<(string, Json)>)

  /** `value[key]` on an object: the first member with that key. */
  function Member(j: Json, key: string): (r: Option<Json>)
  {
    if !j.JObject? then None else FirstWithKey(j.members, key)
  }

  function FirstWithKey(members: seq<(string, Json)>, key: string): (r: Option<Json>)
    ensures r.Some? ==> exists k :: 0 <= k < |members| && members[k] == (key, r.value)
    ensures r.None? ==> forall k :: 0 <= k < |members| ==> members[k].0 != key
  {
    if members == [] then None
    else if members[0].0 == key then Some(members[0].1)
    else FirstWithKey(members[1..], key)
  }

  /** The member found is the first one whose key matches. */
  lemma {:induction false} FirstWithKeyAt(members: seq<(string, Json)>, k: nat, key: string)
    requires k < |members| && members[k].0 == key
    requires forall i :: 0 <= i < k ==> members[i].0 != key
    ensures FirstWithKey(members, key) == Some(members[k].1)
  {
    if k > 0 {
      FirstWithKeyAt(members[1..], k - 1, key);
    }
  }

  /** `value[i]` on an array. */
  function Element(j: Json, i: nat): (r: Option<Json>)
  {
    if j.JArray? && i < |j.items| then Some(j.items[i]) else None
  }

  /** One step into a JSON tree: an object key or an array position. */
  datatype Step = Key(key: string) | Index(i: nat)

  /** The value found by following `path` from `j`, if every step exists. */
  function At(j: Json, path: seq<Step>): (r: Option<Json>)
    decreases |path|
  {
    if path == [] then Some(j)
    else
      var next := match path[0]
        case Key(k) => Member(j, k)
        case Index(i) => Element(j, i);
      if next.None? then None else At(next.value, path[1..])
  }

  /** Following `p + q` is following `p` and then `q` from where it ends. */
  lemma {:induction false} AtConcat(j: Json, p: seq<Step>, q: seq<Step>)
    ensures At(j, p + q) == if At(j, p).None? then None else At(At(j, p).value, q)
    decreases |p|
  {
    if p == [] {
      assert p + q == q;
    } else {
      assert (p + q)[0] == p[0];
      assert (p + q)[1..] == p[1..] + q;
      var next := match p[0]
        case Key(k) => Member(j, k)
        case Index(i) => Element(j, i);
      if next.Some? {
        AtConcat(next.value, p[1..], q);
      }
    }
  }
}
