/**
 * JSON values as `JSON.parse` produces them and `res.json` sends them. Parsing itself is
 * a foreign library call and stays abstract: every module that parses takes the parser
 * as a function parameter.
 */
module Json {
  import opened Base
  import opened JsString

  /** A JSON value; numbers are the integers the core uses. An object keeps its members
      in source order, duplicates included. */
  datatype Json =
    | JNull
    | JBool(b: bool)
    | JNumber(n: int)
    | JString(s: string)
    | JArray(items: seq<Json>)
    | JObject(members: seq<(string, Json)>)

  /** Property access `v[key]` on a parsed value: the last member with that key (as
      `JSON.parse` keeps the last duplicate), and `undefined` for a non-object. */
  function Get(v: Json, key: string): (r: Option<Json>)
    ensures r.Some? ==> v.JObject? && exists k :: LastWith(v.members, key, k) && v.members[k].1 == r.value
    ensures v.JObject? && (exists k :: 0 <= k < |v.members| && v.members[k].0 == key) ==> r.Some?
    decreases if v.JObject? then |v.members| else 0
  {
    match v
    case JObject(ms) =>
      if ms == [] then None
      else if ms[|ms| - 1].0 == key then Some(ms[|ms| - 1].1)
      else
        DropLastKeeps(ms, ms[..|ms| - 1], key);
        DropLastFinds(ms, ms[..|ms| - 1], key);
        Get(JObject(ms[..|ms| - 1]), key)
    case _ => None
  }

  /** Member `k` has the key, and no later member has it. */
  predicate LastWith(ms: seq<(string, Json)>, key: string, k: int) {
    0 <= k < |ms| && ms[k].0 == key && forall k' :: k < k' < |ms| ==> ms[k'].0 != key
  }

  /** When the last member has another key, the last member with `key` among the others
      is the last one of all. */
  lemma DropLastKeeps(ms: seq<(string, Json)>, pre: seq<(string, Json)>, key: string)
    requires |ms| > 0 && pre == ms[..|ms| - 1] && ms[|ms| - 1].0 != key
    ensures forall k :: LastWith(pre, key, k) ==> LastWith(ms, key, k) && pre[k] == ms[k]
  {
    forall k | LastWith(pre, key, k) ensures LastWith(ms, key, k) && pre[k] == ms[k] {
      forall k' | k < k' < |ms| ensures ms[k'].0 != key {
        if k' < |pre| {
          assert ms[k'] == pre[k'];
        }
      }
    }
  }

  /** When the last member has another key, a member with `key` is among the others. */
  lemma DropLastFinds(ms: seq<(string, Json)>, pre: seq<(string, Json)>, key: string)
    requires |ms| > 0 && pre == ms[..|ms| - 1] && ms[|ms| - 1].0 != key
    ensures (exists k :: 0 <= k < |ms| && ms[k].0 == key) ==> exists k :: 0 <= k < |pre| && pre[k].0 == key
  {
    if exists k :: 0 <= k < |ms| && ms[k].0 == key {
      var k :| 0 <= k < |ms| && ms[k].0 == key;
      assert pre[k].0 == key;
    }
  }

  /** A member added at the end wins for its key and hides nothing else. */
  lemma GetAppend(ms: seq<(string, Json)>, k: string, v: Json, key: string)
    ensures Get(JObject(ms + [(k, v)]), key) == if k == key then Some(v) else Get(JObject(ms), key)
  {
    assert (ms + [(k, v)])[..|ms|] == ms;
  }

  /** JavaScript truthiness of a parsed value. */
  predicate Truthy(v: Json) {
    match v
    case JNull => false
    case JBool(b) => b
    case JNumber(n) => n != 0
    case JString(s) => s != ""
    case _ => true
  }

  /** Truthiness of a property that may be `undefined`. */
  predicate TruthyOpt(v: Option<Json>) {
    v.Some? && Truthy(v.value)
  }

  /** Truthiness of an optional string (`undefined` and `""` are falsy). */
  predicate TruthyString(v: Option<string>) {
    v.Some? && v.value != ""
  }

  /** `String(v)`, as `new Error(v)` converts its argument. */
  function ToJsString(v: Json): string
    decreases v, 1
  {
    match v
    case JNull => "null"
    case JBool(b) => if b then "true" else "false"
    case JNumber(n) => IntToString(n)
    case JString(s) => s
    case JArray(items) => JoinItems(items)
    case JObject(_) => "[object Object]"
  }

  /** `Array.prototype.join(',')`, in which a `null` element becomes the empty string. */
  function JoinItems(items: seq<Json>): string
    decreases items, 0
  {
    if items == [] then ""
    else
      var head := if items[0].JNull? then "" else ToJsString(items[0]);
      if |items| == 1 then head else head + "," + JoinItems(items[1..])
  }

  /** The object `{ key: value }`. */
  function Single(key: string, value: Json): Json {
    JObject([(key, value)])
  }

  /** A list of strings as a JSON array. */
  function Strings(xs: seq<string>): (r: Json)
    ensures r.JArray? && |r.items| == |xs|
    ensures forall k :: 0 <= k < |xs| ==> r.items[k] == JString(xs[k])
  {
    JArray(seq(|xs|, k requires 0 <= k < |xs| => JString(xs[k])))
  }
}
