/** Decoded JSON values as the Python code sees them after `json.loads`,
    with Python's truthiness and `dict.get`. */
module JsonValues {

  datatype Option<+T> = None | Some(value: T)

  /** A JSON value. An object keeps its members in insertion order, as a
      Python dict does. */
  datatype Json =
    | Null
    | Bool(b: bool)
    | Num(n: real)
    | Str(s: string)
    | Arr(items: seq<Json>)
    | Obj(members: seq<(string, Json)>)

  /** Python truthiness of a decoded value: `None`, `False`, `0`, `""`,
      `[]` and `{}` are falsy. */
  predicate Truthy(j: Json) {
    match j
    case Null => false
    case Bool(b) => b
    case Num(n) => n != 0.0
    case Str(s) => s != ""
    case Arr(xs) => xs != []
    case Obj(ms) => ms != []
  }

  /** Python's `a or b`. */
  function Or(a: Json, b: Json): (r: Json)
    ensures Truthy(a) ==> r == a
    ensures !Truthy(a) ==> r == b
    ensures Truthy(r) <==> Truthy(a) || Truthy(b)
  {
    if Truthy(a) then a else b
  }

  /** `d.get(key)` on an object: the value of the last member with that key
      (the one `json.loads` keeps when a key repeats); `None` when absent or
      when `j` is not an object. */
  function Get(j: Json, key: string): (r: Option<Json>)
    decreases if j.Obj? then |j.members| else 0
  {
    if !j.Obj? || j.members == [] then None
    else
      var n := |j.members|;
      if j.members[n - 1].0 == key then Some(j.members[n - 1].1)
      else Get(Obj(j.members[..n - 1]), key)
  }

  /** `d.get(key)` with Python's `None` for a missing key. */
  function GetOrNull(j: Json, key: string): Json {
    match Get(j, key)
    case Some(v) => v
    case None => Null
  }

  /** The keys of an object, in order. */
  function Keys(j: Json): seq<string> {
    if j.Obj? then seq(|j.members|, i requires 0 <= i < |j.members| => j.members[i].0) else []
  }

  /** A key occurs among the members exactly when `get` finds it. */
  lemma {:induction false} GetFindsKeys(ms: seq<(string, Json)>, key: string)
    ensures Get(Obj(ms), key).Some? <==> key in Keys(Obj(ms))
    decreases |ms|
  {
    if ms != [] {
      var n := |ms|;
      GetFindsKeys(ms[..n - 1], key);
      assert Keys(Obj(ms)) == Keys(Obj(ms[..n - 1])) + [ms[n - 1].0];
    }
  }

  /** Appending a member with a fresh key leaves every other lookup alone. */
  lemma GetAppend(ms: seq<(string, Json)>, k: string, v: Json, key: string)
    ensures Get(Obj(ms + [(k, v)]), key) == if k == key then Some(v) else Get(Obj(ms), key)
  {
    assert (ms + [(k, v)])[..|ms|] == ms;
  }

  /** `get` finds the value of the last member with the key. */
  lemma {:induction false} GetLast(ms: seq<(string, Json)>, i: int, key: string)
    requires 0 <= i < |ms| && ms[i].0 == key
    requires forall j :: i < j < |ms| ==> ms[j].0 != key
    ensures Get(Obj(ms), key) == Some(ms[i].1)
    decreases |ms|
  {
    if i < |ms| - 1 {
      GetLast(ms[..|ms| - 1], i, key);
    }
  }
}
