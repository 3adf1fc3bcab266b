/**
 Decoded JSON values as the notification handler sees them after `json.loads`,
 with the few Python operations the handler applies to them: `dict.get`,
 `dict[key]` and `str()` (as used by an f-string placeholder).
 */
module JsonValues {

  datatype Option<+T> = None | Some(value: T)

  /** A decoded JSON value. Numbers, booleans and null behave alike in the
      handler (none is a string, a list or a dict, none can be iterated), so
      they share one constructor that carries the text Python's `str()`
      gives for them ("42", "True", "None", ...). An object is its members
      in document order. */
  datatype Json =
    | JStr(s: string)
    | JArr(items: seq<Json>)
    | JObj(members: seq<(string, Json)>)
    | JScalar(shown: string)

  /** The value a Python dict built by `json.loads` holds for `key`: the
      LAST member with that key, since a repeated key overwrites. */
  function Find(members: seq<(string, Json)>, key: string): (r: Option<Json>)
    ensures r.None? <==> forall i :: 0 <= i < |members| ==> members[i].0 != key
    ensures r.Some? ==> exists i :: 0 <= i < |members| && members[i] == (key, r.value) &&
                                    forall j :: i < j < |members| ==> members[j].0 != key
  {
    if members == [] then None
    else if members[|members| - 1].0 == key then Some(members[|members| - 1].1)
    else Find(members[..|members| - 1], key)
  }

  /** Python `v[key]` on a decoded value: defined only when `v` is a dict
      holding `key`; every other case raises (KeyError or TypeError). */
  function Index(v: Json, key: string): (r: Option<Json>)
    ensures r.Some? <==> v.JObj? && exists i :: 0 <= i < |v.members| && v.members[i].0 == key
    ensures r.Some? ==> r == Find(v.members, key)
  {
    if v.JObj? then Find(v.members, key) else None
  }

  /** Python `d.get(key, default)` on a dict `d`. */
  function GetOr(members: seq<(string, Json)>, key: string, default: Json): (r: Json)
    ensures (forall i :: 0 <= i < |members| ==> members[i].0 != key) ==> r == default
    ensures Find(members, key).Some? ==> r == Find(members, key).value
  {
    match Find(members, key)
    case Some(v) => v
    case None => default
  }

  /** The parts joined with ", ", as Python's list and dict `repr` separate items. */
  function Join(parts: seq<string>): string
  {
    if parts == [] then ""
    else if |parts| == 1 then parts[0]
    else parts[0] + ", " + Join(parts[1..])
  }

  /** Python `repr()` of a decoded value; strings are quoted with `'` but
      their characters are not escaped. */
  function Repr(v: Json): string
    decreases v
  {
    match v
    case JStr(s) => "'" + s + "'"
    case JScalar(t) => t
    case JArr(items) =>
      "[" + Join(seq(|items|, i requires 0 <= i < |items| => Repr(items[i]))) + "]"
    case JObj(members) =>
      "{" + Join(seq(|members|, i requires 0 <= i < |members| =>
                   "'" + members[i].0 + "': " + Repr(members[i].1))) + "}"
  }

  /** Python `str()` of a decoded value, which is what an f-string
      placeholder inserts: a string is inserted as it is, anything else as
      its `repr()`. */
  function Show(v: Json): (r: string)
    ensures v.JStr? ==> r == v.s
    ensures v.JScalar? ==> r == v.shown
    ensures v.JArr? ==> |r| >= 2 && r[0] == '[' && r[|r| - 1] == ']'
    ensures v.JObj? ==> |r| >= 2 && r[0] == '{' && r[|r| - 1] == '}'
  {
    if v.JStr? then v.s else Repr(v)
  }
}
