/** JSON values as the nlohmann library holds them, and its typed reads and writes. */
module JsonValues {
  import opened Wrappers

  /** Integers a parsed document can hold: signed or unsigned 64-bit; anything larger is read as a float. */
  type JsonInt = i: int | -0x8000_0000_0000_0000 <= i < 0x1_0000_0000_0000_0000

  datatype Json =
    | Null
    | Bool(b: bool)
    | Int(i: JsonInt)
    | Float(r: real)
    | Str(s: string)
    | Arr(items: seq<Json>)
    | Obj(fields: map<string, Json>)

  type Object = map<string, Json>

  function Lookup(obj: Object, key: string): Option<Json> {
    if key in obj then Some(obj[key]) else None
  }

  function GetString(j: Option<Json>): Option<string> {
    if j.Some? && j.value.Str? then Some(j.value.s) else None
  }

  function GetBool(j: Option<Json>): Option<bool> {
    if j.Some? && j.value.Bool? then Some(j.value.b) else None
  }

  function GetBoolOr(j: Option<Json>, default: bool): Option<bool> {
    if j.None? then Some(default) else GetBool(j)
  }

  function GetStrings(j: Option<Json>): Option<seq<string>> {
    if j.Some? && j.value.Arr? && forall i :: 0 <= i < |j.value.items| ==> j.value.items[i].Str?
    then
      var items := j.value.items;
      Some(seq(|items|, i requires 0 <= i < |items| && items[i].Str? => items[i].s))
    else None
  }

  function GetStringMap(j: Option<Json>): Option<map<string, string>> {
    if j.Some? && j.value.Obj? && forall k :: k in j.value.fields ==> j.value.fields[k].Str?
    then
      var fields := j.value.fields;
      Some(map k | k in fields :: fields[k].s)
    else None
  }

  function OfStrings(xs: seq<string>): Json {
    Arr(seq(|xs|, i requires 0 <= i < |xs| => Str(xs[i])))
  }

  function OfStringMap(m: map<string, string>): Json {
    Obj(map k | k in m :: Str(m[k]))
  }

  lemma StringsRoundTrip(xs: seq<string>)
    ensures GetStrings(Some(OfStrings(xs))) == Some(xs)
  {
    assert GetStrings(Some(OfStrings(xs))).value == xs;
  }

  lemma StringMapRoundTrip(m: map<string, string>)
    ensures GetStringMap(Some(OfStringMap(m))) == Some(m)
  {
    assert GetStringMap(Some(OfStringMap(m))).value == m;
  }
}
