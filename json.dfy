/** JSON values as the plugin sees them: manifests, dependency tables and the
    two pieces of JavaScript semantics the core relies on, truthiness and
    object spread. */
module Json {

  datatype Option<+T> = None | Some(value: T) {
    function GetOr(default: T): T {
      match this
      case Some(v) => v
      case None => default
    }
  }

  /** A dependency table: package name to version specifier. */
  type Table = map<string, string>

  /** A parsed JSON value. Numbers are kept as integers. */
  datatype Value =
    | Null
    | Bool(b: bool)
    | Num(n: int)
    | Str(s: string)
    | Arr(items: seq<Value>)
    | Obj(fields: map<string, Value>)

  /** A manifest (package.json) object; a missing key is `undefined`. */
  type Manifest = map<string, Value>

  /** JavaScript truthiness: `null`, `false`, `0` and `""` are falsy. */
  predicate Truthy(v: Value) {
    match v
    case Null => false
    case Bool(b) => b
    case Num(n) => n != 0
    case Str(s) => s != ""
    case Arr(_) => true
    case Obj(_) => true
  }

  /** `!!m[key]`: an absent key reads as `undefined`, which is falsy. */
  predicate FieldIsTruthy(m: Manifest, key: string) {
    key in m && Truthy(m[key])
  }

  /** `m[key]`, with `undefined` read as `null` (both spread to nothing and are falsy). */
  function Field(m: Manifest, key: string): Value {
    if key in m then m[key] else Null
  }

  /** The own entries that `{...v}` copies out of an object value. */
  function Spread(v: Value): map<string, Value> {
    if v.Obj? then v.fields else map[]
  }

  /** A dependency table as the JSON object that is written to the manifest. */
  function AsValues(t: Table): (r: map<string, Value>)
    ensures r.Keys == t.Keys
    ensures forall k :: k in t ==> r[k] == Str(t[k])
  {
    map k | k in t :: Str(t[k])
  }

  lemma AsValuesUnion(a: Table, b: Table)
    ensures AsValues(a + b) == AsValues(a) + AsValues(b)
  {
  }

  lemma UnionAssociative<K, V>(a: map<K, V>, b: map<K, V>, c: map<K, V>)
    ensures (a + b) + c == a + (b + c)
  {
  }

  /** The dependency table held in a manifest value: its string-valued entries. */
  function DeclaredTable(v: Value): (t: Table)
    ensures v.Obj? ==> forall k :: k in t <==> k in v.fields && v.fields[k].Str?
    ensures forall k :: k in t ==> v.Obj? && v.fields[k] == Str(t[k])
  {
    if v.Obj? then map k | k in v.fields && v.fields[k].Str? :: v.fields[k].s else map[]
  }
}
