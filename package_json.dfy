/** The project's `package.json` as the dependency code sees it: parsed
    JSON values, the two dependency maps, and JavaScript's reading of an
    object through `in`, property access and truthiness. */
module PackageJson {

  datatype JsonValue =
    | JNull
    | JBool(b: bool)
    | JNumber(n: real)
    | JString(s: string)
    | JArray(items: seq<JsonValue>)
    | JObject(members: map<string, JsonValue>)

  /** The state of `package.json` when it is read: absent, present but
      rejected by `JSON.parse`, or parsed with its `dependencies` and
      `devDependencies` objects (an absent one reads as `{}`). */
  datatype PackageFile =
    | Missing
    | Unparsable
    | Parsed(dependencies: map<string, JsonValue>, devDependencies: map<string, JsonValue>)

  /** `{ ...dependencies, ...devDependencies }`: every key of either, and a
      key present in both takes its `devDependencies` value. */
  function Merged(dependencies: map<string, JsonValue>, devDependencies: map<string, JsonValue>)
    : (m: map<string, JsonValue>)
    ensures m.Keys == dependencies.Keys + devDependencies.Keys
    ensures forall k :: k in devDependencies ==> m[k] == devDependencies[k]
    ensures forall k :: k in dependencies && k !in devDependencies ==> m[k] == dependencies[k]
  {
    dependencies + devDependencies
  }

  /** JavaScript truthiness of a JSON value: `null`, `false`, `0` and `""`
      are falsy; arrays and objects, even empty, are truthy. */
  predicate Truthy(v: JsonValue)
  {
    match v
    case JNull => false
    case JBool(b) => b
    case JNumber(n) => n != 0.0
    case JString(s) => s != ""
    case JArray(_) => true
    case JObject(_) => true
  }

  /** The names every plain object inherits from `Object.prototype`. */
  const ObjectPrototype: set<string> := {
    "constructor", "hasOwnProperty", "isPrototypeOf", "propertyIsEnumerable",
    "toString", "toLocaleString", "valueOf", "__proto__",
    "__defineGetter__", "__defineSetter__", "__lookupGetter__", "__lookupSetter__"
  }

  /** `key in obj` for a plain object built from JSON: its own keys and the
      inherited ones. */
  predicate HasProperty(obj: map<string, JsonValue>, key: string)
  {
    key in obj || key in ObjectPrototype
  }

  /** `!!obj[key]`: an own value by its truthiness; an inherited member
      (a function or `Object.prototype` itself) is truthy; a missing key
      reads as `undefined`, which is falsy. */
  predicate PropertyTruthy(obj: map<string, JsonValue>, key: string)
  {
    if key in obj then Truthy(obj[key]) else key in ObjectPrototype
  }

  /** A key that is present is seen by `in` whatever its value, while
      property access also looks at the value: a dependency declared with
      an empty version reads as missing to the one and present to the
      other. */
  lemma InAndTruthyDiffer(obj: map<string, JsonValue>, key: string)
    ensures key in obj && obj[key] == JString("") ==> HasProperty(obj, key) && !PropertyTruthy(obj, key)
    ensures PropertyTruthy(obj, key) ==> HasProperty(obj, key)
    ensures HasProperty(obj, key) && !PropertyTruthy(obj, key) <==> key in obj && !Truthy(obj[key])
  {
  }
}
