/**
 * Validation of the configuration file written by the BLE setup server
 * (`load_config`). The file is read and decoded outside the model; what
 * reaches the model is the decoded JSON value, or the fact that the file
 * was missing or could not be decoded.
 */
module Config {
  import opened Common

  /** A value as Python's `json.load` produces it. */
  datatype Json =
    | JNull
    | JBool(b: bool)
    | JNumber(n: real)
    | JString(s: string)
    | JArray(items: seq<Json>)
    | JObject(members: map<string, Json>)

  /** Python truthiness of a decoded JSON value. */
  predicate Truthy(v: Json) {
    match v
    case JNull => false
    case JBool(b) => b
    case JNumber(n) => n != 0.0
    case JString(s) => s != ""
    case JArray(items) => items != []
    case JObject(m) => m != map[]
  }

  /** What opening and decoding the config file yields. */
  datatype ConfigFile =
    | Missing                 // the path does not exist
    | Unreadable              // open or json.load raised
    | Parsed(value: Json)     // the decoded top-level value

  /** An accepted configuration: the decoded top-level object. */
  type Settings = map<string, Json>

  /** The fields every accepted configuration must carry, in the order they are reported. */
  const Required: seq<string> := ["deviceSerial", "apiKey", "backendUrl"]

  /** `config.get(field)` is truthy: the key is present and its value is truthy. */
  predicate Provided(m: Settings, field: string) {
    field in m && Truthy(m[field])
  }

  /** The three required fields are all provided. */
  predicate Complete(m: Settings) {
    Provided(m, "deviceSerial") && Provided(m, "apiKey") && Provided(m, "backendUrl")
  }

  /** The list comprehension that collects the required fields that are not provided. */
  function MissingFields(fields: seq<string>, m: Settings): (missing: seq<string>)
    ensures |missing| <= |fields|
    ensures forall f :: f in missing <==> f in fields && !Provided(m, f)
  {
    if fields == [] then []
    else (if Provided(m, fields[0]) then [] else [fields[0]]) + MissingFields(fields[1..], m)
  }

  /**
   * `load_config`: the decoded object is returned exactly when it is an
   * object that provides every required field; a missing file, a decoding
   * error, a top-level value that is not an object (whose `.get` raises)
   * and a missing or falsy field all give None.
   */
  function Load(file: ConfigFile): (r: Option<Settings>)
    ensures r.Some? <==> file.Parsed? && file.value.JObject? && Complete(file.value.members)
    ensures r.Some? ==> r.value == file.value.members
  {
    match file
    case Parsed(JObject(m)) =>
      var missing := MissingFields(Required, m);
      assert "deviceSerial" in Required && "apiKey" in Required && "backendUrl" in Required;
      if missing == [] then Some(m)
      else
        assert missing[0] in Required && !Provided(m, missing[0]);
        None
    case _ => None
  }

  /**
   * An accepted configuration is itself truthy, so the service's later
   * `not self.config` tests are exactly "no configuration loaded".
   */
  lemma LoadedIsTruthy(file: ConfigFile)
    requires Load(file).Some?
    ensures Truthy(JObject(Load(file).value))
  {
  }
}
