/** The timeout part of the shared platform configuration, as `gateway/platform_config.py`
    and `app/platform_config.py` load it. Numbers are reals; NaN and the infinities are `NonFinite`. */
module PlatformConfig {
  import opened Wrappers

  datatype Json = Bool(b: bool) | Number(x: real) | NonFinite | OtherJson

  datatype ConfigFile = Absent | UnreadableFile | MalformedFile | NotAnObject | Object(fields: map<string, Json>)

  datatype ConfigError =
    | Unreadable
    | InvalidJson
    | NoObject
    | WrongSchema
    | NotANumber
    | NotFinite
    | OutOfRange
    | BrokenHierarchy

  const OUTER := "gateway_upstream_timeout_seconds"
  const INNER := "state_dependency_timeout_seconds"
  const MARGIN := "timeout_safety_margin_seconds"

  const DEFAULT_OUTER := 5.0
  const DEFAULT_INNER := 2.0
  const DEFAULT_MARGIN := 1.0
  const MAX_OUTER := 60.0
  const MAX_INNER := 30.0
  const MAX_MARGIN := 30.0
  const SCHEMA_VERSION := 1.0

  function ValidateTimeout(value: Json, maximum: real): Result<real, ConfigError> {
    if !value.Number? && !value.NonFinite? then Err(NotANumber)
    else if value.NonFinite? then Err(NotFinite)
    else if !(0.0 < value.x <= maximum) then Err(OutOfRange)
    else Ok(value.x)
  }

  function Field(fields: map<string, Json>, name: string, default: real): Json {
    if name in fields then fields[name] else Number(default)
  }

  /** What both loaders check before they look at a timeout. */
  function ReadObject(file: ConfigFile): Result<map<string, Json>, ConfigError>
    requires !file.Absent?
  {
    match file
    case UnreadableFile => Err(Unreadable)
    case MalformedFile => Err(InvalidJson)
    case NotAnObject => Err(NoObject)
    case Object(fields) =>
      if "schema_version" in fields && fields["schema_version"] == Number(SCHEMA_VERSION) then Ok(fields)
      else Err(WrongSchema)
  }

  datatype Timeouts = Timeouts(outer: real, inner: real, margin: real)

  function LoadGateway(file: ConfigFile): Result<Timeouts, ConfigError> {
    if file.Absent? then Ok(Timeouts(DEFAULT_OUTER, DEFAULT_INNER, DEFAULT_MARGIN)) else
    var data := ReadObject(file);
    if data.Err? then Err(data.error)
    else
      var outer := ValidateTimeout(Field(data.value, OUTER, DEFAULT_OUTER), MAX_OUTER);
      if outer.Err? then Err(outer.error)
      else
        var inner := ValidateTimeout(Field(data.value, INNER, DEFAULT_INNER), MAX_INNER);
        if inner.Err? then Err(inner.error)
        else
          var margin := ValidateTimeout(Field(data.value, MARGIN, DEFAULT_MARGIN), MAX_MARGIN);
          if margin.Err? then Err(margin.error)
          else if outer.value <= inner.value + margin.value then Err(BrokenHierarchy)
          else Ok(Timeouts(outer.value, inner.value, margin.value))
  }

  function LoadApp(file: ConfigFile): Result<real, ConfigError> {
    if file.Absent? then Ok(DEFAULT_INNER) else
    var data := ReadObject(file);
    if data.Err? then Err(data.error)
    else ValidateTimeout(Field(data.value, INNER, DEFAULT_INNER), MAX_INNER)
  }

  /** A configuration that the gateway accepts is accepted by the app, with the same inner timeout,
      and its outer budget exceeds the inner one by more than the margin. */
  lemma GatewayConfigSuitsApp(file: ConfigFile)
    requires LoadGateway(file).Ok?
    ensures var t := LoadGateway(file).value;
            LoadApp(file) == Ok(t.inner) && 0.0 < t.inner && 0.0 < t.margin && t.inner + t.margin < t.outer <= MAX_OUTER
  {
  }

  /** The gateway asks for no more than the app's check, ranges for its own two numbers, and the hierarchy. */
  lemma GatewayAcceptsExactly(file: ConfigFile)
    ensures LoadGateway(file).Ok? <==>
            && LoadApp(file).Ok?
            && (file.Object? ==>
                  var outer := Field(file.fields, OUTER, DEFAULT_OUTER);
                  var margin := Field(file.fields, MARGIN, DEFAULT_MARGIN);
                  && outer.Number? && 0.0 < outer.x <= MAX_OUTER
                  && margin.Number? && 0.0 < margin.x <= MAX_MARGIN
                  && LoadApp(file).value + margin.x < outer.x)
    ensures LoadGateway(file).Ok? && file.Object? ==>
              LoadGateway(file).value == Timeouts(Field(file.fields, OUTER, DEFAULT_OUTER).x, LoadApp(file).value,
                                                  Field(file.fields, MARGIN, DEFAULT_MARGIN).x)
  {
  }

  /** A number that the file gives under `name`, or `default` where it gives none, above zero and at most `maximum`. */
  predicate GivesTimeout(fields: map<string, Json>, name: string, default: real, maximum: real, x: real) {
    (if name in fields then fields[name] == Number(x) else x == default) && 0.0 < x <= maximum
  }

  /** What the app accepts: no file, or an object of schema version 1 whose inner timeout, two seconds unless given, is
      a number above zero and at most thirty. */
  lemma AppAcceptsExactly(file: ConfigFile, x: real)
    ensures LoadApp(file) == Ok(x) <==>
            || (file.Absent? && x == 2.0)
            || (&& file.Object?
                && "schema_version" in file.fields && file.fields["schema_version"] == Number(1.0)
                && GivesTimeout(file.fields, "state_dependency_timeout_seconds", 2.0, 30.0, x))
  {
  }

  /** What the gateway accepts: the same, with an outer timeout, five seconds unless given, of at most sixty, and a
      margin, one second unless given, of at most thirty, such that the outer timeout exceeds the sum of the others. */
  lemma GatewayAcceptsNumbers(file: ConfigFile, t: Timeouts)
    ensures LoadGateway(file) == Ok(t) <==>
            || (file.Absent? && t == Timeouts(5.0, 2.0, 1.0))
            || (&& file.Object?
                && "schema_version" in file.fields && file.fields["schema_version"] == Number(1.0)
                && GivesTimeout(file.fields, "gateway_upstream_timeout_seconds", 5.0, 60.0, t.outer)
                && GivesTimeout(file.fields, "state_dependency_timeout_seconds", 2.0, 30.0, t.inner)
                && GivesTimeout(file.fields, "timeout_safety_margin_seconds", 1.0, 30.0, t.margin)
                && t.outer > t.inner + t.margin)
  {
  }
}
