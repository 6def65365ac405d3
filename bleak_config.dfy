/**
 * A BLeak configuration: the values a configuration file exports, merged
 * over the defaults and checked field by field; and the script that
 * re-creates the same configuration inside the browser.
 *
 * Running the configuration source is outside the model: its outcome (the
 * exported value, or the text of what it threw) is a parameter.
 */
module Configs {
  import opened Wrappers
  import opened JsStrings

  /** The JavaScript values a configuration file can export. Numbers are integers here. */
  datatype JsValue =
    | Undefined
    | Null
    | Bool(b: bool)
    | Number(n: int)
    | Str(s: string)
    | Function(name: string)
    | Array(items: seq<JsValue>)
    | Object(props: map<string, JsValue>)

  /**
   * Reading property `p` of `v`: an absent property reads as undefined;
   * reading from null or undefined throws a TypeError (None).
   */
  function GetProp(v: JsValue, p: string): (r: Option<JsValue>)
    ensures r.None? <==> (v.Undefined? || v.Null?)
    ensures v.Object? && p in v.props ==> r == Some(v.props[p])
  {
    match v
    case Undefined => None
    case Null => None
    case Object(props) => Some(if p in props then props[p] else Undefined)
    case _ => Some(Undefined)
  }

  /** The configuration record after merging: one value per known key. */
  datatype RawConfig = RawConfig(
    iterations: JsValue,
    rankingEvaluationIterations: JsValue,
    rankingEvaluationRuns: JsValue,
    url: JsValue,
    fixedLeaks: JsValue,
    fixMap: JsValue,
    login: JsValue,
    setup: JsValue,
    loop: JsValue,
    postCheckSleep: JsValue,
    postNextSleep: JsValue,
    postLoginSleep: JsValue,
    timeout: JsValue,
    rewrite: JsValue)

  /** `DEFAULT_CONFIG`; `rewrite` is the identity on the source text. */
  const DefaultConfig := RawConfig(
    Number(8), Number(10), Number(5), Str("http://localhost:8080/"), Array([]), Object(map[]),
    Array([]), Array([]), Array([]), Number(1000), Number(0), Number(5000), Number(10 * 60 * 1000),
    Function("(url, type, data, fixes) => data"))

  /** The value of `key` after the merge: the exported one if there is one, else the default. */
  function Pick(exports: JsValue, key: string, default: JsValue): JsValue {
    if exports.Object? && key in exports.props then exports.props[key] else default
  }

  /** `JSON.stringify(DEFAULT_CONFIG)`: the function-valued `rewrite` is dropped. */
  const DefaultConfigString: string :=
    "{\"iterations\":8,\"rankingEvaluationIterations\":10,\"rankingEvaluationRuns\":5,"
    + "\"url\":\"http://localhost:8080/\",\"fixedLeaks\":[],\"fixMap\":{},\"login\":[],"
    + "\"setup\":[],\"loop\":[],\"postCheckSleep\":1000,\"postNextSleep\":0,"
    + "\"postLoginSleep\":5000,\"timeout\":600000}"

  /**
   * `Object.assign({}, DEFAULT_CONFIG, exports)` read at the known keys.
   * Other exported keys are carried along by the source but never read.
   */
  function Merge(exports: JsValue): (raw: RawConfig)
    ensures !exports.Object? ==> raw == DefaultConfig
  {
    var d := DefaultConfig;
    RawConfig(
      Pick(exports, "iterations", d.iterations),
      Pick(exports, "rankingEvaluationIterations", d.rankingEvaluationIterations),
      Pick(exports, "rankingEvaluationRuns", d.rankingEvaluationRuns),
      Pick(exports, "url", d.url), Pick(exports, "fixedLeaks", d.fixedLeaks),
      Pick(exports, "fixMap", d.fixMap), Pick(exports, "login", d.login),
      Pick(exports, "setup", d.setup), Pick(exports, "loop", d.loop),
      Pick(exports, "postCheckSleep", d.postCheckSleep), Pick(exports, "postNextSleep", d.postNextSleep),
      Pick(exports, "postLoginSleep", d.postLoginSleep), Pick(exports, "timeout", d.timeout),
      Pick(exports, "rewrite", d.rewrite))
  }

  /** Why a configuration is refused. */
  datatype ConfigError =
    | Invalid(message: string)  // an `Error` thrown with this message
    | TypeError                 // a property read on null/undefined, or `forEach` on a non-array

  /**
   * `getConfigFromSource`: `evaluated` is what running the source gave (the
   * exported value, or the text of the error it threw).
   */
  function ConfigFromSource(evaluated: Result<JsValue, string>): (r: Result<RawConfig, ConfigError>)
    ensures evaluated.Err? ==> r == Err(Invalid("Unable to run configuration file: " + evaluated.error))
    ensures evaluated.Ok? ==> r == Ok(Merge(evaluated.value))
  {
    match evaluated
    case Err(e) => Err(Invalid("Unable to run configuration file: " + e))
    case Ok(exports) => Ok(Merge(exports))
  }

  function CheckFunction(prop: string, data: JsValue): (r: Result<bool, ConfigError>)
    ensures r.Ok? <==> data.Function?
    ensures r.Err? ==> r.error == Invalid("config." + prop + " is not a function!")
  {
    if data.Function? then Ok(true) else Err(Invalid("config." + prop + " is not a function!"))
  }

  function CheckNumber(prop: string, data: JsValue): (r: Result<bool, ConfigError>)
    ensures r.Ok? <==> data.Number?
    ensures r.Err? ==> r.error == Invalid("config." + prop + " is not a number!")
  {
    if data.Number? then Ok(true) else Err(Invalid("config." + prop + " is not a number!"))
  }

  function CheckString(prop: string, data: JsValue): (r: Result<bool, ConfigError>)
    ensures r.Ok? <==> data.Str?
    ensures r.Err? ==> r.error == Invalid("config." + prop + " is not a string!")
  {
    if data.Str? then Ok(true) else Err(Invalid("config." + prop + " is not a string!"))
  }

  /** A step: an object whose `check` and `next` are functions. */
  predicate IsStep(s: JsValue) {
    !s.Undefined? && !s.Null?
    && GetProp(s, "check").value.Function? && GetProp(s, "next").value.Function?
  }

  /** `checkStep(type, i, s)`: `check` is tested before `next`. */
  function CheckStep(stepType: string, i: nat, s: JsValue): (r: Result<bool, ConfigError>)
    ensures r.Ok? <==> IsStep(s)
  {
    var check :- (if s.Undefined? || s.Null? then Err(TypeError) else Ok(GetProp(s, "check").value));
    var _ :- CheckFunction(stepType + "[" + NatToString(i) + "].check", check);
    CheckFunction(stepType + "[" + NatToString(i) + "].next", GetProp(s, "next").value)
  }

  /** `steps.forEach((s, i) => checkStep(type, i, s))` from index `from` on. */
  function CheckSteps(stepType: string, steps: seq<JsValue>, from: nat): (r: Result<bool, ConfigError>)
    requires from <= |steps|
    ensures r.Ok? <==> forall i :: from <= i < |steps| ==> IsStep(steps[i])
    decreases |steps| - from
  {
    if from == |steps| then Ok(true)
    else
      var _ :- CheckStep(stepType, from, steps[from]);
      CheckSteps(stepType, steps, from + 1)
  }

  /** `raw.fixedLeaks.forEach((n, i) => checkNumber('fixedLeaks[i]', n))` from index `from` on. */
  function CheckNumbers(items: seq<JsValue>, from: nat): (r: Result<bool, ConfigError>)
    requires from <= |items|
    ensures r.Ok? <==> forall i :: from <= i < |items| ==> items[i].Number?
    decreases |items| - from
  {
    if from == |items| then Ok(true)
    else
      var _ :- CheckNumber("fixedLeaks[" + NatToString(from) + "]", items[from]);
      CheckNumbers(items, from + 1)
  }

  /** A step list: `forEach` on anything but an array throws. */
  function CheckStepList(stepType: string, v: JsValue): (r: Result<bool, ConfigError>)
    ensures r.Ok? <==> v.Array? && forall i :: 0 <= i < |v.items| ==> IsStep(v.items[i])
  {
    if v.Array? then CheckSteps(stepType, v.items, 0) else Err(TypeError)
  }

  /** A step: the names of its `check` and `next` functions. */
  datatype Step = Step(check: string, next: string)

  /** `BLeakConfig`: the checked configuration and the source it came from. */
  datatype BLeakConfig = BLeakConfig(
    url: string,
    loop: seq<Step>,
    iterations: int,
    rankingEvaluationIterations: int,
    rankingEvaluationRuns: int,
    fixedLeaks: seq<int>,
    fixMap: JsValue,
    login: seq<Step>,
    setup: seq<Step>,
    timeout: int,
    rewrite: string,
    postCheckSleep: int,
    postNextSleep: int,
    postLoginSleep: int,
    configSource: string)

  function StepOf(v: JsValue): Step
    requires IsStep(v)
  {
    Step(GetProp(v, "check").value.name, GetProp(v, "next").value.name)
  }

  function Steps(items: seq<JsValue>): (r: seq<Step>)
    requires forall i :: 0 <= i < |items| ==> IsStep(items[i])
    ensures |r| == |items|
  {
    seq(|items|, i requires 0 <= i < |items| => StepOf(items[i]))
  }

  function Numbers(items: seq<JsValue>): (r: seq<int>)
    requires forall i :: 0 <= i < |items| ==> items[i].Number?
    ensures |r| == |items| && forall i :: 0 <= i < |items| ==> r[i] == items[i].n
  {
    seq(|items|, i requires 0 <= i < |items| => items[i].n)
  }

  /** Every check `FromSource` makes, in no particular order. */
  predicate ValidRaw(raw: RawConfig)
  {
    raw.url.Str?
    && raw.loop.Array? && (forall i :: 0 <= i < |raw.loop.items| ==> IsStep(raw.loop.items[i]))
    && raw.iterations.Number?
    && raw.rankingEvaluationIterations.Number?
    && raw.rankingEvaluationRuns.Number?
    && raw.fixedLeaks.Array? && (forall i :: 0 <= i < |raw.fixedLeaks.items| ==> raw.fixedLeaks.items[i].Number?)
    && raw.login.Array? && (forall i :: 0 <= i < |raw.login.items| ==> IsStep(raw.login.items[i]))
    && raw.setup.Array? && (forall i :: 0 <= i < |raw.setup.items| ==> IsStep(raw.setup.items[i]))
    && raw.timeout.Number?
    && raw.rewrite.Function?
    && raw.postCheckSleep.Number?
    && raw.postNextSleep.Number?
    && raw.postLoginSleep.Number?
  }

  /** The configuration a valid merged record describes. */
  function ToConfig(raw: RawConfig, source: string): BLeakConfig
    requires ValidRaw(raw)
  {
    BLeakConfig(
      raw.url.s, Steps(raw.loop.items), raw.iterations.n,
      raw.rankingEvaluationIterations.n, raw.rankingEvaluationRuns.n,
      Numbers(raw.fixedLeaks.items), raw.fixMap, Steps(raw.login.items),
      Steps(raw.setup.items), raw.timeout.n, raw.rewrite.name,
      raw.postCheckSleep.n, raw.postNextSleep.n, raw.postLoginSleep.n, source)
  }

  /** The checks of `FromSource`, in the order it makes them; the first failure is raised. */
  function CheckRaw(raw: RawConfig): (r: Result<bool, ConfigError>)
  {
    var _ :- CheckString("url", raw.url);
    var _ :- CheckStepList("loop", raw.loop);
    var _ :- CheckNumber("iterations", raw.iterations);
    var _ :- CheckNumber("rankingEvaluationIterations", raw.rankingEvaluationIterations);
    var _ :- CheckNumber("rankingEvaluationRuns", raw.rankingEvaluationRuns);
    var _ :- (if raw.fixedLeaks.Array? then CheckNumbers(raw.fixedLeaks.items, 0) else Err(TypeError));
    var _ :- CheckStepList("login", raw.login);
    var _ :- CheckStepList("setup", raw.setup);
    var _ :- CheckNumber("timeout", raw.timeout);
    var _ :- CheckFunction("rewrite", raw.rewrite);
    var _ :- CheckNumber("postCheckSleep", raw.postCheckSleep);
    var _ :- CheckNumber("postNextSleep", raw.postNextSleep);
    CheckNumber("postLoginSleep", raw.postLoginSleep)
  }

  /** The checks succeed exactly on valid records, whatever their order. */
  lemma CheckRawValid(raw: RawConfig)
    ensures CheckRaw(raw).Ok? <==> ValidRaw(raw)
  {
  }

  /** `BLeakConfig.FromSource`. */
  function FromSource(source: string, evaluated: Result<JsValue, string>): (r: Result<BLeakConfig, ConfigError>)
    ensures evaluated.Err? ==> r == Err(Invalid("Unable to run configuration file: " + evaluated.error))
    ensures evaluated.Ok? ==> (r.Ok? <==> ValidRaw(Merge(evaluated.value)))
    ensures r.Ok? ==> r.value.configSource == source
  {
    var raw :- ConfigFromSource(evaluated);
    CheckRawValid(raw);
    var _ :- CheckRaw(raw);
    Ok(ToConfig(raw, source))
  }

  /** A url that is not a string is the first thing refused. */
  lemma UrlMustBeString(source: string, exports: JsValue)
    requires !Merge(exports).url.Str?
    ensures FromSource(source, Ok(exports)) == Err(Invalid("config.url is not a string!"))
  {
    var raw := Merge(exports);
    assert CheckString("url", raw.url).Err?;
    assert "config." + "url" + " is not a string!" == "config.url is not a string!";
    assert CheckRaw(raw) == Err(Invalid("config.url is not a string!"));
  }

  /** A configuration that exports nothing gets every default. */
  lemma EmptyExportsGiveDefaults(source: string)
    ensures FromSource(source, Ok(Object(map[]))) == Ok(BLeakConfig(
      "http://localhost:8080/", [], 8, 10, 5, [], Object(map[]), [], [], 600000,
      "(url, type, data, fixes) => data", 1000, 0, 5000, source))
  {
    var raw := Merge(Object(map[]));
    assert raw == DefaultConfig;
    assert ValidRaw(raw);
  }

  /** An exported step list read back from the configuration: one step per item, naming its functions. */
  ghost predicate StepsRead(items: seq<JsValue>, steps: seq<Step>) {
    |steps| == |items| && forall i :: 0 <= i < |items| ==> IsStep(items[i]) && steps[i] == StepOf(items[i])
  }

  /** An exported number list read back from the configuration: the same numbers, in order. */
  ghost predicate NumbersRead(items: seq<JsValue>, ns: seq<int>) {
    |ns| == |items| && forall i :: 0 <= i < |items| ==> items[i] == Number(ns[i])
  }

  /**
   * Every exported field of an accepted configuration is taken over as
   * exported (`Object.assign` over the defaults), and every field not
   * exported keeps its default.
   */
  lemma ExportsOverride(source: string, props: map<string, JsValue>)
    requires FromSource(source, Ok(Object(props))).Ok?
    ensures var c := FromSource(source, Ok(Object(props))).value;
      ("url" in props ==> props["url"] == Str(c.url))
      && ("url" !in props ==> c.url == "http://localhost:8080/")
      && ("iterations" in props ==> props["iterations"] == Number(c.iterations))
      && ("iterations" !in props ==> c.iterations == 8)
      && ("rankingEvaluationIterations" in props ==> props["rankingEvaluationIterations"] == Number(c.rankingEvaluationIterations))
      && ("rankingEvaluationIterations" !in props ==> c.rankingEvaluationIterations == 10)
      && ("rankingEvaluationRuns" in props ==> props["rankingEvaluationRuns"] == Number(c.rankingEvaluationRuns))
      && ("rankingEvaluationRuns" !in props ==> c.rankingEvaluationRuns == 5)
      && ("timeout" in props ==> props["timeout"] == Number(c.timeout))
      && ("timeout" !in props ==> c.timeout == 600000)
      && ("postCheckSleep" in props ==> props["postCheckSleep"] == Number(c.postCheckSleep))
      && ("postCheckSleep" !in props ==> c.postCheckSleep == 1000)
      && ("postNextSleep" in props ==> props["postNextSleep"] == Number(c.postNextSleep))
      && ("postNextSleep" !in props ==> c.postNextSleep == 0)
      && ("postLoginSleep" in props ==> props["postLoginSleep"] == Number(c.postLoginSleep))
      && ("postLoginSleep" !in props ==> c.postLoginSleep == 5000)
      && ("fixMap" in props ==> props["fixMap"] == c.fixMap)
      && ("fixMap" !in props ==> c.fixMap == Object(map[]))
      && ("rewrite" in props ==> props["rewrite"] == Function(c.rewrite))
      && ("rewrite" !in props ==> c.rewrite == "(url, type, data, fixes) => data")
      && ("fixedLeaks" in props ==> props["fixedLeaks"].Array? && NumbersRead(props["fixedLeaks"].items, c.fixedLeaks))
      && ("fixedLeaks" !in props ==> c.fixedLeaks == [])
      && ("loop" in props ==> props["loop"].Array? && StepsRead(props["loop"].items, c.loop))
      && ("loop" !in props ==> c.loop == [])
      && ("login" in props ==> props["login"].Array? && StepsRead(props["login"].items, c.login))
      && ("login" !in props ==> c.login == [])
      && ("setup" in props ==> props["setup"].Array? && StepsRead(props["setup"].items, c.setup))
      && ("setup" !in props ==> c.setup == [])
      && c.configSource == source
  {
    var raw := Merge(Object(props));
    CheckRawValid(raw);
    assert ValidRaw(raw);
  }

  const InjectionPrefix: string :=
    "(function() {\n  var module = { exports: {} };\n  var exports = module.exports;\n  "

  const InjectionSuffix: string :=
    "\n  window.BLeakConfig = Object.assign({}, " + DefaultConfigString
    + ", module.exports ? module.exports : exports);\n})();"

  /**
   * `getBrowserInjection`: a script that runs the configuration source and
   * sets `window.BLeakConfig` to the defaults merged with its exports.
   */
  function BrowserInjection(c: BLeakConfig): (r: string)
    ensures |r| == |InjectionPrefix| + |c.configSource| + |InjectionSuffix|
    ensures StartsWith(r, InjectionPrefix) && EndsWith(r, InjectionSuffix)
    ensures r[|InjectionPrefix|..|r| - |InjectionSuffix|] == c.configSource
  {
    InjectionPrefix + c.configSource + InjectionSuffix
  }
}
