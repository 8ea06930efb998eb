/** The command-line front end, `run-agent.py`: the log-level names, the
    `--job-param KEY=VALUE` parser and the process exit status. */
module Cli {
  import opened Common

  /** The numeric values of Python's `logging` levels. */
  const CriticalLevel: int := 50
  const ErrorLevel: int := 40
  const WarningLevel: int := 30
  const InfoLevel: int := 20
  const DebugLevel: int := 10

  predicate IsLevel(level: int) {
    level == CriticalLevel || level == ErrorLevel || level == WarningLevel || level == InfoLevel || level == DebugLevel
  }

  /** The lower-case name under which the command line accepts a level. */
  function LevelName(level: int): (name: string)
    requires IsLevel(level)
  {
    if level == CriticalLevel then "critical"
    else if level == ErrorLevel then "error"
    else if level == WarningLevel then "warning"
    else if level == InfoLevel then "info"
    else "debug"
  }

  /** `string_to_log_level`: one of the five lower-case names gives its
      level, anything else (including another spelling of the same name)
      raises `ValueError`. */
  function StringToLogLevel(name: string): (r: Result<int>)
    ensures r.Ok? <==> name in {"critical", "error", "warning", "info", "debug"}
    ensures r.Ok? ==> IsLevel(r.value) && LevelName(r.value) == name
    ensures r.Err? ==> r.error == ValueError
  {
    if name == "critical" then Ok(CriticalLevel)
    else if name == "error" then Ok(ErrorLevel)
    else if name == "warning" then Ok(WarningLevel)
    else if name == "info" then Ok(InfoLevel)
    else if name == "debug" then Ok(DebugLevel)
    else Err(ValueError)
  }

  /** Every level's name maps back to it. */
  lemma LogLevelRoundTrip(level: int)
    requires IsLevel(level)
    ensures StringToLogLevel(LevelName(level)) == Ok(level)
  {
  }

  /** Names are matched exactly: an upper-case spelling is rejected. */
  lemma UpperCaseLevelRejected()
    ensures StringToLogLevel("INFO") == Err(ValueError)
    ensures StringToLogLevel("Debug") == Err(ValueError)
  {
    assert "INFO" != "info" && "INFO" != "critical" && "INFO" != "error" && "INFO" != "warning";
  }

  /** `kv.split("=", maxsplit=1)` unpacked into two names: the text before
      the first `=` and everything after it. `None` when there is no `=`,
      where the unpacking fails. */
  function SplitParam(kv: string): (r: Option<(string, string)>)
    ensures r.None? <==> '=' !in kv
    ensures r.Some? ==> '=' !in r.value.0 && r.value.0 + "=" + r.value.1 == kv
  {
    if kv == [] then None
    else if kv[0] == '=' then
      assert kv == [] + "=" + kv[1..];
      Some(([], kv[1..]))
    else
      match SplitParam(kv[1..])
      case None => None
      case Some((k, v)) =>
        assert kv == [kv[0]] + kv[1..];
        assert [kv[0]] + k + "=" + v == [kv[0]] + (k + "=" + v);
        Some(([kv[0]] + k, v))
  }

  /** The split is determined by its parts: a key without `=` joined to any
      value by `=` splits back into that key and that value. */
  lemma {:induction false} SplitParamRoundTrip(key: string, value: string)
    requires '=' !in key
    ensures SplitParam(key + "=" + value) == Some((key, value))
  {
    var kv := key + "=" + value;
    if key == [] {
      assert kv[1..] == value;
    } else {
      assert kv[1..] == key[1..] + "=" + value;
      assert '=' !in key[1..] by {
        forall c | c in key[1..] ensures c != '=' {
          assert c in key;
        }
      }
      SplitParamRoundTrip(key[1..], value);
      assert [key[0]] + key[1..] == key;
    }
  }

  /** `"A=b=c"` is split on its first `=` only. */
  lemma SplitOnFirstEquals()
    ensures SplitParam("A=b=c") == Some(("A", "b=c"))
  {
    SplitParamRoundTrip("A", "b=c");
    assert "A" + "=" + "b=c" == "A=b=c";
  }

  predicate AllSplit(params: seq<string>) {
    forall i :: 0 <= i < |params| ==> '=' in params[i]
  }

  function ParamKey(kv: string): string
    requires '=' in kv
  {
    SplitParam(kv).value.0
  }

  function ParamValue(kv: string): string
    requires '=' in kv
  {
    SplitParam(kv).value.1
  }

  /** The dictionary the `--job-param` loop builds: each parameter, in
      order, stores its value under its key. */
  function Params(params: seq<string>): (r: map<string, string>)
    requires AllSplit(params)
    ensures params == [] ==> r == map[]
    ensures params != [] ==>
      var kv := params[|params| - 1];
      ParamKey(kv) in r && r[ParamKey(kv)] == ParamValue(kv)
  {
    if params == [] then map[]
    else
      var kv := params[|params| - 1];
      Params(params[..|params| - 1])[ParamKey(kv) := ParamValue(kv)]
  }

  /** The `--job-param` loop. A parameter without `=` raises `ValueError`. */
  method ParseJobParams(jobParams: seq<string>) returns (r: Result<map<string, string>>)
    ensures r.Err? <==> !AllSplit(jobParams)
    ensures r.Err? ==> r.error == ValueError
    ensures r.Ok? ==> AllSplit(jobParams) && r.value == Params(jobParams)
  {
    var params: map<string, string> := map[];
    var i := 0;
    while i < |jobParams|
      invariant 0 <= i <= |jobParams|
      invariant AllSplit(jobParams[..i])
      invariant params == Params(jobParams[..i])
    {
      var kv := jobParams[i];
      match SplitParam(kv) {
        case None =>
          return Err(ValueError);
        case Some((k, v)) =>
          assert jobParams[..i + 1][..i] == jobParams[..i];
          params := params[k := v];
      }
      i := i + 1;
    }
    assert jobParams[..i] == jobParams;
    return Ok(params);
  }

  /** The keys of the dictionary are exactly the keys of the parameters. */
  lemma {:induction false} ParamsKeys(params: seq<string>, key: string)
    requires AllSplit(params)
    ensures key in Params(params) <==> exists i :: 0 <= i < |params| && ParamKey(params[i]) == key
  {
    if params != [] {
      var init, last := params[..|params| - 1], params[|params| - 1];
      assert Params(params) == Params(init)[ParamKey(last) := ParamValue(last)];
      ParamsKeys(init, key);
      if key in Params(init) {
        var i :| 0 <= i < |init| && ParamKey(init[i]) == key;
        assert params[i] == init[i];
      } else if key == ParamKey(last) {
        assert ParamKey(params[|params| - 1]) == key;
      } else {
        forall i | 0 <= i < |params| ensures ParamKey(params[i]) != key {
          if i < |init| {
            assert init[i] == params[i];
          }
        }
      }
    }
  }

  /** When a key repeats, the last parameter with that key gives its value. */
  lemma {:induction false} ParamsLastWins(params: seq<string>, i: nat)
    requires AllSplit(params)
    requires i < |params|
    requires forall j :: i < j < |params| ==> ParamKey(params[j]) != ParamKey(params[i])
    ensures ParamKey(params[i]) in Params(params)
    ensures Params(params)[ParamKey(params[i])] == ParamValue(params[i])
  {
    var init := params[..|params| - 1];
    if i < |init| {
      assert init[i] == params[i];
      assert forall j :: i < j < |init| ==> init[j] == params[j];
      ParamsLastWins(init, i);
    }
  }

  /** The value `return_code` holds when the script ends. */
  datatype ReturnCode = NoneCode | BoolCode(b: bool) | IntCode(n: int)

  /** The `--command` argument. */
  datatype Command = CreateJob | PrintLogs | InvalidCommand

  function ParseCommand(command: string): (c: Command)
    ensures c == CreateJob <==> command == "create-job-from-template"
    ensures c == PrintLogs <==> command == "print-logs-for-job"
  {
    if command == "create-job-from-template" then CreateJob
    else if command == "print-logs-for-job" then PrintLogs
    else InvalidCommand
  }

  /** What `return_code` holds after the command: the value
      `create_job_from_template` returned (`None` when run asynchronously),
      the code the log command gave, or 1 for an unknown command. */
  function FinalReturnCode(command: Command, created: Option<bool>, logsCode: ReturnCode): (rc: ReturnCode)
    ensures command == CreateJob ==> (rc.NoneCode? <==> created.None?)
    ensures command == CreateJob && created.Some? ==> rc == BoolCode(created.value)
    ensures command == PrintLogs ==> rc == logsCode
    ensures command == InvalidCommand ==> rc == IntCode(1)
  {
    match command
    case CreateJob => if created.Some? then BoolCode(created.value) else NoneCode
    case PrintLogs => logsCode
    case InvalidCommand => IntCode(1)
  }

  /** Python's `return_code == False`: `None` never equals `False`, and an
      integer equals it exactly when it is 0. */
  predicate EqualsFalse(rc: ReturnCode): (b: bool)
    ensures b <==> rc == BoolCode(false) || rc == IntCode(0)
    ensures rc.NoneCode? ==> !b
  {
    match rc
    case NoneCode => false
    case BoolCode(b) => !b
    case IntCode(n) => n == 0
  }

  /** `sys.exit(return_code == False)`: the boolean becomes status 1 or 0. */
  function ExitStatus(rc: ReturnCode): (status: int)
    ensures status == 0 || status == 1
    ensures status == 1 <==> rc == BoolCode(false) || rc == IntCode(0)
  {
    if EqualsFalse(rc) then 1 else 0
  }

  /** The job command exits with status 1 exactly when the wait returned False. */
  lemma CreateJobExitStatus(created: Option<bool>, logsCode: ReturnCode)
    ensures ExitStatus(FinalReturnCode(CreateJob, created, logsCode)) == 1 <==> created == Some(false)
  {
  }

  /** An unknown command sets `return_code = 1`, and `1 == False` is false,
      so the script exits with status 0. */
  lemma InvalidCommandExitsZero(command: string, created: Option<bool>, logsCode: ReturnCode)
    requires command != "create-job-from-template" && command != "print-logs-for-job"
    ensures ExitStatus(FinalReturnCode(ParseCommand(command), created, logsCode)) == 0
  {
  }
}
