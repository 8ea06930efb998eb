# ecflow-openshift-agent, modelled in Dafny

The agent runs ecFlow tasks as OpenShift jobs. It takes a template from the
cluster, names the objects it creates, deletes what is already there, creates
the objects and waits for each of them to finish. This project models the
part of that work which is plain logic over strings, lists and a clock:

- `canonical_name`, the name-cleaning pipeline (`names.dfy`, module `Names`).
- The `"<N>s"` timeout parse that `create_job_from_template` and
  `wait_until_finished` both do (`timeouts.dfy`, module `Timeouts`).
- The pod and container classification of `_check_pod_status`
  (`pod_status.dfy`, module `PodStatus`).
- The polling loop and progress budget of `wait_until_finished`
  (`job_wait.dfy`, module `JobWait`).
- The list logic of `create_job_from_template` (`template.dfy`, module
  `Template`). This covers:
  - the deadline warnings;
  - the in-place name override, on arrays;
  - deleting before creating;
  - the check that some object was created;
  - combining the wait results.
- The command-line helpers of `run-agent.py` (`cli.dfy`, module `Cli`):
  - the log-level names;
  - the `--job-param KEY=VALUE` loop;
  - the exit status.

`common.dfy` holds the shared `Option`, `Result` and Python exception types.

Calls to the cluster become inputs to the model:

- One fetch of the job status is one `Tick`: the counts, a fetch error
  flagged as a timeout, or another fetch error. It also carries the clock
  value read after the one-second sleep.
- Each poll's pod list is a sequence of `Pod` values.
- The objects `oc.create` returned are a sequence of `WaitInput` values.

The loops the source runs for ever run here over a finite sequence of
observations. A `Pending`, `StillWaiting` or `Watching` result means the
source would still be polling.

Behaviour of the code worth noting, which the model follows as written:

- `canonical_name` is not idempotent in general. Truncation comes after the
  strip, so it can leave a trailing tab that a second pass removes.
  `Names.TruncationExposesWhitespace` shows this for `"a\tb"` with
  `max_len` 2. Idempotence is proved only for inputs whose only whitespace
  is the space character.
- An override list longer than the template's object list is not rejected
  up front. The loop assigns the names that fit and then raises
  `IndexError`, so the model returns that error. It does not make the
  length a precondition.
- A scalar override is wrapped in a list only when the template has exactly
  one object. Otherwise the loop enumerates the string, one character per
  object name.
- An unknown `--command` sets the return code to 1. Since `1 == False` is
  false, the script then exits with status 0.
- `_check_pod_status` is not called anywhere in `agent.py`. It is modelled
  as it stands.

## Model

| member | source | states |
|---|---|---|
| Names.CanonicalName | packages/ecflow_openshift_agent/agent.py:89-99 | the result is a prefix of the lower-cased, dash-substituted, stripped, slash-replaced name; its length is that string's length capped at `max_len`; it holds no `_`, space, `.`, `/` or upper-case letter; it has no whitespace when the input's only whitespace is space |
| Names.Lower | packages/ecflow_openshift_agent/agent.py:91 | `lower()` keeps the length and maps each character to its lower-case form, upper-case letters to the matching lower-case ones and everything else to itself |
| Names.Replace | packages/ecflow_openshift_agent/agent.py:92-96 | `replace()` of one character keeps the length, puts the replacement at each position holding the target, and changes nothing else |
| Names.Strip | packages/ecflow_openshift_agent/agent.py:95 | `strip()` gives the slice of its input that starts after the leading whitespace; everything after the slice is whitespace; the slice has no whitespace at either end; an input with no whitespace at either end is unchanged |
| Names.StripExample | packages/ecflow_openshift_agent/agent.py:95 | `"a b\t"` strips to `"a b"` |
| Names.SlicePrefix | packages/ecflow_openshift_agent/agent.py:96 | the slice `[0:max_len]` is a prefix of its input, of length `min(max_len, len)` for a non-negative bound |
| Names.CanonicalFixpoint | packages/ecflow_openshift_agent/agent.py:89-99 | a legal name without whitespace that fits in `max_len` is left unchanged |
| Names.CanonicalIdempotent | packages/ecflow_openshift_agent/agent.py:89-99 | canonicalising twice equals canonicalising once when the input's only whitespace is space |
| Names.TruncationExposesWhitespace | packages/ecflow_openshift_agent/agent.py:95-96 | `canonical_name("a\tb", 2)` is `"a\t"`, and a second pass gives `"a"`: not idempotent in general |
| Names.CanonicalNameExample | packages/ecflow_openshift_agent/agent.py:89-99 | `"My_Job Name.v1"` becomes `"my-job-name-v1"` |
| Timeouts.ParseTimeout | packages/ecflow_openshift_agent/agent.py:198-200 | an empty timeout raises `IndexError`; one not ending in `s` is kept as text; one ending in `s` whose rest is not an integer raises `ValueError`; a timeout ending in `s` whose rest is an integer is accepted as that many seconds, and a value in seconds is always `int()` of the text before the final `s` |
| Timeouts.ParseInt | packages/ecflow_openshift_agent/agent.py:200 | `int()` accepts exactly non-empty decimal digits, or a `-` or `+` sign followed by them; digits alone give their decimal value, and a sign gives that value negated for `-` or kept for `+` |
| Timeouts.ParseIntExamples | packages/ecflow_openshift_agent/agent.py:200 | `int("-12")` is -12 and `int("+5")` is 5, while `"a5"` and a lone `-` are rejected, where `int()` raises `ValueError` |
| Timeouts.ParseTimeoutRoundTrip | packages/ecflow_openshift_agent/agent.py:275-277 | the timeout written `"<N>s"` parses to `N` seconds, for every integer `N` |
| Timeouts.ParseIntOfIntToString | packages/ecflow_openshift_agent/agent.py:200 | `int(str(n)) == n` |
| PodStatus.CurrentPods | packages/ecflow_openshift_agent/agent.py:35 | the stale-pod filter keeps at most the pods it is given |
| PodStatus.CurrentPodsKeeps | packages/ecflow_openshift_agent/agent.py:35 | a pod is kept exactly when it is in the poll and started no earlier than the job |
| PodStatus.CurrentPodsAppend | packages/ecflow_openshift_agent/agent.py:35 | the stale-pod filter distributes over concatenation, so the kept pods stay in their original order |
| PodStatus.LastPresentReason | packages/ecflow_openshift_agent/agent.py:42-44 | the reason is the running one if present, else the terminated one if present, else the waiting one if present, else the previous one; it is absent only when the previous one was |
| PodStatus.Step | packages/ecflow_openshift_agent/agent.py:39-55 | a container in phase `Succeeded`, or reached after the check stopped, changes nothing; otherwise the check returns False exactly when the last present reason is unaccepted, raises when no reason is known yet, and keeps watching with that reason otherwise |
| PodStatus.ResolveReason | packages/ecflow_openshift_agent/agent.py:42-44 | the loop over waiting, terminated and running gives the last present reason, running first; otherwise the previous one stays |
| PodStatus.CheckContainerStatuses | packages/ecflow_openshift_agent/agent.py:38-55 | the loop over one pod's containers gives the classification of that run of containers |
| PodStatus.CheckPods | packages/ecflow_openshift_agent/agent.py:37-55 | the loop over the current pods gives the classification of their containers, pod by pod |
| PodStatus.CheckPodStatus | packages/ecflow_openshift_agent/agent.py:19-67 | the polling loop gives the classification of every container of the current pods, poll by poll |
| PodStatus.RunIgnoresSucceeded | packages/ecflow_openshift_agent/agent.py:39-40 | containers in phase `Succeeded` do not affect the result |
| PodStatus.RejectedIsSound | packages/ecflow_openshift_agent/agent.py:51-55 | a False result names an unaccepted reason that an active container really has; while watching, the reason in hand is never unaccepted |
| PodStatus.UnacceptedReasonEndsWatch | packages/ecflow_openshift_agent/agent.py:51-55 | an active container with `ErrImagePull`, `ImagePullBackOff` or `CrashLoopBackOff` ends the check with False, unless an earlier container already ended it |
| PodStatus.UnboundIff | packages/ecflow_openshift_agent/agent.py:42-46 | reading the reason raises exactly when the first active container has no reason at all |
| PodStatus.RunAfterStop | packages/ecflow_openshift_agent/agent.py:55 | once the check has returned or raised, later containers change nothing |
| JobWait.FirstStop | packages/ecflow_openshift_agent/agent.py:283-304 | the loop leaves at the first pass that is not an in-flight status |
| JobWait.WaitUntilFinished | packages/ecflow_openshift_agent/agent.py:263-312 | the outcome is the first terminal pass's outcome; the reports are the spaced clock readings; the budget is the timeout minus 20 s per report |
| JobWait.Poll | packages/ecflow_openshift_agent/agent.py:283-312 | the polling loop gives the outcome of the first terminal pass; the reports are the spaced clock readings before it; the budget is the timeout minus 20 s per report |
| JobWait.StopOutcome | packages/ecflow_openshift_agent/agent.py:288-304 | the pass that leaves the loop gives True exactly for `succeeded == 1`, False for `failed == 1` otherwise, False for a timeout error, and raises for any other error; it is never still polling |
| JobWait.WaitStopsAtFirstTerminal | packages/ecflow_openshift_agent/agent.py:283-304 | the first pass that leaves the loop decides the outcome: `succeeded == 1` before `failed == 1`, a timeout error gives False, any other error propagates |
| JobWait.WaitTrueIff | packages/ecflow_openshift_agent/agent.py:295-297 | the wait returns True exactly when the first terminal status has `succeeded == 1`, whatever its `failed` count |
| JobWait.PendingIffAllInFlight | packages/ecflow_openshift_agent/agent.py:283 | the loop is still polling exactly when every pass so far is an in-flight status; there is no time test of its own |
| JobWait.OutcomeIgnoresClock | packages/ecflow_openshift_agent/agent.py:306-312 | the outcome depends on the fetches only, never on the clock readings |
| JobWait.ReportsSpaced | packages/ecflow_openshift_agent/agent.py:308-312 | each report comes more than 20 s after the previous one (the first after the start), and each is a clock reading of the run |
| JobWait.ReportIffInterval | packages/ecflow_openshift_agent/agent.py:309-312 | a reading is reported exactly when it is more than 20 s after the last report |
| Template.TemplateName | packages/ecflow_openshift_agent/agent.py:169-171 | whichever branch runs, the template name used is the lower-cased one |
| Template.Mismatch | packages/ecflow_openshift_agent/agent.py:203 | a missing deadline never mismatches; against a text timeout every present deadline mismatches; against seconds a present deadline mismatches exactly when it differs |
| Template.DeadlineWarnings | packages/ecflow_openshift_agent/agent.py:202-208 | an index is warned about exactly when its deadline is present and differs from the parsed timeout; warnings come in index order |
| Template.OverrideNames | packages/ecflow_openshift_agent/agent.py:212-219 | no override assigns no name; a list gives one name per entry; a scalar gives one name on a one-object template and one name per character otherwise |
| Template.OverrideNamesLegal | packages/ecflow_openshift_agent/agent.py:214-219 | every name the override assigns is legal and at most 63 characters long |
| Template.OverrideListNames | packages/ecflow_openshift_agent/agent.py:216-219 | list entry `i` is canonicalised into name `i` |
| Template.ScalarOverrideName | packages/ecflow_openshift_agent/agent.py:213-214 | on a one-object template, the scalar override canonicalised twice equals canonicalised once when its only whitespace is space |
| Template.ScalarOverrideIsEnumerated | packages/ecflow_openshift_agent/agent.py:213-219 | on a template of other than one object, a lower-case letter at index `i` of a scalar override becomes name `i` |
| Template.ApplyNameOverride | packages/ecflow_openshift_agent/agent.py:210-220 | object `i` and `job_name[i]` get override name `i` for `i` below the override length, nothing else changes, and too long a list fails |
| Template.AssignNames | packages/ecflow_openshift_agent/agent.py:216-220 | the loop gives object `i` and `job_name[i]` name `i` for `i` below the list length and leaves the rest; it fails exactly when the list is longer than the object list |
| Template.DeleteExisting | packages/ecflow_openshift_agent/agent.py:222-227 | one delete request per object, in order, with its kind and its current name |
| Template.AggregateWaits | packages/ecflow_openshift_agent/agent.py:239-245 | the combined wait returns exactly when every wait finishes, and then returns a value, which is True for no objects; when it raises, some wait raised that error |
| Template.AggregateIsLastWait | packages/ecflow_openshift_agent/agent.py:239-245 | when every wait finishes, the result is the last object's result |
| Template.AggregateIsNotConjunction | packages/ecflow_openshift_agent/agent.py:239-245 | a failed wait followed by a successful one gives True |
| Template.AggregateStopsAtFirstUnfinished | packages/ecflow_openshift_agent/agent.py:240-241 | the first wait that raises, or is still polling, decides the result |
| Template.WaitForCreated | packages/ecflow_openshift_agent/agent.py:239-245 | the wait loop over the created objects gives the combined result of their waits |
| Template.CreateJobFromTemplate | packages/ecflow_openshift_agent/agent.py:195-245 | a timeout parse error is raised before anything changes; the deadline warnings name each mismatching index once, in index order; the renaming is as above; too long an override list raises `IndexError` before any delete; otherwise the deletes are made, nothing created raises `AssertionError`, `run_async` returns None, and otherwise the combined wait result is returned |
| Cli.StringToLogLevel | run-agent.py:17-29 | exactly the five lower-case names are accepted, each mapping to the level whose name it is; anything else raises `ValueError` |
| Cli.LogLevelRoundTrip | run-agent.py:17-27 | every level's name maps back to that level |
| Cli.UpperCaseLevelRejected | run-agent.py:28-29 | `"INFO"` and `"Debug"` raise `ValueError` |
| Cli.SplitParam | run-agent.py:126 | the split fails exactly when there is no `=`; otherwise the key has no `=` and key, `=` and value rebuild the parameter |
| Cli.SplitParamRoundTrip | run-agent.py:126 | a key without `=`, joined to any value, splits back into that key and value |
| Cli.SplitOnFirstEquals | run-agent.py:126 | `"A=b=c"` gives key `A` and value `b=c` |
| Cli.Params | run-agent.py:124-127 | no parameters give the empty dictionary; the last parameter's value is stored under its key |
| Cli.ParseJobParams | run-agent.py:124-127 | the loop raises `ValueError` exactly when some parameter has no `=`, and otherwise builds the parameter dictionary |
| Cli.ParamsKeys | run-agent.py:124-127 | the dictionary's keys are exactly the parameters' keys |
| Cli.ParamsLastWins | run-agent.py:127 | for a repeated key, the last parameter with that key gives the value |
| Cli.ParseCommand | run-agent.py:121-143 | `create-job-from-template` selects the job command and `print-logs-for-job` the log command, exactly; any other text is an unknown command |
| Cli.FinalReturnCode | run-agent.py:121-145 | the return code is the job command's result (`None` when asynchronous), the log command's code, or 1 for an unknown command |
| Cli.EqualsFalse | run-agent.py:149 | `return_code == False` holds exactly for False and for the integer 0, never for None |
| Cli.ExitStatus | run-agent.py:149 | the status is 1 exactly when the return code is False or 0, and 0 otherwise |
| Cli.CreateJobExitStatus | run-agent.py:129-149 | the job command exits with status 1 exactly when the wait returned False |
| Cli.InvalidCommandExitsZero | run-agent.py:143-149 | an unknown command exits with status 0 |

## Left out

- The `oc.*` calls: getting and processing the template, create, delete, the selectors, `pod.logs()`, `pod.describe()` and `_wait_for_status`. Their results are inputs to the model. A failing delete or create call is not modelled.
- `Agent.__init__` and `login_with_token`, credentials, the session, and the `os.environ` lookups. These are calls into the client library and the environment.
- `logging.basicConfig` and every log message, including the warning for a job name that is not lower case (agent.py:217-218). They are output only.
- The "remained in state" warning cadence of `_check_pod_status` (`print_interval`, `last_event`, `time_since_last_event`). It is logging driven by floating-point time. Its `not in ("Completed")` test is a substring test on a string, not a tuple test.
- The diagnostics after the wait loop (agent.py:314-346) and the `_parse_time` duration message (agent.py:348-353). They are remote fetches plus logging.
- The three `obj_sel.objects()` calls (agent.py:231, 233 and 240) are taken to return the same list, one sequence of `WaitInput` values. The model does not capture a selector that changes between the calls.
- `time.sleep`, `time.time()` and `dt.datetime.now()`. The clock is a sequence of abstract readings in seconds.
- Non-ASCII characters. `lower()`, `islower()` and `isspace()` are modelled on ASCII only.
- Timeouts.ParseInt: parts of Python's `int()` are not modelled. It does not accept surrounding whitespace, digit-group underscores or non-ASCII decimal digits, which `int()` accepts.
- Pods without a `startTime`, and `status.conditions[0]` on a failed job. Neither is modelled.
- `delete_after_finished`, which the source never reads.
- `get_logs_for_job`, `no_login` and `log_container_name`. The script uses them, but the agent shown does not define or accept them. The log command's return code is an input to `Cli.FinalReturnCode`.
- `argparse`, the `template_name`/`job_name` asserts of the script, `cleanup()`, and `setup.py`.
- The process exit status after an uncaught exception. That is the interpreter's behaviour, not the script's.
- Template.CreateJobFromTemplate: the number of template objects (`num_objects`) is taken to be the length of the processed object list.
- JobWait.WaitUntilFinished: the budget and reports are stated only for an integer timeout; a text timeout raises before the loop.
