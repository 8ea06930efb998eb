/** The list logic of `create_job_from_template`, on the object list that
    processing the template gave: parse the timeout, warn about deadlines
    that disagree with it, apply the name override in place, delete every
    object before creating, demand that something was created, and wait for
    the created objects one after the other. */
module Template {
  import opened Common
  import opened Names
  import opened Timeouts
  import opened JobWait

  /** One object of the processed template: its kind, its
      `metadata.name` and its `activeDeadlineSeconds` (`None` when missing). */
  datatype ObjectSpec = ObjectSpec(kind: string, name: string, activeDeadlineSeconds: Option<int>)

  /** The `override_job_name` argument: `None`, a single string, or a list. */
  datatype Override = NoOverride | Scalar(name: string) | NameList(names: seq<string>)

  /** The arguments of one `delete_object` call. */
  datatype DeleteRequest = DeleteRequest(kind: string, name: string)

  /** What the wait for one created object sees: the clock when it starts
      and the passes of its polling loop. */
  datatype WaitInput = WaitInput(start: nat, ticks: seq<Tick>)

  /** What `create_job_from_template` does: returns a value (`None` when
      run asynchronously), raises, or is still waiting when the
      observations run out. */
  datatype CreateOutcome = Returned(value: Option<bool>) | Threw(error: Error) | StillWaiting

  /** Python's `islower()` on ASCII: some letter, and no upper-case one. */
  predicate IsLowerPython(s: string) {
    (exists i :: 0 <= i < |s| && 'a' <= s[i] <= 'z') && forall i :: 0 <= i < |s| ==> !IsUpper(s[i])
  }

  /** The template name is lower-cased when `islower()` fails: whichever
      branch is taken, the name used is the lower-cased one. */
  function TemplateName(name: string): (r: string)
    ensures r == Lower(name)
  {
    if IsLowerPython(name) then
      assert Lower(name) == name;
      name
    else Lower(name)
  }

  /** `dl != timeout_s` for a present deadline: an integer never equals a
      string, so a timeout kept as text mismatches every deadline. */
  predicate Mismatch(deadline: Option<int>, timeout: Timeout): (m: bool)
    ensures deadline.None? ==> !m
    ensures timeout.Text? ==> (m <==> deadline.Some?)
    ensures timeout.Seconds? && deadline.Some? ==> (m <==> deadline.value != timeout.seconds)
  {
    deadline.Some? && !(timeout.Seconds? && timeout.seconds == deadline.value)
  }

  function Deadlines(objects: seq<ObjectSpec>): (r: seq<Option<int>>)
    ensures |r| == |objects|
    ensures forall i :: 0 <= i < |objects| ==> r[i] == objects[i].activeDeadlineSeconds
  {
    seq(|objects|, i requires 0 <= i < |objects| => objects[i].activeDeadlineSeconds)
  }

  /** The loop over `active_deadlines`: the indices it warns about, in the
      order of the warnings. */
  method DeadlineWarnings(deadlines: seq<Option<int>>, timeout: Timeout) returns (warned: seq<nat>)
    ensures forall i :: i in warned <==> 0 <= i < |deadlines| && Mismatch(deadlines[i], timeout)
    ensures forall a, b :: 0 <= a < b < |warned| ==> warned[a] < warned[b]
  {
    warned := [];
    for i := 0 to |deadlines|
      invariant forall j :: j in warned <==> 0 <= j < i && Mismatch(deadlines[j], timeout)
      invariant forall a, b :: 0 <= a < b < |warned| ==> warned[a] < warned[b]
      invariant forall a :: 0 <= a < |warned| ==> warned[a] < i
    {
      if Mismatch(deadlines[i], timeout) {
        warned := warned + [i];
      }
    }
  }

  /** The names the override loop assigns, index by index. A scalar is
      wrapped in a list, canonicalised, only when the template has exactly
      one object; otherwise the loop enumerates the string itself, one
      character per name. Each entry is canonicalised by the loop. */
  function OverrideNames(o: Override, numObjects: nat): (r: seq<string>)
    ensures o.NoOverride? ==> r == []
    ensures o.NameList? ==> |r| == |o.names|
    ensures o.Scalar? && numObjects == 1 ==> |r| == 1
    ensures o.Scalar? && numObjects != 1 ==> |r| == |o.name|
  {
    match o
    case NoOverride => []
    case Scalar(s) =>
      if numObjects == 1 then [CanonicalName(CanonicalName(s, MaxNameLength), MaxNameLength)]
      else seq(|s|, i requires 0 <= i < |s| => CanonicalName([s[i]], MaxNameLength))
    case NameList(l) => seq(|l|, i requires 0 <= i < |l| => CanonicalName(l[i], MaxNameLength))
  }

  /** Every name the override assigns is legal and fits the length limit. */
  lemma OverrideNamesLegal(o: Override, numObjects: nat, i: nat)
    requires i < |OverrideNames(o, numObjects)|
    ensures IsLegal(OverrideNames(o, numObjects)[i])
    ensures |OverrideNames(o, numObjects)[i]| <= MaxNameLength
  {
    match o
    case Scalar(s) =>
      if numObjects == 1 {
        var once := CanonicalName(s, MaxNameLength);
        assert OverrideNames(o, numObjects)[i] == CanonicalName(once, MaxNameLength);
      } else {
        assert OverrideNames(o, numObjects)[i] == CanonicalName([s[i]], MaxNameLength);
      }
    case NameList(l) =>
      assert OverrideNames(o, numObjects)[i] == CanonicalName(l[i], MaxNameLength);
  }

  /** Each name of an override list becomes, canonicalised, the name of the
      object at its index. */
  lemma OverrideListNames(l: seq<string>, numObjects: nat, i: nat)
    requires i < |l|
    ensures OverrideNames(NameList(l), numObjects)[i] == CanonicalName(l[i], MaxNameLength)
  {
  }

  /** A scalar override on a one-object template is canonicalised twice;
      that is the same as once when its only whitespace is the space. */
  lemma ScalarOverrideName(s: string)
    requires OnlySpaceWhitespace(s)
    ensures OverrideNames(Scalar(s), 1) == [CanonicalName(s, MaxNameLength)]
  {
    CanonicalIdempotent(s, MaxNameLength);
  }

  /** A scalar override on a template of several objects names them after
      its characters: a lower-case letter at index `i` of the string becomes
      the name of object `i`. */
  lemma ScalarOverrideIsEnumerated(s: string, numObjects: nat, i: nat)
    requires numObjects != 1 && i < |s| && 'a' <= s[i] <= 'z'
    ensures OverrideNames(Scalar(s), numObjects)[i] == [s[i]]
  {
    SingleLetterName(s[i]);
  }

  lemma SingleLetterName(c: char)
    requires 'a' <= c <= 'z'
    ensures CanonicalName([c], MaxNameLength) == [c]
  {
    assert IsLegal([c]) && NoWhitespace([c]);
    CanonicalFixpoint([c], MaxNameLength);
  }

  /** The objects after the first `|names|` have been renamed. */
  function Renamed(objects: seq<ObjectSpec>, names: seq<string>): (r: seq<ObjectSpec>)
    ensures |r| == |objects|
    ensures forall i :: 0 <= i < |objects| ==>
      r[i] == if i < |names| then objects[i].(name := names[i]) else objects[i]
  {
    seq(|objects|, i requires 0 <= i < |objects| => if i < |names| then objects[i].(name := names[i]) else objects[i])
  }

  /** The override handling, in place over `job_name` and the objects'
      names. An override list longer than the object list raises
      `IndexError` after the names that fit have been assigned. */
  method ApplyNameOverride(objects: array<ObjectSpec>, jobName: array<string>, o: Override) returns (ok: bool)
    requires objects.Length == jobName.Length
    modifies objects, jobName
    ensures ok == (|OverrideNames(o, objects.Length)| <= objects.Length)
    ensures objects[..] == Renamed(old(objects[..]), OverrideNames(o, objects.Length))
    ensures forall i :: 0 <= i < jobName.Length ==>
      jobName[i] == if i < |OverrideNames(o, objects.Length)| then OverrideNames(o, objects.Length)[i] else old(jobName[i])
  {
    var names := OverrideNames(o, objects.Length);
    ok := AssignNames(objects, jobName, names);
  }

  /** The loop `for i, job in enumerate(override_job_name)`, with each
      entry already canonicalised. */
  method AssignNames(objects: array<ObjectSpec>, jobName: array<string>, names: seq<string>) returns (ok: bool)
    requires objects.Length == jobName.Length
    modifies objects, jobName
    ensures ok == (|names| <= objects.Length)
    ensures objects[..] == Renamed(old(objects[..]), names)
    ensures forall i :: 0 <= i < jobName.Length ==>
      jobName[i] == if i < |names| then names[i] else old(jobName[i])
  {
    ghost var before := objects[..];
    ok := true;
    var i := 0;
    while i < |names|
      invariant 0 <= i <= |names| && i <= objects.Length
      invariant forall j :: 0 <= j < objects.Length ==>
        objects[j] == if j < i then before[j].(name := names[j]) else before[j]
      invariant forall j :: 0 <= j < jobName.Length ==>
        jobName[j] == if j < i then names[j] else old(jobName[j])
    {
      if i >= objects.Length {
        ok := false;
        assert objects[..] == Renamed(before, names);
        return;
      }
      jobName[i] := names[i];
      objects[i] := objects[i].(name := jobName[i]);
      i := i + 1;
    }
    assert objects[..] == Renamed(before, names);
  }

  function DeleteRequestsFor(objects: seq<ObjectSpec>): (r: seq<DeleteRequest>)
    ensures |r| == |objects|
    ensures forall i :: 0 <= i < |objects| ==> r[i] == DeleteRequest(objects[i].kind, objects[i].name)
  {
    seq(|objects|, i requires 0 <= i < |objects| => DeleteRequest(objects[i].kind, objects[i].name))
  }

  /** The delete loop: one `delete_object` per object, in order, with the
      names as they stand after the override. */
  method DeleteExisting(objects: array<ObjectSpec>) returns (requests: seq<DeleteRequest>)
    ensures |requests| == objects.Length
    ensures forall i :: 0 <= i < objects.Length ==> requests[i] == DeleteRequest(objects[i].kind, objects[i].name)
  {
    requests := [];
    for i := 0 to objects.Length
      invariant |requests| == i
      invariant forall j :: 0 <= j < i ==> requests[j] == DeleteRequest(objects[j].kind, objects[j].name)
    {
      requests := requests + [DeleteRequest(objects[i].kind, objects[i].name)];
    }
  }

  /** The outcome of each created object's wait. */
  function WaitOutcomes(timeout: string, created: seq<WaitInput>): (r: seq<WaitOutcome>)
    ensures |r| == |created|
    ensures forall i :: 0 <= i < |created| ==> r[i] == WaitSpec(timeout, created[i].ticks)
  {
    seq(|created|, i requires 0 <= i < |created| => WaitSpec(timeout, created[i].ticks))
  }

  /** The wait loop: `ret` starts True and every finished wait overwrites
      it; an exception, or a wait still polling, ends the loop. */
  function AggregateWaits(outcomes: seq<WaitOutcome>): (r: CreateOutcome)
    ensures r.Returned? <==> forall i :: 0 <= i < |outcomes| ==> outcomes[i].Finished?
    ensures r.Returned? ==> r.value.Some?
    ensures outcomes == [] ==> r == Returned(Some(true))
    ensures r.Threw? ==> exists i :: 0 <= i < |outcomes| && outcomes[i] == Raised(r.error)
  {
    if outcomes == [] then Returned(Some(true))
    else
      match AggregateWaits(outcomes[..|outcomes| - 1])
      case Returned(_) =>
        (match outcomes[|outcomes| - 1]
         case Finished(v) => Returned(Some(ReturnValue(v)))
         case Raised(e) => Threw(e)
         case Pending => StillWaiting)
      case other => other
  }

  /** When every wait finishes, the result is the last object's result, not
      the conjunction of all of them. */
  lemma {:induction false} AggregateIsLastWait(outcomes: seq<WaitOutcome>)
    requires |outcomes| > 0
    requires forall i :: 0 <= i < |outcomes| ==> outcomes[i].Finished?
    ensures AggregateWaits(outcomes) == Returned(Some(ReturnValue(outcomes[|outcomes| - 1].verdict)))
  {
    var init := outcomes[..|outcomes| - 1];
    if |init| > 0 {
      AggregateIsLastWait(init);
    }
  }

  lemma AggregateIsNotConjunction()
    ensures AggregateWaits([Finished(Failed), Finished(Succeeded)]) == Returned(Some(true))
  {
    AggregateIsLastWait([Finished(Failed), Finished(Succeeded)]);
  }

  lemma {:induction false} AggregateAfterStop(a: seq<WaitOutcome>, b: seq<WaitOutcome>)
    requires !AggregateWaits(a).Returned?
    ensures AggregateWaits(a + b) == AggregateWaits(a)
  {
    if b == [] {
      assert a + b == a;
    } else {
      assert (a + b)[..|a + b| - 1] == a + b[..|b| - 1];
      AggregateAfterStop(a, b[..|b| - 1]);
    }
  }

  /** The first wait that raises, or is still polling, decides the result. */
  lemma AggregateStopsAtFirstUnfinished(outcomes: seq<WaitOutcome>, k: nat)
    requires k < |outcomes| && !outcomes[k].Finished?
    requires forall i :: 0 <= i < k ==> outcomes[i].Finished?
    ensures AggregateWaits(outcomes) == if outcomes[k].Raised? then Threw(outcomes[k].error) else StillWaiting
  {
    var upTo := outcomes[..k + 1];
    assert upTo[..k] == outcomes[..k];
    if k > 0 {
      AggregateIsLastWait(outcomes[..k]);
    }
    assert outcomes == upTo + outcomes[k + 1..];
    AggregateAfterStop(upTo, outcomes[k + 1..]);
  }

  /** The loop's view of the same fact: the waits before `k` returned. */
  lemma AggregateStopsAfterFinished(outcomes: seq<WaitOutcome>, k: nat, ret: bool)
    requires k < |outcomes| && !outcomes[k].Finished?
    requires AggregateWaits(outcomes[..k]) == Returned(Some(ret))
    ensures AggregateWaits(outcomes) == if outcomes[k].Raised? then Threw(outcomes[k].error) else StillWaiting
  {
    forall i | 0 <= i < k ensures outcomes[i].Finished? {
      assert outcomes[..k][i] == outcomes[i];
    }
    AggregateStopsAtFirstUnfinished(outcomes, k);
  }

  lemma AggregateFinishedStep(outcomes: seq<WaitOutcome>, k: nat, ret: bool)
    requires k < |outcomes| && outcomes[k].Finished?
    requires AggregateWaits(outcomes[..k]) == Returned(Some(ret))
    ensures AggregateWaits(outcomes[..k + 1]) == Returned(Some(ReturnValue(outcomes[k].verdict)))
  {
    assert outcomes[..k + 1][..k] == outcomes[..k];
  }

  /** `create_job_from_template` from the processed template on. `objects`
      is the processed template; `created` gives, for each object the create
      call returned, what its wait sees. `warned` are the indices the
      deadline warnings name, `deletes` the delete calls made. */
  method CreateJobFromTemplate(
    objects: array<ObjectSpec>, override: Override, deleteIfFound: bool, runAsync: bool,
    timeout: string, created: seq<WaitInput>)
    returns (r: CreateOutcome, warned: seq<nat>, deletes: seq<DeleteRequest>)
    modifies objects
    ensures ParseTimeout(timeout).Err? ==>
      r == Threw(ParseTimeout(timeout).error) && warned == [] && deletes == [] && objects[..] == old(objects[..])
    ensures ParseTimeout(timeout).Ok? ==>
      (forall i :: i in warned <==>
         (0 <= i < objects.Length && Mismatch(old(objects[i]).activeDeadlineSeconds, ParseTimeout(timeout).value))) &&
      (forall a, b :: 0 <= a < b < |warned| ==> warned[a] < warned[b]) &&
      objects[..] == Renamed(old(objects[..]), OverrideNames(override, objects.Length))
    ensures ParseTimeout(timeout).Ok? && |OverrideNames(override, objects.Length)| > objects.Length ==>
      r == Threw(IndexError) && deletes == []
    ensures ParseTimeout(timeout).Ok? && |OverrideNames(override, objects.Length)| <= objects.Length ==>
      deletes == (if deleteIfFound then DeleteRequestsFor(objects[..]) else []) &&
      r == if created == [] then Threw(AssertionError)
           else if runAsync then Returned(None)
           else AggregateWaits(WaitOutcomes(timeout, created))
  {
    warned, deletes := [], [];
    var parsed := ParseTimeout(timeout);
    if parsed.Err? {
      return Threw(parsed.error), warned, deletes;
    }
    warned := DeadlineWarnings(Deadlines(objects[..]), parsed.value);

    var n := objects.Length;
    var jobName := new string[n](i requires 0 <= i < n reads objects => objects[i].name);
    var ok := ApplyNameOverride(objects, jobName, override);
    if !ok {
      return Threw(IndexError), warned, deletes;
    }

    if deleteIfFound {
      deletes := DeleteExisting(objects);
      assert deletes == DeleteRequestsFor(objects[..]);
    }

    if created == [] {
      // `assert len(obj_sel.objects()) > 0`
      return Threw(AssertionError), warned, deletes;
    }
    if runAsync {
      return Returned(None), warned, deletes;
    }

    r := WaitForCreated(timeout, created);
  }

  /** The wait loop over the created objects, one after the other. */
  method WaitForCreated(timeout: string, created: seq<WaitInput>) returns (r: CreateOutcome)
    ensures r == AggregateWaits(WaitOutcomes(timeout, created))
  {
    ghost var outcomes := WaitOutcomes(timeout, created);
    var ret := true;
    var k := 0;
    while k < |created|
      invariant 0 <= k <= |created|
      invariant AggregateWaits(outcomes[..k]) == Returned(Some(ret))
    {
      var outcome, _, _ := WaitUntilFinished(timeout, created[k].start, created[k].ticks);
      assert outcome == outcomes[k];
      if !outcome.Finished? {
        AggregateStopsAfterFinished(outcomes, k, ret);
        return if outcome.Raised? then Threw(outcome.error) else StillWaiting;
      }
      AggregateFinishedStep(outcomes, k, ret);
      ret := ReturnValue(outcome.verdict);
      if !ret {
        ret := false;
      }
      k := k + 1;
    }
    assert outcomes[..k] == outcomes;
    r := Returned(Some(ret));
  }
}
