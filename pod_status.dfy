/** `_check_pod_status`: polls the pods of a job and gives up on the first
    container whose state reason cannot resolve by itself. Each poll drops
    the pods that started before the job (left over from an earlier run under
    the same job name), skips containers in phase `Succeeded`, and reads a
    container's reason from its waiting, terminated and running states, in
    that order, each present one overwriting the last. The local
    `wait_reason` lives across containers, pods and polls. */
module PodStatus {
  import opened Common

  datatype StateKind = Waiting | Terminated | Running

  /** The order in which the state kinds of a container are read. */
  const WaitReasons: seq<StateKind> := [Waiting, Terminated, Running]

  /** Reasons that make the check return False at once. */
  const UnacceptedReasons: set<string> := {"ErrImagePull", "ImagePullBackOff", "CrashLoopBackOff"}

  /** One entry of a pod's `containerStatuses`: its phase and the reason of
      each of its three states, `None` where the reason is missing. */
  datatype ContainerStatus = ContainerStatus(
    phase: string,
    waiting: Option<string>,
    terminated: Option<string>,
    running: Option<string>)
  {
    function Reason(kind: StateKind): Option<string> {
      match kind
      case Waiting => waiting
      case Terminated => terminated
      case Running => running
    }
  }

  /** A pod as the check reads it. `startTime` stands for the pod's RFC 3339
      start time as a count of seconds: for the fixed-width UTC form the
      string order the source compares by is the time order. */
  datatype Pod = Pod(name: string, startTime: nat, containerStatuses: seq<ContainerStatus>)

  /** The list comprehension that drops stale pods: those kept started no
      earlier than the job. */
  function CurrentPods(pods: seq<Pod>, jobStartTime: nat): (r: seq<Pod>)
    ensures |r| <= |pods|
  {
    if pods == [] then []
    else (if pods[0].startTime >= jobStartTime then [pods[0]] else []) + CurrentPods(pods[1..], jobStartTime)
  }

  /** A pod is kept exactly when it started no earlier than the job. */
  lemma {:induction false} CurrentPodsKeeps(pods: seq<Pod>, jobStartTime: nat, p: Pod)
    ensures p in CurrentPods(pods, jobStartTime) <==> p in pods && p.startTime >= jobStartTime
  {
    if pods != [] {
      CurrentPodsKeeps(pods[1..], jobStartTime, p);
      assert pods == [pods[0]] + pods[1..];
    }
  }

  /** The filter distributes over concatenation, so it keeps the kept pods in
      their original order. */
  lemma {:induction false} CurrentPodsAppend(a: seq<Pod>, b: seq<Pod>, jobStartTime: nat)
    ensures CurrentPods(a + b, jobStartTime) == CurrentPods(a, jobStartTime) + CurrentPods(b, jobStartTime)
  {
    if a != [] {
      assert (a + b)[1..] == a[1..] + b;
      CurrentPodsAppend(a[1..], b, jobStartTime);
    } else {
      assert a + b == b;
    }
  }

  /** The reason a container leaves in `wait_reason`: the last present one of
      waiting, terminated and running, so running has the highest priority;
      with none present the previous value stays. */
  function LastPresentReason(c: ContainerStatus, previous: Option<string>): (r: Option<string>)
    ensures r == previous || (r.Some? && (r == c.waiting || r == c.terminated || r == c.running))
    ensures c.running.Some? ==> r == c.running
    ensures c.running.None? && c.terminated.Some? ==> r == c.terminated
    ensures c.running.None? && c.terminated.None? && c.waiting.Some? ==> r == c.waiting
    ensures r.None? ==> previous.None?
    ensures c.waiting.None? && c.terminated.None? && c.running.None? ==> r == previous
  {
    if c.running.Some? then c.running
    else if c.terminated.Some? then c.terminated
    else if c.waiting.Some? then c.waiting
    else previous
  }

  /** The loop over the three state kinds. */
  method ResolveReason(c: ContainerStatus, previous: Option<string>) returns (reason: Option<string>)
    ensures reason == LastPresentReason(c, previous)
  {
    reason := previous;
    for i := 0 to |WaitReasons|
      invariant reason == if i == 3 && c.running.Some? then c.running
                          else if i >= 2 && c.terminated.Some? then c.terminated
                          else if i >= 1 && c.waiting.Some? then c.waiting
                          else previous
    {
      var kind := WaitReasons[i];
      if c.Reason(kind).Some? {
        reason := c.Reason(kind);
      }
    }
  }

  /** Where the check stands: still watching, with `wait_reason` (`None`
      while it has never been assigned); returned False for an unaccepted
      reason; or raised because `wait_reason` was read before any assignment. */
  datatype PodCheck = Watching(reason: Option<string>) | Rejected(badReason: string) | Unbound

  /** What one container does to the check. */
  function Step(st: PodCheck, c: ContainerStatus): (r: PodCheck)
    ensures !st.Watching? || c.phase == "Succeeded" ==> r == st
    ensures st.Watching? && r.Rejected? ==> r.badReason in UnacceptedReasons && Some(r.badReason) == LastPresentReason(c, st.reason)
    ensures st.Watching? && r == Unbound ==> st.reason.None? && c.phase != "Succeeded" && LastPresentReason(c, None).None?
    ensures st.Watching? && c.phase != "Succeeded" && r.Watching? ==>
      r.reason == LastPresentReason(c, st.reason) && r.reason.Some? && r.reason.value !in UnacceptedReasons
  {
    match st
    case Watching(previous) =>
      if c.phase == "Succeeded" then st
      else
        var reason := LastPresentReason(c, previous);
        if reason.None? then Unbound
        else if reason.value in UnacceptedReasons then Rejected(reason.value)
        else Watching(reason)
    case _ => st
  }

  /** The check after a run of containers, in the order it visits them. */
  function Run(st: PodCheck, cs: seq<ContainerStatus>): PodCheck {
    if cs == [] then st else Step(Run(st, cs[..|cs| - 1]), cs[|cs| - 1])
  }

  /** The containers of a list of pods, pod by pod. */
  function ContainersOf(pods: seq<Pod>): seq<ContainerStatus> {
    if pods == [] then [] else ContainersOf(pods[..|pods| - 1]) + pods[|pods| - 1].containerStatuses
  }

  /** The containers the check visits over a run of polls. */
  function PolledContainers(polls: seq<seq<Pod>>, jobStartTime: nat): seq<ContainerStatus> {
    if polls == [] then []
    else PolledContainers(polls[..|polls| - 1], jobStartTime) + ContainersOf(CurrentPods(polls[|polls| - 1], jobStartTime))
  }

  /** The containers not in phase `Succeeded`, in order. */
  function Active(cs: seq<ContainerStatus>): (r: seq<ContainerStatus>)
    ensures forall c :: c in r <==> c in cs && c.phase != "Succeeded"
  {
    if cs == [] then []
    else Active(cs[..|cs| - 1]) + (if cs[|cs| - 1].phase == "Succeeded" then [] else [cs[|cs| - 1]])
  }

  lemma {:induction false} RunStopped(st: PodCheck, cs: seq<ContainerStatus>)
    requires !st.Watching?
    ensures Run(st, cs) == st
  {
    if cs != [] {
      RunStopped(st, cs[..|cs| - 1]);
    }
  }

  lemma {:induction false} RunAppend(st: PodCheck, a: seq<ContainerStatus>, b: seq<ContainerStatus>)
    ensures Run(st, a + b) == Run(Run(st, a), b)
  {
    if b == [] {
      assert a + b == a;
    } else {
      assert (a + b)[..|a + b| - 1] == a + b[..|b| - 1];
      RunAppend(st, a, b[..|b| - 1]);
    }
  }

  lemma {:induction false} ContainersOfAppend(a: seq<Pod>, b: seq<Pod>)
    ensures ContainersOf(a + b) == ContainersOf(a) + ContainersOf(b)
  {
    if b == [] {
      assert a + b == a;
    } else {
      assert (a + b)[..|a + b| - 1] == a + b[..|b| - 1];
      ContainersOfAppend(a, b[..|b| - 1]);
    }
  }

  lemma {:induction false} PolledContainersAppend(a: seq<seq<Pod>>, b: seq<seq<Pod>>, jobStartTime: nat)
    ensures PolledContainers(a + b, jobStartTime) == PolledContainers(a, jobStartTime) + PolledContainers(b, jobStartTime)
  {
    if b == [] {
      assert a + b == a;
    } else {
      var ab, init, last := a + b, b[..|b| - 1], b[|b| - 1];
      assert ab[..|ab| - 1] == a + init;
      assert ab[|ab| - 1] == last;
      PolledContainersAppend(a, init, jobStartTime);
      var pa, pi, tail := PolledContainers(a, jobStartTime), PolledContainers(init, jobStartTime),
        ContainersOf(CurrentPods(last, jobStartTime));
      assert PolledContainers(ab, jobStartTime) == (pa + pi) + tail;
      assert PolledContainers(b, jobStartTime) == pi + tail;
      assert (pa + pi) + tail == pa + (pi + tail);
    }
  }

  /** Once the check has returned or raised, the rest of a run changes nothing. */
  lemma RunAfterStop(st: PodCheck, a: seq<ContainerStatus>, b: seq<ContainerStatus>)
    requires !Run(st, a).Watching?
    ensures Run(st, a + b) == Run(st, a)
  {
    RunAppend(st, a, b);
    RunStopped(Run(st, a), b);
  }

  /** The loop over the container statuses of one pod. */
  method CheckContainerStatuses(st: PodCheck, cs: seq<ContainerStatus>) returns (r: PodCheck)
    requires st.Watching?
    ensures r == Run(st, cs)
  {
    r := st;
    var i := 0;
    while i < |cs| && r.Watching?
      invariant 0 <= i <= |cs|
      invariant r == Run(st, cs[..i])
    {
      assert cs[..i + 1][..i] == cs[..i];
      var c := cs[i];
      if c.phase != "Succeeded" {
        var reason := ResolveReason(c, r.reason);
        if reason.None? {
          r := Unbound;
        } else if reason.value in UnacceptedReasons {
          r := Rejected(reason.value);
        } else {
          r := Watching(reason);
        }
      }
      i := i + 1;
    }
    if i < |cs| {
      assert cs == cs[..i] + cs[i..];
      RunAfterStop(st, cs[..i], cs[i..]);
    } else {
      assert cs[..i] == cs;
    }
  }

  /** The loop over the current pods of one poll. */
  method CheckPods(st: PodCheck, pods: seq<Pod>) returns (r: PodCheck)
    requires st.Watching?
    ensures r == Run(st, ContainersOf(pods))
  {
    r := st;
    var j := 0;
    while j < |pods| && r.Watching?
      invariant 0 <= j <= |pods|
      invariant r == Run(st, ContainersOf(pods[..j]))
    {
      assert pods[..j + 1][..j] == pods[..j];
      RunAppend(st, ContainersOf(pods[..j]), pods[j].containerStatuses);
      r := CheckContainerStatuses(r, pods[j].containerStatuses);
      j := j + 1;
    }
    assert pods == pods[..j] + pods[j..];
    ContainersOfAppend(pods[..j], pods[j..]);
    if j < |pods| {
      RunAfterStop(st, ContainersOf(pods[..j]), ContainersOf(pods[j..]));
    } else {
      assert pods[..j] == pods;
    }
  }

  /** `_check_pod_status` over a finite run of polls, each the pods that the
      selector `job-name=<job>` gave. The source polls for ever; here the polls
      run out, and `Watching` means the check is still waiting. */
  method CheckPodStatus(jobStartTime: nat, polls: seq<seq<Pod>>) returns (r: PodCheck)
    ensures r == Run(Watching(None), PolledContainers(polls, jobStartTime))
  {
    r := Watching(None);
    var p := 0;
    while p < |polls| && r.Watching?
      invariant 0 <= p <= |polls|
      invariant r == Run(Watching(None), PolledContainers(polls[..p], jobStartTime))
    {
      assert polls[..p + 1][..p] == polls[..p];
      var pods := CurrentPods(polls[p], jobStartTime);
      RunAppend(Watching(None), PolledContainers(polls[..p], jobStartTime), ContainersOf(pods));
      r := CheckPods(r, pods);
      p := p + 1;
    }
    assert polls == polls[..p] + polls[p..];
    PolledContainersAppend(polls[..p], polls[p..], jobStartTime);
    if p < |polls| {
      RunAfterStop(Watching(None), PolledContainers(polls[..p], jobStartTime), PolledContainers(polls[p..], jobStartTime));
    } else {
      assert polls[..p] == polls;
    }
  }

  /** Containers in phase `Succeeded` play no part in the check. */
  lemma {:induction false} RunIgnoresSucceeded(st: PodCheck, cs: seq<ContainerStatus>)
    ensures Run(st, cs) == Run(st, Active(cs))
  {
    if cs != [] {
      var init, last := cs[..|cs| - 1], cs[|cs| - 1];
      RunIgnoresSucceeded(st, init);
      if last.phase != "Succeeded" {
        var a := Active(init) + [last];
        assert Active(cs) == a;
        assert a[..|a| - 1] == Active(init);
        assert Run(st, a) == Step(Run(st, Active(init)), last);
      } else {
        assert Active(cs) == Active(init) + [];
        assert Active(init) + [] == Active(init);
      }
    }
  }

  /** The reason an active container has of its own, ignoring what earlier
      containers left in `wait_reason`. */
  function OwnReason(c: ContainerStatus): Option<string> {
    LastPresentReason(c, None)
  }

  /** A state the check can be in while watching: `wait_reason` is never an
      unaccepted reason. */
  predicate Acceptable(st: PodCheck) {
    st.Watching? && (st.reason.None? || st.reason.value !in UnacceptedReasons)
  }

  /** A returned False names an unaccepted reason that an active container
      of the run has of its own. */
  lemma {:induction false} RejectedIsSound(st: PodCheck, cs: seq<ContainerStatus>)
    requires Acceptable(st)
    ensures Run(st, cs).Watching? ==> Acceptable(Run(st, cs))
    ensures Run(st, cs).Rejected? ==>
      Run(st, cs).badReason in UnacceptedReasons &&
      exists i :: 0 <= i < |cs| && cs[i].phase != "Succeeded" && OwnReason(cs[i]) == Some(Run(st, cs).badReason)
  {
    if cs != [] {
      var init := cs[..|cs| - 1];
      RejectedIsSound(st, init);
      var before := Run(st, init);
      if before.Rejected? {
        var i :| 0 <= i < |init| && init[i].phase != "Succeeded" && OwnReason(init[i]) == Some(before.badReason);
        assert cs[i] == init[i];
      } else if Run(st, cs).Rejected? {
        assert cs[|cs| - 1].phase != "Succeeded";
      }
    }
  }

  /** An active container whose own reason is unaccepted ends the watch:
      the check has returned False, or had raised before reaching it. */
  lemma UnacceptedReasonEndsWatch(st: PodCheck, cs: seq<ContainerStatus>, i: nat)
    requires st.Watching?
    requires i < |cs| && cs[i].phase != "Succeeded"
    requires OwnReason(cs[i]).Some? && OwnReason(cs[i]).value in UnacceptedReasons
    ensures !Run(st, cs).Watching?
    ensures Run(st, cs[..i]).Watching? ==> Run(st, cs) == Rejected(OwnReason(cs[i]).value)
  {
    var upTo := cs[..i + 1];
    assert upTo[..i] == cs[..i];
    assert cs == upTo + cs[i + 1..];
    RunAfterStop(st, upTo, cs[i + 1..]);
  }

  /** The check raises exactly when the first active container it meets has
      no reason at all: later ones inherit a bound `wait_reason`. */
  lemma {:induction false} UnboundIff(cs: seq<ContainerStatus>)
    ensures Run(Watching(None), cs) == Unbound <==> Active(cs) != [] && OwnReason(Active(cs)[0]).None?
  {
    RunIgnoresSucceeded(Watching(None), cs);
    ActiveUnbound(Active(cs));
  }

  lemma {:induction false} ActiveUnbound(a: seq<ContainerStatus>)
    requires forall c :: c in a ==> c.phase != "Succeeded"
    ensures Run(Watching(None), a) == Unbound <==> a != [] && OwnReason(a[0]).None?
    ensures a != [] && Run(Watching(None), a).Watching? ==> Run(Watching(None), a).reason.Some?
  {
    if |a| == 1 {
      assert a[..0] == [];
    } else if |a| > 1 {
      var init := a[..|a| - 1];
      assert init[0] == a[0];
      assert forall c :: c in init ==> c in a;
      ActiveUnbound(init);
      if Run(Watching(None), init) == Unbound {
        RunStopped(Unbound, [a[|a| - 1]]);
      }
    }
  }
}
