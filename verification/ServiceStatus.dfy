/**
 The service status (daemon/started_service.go): StartOrReloadService, CloseService and SetError
 change the status and the running instance under one lock, which StartOrReloadService gives up
 twice in the middle of its work. Any number of calls are interleaved step by step.
 */
module ServiceStatus {
  import opened Common

  datatype Status = IDLE | STARTING | STARTED | STOPPING | FATAL

  type Instance = nat

  datatype Call = StartOrReload | CloseService | SetError

  /** The stretches of code that run under the lock. */
  datatype Section =
    | CheckReload                   // StartOrReloadService, first stretch
    | Prepare(prior: Option<Instance>) // set STARTING
    | Create(prior: Option<Instance>) // newInstance
    | Report(x: Instance, ok: bool) // after Start of x returned
    | CheckClose                    // CloseService, first stretch
    | Shut(prior: Option<Instance>)   // close the instance, still locked
    | Fail                          // SetError

  /** What StartOrReloadService does without the lock. */
  datatype Work = CloseOld(x: Instance) | StartNew(x: Instance)

  datatype Phase =
    | Want(section: Section)       // blocked in Lock
    | Hold(section: Section)
    | Release(after: Option<Work>)  // about to unlock, then to work or to return
    | Outside(work: Work)
    | Done

  /** `taken` and `released` count each caller's lock operations; `ran` and `closed` are the instances
      whose Start succeeded and whose Close was called. */
  datatype State = State(phases: seq<Phase>, holder: Option<nat>, status: Status, instance: Option<Instance>,
                         made: Instance, ran: set<Instance>, closed: set<Instance>,
                         taken: seq<nat>, released: seq<nat>)

  /** `ok` is the outcome of the foreign call in the step: newInstance, Start or Close. */
  datatype Event = Lock(i: nat) | Act(i: nat, ok: bool) | Unlock(i: nat)

  function Entry(call: Call): (r: Section)
  {
    match call
    case StartOrReload => CheckReload
    case CloseService => CheckClose
    case SetError => Fail
  }

  function Init(calls: seq<Call>): (r: State)
  {
    State(seq(|calls|, i requires 0 <= i < |calls| => Want(Entry(calls[i]))), None, IDLE, None, 0, {}, {},
          seq(|calls|, _ => 0), seq(|calls|, _ => 0))
  }

  predicate Enabled(s: State, e: Event)
  {
    && e.i < |s.phases| == |s.taken| == |s.released|
    && match e
       case Lock(i) => s.phases[i].Want? && s.holder.None?
       case Act(i, _) => s.phases[i].Hold? || s.phases[i].Outside?
       case Unlock(i) => s.phases[i].Release?
  }

  function To(s: State, i: nat, p: Phase): (r: State)
    requires i < |s.phases|
  {
    s.(phases := s.phases[i := p])
  }

  /** One stretch under the lock by caller `i`. */
  function InSection(s: State, i: nat, section: Section, ok: bool): (r: State)
    requires i < |s.phases|
  {
    match section
    case CheckReload =>
      if s.status.STOPPING? then To(s, i, Release(None))
      else if s.instance.Some? then To(s.(status := STOPPING), i, Release(Some(CloseOld(s.instance.value))))
      else To(s, i, Hold(Prepare(None)))
    case Prepare(prior) => To(s.(status := STARTING), i, Hold(Create(prior)))
    case Create(_) =>
      if !ok then To(s.(status := FATAL), i, Release(None))
      else To(s.(instance := Some(s.made), made := s.made + 1), i, Release(Some(StartNew(s.made))))
    case Report(_, started) =>
      if !s.status.STARTING? then To(s, i, Release(None))
      else To(s.(status := if started then STARTED else FATAL), i, Release(None))
    case CheckClose =>
      if !s.status.STARTING? && !s.status.STARTED? then To(s, i, Release(None))
      else To(s.(status := STOPPING, instance := None), i, Hold(Shut(s.instance)))
    case Shut(prior) =>
      To(s.(status := if prior.Some? && !ok then FATAL else IDLE,
            closed := if prior.Some? then s.closed + {prior.value} else s.closed), i, Release(None))
    case Fail => To(s.(status := FATAL), i, Release(None))
  }

  function Next(s: State, e: Event): (r: State)
    requires Enabled(s, e)
  {
    match e
    case Lock(i) =>
      To(s.(holder := Some(i), taken := s.taken[i := s.taken[i] + 1]), i, Hold(s.phases[i].section))
    case Unlock(i) =>
      To(s.(holder := None, released := s.released[i := s.released[i] + 1]), i,
         if s.phases[i].after.Some? then Outside(s.phases[i].after.value) else Done)
    case Act(i, ok) =>
      match s.phases[i] {
        case Hold(section) => InSection(s, i, section, ok)
        case Outside(CloseOld(x)) => To(s.(closed := s.closed + {x}), i, Want(Prepare(Some(x))))
        case Outside(StartNew(x)) => To(s.(ran := if ok then s.ran + {x} else s.ran), i, Want(Report(x, ok)))
      }
  }

  ghost predicate IsRun(calls: seq<Call>, states: seq<State>, events: seq<Event>)
  {
    && |states| == |events| + 1
    && states[0] == Init(calls)
    && forall k :: 0 <= k < |events| ==>
         Enabled(states[k], events[k]) && states[k + 1] == Next(states[k], events[k])
  }

  // ---------------------------------------------------------------------------------------------
  // What every interleaving keeps.
  // ---------------------------------------------------------------------------------------------

  predicate HeldBy(s: State, i: nat)
  {
    s.holder.Some? && s.holder.value == i
  }

  predicate Holds(p: Phase)
  {
    p.Hold? || p.Release?
  }

  ghost predicate CallerInv(s: State, i: nat)
    requires i < |s.phases| == |s.taken| == |s.released|
  {
    && (Holds(s.phases[i]) <==> HeldBy(s, i))
    && s.taken[i] == s.released[i] + (if HeldBy(s, i) then 1 else 0)
    && (s.phases[i].Want? ==> !s.phases[i].section.Create? && !s.phases[i].section.Shut?)
    && (s.phases[i].Hold? && s.phases[i].section.Create? ==> s.status.STARTING?)
    && (s.phases[i].Hold? && s.phases[i].section.Shut? ==> s.status.STOPPING? && s.instance.None?)
    && ReportInv(s, s.phases[i])
  }

  /** A success about to be reported is that of an instance whose Start did succeed. */
  ghost predicate ReportInv(s: State, p: Phase)
  {
    (p.Want? || p.Hold?) && p.section.Report? && p.section.ok ==> p.section.x in s.ran
  }

  /** The one stretch in which STARTING may be seen without an instance, by its own caller only. */
  predicate Creating(s: State)
  {
    s.holder.Some? && s.holder.value < |s.phases| && s.phases[s.holder.value].Hold?
    && s.phases[s.holder.value].section.Create?
  }

  ghost predicate Inv(s: State)
  {
    && |s.phases| == |s.taken| == |s.released|
    && (s.holder.Some? ==> s.holder.value < |s.phases|)
    && (forall i :: 0 <= i < |s.phases| ==> CallerInv(s, i))
    && (s.instance.Some? ==> s.instance.value < s.made)
    && (!Creating(s) && (s.status.STARTING? || s.status.STARTED?) ==> s.instance.Some?)
  }

  lemma {:induction false} InitInv(calls: seq<Call>)
    ensures Inv(Init(calls))
  {
  }

  lemma {:induction false} StepKeepsInv(s: State, e: Event)
    requires Inv(s) && Enabled(s, e)
    ensures Inv(Next(s, e))
  {
    var s' := Next(s, e);
    assert CallerInv(s, e.i);
    forall j | 0 <= j < |s'.phases|
      ensures CallerInv(s', j)
    {
      assert CallerInv(s, j);
    }
  }

  lemma {:induction false} RunKeepsInv(calls: seq<Call>, states: seq<State>, events: seq<Event>, k: nat)
    requires IsRun(calls, states, events) && k < |states|
    ensures Inv(states[k])
    decreases k
  {
    if k == 0 {
      InitInv(calls);
    } else {
      RunKeepsInv(calls, states, events, k - 1);
      StepKeepsInv(states[k - 1], events[k - 1]);
    }
  }

  /** Whoever can take the lock sees an instance behind the statuses STARTING and STARTED. */
  lemma {:induction false} FreeLockMeansInstance(calls: seq<Call>, states: seq<State>, events: seq<Event>, k: nat)
    requires IsRun(calls, states, events) && k < |states| && states[k].holder.None?
    ensures states[k].status.STARTING? || states[k].status.STARTED? ==> states[k].instance.Some?
  {
    RunKeepsInv(calls, states, events, k);
  }

  /**
   Every path gives back each lock it takes exactly once: an unlock is always done by the holder, at
   most one caller holds the lock, and a call that has returned released as often as it took.
   */
  lemma {:induction false} LocksBalance(calls: seq<Call>, states: seq<State>, events: seq<Event>, k: nat)
    requires IsRun(calls, states, events) && k < |states|
    ensures |states[k].phases| == |states[k].taken| == |states[k].released|
    ensures forall i :: 0 <= i < |states[k].phases| && Holds(states[k].phases[i]) ==>
      HeldBy(states[k], i) && states[k].taken[i] == states[k].released[i] + 1
    ensures forall i :: 0 <= i < |states[k].phases| && !Holds(states[k].phases[i]) ==>
      !HeldBy(states[k], i) && states[k].taken[i] == states[k].released[i]
    ensures k < |events| && events[k].Unlock? ==> HeldBy(states[k], events[k].i)
  {
    RunKeepsInv(calls, states, events, k);
    var s := states[k];
    forall i | 0 <= i < |s.phases|
      ensures Holds(s.phases[i]) <==> HeldBy(s, i)
      ensures s.taken[i] == s.released[i] + (if HeldBy(s, i) then 1 else 0)
    {
      assert CallerInv(s, i);
    }
  }

  // ---------------------------------------------------------------------------------------------
  // What status and instance a run shows: what the last step that sets them says.
  // ---------------------------------------------------------------------------------------------

  /** Caller `e.i` is in the given stretch of code under the lock and runs it to its end. */
  ghost predicate RunsSection(s: State, e: Event)
  {
    e.Act? && e.i < |s.phases| && s.phases[e.i].Hold?
  }

  /** newInstance fails, a failed Start is reported over STARTING, CloseService fails to close, or SetError. */
  ghost predicate SetsFatal(s: State, e: Event)
  {
    RunsSection(s, e) &&
    match s.phases[e.i].section
    case Create(_) => !e.ok
    case Report(_, started) => !started && s.status == STARTING
    case Shut(prior) => prior != None && !e.ok
    case Fail => true
    case _ => false
  }

  /** CloseService had nothing to close, or closed it. */
  ghost predicate SetsIdle(s: State, e: Event)
  {
    RunsSection(s, e) && s.phases[e.i].section.Shut? && (e.ok || s.phases[e.i].section.prior == None)
  }

  /** StartOrReloadService goes on to create an instance. */
  ghost predicate SetsStarting(s: State, e: Event)
  {
    RunsSection(s, e) && s.phases[e.i].section.Prepare?
  }

  /** A successful Start is reported over STARTING. */
  ghost predicate SetsStarted(s: State, e: Event)
  {
    RunsSection(s, e) && s.phases[e.i].section.Report? && s.phases[e.i].section.ok && s.status == STARTING
  }

  /** A reload finds an instance and is not refused, or CloseService is not refused. */
  ghost predicate SetsStopping(s: State, e: Event)
  {
    RunsSection(s, e) &&
    match s.phases[e.i].section
    case CheckReload => s.status != STOPPING && s.instance != None
    case CheckClose => s.status == STARTING || s.status == STARTED
    case _ => false
  }

  ghost function StatusSet(s: State, e: Event): (r: Option<Status>)
  {
    if SetsFatal(s, e) then Some(FATAL)
    else if SetsIdle(s, e) then Some(IDLE)
    else if SetsStarting(s, e) then Some(STARTING)
    else if SetsStarted(s, e) then Some(STARTED)
    else if SetsStopping(s, e) then Some(STOPPING)
    else None
  }

  /** newInstance succeeds, or CloseService is not refused and takes the instance away. */
  ghost function InstanceSet(s: State, e: Event): (r: Option<Option<Instance>>)
  {
    if !RunsSection(s, e) then None
    else match s.phases[e.i].section
      case Create(_) => if e.ok then Some(Some(s.made)) else None
      case CheckClose => if s.status == STARTING || s.status == STARTED then Some(None) else None
      case _ => None
  }

  lemma {:induction false} StepSets(s: State, e: Event)
    requires Enabled(s, e)
    ensures Next(s, e).status == if StatusSet(s, e).Some? then StatusSet(s, e).value else s.status
    ensures Next(s, e).instance == if InstanceSet(s, e).Some? then InstanceSet(s, e).value else s.instance
  {
  }

  /** What the last of the first `k` steps that set a status set it to; IDLE when none did. */
  ghost function LastStatus(states: seq<State>, events: seq<Event>, k: nat): (r: Status)
    requires k <= |events| < |states|
  {
    if k == 0 then IDLE
    else if StatusSet(states[k - 1], events[k - 1]).Some? then StatusSet(states[k - 1], events[k - 1]).value
    else LastStatus(states, events, k - 1)
  }

  ghost function LastInstance(states: seq<State>, events: seq<Event>, k: nat): (r: Option<Instance>)
    requires k <= |events| < |states|
  {
    if k == 0 then None
    else if InstanceSet(states[k - 1], events[k - 1]).Some? then InstanceSet(states[k - 1], events[k - 1]).value
    else LastInstance(states, events, k - 1)
  }

  /** Every state of every run shows the status and the instance that were set last. */
  lemma {:induction false} ShowsLastSet(calls: seq<Call>, states: seq<State>, events: seq<Event>, k: nat)
    requires IsRun(calls, states, events) && k <= |events|
    ensures states[k].status == LastStatus(states, events, k)
    ensures states[k].instance == LastInstance(states, events, k)
    decreases k
  {
    if k > 0 {
      assert Enabled(states[k - 1], events[k - 1]) && states[k] == Next(states[k - 1], events[k - 1]);
      hide Next, Enabled, StatusSet, InstanceSet;
      ShowsLastSet(calls, states, events, k - 1);
      StepSets(states[k - 1], events[k - 1]);
    }
  }

  /** Step `m` set FATAL and no later one of the first `k` set a status. */
  ghost predicate IsLastFatal(states: seq<State>, events: seq<Event>, m: nat, k: nat)
    requires k <= |events| < |states|
  {
    m < k && SetsFatal(states[m], events[m]) && forall n :: m < n < k ==> StatusSet(states[n], events[n]) == None
  }

  ghost predicate LastSetFatal(states: seq<State>, events: seq<Event>, k: nat)
    requires k <= |events| < |states|
  {
    exists m: nat :: IsLastFatal(states, events, m, k)
  }

  /**
   FATAL is shown if and only if the last step that set a status was a failed newInstance, a failed
   Start reported over STARTING, a failed Close of CloseService, or SetError.
   */
  lemma {:induction false} FatalExactly(calls: seq<Call>, states: seq<State>, events: seq<Event>, k: nat)
    requires IsRun(calls, states, events) && k <= |events|
    ensures states[k].status == FATAL <==> LastSetFatal(states, events, k)
    decreases k
  {
    if k > 0 {
      var s, e := states[k - 1], events[k - 1];
      assert Enabled(s, e) && states[k] == Next(s, e);
      FatalExactly(calls, states, events, k - 1);
      StepSets(s, e);
      FatalStep(states, events, k);
    }
  }

  lemma {:induction false} FatalStep(states: seq<State>, events: seq<Event>, k: nat)
    requires 0 < k <= |events| < |states|
    ensures LastSetFatal(states, events, k) <==>
      || StatusSet(states[k - 1], events[k - 1]) == Some(FATAL)
      || (StatusSet(states[k - 1], events[k - 1]) == None && LastSetFatal(states, events, k - 1))
  {
    var latest := StatusSet(states[k - 1], events[k - 1]);
    assert SetsFatal(states[k - 1], events[k - 1]) <==> latest == Some(FATAL);
    hide SetsFatal, StatusSet;
    if latest == Some(FATAL) {
      assert IsLastFatal(states, events, k - 1, k);
    }
    if LastSetFatal(states, events, k) {
      var m: nat :| IsLastFatal(states, events, m, k);
      assert m < k - 1 ==> IsLastFatal(states, events, m, k - 1);
    }
    if LastSetFatal(states, events, k - 1) {
      var m: nat :| IsLastFatal(states, events, m, k - 1);
      assert latest == None ==> IsLastFatal(states, events, m, k);
    }
  }

  /** Where nothing fails and no error is reported, FATAL never shows. */
  lemma {:induction false} NoFailureNoFatal(calls: seq<Call>, states: seq<State>, events: seq<Event>, k: nat)
    requires IsRun(calls, states, events) && k <= |events|
    requires SetError !in calls && forall m :: 0 <= m < |events| && events[m].Act? ==> events[m].ok
    ensures states[k].status != FATAL
    ensures forall i :: 0 <= i < |states[k].phases| ==> NeverFails(states[k].phases[i])
    decreases k
  {
    if k > 0 {
      NoFailureNoFatal(calls, states, events, k - 1);
      var s, e := states[k - 1], events[k - 1];
      assert Enabled(s, e) && states[k] == Next(s, e);
      StepSets(s, e);
      assert NeverFails(s.phases[e.i]);
    }
  }

  ghost predicate NeverFails(p: Phase)
  {
    p.Want? || p.Hold? ==> p.section != Fail && (p.section.Report? ==> p.section.ok)
  }

  lemma {:induction false} PhaseStays(calls: seq<Call>, states: seq<State>, events: seq<Event>, i: nat, a: nat, b: nat)
    requires IsRun(calls, states, events) && a <= b <= |events|
    requires forall n :: a <= n < b ==> events[n].i != i
    requires i < |states[a].phases|
    ensures |states[b].phases| == |states[a].phases| && states[b].phases[i] == states[a].phases[i]
    decreases b - a
  {
    if a < b {
      PhaseStays(calls, states, events, i, a, b - 1);
      assert Enabled(states[b - 1], events[b - 1]) && states[b] == Next(states[b - 1], events[b - 1]);
    }
  }

  /** A CloseService that finds neither STARTING nor STARTED is refused and changes nothing. */
  lemma {:induction false} CloseServiceRefused(s: State, e: Event)
    requires Enabled(s, e) && RunsSection(s, e) && s.phases[e.i].section == CheckClose
    requires s.status != STARTING && s.status != STARTED
    ensures Next(s, e) == s.(phases := s.phases[e.i := Release(None)])
  {
  }

  /**
   A CloseService that is not refused shows STOPPING and no instance, whatever other callers do, until
   its next step, which has closed the instance it found and leaves IDLE, or FATAL if the close failed.
   */
  lemma {:induction false} CloseServiceLeavesIdle(calls: seq<Call>, states: seq<State>, events: seq<Event>, m: nat,
                                                  n: nat)
    requires IsRun(calls, states, events) && m < n < |events|
    requires RunsSection(states[m], events[m]) && states[m].phases[events[m].i].section == CheckClose
    requires states[m].status == STARTING || states[m].status == STARTED
    requires events[n].i == events[m].i && forall l :: m < l < n ==> events[l].i != events[m].i
    ensures states[n].status == STOPPING && states[n].instance == None && events[n].Act?
    ensures states[n + 1].instance == None
    ensures states[n + 1].status == if events[n].ok || states[m].instance == None then IDLE else FATAL
    ensures states[m].instance.Some? ==> states[m].instance.value in states[n + 1].closed
  {
    var i := events[m].i;
    assert Enabled(states[m], events[m]) && states[m + 1] == Next(states[m], events[m]);
    assert Enabled(states[n], events[n]) && states[n + 1] == Next(states[n], events[n]);
    PhaseStays(calls, states, events, i, m + 1, n);
    RunKeepsInv(calls, states, events, n);
    assert CallerInv(states[n], i);
  }

  // ---------------------------------------------------------------------------------------------
  // Which runs lose an instance: one that is neither current nor ever going to be closed.
  // ---------------------------------------------------------------------------------------------

  /** The caller is about to close instance `x`. */
  predicate Closing(p: Phase, x: Instance)
  {
    p == Hold(Shut(Some(x))) || p == Release(Some(CloseOld(x))) || p == Outside(CloseOld(x))
  }

  /** Instance `x` has been closed, or a caller is about to close it. */
  ghost predicate Doomed(s: State, x: Instance)
  {
    x in s.closed || exists i :: 0 <= i < |s.phases| && Closing(s.phases[i], x)
  }

  /** Instance `x` is the current one, has been closed, or is about to be closed. */
  ghost predicate Tracked(s: State, x: Instance)
  {
    s.instance == Some(x) || Doomed(s, x)
  }

  ghost predicate NoneLost(s: State)
  {
    forall x :: 0 <= x < s.made ==> Tracked(s, x)
  }

  /** A new instance is put in the place of one that nobody has closed or is about to close. */
  ghost predicate Overwrites(s: State, e: Event)
  {
    && e.Act? && e.ok && e.i < |s.phases| && s.phases[e.i].Hold? && s.phases[e.i].section.Create?
    && s.instance.Some? && !Doomed(s, s.instance.value)
  }

  lemma {:induction false} DoomedStays(s: State, e: Event, x: Instance)
    requires Inv(s) && Enabled(s, e) && Doomed(s, x)
    ensures Doomed(Next(s, e), x)
  {
    var s' := Next(s, e);
    if x !in s'.closed {
      var i :| 0 <= i < |s.phases| && Closing(s.phases[i], x);
      assert Closing(s'.phases[i], x);
    }
  }

  lemma {:induction false} ClosingBegan(s: State, e: Event, i: nat, x: Instance)
    requires Inv(s) && Enabled(s, e) && i < |s.phases| && Closing(Next(s, e).phases[i], x)
    ensures Closing(s.phases[i], x) || (s.instance == Some(x) && Next(s, e).status.STOPPING?)
    ensures Closing(s.phases[i], x) || !(e.Act? && s.phases[e.i].Hold? && s.phases[e.i].section.Create?)
  {
    assert CallerInv(s, e.i);
  }

  lemma {:induction false} ClosedWasClosing(s: State, e: Event, x: Instance)
    requires Enabled(s, e) && x in Next(s, e).closed && x !in s.closed
    ensures Closing(s.phases[e.i], x)
  {
  }

  lemma {:induction false} DoomedWasTracked(s: State, e: Event, x: Instance)
    requires Inv(s) && Enabled(s, e) && Doomed(Next(s, e), x)
    ensures Tracked(s, x)
    ensures Doomed(s, x) || !(e.Act? && s.phases[e.i].Hold? && s.phases[e.i].section.Create?)
  {
    var s' := Next(s, e);
    assert |s'.phases| == |s.phases|;
    hide Next, Closing, Inv;
    if x in s'.closed {
      if x !in s.closed {
        ClosedWasClosing(s, e, x);
      }
    } else {
      var i :| 0 <= i < |s'.phases| && Closing(s'.phases[i], x);
      ClosingBegan(s, e, i, x);
    }
  }

  /** One step loses exactly the current instance, and only by overwriting it. */
  lemma {:induction false} StepLosesExactly(s: State, e: Event, x: Instance)
    requires Inv(s) && Enabled(s, e) && x < Next(s, e).made
    ensures Tracked(Next(s, e), x) <==>
      x == s.made || (Tracked(s, x) && !(Overwrites(s, e) && s.instance == Some(x)))
  {
    var s' := Next(s, e);
    if Doomed(s, x) {
      DoomedStays(s, e, x);
    }
    if s.instance == Some(x) && s'.instance == None {
      assert Closing(s'.phases[e.i], x);
    }
    hide Doomed;
    if Doomed(s', x) {
      DoomedWasTracked(s, e, x);
    }
  }

  /**
   A run has lost no instance by its `k`-th state if and only if none of its steps up to there put a
   new instance in the place of one that was not closed nor about to be. What is lost stays lost.
   */
  lemma {:induction false} InstancesAreLostExactly(calls: seq<Call>, states: seq<State>, events: seq<Event>, k: nat)
    requires IsRun(calls, states, events) && k < |states|
    ensures NoneLost(states[k]) <==> forall m :: 0 <= m < k ==> !Overwrites(states[m], events[m])
    decreases k
  {
    if k > 0 {
      InstancesAreLostExactly(calls, states, events, k - 1);
      RunKeepsInv(calls, states, events, k - 1);
      var s, e := states[k - 1], events[k - 1];
      hide Next, Inv;
      StepIsSafeExactly(s, e);
    }
  }

  lemma {:induction false} StepIsSafeExactly(s: State, e: Event)
    requires Inv(s) && Enabled(s, e)
    ensures NoneLost(Next(s, e)) <==> NoneLost(s) && !Overwrites(s, e)
  {
    var s' := Next(s, e);
    assert s.made <= s'.made <= s.made + 1;
    assert s.instance.Some? ==> s.instance.value < s.made;
    forall x | 0 <= x < s'.made
      ensures Tracked(s', x) <==> x == s.made || (Tracked(s, x) && !(Overwrites(s, e) && s.instance == Some(x)))
    {
      StepLosesExactly(s, e, x);
    }
    hide Next, Inv, Tracked, Overwrites;
    if Overwrites(s, e) {
      OverwrittenInstance(s, e);
      assert !Tracked(s', s.instance.value);
    } else if NoneLost(s') {
      forall x | 0 <= x < s.made
        ensures Tracked(s, x)
      {
        assert Tracked(s', x);
      }
    }
  }

  lemma {:induction false} OverwrittenInstance(s: State, e: Event)
    requires Overwrites(s, e)
    ensures s.instance.Some?
  {
  }

  /** Only instances that were created are closed. */
  ghost predicate OnlyMadeAreClosed(s: State)
  {
    forall x: Instance :: Doomed(s, x) ==> x < s.made
  }

  /** Behind STARTING and STARTED, outside the stretch that creates, is an instance nobody closes. */
  ghost predicate Alive(s: State)
  {
    !Creating(s) && (s.status.STARTING? || s.status.STARTED?) ==> s.instance.Some? && !Doomed(s, s.instance.value)
  }

  lemma {:induction false} StepKeepsMade(s: State, e: Event)
    requires Inv(s) && OnlyMadeAreClosed(s) && Enabled(s, e)
    ensures OnlyMadeAreClosed(Next(s, e))
  {
    assert s.made <= Next(s, e).made;
    forall x: Instance | Doomed(Next(s, e), x)
      ensures x < s.made
    {
      DoomedWasTracked(s, e, x);
    }
  }

  lemma {:induction false} StepKeepsAlive(s: State, e: Event)
    requires Inv(s) && OnlyMadeAreClosed(s) && Alive(s) && Enabled(s, e)
    ensures Alive(Next(s, e))
  {
    var s' := Next(s, e);
    assert CallerInv(s, e.i);
    if s.phases[e.i].Hold? && s.phases[e.i].section.Create? && e.Act? {
      if Doomed(s', s.made) {
        DoomedWasTracked(s, e, s.made);
      }
    } else if s'.instance.Some? && Doomed(s', s'.instance.value) {
      DoomedBefore(s, e, s'.instance.value);
    }
  }

  /** A step that leaves STARTING or STARTED behind does not begin to close anything. */
  lemma {:induction false} DoomedBefore(s: State, e: Event, x: Instance)
    requires Inv(s) && Enabled(s, e) && Doomed(Next(s, e), x)
    ensures Doomed(s, x) || Next(s, e).status.STOPPING?
  {
    var s' := Next(s, e);
    assert |s'.phases| == |s.phases|;
    hide Next, Closing, Inv;
    if x in s'.closed {
      if x !in s.closed {
        ClosedWasClosing(s, e, x);
      }
    } else {
      var i :| 0 <= i < |s'.phases| && Closing(s'.phases[i], x);
      ClosingBegan(s, e, i, x);
    }
  }

  /**
   In every state of every run, STARTING and STARTED mean a current instance that nobody has closed or
   is about to close, except for the caller that is just creating one.
   */
  lemma {:induction false} StartedInstanceIsAlive(calls: seq<Call>, states: seq<State>, events: seq<Event>, k: nat)
    requires IsRun(calls, states, events) && k < |states|
    ensures OnlyMadeAreClosed(states[k]) && Alive(states[k])
    decreases k
  {
    if k > 0 {
      assert Enabled(states[k - 1], events[k - 1]) && states[k] == Next(states[k - 1], events[k - 1]);
      hide *;
      StartedInstanceIsAlive(calls, states, events, k - 1);
      RunKeepsInv(calls, states, events, k - 1);
      StepKeepsMade(states[k - 1], events[k - 1]);
      StepKeepsAlive(states[k - 1], events[k - 1]);
    }
  }

  /** Once every call has returned, being tracked means being current or closed. */
  lemma {:induction false} FinishedRunClosesAll(calls: seq<Call>, states: seq<State>, events: seq<Event>)
    requires IsRun(calls, states, events)
    requires forall i :: 0 <= i < |states[|events|].phases| ==> states[|events|].phases[i].Done?
    ensures (forall x: nat :: x < states[|events|].made ==>
              states[|events|].instance == Some(x) || x in states[|events|].closed)
       <==> forall m :: 0 <= m < |events| ==> !Overwrites(states[m], events[m])
  {
    InstancesAreLostExactly(calls, states, events, |events|);
    var s := states[|events|];
    forall x: nat
      ensures Doomed(s, x) <==> x in s.closed
    {
    }
    assert forall x :: 0 <= x < s.made ==> (Tracked(s, x) <==> s.instance == Some(x) || x in s.closed);
  }

  // ---------------------------------------------------------------------------------------------
  // Nothing is lost as long as no error is reported while an old instance is being closed.
  // ---------------------------------------------------------------------------------------------

  /** The instance a caller is replacing: from marking it STOPPING to taking the lock again. */
  function Replaced(p: Phase): (r: Option<Instance>)
  {
    match p
    case Release(Some(CloseOld(x))) => Some(x)
    case Outside(CloseOld(x)) => Some(x)
    case Want(Prepare(x)) => x
    case Hold(Prepare(x)) => x
    case _ => None
  }

  /** The caller has closed the instance it replaces. */
  predicate Closed(p: Phase)
  {
    (p.Want? || p.Hold?) && p.section.Prepare? && p.section.prior.Some?
  }

  /** Where a caller stands with the instance it replaces. */
  ghost predicate ReplaceInv(s: State, i: nat)
    requires i < |s.phases|
  {
    var p := s.phases[i];
    && (Replaced(p).Some? ==> s.status.STOPPING? && s.instance == Replaced(p))
    && (Closed(p) ==> p.section.prior.value in s.closed)
    && p != Want(Prepare(None))
    && (p == Hold(Prepare(None)) ==> s.instance.None?)
    && (p.Hold? && p.section.Create? && s.instance.Some? ==> s.instance.value in s.closed)
  }

  ghost predicate OneReplaces(s: State, i: nat, j: nat)
    requires i < |s.phases| && j < |s.phases|
  {
    Replaced(s.phases[i]).Some? && Replaced(s.phases[j]).Some? ==> i == j
  }

  /** At most one caller is replacing an instance, and what it replaces is the current one. */
  ghost predicate Orderly(s: State)
  {
    && (forall i :: 0 <= i < |s.phases| ==> ReplaceInv(s, i))
    && (forall i, j :: 0 <= i < |s.phases| && 0 <= j < |s.phases| ==> OneReplaces(s, i, j))
  }

  /** The step of SetError that overwrites STOPPING. */
  ghost predicate ErrorWhileStopping(s: State, e: Event)
  {
    e.i < |s.phases| && s.phases[e.i] == Hold(Fail) && e.Act? && s.status.STOPPING?
  }

  lemma {:induction false} MoverKeepsReplace(s: State, e: Event)
    requires Inv(s) && Orderly(s) && Enabled(s, e) && !ErrorWhileStopping(s, e)
    ensures ReplaceInv(Next(s, e), e.i)
  {
    assert CallerInv(s, e.i) && ReplaceInv(s, e.i);
  }

  lemma {:induction false} OthersKeepReplace(s: State, e: Event, j: nat)
    requires Inv(s) && Orderly(s) && Enabled(s, e) && !ErrorWhileStopping(s, e)
    requires j < |s.phases| && j != e.i
    ensures ReplaceInv(Next(s, e), j)
  {
    assert CallerInv(s, e.i) && ReplaceInv(s, e.i) && CallerInv(s, j) && ReplaceInv(s, j);
    assert OneReplaces(s, e.i, j);
  }

  lemma {:induction false} ReplacersStayApart(s: State, e: Event, i: nat, j: nat)
    requires Inv(s) && Orderly(s) && Enabled(s, e) && !ErrorWhileStopping(s, e)
    requires i < |s.phases| && j < |s.phases|
    ensures OneReplaces(Next(s, e), i, j)
  {
    assert OneReplaces(s, i, j);
    assert ReplaceInv(s, i) && ReplaceInv(s, j);
    assert CallerInv(s, i) && CallerInv(s, j);
  }

  lemma {:induction false} StepKeepsOrder(s: State, e: Event)
    requires Inv(s) && Orderly(s) && Enabled(s, e) && !ErrorWhileStopping(s, e)
    ensures Orderly(Next(s, e))
  {
    var s' := Next(s, e);
    forall i | 0 <= i < |s'.phases|
      ensures ReplaceInv(s', i)
    {
      if i == e.i {
        MoverKeepsReplace(s, e);
      } else {
        OthersKeepReplace(s, e, i);
      }
    }
    forall i, j | 0 <= i < |s'.phases| && 0 <= j < |s'.phases|
      ensures OneReplaces(s', i, j)
    {
      ReplacersStayApart(s, e, i, j);
    }
  }

  lemma {:induction false} RunKeepsOrder(calls: seq<Call>, states: seq<State>, events: seq<Event>, k: nat)
    requires IsRun(calls, states, events) && k < |states|
    requires forall m :: 0 <= m < k ==> !ErrorWhileStopping(states[m], events[m])
    ensures Orderly(states[k])
    decreases k
  {
    if k > 0 {
      RunKeepsOrder(calls, states, events, k - 1);
      RunKeepsInv(calls, states, events, k - 1);
      StepKeepsOrder(states[k - 1], events[k - 1]);
    }
  }

  lemma {:induction false} OrderNeverOverwrites(s: State, e: Event)
    requires Orderly(s)
    ensures !Overwrites(s, e)
  {
    if e.i < |s.phases| {
      assert ReplaceInv(s, e.i);
    }
  }

  /** In every run in which no SetError overwrites STOPPING, no reload forgets a running instance. */
  lemma {:induction false} NoInstanceIsLost(calls: seq<Call>, states: seq<State>, events: seq<Event>, k: nat)
    requires IsRun(calls, states, events) && k < |states|
    requires forall m :: 0 <= m < k ==> !ErrorWhileStopping(states[m], events[m])
    ensures NoneLost(states[k])
    ensures forall x :: 0 <= x < states[k].made ==> Tracked(states[k], x)
  {
    forall m | 0 <= m < k
      ensures !Overwrites(states[m], events[m])
    {
      RunKeepsOrder(calls, states, events, m);
      OrderNeverOverwrites(states[m], events[m]);
    }
    InstancesAreLostExactly(calls, states, events, k);
  }

  // ---------------------------------------------------------------------------------------------
  // STARTED speaks of the current instance, unless a reload overtakes the start of an older one.
  // ---------------------------------------------------------------------------------------------

  ghost predicate Truthful(s: State)
  {
    s.status.STARTED? ==> s.instance.Some? && s.instance.value in s.ran
  }

  /** A success is reported over STARTING while the current instance has not started. */
  ghost predicate BadReport(s: State, e: Event)
  {
    && e.Act? && e.i < |s.phases| && s.phases[e.i].Hold? && s.phases[e.i].section.Report? && s.phases[e.i].section.ok
    && s.status.STARTING? && !(s.instance.Some? && s.instance.value in s.ran)
  }

  lemma {:induction false} StepIsTruthfulExactly(s: State, e: Event)
    requires Inv(s) && Truthful(s) && Enabled(s, e)
    ensures Truthful(Next(s, e)) <==> !BadReport(s, e)
  {
    assert CallerInv(s, e.i);
  }

  /**
   A run never shows STARTED over an instance that has not started if and only if it never reports a
   success while the current instance has not started.
   */
  lemma {:induction false} StartedIsTruthfulExactly(calls: seq<Call>, states: seq<State>, events: seq<Event>, k: nat)
    requires IsRun(calls, states, events) && k < |states|
    ensures (forall m :: 0 <= m <= k ==> Truthful(states[m])) <==>
      forall m :: 0 <= m < k ==> !BadReport(states[m], events[m])
    decreases k
  {
    if k == 0 {
      assert Truthful(Init(calls));
    } else {
      assert Enabled(states[k - 1], events[k - 1]) && states[k] == Next(states[k - 1], events[k - 1]);
      assert |states| == |events| + 1;
      hide *;
      StartedIsTruthfulExactly(calls, states, events, k - 1);
      RunKeepsInv(calls, states, events, k - 1);
      if Truthful(states[k - 1]) {
        StepIsTruthfulExactly(states[k - 1], events[k - 1]);
      }
    }
  }

  /** A caller about to report its instance as started finds STARTING, set by another call. */
  ghost predicate Overtaken(s: State, e: Event)
  {
    && e.Act? && e.i < |s.phases| && s.phases[e.i].Hold? && s.phases[e.i].section.Report?
    && s.status.STARTING? && s.instance != Some(s.phases[e.i].section.x)
  }

  /** In every run without an overtaken report, STARTED means that the current instance did start. */
  lemma {:induction false} StartedIsTruthful(calls: seq<Call>, states: seq<State>, events: seq<Event>, k: nat)
    requires IsRun(calls, states, events) && k < |states|
    requires forall m :: 0 <= m < k ==> !Overtaken(states[m], events[m])
    ensures Truthful(states[k])
  {
    forall m | 0 <= m < k
      ensures !BadReport(states[m], events[m])
    {
      RunKeepsInv(calls, states, events, m);
      assert Enabled(states[m], events[m]);
      assert CallerInv(states[m], events[m].i);
    }
    StartedIsTruthfulExactly(calls, states, events, k);
  }

  // ---------------------------------------------------------------------------------------------
  // Progress: the lock is never left behind, and every run ends with every call returned.
  // ---------------------------------------------------------------------------------------------

  function SectionWeight(section: Section): (w: nat)
  {
    match section
    case CheckReload => 11
    case Prepare(_) => 7
    case Create(_) => 6
    case Report(_, _) => 2
    case CheckClose => 3
    case Shut(_) => 2
    case Fail => 2
  }

  function Weight(p: Phase): (w: nat)
  {
    match p
    case Want(section) => SectionWeight(section) + 1
    case Hold(section) => SectionWeight(section)
    case Release(None) => 1
    case Release(Some(CloseOld(_))) => 10
    case Release(Some(StartNew(_))) => 5
    case Outside(CloseOld(_)) => 9
    case Outside(StartNew(_)) => 4
    case Done => 0
  }

  lemma {:induction false} StepLowersWeight(s: State, e: Event)
    requires Enabled(s, e)
    ensures Total(Weight, Next(s, e).phases) < Total(Weight, s.phases)
  {
    var s' := Next(s, e);
    assert s'.phases == s.phases[e.i := s'.phases[e.i]];
    assert Weight(s'.phases[e.i]) < Weight(s.phases[e.i]);
    hide Next, Weight, Total;
    TotalOfUpdate(Weight, s.phases, e.i, s'.phases[e.i]);
  }

  /** No run of `n` calls has more than `12n` steps. */
  lemma {:induction false} RunIsShort(calls: seq<Call>, states: seq<State>, events: seq<Event>, k: nat)
    requires IsRun(calls, states, events) && k <= |events|
    ensures Total(Weight, states[k].phases) + k <= 12 * |calls|
    decreases k
  {
    if k == 0 {
      TotalBound(Weight, states[0].phases, 12);
    } else {
      RunIsShort(calls, states, events, k - 1);
      StepLowersWeight(states[k - 1], events[k - 1]);
    }
  }

  /** A call that has not returned means that some call can take a step. */
  lemma {:induction false} NobodyIsStuck(s: State, i: nat) returns (e: Event)
    requires Inv(s) && i < |s.phases| && !s.phases[i].Done?
    ensures Enabled(s, e)
  {
    var j := if s.holder.Some? then s.holder.value else i;
    assert CallerInv(s, j);
    e := if s.phases[j].Want? then Lock(j) else if s.phases[j].Release? then Unlock(j) else Act(j, true);
  }

  // ---------------------------------------------------------------------------------------------
  // Both conditions are needed: two runs that break them.
  // ---------------------------------------------------------------------------------------------

  ghost predicate Reaches(calls: seq<Call>, s: State)
  {
    exists states, events :: IsRun(calls, states, events) && states[|events|] == s
  }

  lemma {:induction false} ReachesStart(calls: seq<Call>)
    ensures Reaches(calls, Init(calls))
  {
    assert IsRun(calls, [Init(calls)], []);
  }

  lemma {:induction false} ReachesNext(calls: seq<Call>, s: State, e: Event)
    requires Reaches(calls, s) && Enabled(s, e)
    ensures Reaches(calls, Next(s, e))
  {
    var states, events :| IsRun(calls, states, events) && states[|events|] == s;
    var states', events' := states + [Next(s, e)], events + [e];
    forall k | 0 <= k < |events'|
      ensures Enabled(states'[k], events'[k]) && states'[k + 1] == Next(states'[k], events'[k])
    {
      if k < |events| {
        assert states'[k] == states[k] && states'[k + 1] == states[k + 1] && events'[k] == events[k];
      }
    }
    assert IsRun(calls, states', events') && states'[|events'|] == Next(s, e);
  }

  /** A reachable state with the lock free: what a state looks like apart from the lock counters. */
  ghost predicate Sees(calls: seq<Call>, s: State, phases: seq<Phase>, status: Status, instance: Option<Instance>,
                       made: Instance, ran: set<Instance>, closed: set<Instance>)
  {
    && Reaches(calls, s) && s.holder.None?
    && s.phases == phases && |phases| == |s.taken| == |s.released|
    && s.status == status && s.instance == instance && s.made == made && s.ran == ran && s.closed == closed
  }

  lemma {:induction false} Advance(calls: seq<Call>, s: State, e: Event) returns (s': State)
    requires Reaches(calls, s) && Enabled(s, e)
    ensures Reaches(calls, s') && s' == Next(s, e)
  {
    ReachesNext(calls, s, e);
    s' := Next(s, e);
  }

  /** A reload that marks the current instance STOPPING and closes it. */
  lemma {:induction false} BeginReplacing(calls: seq<Call>, s: State, i: nat) returns (s': State)
    requires Sees(calls, s, s.phases, s.status, s.instance, s.made, s.ran, s.closed)
    requires i < |s.phases| && s.phases[i] == Want(CheckReload) && !s.status.STOPPING? && s.instance.Some?
    ensures Sees(calls, s', s.phases[i := Want(Prepare(s.instance))], STOPPING, s.instance, s.made, s.ran,
                 s.closed + {s.instance.value})
  {
    hide Reaches;
    s' := Advance(calls, s, Lock(i));
    s' := Advance(calls, s', Act(i, true));
    s' := Advance(calls, s', Unlock(i));
    s' := Advance(calls, s', Act(i, true));
  }

  /** A call that takes the lock, creates an instance and lets go of the lock to start it. */
  lemma {:induction false} CreateInstance(calls: seq<Call>, s: State, i: nat) returns (s': State)
    requires Sees(calls, s, s.phases, s.status, s.instance, s.made, s.ran, s.closed) && i < |s.phases|
    requires s.phases[i].Want? && (s.phases[i].section.Prepare? ||
             (s.phases[i].section.CheckReload? && s.instance.None? && !s.status.STOPPING?))
    ensures Sees(calls, s', s.phases[i := Outside(StartNew(s.made))], STARTING, Some(s.made), s.made + 1, s.ran,
                 s.closed)
  {
    hide Reaches;
    s' := Advance(calls, s, Lock(i));
    if s.phases[i].section.CheckReload? {
      s' := Advance(calls, s', Act(i, true));
    }
    s' := Advance(calls, s', Act(i, true));
    s' := Advance(calls, s', Act(i, true));
    s' := Advance(calls, s', Unlock(i));
  }

  lemma {:induction false} ReportStarted(calls: seq<Call>, s: State, i: nat, x: Instance) returns (s': State)
    requires Sees(calls, s, s.phases, STARTING, s.instance, s.made, s.ran, s.closed)
    requires i < |s.phases| && s.phases[i] == Outside(StartNew(x))
    ensures Sees(calls, s', s.phases[i := Done], STARTED, s.instance, s.made, s.ran + {x}, s.closed)
  {
    hide Reaches;
    s' := Advance(calls, s, Act(i, true));
    s' := Advance(calls, s', Lock(i));
    s' := Advance(calls, s', Act(i, true));
    s' := Advance(calls, s', Unlock(i));
  }

  lemma {:induction false} ReportError(calls: seq<Call>, s: State, i: nat) returns (s': State)
    requires Sees(calls, s, s.phases, s.status, s.instance, s.made, s.ran, s.closed)
    requires i < |s.phases| && s.phases[i] == Want(Fail)
    ensures Sees(calls, s', s.phases[i := Done], FATAL, s.instance, s.made, s.ran, s.closed)
  {
    hide Reaches;
    s' := Advance(calls, s, Lock(i));
    s' := Advance(calls, s', Act(i, true));
    s' := Advance(calls, s', Unlock(i));
  }

  lemma {:induction false} Begin(calls: seq<Call>) returns (s: State)
    ensures Sees(calls, s, Init(calls).phases, IDLE, None, 0, {}, {})
  {
    ReachesStart(calls);
    s := Init(calls);
  }

  /** A start overtaken by a reload reports STARTED for an instance whose Start has not returned. */
  lemma {:induction false} OvertakenStartMisleads() returns (calls: seq<Call>, s: State)
    ensures Reaches(calls, s) && s.status.STARTED? && s.instance == Some(1) && 1 !in s.ran
  {
    calls := [StartOrReload, StartOrReload];
    s := Begin(calls);
    assert s.phases == [Want(CheckReload), Want(CheckReload)];
    hide Reaches;
    s := CreateInstance(calls, s, 0);
    s := BeginReplacing(calls, s, 1);
    s := CreateInstance(calls, s, 1);
    s := ReportStarted(calls, s, 0, 0);
  }

  lemma {:induction false} TwoReplaceTheSame(calls: seq<Call>) returns (s: State)
    requires calls == [StartOrReload, StartOrReload, StartOrReload, SetError]
    ensures Sees(calls, s, [Outside(StartNew(0)), Want(Prepare(Some(0))), Want(Prepare(Some(0))), Done], STOPPING,
                 Some(0), 1, {}, {0})
  {
    s := Begin(calls);
    assert s.phases == [Want(CheckReload), Want(CheckReload), Want(CheckReload), Want(Fail)];
    hide Reaches, Init;
    s := CreateInstance(calls, s, 0);
    assert s.phases == [Outside(StartNew(0)), Want(CheckReload), Want(CheckReload), Want(Fail)];
    s := BeginReplacing(calls, s, 1);
    s := ReportError(calls, s, 3);
    assert s.phases == [Outside(StartNew(0)), Want(Prepare(Some(0))), Want(CheckReload), Done];
    s := BeginReplacing(calls, s, 2);
    assert s.phases == [Outside(StartNew(0)), Want(Prepare(Some(0))), Want(Prepare(Some(0))), Done];
  }

  /** An error reported while two reloads are on their way makes one of them forget a live instance. */
  lemma {:induction false} ErrorWhileStoppingLosesInstance() returns (calls: seq<Call>, s: State)
    ensures Reaches(calls, s) && 1 < s.made && !Tracked(s, 1)
  {
    calls := [StartOrReload, StartOrReload, StartOrReload, SetError];
    hide Reaches;
    s := TwoReplaceTheSame(calls);
    s := CreateInstance(calls, s, 1);
    s := CreateInstance(calls, s, 2);
    assert s.phases == [Outside(StartNew(0)), Outside(StartNew(1)), Outside(StartNew(2)), Done];
  }
}
