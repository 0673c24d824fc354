/**
 Racing dials (common/dialer/default_parallel_interface.go): primary dials start at once, fallback
 dials after a head start, and a receiver takes results from an unbuffered channel until one dial
 succeeds or all have failed. Goroutines, timer and receiver are interleaved step by step.
 */
module DialRace {
  import opened Common

  /** `fast` is the variant that starts the fallbacks together with the primaries. */
  datatype Race = Race(primaries: nat, fallbacks: nat, fast: bool) {
    function Candidates(): (r: nat) { primaries + fallbacks }
  }

  datatype Racer =
    | Waiting                   // fallback not launched yet
    | Dialing
    | Connected                 // holds an open connection, offering it
    | Failed                    // holds an error, offering it
    | Delivered(success: bool)  // the receiver took its result
    | Discarded                 // saw the receiver gone; a held connection was closed

  datatype Timer = Absent | Armed | Fired | Consumed

  datatype Receiver = Selecting | ReturnedConn(winner: nat) | ReturnedErrors

  /** `errors` lists the racers whose errors were received; `dialed` and `closed` log connections. */
  datatype State = State(racers: seq<Racer>, timer: Timer, receiver: Receiver, errors: seq<nat>,
                         dialed: set<nat>, closed: set<nat>)

  datatype Event =
    | DialEnds(i: nat, success: bool)
    | TimerFires
    | LaunchFallbacks
    | TakeResult(i: nat, stopSeesFired: bool)
    | SeeReturned(i: nat)

  function Init(c: Race): (r: State)
  {
    var racer := (i: nat) => if i < c.primaries || c.fast then Dialing else Waiting;
    State(seq(c.Candidates(), racer), if c.fallbacks > 0 && !c.fast then Armed else Absent,
          Selecting, [], {}, {})
  }

  function Launch(racers: seq<Racer>): (r: seq<Racer>)
  {
    seq(|racers|, i requires 0 <= i < |racers| => if racers[i].Waiting? then Dialing else racers[i])
  }

  predicate Enabled(c: Race, s: State, e: Event)
  {
    match e
    case DialEnds(i, _) => i < |s.racers| && s.racers[i].Dialing?
    case TimerFires => s.timer.Armed?
    case LaunchFallbacks => s.receiver.Selecting? && s.timer.Fired?
    case TakeResult(i, _) =>
      s.receiver.Selecting? && i < |s.racers| && (s.racers[i].Connected? || s.racers[i].Failed?)
    case SeeReturned(i) =>
      !s.receiver.Selecting? && i < |s.racers| && (s.racers[i].Connected? || s.racers[i].Failed?)
  }

  /**
   Stop on an armed timer succeeds and Reset(0) re-arms it. On a timer that fired and was not yet
   received, Stop either discards the tick and succeeds or leaves it pending, depending on the Go
   release; `stopSeesFired` covers both.
   */
  function StopAndReset(timer: Timer, stopSeesFired: bool): (r: Timer)
  {
    if timer.Fired? && stopSeesFired then Armed else timer
  }

  function Next(c: Race, s: State, e: Event): (r: State)
    requires Enabled(c, s, e)
  {
    match e
    case DialEnds(i, success) =>
      s.(racers := s.racers[i := if success then Connected else Failed],
         dialed := if success then s.dialed + {i} else s.dialed)
    case TimerFires => s.(timer := Fired)
    case LaunchFallbacks => s.(timer := Consumed, racers := Launch(s.racers))
    case TakeResult(i, stopSeesFired) =>
      if s.racers[i].Connected? then
        s.(racers := s.racers[i := Delivered(true)], receiver := ReturnedConn(i))
      else
        var errors := s.errors + [i];
        s.(racers := s.racers[i := Delivered(false)], errors := errors,
           receiver := if |errors| == c.Candidates() then ReturnedErrors else Selecting,
           timer := if |errors| != c.Candidates() && i < c.primaries
                    then StopAndReset(s.timer, stopSeesFired) else s.timer)
    case SeeReturned(i) =>
      s.(racers := s.racers[i := Discarded],
         closed := if s.racers[i].Connected? then s.closed + {i} else s.closed)
  }

  /** The states of a run: the first is initial and each event leads from one state to the next. */
  ghost predicate IsRun(c: Race, states: seq<State>, events: seq<Event>)
  {
    && |states| == |events| + 1
    && states[0] == Init(c)
    && forall k :: 0 <= k < |events| ==>
         Enabled(c, states[k], events[k]) && states[k + 1] == Next(c, states[k], events[k])
  }

  // ---------------------------------------------------------------------------------------------
  // What every interleaving keeps.
  // ---------------------------------------------------------------------------------------------

  ghost predicate RacerInv(c: Race, s: State, i: nat)
    requires |s.racers| == c.Candidates() && i < |s.racers|
  {
    && (s.racers[i].Waiting? ==> c.primaries <= i && (s.timer.Armed? || s.timer.Fired?))
    && (s.racers[i].Connected? ==> i in s.dialed && i !in s.closed)
    && (s.racers[i] == Delivered(true) ==> s.receiver == ReturnedConn(i) && i in s.dialed && i !in s.closed)
    && (s.racers[i].Discarded? ==> !s.receiver.Selecting? && (i in s.dialed <==> i in s.closed))
    && (s.racers[i] == Delivered(false) <==> i in s.errors)
    && (s.racers[i].Waiting? || s.racers[i].Dialing? || s.racers[i].Failed? || s.racers[i] == Delivered(false)
        ==> i !in s.dialed && i !in s.closed)
  }

  ghost predicate Inv(c: Race, s: State)
  {
    && |s.racers| == c.Candidates()
    && (forall i :: 0 <= i < |s.racers| ==> RacerInv(c, s, i))
    && (forall i :: i in s.dialed || i in s.closed || i in s.errors ==> i < c.Candidates())
    && Distinct(s.errors)
    && (s.timer.Armed? || s.timer.Fired? ==> forall i :: c.primaries <= i < |s.racers| ==> s.racers[i].Waiting?)
    && (s.receiver.ReturnedConn? ==> s.receiver.winner < |s.racers| && s.racers[s.receiver.winner] == Delivered(true))
    && (s.receiver.ReturnedErrors? ==> |s.errors| == c.Candidates())
    && (s.receiver.Selecting? && c.Candidates() > 0 ==> |s.errors| < c.Candidates())
  }

  lemma {:induction false} InitInv(c: Race)
    ensures Inv(c, Init(c))
  {
  }

  lemma {:induction false} TakeResultKeepsInv(c: Race, s: State, e: Event)
    requires Inv(c, s) && Enabled(c, s, e) && e.TakeResult?
    ensures Inv(c, Next(c, s, e))
  {
    hide Distinct;
    var s' := Next(c, s, e);
    assert RacerInv(c, s, e.i);
    assert Distinct(s'.errors) by {
      DistinctPush(s.errors, e.i);
    }
    forall i | 0 <= i < |s'.racers|
      ensures RacerInv(c, s', i)
    {
      assert RacerInv(c, s, i);
    }
    DistinctBelow(s'.errors, c.Candidates());
  }

  lemma {:induction false} StepKeepsInv(c: Race, s: State, e: Event)
    requires Inv(c, s) && Enabled(c, s, e)
    ensures Inv(c, Next(c, s, e))
  {
    hide Distinct;
    var s' := Next(c, s, e);
    if e.TakeResult? {
      TakeResultKeepsInv(c, s, e);
    } else {
      forall i | 0 <= i < |s'.racers|
        ensures RacerInv(c, s', i)
      {
        assert RacerInv(c, s, i);
      }
    }
  }

  lemma {:induction false} RunKeepsInv(c: Race, states: seq<State>, events: seq<Event>, k: nat)
    requires IsRun(c, states, events) && k < |states|
    ensures Inv(c, states[k])
    decreases k
  {
    if k == 0 {
      InitInv(c);
    } else {
      RunKeepsInv(c, states, events, k - 1);
      StepKeepsInv(c, states[k - 1], events[k - 1]);
    }
  }

  // ---------------------------------------------------------------------------------------------
  // Conservation and progress.
  // ---------------------------------------------------------------------------------------------

  predicate IsInFlight(r: Racer)
  {
    r.Dialing? || r.Connected? || r.Failed?
  }

  ghost function InFlight(s: State): (r: set<nat>)
  {
    set i | i in Range(|s.racers|) && IsInFlight(s.racers[i])
  }

  ghost function NotLaunched(s: State): (r: set<nat>)
  {
    set i | i in Range(|s.racers|) && s.racers[i].Waiting?
  }

  /** While the receiver selects: errors received + racers in flight + fallbacks not launched = all. */
  lemma {:induction false} Conservation(c: Race, s: State)
    requires Inv(c, s) && s.receiver.Selecting?
    ensures |s.errors| + |InFlight(s)| + |NotLaunched(s)| == c.Candidates()
  {
    var received := set i | i in s.errors;
    ElementCount(s.errors);
    forall i | 0 <= i < |s.racers|
      ensures i in s.errors <==> !IsInFlight(s.racers[i]) && !s.racers[i].Waiting?
    {
      assert RacerInv(c, s, i);
    }
    hide Inv, RacerInv, Distinct;
    PartitionCount(received, InFlight(s), NotLaunched(s), Range(|s.racers|));
  }

  lemma {:induction false} PartitionCount(a: set<nat>, b: set<nat>, c: set<nat>, whole: set<nat>)
    requires forall i :: i in whole <==> i in a || i in b || i in c
    requires forall i :: i in a ==> i !in b && i !in c
    requires forall i :: i in b ==> i !in c
    ensures |a| + |b| + |c| == |whole|
  {
    assert whole == a + b + c;
    assert a !! b && (a + b) !! c;
  }

  /** The receiver never waits with nobody left to send: a racer is in flight or the timer is pending. */
  lemma {:induction false} ReceiverIsNeverAbandoned(c: Race, s: State)
    requires Inv(c, s) && s.receiver.Selecting? && c.Candidates() > 0
    ensures s.timer.Armed? || s.timer.Fired? || exists i :: 0 <= i < |s.racers| && IsInFlight(s.racers[i])
  {
    Conservation(c, s);
    if InFlight(s) != {} {
      var i :| i in InFlight(s);
      assert IsInFlight(s.racers[i]);
    } else {
      assert |NotLaunched(s)| > 0;
      var i :| i in NotLaunched(s);
      assert RacerInv(c, s, i);
    }
  }

  function Weight(r: Racer): (w: nat)
  {
    match r
    case Waiting => 4
    case Dialing => 3
    case Connected => 2
    case Failed => 2
    case Delivered(_) => 0
    case Discarded => 0
  }

  function TimerWeight(t: Timer): (w: nat)
  {
    match t
    case Armed => 2
    case Fired => 1
    case Absent => 0
    case Consumed => 0
  }

  function Rank(s: State): (r: nat)
  {
    Total(Weight, s.racers) + TimerWeight(s.timer)
  }

  lemma {:induction false} WeightOfLaunch(racers: seq<Racer>)
    ensures Total(Weight, Launch(racers)) <= Total(Weight, racers)
    decreases |racers|
  {
    if racers != [] {
      var n := |racers| - 1;
      WeightOfLaunch(racers[..n]);
      assert Launch(racers)[..n] == Launch(racers[..n]);
    }
  }

  lemma {:induction false} StepLowersRank(c: Race, s: State, e: Event)
    requires Enabled(c, s, e)
    ensures Rank(Next(c, s, e)) < Rank(s)
  {
    match e
    case DialEnds(i, success) => TotalOfUpdate(Weight, s.racers, i, if success then Connected else Failed);
    case TimerFires =>
    case LaunchFallbacks => WeightOfLaunch(s.racers);
    case TakeResult(i, _) => TotalOfUpdate(Weight, s.racers, i, Delivered(s.racers[i].Connected?));
    case SeeReturned(i) => TotalOfUpdate(Weight, s.racers, i, Discarded);
  }

  lemma {:induction false} RunIsShort(c: Race, states: seq<State>, events: seq<Event>, k: nat)
    requires IsRun(c, states, events) && k <= |events|
    ensures Rank(states[k]) + k <= 4 * c.Candidates() + 2
    decreases k
  {
    if k == 0 {
      TotalBound(Weight, states[0].racers, 4);
    } else {
      RunIsShort(c, states, events, k - 1);
      StepLowersRank(c, states[k - 1], events[k - 1]);
    }
  }

  // ---------------------------------------------------------------------------------------------
  // Whole runs.
  // ---------------------------------------------------------------------------------------------

  ghost predicate Quiescent(c: Race, s: State)
  {
    forall e :: !Enabled(c, s, e)
  }

  /**
   Every run ends within 4 * candidates + 2 steps, and where no step is left the dial has returned:
   either a connection, or an error after every candidate failed and was received exactly once. Each
   connection opened on the way was then returned or closed, never both and never forgotten.
   */
  lemma {:induction false} EveryRunReturnsAndLeaksNothing(c: Race, states: seq<State>, events: seq<Event>)
    requires c.Candidates() > 0
    requires IsRun(c, states, events)
    ensures |events| <= 4 * c.Candidates() + 2
    ensures
      var s := states[|events|];
      Quiescent(c, s) ==>
        && !s.receiver.Selecting?
        && (s.receiver.ReturnedConn? ==>
              s.receiver.winner !in s.closed && s.dialed == s.closed + {s.receiver.winner})
        && (s.receiver.ReturnedErrors? ==>
              && s.dialed == {} && s.closed == {}
              && |s.errors| == c.Candidates() && Distinct(s.errors)
              && forall i :: 0 <= i < c.Candidates() ==> i in s.errors)
  {
    RunIsShort(c, states, events, |events|);
    RunKeepsInv(c, states, events, |events|);
    var s := states[|events|];
    if Quiescent(c, s) {
      if s.receiver.Selecting? {
        var e := SelectingHasStep(c, s);
      }
      AllAccounted(c, s);
    }
  }

  /** As long as the receiver selects, some goroutine or the timer can move. */
  lemma {:induction false} SelectingHasStep(c: Race, s: State) returns (e: Event)
    requires Inv(c, s) && s.receiver.Selecting? && c.Candidates() > 0
    ensures Enabled(c, s, e)
  {
    ReceiverIsNeverAbandoned(c, s);
    if s.timer.Armed? {
      e := TimerFires;
    } else if s.timer.Fired? {
      e := LaunchFallbacks;
    } else {
      var i :| 0 <= i < |s.racers| && IsInFlight(s.racers[i]);
      e := if s.racers[i].Dialing? then DialEnds(i, true) else TakeResult(i, true);
    }
  }

  lemma {:induction false} AllAccounted(c: Race, s: State)
    requires Inv(c, s) && Quiescent(c, s) && !s.receiver.Selecting?
    ensures s.receiver.ReturnedConn? ==>
      s.receiver.winner !in s.closed && s.dialed == s.closed + {s.receiver.winner}
    ensures s.receiver.ReturnedErrors? ==>
      s.dialed == {} && s.closed == {} && forall i :: 0 <= i < c.Candidates() ==> i in s.errors
  {
    DistinctBelow(s.errors, c.Candidates());
    forall i | 0 <= i < c.Candidates()
      ensures i in s.dialed <==> i in s.closed || s.receiver == ReturnedConn(i)
      ensures s.receiver == ReturnedConn(i) ==> i !in s.closed
      ensures s.receiver.ReturnedErrors? ==> i !in s.dialed && i !in s.closed
    {
      assert RacerInv(c, s, i);
      assert !Enabled(c, s, DialEnds(i, true));
      assert !Enabled(c, s, SeeReturned(i));
    }
  }

  ghost function Launches(events: seq<Event>): (n: nat)
  {
    if events == [] then 0
    else Launches(events[..|events| - 1]) + if events[|events| - 1].LaunchFallbacks? then 1 else 0
  }

  /** In any run the fallbacks are launched at most once, and not at all once the timer was consumed. */
  lemma {:induction false} FallbacksLaunchOnce(c: Race, states: seq<State>, events: seq<Event>, k: nat)
    requires IsRun(c, states, events) && k <= |events|
    ensures Launches(events[..k]) == if states[k].timer.Consumed? then 1 else 0
    decreases k
  {
    if k > 0 {
      FallbacksLaunchOnce(c, states, events, k - 1);
      assert events[..k][..k - 1] == events[..k - 1];
      assert Enabled(c, states[k - 1], events[k - 1]);
    }
  }

  /** A racer waits if and only if it is a fallback of the slow variant and no launch has happened. */
  lemma {:induction false} WaitsExactly(c: Race, states: seq<State>, events: seq<Event>, k: nat)
    requires IsRun(c, states, events) && k <= |events|
    ensures |states[k].racers| == c.primaries + c.fallbacks
    ensures forall i :: 0 <= i < c.primaries + c.fallbacks ==>
      (states[k].racers[i].Waiting? <==> !c.fast && c.primaries <= i && Launches(events[..k]) == 0)
    decreases k
  {
    if k > 0 {
      WaitsExactly(c, states, events, k - 1);
      assert events[..k][..k - 1] == events[..k - 1];
      assert Enabled(c, states[k - 1], events[k - 1]);
    }
  }

  /** The fallbacks are launched only after the timer fired, and the fast variant has no launch at all. */
  lemma {:induction false} LaunchNeedsTimer(c: Race, states: seq<State>, events: seq<Event>, k: nat)
    requires IsRun(c, states, events) && k < |events| && events[k].LaunchFallbacks?
    ensures TimerFires in events[..k] && !c.fast && c.fallbacks > 0
  {
    FiredBefore(c, states, events, k);
    assert Enabled(c, states[k], events[k]);
  }

  lemma {:induction false} FiredBefore(c: Race, states: seq<State>, events: seq<Event>, k: nat)
    requires IsRun(c, states, events) && k <= |events|
    ensures states[k].timer.Fired? ==> TimerFires in events[..k]
    ensures !states[k].timer.Absent? ==> !c.fast && c.fallbacks > 0
    decreases k
  {
    if k > 0 {
      FiredBefore(c, states, events, k - 1);
      assert events[..k] == events[..k - 1] + [events[k - 1]];
      assert Enabled(c, states[k - 1], events[k - 1]);
    }
  }
}
