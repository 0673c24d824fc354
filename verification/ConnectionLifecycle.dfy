/**
 The life of a proxied stream connection (route/conn.go): dial the other end, report the handshake,
 kick both write handshakes, then copy in both directions with two goroutines that share an atomic
 flag. The caller and the two goroutines are interleaved step by step.
 */
module ConnectionLifecycle {
  import opened Common

  datatype End = Local | Remote

  /** Copy 0 goes from the local to the remote end, copy 1 back. */
  function Source(i: nat): (r: End) { if i == 0 then Local else Remote }

  function Destination(i: nat): (r: End) { if i == 0 then Remote else Local }

  /** The caller, in NewConnection. Kick `i` writes to the destination of copy `i`. */
  datatype Caller =
    | Dialing
    | Reporting
    | Kicking(i: nat)
    | KickFailed
    | KickCalling
    | KickClosing
    | RemoteClosing
    | Failing
    | Launching(i: nat)
    | Returned(launched: bool)

  /** A copy goroutine; `clean` says that it ended by closing only the write side of its destination. */
  datatype Copy =
    | Idle
    | Copying
    | Copied(failed: bool)
    | Settled(clean: bool)
    | Calling(clean: bool)
    | Closing(clean: bool)
    | Finished(last: bool, clean: bool)

  datatype State = State(caller: Caller, copies: seq<Copy>, done: bool, dialed: bool, calls: nat, closed: set<End>)

  datatype WriteResult = Written | Tolerable | Broken

  datatype Event =
    | Dialed(ok: bool)
    | Reported(ok: bool)
    | Kicked(needed: bool, cached: bool, result: WriteResult)
    | KickSwaps
    | KickCalls
    | KickCloses
    | ClosesRemote
    | Fails
    | Launches
    | CopyEnds(i: nat, failed: bool)
    | Settles(i: nat, duplex: bool, shut: bool)
    | Swaps(i: nat)
    | Calls(i: nat)
    | Closes(i: nat)

  function Init(): (r: State)
  {
    State(Dialing, [Idle, Idle], false, false, 0, {})
  }

  predicate Enabled(s: State, e: Event)
  {
    && |s.copies| == 2
    && match e
       case Dialed(_) => s.caller.Dialing?
       case Reported(_) => s.caller.Reporting?
       case Kicked(_, _, _) => s.caller.Kicking?
       case KickSwaps => s.caller.KickFailed?
       case KickCalls => s.caller.KickCalling?
       case KickCloses => s.caller.KickClosing?
       case ClosesRemote => s.caller.RemoteClosing?
       case Fails => s.caller.Failing?
       case Launches => s.caller.Launching? && s.caller.i < 2
       case CopyEnds(i, _) => i < 2 && s.copies[i].Copying?
       case Settles(i, _, _) => i < 2 && s.copies[i].Copied?
       case Swaps(i) => i < 2 && s.copies[i].Settled?
       case Calls(i) => i < 2 && s.copies[i].Calling?
       case Closes(i) => i < 2 && s.copies[i].Closing?
  }

  /** Whether a write handshake ends the connection: an empty write may fail in tolerable ways. */
  predicate KickFails(needed: bool, cached: bool, result: WriteResult)
  {
    needed && (result.Broken? || (result.Tolerable? && cached))
  }

  function One(handler: bool): (r: nat) { if handler then 1 else 0 }

  function To(s: State, i: nat, copy: Copy): (r: State)
    requires i < |s.copies|
  {
    s.(copies := s.copies[i := copy])
  }

  /** `handler` says whether there is a close handler to call. */
  function Next(handler: bool, s: State, e: Event): (r: State)
    requires Enabled(s, e)
  {
    match e
    case Dialed(ok) => s.(caller := if ok then Reporting else Failing, dialed := ok)
    case Reported(ok) => s.(caller := if ok then Kicking(0) else RemoteClosing)
    case Kicked(needed, cached, result) =>
      s.(caller := if KickFails(needed, cached, result) then KickFailed
                   else if s.caller.i == 0 then Kicking(1) else Launching(0))
    case KickSwaps => s.(caller := if s.done then KickClosing else KickCalling, done := true)
    case KickCalls => s.(caller := KickClosing, calls := s.calls + One(handler))
    case KickCloses => s.(caller := Returned(false), closed := {Local, Remote})
    case ClosesRemote => s.(caller := Failing, closed := s.closed + {Remote})
    case Fails => s.(caller := Returned(false), calls := s.calls + One(handler), closed := s.closed + {Local})
    case Launches =>
      To(s.(caller := if s.caller.i == 0 then Launching(1) else Returned(true)), s.caller.i, Copying)
    case CopyEnds(i, failed) => To(s, i, Copied(failed))
    case Settles(i, duplex, shut) =>
      To(s.(closed := if s.copies[i].failed || (duplex && !shut) then {Local, Remote}
                      else if duplex then s.closed
                      else s.closed + {Destination(i)}),
         i, Settled(!s.copies[i].failed && duplex && shut))
    case Swaps(i) =>
      To(s.(done := true), i, if s.done then Calling(s.copies[i].clean) else Finished(false, s.copies[i].clean))
    case Calls(i) => To(s.(calls := s.calls + One(handler)), i, Closing(s.copies[i].clean))
    case Closes(i) => To(s.(closed := s.closed + {Source(i), Destination(i)}), i, Finished(true, s.copies[i].clean))
  }

  ghost predicate IsRun(handler: bool, states: seq<State>, events: seq<Event>)
  {
    && |states| == |events| + 1
    && states[0] == Init()
    && forall k :: 0 <= k < |events| ==>
         Enabled(states[k], events[k]) && states[k + 1] == Next(handler, states[k], events[k])
  }

  // ---------------------------------------------------------------------------------------------
  // What every interleaving keeps.
  // ---------------------------------------------------------------------------------------------

  /** The copy swapped the flag and found it unset. */
  predicate CameFirst(c: Copy) { c.Finished? && !c.last }

  /** The copy swapped the flag and found it set. */
  predicate CameLast(c: Copy) { c.Calling? || c.Closing? || (c.Finished? && c.last) }

  predicate Reports(c: Copy) { c.Closing? || (c.Finished? && c.last) }

  predicate ClosedAre(s: State, local: bool, remote: bool)
  {
    (Local in s.closed <==> local) && (Remote in s.closed <==> remote)
  }

  /** The caller before it launches a copy, and how the flag and the calls stand by then. */
  predicate CallerInv(handler: bool, s: State)
  {
    match s.caller
    case Dialing => !s.done && s.calls == 0 && ClosedAre(s, false, false) && !s.dialed
    case Reporting => !s.done && s.calls == 0 && ClosedAre(s, false, false) && s.dialed
    case Kicking(i) => i < 2 && !s.done && s.calls == 0 && ClosedAre(s, false, false) && s.dialed
    case KickFailed => !s.done && s.calls == 0 && ClosedAre(s, false, false) && s.dialed
    case KickCalling => s.done && s.calls == 0 && ClosedAre(s, false, false) && s.dialed
    case KickClosing => s.done && s.calls == One(handler) && ClosedAre(s, false, false) && s.dialed
    case RemoteClosing => !s.done && s.calls == 0 && ClosedAre(s, false, false) && s.dialed
    case Failing => !s.done && s.calls == 0 && ClosedAre(s, false, s.dialed)
    case Launching(i) => i < 2 && s.dialed
    case Returned(launched) =>
      launched || (s.calls == One(handler) && ClosedAre(s, true, s.dialed))
  }

  predicate Launched(s: State)
  {
    s.caller.Launching? || s.caller == Returned(true)
  }

  predicate CopiesInv(handler: bool, s: State)
    requires |s.copies| == 2
  {
    var up, down := s.copies[0], s.copies[1];
    && s.dialed
    && (up.Idle? <==> s.caller == Launching(0))
    && (down.Idle? <==> s.caller.Launching?)
    && (s.done <==> CameFirst(up) || CameFirst(down))
    && !(CameFirst(up) && CameFirst(down))
    && (CameLast(up) ==> CameFirst(down))
    && (CameLast(down) ==> CameFirst(up))
    && s.calls == (if Reports(up) || Reports(down) then One(handler) else 0)
    && ((up.Finished? && up.last) || (down.Finished? && down.last) ==> ClosedAre(s, true, true))
  }

  predicate Inv(handler: bool, s: State)
  {
    && |s.copies| == 2
    && CallerInv(handler, s)
    && (if Launched(s) then CopiesInv(handler, s) else s.copies == [Idle, Idle])
  }

  lemma {:induction false} StepKeepsInv(handler: bool, s: State, e: Event)
    requires Inv(handler, s) && Enabled(s, e)
    ensures Inv(handler, Next(handler, s, e))
  {
  }

  lemma {:induction false} RunKeepsInv(handler: bool, states: seq<State>, events: seq<Event>, k: nat)
    requires IsRun(handler, states, events) && k < |states|
    ensures Inv(handler, states[k])
    decreases k
  {
    if k > 0 {
      RunKeepsInv(handler, states, events, k - 1);
      StepKeepsInv(handler, states[k - 1], events[k - 1]);
    }
  }

  /** The close handler never runs twice, and while copies exist only after both have ended. */
  lemma {:induction false} HandlerWaitsForBothCopies(handler: bool, states: seq<State>, events: seq<Event>, k: nat)
    requires IsRun(handler, states, events) && k < |states|
    ensures states[k].calls <= One(handler) && |states[k].copies| == 2
    ensures states[k].calls > 0 && Launched(states[k]) ==>
      exists i :: 0 <= i < 2 && Reports(states[k].copies[i]) && CameFirst(states[k].copies[1 - i])
  {
    RunKeepsInv(handler, states, events, k);
    var s := states[k];
    if s.calls > 0 && Launched(s) {
      var i := if Reports(s.copies[0]) then 0 else 1;
      assert Reports(s.copies[i]) && CameFirst(s.copies[1 - i]);
    }
  }

  // ---------------------------------------------------------------------------------------------
  // A direction that ends cleanly leaves the other one running.
  // ---------------------------------------------------------------------------------------------

  /** The copy has ended in another way than by closing the write side of its destination. */
  predicate Troubled(c: Copy)
  {
    (c.Settled? || c.Calling? || c.Closing? || c.Finished?) && !c.clean
  }

  predicate OpenUntilTrouble(s: State)
  {
    && |s.copies| == 2
    && (Launched(s) && (Local in s.closed || Remote in s.closed) ==>
        || Troubled(s.copies[0]) || Troubled(s.copies[1])
        || (s.copies[0].Finished? && s.copies[0].last) || (s.copies[1].Finished? && s.copies[1].last))
  }

  lemma {:induction false} StepKeepsOpen(handler: bool, s: State, e: Event)
    requires Inv(handler, s) && OpenUntilTrouble(s) && Enabled(s, e)
    ensures OpenUntilTrouble(Next(handler, s, e))
  {
  }

  /** After launch, neither end is closed before a copy fails, cannot half-close, or both are through. */
  lemma {:induction false} HalfCloseKeepsOpen(handler: bool, states: seq<State>, events: seq<Event>, k: nat)
    requires IsRun(handler, states, events) && k < |states|
    ensures OpenUntilTrouble(states[k])
    decreases k
  {
    if k > 0 {
      HalfCloseKeepsOpen(handler, states, events, k - 1);
      RunKeepsInv(handler, states, events, k - 1);
      StepKeepsOpen(handler, states[k - 1], events[k - 1]);
    }
  }

  // ---------------------------------------------------------------------------------------------
  // What happened, event by event, decides which ends are closed and whether copies run.
  // ---------------------------------------------------------------------------------------------

  /** The event closes the end, given the events before it. */
  predicate ClosesEnd(before: seq<Event>, e: Event, end: End)
  {
    match e
    case KickCloses => true
    case ClosesRemote => end == Remote
    case Fails => end == Local
    case Closes(_) => true
    case Settles(i, duplex, shut) =>
      || CopyEnds(i, true) in before       // the copy failed: both ends
      || (duplex && !shut)                 // the half-close failed: both ends
      || (!duplex && (i == 0 <==> end == Remote))  // no half-close: the copy's destination
    case _ => false
  }

  /** Up to its settling, whether a copy failed is known. */
  predicate Remembers(s: State, i: nat, failed: bool)
    requires i < |s.copies|
  {
    && (s.copies[i].Idle? || s.copies[i].Copying? ==> !failed)
    && (s.copies[i].Copied? ==> s.copies[i].failed == failed)
  }

  lemma {:induction false} StepRemembers(handler: bool, s: State, e: Event, i: nat, failed: bool)
    requires Inv(handler, s) && Enabled(s, e) && i < 2 && Remembers(s, i, failed)
    ensures Remembers(Next(handler, s, e), i, failed || e == CopyEnds(i, true))
  {
  }

  lemma {:induction false} LastStep(handler: bool, states: seq<State>, events: seq<Event>, k: nat)
    requires IsRun(handler, states, events) && 0 < k <= |events|
    ensures Inv(handler, states[k - 1]) && Enabled(states[k - 1], events[k - 1])
    ensures states[k] == Next(handler, states[k - 1], events[k - 1]) && |states[k].copies| == 2
  {
    hide CallerInv, CopiesInv;
    RunKeepsInv(handler, states, events, k - 1);
    RunKeepsInv(handler, states, events, k);
  }

  lemma {:induction false} FailuresAreRemembered(handler: bool, states: seq<State>, events: seq<Event>, k: nat, i: nat)
    requires IsRun(handler, states, events) && k <= |events| && i < 2
    ensures |states[k].copies| == 2 && Remembers(states[k], i, CopyEnds(i, true) in events[..k])
    decreases k
  {
    if k > 0 {
      LastStep(handler, states, events, k);
      hide *;
      FailuresAreRemembered(handler, states, events, k - 1, i);
      assert events[..k] == events[..k - 1] + [events[k - 1]];
      StepRemembers(handler, states[k - 1], events[k - 1], i, CopyEnds(i, true) in events[..k - 1]);
    }
  }

  lemma {:induction false} StepCloses(handler: bool, s: State, e: Event, before: seq<Event>, end: End)
    requires Enabled(s, e)
    requires e.Settles? ==> Remembers(s, e.i, CopyEnds(e.i, true) in before)
    ensures end in Next(handler, s, e).closed <==> end in s.closed || ClosesEnd(before, e, end)
  {
  }

  /** An end is closed if and only if one of the events so far closes it. */
  lemma {:induction false} ClosedExactly(handler: bool, states: seq<State>, events: seq<Event>, k: nat, end: End)
    requires IsRun(handler, states, events) && k <= |events|
    ensures end in states[k].closed <==> exists j :: 0 <= j < k && ClosesEnd(events[..j], events[j], end)
    decreases k
  {
    if k > 0 {
      ClosedExactly(handler, states, events, k - 1, end);
      var e := events[k - 1];
      if e.Settles? {
        assert Enabled(states[k - 1], e);
        FailuresAreRemembered(handler, states, events, k - 1, e.i);
      }
      hide Next, Enabled, ClosesEnd, Remembers;
      StepCloses(handler, states[k - 1], e, events[..k - 1], end);
    }
  }

  /** The handshake lets the connection go on: none was needed, it was written, or its failure is tolerated. */
  predicate Passes(e: Event)
  {
    e.Kicked? && (!e.needed || e.result == Written || (e.result == Tolerable && !e.cached))
  }

  function Passed(events: seq<Event>): (n: nat)
  {
    if events == [] then 0
    else Passed(events[..|events| - 1]) + if Passes(events[|events| - 1]) then 1 else 0
  }

  predicate Progress(s: State, dialed: bool, reported: bool, passed: nat)
  {
    match s.caller
    case Dialing => !dialed && !reported && passed == 0
    case Reporting => dialed && !reported && passed == 0
    case Kicking(i) => dialed && reported && passed == i < 2
    case KickFailed => passed < 2
    case KickCalling => passed < 2
    case KickClosing => passed < 2
    case RemoteClosing => passed == 0
    case Failing => passed == 0
    case Launching(_) => dialed && reported && passed == 2
    case Returned(launched) => if launched then dialed && reported && passed == 2 else passed < 2
  }

  lemma {:induction false} StepProgresses(handler: bool, s: State, e: Event, dialed: bool, reported: bool, passed: nat)
    requires Enabled(s, e) && Progress(s, dialed, reported, passed)
    ensures Progress(Next(handler, s, e), dialed || e == Dialed(true), reported || e == Reported(true),
                     passed + if Passes(e) then 1 else 0)
  {
  }

  lemma {:induction false} ProgressOf(handler: bool, states: seq<State>, events: seq<Event>, k: nat)
    requires IsRun(handler, states, events) && k <= |events|
    ensures Progress(states[k], Dialed(true) in events[..k], Reported(true) in events[..k], Passed(events[..k]))
    decreases k
  {
    if k > 0 {
      ProgressOf(handler, states, events, k - 1);
      var front := events[..k - 1];
      assert events[..k] == front + [events[k - 1]];
      hide Next, Enabled, Progress, Passes;
      StepProgresses(handler, states[k - 1], events[k - 1], Dialed(true) in front, Reported(true) in front,
                     Passed(front));
    }
  }

  /** The copies are launched if and only if the dial, its report and both handshakes went well. */
  lemma {:induction false} LaunchedExactly(handler: bool, states: seq<State>, events: seq<Event>, k: nat)
    requires IsRun(handler, states, events) && k <= |events|
    ensures states[k].caller.Launching? || states[k].caller == Returned(true) <==>
      Dialed(true) in events[..k] && Reported(true) in events[..k] && Passed(events[..k]) == 2
  {
    ProgressOf(handler, states, events, k);
  }

  // ---------------------------------------------------------------------------------------------
  // Whole runs.
  // ---------------------------------------------------------------------------------------------

  function CallerWeight(c: Caller): (w: nat)
  {
    match c
    case Dialing => 8
    case Reporting => 7
    case Kicking(i) => if i == 0 then 6 else 5
    case KickFailed => 3
    case KickCalling => 2
    case KickClosing => 1
    case RemoteClosing => 2
    case Failing => 1
    case Launching(i) => if i == 0 then 4 else 3
    case Returned(_) => 0
  }

  function CopyWeight(c: Copy): (w: nat)
  {
    match c
    case Idle => 6
    case Copying => 5
    case Copied(_) => 4
    case Settled(_) => 3
    case Calling(_) => 2
    case Closing(_) => 1
    case Finished(_, _) => 0
  }

  function Rank(s: State): (r: nat)
    requires |s.copies| == 2
  {
    CallerWeight(s.caller) + CopyWeight(s.copies[0]) + CopyWeight(s.copies[1])
  }

  lemma {:induction false} StepLowersRank(handler: bool, s: State, e: Event)
    requires Inv(handler, s) && Enabled(s, e)
    ensures Rank(Next(handler, s, e)) < Rank(s)
  {
  }

  /** No connection takes more than twenty steps, copying counted as one. */
  lemma {:induction false} RunIsShort(handler: bool, states: seq<State>, events: seq<Event>, k: nat)
    requires IsRun(handler, states, events) && k <= |events|
    ensures |states[k].copies| == 2 && Rank(states[k]) + k <= 20
    decreases k
  {
    hide Next, Enabled, CallerInv, CopiesInv;
    RunKeepsInv(handler, states, events, k);
    if k > 0 {
      RunIsShort(handler, states, events, k - 1);
      RunKeepsInv(handler, states, events, k - 1);
      StepLowersRank(handler, states[k - 1], events[k - 1]);
    }
  }

  predicate Over(s: State)
  {
    && |s.copies| == 2
    && s.caller.Returned?
    && (s.caller.launched ==> s.copies[0].Finished? && s.copies[1].Finished?)
  }

  lemma {:induction false} NobodyIsStuck(handler: bool, s: State) returns (e: Event)
    requires Inv(handler, s) && !Over(s)
    ensures Enabled(s, e)
  {
    match s.caller
    case Dialing => e := Dialed(true);
    case Reporting => e := Reported(true);
    case Kicking(_) => e := Kicked(false, false, Written);
    case KickFailed => e := KickSwaps;
    case KickCalling => e := KickCalls;
    case KickClosing => e := KickCloses;
    case RemoteClosing => e := ClosesRemote;
    case Failing => e := Fails;
    case Launching(_) => e := Launches;
    case Returned(_) =>
      var i := if s.copies[0].Finished? then 1 else 0;
      var c := s.copies[i];
      e := if c.Copying? then CopyEnds(i, false)
           else if c.Copied? then Settles(i, false, false)
           else if c.Settled? then Swaps(i)
           else if c.Calling? then Calls(i)
           else Closes(i);
  }

  /**
   For every outcome of dial, handshake report and kicks, and every interleaving of the copies, a run
   that can go no further has run the close handler exactly once and closed every end that was open.
   */
  lemma {:induction false} EveryRunClosesOnce(handler: bool, states: seq<State>, events: seq<Event>)
    requires IsRun(handler, states, events)
    requires forall e: Event :: !Enabled(states[|events|], e)
    ensures |events| <= 20
    ensures var s := states[|events|];
      && Over(s) && s.calls == One(handler)
      && Local in s.closed && (s.dialed ==> Remote in s.closed)
  {
    var s := states[|events|];
    RunKeepsInv(handler, states, events, |events|);
    RunIsShort(handler, states, events, |events|);
    if !Over(s) {
      var e := NobodyIsStuck(handler, s);
    }
  }

  // ---------------------------------------------------------------------------------------------
  // The connection manager's list of tracked connections.
  // ---------------------------------------------------------------------------------------------

  class Conn {
    var closed: bool

    constructor ()
      ensures !closed
    {
      closed := false;
    }

    method Close()
      modifies this
      ensures closed
    {
      closed := true;
    }
  }

  /** A list cell: one connection may be tracked in several. */
  class Element {
    const conn: Conn

    constructor (conn: Conn)
      ensures this.conn == conn
    {
      this.conn := conn;
    }
  }

  class ConnectionManager {
    var connections: seq<Element>
    ghost var tracked: set<Element>

    /** Every connection ever tracked is in the list or has been closed. */
    ghost predicate Valid()
      reads this, set e | e in tracked :: e.conn
    {
      && (forall e :: e in tracked ==> e in connections || e.conn.closed)
      && (forall e :: e in connections ==> e in tracked)
    }

    constructor ()
      ensures Valid() && connections == [] && tracked == {}
    {
      connections, tracked := [], {};
    }

    method TrackConn(conn: Conn) returns (element: Element)
      requires Valid()
      modifies this
      ensures Valid() && fresh(element) && element.conn == conn
      ensures connections == old(connections) + [element] && tracked == old(tracked) + {element}
    {
      element := new Element(conn);
      connections, tracked := connections + [element], tracked + {element};
    }

    /** Closing a tracked connection: its own cell leaves the list, if it is still there. */
    method CloseTracked(element: Element)
      requires Valid() && element in tracked
      modifies this, element.conn
      ensures Valid() && element.conn.closed && tracked == old(tracked)
      ensures forall e :: e in connections <==> e in old(connections) && e != element
    {
      connections := Without(connections, element);
      element.conn.Close();
    }

    /** Empties the list and then closes what was in it: nothing ever tracked stays open. */
    method CloseAll()
      requires Valid()
      modifies this, set e | e in connections :: e.conn
      ensures Valid() && connections == [] && tracked == old(tracked)
      ensures forall e :: e in tracked ==> e.conn.closed
    {
      ghost var targets := set e | e in connections :: e.conn;
      var closers: seq<Conn> := [];
      while connections != []
        invariant tracked == old(tracked)
        invariant forall e :: e in tracked ==> e in connections || e.conn in closers || e.conn.closed
        invariant forall e :: e in connections ==> e in old(connections)
        invariant forall i :: 0 <= i < |closers| ==> closers[i] in targets
        decreases |connections|
      {
        closers := closers + [connections[0].conn];
        connections := connections[1..];
      }
      for i := 0 to |closers|
        invariant tracked == old(tracked) && connections == []
        invariant forall e :: e in tracked ==> e.conn in closers[i..] || e.conn.closed
      {
        closers[i].Close();
      }
    }
  }
}
