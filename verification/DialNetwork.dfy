/**
 Dialing several destination addresses (common/dialer/default_parallel_network.go): serially, or as a
 race between the IPv4 and the IPv6 addresses, each family dialed serially by one racer.
 */
module DialNetwork {
  import opened Common
  import opened DialRace

  /** What netip.Addr distinguishes; an IPv4-mapped IPv6 address counts as both Is6 and Is4In6. */
  datatype Address = IPv4(id: nat) | IPv4In6(id: nat) | IPv6(id: nat) | Zero {
    predicate InFamily4() { IPv4? || IPv4In6? }
    predicate InFamily6() { IPv6? }
    predicate IsValid() { !Zero? }
  }

  function Filter(addresses: seq<Address>, keep: Address -> bool): (r: seq<Address>)
  {
    if addresses == [] then []
    else
      var front, last := addresses[..|addresses| - 1], addresses[|addresses| - 1];
      if keep(last) then Filter(front, keep) + [last] else Filter(front, keep)
  }

  const FAMILY_4 := (a: Address) => a.InFamily4()
  const FAMILY_6 := (a: Address) => a.InFamily6()
  const VALID := (a: Address) => a.IsValid()

  /** Every valid address falls in exactly one family, as often as it is listed. */
  lemma {:induction false} FamiliesPartition(addresses: seq<Address>)
    ensures multiset(Filter(addresses, FAMILY_4)) + multiset(Filter(addresses, FAMILY_6))
         == multiset(Filter(addresses, VALID))
    decreases |addresses|
  {
    if addresses != [] {
      FamiliesPartition(addresses[..|addresses| - 1]);
    }
  }

  datatype Serial = Serial(winner: Option<nat>, attempts: seq<Address>)

  /** `s` is the outcome of dialing the addresses one by one until one answers. */
  ghost predicate IsSerial(addresses: seq<Address>, answers: nat -> bool, s: Serial)
  {
    match s.winner
    case Some(k) =>
      k < |addresses| && answers(k) && (forall j: nat :: j < k ==> !answers(j)) && s.attempts == addresses[..k + 1]
    case None =>
      s.attempts == addresses && forall j: nat :: j < |addresses| ==> !answers(j)
  }

  datatype Failure = AllFailed(errors: nat) | InvalidUsage

  /** DialSerialNetwork; `answers(k)` is the outcome of the k-th dial. A domain without addresses panics. */
  method DialSerial(destination: Option<Address>, listed: seq<Address>, answers: nat -> bool)
    returns (r: Result<nat, Failure>, s: Serial)
    ensures listed == [] && destination == None ==> r == Err(InvalidUsage)
    ensures !(listed == [] && destination == None) ==>
      var addresses := if listed == [] then [destination.value] else listed;
      && IsSerial(addresses, answers, s)
      && r == match s.winner case Some(k) => Ok(k) case None => Err(AllFailed(|addresses|))
  {
    var addresses := listed;
    if addresses == [] {
      if destination == None {
        return Err(InvalidUsage), Serial(None, []);
      }
      addresses := [destination.value];
    }
    var attempts: seq<Address> := [];
    for i := 0 to |addresses|
      invariant attempts == addresses[..i]
      invariant forall j: nat :: j < i ==> !answers(j)
    {
      attempts := attempts + [addresses[i]];
      if answers(i) {
        return Ok(i), Serial(Some(i), attempts);
      }
    }
    r, s := Err(AllFailed(|addresses|)), Serial(None, attempts);
  }

  // ---------------------------------------------------------------------------------------------
  // The race of the two families: racer 0 dials the preferred one, racer 1 the other.
  // ---------------------------------------------------------------------------------------------

  const FAMILIES := Race(1, 1, false)

  function Group(addresses: seq<Address>, preferIPv6: bool, racer: nat): (r: seq<Address>)
  {
    Filter(addresses, if (racer == 0) == preferIPv6 then FAMILY_6 else FAMILY_4)
  }

  /** The first racer dials IPv6 if that is preferred and IPv4 if not; the second racer dials the other. */
  lemma {:induction false} RacerDialsItsFamily(addresses: seq<Address>, a: Address)
    ensures a in Group(addresses, true, 0) <==> a in addresses && a.IPv6?
    ensures a in Group(addresses, true, 1) <==> a in addresses && (a.IPv4? || a.IPv4In6?)
    ensures a in Group(addresses, false, 0) <==> a in addresses && (a.IPv4? || a.IPv4In6?)
    ensures a in Group(addresses, false, 1) <==> a in addresses && a.IPv6?
  {
    FilterPicks(addresses, FAMILY_4, a);
    FilterPicks(addresses, FAMILY_6, a);
  }

  lemma {:induction false} FilterPicks(addresses: seq<Address>, keep: Address -> bool, a: Address)
    ensures a in Filter(addresses, keep) <==> a in addresses && keep(a)
    decreases |addresses|
  {
    if addresses != [] {
      FilterPicks(addresses[..|addresses| - 1], keep, a);
    }
  }

  /** A family keeps the order of the list: what is listed earlier is dialed earlier. */
  lemma {:induction false} FamilyKeepsOrder(earlier: seq<Address>, later: seq<Address>, preferIPv6: bool, racer: nat)
    ensures Group(earlier + later, preferIPv6, racer)
         == Group(earlier, preferIPv6, racer) + Group(later, preferIPv6, racer)
    decreases |later|
  {
    if later == [] {
      assert earlier + later == earlier;
    } else {
      var front := later[..|later| - 1];
      FamilyKeepsOrder(earlier, front, preferIPv6, racer);
      assert (earlier + later)[..|earlier + later| - 1] == earlier + front;
    }
  }

  /** A run of the race in which each racer ends as its serial dial did. */
  ghost predicate IsFamilyRun(states: seq<State>, events: seq<Event>, dials: seq<Serial>)
  {
    && IsRun(FAMILIES, states, events)
    && |dials| == 2
    && forall k :: 0 <= k < |events| && events[k].DialEnds? ==>
         events[k].i < 2 && (events[k].success <==> dials[events[k].i].winner.Some?)
  }

  lemma {:induction false} FailureWasDialed(states: seq<State>, events: seq<Event>, dials: seq<Serial>, k: nat, i: nat)
    requires IsFamilyRun(states, events, dials) && k <= |events| && i < 2
    ensures |states[k].racers| == 2
    ensures states[k].racers[i].Failed? || states[k].racers[i] == Delivered(false) ==> dials[i].winner.None?
    decreases k
  {
    if k > 0 {
      FailureWasDialed(states, events, dials, k - 1, i);
      assert Enabled(FAMILIES, states[k - 1], events[k - 1]);
    }
  }

  /** In the race of the families an error comes only after both dialed every valid address. */
  lemma {:induction false} RaceTriesEveryAddress(addresses: seq<Address>, preferIPv6: bool, answers: seq<nat -> bool>,
                                              states: seq<State>, events: seq<Event>, dials: seq<Serial>)
    requires IsFamilyRun(states, events, dials) && |answers| == 2
    requires forall i :: 0 <= i < 2 ==> IsSerial(Group(addresses, preferIPv6, i), answers[i], dials[i])
    requires states[|events|].receiver.ReturnedErrors?
    ensures multiset(dials[0].attempts) + multiset(dials[1].attempts) == multiset(Filter(addresses, VALID))
    ensures Launches(events) == 1
  {
    var s := states[|events|];
    RunKeepsInv(FAMILIES, states, events, |events|);
    DistinctBelow(s.errors, 2);
    assert RacerInv(FAMILIES, s, 0) && RacerInv(FAMILIES, s, 1);
    FailureWasDialed(states, events, dials, |events|, 0);
    FailureWasDialed(states, events, dials, |events|, 1);
    FamiliesPartition(addresses);
    LaunchedBeforeError(states, events, |events|);
    FallbacksLaunchOnce(FAMILIES, states, events, |events|);
    assert events[..|events|] == events;
  }

  /** The second family cannot have failed before the timer let it start. */
  lemma {:induction false} LaunchedBeforeError(states: seq<State>, events: seq<Event>, k: nat)
    requires IsRun(FAMILIES, states, events) && k <= |events|
    ensures |states[k].racers| == 2 && (states[k].racers[1].Waiting? || states[k].timer.Consumed?)
    decreases k
  {
    if k > 0 {
      LaunchedBeforeError(states, events, k - 1);
      assert Enabled(FAMILIES, states[k - 1], events[k - 1]);
    }
  }

  // ---------------------------------------------------------------------------------------------
  // DialParallelNetwork as a whole.
  // ---------------------------------------------------------------------------------------------

  /** What happened: with one family only the addresses are dialed serially, as they are listed. */
  datatype Dialing =
    | Alone(dial: Serial)
    | Raced(states: seq<State>, events: seq<Event>, dials: seq<Serial>)

  ghost predicate IsParallelDial(addresses: seq<Address>, preferIPv6: bool, answers: seq<nat -> bool>, d: Dialing)
  {
    && |answers| == 2
    && match d
       case Alone(dial) =>
         && (Filter(addresses, FAMILY_4) == [] || Filter(addresses, FAMILY_6) == [])
         && IsSerial(addresses, answers[0], dial)
       case Raced(states, events, dials) =>
         && Filter(addresses, FAMILY_4) != [] && Filter(addresses, FAMILY_6) != []
         && IsFamilyRun(states, events, dials)
         && forall i :: 0 <= i < 2 ==> IsSerial(Group(addresses, preferIPv6, i), answers[i], dials[i])
  }

  ghost predicate EndsInError(d: Dialing)
  {
    match d
    case Alone(dial) => dial.winner.None?
    case Raced(states, events, _) => 0 <= |events| < |states| && states[|events|].receiver.ReturnedErrors?
  }

  ghost function Attempts(d: Dialing): (r: multiset<Address>)
  {
    match d
    case Alone(dial) => multiset(dial.attempts)
    case Raced(_, _, dials) =>
      if |dials| == 2 then multiset(dials[0].attempts) + multiset(dials[1].attempts) else multiset{}
  }

  lemma {:induction false} FilterCounts(addresses: seq<Address>, keep: Address -> bool, a: Address)
    requires keep(a)
    ensures multiset(Filter(addresses, keep))[a] == multiset(addresses)[a]
    decreases |addresses|
  {
    if addresses != [] {
      FilterCounts(addresses[..|addresses| - 1], keep, a);
      assert addresses == addresses[..|addresses| - 1] + [addresses[|addresses| - 1]];
    }
  }

  /**
   DialParallelNetwork returns an error only after every valid address was dialed, each exactly as
   often as it was listed, whether the families raced or one of them was empty.
   */
  lemma {:induction false} ErrorMeansEveryAddressTried(addresses: seq<Address>, preferIPv6: bool,
                                                       answers: seq<nat -> bool>,
                                                       d: Dialing, a: Address)
    requires IsParallelDial(addresses, preferIPv6, answers, d) && EndsInError(d) && a.IsValid()
    ensures Attempts(d)[a] == multiset(addresses)[a]
  {
    if d.Raced? {
      RaceTriesEveryAddress(addresses, preferIPv6, answers, d.states, d.events, d.dials);
      FilterCounts(addresses, VALID, a);
    }
  }
}
