/**
 The per-question lock of the DNS client (dns/client.go): the first caller of a question stores a
 channel and leads; later callers wait on it until the leader has deleted its entry and closed it.
 Any number of calls are interleaved step by step.
 */
module SingleFlight {
  import opened Common

  type Question = nat
  type Channel = nat

  datatype Phase =
    | Idle
    | Waiting(channel: Channel)
    | Leading(channel: Channel)   // stored the channel, its deferred release still to come
    | Releasing(channel: Channel) // deleted the entry, about to close the channel
    | Working                     // was waiting, goes on without the lock
    | Finished

  /** `closes` logs every close of a channel; channels below `made` have been made. */
  datatype State = State(phases: seq<Phase>, locks: map<Question, Channel>, closes: seq<Channel>, made: Channel)

  datatype Event =
    | Enter(i: nat)
    | Wake(i: nat)
    | Cancel(i: nat)
    | DeleteEntry(i: nat)
    | CloseChannel(i: nat)
    | Leave(i: nat)

  function Init(questions: seq<Question>): (r: State)
  {
    State(seq(|questions|, _ => Idle), map[], [], 0)
  }

  predicate Enabled(questions: seq<Question>, s: State, e: Event)
  {
    && |s.phases| == |questions| && e.i < |s.phases|
    && match e
       case Enter(i) => s.phases[i].Idle?
       case Wake(i) => s.phases[i].Waiting? && s.phases[i].channel in s.closes
       case Cancel(i) => s.phases[i].Waiting?
       case DeleteEntry(i) => s.phases[i].Leading?
       case CloseChannel(i) => s.phases[i].Releasing?
       case Leave(i) => s.phases[i].Working?
  }

  function Next(questions: seq<Question>, s: State, e: Event): (r: State)
    requires Enabled(questions, s, e)
  {
    var q := questions[e.i];
    match e
    case Enter(i) => // LoadOrStore with a new channel
      if q in s.locks then s.(phases := s.phases[i := Waiting(s.locks[q])])
      else s.(phases := s.phases[i := Leading(s.made)], locks := s.locks[q := s.made], made := s.made + 1)
    case Wake(i) => s.(phases := s.phases[i := Working])
    case Cancel(i) => s.(phases := s.phases[i := Finished])
    case DeleteEntry(i) => // Delete by question, whatever channel is stored
      s.(phases := s.phases[i := Releasing(s.phases[i].channel)], locks := s.locks - {q})
    case CloseChannel(i) =>
      s.(phases := s.phases[i := Finished], closes := s.closes + [s.phases[i].channel])
    case Leave(i) => s.(phases := s.phases[i := Finished])
  }

  ghost predicate IsRun(questions: seq<Question>, states: seq<State>, events: seq<Event>)
  {
    && |states| == |events| + 1
    && states[0] == Init(questions)
    && forall k :: 0 <= k < |events| ==>
         Enabled(questions, states[k], events[k]) && states[k + 1] == Next(questions, states[k], events[k])
  }

  // ---------------------------------------------------------------------------------------------
  // What every interleaving keeps.
  // ---------------------------------------------------------------------------------------------

  predicate Owns(p: Phase, c: Channel)
  {
    p == Leading(c) || p == Releasing(c)
  }

  /** Some caller of question `q` owns channel `c` and has yet to close it. */
  ghost predicate Owned(questions: seq<Question>, s: State, q: Question, c: Channel)
  {
    exists j :: 0 <= j < |s.phases| && j < |questions| && questions[j] == q && Owns(s.phases[j], c)
  }

  /** The caller that stored `c` under `q` still leads. */
  ghost predicate Led(questions: seq<Question>, s: State, q: Question, c: Channel)
  {
    exists j :: 0 <= j < |s.phases| && j < |questions| && questions[j] == q && s.phases[j] == Leading(c)
  }

  /** Channel `c` was closed, or a caller still has to close it. */
  ghost predicate Accounted(s: State, c: Channel)
  {
    c in s.closes || exists j :: 0 <= j < |s.phases| && Owns(s.phases[j], c)
  }

  ghost predicate CallerInv(questions: seq<Question>, s: State, i: nat)
    requires |s.phases| == |questions| && i < |s.phases|
  {
    match s.phases[i]
    case Leading(c) => c < s.made && c !in s.closes && questions[i] in s.locks && s.locks[questions[i]] == c
    case Releasing(c) => c < s.made && c !in s.closes
    case Waiting(c) => c < s.made && (c in s.closes || Owned(questions, s, questions[i], c))
    case _ => true
  }

  ghost predicate OneOwner(s: State, i: nat, j: nat)
    requires i < |s.phases| && j < |s.phases|
  {
    forall c :: Owns(s.phases[i], c) && Owns(s.phases[j], c) ==> i == j
  }

  ghost predicate Inv(questions: seq<Question>, s: State)
  {
    && |s.phases| == |questions|
    && (forall i :: 0 <= i < |s.phases| ==> CallerInv(questions, s, i))
    && (forall i, j :: 0 <= i < |s.phases| && 0 <= j < |s.phases| ==> OneOwner(s, i, j))
    && (forall q :: q in s.locks ==> Led(questions, s, q, s.locks[q]))
    && Distinct(s.closes)
    && (forall c :: c in s.closes ==> c < s.made)
    && (forall c :: 0 <= c < s.made ==> Accounted(s, c))
  }

  /** A step of caller `i` leaves every other caller's phase alone. */
  ghost predicate OnlyMoves(s: State, s': State, i: nat)
  {
    && |s.phases| == |s'.phases| && i < |s.phases|
    && forall j :: 0 <= j < |s.phases| && j != i ==> s'.phases[j] == s.phases[j]
  }

  lemma {:induction false} OwnedCarries(questions: seq<Question>, s: State, s': State, i: nat, q: Question, c: Channel)
    requires |s.phases| == |questions| && OnlyMoves(s, s', i)
    requires Owned(questions, s, q, c) && (Owns(s.phases[i], c) ==> Owns(s'.phases[i], c))
    ensures Owned(questions, s', q, c)
  {
    var j :| 0 <= j < |s.phases| && j < |questions| && questions[j] == q && Owns(s.phases[j], c);
    assert Owns(s'.phases[j], c);
  }

  lemma {:induction false} AccountedCarries(s: State, s': State, i: nat, c: Channel)
    requires OnlyMoves(s, s', i) && Accounted(s, c)
    requires c in s.closes ==> c in s'.closes
    requires Owns(s.phases[i], c) ==> Owns(s'.phases[i], c) || c in s'.closes
    ensures Accounted(s', c)
  {
    if c !in s'.closes {
      var j :| 0 <= j < |s.phases| && Owns(s.phases[j], c);
      assert Owns(s'.phases[j], c);
    }
  }

  lemma {:induction false} LedCarries(questions: seq<Question>, s: State, s': State, i: nat, q: Question, c: Channel)
    requires |s.phases| == |questions| && OnlyMoves(s, s', i)
    requires Led(questions, s, q, c)
    requires questions[i] == q ==> s.phases[i] != Leading(c)
    ensures Led(questions, s', q, c)
  {
    var j :| 0 <= j < |s.phases| && j < |questions| && questions[j] == q && s.phases[j] == Leading(c);
    assert s'.phases[j] == Leading(c);
  }

  lemma {:induction false} LedIsOwned(questions: seq<Question>, s: State, q: Question, c: Channel)
    requires Led(questions, s, q, c)
    ensures Owned(questions, s, q, c)
  {
    var j :| 0 <= j < |s.phases| && j < |questions| && questions[j] == q && s.phases[j] == Leading(c);
    assert Owns(s.phases[j], c);
  }

  lemma {:induction false} InitInv(questions: seq<Question>)
    ensures Inv(questions, Init(questions))
  {
  }

  /** The caller that moves keeps its own part of the invariant. */
  lemma {:induction false} MoverKeepsInv(questions: seq<Question>, s: State, e: Event)
    requires Inv(questions, s) && Enabled(questions, s, e)
    ensures CallerInv(questions, Next(questions, s, e), e.i)
  {
    hide Distinct;
    var s' := Next(questions, s, e);
    var q := questions[e.i];
    assert CallerInv(questions, s, e.i);
    if e.Enter? && q in s.locks {
      LedIsOwned(questions, s, q, s.locks[q]);
      var j :| 0 <= j < |s.phases| && j < |questions| && questions[j] == q && s.phases[j] == Leading(s.locks[q]);
      assert CallerInv(questions, s, j);
      OwnedCarries(questions, s, s', e.i, q, s.locks[q]);
    }
  }

  lemma {:induction false} OthersKeepInv(questions: seq<Question>, s: State, e: Event, j: nat)
    requires Inv(questions, s) && Enabled(questions, s, e) && j < |s.phases| && j != e.i
    ensures CallerInv(questions, Next(questions, s, e), j)
  {
    hide Distinct;
    var s' := Next(questions, s, e);
    assert OnlyMoves(s, s', e.i) && CallerInv(questions, s, j) && CallerInv(questions, s, e.i);
    assert OneOwner(s, e.i, j);
    if s.phases[j].Waiting? && s.phases[j].channel !in s'.closes {
      OwnedCarries(questions, s, s', e.i, questions[j], s.phases[j].channel);
    } else if s.phases[j].Leading? && (e.DeleteEntry? || e.CloseChannel?) {
      assert Owns(s.phases[j], s.phases[j].channel) && Owns(s.phases[e.i], s.phases[e.i].channel);
    } else if s.phases[j].Releasing? && e.CloseChannel? {
      assert Owns(s.phases[j], s.phases[j].channel) && Owns(s.phases[e.i], s.phases[e.i].channel);
    }
  }

  lemma {:induction false} OwnersStayApart(questions: seq<Question>, s: State, e: Event, j: nat, k: nat)
    requires Inv(questions, s) && Enabled(questions, s, e) && j < |s.phases| && k < |s.phases|
    ensures OneOwner(Next(questions, s, e), j, k)
  {
    hide Distinct, Owned, Led, Accounted;
    assert OneOwner(s, j, k) && CallerInv(questions, s, j) && CallerInv(questions, s, k);
  }

  lemma {:induction false} TableStaysLed(questions: seq<Question>, s: State, e: Event, q: Question)
    requires Inv(questions, s) && Enabled(questions, s, e) && q in Next(questions, s, e).locks
    ensures Led(questions, Next(questions, s, e), q, Next(questions, s, e).locks[q])
  {
    hide Distinct, Owned, Accounted, OneOwner;
    var s' := Next(questions, s, e);
    assert OnlyMoves(s, s', e.i) && CallerInv(questions, s, e.i);
    if e.Enter? && q !in s.locks {
      assert questions[e.i] == q && s'.phases[e.i] == Leading(s'.locks[q]);
    } else {
      LedCarries(questions, s, s', e.i, q, s.locks[q]);
    }
  }

  lemma {:induction false} ChannelsStayAccounted(questions: seq<Question>, s: State, e: Event, c: Channel)
    requires Inv(questions, s) && Enabled(questions, s, e) && c < Next(questions, s, e).made
    ensures Accounted(Next(questions, s, e), c)
  {
    hide Distinct, Owned, Led, OneOwner;
    var s' := Next(questions, s, e);
    if c == s.made {
      assert Owns(s'.phases[e.i], c);
    } else {
      AccountedCarries(s, s', e.i, c);
    }
  }

  lemma {:induction false} ClosesStayDistinct(questions: seq<Question>, s: State, e: Event)
    requires Inv(questions, s) && Enabled(questions, s, e)
    ensures Distinct(Next(questions, s, e).closes)
    ensures forall c :: c in Next(questions, s, e).closes ==> c < Next(questions, s, e).made
  {
    assert CallerInv(questions, s, e.i);
    if e.CloseChannel? {
      DistinctPush(s.closes, s.phases[e.i].channel);
    }
  }

  lemma {:induction false} StepKeepsInv(questions: seq<Question>, s: State, e: Event)
    requires Inv(questions, s) && Enabled(questions, s, e)
    ensures Inv(questions, Next(questions, s, e))
  {
    var s' := Next(questions, s, e);
    forall i | 0 <= i < |s'.phases|
      ensures CallerInv(questions, s', i)
    {
      if i == e.i {
        MoverKeepsInv(questions, s, e);
      } else {
        OthersKeepInv(questions, s, e, i);
      }
    }
    forall i, j | 0 <= i < |s'.phases| && 0 <= j < |s'.phases|
      ensures OneOwner(s', i, j)
    {
      OwnersStayApart(questions, s, e, i, j);
    }
    forall q | q in s'.locks
      ensures Led(questions, s', q, s'.locks[q])
    {
      TableStaysLed(questions, s, e, q);
    }
    forall c | 0 <= c < s'.made
      ensures Accounted(s', c)
    {
      ChannelsStayAccounted(questions, s, e, c);
    }
    ClosesStayDistinct(questions, s, e);
  }

  lemma {:induction false} RunKeepsInv(questions: seq<Question>, states: seq<State>, events: seq<Event>, k: nat)
    requires IsRun(questions, states, events) && k < |states|
    ensures Inv(questions, states[k])
    decreases k
  {
    if k == 0 {
      InitInv(questions);
    } else {
      RunKeepsInv(questions, states, events, k - 1);
      StepKeepsInv(questions, states[k - 1], events[k - 1]);
    }
  }

  // ---------------------------------------------------------------------------------------------
  // What the lock promises its callers.
  // ---------------------------------------------------------------------------------------------

  /** In every state of every run, a question has at most one leader. */
  lemma {:induction false} OneLeader(questions: seq<Question>, states: seq<State>, events: seq<Event>, k: nat, i: nat,
                                     j: nat)
    requires IsRun(questions, states, events) && k < |states|
    requires i < |states[k].phases| && j < |states[k].phases| && |states[k].phases| == |questions|
    requires states[k].phases[i].Leading? && states[k].phases[j].Leading? && questions[i] == questions[j]
    ensures i == j
  {
    RunKeepsInv(questions, states, events, k);
    var s := states[k];
    assert CallerInv(questions, s, i) && CallerInv(questions, s, j) && OneOwner(s, i, j);
    assert Owns(s.phases[i], s.phases[i].channel) && Owns(s.phases[j], s.phases[i].channel);
  }

  /** A leader that deletes the entry of its question removes its own channel and no other entry. */
  lemma {:induction false} LeaderDeletesItsOwn(questions: seq<Question>, states: seq<State>, events: seq<Event>, k: nat)
    requires IsRun(questions, states, events) && k < |events| && events[k].DeleteEntry?
    ensures var i := events[k].i;
      && i < |questions| == |states[k].phases| && states[k].phases[i].Leading?
      && questions[i] in states[k].locks && states[k].locks[questions[i]] == states[k].phases[i].channel
      && states[k + 1].locks == states[k].locks - {questions[i]}
  {
    RunKeepsInv(questions, states, events, k);
    assert CallerInv(questions, states[k], events[k].i);
  }

  /** No channel is closed twice (a second close would panic), whatever the interleaving. */
  lemma {:induction false} CloseHitsOpenChannel(questions: seq<Question>, states: seq<State>, events: seq<Event>,
                                                k: nat)
    requires IsRun(questions, states, events) && k < |events| && events[k].CloseChannel?
    ensures var i := events[k].i;
      && i < |states[k].phases| && states[k].phases[i].Releasing?
      && states[k].phases[i].channel !in states[k].closes
      && Distinct(states[k + 1].closes)
  {
    RunKeepsInv(questions, states, events, k);
    RunKeepsInv(questions, states, events, k + 1);
    assert CallerInv(questions, states[k], events[k].i);
  }

  /** A waiter's channel is closed, or a caller of the same question still has to close it. */
  lemma {:induction false} WaiterIsServed(questions: seq<Question>, states: seq<State>, events: seq<Event>, k: nat,
                                          i: nat)
    requires IsRun(questions, states, events) && k < |states|
    requires i < |states[k].phases| && states[k].phases[i].Waiting?
    ensures i < |questions|
    ensures states[k].phases[i].channel in states[k].closes
         || Owned(questions, states[k], questions[i], states[k].phases[i].channel)
  {
    RunKeepsInv(questions, states, events, k);
    assert CallerInv(questions, states[k], i);
  }

  /** The entry of question `q`, if there is one. */
  function Entry(s: State, q: Question): (r: Option<Channel>)
  {
    if q in s.locks then Some(s.locks[q]) else None
  }

  /** What caller `i` found in the table when it entered, if it has entered. */
  ghost function Found(questions: seq<Question>, states: seq<State>, events: seq<Event>, k: nat, i: nat)
    : (r: Option<Option<Channel>>)
    requires k <= |events| < |states| && i < |questions|
  {
    if k == 0 then None
    else if events[k - 1] == Enter(i) then Some(Entry(states[k - 1], questions[i]))
    else Found(questions, states, events, k - 1, i)
  }

  /** The event ends the call. */
  predicate Ends(e: Event, i: nat)
  {
    e == CloseChannel(i) || e == Leave(i) || e == Cancel(i)
  }

  predicate History(s: State, i: nat, found: Option<Option<Channel>>, ended: bool)
    requires i < |s.phases|
  {
    match s.phases[i]
    case Idle => found == None && !ended
    case Waiting(c) => found == Some(Some(c)) && !ended
    case Leading(_) => found == Some(None) && !ended
    case Releasing(_) => found == Some(None) && !ended
    case Working => found.Some? && found.value.Some? && found.value.value in s.closes && !ended
    case Finished => found.Some? && ended
  }

  lemma {:induction false} StepTellsHistory(questions: seq<Question>, s: State, e: Event, i: nat,
                                            found: Option<Option<Channel>>, ended: bool)
    requires Enabled(questions, s, e) && i < |questions| && History(s, i, found, ended)
    ensures History(Next(questions, s, e), i, if e == Enter(i) then Some(Entry(s, questions[i])) else found,
                    ended || Ends(e, i))
  {
  }

  /**
   A caller leads exactly if it found no entry when it entered, and waits on the entry it found; it goes
   on without the lock only once that channel was closed; it finishes exactly by closing its own
   channel, by leaving after such a wait, or by giving up waiting.
   */
  lemma {:induction false} PhaseTellsHistory(questions: seq<Question>, states: seq<State>, events: seq<Event>, k: nat,
                                             i: nat)
    requires IsRun(questions, states, events) && k <= |events| && i < |questions|
    ensures |states[k].phases| == |questions|
    ensures History(states[k], i, Found(questions, states, events, k, i),
                    CloseChannel(i) in events[..k] || Leave(i) in events[..k] || Cancel(i) in events[..k])
    decreases k
  {
    if k > 0 {
      PhaseTellsHistory(questions, states, events, k - 1, i);
      var e, front := events[k - 1], events[..k - 1];
      assert Enabled(questions, states[k - 1], e) && states[k] == Next(questions, states[k - 1], e);
      assert events[..k] == front + [e];
      assert |states[k].phases| == |questions|;
      hide IsRun, Enabled, Next, History;
      StepTellsHistory(questions, states[k - 1], e, i, Found(questions, states, events, k - 1, i),
                       CloseChannel(i) in front || Leave(i) in front || Cancel(i) in front);
    }
  }

  // ---------------------------------------------------------------------------------------------
  // Progress: runs are short, and a run that can go no further has served everybody.
  // ---------------------------------------------------------------------------------------------

  function Weight(p: Phase): (w: nat)
  {
    match p
    case Idle => 3
    case Waiting(_) => 2
    case Leading(_) => 2
    case Releasing(_) => 1
    case Working => 1
    case Finished => 0
  }

  /** No run of `n` calls has more than `3n` steps. */
  lemma {:induction false} RunIsShort(questions: seq<Question>, states: seq<State>, events: seq<Event>, k: nat)
    requires IsRun(questions, states, events) && k <= |events|
    ensures Total(Weight, states[k].phases) + k <= 3 * |questions|
    decreases k
  {
    if k == 0 {
      TotalBound(Weight, states[0].phases, 3);
    } else {
      RunIsShort(questions, states, events, k - 1);
      var e := events[k - 1];
      TotalOfUpdate(Weight, states[k - 1].phases, e.i, states[k].phases[e.i]);
      assert states[k].phases == states[k - 1].phases[e.i := states[k].phases[e.i]];
    }
  }

  /** Until every call has finished, some step other than a cancellation can be taken. */
  lemma {:induction false} NobodyIsStuck(questions: seq<Question>, s: State, i: nat) returns (e: Event)
    requires Inv(questions, s) && i < |s.phases| && !s.phases[i].Finished?
    ensures Enabled(questions, s, e) && !e.Cancel?
  {
    match s.phases[i]
    case Idle => e := Enter(i);
    case Leading(_) => e := DeleteEntry(i);
    case Releasing(_) => e := CloseChannel(i);
    case Working => e := Leave(i);
    case Waiting(c) =>
      assert CallerInv(questions, s, i);
      if c in s.closes {
        e := Wake(i);
      } else {
        var j :| 0 <= j < |s.phases| && j < |questions| && questions[j] == questions[i] && Owns(s.phases[j], c);
        e := if s.phases[j].Leading? then DeleteEntry(j) else CloseChannel(j);
      }
  }

  lemma {:induction false} EntryHasLeader(questions: seq<Question>, s: State, q: Question) returns (j: nat)
    requires Inv(questions, s) && q in s.locks
    ensures j < |s.phases| && s.phases[j] == Leading(s.locks[q])
  {
    j :| 0 <= j < |s.phases| && j < |questions| && questions[j] == q && s.phases[j] == Leading(s.locks[q]);
  }

  /**
   A run in which nothing but a cancellation could happen next has finished every call, without
   any cancellation being needed; the lock table is empty and every channel that was ever stored was
   closed exactly once.
   */
  lemma {:induction false} EveryRunServesEverybody(questions: seq<Question>, states: seq<State>, events: seq<Event>)
    requires IsRun(questions, states, events)
    requires forall e: Event :: Enabled(questions, states[|events|], e) ==> e.Cancel?
    ensures |events| <= 3 * |questions|
    ensures |states[|events|].phases| == |questions|
    ensures forall i :: 0 <= i < |questions| ==> states[|events|].phases[i].Finished?
    ensures states[|events|].locks == map[]
    ensures Distinct(states[|events|].closes)
    ensures forall c: nat :: c in states[|events|].closes <==> c < states[|events|].made
  {
    var s := states[|events|];
    RunKeepsInv(questions, states, events, |events|);
    RunIsShort(questions, states, events, |events|);
    forall i | 0 <= i < |questions|
      ensures s.phases[i].Finished?
    {
      if !s.phases[i].Finished? {
        var e := NobodyIsStuck(questions, s, i);
      }
    }
    forall c | 0 <= c < s.made
      ensures c in s.closes
    {
      assert Accounted(s, c);
    }
    if q :| q in s.locks {
      var leader := EntryHasLeader(questions, s, q);
    }
  }
}
