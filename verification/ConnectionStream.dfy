/**
 The connection event stream (daemon/started_service.go): the server keeps one snapshot per open
 connection and sends NEW, UPDATE and CLOSED events; the client (experimental/libbox) replays them.
 */
module ConnectionStream {
  import opened Common

  /** Connection identifiers are only compared. */
  type Id = int

  /** Milliseconds since 1970 of a moment that is not the zero time. */
  type Millis = x: int | x > 0 witness 1

  datatype Counters = Counters(up: int, down: int)

  datatype Snapshot = Snapshot(counters: Counters, hadTraffic: bool)

  type Snapshots = map<Id, Snapshot>

  /** The part of a Connection message that the stream maintains; `closedAt` 0 means open. */
  datatype Connection = Connection(speed: Counters, total: Counters, closedAt: int)

  type Client = map<Id, Connection>

  /** A live connection as one frozen reading of the traffic manager shows it. */
  datatype Live = Live(id: Id, counters: Counters)

  datatype Event =
    | New(id: Id, connection: Connection)
    | Update(id: Id, delta: Counters)
    | Closed(id: Id, closedAt: Millis, final: Option<Connection>)

  /** A hook event of the traffic manager, possibly stale: any counters, any times. */
  datatype Hook =
    | HookNew(id: Id, counters: Counters)
    | HookClosed(id: Id, closedAt: Option<Millis>, metadata: Option<ClosedMetadata>)
    | HookOther

  datatype ClosedMetadata = ClosedMetadata(counters: Counters, closedAt: Option<Millis>)

  const ZERO := Counters(0, 0)

  function Minus(a: Counters, b: Counters): (r: Counters) { Counters(a.up - b.up, a.down - b.down) }

  function Plus(a: Counters, b: Counters): (r: Counters) { Counters(a.up + b.up, a.down + b.down) }

  predicate Decreased(before: Counters, now: Counters) { now.up < before.up || now.down < before.down }

  // ---------------------------------------------------------------------------------------------
  // The client.
  // ---------------------------------------------------------------------------------------------

  function Apply(client: Client, e: Event): (r: Client)
  {
    match e
    case New(id, connection) => client[id := connection]
    case Update(id, delta) =>
      if id in client
      then client[id := client[id].(speed := delta, total := Plus(client[id].total, delta))]
      else client
    case Closed(id, closedAt, Some(connection)) =>
      client[id := connection.(closedAt := closedAt, speed := ZERO)]
    case Closed(id, closedAt, None) =>
      if id in client then client[id := client[id].(closedAt := closedAt, speed := ZERO)] else client
  }

  function Replay(client: Client, events: seq<Event>): (r: Client)
  {
    if events == [] then client
    else Apply(Replay(client, events[..|events| - 1]), events[|events| - 1])
  }

  /** Closed connections are dropped five minutes after they closed. */
  function Evict(client: Client, now: int): (r: Client)
  {
    map id | id in client && !(client[id].closedAt != 0 && now - client[id].closedAt > 300_000) :: client[id]
  }

  predicate IsOpen(client: Client, id: Id)
  {
    id in client && client[id].closedAt == 0
  }

  // ---------------------------------------------------------------------------------------------
  // One tick, connection by connection.
  // ---------------------------------------------------------------------------------------------

  function Opened(counters: Counters): (r: Connection) { Connection(ZERO, counters, 0) }

  function TickSnapshot(snapshots: Snapshots, id: Id, now: Counters): (r: Snapshot)
  {
    if id !in snapshots then Snapshot(now, false)
    else
      var before := snapshots[id];
      if Decreased(before.counters, now) then Snapshot(now, false)
      else if Minus(now, before.counters) != ZERO then Snapshot(now, true)
      else Snapshot(now, false)
  }

  function TickEvent(snapshots: Snapshots, id: Id, now: Counters): (r: Option<Event>)
    ensures r.Some? ==> r.value.id == id
  {
    if id !in snapshots then Some(New(id, Opened(now)))
    else
      var before := snapshots[id];
      if Decreased(before.counters, now) then
        if before.hadTraffic then Some(Update(id, ZERO)) else None
      else if Minus(now, before.counters) != ZERO then Some(Update(id, Minus(now, before.counters)))
      else if before.hadTraffic then Some(Update(id, ZERO))
      else None
  }

  function CloseEvent(id: Id, closed: map<Id, ClosedMetadata>, now: Millis): (r: Event)
    ensures r.Closed? && r.id == id
  {
    if id in closed then
      var at := if closed[id].closedAt.Some? then closed[id].closedAt.value else now;
      Closed(id, at, Some(Opened(closed[id].counters).(closedAt := at)))
    else Closed(id, now, None)
  }

  /** The event a tick sends about `id`, if any. */
  function Wanted(snapshots: Snapshots, live: map<Id, Counters>, closed: map<Id, ClosedMetadata>,
                  now: Millis, id: Id): (r: Option<Event>)
    ensures r.Some? ==> r.value.id == id
  {
    if id in live then TickEvent(snapshots, id, live[id])
    else if id in snapshots then Some(CloseEvent(id, closed, now))
    else None
  }

  /** The live connections by identifier. */
  function Table(live: seq<Live>): (r: map<Id, Counters>)
  {
    if live == [] then map[]
    else Table(live[..|live| - 1])[live[|live| - 1].id := live[|live| - 1].counters]
  }

  ghost predicate DistinctIds(live: seq<Live>)
  {
    live == [] || (live[|live| - 1].id !in Table(live[..|live| - 1]) && DistinctIds(live[..|live| - 1]))
  }

  /** The first loop of a tick, over the live connections in the order they were listed. */
  function TickLive(snapshots: Snapshots, live: seq<Live>): (r: (Snapshots, seq<Event>))
  {
    if live == [] then (snapshots, [])
    else
      var (s, events) := TickLive(snapshots, live[..|live| - 1]);
      var Live(id, now) := live[|live| - 1];
      (s[id := TickSnapshot(s, id, now)], events + Sending(TickEvent(s, id, now)))
  }

  function Sending(e: Option<Event>): (r: seq<Event>)
  {
    if e.Some? then [e.value] else []
  }

  /** The second loop, over the snapshot keys in the order the map iteration yields them. */
  function CloseGone(snapshots: Snapshots, sent: seq<Event>, order: seq<Id>, live: map<Id, Counters>,
                     closed: map<Id, ClosedMetadata>, now: Millis): (r: (Snapshots, seq<Event>))
  {
    if order == [] then (snapshots, sent)
    else
      var (s, events) := CloseGone(snapshots, sent, order[..|order| - 1], live, closed, now);
      var id := order[|order| - 1];
      if id in live then (s, events) else (s - {id}, events + [CloseEvent(id, closed, now)])
  }

  // ---------------------------------------------------------------------------------------------
  // The server.
  // ---------------------------------------------------------------------------------------------

  function AfterHook(snapshots: Snapshots, hook: Hook): (r: Snapshots)
  {
    match hook
    case HookNew(id, counters) => if id in snapshots then snapshots else snapshots[id := Snapshot(counters, false)]
    case HookClosed(id, _, _) => snapshots - {id}
    case HookOther => snapshots
  }

  function HookEvent(snapshots: Snapshots, hook: Hook, now: Millis): (r: Option<Event>)
  {
    match hook
    case HookNew(id, counters) => if id in snapshots then None else Some(New(id, Opened(counters)))
    case HookClosed(id, closedAt, metadata) =>
      var at := if closedAt.Some? then closedAt.value
                else if metadata.Some? && metadata.value.closedAt.Some? then metadata.value.closedAt.value
                else now;
      Some(Closed(id, at, if metadata.Some? then Some(Opened(metadata.value.counters).(closedAt := at)) else None))
    case HookOther => None
  }

  function FirstSnapshots(live: seq<Live>): (r: Snapshots)
  {
    if live == [] then map[]
    else FirstSnapshots(live[..|live| - 1])[live[|live| - 1].id := Snapshot(live[|live| - 1].counters, false)]
  }

  /** A closed connection the manager still remembers. */
  datatype Past = Past(id: Id, counters: Counters, closedAt: Millis)

  function FirstEvents(live: seq<Live>, past: seq<Past>): (r: seq<Event>)
  {
    seq(|live|, i requires 0 <= i < |live| => New(live[i].id, Opened(live[i].counters)))
    + seq(|past|, i requires 0 <= i < |past| =>
        New(past[i].id, Opened(past[i].counters).(closedAt := past[i].closedAt)))
  }

  class Server {
    var snapshots: Snapshots

    constructor ()
      ensures snapshots == map[]
    {
      snapshots := map[];
    }

    /** The first message of a subscription: every live connection, then every remembered closed one. */
    method BuildInitial(live: seq<Live>, past: seq<Past>) returns (events: seq<Event>)
      requires snapshots == map[]
      modifies this
      ensures snapshots == FirstSnapshots(live)
      ensures events == FirstEvents(live, past)
    {
      events := [];
      for i := 0 to |live|
        invariant snapshots == FirstSnapshots(live[..i])
        invariant events == FirstEvents(live[..i], [])
      {
        assert live[..i + 1][..i] == live[..i];
        events := events + [New(live[i].id, Opened(live[i].counters))];
        snapshots := snapshots[live[i].id := Snapshot(live[i].counters, false)];
      }
      assert live[..|live|] == live;
      for i := 0 to |past|
        invariant events == FirstEvents(live, past[..i])
      {
        events := events + [New(past[i].id, Opened(past[i].counters).(closedAt := past[i].closedAt))];
      }
      assert past[..|past|] == past;
    }

    method ApplyHook(hook: Hook, now: Millis) returns (event: Option<Event>)
      modifies this
      ensures snapshots == AfterHook(old(snapshots), hook)
      ensures event == HookEvent(old(snapshots), hook, now)
    {
      match hook
      case HookNew(id, counters) =>
        if id in snapshots {
          return None;
        }
        snapshots := snapshots[id := Snapshot(counters, false)];
        event := Some(New(id, Opened(counters)));
      case HookClosed(id, closedAt, metadata) =>
        snapshots := snapshots - {id};
        var at: Millis := now;
        if closedAt.Some? {
          at := closedAt.value;
        } else if metadata.Some? && metadata.value.closedAt.Some? {
          at := metadata.value.closedAt.value;
        }
        var final := None;
        if metadata.Some? {
          final := Some(Opened(metadata.value.counters).(closedAt := at));
        }
        event := Some(Closed(id, at, final));
      case HookOther =>
        event := None;
    }

    /**
     One tick: compares every live connection with its snapshot, then closes what is no longer live.
     `order` is the order in which the map iteration meets the snapshot keys.
     */
    method BuildTrafficUpdates(live: seq<Live>, closed: map<Id, ClosedMetadata>, now: Millis, order: seq<Id>)
      returns (events: seq<Event>)
      requires DistinctIds(live)
      requires Distinct(order) && forall id :: id in order <==> id in snapshots || id in Table(live)
      modifies this
      ensures snapshots == AfterTick(old(snapshots), Table(live))
      ensures SendsWanted(events, Wants(old(snapshots), Table(live), closed, now))
      ensures forall id :: Wanted(old(snapshots), Table(live), closed, now, id).Some? ==> Sent(events, id)
    {
      hide TickEvent, TickSnapshot, CloseEvent, DistinctIds, Distinct;
      ghost var before := snapshots;
      events := [];
      for i := 0 to |live|
        invariant (snapshots, events) == TickLive(before, live[..i])
      {
        assert live[..i + 1][..i] == live[..i];
        var event := UpdateOne(live[i].id, live[i].counters);
        events := events + Sending(event);
      }
      assert live[..|live|] == live;
      var active := Table(live);
      ghost var updated, updates := snapshots, events;
      for i := 0 to |order|
        invariant (snapshots, events) == CloseGone(updated, updates, order[..i], active, closed, now)
      {
        assert order[..i + 1][..i] == order[..i];
        if order[i] in active {
          continue;
        }
        events := events + [CloseEvent(order[i], closed, now)];
        snapshots := snapshots - {order[i]};
      }
      assert order[..|order|] == order;
      TickIsPerConnection(before, live, closed, now, order);
    }

    method UpdateOne(id: Id, now: Counters) returns (event: Option<Event>)
      modifies this
      ensures snapshots == old(snapshots)[id := TickSnapshot(old(snapshots), id, now)]
      ensures event == TickEvent(old(snapshots), id, now)
    {
      event := None;
      if id !in snapshots {
        snapshots := snapshots[id := Snapshot(now, false)];
        return Some(New(id, Opened(now)));
      }
      var snapshot := snapshots[id];
      var delta := Minus(now, snapshot.counters);
      if delta.up < 0 || delta.down < 0 {
        if snapshot.hadTraffic {
          event := Some(Update(id, ZERO));
        }
        snapshots := snapshots[id := Snapshot(now, false)];
        return;
      }
      if delta.up > 0 || delta.down > 0 {
        snapshots := snapshots[id := Snapshot(now, true)];
        return Some(Update(id, delta));
      }
      if snapshot.hadTraffic {
        snapshots := snapshots[id := Snapshot(now, false)];
        event := Some(Update(id, ZERO));
      }
    }
  }

  // ---------------------------------------------------------------------------------------------
  // A tick acts on each connection alone.
  // ---------------------------------------------------------------------------------------------

  function AfterTick(snapshots: Snapshots, live: map<Id, Counters>): (r: Snapshots)
  {
    map id | id in live :: TickSnapshot(snapshots, id, live[id])
  }

  ghost function Wants(snapshots: Snapshots, live: map<Id, Counters>, closed: map<Id, ClosedMetadata>,
                       now: Millis): (r: Id -> Option<Event>)
  {
    id => Wanted(snapshots, live, closed, now, id)
  }

  /** Every event is the wanted one for its connection, and no connection has two. */
  ghost predicate SendsWanted(events: seq<Event>, wanted: Id -> Option<Event>)
  {
    && (forall k :: 0 <= k < |events| ==> wanted(events[k].id) == Some(events[k]))
    && (forall j, k :: 0 <= j < k < |events| ==> events[j].id != events[k].id)
  }

  ghost predicate Sent(events: seq<Event>, id: Id)
  {
    exists k :: 0 <= k < |events| && events[k].id == id
  }

  lemma {:induction false} SendStep(events: seq<Event>, e: Event, wanted: Id -> Option<Event>)
    requires SendsWanted(events, wanted) && !Sent(events, e.id) && wanted(e.id) == Some(e)
    ensures SendsWanted(events + [e], wanted)
    ensures forall id :: Sent(events + [e], id) <==> Sent(events, id) || id == e.id
  {
    var longer := events + [e];
    assert longer[|events|] == e;
    forall id
      ensures Sent(longer, id) <==> Sent(events, id) || id == e.id
    {
      if Sent(events, id) {
        var k :| 0 <= k < |events| && events[k].id == id;
        assert longer[k].id == id;
      }
    }
  }

  lemma {:induction false} OwnSnapshotOnly(a: Snapshots, b: Snapshots, id: Id, now: Counters)
    requires id in a <==> id in b
    requires id in a ==> a[id] == b[id]
    ensures TickSnapshot(a, id, now) == TickSnapshot(b, id, now)
    ensures TickEvent(a, id, now) == TickEvent(b, id, now)
  {
  }

  lemma {:induction false} TickLiveSnapshots(before: Snapshots, live: seq<Live>)
    requires DistinctIds(live)
    ensures
      var s := TickLive(before, live).0;
      && s.Keys == before.Keys + Table(live).Keys
      && (forall id :: id in Table(live) ==> s[id] == TickSnapshot(before, id, Table(live)[id]))
      && (forall id :: id in before && id !in Table(live) ==> s[id] == before[id])
    decreases |live|
  {
    if live != [] {
      var front, last := live[..|live| - 1], live[|live| - 1];
      TickLiveSnapshots(before, front);
      OwnSnapshotOnly(TickLive(before, front).0, before, last.id, last.counters);
      hide TickSnapshot, TickEvent, DistinctIds;
    }
  }

  lemma {:induction false} TickLiveEvents(before: Snapshots, live: seq<Live>, wanted: Id -> Option<Event>)
    requires DistinctIds(live)
    requires forall id :: id in Table(live) ==> wanted(id) == TickEvent(before, id, Table(live)[id])
    ensures
      var events := TickLive(before, live).1;
      && SendsWanted(events, wanted)
      && forall id :: Sent(events, id) <==> id in Table(live) && wanted(id).Some?
    decreases |live|
  {
    if live != [] {
      var front, last := live[..|live| - 1], live[|live| - 1];
      assert forall id :: id in Table(front) ==> id in Table(live) && Table(live)[id] == Table(front)[id];
      TickLiveEvents(before, front, wanted);
      TickLiveSnapshots(before, front);
      var (s, events) := TickLive(before, front);
      OwnSnapshotOnly(s, before, last.id, last.counters);
      var event := wanted(last.id);
      assert event == TickEvent(s, last.id, last.counters);
      assert !Sent(events, last.id);
      hide TickEvent, TickSnapshot, SendsWanted, Sent, DistinctIds;
      if event.Some? {
        SendStep(events, event.value, wanted);
      } else {
        assert events + [] == events;
      }
    }
  }

  lemma {:induction false} CloseGoneIsPerConnection(before: Snapshots, sent: seq<Event>, order: seq<Id>,
      live: map<Id, Counters>, closed: map<Id, ClosedMetadata>, now: Millis, wanted: Id -> Option<Event>)
    requires Distinct(order)
    requires forall id :: id in order && id !in live ==> wanted(id) == Some(CloseEvent(id, closed, now))
    requires SendsWanted(sent, wanted)
    requires forall id :: Sent(sent, id) <==> id in live && wanted(id).Some?
    ensures
      var (s, events) := CloseGone(before, sent, order, live, closed, now);
      && s == (map id | id in before && (id in live || id !in order) :: before[id])
      && SendsWanted(events, wanted)
      && forall id :: Sent(events, id) <==> (id in live && wanted(id).Some?) || (id in order && id !in live)
    decreases |order|
  {
    if order != [] {
      var front, last := order[..|order| - 1], order[|order| - 1];
      assert order == front + [last];
      CloseGoneIsPerConnection(before, sent, front, live, closed, now, wanted);
      var (s, events) := CloseGone(before, sent, front, live, closed, now);
      hide SendsWanted, Sent, CloseEvent;
      if last !in live {
        SendStep(events, CloseEvent(last, closed, now), wanted);
      }
    }
  }

  /** Whatever the two orders, a tick leaves the snapshots of `AfterTick` and sends the wanted events. */
  lemma {:induction false} TickIsPerConnection(before: Snapshots, live: seq<Live>, closed: map<Id, ClosedMetadata>,
                                               now: Millis, order: seq<Id>)
    requires DistinctIds(live)
    requires Distinct(order) && forall id :: id in order <==> id in before || id in Table(live)
    ensures
      var (updated, updates) := TickLive(before, live);
      var (s, events) := CloseGone(updated, updates, order, Table(live), closed, now);
      var wanted := Wants(before, Table(live), closed, now);
      && s == AfterTick(before, Table(live))
      && SendsWanted(events, wanted)
      && forall id :: wanted(id).Some? ==> Sent(events, id)
  {
    hide TickEvent, TickSnapshot, SendsWanted, Sent, DistinctIds, Distinct, CloseEvent, TickLive, CloseGone, Table;
    var wanted := Wants(before, Table(live), closed, now);
    TickLiveSnapshots(before, live);
    TickLiveEvents(before, live, wanted);
    var (updated, updates) := TickLive(before, live);
    CloseGoneIsPerConnection(updated, updates, order, Table(live), closed, now, wanted);
    var s := CloseGone(updated, updates, order, Table(live), closed, now).0;
    assert forall id :: id in updated ==> id in order;
    assert s == (map id | id in updated && (id in Table(live) || id !in order) :: updated[id]);
    assert s == (map id | id in updated && id in Table(live) :: updated[id]);
    assert s == AfterTick(before, Table(live));
  }

  /** Replaying such events changes each connection by its own event alone, in whatever order they came. */
  lemma {:induction false} ReplayIsPerConnection(client: Client, events: seq<Event>, wanted: Id -> Option<Event>,
                                                 id: Id)
    requires SendsWanted(events, wanted)
    ensures Same(Replay(client, events), if Sent(events, id) then Apply(client, wanted(id).value) else client, id)
    decreases |events|
  {
    SentWanted(events, wanted, id);
    if events != [] {
      var front, last := events[..|events| - 1], events[|events| - 1];
      SentSplit(events, wanted, id);
      ReplayIsPerConnection(client, front, wanted, id);
    }
  }

  /** Two client tables agree on `id`. */
  ghost predicate Same(a: Client, b: Client, id: Id)
  {
    (id in a <==> id in b) && (id in a ==> a[id] == b[id])
  }

  lemma {:induction false} SentWanted(events: seq<Event>, wanted: Id -> Option<Event>, id: Id)
    requires SendsWanted(events, wanted)
    ensures Sent(events, id) ==> wanted(id).Some? && wanted(id).value.id == id
  {
    if Sent(events, id) {
      var k :| 0 <= k < |events| && events[k].id == id;
    }
  }

  lemma {:induction false} SentSplit(events: seq<Event>, wanted: Id -> Option<Event>, id: Id)
    requires events != [] && SendsWanted(events, wanted)
    ensures
      var front, last := events[..|events| - 1], events[|events| - 1];
      && SendsWanted(front, wanted)
      && wanted(last.id) == Some(last) && !Sent(front, last.id)
      && (Sent(events, id) <==> Sent(front, id) || last.id == id)
  {
    var front, last := events[..|events| - 1], events[|events| - 1];
    if last.id == id {
      assert events[|events| - 1].id == id;
    } else if Sent(events, id) {
      var k :| 0 <= k < |events| && events[k].id == id;
      assert front[k].id == id;
    }
  }

  // ---------------------------------------------------------------------------------------------
  // Server and client over whole subscriptions.
  // ---------------------------------------------------------------------------------------------

  /** The client shows exactly the snapshot's connections as open, moving exactly where traffic was reported. */
  ghost predicate InSync(snapshots: Snapshots, client: Client)
  {
    forall id :: SyncAt(snapshots, client, id)
  }

  ghost predicate SyncAt(snapshots: Snapshots, client: Client, id: Id)
  {
    && (id in snapshots <==> IsOpen(client, id))
    && (id in snapshots ==> (snapshots[id].hadTraffic <==> client[id].speed != ZERO))
  }

  ghost predicate TotalsMatch(snapshots: Snapshots, client: Client)
  {
    forall id :: id in snapshots && IsOpen(client, id) ==> client[id].total == snapshots[id].counters
  }

  datatype Step =
    | HookStep(hook: Hook, now: Millis)
    | TickStep(live: seq<Live>, closed: map<Id, ClosedMetadata>, now: Millis, events: seq<Event>)
    | EvictStep(moment: int)

  datatype World = World(snapshots: Snapshots, client: Client)

  /** One step of a subscription; hook events may come in any number and order, whatever happened. */
  ghost predicate Follows(w: World, step: Step, w': World)
  {
    match step
    case HookStep(hook, now) =>
      && w'.snapshots == AfterHook(w.snapshots, hook)
      && w'.client == Replay(w.client, Sending(HookEvent(w.snapshots, hook, now)))
    case TickStep(live, closed, now, events) =>
      && DistinctIds(live)
      && SendsWanted(events, Wants(w.snapshots, Table(live), closed, now))
      && (forall id :: Wanted(w.snapshots, Table(live), closed, now, id).Some? ==> Sent(events, id))
      && w'.snapshots == AfterTick(w.snapshots, Table(live))
      && w'.client == Replay(w.client, events)
    case EvictStep(moment) => w' == w.(client := Evict(w.client, moment))
  }

  /**
   The connection left between the two listings of the first message: it is in both, so the client
   takes it for closed while the server still holds a snapshot of it.
   */
  ghost predicate LeftBetween(live: seq<Live>, past: seq<Past>, id: Id)
  {
    id in Table(live) && Remembered(past, id)
  }

  ghost predicate Remembered(past: seq<Past>, id: Id)
  {
    exists k :: 0 <= k < |past| && past[k].id == id
  }

  lemma {:induction false} RememberedSplit(past: seq<Past>, id: Id)
    requires past != []
    ensures Remembered(past, id) <==> Remembered(past[..|past| - 1], id) || past[|past| - 1].id == id
  {
    var front := past[..|past| - 1];
    if Remembered(front, id) {
      var k :| 0 <= k < |front| && front[k].id == id;
      assert past[k].id == id;
    }
    if Remembered(past, id) && past[|past| - 1].id != id {
      var k :| 0 <= k < |past| && past[k].id == id;
      assert front[k].id == id;
    }
  }

  ghost predicate Begins(w: World, live: seq<Live>, past: seq<Past>)
  {
    && DistinctIds(live)
    && w == World(FirstSnapshots(live), Replay(map[], FirstEvents(live, past)))
  }

  ghost predicate IsSubscription(worlds: seq<World>, steps: seq<Step>, live: seq<Live>, past: seq<Past>)
  {
    && |worlds| == |steps| + 1
    && Begins(worlds[0], live, past)
    && forall k :: 0 <= k < |steps| ==> Follows(worlds[k], steps[k], worlds[k + 1])
  }

  lemma {:induction false} FirstLive(live: seq<Live>, id: Id)
    requires DistinctIds(live)
    ensures
      var client := Replay(map[], FirstEvents(live, []));
      && (id in FirstSnapshots(live) <==> id in Table(live))
      && (id in client <==> id in Table(live))
      && (id in Table(live) ==>
            client[id] == Opened(Table(live)[id]) && FirstSnapshots(live)[id] == Snapshot(Table(live)[id], false))
    decreases |live|
  {
    if live != [] {
      var front := live[..|live| - 1];
      FirstLive(front, id);
      assert FirstEvents(live, [])[..|live| - 1] == FirstEvents(front, []);
    }
  }

  lemma {:induction false} FirstPast(live: seq<Live>, past: seq<Past>, id: Id)
    ensures
      var client, start := Replay(map[], FirstEvents(live, past)), Replay(map[], FirstEvents(live, []));
      if Remembered(past, id) then id in client && !IsOpen(client, id)
      else Same(client, start, id)
    decreases |past|
  {
    if past != [] {
      var n := |past| - 1;
      var front := past[..n];
      FirstPast(live, front, id);
      assert FirstEvents(live, past)[..|live| + n] == FirstEvents(live, front);
      RememberedSplit(past, id);
      hide Remembered;
    }
  }

  /**
   After the first message client and snapshots agree if and only if no connection left between its
   two listings; the client takes exactly those for closed. Totals agree wherever both are open.
   */
  lemma {:induction false} FirstMessageSyncs(w: World, live: seq<Live>, past: seq<Past>)
    requires Begins(w, live, past)
    ensures InSync(w.snapshots, w.client) <==> forall id :: !LeftBetween(live, past, id)
    ensures forall id :: SyncAt(w.snapshots, w.client, id) <==> !LeftBetween(live, past, id)
    ensures forall id :: LeftBetween(live, past, id) ==> id in w.snapshots && !IsOpen(w.client, id)
    ensures TotalsMatch(w.snapshots, w.client)
  {
    forall id
      ensures SyncAt(w.snapshots, w.client, id) <==> !LeftBetween(live, past, id)
      ensures LeftBetween(live, past, id) ==> id in w.snapshots && !IsOpen(w.client, id)
      ensures id in w.snapshots && IsOpen(w.client, id) ==> w.client[id].total == w.snapshots[id].counters
    {
      FirstLive(live, id);
      FirstPast(live, past, id);
    }
  }

  lemma {:induction false} TableOfOne(id: Id, counters: Counters)
    ensures Table([Live(id, counters)]) == map[id := counters] && DistinctIds([Live(id, counters)])
    ensures FirstSnapshots([Live(id, counters)]) == map[id := Snapshot(counters, false)]
  {
    var live := [Live(id, counters)];
    assert live[..0] == [];
    assert Table(live) == Table(live[..0])[id := counters];
  }

  /** One connection that leaves between the listings is enough to make the two disagree. */
  lemma {:induction false} LeavingBetweenListings(id: Id, counters: Counters, closedAt: Millis)
    ensures
      var live, past := [Live(id, counters)], [Past(id, counters, closedAt)];
      var w := World(FirstSnapshots(live), Replay(map[], FirstEvents(live, past)));
      Begins(w, live, past) && !InSync(w.snapshots, w.client)
  {
    var live, past := [Live(id, counters)], [Past(id, counters, closedAt)];
    assert past[0].id == id;
    TableOfOne(id, counters);
    assert LeftBetween(live, past, id);
    FirstMessageSyncs(World(FirstSnapshots(live), Replay(map[], FirstEvents(live, past))), live, past);
  }

  /** Traffic of `id` between the snapshot and the reading, as shown to the user. */
  function Growth(snapshots: Snapshots, id: Id, now: Counters): (r: Counters)
  {
    if id !in snapshots || Decreased(snapshots[id].counters, now) then ZERO else Minus(now, snapshots[id].counters)
  }

  /** What one tick does to one connection on the client. */
  lemma {:induction false} TickAt(w: World, step: Step, w': World, id: Id)
    requires step.TickStep? && Follows(w, step, w') && SyncAt(w.snapshots, w.client, id)
    ensures SyncAt(w'.snapshots, w'.client, id)
    ensures id in w'.snapshots <==> id in Table(step.live)
    ensures id in Table(step.live) ==>
      && w'.snapshots[id].counters == Table(step.live)[id]
      && w'.client[id].speed == Growth(w.snapshots, id, Table(step.live)[id])
    ensures id in Table(step.live) && (id in w.snapshots ==> w.client[id].total == w.snapshots[id].counters) ==>
      (w'.client[id].total == Table(step.live)[id] <==>
       !(id in w.snapshots && Decreased(w.snapshots[id].counters, Table(step.live)[id])))
  {
    var wanted := Wants(w.snapshots, Table(step.live), step.closed, step.now);
    ReplayIsPerConnection(w.client, step.events, wanted, id);
    SentWanted(step.events, wanted, id);
    hide SendsWanted, Sent, Table, DistinctIds;
    assert wanted(id) == Wanted(w.snapshots, Table(step.live), step.closed, step.now, id);
  }

  lemma {:induction false} HookAt(w: World, step: Step, w': World, id: Id)
    requires step.HookStep? && Follows(w, step, w') && SyncAt(w.snapshots, w.client, id)
    ensures SyncAt(w'.snapshots, w'.client, id)
    ensures (id in w.snapshots ==> w.client[id].total == w.snapshots[id].counters) ==>
      (id in w'.snapshots ==> w'.client[id].total == w'.snapshots[id].counters)
  {
    var event := HookEvent(w.snapshots, step.hook, step.now);
    if event.Some? {
      assert Sending(event)[..0] == [];
      assert Replay(w.client, Sending(event)) == Apply(w.client, event.value);
    }
  }

  /** A tick drops every snapshot without a live connection, and the client then takes it for closed. */
  lemma {:induction false} TickDropsGone(w: World, step: Step, w': World, id: Id)
    requires step.TickStep? && Follows(w, step, w') && id !in Table(step.live)
    ensures id !in w'.snapshots && (id in w.snapshots ==> !IsOpen(w'.client, id))
    ensures id !in w.snapshots ==> Same(w.client, w'.client, id)
  {
    var wanted := Wants(w.snapshots, Table(step.live), step.closed, step.now);
    ReplayIsPerConnection(w.client, step.events, wanted, id);
    SentWanted(step.events, wanted, id);
    hide SendsWanted, Sent, Table, DistinctIds;
    assert wanted(id) == Wanted(w.snapshots, Table(step.live), step.closed, step.now, id);
  }

  /** A tick never opens a connection that has a snapshot. */
  lemma {:induction false} TickOpensOnlyNew(w: World, step: Step, w': World, id: Id)
    requires step.TickStep? && Follows(w, step, w') && id in Table(step.live) && id in w.snapshots
    ensures id in w'.snapshots && (!IsOpen(w.client, id) ==> !IsOpen(w'.client, id))
  {
    var wanted := Wants(w.snapshots, Table(step.live), step.closed, step.now);
    ReplayIsPerConnection(w.client, step.events, wanted, id);
    SentWanted(step.events, wanted, id);
    hide SendsWanted, Sent, Table, DistinctIds;
    assert wanted(id) == Wanted(w.snapshots, Table(step.live), step.closed, step.now, id);
  }

  /** Client and snapshots agree on `id`, or it is one that left between its listings. */
  ghost predicate SyncUnless(left: bool, snapshots: Snapshots, client: Client, id: Id)
  {
    SyncAt(snapshots, client, id) || (left && id in snapshots && !IsOpen(client, id))
  }

  lemma {:induction false} HookLeavesAlone(w: World, step: Step, w': World, id: Id)
    requires step.HookStep? && Follows(w, step, w') && id in w.snapshots && !IsOpen(w.client, id)
    ensures id in w'.snapshots ==> !IsOpen(w'.client, id)
    ensures id !in w'.snapshots ==> SyncAt(w'.snapshots, w'.client, id)
  {
    var event := HookEvent(w.snapshots, step.hook, step.now);
    if event.Some? {
      assert Sending(event)[..0] == [];
      assert Replay(w.client, Sending(event)) == Apply(w.client, event.value);
    }
  }

  lemma {:induction false} StepKeepsSync(w: World, step: Step, w': World, id: Id, left: bool)
    requires SyncUnless(left, w.snapshots, w.client, id) && Follows(w, step, w')
    ensures SyncUnless(left, w'.snapshots, w'.client, id)
    ensures step.TickStep? && !(left && id in Table(step.live)) ==> SyncAt(w'.snapshots, w'.client, id)
  {
    if SyncAt(w.snapshots, w.client, id) {
      if step.TickStep? {
        TickAt(w, step, w', id);
      } else if step.HookStep? {
        HookAt(w, step, w', id);
      }
    } else if step.TickStep? {
      if id in Table(step.live) {
        TickOpensOnlyNew(w, step, w', id);
      } else {
        TickDropsGone(w, step, w', id);
      }
    } else if step.HookStep? {
      HookLeavesAlone(w, step, w', id);
    }
  }

  /**
   At every moment of every subscription the client's open connections are exactly the snapshot's,
   except that one which left between its two listings may still have a snapshot.
   */
  lemma {:induction false} ClientMirrorsServer(worlds: seq<World>, steps: seq<Step>, live: seq<Live>, past: seq<Past>,
                                               k: nat, id: Id)
    requires IsSubscription(worlds, steps, live, past) && k <= |steps|
    ensures SyncUnless(LeftBetween(live, past, id), worlds[k].snapshots, worlds[k].client, id)
    decreases k
  {
    if k == 0 {
      FirstMessageSyncs(worlds[0], live, past);
    } else {
      ClientMirrorsServer(worlds, steps, live, past, k - 1, id);
      assert Follows(worlds[k - 1], steps[k - 1], worlds[k]);
      StepKeepsSync(worlds[k - 1], steps[k - 1], worlds[k], id, LeftBetween(live, past, id));
    }
  }

  // ---------------------------------------------------------------------------------------------
  // Totals: what they show is the counters plus what backward readings kept from them.
  // ---------------------------------------------------------------------------------------------

  /**
   What backward readings of `id` have kept from its total since it was announced, after a step that
   found `before` kept. A backward reading is not reported at all: a direction that fell counts what it
   fell, and a direction that grew in the same tick counts negatively.
   */
  function LostAfter(snapshots: Snapshots, step: Step, id: Id, before: Counters): (r: Counters)
  {
    match step
    case TickStep(live, _, _, _) =>
      if id !in Table(live) || id !in snapshots then ZERO
      else if Decreased(snapshots[id].counters, Table(live)[id]) then
        Plus(before, Minus(snapshots[id].counters, Table(live)[id]))
      else before
    case HookStep(HookNew(announced, _), _) => if announced == id && id !in snapshots then ZERO else before
    case _ => before
  }

  /** The sum of these losses over the first `k` steps, starting again whenever `id` is announced. */
  ghost function Lost(worlds: seq<World>, steps: seq<Step>, k: nat, id: Id): (r: Counters)
    requires k <= |steps| < |worlds|
  {
    if k == 0 then ZERO else LostAfter(worlds[k - 1].snapshots, steps[k - 1], id, Lost(worlds, steps, k - 1, id))
  }

  /** The client's total of an open connection is the snapshot's counters plus `lost`. */
  ghost predicate TotalIs(snapshots: Snapshots, client: Client, id: Id, lost: Counters)
  {
    id in snapshots && IsOpen(client, id) ==> client[id].total == Plus(snapshots[id].counters, lost)
  }

  lemma {:induction false} StepKeepsTotal(w: World, step: Step, w': World, id: Id, left: bool, lost: Counters)
    requires Follows(w, step, w') && SyncUnless(left, w.snapshots, w.client, id)
    requires TotalIs(w.snapshots, w.client, id, lost)
    ensures TotalIs(w'.snapshots, w'.client, id, LostAfter(w.snapshots, step, id, lost))
  {
    match step
    case TickStep(live, closed, now, events) =>
      var wanted := Wants(w.snapshots, Table(live), closed, now);
      ReplayIsPerConnection(w.client, events, wanted, id);
      SentWanted(events, wanted, id);
      hide SendsWanted, Sent, Table, DistinctIds;
      assert wanted(id) == Wanted(w.snapshots, Table(live), closed, now, id);
    case HookStep(hook, now) =>
      var event := HookEvent(w.snapshots, hook, now);
      if event.Some? {
        assert Sending(event)[..0] == [];
        assert Replay(w.client, Sending(event)) == Apply(w.client, event.value);
      }
    case EvictStep(_) =>
  }

  lemma {:induction false} TotalsAlong(worlds: seq<World>, steps: seq<Step>, live: seq<Live>, past: seq<Past>, k: nat,
                                       id: Id)
    requires IsSubscription(worlds, steps, live, past) && k <= |steps|
    ensures TotalIs(worlds[k].snapshots, worlds[k].client, id, Lost(worlds, steps, k, id))
    decreases k
  {
    if k == 0 {
      FirstMessageSyncs(worlds[0], live, past);
    } else {
      assert |worlds| == |steps| + 1 && Follows(worlds[k - 1], steps[k - 1], worlds[k]);
      hide *;
      TotalsAlong(worlds, steps, live, past, k - 1, id);
      ClientMirrorsServer(worlds, steps, live, past, k - 1, id);
      StepKeepsTotal(worlds[k - 1], steps[k - 1], worlds[k], id, LeftBetween(live, past, id),
                     Lost(worlds, steps, k - 1, id));
      LostStep(worlds, steps, k, id);
    }
  }

  lemma {:induction false} LostStep(worlds: seq<World>, steps: seq<Step>, k: nat, id: Id)
    requires 0 < k <= |steps| < |worlds|
    ensures Lost(worlds, steps, k, id)
         == LostAfter(worlds[k - 1].snapshots, steps[k - 1], id, Lost(worlds, steps, k - 1, id))
  {
  }

  /**
   At every moment of every subscription the total shown for an open connection is its counters plus
   what backward readings kept from it since it was announced: the two agree if and only if that adds up
   to nothing in both directions.
   */
  lemma {:induction false} TotalsExactly(worlds: seq<World>, steps: seq<Step>, live: seq<Live>, past: seq<Past>,
                                         k: nat, id: Id)
    requires IsSubscription(worlds, steps, live, past) && k <= |steps|
    ensures id in worlds[k].snapshots && IsOpen(worlds[k].client, id) ==>
      && worlds[k].client[id].total == Plus(worlds[k].snapshots[id].counters, Lost(worlds, steps, k, id))
      && (worlds[k].client[id].total == worlds[k].snapshots[id].counters <==> Lost(worlds, steps, k, id) == ZERO)
  {
    TotalsAlong(worlds, steps, live, past, k, id);
    hide Lost, Follows;
  }

  /** No counter of a known connection is read lower than its snapshot. */
  ghost predicate NonDecreasing(w: World, step: Step)
  {
    step.TickStep? ==> forall id :: id in w.snapshots && id in Table(step.live) ==>
      !Decreased(w.snapshots[id].counters, Table(step.live)[id])
  }

  lemma {:induction false} NothingIsLost(worlds: seq<World>, steps: seq<Step>, k: nat, id: Id)
    requires k <= |steps| < |worlds|
    requires forall j :: 0 <= j < k ==> NonDecreasing(worlds[j], steps[j])
    ensures Lost(worlds, steps, k, id) == ZERO
    decreases k
  {
    if k > 0 {
      NothingIsLost(worlds, steps, k - 1, id);
      assert NonDecreasing(worlds[k - 1], steps[k - 1]);
    }
  }

  /** As long as no counter ran backwards the client's totals are exactly the snapshot's counters. */
  lemma {:induction false} TotalsMirrorServer(worlds: seq<World>, steps: seq<Step>, live: seq<Live>, past: seq<Past>,
                                              k: nat)
    requires IsSubscription(worlds, steps, live, past) && k <= |steps|
    requires forall j :: 0 <= j < k ==> NonDecreasing(worlds[j], steps[j])
    ensures TotalsMatch(worlds[k].snapshots, worlds[k].client)
  {
    forall id | id in worlds[k].snapshots && IsOpen(worlds[k].client, id)
      ensures worlds[k].client[id].total == worlds[k].snapshots[id].counters
    {
      TotalsExactly(worlds, steps, live, past, k, id);
      NothingIsLost(worlds, steps, k, id);
    }
  }

  /** A connection whose counter restarts from zero keeps its old total. */
  lemma {:induction false} RestartedCounterDrifts(id: Id, n: int, now: Millis)
    returns (worlds: seq<World>, steps: seq<Step>)
    requires n > 0
    ensures IsSubscription(worlds, steps, [Live(id, Counters(n, 0))], [])
    ensures |steps| == 1 && id in worlds[1].snapshots && worlds[1].snapshots[id].counters == ZERO
    ensures IsOpen(worlds[1].client, id) && worlds[1].client[id].total == Counters(n, 0)
  {
    var live, later := [Live(id, Counters(n, 0))], [Live(id, ZERO)];
    TableOfOne(id, Counters(n, 0));
    TableOfOne(id, ZERO);
    var w := World(FirstSnapshots(live), Replay(map[], FirstEvents(live, [])));
    FirstLive(live, id);
    var step := TickStep(later, map[], now, []);
    var w' := World(AfterTick(w.snapshots, Table(later)), Replay(w.client, []));
    worlds, steps := [w, w'], [step];
    assert forall other :: Wanted(w.snapshots, Table(later), map[], now, other).None?;
    assert Follows(w, step, w');
  }

  /**
   Right after a tick, whatever hook events were lost, delayed or repeated before it, the client
   shows exactly the live connections, each with the traffic of that tick as its speed; their totals
   are the live counters plus what backward readings kept from them. Only a connection that left between
   its two listings and is nevertheless live again could be missing.
   */
  lemma {:induction false} TickShowsLiveTable(worlds: seq<World>, steps: seq<Step>, live: seq<Live>, past: seq<Past>,
                                              k: nat, id: Id)
    requires IsSubscription(worlds, steps, live, past) && k < |steps| && steps[k].TickStep?
    requires LeftBetween(live, past, id) ==> id !in Table(steps[k].live)
    ensures IsOpen(worlds[k + 1].client, id) <==> id in Table(steps[k].live)
    ensures id in Table(steps[k].live) ==>
      && worlds[k + 1].client[id].speed == Growth(worlds[k].snapshots, id, Table(steps[k].live)[id])
      && worlds[k + 1].client[id].total == Plus(Table(steps[k].live)[id], Lost(worlds, steps, k + 1, id))
    ensures id in Table(steps[k].live) && (forall j :: 0 <= j <= k ==> NonDecreasing(worlds[j], steps[j])) ==>
      worlds[k + 1].client[id].total == Table(steps[k].live)[id]
  {
    var w, w' := worlds[k], worlds[k + 1];
    assert Follows(w, steps[k], w');
    ClientMirrorsServer(worlds, steps, live, past, k, id);
    if id in Table(steps[k].live) {
      TickAt(w, steps[k], w', id);
      TotalsExactly(worlds, steps, live, past, k + 1, id);
      if forall j :: 0 <= j <= k ==> NonDecreasing(worlds[j], steps[j]) {
        NothingIsLost(worlds, steps, k + 1, id);
      }
    } else {
      TickDropsGone(w, steps[k], w', id);
    }
  }

  // ---------------------------------------------------------------------------------------------
  // What the client holds, by the readings themselves.
  // ---------------------------------------------------------------------------------------------

  /** The table lists the identifiers of the list. */
  lemma {:induction false} TableLists(live: seq<Live>, id: Id)
    ensures id in Table(live) <==> exists i :: 0 <= i < |live| && live[i].id == id
    decreases |live|
  {
    if live != [] {
      var n := |live| - 1;
      var front := live[..n];
      TableLists(front, id);
      if i :| 0 <= i < n && front[i].id == id {
        assert live[i].id == id;
      }
      if i :| 0 <= i < |live| && live[i].id == id {
        assert i == n || front[i].id == id;
      }
    }
  }

  /** The identifiers of the list are distinct if no two places hold the same, and then the table has every reading. */
  lemma {:induction false} TableIsTheList(live: seq<Live>)
    requires forall i, j :: 0 <= i < j < |live| ==> live[i].id != live[j].id
    ensures DistinctIds(live)
    ensures forall i :: 0 <= i < |live| ==> live[i].id in Table(live) && Table(live)[live[i].id] == live[i].counters
    decreases |live|
  {
    if live != [] {
      var n := |live| - 1;
      var front := live[..n];
      TableIsTheList(front);
      TableLists(front, live[n].id);
      assert forall i :: 0 <= i < n ==> live[i] == front[i];
    }
  }

  /** The connection is on the client at rest, with `total` in all: closed at `at`, or open if that is 0. */
  ghost predicate Shows(client: Client, id: Id, total: Counters, at: int)
  {
    && id in client
    && client[id].total.up == total.up && client[id].total.down == total.down
    && client[id].speed.up == 0 && client[id].speed.down == 0
    && client[id].closedAt == at
  }

  /** Whatever batch the client replays, a connection last closed in it is at rest with the time of that event. */
  lemma {:induction false} LastCloseRests(client: Client, events: seq<Event>, k: nat)
    requires k < |events| && events[k].Closed?
    requires forall l :: k < l < |events| ==> events[l].id != events[k].id
    ensures events[k].final.Some? || events[k].id in Replay(client, events[..k]) ==>
      var e, before := events[k], Replay(client, events[..k]);
      Shows(Replay(client, events), e.id, if e.final.Some? then e.final.value.total else before[e.id].total, e.closedAt)
    decreases |events|
  {
    var n := |events| - 1;
    var front := events[..n];
    if k < n {
      assert front[..k] == events[..k];
      LastCloseRests(client, front, k);
    }
  }

  /**
   A tick that misses a connection it has a snapshot of: the client holds the totals and the time the
   manager remembers of it, or else keeps its own totals and takes the moment of the tick.
   */
  lemma {:induction false} TickCloses(w: World, step: Step, w': World, id: Id)
    requires step.TickStep? && Follows(w, step, w') && id in w.snapshots && id !in Table(step.live)
    ensures id !in w'.snapshots
    ensures id in step.closed && step.closed[id].closedAt.Some? ==>
      Shows(w'.client, id, step.closed[id].counters, step.closed[id].closedAt.value)
    ensures id in step.closed && step.closed[id].closedAt.None? ==>
      Shows(w'.client, id, step.closed[id].counters, step.now)
    ensures id !in step.closed && id in w.client ==> Shows(w'.client, id, w.client[id].total, step.now)
    ensures id !in step.closed && id !in w.client ==> id !in w'.client
  {
    var wanted := Wants(w.snapshots, Table(step.live), step.closed, step.now);
    ReplayIsPerConnection(w.client, step.events, wanted, id);
    SentWanted(step.events, wanted, id);
    hide SendsWanted, Sent, Table, DistinctIds;
    assert wanted(id) == Wanted(w.snapshots, Table(step.live), step.closed, step.now, id);
  }

  /** One hook event on the client: the replay of its event, if it has one. */
  lemma {:induction false} HookReplay(client: Client, snapshots: Snapshots, hook: Hook, now: Millis)
    ensures
      var event := HookEvent(snapshots, hook, now);
      Replay(client, Sending(event)) == if event.Some? then Apply(client, event.value) else client
  {
    var event := HookEvent(snapshots, hook, now);
    if event.Some? {
      assert Sending(event)[..0] == [];
    }
  }

  /**
   A closing hook event: the client holds the totals of its metadata, or else its own, and the time of
   the event, of the metadata, or of now, whichever is there first.
   */
  lemma {:induction false} HookCloses(w: World, step: Step, w': World, id: Id, closedAt: Option<Millis>,
                                      metadata: Option<ClosedMetadata>)
    requires step.HookStep? && step.hook == HookClosed(id, closedAt, metadata) && Follows(w, step, w')
    ensures id !in w'.snapshots
    ensures metadata.None? && id !in w.client ==> id !in w'.client
    ensures metadata.Some? || id in w.client ==>
      && (closedAt.Some? ==> Shows(w'.client, id, LastTotal(w, metadata, id), closedAt.value))
      && (closedAt.None? && metadata.Some? && metadata.value.closedAt.Some? ==>
            Shows(w'.client, id, LastTotal(w, metadata, id), metadata.value.closedAt.value))
      && (closedAt.None? && (metadata.None? || metadata.value.closedAt.None?) ==>
            Shows(w'.client, id, LastTotal(w, metadata, id), step.now))
  {
    HookReplay(w.client, w.snapshots, step.hook, step.now);
  }

  function LastTotal(w: World, metadata: Option<ClosedMetadata>, id: Id): (total: Counters)
    requires metadata.Some? || id in w.client
  {
    if metadata.Some? then metadata.value.counters else w.client[id].total
  }

  /** An announcing hook event opens an unknown connection with its counters and changes no known one. */
  lemma {:induction false} HookOpens(w: World, step: Step, w': World, id: Id, counters: Counters)
    requires step.HookStep? && step.hook == HookNew(id, counters) && Follows(w, step, w')
    ensures id in w.snapshots ==> w' == w
    ensures id !in w.snapshots ==>
      && Shows(w'.client, id, counters, 0)
      && id in w'.snapshots && w'.snapshots[id].counters == counters && !w'.snapshots[id].hadTraffic
  {
    HookReplay(w.client, w.snapshots, step.hook, step.now);
  }

  /** The step is about `id`: it lists it, announces it or closes it. */
  ghost predicate IsAbout(step: Step, id: Id)
  {
    match step
    case TickStep(live, _, _, _) => exists i :: 0 <= i < |live| && live[i].id == id
    case HookStep(HookNew(other, _), _) => other == id
    case HookStep(HookClosed(other, _, _), _) => other == id
    case _ => false
  }

  /** A step that is not about a connection without a snapshot leaves it as it is, up to eviction. */
  lemma {:induction false} StepLeavesOthers(w: World, step: Step, w': World, id: Id)
    requires Follows(w, step, w') && id !in w.snapshots && !IsAbout(step, id)
    ensures id !in w'.snapshots
    ensures !step.EvictStep? ==> Same(w.client, w'.client, id)
    ensures step.EvictStep? ==>
      && (id in w'.client <==>
            id in w.client && (w.client[id].closedAt == 0 || step.moment - w.client[id].closedAt <= 300_000))
      && (id in w'.client ==> w'.client[id] == w.client[id])
  {
    match step
    case TickStep(live, _, _, _) =>
      TableLists(live, id);
      TickDropsGone(w, step, w', id);
    case HookStep(hook, now) => HookReplay(w.client, w.snapshots, hook, now);
    case EvictStep(_) =>
  }

  /**
   A closed connection stays as it is through any steps that are not about it, until an eviction more
   than five minutes after it closed, and no longer.
   */
  lemma {:induction false} ClosedStays(worlds: seq<World>, steps: seq<Step>, a: nat, k: nat, id: Id, total: Counters,
                                       at: int)
    requires |worlds| == |steps| + 1 && a <= k <= |steps|
    requires forall j :: 0 <= j < |steps| ==> Follows(worlds[j], steps[j], worlds[j + 1])
    requires id !in worlds[a].snapshots && Shows(worlds[a].client, id, total, at) && at != 0
    requires forall j :: a <= j < k ==> !IsAbout(steps[j], id)
    ensures id !in worlds[k].snapshots
    ensures if exists j :: a <= j < k && Evicts(steps[j], at) then id !in worlds[k].client
            else Shows(worlds[k].client, id, total, at)
    decreases k
  {
    hide Follows, IsAbout;
    if a < k {
      ClosedStays(worlds, steps, a, k - 1, id, total, at);
      assert Follows(worlds[k - 1], steps[k - 1], worlds[k]) && !IsAbout(steps[k - 1], id);
      StepLeavesOthers(worlds[k - 1], steps[k - 1], worlds[k], id);
      if exists j :: a <= j < k && Evicts(steps[j], at) {
        var j :| a <= j < k && Evicts(steps[j], at);
        assert j == k - 1 || id !in worlds[k - 1].client;
      }
    }
  }

  /** The step is an eviction more than five minutes after `at`. */
  predicate Evicts(step: Step, at: int)
  {
    step.EvictStep? && step.moment - at > 300_000
  }

  /**
   In any subscription a connection that a tick finds gone is shown, until eviction or until something
   is about it again, with the totals the manager remembers; without them, with the counters last read
   plus what backward readings kept from it.
   */
  lemma {:induction false} GoneConnectionShows(worlds: seq<World>, steps: seq<Step>, live: seq<Live>, past: seq<Past>,
                                               a: nat, k: nat, id: Id, total: Counters, at: int)
    requires IsSubscription(worlds, steps, live, past) && a < k <= |steps| && steps[a].TickStep?
    requires id in worlds[a].snapshots && IsOpen(worlds[a].client, id) && !IsAbout(steps[a], id)
    requires forall j :: a < j < k ==> !IsAbout(steps[j], id)
    requires
      if id in steps[a].closed then
        && total == steps[a].closed[id].counters
        && (if steps[a].closed[id].closedAt.Some? then at == steps[a].closed[id].closedAt.value else at == steps[a].now)
      else total == Plus(worlds[a].snapshots[id].counters, Lost(worlds, steps, a, id)) && at == steps[a].now
    ensures if exists j :: a < j < k && Evicts(steps[j], at) then id !in worlds[k].client
            else Shows(worlds[k].client, id, total, at)
  {
    TotalsExactly(worlds, steps, live, past, a, id);
    TableLists(steps[a].live, id);
    assert Follows(worlds[a], steps[a], worlds[a + 1]);
    TickCloses(worlds[a], steps[a], worlds[a + 1], id);
    hide Follows, Lost, Table, Shows, IsAbout;
    ClosedStays(worlds, steps, a + 1, k, id, total, at);
  }

  /** The first message shows a live connection, unless it is remembered too, with its counters as listed. */
  lemma {:induction false} FirstMessageLists(w: World, live: seq<Live>, past: seq<Past>, k: nat)
    requires w == World(FirstSnapshots(live), Replay(map[], FirstEvents(live, past))) && k < |live|
    requires forall i, j :: 0 <= i < j < |live| ==> live[i].id != live[j].id
    requires forall l :: 0 <= l < |past| ==> past[l].id != live[k].id
    ensures Begins(w, live, past)
    ensures Shows(w.client, live[k].id, live[k].counters, 0)
    ensures live[k].id in w.snapshots && w.snapshots[live[k].id].counters == live[k].counters
  {
    TableIsTheList(live);
    FirstLive(live, live[k].id);
    FirstPast(live, past, live[k].id);
  }

  /** The first message shows a remembered connection as its last listing in it does. */
  lemma {:induction false} FirstMessageRemembers(w: World, live: seq<Live>, past: seq<Past>, k: nat)
    requires Begins(w, live, past) && k < |past|
    requires forall l :: k < l < |past| ==> past[l].id != past[k].id
    ensures Shows(w.client, past[k].id, past[k].counters, past[k].closedAt)
  {
    LastListingShows(live, past, k);
  }

  lemma {:induction false} LastListingShows(live: seq<Live>, past: seq<Past>, k: nat)
    requires k < |past| && forall l :: k < l < |past| ==> past[l].id != past[k].id
    ensures Shows(Replay(map[], FirstEvents(live, past)), past[k].id, past[k].counters, past[k].closedAt)
    decreases |past|
  {
    var n := |past| - 1;
    var front := past[..n];
    assert FirstEvents(live, past)[..|live| + n] == FirstEvents(live, front);
    if k < n {
      LastListingShows(live, front, k);
    }
  }

  // ---------------------------------------------------------------------------------------------
  // Bursts: what a subscription sends about a connection that stays live.
  // ---------------------------------------------------------------------------------------------

  /** The step leaves `id` live and known: a tick that lists it, or anything but a closing hook of it. */
  ghost predicate StaysLive(step: Step, id: Id)
  {
    match step
    case TickStep(live, _, _, _) => id in Table(live)
    case HookStep(HookClosed(closed, _, _), _) => closed != id
    case _ => true
  }

  /** Throughout the steps from `a` up to `k` the connection stays live and its counters do not decrease. */
  ghost predicate Active(worlds: seq<World>, steps: seq<Step>, a: nat, k: nat, id: Id)
    requires k <= |steps| < |worlds|
  {
    forall j :: a <= j < k ==>
      && StaysLive(steps[j], id)
      && (steps[j].TickStep? && id in worlds[j].snapshots ==>
            !Decreased(worlds[j].snapshots[id].counters, Table(steps[j].live)[id]))
  }

  /** The tick reads other counters than the snapshot holds. */
  ghost predicate Moved(w: World, step: Step, id: Id)
  {
    step.TickStep? && id in w.snapshots && id in Table(step.live) && w.snapshots[id].counters != Table(step.live)[id]
  }

  /** The last tick before step `k`, no earlier than step `a`. */
  function LastTick(steps: seq<Step>, a: nat, k: nat): (r: Option<nat>)
    requires a <= k <= |steps|
    ensures r.Some? ==> a <= r.value < k && steps[r.value].TickStep?
    decreases k - a
  {
    if k == a then None else if steps[k - 1].TickStep? then Some(k - 1) else LastTick(steps, a, k - 1)
  }

  /** The events of a tick about one connection are exactly the wanted one. */
  lemma {:induction false} SendsExactly(events: seq<Event>, wanted: Id -> Option<Event>, e: Event)
    requires SendsWanted(events, wanted) && (wanted(e.id).Some? ==> Sent(events, e.id))
    ensures e in events <==> wanted(e.id) == Some(e)
  {
    if wanted(e.id) == Some(e) {
      var k :| 0 <= k < |events| && events[k].id == e.id;
      assert events[k] == e;
    }
  }

  /** One step of such a stretch: a tick notes whether counters moved, other steps change nothing. */
  lemma {:induction false} StepKeepsSnapshot(w: World, step: Step, w': World, id: Id)
    requires Follows(w, step, w') && id in w.snapshots && StaysLive(step, id)
    requires step.TickStep? ==> !Decreased(w.snapshots[id].counters, Table(step.live)[id])
    ensures id in w'.snapshots
    ensures if step.TickStep? then w'.snapshots[id].hadTraffic <==> Moved(w, step, id)
            else w'.snapshots[id] == w.snapshots[id]
  {
    hide SendsWanted, Sent, Table, DistinctIds, Replay;
  }

  lemma {:induction false} SnapshotRemembersLastTick(worlds: seq<World>, steps: seq<Step>, a: nat, k: nat, id: Id)
    requires |worlds| == |steps| + 1 && a <= k <= |steps|
    requires forall j :: 0 <= j < |steps| ==> Follows(worlds[j], steps[j], worlds[j + 1])
    requires id in worlds[a].snapshots && !worlds[a].snapshots[id].hadTraffic && Active(worlds, steps, a, k, id)
    ensures id in worlds[k].snapshots
    ensures var last := LastTick(steps, a, k);
      worlds[k].snapshots[id].hadTraffic <==> last.Some? && Moved(worlds[last.value], steps[last.value], id)
    decreases k - a
  {
    hide Follows, Moved;
    if a < k {
      SnapshotRemembersLastTick(worlds, steps, a, k - 1, id);
      assert Follows(worlds[k - 1], steps[k - 1], worlds[k]) && StaysLive(steps[k - 1], id);
      hide StaysLive;
      StepKeepsSnapshot(worlds[k - 1], steps[k - 1], worlds[k], id);
    }
  }

  /**
   What a tick sends about a connection that stays live, in any subscription, with any other
   connections and hook events about: traffic exactly when its counters moved, and a zero update
   exactly when they did not move but did at the tick before. So a burst ends in one zero update and
   then silence.
   */
  lemma {:induction false} BurstEndsInOneZero(worlds: seq<World>, steps: seq<Step>, live: seq<Live>, past: seq<Past>,
                                              a: nat, k: nat, id: Id, e: Event)
    requires IsSubscription(worlds, steps, live, past) && a <= k < |steps| && steps[k].TickStep?
    requires id in worlds[a].snapshots && !worlds[a].snapshots[id].hadTraffic && Active(worlds, steps, a, k + 1, id)
    requires e.id == id
    ensures id in worlds[k].snapshots && id in Table(steps[k].live)
    ensures var before, now, last := worlds[k].snapshots[id].counters, Table(steps[k].live)[id], LastTick(steps, a, k);
      e in steps[k].events <==>
        || (now != before && e == Update(id, Minus(now, before)) && e.delta != ZERO)
        || (now == before && e == Update(id, ZERO) && last.Some? && Moved(worlds[last.value], steps[last.value], id))
  {
    SnapshotRemembersLastTick(worlds, steps, a, k, id);
    var w, step := worlds[k], steps[k];
    assert Follows(w, step, worlds[k + 1]) && StaysLive(step, id);
    var wanted := Wants(w.snapshots, Table(step.live), step.closed, step.now);
    hide Table, Moved, LastTick;
    assert wanted(id) == Wanted(w.snapshots, Table(step.live), step.closed, step.now, id);
    SendsExactly(step.events, wanted, e);
  }
}
