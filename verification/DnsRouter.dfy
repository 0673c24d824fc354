/**
 DNS rule matching with retries (dns/router.go): a resumable scan for the next matching rule, nested
 in a loop that retries with later rules while an address-limited rule's response is rejected.
 */
module DnsRouter {
  import opened Common

  /** Strategies are compared only; AS_IS is the unset one. Subnets are opaque. */
  type Strategy = nat

  const AS_IS: Strategy := 0

  datatype Transport = Transport(tag: Tag, fakeIP: bool, legacy: Option<(Strategy, Option<nat>)>)

  datatype Options = Options(strategy: Strategy, disableCache: bool, rewriteTTL: Option<nat>, clientSubnet: Option<nat>)

  datatype RejectMethod = Default | Drop | Reply

  datatype Action =
    | Route(server: Tag, options: Options)
    | RouteOptions(options: Options)
    | Reject(method_: RejectMethod)
    | Predefined
    | OtherAction

  /** `matches` is whether the rule matches the query at hand. */
  datatype Rule = Rule(addressLimit: bool, matches: bool, action: Action)

  datatype Router = Router(rules: seq<Rule>, transports: map<Tag, Transport>, fallback: Option<Transport>,
                           defaultStrategy: Strategy)

  /** One call of the DNS client; `rule` is the rule that routed it, none for the default transport. */
  datatype Attempt = Attempt(transport: Option<Transport>, options: Options, rule: Option<nat>)

  datatype Reply = Answer(id: nat) | Rejected | RejectedCached | Failed(error: nat)

  datatype Outcome = Settled(rule: nat) | Done(attempt: Attempt, reply: Reply)

  /** Exchange and Lookup run the same loop; Lookup bars FakeIP and treats all its queries as address queries. */
  datatype Mode = Exchange(addressQuery: bool) | Lookup {
    predicate AllowsFakeIP() { Exchange? }
    predicate IsAddressQuery() { Lookup? || addressQuery }

    /** A rejecting rule ends the query, except that Exchange lets the reply method fall through. */
    predicate Settles(action: Action)
    {
      action.Predefined? || (action.Reject? && (Lookup? || !action.method_.Reply?))
    }

    /** Errors after which an address-limited rule gives way to the next one. */
    predicate Retries(reply: Reply)
    {
      if Lookup? then !reply.Answer? else reply.Rejected? || reply.RejectedCached?
    }
  }

  function Merge(o: Options, n: Options): (r: Options)
  {
    Options(if n.strategy != AS_IS then n.strategy else o.strategy,
            o.disableCache || n.disableCache,
            if n.rewriteTTL.Some? then n.rewriteTTL else o.rewriteTTL,
            if n.clientSubnet.Some? then n.clientSubnet else o.clientSubnet)
  }

  /** A legacy transport supplies what the options leave unset. */
  function WithLegacy(o: Options, t: Option<Transport>): (r: Options)
  {
    if t.Some? && t.value.legacy.Some? then
      o.(strategy := if o.strategy == AS_IS then t.value.legacy.value.0 else o.strategy,
         clientSubnet := if o.clientSubnet == None then t.value.legacy.value.1 else o.clientSubnet)
    else o
  }

  function ForRoute(o: Options, n: Options, t: Transport): (r: Options)
  {
    WithLegacy(Merge(o, n.(disableCache := n.disableCache || t.fakeIP)), Some(t))
  }

  // ---------------------------------------------------------------------------------------------
  // The scan.
  // ---------------------------------------------------------------------------------------------

  /** What the rule at `i` does to a query that reaches it. */
  datatype Effect = Pass | Adjust(options: Options) | Try(transport: Transport, options: Options) | Stop

  function EffectOf(r: Router, mode: Mode, i: nat): (e: Effect)
    requires i < |r.rules|
  {
    var rule := r.rules[i];
    if (rule.addressLimit && !mode.IsAddressQuery()) || !rule.matches then Pass
    else match rule.action
      case Route(server, options) =>
        if server !in r.transports || (r.transports[server].fakeIP && !mode.AllowsFakeIP()) then Pass
        else Try(r.transports[server], options)
      case RouteOptions(options) => Adjust(options)
      case Reject(_) => Stop
      case Predefined => Stop
      case OtherAction => Pass
  }

  datatype Selection = Selection(transport: Option<Transport>, rule: Option<nat>, options: Options)

  /** matchDNS from rule `i` on, as a function. */
  function Scan(r: Router, mode: Mode, i: nat, o: Options): (s: Selection)
    decreases |r.rules| - i
  {
    if i >= |r.rules| then Selection(r.fallback, None, WithLegacy(o, r.fallback))
    else match EffectOf(r, mode, i)
      case Pass => Scan(r, mode, i + 1, o)
      case Adjust(n) => Scan(r, mode, i + 1, Merge(o, n))
      case Try(t, n) => Selection(Some(t), Some(i), ForRoute(o, n, t))
      case Stop => Selection(None, Some(i), o)
  }

  /** matchDNS: resumes after `ruleIndex`, or starts over at -1. */
  method MatchDNS(r: Router, mode: Mode, ruleIndex: int, o: Options) returns (s: Selection)
    requires ruleIndex >= -1
    ensures s == Scan(r, mode, ruleIndex + 1, o)
  {
    var i: nat := ruleIndex + 1;
    var options := o;
    while i < |r.rules|
      invariant Scan(r, mode, ruleIndex + 1, o) == Scan(r, mode, i, options)
      decreases |r.rules| - i
    {
      var rule := r.rules[i];
      if rule.addressLimit && !mode.IsAddressQuery() {
        i := i + 1;
        continue;
      }
      if rule.matches {
        match rule.action {
          case Route(server, n) =>
            if server !in r.transports {
              i := i + 1;
              continue;
            }
            var t := r.transports[server];
            if t.fakeIP && !mode.AllowsFakeIP() {
              i := i + 1;
              continue;
            }
            if n.strategy != AS_IS {
              options := options.(strategy := n.strategy);
            }
            if t.fakeIP || n.disableCache {
              options := options.(disableCache := true);
            }
            if n.rewriteTTL.Some? {
              options := options.(rewriteTTL := n.rewriteTTL);
            }
            if n.clientSubnet.Some? {
              options := options.(clientSubnet := n.clientSubnet);
            }
            return Selection(Some(t), Some(i), WithLegacy(options, Some(t)));
          case RouteOptions(n) =>
            if n.strategy != AS_IS {
              options := options.(strategy := n.strategy);
            }
            if n.disableCache {
              options := options.(disableCache := true);
            }
            if n.rewriteTTL.Some? {
              options := options.(rewriteTTL := n.rewriteTTL);
            }
            if n.clientSubnet.Some? {
              options := options.(clientSubnet := n.clientSubnet);
            }
          case Reject(_) =>
            return Selection(None, Some(i), options);
          case Predefined =>
            return Selection(None, Some(i), options);
          case OtherAction =>
        }
      }
      i := i + 1;
    }
    s := Selection(r.fallback, None, WithLegacy(options, r.fallback));
  }

  // ---------------------------------------------------------------------------------------------
  // The one-pass reading of the rule list.
  // ---------------------------------------------------------------------------------------------

  /** Options in force when the query reaches rule `i`; every attempt that was retried reset them. */
  function OptionsAt(r: Router, mode: Mode, o: Options, i: nat): (n: Options)
    requires i <= |r.rules|
  {
    if i == 0 then o
    else match EffectOf(r, mode, i - 1)
      case Pass => OptionsAt(r, mode, o, i - 1)
      case Adjust(n) => Merge(OptionsAt(r, mode, o, i - 1), n)
      case Try(_, _) => o
      case Stop => o
  }

  function Defaulted(r: Router, o: Options): (n: Options)
  {
    if o.strategy == AS_IS then o.(strategy := r.defaultStrategy) else o
  }

  /** The client call rule `i` leads to, or the default transport's call past the last rule. */
  function AttemptAt(r: Router, mode: Mode, o: Options, i: nat): (a: Attempt)
    requires i <= |r.rules|
  {
    AttemptWith(r, mode, OptionsAt(r, mode, o, i), i)
  }

  /** The client call at place `i` of the list for a query that comes there with options `n`. */
  function AttemptWith(r: Router, mode: Mode, n: Options, i: nat): (a: Attempt)
    requires i <= |r.rules|
  {
    if i == |r.rules| then Attempt(r.fallback, Defaulted(r, WithLegacy(n, r.fallback)), None)
    else match EffectOf(r, mode, i)
      case Try(t, m) => Attempt(Some(t), Defaulted(r, ForRoute(n, m, t)), Some(i))
      case _ => Attempt(None, Defaulted(r, n), Some(i))
  }

  /** Rule `i` decides the query: it refuses, answers, or routes with a response that is not retried. */
  predicate Decides(r: Router, mode: Mode, client: Attempt -> Reply, o: Options, i: nat)
    requires i <= |r.rules|
  {
    if i == |r.rules| then true
    else
      var e := EffectOf(r, mode, i);
      (e.Try? || e.Stop?) &&
      (mode.Settles(r.rules[i].action)
       || !(r.rules[i].addressLimit && mode.Retries(client(AttemptAt(r, mode, o, i)))))
  }

  function Decision(r: Router, mode: Mode, client: Attempt -> Reply, o: Options, i: nat): (d: Outcome)
    requires i <= |r.rules|
  {
    if i < |r.rules| && mode.Settles(r.rules[i].action) then Settled(i)
    else var a := AttemptAt(r, mode, o, i); Done(a, client(a))
  }

  /** `i` is the first rule that decides, or the place of the default transport. */
  ghost predicate FirstDeciding(r: Router, mode: Mode, client: Attempt -> Reply, o: Options, i: nat)
  {
    && i <= |r.rules|
    && Decides(r, mode, client, o, i)
    && forall j :: 0 <= j < i ==> !Decides(r, mode, client, o, j)
  }

  /** The scan from `i` passes over rules that neither try nor stop, and arrives with their options. */
  lemma {:induction false} ScanArrives(r: Router, mode: Mode, i: nat, o: Options, n: Options)
    requires i <= |r.rules| && OptionsAt(r, mode, o, i) == n
    ensures
      var s := Scan(r, mode, i, n);
      var k := if s.rule.Some? then s.rule.value else |r.rules|;
      && i <= k <= |r.rules|
      && (forall j :: i <= j < k ==> EffectOf(r, mode, j).Pass? || EffectOf(r, mode, j).Adjust?)
      && (k < |r.rules| ==> EffectOf(r, mode, k).Try? || EffectOf(r, mode, k).Stop?)
      && AttemptAt(r, mode, o, k) == Attempt(s.transport, Defaulted(r, s.options), s.rule)
    decreases |r.rules| - i
  {
    if i < |r.rules| {
      match EffectOf(r, mode, i)
      case Pass => ScanArrives(r, mode, i + 1, o, n);
      case Adjust(m) => ScanArrives(r, mode, i + 1, o, Merge(n, m));
      case Try(_, _) =>
      case Stop =>
    }
  }

  /** The position of an attempt in the list: its rule, or the end for the default transport. */
  function Place(r: Router, a: Attempt): (i: nat)
    ensures i <= |r.rules|
  {
    if a.rule.Some? && a.rule.value < |r.rules| then a.rule.value else |r.rules|
  }

  /** The attempts are those of their rules, at most `last`, each rule later than the one before. */
  ghost predicate InOrder(r: Router, mode: Mode, o: Options, attempts: seq<Attempt>, last: int)
  {
    && (forall k :: 0 <= k < |attempts| ==> Place(r, attempts[k]) <= last)
    && (forall k :: 0 <= k < |attempts| ==> attempts[k] == AttemptAt(r, mode, o, Place(r, attempts[k])))
    && (forall j, k :: 0 <= j < k < |attempts| ==> Place(r, attempts[j]) < Place(r, attempts[k]))
  }

  /** The place is put to the client when the query gets there; a settling rule is not. */
  predicate Calls(r: Router, mode: Mode, i: nat)
    requires i <= |r.rules|
  {
    i == |r.rules| || EffectOf(r, mode, i).Try?
    || (EffectOf(r, mode, i).Stop? && !mode.Settles(r.rules[i].action))
  }

  /** The calls of the client at the places before `end`, one after the other. */
  function Asked(r: Router, mode: Mode, o: Options, end: nat): (a: seq<Attempt>)
    requires end <= |r.rules| + 1
    ensures |a| <= end
  {
    if end == 0 then []
    else if Calls(r, mode, end - 1) then Asked(r, mode, o, end - 1) + [AttemptAt(r, mode, o, end - 1)]
    else Asked(r, mode, o, end - 1)
  }

  lemma {:induction false} AskedSkips(r: Router, mode: Mode, o: Options, start: nat, end: nat)
    requires start <= end <= |r.rules|
    requires forall j :: start <= j < end ==> EffectOf(r, mode, j).Pass? || EffectOf(r, mode, j).Adjust?
    ensures Asked(r, mode, o, end) == Asked(r, mode, o, start)
    decreases end - start
  {
    if start < end {
      AskedSkips(r, mode, o, start, end - 1);
    }
  }

  /** One more attempt, at a later place, keeps the attempts in order. */
  lemma {:induction false} InOrderStep(r: Router, mode: Mode, o: Options, front: seq<Attempt>, i: nat)
    requires i <= |r.rules| && InOrder(r, mode, o, front, i - 1)
    ensures InOrder(r, mode, o, front + [AttemptAt(r, mode, o, i)], i)
  {
    var a := AttemptAt(r, mode, o, i);
    assert Place(r, a) == i;
    hide EffectOf, AttemptAt, Place;
    forall k | 0 <= k < |front| + 1
      ensures Place(r, (front + [a])[k]) <= i
      ensures (front + [a])[k] == AttemptAt(r, mode, o, Place(r, (front + [a])[k]))
    {
      assert k < |front| ==> (front + [a])[k] == front[k];
    }
  }

  lemma {:induction false} AskedInOrder(r: Router, mode: Mode, o: Options, end: nat)
    requires end <= |r.rules| + 1
    ensures InOrder(r, mode, o, Asked(r, mode, o, end), end - 1)
    decreases end
  {
    if end > 0 {
      AskedInOrder(r, mode, o, end - 1);
      if Calls(r, mode, end - 1) {
        InOrderStep(r, mode, o, Asked(r, mode, o, end - 1), end - 1);
      } else {
        hide EffectOf, AttemptAt, Place;
      }
    }
  }

  /** The place before `end` of a call of the client. */
  lemma {:induction false} AskedComesFrom(r: Router, mode: Mode, o: Options, end: nat, k: nat) returns (i: nat)
    requires end <= |r.rules| + 1 && k < |Asked(r, mode, o, end)|
    ensures i < end && Calls(r, mode, i) && Asked(r, mode, o, end)[k] == AttemptAt(r, mode, o, i)
    decreases end
  {
    hide EffectOf, AttemptAt, Calls;
    if Calls(r, mode, end - 1) && k == |Asked(r, mode, o, end - 1)| {
      i := end - 1;
    } else {
      i := AskedComesFrom(r, mode, o, end - 1, k);
    }
  }

  /** The number of the call that a place before `end` leads to. */
  lemma {:induction false} AskedComesUp(r: Router, mode: Mode, o: Options, end: nat, i: nat) returns (k: nat)
    requires i < end <= |r.rules| + 1 && Calls(r, mode, i)
    ensures k < |Asked(r, mode, o, end)| && Asked(r, mode, o, end)[k] == AttemptAt(r, mode, o, i)
    decreases end
  {
    hide EffectOf, AttemptAt, Calls;
    if i == end - 1 {
      k := |Asked(r, mode, o, end - 1)|;
    } else {
      k := AskedComesUp(r, mode, o, end - 1, i);
    }
  }

  /** The outcome of the retry loop, and the calls of the client it made on the way. */
  ghost predicate Resolved(r: Router, mode: Mode, client: Attempt -> Reply, o: Options, result: Outcome,
                           attempts: seq<Attempt>, deciding: nat)
  {
    && FirstDeciding(r, mode, client, o, deciding)
    && result == Decision(r, mode, client, o, deciding)
    && attempts == Asked(r, mode, o, deciding + 1)
  }

  /**
   The retry loop of Exchange and Lookup. Its outcome is that of the first deciding rule of a single
   pass over the list; it calls the client at every place up to there that tries something, and at no
   other, at most once per rule and once for the default transport.
   */
  method Resolve(r: Router, mode: Mode, client: Attempt -> Reply, o: Options)
    returns (result: Outcome, attempts: seq<Attempt>, ghost deciding: nat)
    ensures Resolved(r, mode, client, o, result, attempts, deciding)
    ensures |attempts| <= |r.rules| + 1
    ensures InOrder(r, mode, o, attempts, deciding)
    ensures result.Done? ==> attempts != [] && result.attempt == attempts[|attempts| - 1]
  {
    var ruleIndex := -1;
    attempts := [];
    while true
      invariant -1 <= ruleIndex < |r.rules|
      invariant OptionsAt(r, mode, o, ruleIndex + 1) == o
      invariant forall j :: 0 <= j <= ruleIndex ==> !Decides(r, mode, client, o, j)
      invariant attempts == Asked(r, mode, o, ruleIndex + 1)
      decreases |r.rules| - ruleIndex
    {
      var s := MatchDNS(r, mode, ruleIndex, o);
      deciding := Arrival(r, mode, client, o, ruleIndex + 1, s);
      hide EffectOf, Scan, WithLegacy, InOrder, Place, Asked, AttemptAt, Decides, Calls, OptionsAt, Decision;
      if s.rule.Some? && mode.Settles(r.rules[s.rule.value].action) {
        return Settled(s.rule.value), attempts, deciding;
      }
      var checked := s.rule.Some? && r.rules[s.rule.value].addressLimit;
      var attempt := Attempt(s.transport, Defaulted(r, s.options), s.rule);
      var reply := client(attempt);
      attempts := attempts + [attempt];
      if checked && mode.Retries(reply) {
        ruleIndex := s.rule.value;
        continue;
      }
      return Done(attempt, reply), attempts, deciding;
    }
  }

  /** The scan from behind a retry: the rule it stops at, and what follows from the client's reply there. */
  lemma {:induction false} Arrival(r: Router, mode: Mode, client: Attempt -> Reply, o: Options, i: nat, s: Selection)
    returns (k: nat)
    requires i <= |r.rules| && OptionsAt(r, mode, o, i) == o && s == Scan(r, mode, i, o)
    ensures i <= k <= |r.rules| && (s.rule == if k < |r.rules| then Some(k) else None)
    ensures forall j :: i <= j < k ==> !Decides(r, mode, client, o, j)
    ensures InOrder(r, mode, o, Asked(r, mode, o, k + 1), k)
    ensures
      if k < |r.rules| && mode.Settles(r.rules[k].action) then
        && Asked(r, mode, o, k + 1) == Asked(r, mode, o, i)
        && Decides(r, mode, client, o, k) && Decision(r, mode, client, o, k) == Settled(k)
      else
        var a := Attempt(s.transport, Defaulted(r, s.options), s.rule);
        && Asked(r, mode, o, k + 1) == Asked(r, mode, o, i) + [a]
        && (k < |r.rules| ==> OptionsAt(r, mode, o, k + 1) == o)
        && Decision(r, mode, client, o, k) == Done(a, client(a))
        && (Decides(r, mode, client, o, k)
            <==> !(k < |r.rules| && r.rules[k].addressLimit && mode.Retries(client(a))))
  {
    ScanArrives(r, mode, i, o, o);
    k := if s.rule.Some? then s.rule.value else |r.rules|;
    AskedSkips(r, mode, o, i, k);
    AskedInOrder(r, mode, o, k + 1);
    hide EffectOf, Scan, WithLegacy, InOrder, Place;
    if k < |r.rules| && mode.Settles(r.rules[k].action) {
      SettlingStops(r, mode, k);
    }
  }

  /** A rule that settles the query does not try anything. */
  lemma {:induction false} SettlingStops(r: Router, mode: Mode, i: nat)
    requires i < |r.rules| && mode.Settles(r.rules[i].action)
    ensures !Calls(r, mode, i)
  {
  }

  /** No lookup that starts without an explicit transport consults a FakeIP transport, at any retry. */
  lemma {:induction false} LookupAvoidsFakeIP(r: Router, o: Options, attempts: seq<Attempt>, last: int, k: nat)
    requires r.fallback.Some? ==> !r.fallback.value.fakeIP
    requires InOrder(r, Lookup, o, attempts, last) && k < |attempts|
    ensures attempts[k].transport.Some? ==> !attempts[k].transport.value.fakeIP
  {
    assert attempts[k] == AttemptAt(r, Lookup, o, Place(r, attempts[k]));
  }

  // ---------------------------------------------------------------------------------------------
  // What the loop does, by the fields of the rules.
  // ---------------------------------------------------------------------------------------------

  /** The rule matches the query and is not passed over for its address limit. */
  predicate Applies(r: Router, mode: Mode, j: nat)
    requires j < |r.rules|
  {
    r.rules[j].matches && (r.rules[j].addressLimit ==> mode == Lookup || mode.addressQuery)
  }

  /** The rule's action answers the query by itself: it predefines an answer or refuses to give one. */
  predicate AnswersItself(mode: Mode, a: Action)
  {
    || a == Predefined
    || a == Reject(Default)
    || a == Reject(Drop)
    || (a == Reject(RejectMethod.Reply) && mode == Lookup)
  }

  /**
   A rule that applies and answers by itself is where the query ends at the latest: nothing is asked
   for it or after it, and if nothing earlier decided it is the outcome.
   */
  lemma {:induction false} RefusalEndsQuery(r: Router, mode: Mode, client: Attempt -> Reply, o: Options,
                                            result: Outcome, attempts: seq<Attempt>, deciding: nat, j: nat)
    requires Resolved(r, mode, client, o, result, attempts, deciding)
    requires j < |r.rules| && Applies(r, mode, j) && AnswersItself(mode, r.rules[j].action)
    ensures deciding <= j
    ensures forall k :: 0 <= k < |attempts| ==> attempts[k].rule.Some? && attempts[k].rule.value < j
    ensures deciding == j ==> result == Settled(j)
  {
    assert Decides(r, mode, client, o, j) && !Calls(r, mode, j);
    forall k | 0 <= k < |attempts|
      ensures attempts[k].rule.Some? && attempts[k].rule.value < j
    {
      var i := AskedComesFrom(r, mode, o, deciding + 1, k);
    }
  }

  /** An Exchange that meets the reply method of rejecting does not answer: it asks with no transport at all. */
  lemma {:induction false} ReplyRejectAsksNobody(r: Router, client: Attempt -> Reply, o: Options, result: Outcome,
                                                 attempts: seq<Attempt>, deciding: nat, j: nat, addressQuery: bool)
    requires Resolved(r, Exchange(addressQuery), client, o, result, attempts, deciding)
    requires j < |r.rules| && Applies(r, Exchange(addressQuery), j) && r.rules[j].action == Reject(RejectMethod.Reply)
    requires j <= deciding
    ensures exists k :: 0 <= k < |attempts| && attempts[k].rule == Some(j) && attempts[k].transport == None
  {
    var k := AskedComesUp(r, Exchange(addressQuery), o, deciding + 1, j);
    assert attempts[k].rule == Some(j) && attempts[k].transport == None;
  }

  /**
   A rule that applies and routes to a registered transport, one that is not barred FakeIP, is tried on
   exactly that transport unless an earlier rule decided.
   */
  lemma {:induction false} RouteIsTried(r: Router, mode: Mode, client: Attempt -> Reply, o: Options, result: Outcome,
                                        attempts: seq<Attempt>, deciding: nat, j: nat, server: Tag, n: Options)
    requires Resolved(r, mode, client, o, result, attempts, deciding)
    requires j < |r.rules| && j <= deciding && Applies(r, mode, j) && r.rules[j].action == Route(server, n)
    requires server in r.transports && (r.transports[server].fakeIP ==> mode != Lookup)
    ensures exists k :: 0 <= k < |attempts| && attempts[k].rule == Some(j)
                     && attempts[k].transport == Some(r.transports[server])
  {
    assert EffectOf(r, mode, j) == Try(r.transports[server], n);
    var k := AskedComesUp(r, mode, o, deciding + 1, j);
    assert attempts[k].rule == Some(j) && attempts[k].transport == Some(r.transports[server]);
  }

  /** Every call of the client comes from such a rule, from a reply rejection, or is the default's. */
  lemma {:induction false} NothingElseIsTried(r: Router, mode: Mode, client: Attempt -> Reply, o: Options,
                                              result: Outcome, attempts: seq<Attempt>, deciding: nat, k: nat)
    requires Resolved(r, mode, client, o, result, attempts, deciding) && k < |attempts|
    ensures match attempts[k].rule
      case None => deciding == |r.rules| && attempts[k].transport == r.fallback
      case Some(j) =>
        && j < |r.rules| && j <= deciding && Applies(r, mode, j)
        && match r.rules[j].action
           case Route(server, _) =>
             && server in r.transports && attempts[k].transport == Some(r.transports[server])
             && (r.transports[server].fakeIP ==> mode != Lookup)
           case Reject(method_) => method_ == RejectMethod.Reply && mode != Lookup && attempts[k].transport == None
           case _ => false
  {
    var i := AskedComesFrom(r, mode, o, deciding + 1, k);
  }

  /** A query that ends without an answer from the client ends at a rule that applies and answers by itself. */
  lemma {:induction false} SettledByRule(r: Router, mode: Mode, client: Attempt -> Reply, o: Options, result: Outcome,
                                         attempts: seq<Attempt>, deciding: nat, j: nat)
    requires Resolved(r, mode, client, o, result, attempts, deciding) && result == Settled(j)
    ensures deciding == j < |r.rules| && Applies(r, mode, j) && AnswersItself(mode, r.rules[j].action)
  {
    match r.rules[j].action
    case Reject(Reply) =>
    case Reject(Default) =>
    case Reject(Drop) =>
    case _ =>
  }

  /**
   The loop goes on after a call exactly when the rule is limited to addresses and the reply is a
   rejection (Exchange) or anything but an answer (Lookup): otherwise that call was the last.
   */
  lemma {:induction false} GoesOnExactly(r: Router, mode: Mode, client: Attempt -> Reply, o: Options, result: Outcome,
                                         attempts: seq<Attempt>, deciding: nat, k: nat)
    requires Resolved(r, mode, client, o, result, attempts, deciding) && k < |attempts|
    ensures var reply := client(attempts[k]);
      (result == Done(attempts[k], reply)) <==>
      !(attempts[k].rule.Some? && attempts[k].rule.value < |r.rules| && r.rules[attempts[k].rule.value].addressLimit
        && (reply == Rejected || reply == RejectedCached || (mode == Lookup && reply.Failed?)))
  {
    var i := AskedComesFrom(r, mode, o, deciding + 1, k);
    assert i == |r.rules| || attempts[k].rule == Some(i);
    if i < deciding {
      assert !Decides(r, mode, client, o, i);
    } else {
      assert Decides(r, mode, client, o, i);
    }
  }

  // ---------------------------------------------------------------------------------------------
  // A retry forgets the options set on the way to the attempt before it.
  // ---------------------------------------------------------------------------------------------

  const NOTHING := Options(AS_IS, false, None, None)

  /** What the route-options rules from `from` up to `i` set, later ones over earlier ones. */
  function Passed(r: Router, mode: Mode, from: nat, i: nat): (n: Options)
    requires i <= |r.rules|
    decreases i - from
  {
    if i <= from then NOTHING
    else match EffectOf(r, mode, i - 1)
      case Adjust(n) => Merge(Passed(r, mode, from, i - 1), n)
      case _ => Passed(r, mode, from, i - 1)
  }

  /** Where the scan that reaches `i` began: behind the last rule before `i` that tried or stopped. */
  function Resumed(r: Router, mode: Mode, i: nat): (start: nat)
    requires i <= |r.rules|
    ensures start <= i
  {
    if i == 0 || EffectOf(r, mode, i - 1).Try? || EffectOf(r, mode, i - 1).Stop? then i else Resumed(r, mode, i - 1)
  }

  lemma {:induction false} OptionsSince(r: Router, mode: Mode, o: Options, i: nat)
    requires i <= |r.rules|
    ensures OptionsAt(r, mode, o, i) == Merge(o, Passed(r, mode, Resumed(r, mode, i), i))
    decreases i
  {
    if i > 0 {
      OptionsSince(r, mode, o, i - 1);
    }
  }

  lemma {:induction false} PassedSplit(r: Router, mode: Mode, mid: nat, i: nat)
    requires mid <= i <= |r.rules|
    ensures Passed(r, mode, 0, i) == Merge(Passed(r, mode, 0, mid), Passed(r, mode, mid, i))
    decreases i
  {
    if mid < i {
      PassedSplit(r, mode, mid, i - 1);
    }
  }

  /** Every call of the client uses exactly the options set since the scan last resumed. */
  lemma {:induction false} AttemptsForgetOptions(r: Router, mode: Mode, o: Options, attempts: seq<Attempt>, last: int,
                                                 k: nat)
    requires InOrder(r, mode, o, attempts, last) && k < |attempts|
    ensures var i := Place(r, attempts[k]);
      attempts[k] == AttemptWith(r, mode, Merge(o, Passed(r, mode, Resumed(r, mode, i), i)), i)
  {
    OptionsSince(r, mode, o, Place(r, attempts[k]));
  }

  /** The rule at `j` is a route-options rule that applies. */
  predicate SetsOptions(r: Router, mode: Mode, j: nat)
    requires j < |r.rules|
  {
    Applies(r, mode, j) && r.rules[j].action.RouteOptions?
  }

  /** Of several route-options rules passed, each field is that of the last one that sets it. */
  lemma {:induction false} LastSetterWins(r: Router, mode: Mode, from: nat, i: nat, j: nat)
    requires from <= j < i <= |r.rules| && SetsOptions(r, mode, j)
    ensures var n, passed := r.rules[j].action.options, Passed(r, mode, from, i);
      && (n.strategy != AS_IS
          && (forall l :: j < l < i && SetsOptions(r, mode, l) ==> r.rules[l].action.options.strategy == AS_IS)
          ==> passed.strategy == n.strategy)
      && (n.disableCache ==> passed.disableCache)
      && (n.rewriteTTL.Some?
          && (forall l :: j < l < i && SetsOptions(r, mode, l) ==> r.rules[l].action.options.rewriteTTL == None)
          ==> passed.rewriteTTL == n.rewriteTTL)
      && (n.clientSubnet.Some?
          && (forall l :: j < l < i && SetsOptions(r, mode, l) ==> r.rules[l].action.options.clientSubnet == None)
          ==> passed.clientSubnet == n.clientSubnet)
    decreases i
  {
    if j < i - 1 {
      LastSetterWins(r, mode, from, i - 1, j);
    }
  }

  /** What no route-options rule passed sets stays unset. */
  lemma {:induction false} UnsetStaysUnset(r: Router, mode: Mode, from: nat, i: nat)
    requires from <= i <= |r.rules|
    ensures var passed := Passed(r, mode, from, i);
      && ((forall l :: from <= l < i && SetsOptions(r, mode, l) ==> r.rules[l].action.options.strategy == AS_IS)
          ==> passed.strategy == AS_IS)
      && ((forall l :: from <= l < i && SetsOptions(r, mode, l) ==> !r.rules[l].action.options.disableCache)
          ==> !passed.disableCache)
      && ((forall l :: from <= l < i && SetsOptions(r, mode, l) ==> r.rules[l].action.options.rewriteTTL == None)
          ==> passed.rewriteTTL == None)
      && ((forall l :: from <= l < i && SetsOptions(r, mode, l) ==> r.rules[l].action.options.clientSubnet == None)
          ==> passed.clientSubnet == None)
    decreases i
  {
    if from < i {
      UnsetStaysUnset(r, mode, from, i - 1);
    }
  }

  /** What the rule at `i` itself sets when it routes the query, and where it routes to. */
  function OwnOptions(r: Router, mode: Mode, i: nat): (n: Options)
    requires i <= |r.rules|
  {
    if i < |r.rules| && EffectOf(r, mode, i).Try? then
      var e := EffectOf(r, mode, i);
      e.options.(disableCache := e.options.disableCache || e.transport.fakeIP)
    else NOTHING
  }

  function Target(r: Router, mode: Mode, i: nat): (t: Option<Transport>)
    requires i <= |r.rules|
  {
    if i == |r.rules| then r.fallback
    else if EffectOf(r, mode, i).Try? then Some(EffectOf(r, mode, i).transport) else None
  }

  /** The strategy and the subnet a call ends up with, the transport's and the router's defaults included. */
  function FinalStrategy(r: Router, t: Option<Transport>, strategy: Strategy): (s: Strategy)
  {
    if strategy != AS_IS then strategy
    else if t.Some? && t.value.legacy.Some? && t.value.legacy.value.0 != AS_IS then t.value.legacy.value.0
    else r.defaultStrategy
  }

  function FinalSubnet(t: Option<Transport>, subnet: Option<nat>): (s: Option<nat>)
  {
    if subnet == None && t.Some? && t.value.legacy.Some? then t.value.legacy.value.1 else subnet
  }

  /**
   Nothing that was set before the scan resumed makes a difference at `i`: each field is set again
   later, or ends up the same without it.
   */
  predicate NothingDropped(r: Router, mode: Mode, o: Options, i: nat)
    requires i <= |r.rules|
  {
    var start, t := Resumed(r, mode, i), Target(r, mode, i);
    var dropped, kept := Passed(r, mode, 0, start), Merge(Passed(r, mode, start, i), OwnOptions(r, mode, i));
    && (kept.strategy != AS_IS || dropped.strategy == AS_IS
        || FinalStrategy(r, t, dropped.strategy) == FinalStrategy(r, t, o.strategy))
    && (dropped.disableCache ==> o.disableCache || kept.disableCache)
    && (kept.rewriteTTL.Some? || dropped.rewriteTTL.None? || dropped.rewriteTTL == o.rewriteTTL)
    && (kept.clientSubnet.Some? || dropped.clientSubnet.None?
        || FinalSubnet(t, dropped.clientSubnet) == FinalSubnet(t, o.clientSubnet))
  }

  lemma {:induction false} AttemptFields(r: Router, mode: Mode, n: Options, i: nat)
    requires i <= |r.rules|
    ensures var a, m := AttemptWith(r, mode, n, i), Merge(n, OwnOptions(r, mode, i));
      a == Attempt(Target(r, mode, i),
        Options(FinalStrategy(r, Target(r, mode, i), m.strategy), m.disableCache, m.rewriteTTL,
          FinalSubnet(Target(r, mode, i), m.clientSubnet)),
        if i < |r.rules| then Some(i) else None)
  {
  }

  /**
   The call at place `i` is the one that all route-options rules passed on the way ask for if and only
   if no option set before the last retry made a difference.
   */
  lemma {:induction false} RetryDropsOptionsExactly(r: Router, mode: Mode, o: Options, i: nat)
    requires i <= |r.rules|
    ensures AttemptAt(r, mode, o, i) == AttemptWith(r, mode, Merge(o, Passed(r, mode, 0, i)), i)
       <==> NothingDropped(r, mode, o, i)
  {
    var start := Resumed(r, mode, i);
    OptionsSince(r, mode, o, i);
    PassedSplit(r, mode, start, i);
    AttemptFields(r, mode, Merge(o, Passed(r, mode, start, i)), i);
    AttemptFields(r, mode, Merge(o, Passed(r, mode, 0, i)), i);
    hide EffectOf, Passed, Resumed, OptionsAt, OwnOptions, Target;
  }

  /** A router whose second attempt uses the cache although a rule on the way turned it off. */
  lemma {:induction false} DroppedOptionExample(a: Transport, b: Transport)
    returns (r: Router, client: Attempt -> Reply)
    requires a.tag != b.tag && !a.fakeIP && !b.fakeIP && b.legacy.None?
    ensures |r.rules| == 3 && EffectOf(r, Lookup, 0) == Adjust(NOTHING.(disableCache := true))
    ensures FirstDeciding(r, Lookup, client, NOTHING, 2)
    ensures AttemptAt(r, Lookup, NOTHING, 2).transport == Some(b)
    ensures !AttemptAt(r, Lookup, NOTHING, 2).options.disableCache
    ensures !NothingDropped(r, Lookup, NOTHING, 2)
  {
    var off := Rule(false, true, RouteOptions(NOTHING.(disableCache := true)));
    r := Router([off, Rule(true, true, Route(a.tag, NOTHING)), Rule(false, true, Route(b.tag, NOTHING))],
                map[a.tag := a, b.tag := b], None, AS_IS);
    client := (attempt: Attempt) => if attempt.rule == Some(1) then Rejected else Answer(0);
    assert EffectOf(r, Lookup, 0) == Adjust(NOTHING.(disableCache := true));
    assert EffectOf(r, Lookup, 1) == Try(a, NOTHING) && EffectOf(r, Lookup, 2) == Try(b, NOTHING);
    assert OptionsAt(r, Lookup, NOTHING, 2) == NOTHING;
    assert Resumed(r, Lookup, 2) == 2 && Passed(r, Lookup, 0, 0) == NOTHING;
    assert Passed(r, Lookup, 0, 1) == Merge(NOTHING, NOTHING.(disableCache := true));
    assert Passed(r, Lookup, 0, 2) == Passed(r, Lookup, 0, 1);
    assert !Decides(r, Lookup, client, NOTHING, 1);
  }
}
