/**
 Matching a connection against the route rules (route/route.go). One loop serves two callers: the
 pre-match of a packet interface, which cannot sniff, and the full match of a connection. Rules
 rewrite the connection's metadata while the loop passes them.
 */
module RuleMatch {
  import opened Common

  type Addr = nat

  datatype Network = TCP | UDP | ICMP

  datatype Socksaddr = Socksaddr(addr: Option<Addr>, fqdn: Tag, port: nat) {
    predicate IsValid() { addr.Some? || fqdn != NO_TAG }
  }

  datatype Metadata = Metadata(
    network: Network,
    source: Socksaddr,
    destination: Socksaddr,
    originDestination: Socksaddr,
    routeOriginalDestination: Socksaddr,
    destinationAddresses: seq<Addr>,
    ipVersion: nat,
    domain: Tag,
    sniffed: Option<nat>,
    process: Option<nat>,
    fakeIP: bool,
    networkStrategy: Option<nat>,
    networkType: seq<nat>,
    fallbackNetworkType: seq<nat>,
    fallbackDelay: nat,
    udpDisableDomainUnmapping: bool,
    udpConnect: bool,
    udpTimeout: nat,
    tlsFragment: bool,
    tlsFragmentFallbackDelay: nat,
    tlsRecordFragment: bool)

  datatype RouteOptions = RouteOptions(
    overrideAddress: Socksaddr,
    overridePort: nat,
    networkStrategy: Option<nat>,
    networkType: seq<nat>,
    fallbackNetworkType: seq<nat>,
    fallbackDelay: nat,
    udpDisableDomainUnmapping: bool,
    udpConnect: bool,
    udpTimeout: nat,
    tlsFragment: bool,
    tlsFragmentFallbackDelay: nat,
    tlsRecordFragment: bool)

  /** A bypass carries route options too, which matching does not apply. */
  datatype Action =
    | Route(outbound: Tag, options: RouteOptions)
    | SetOptions(options: RouteOptions)
    | Bypass(outbound: Tag)
    | Reject
    | HijackDNS
    | Sniff
    | Resolve

  type Failure = nat

  datatype Sniffed = Sniffed(metadata: Metadata, buffers: seq<nat>, failure: Option<Failure>)

  datatype FakeEntry = NotFake | Missing | Fake(domain: Tag)

  /** The parts of the router that matching consults; each is a function of what it is given. */
  datatype World = World(
    findProcess: Metadata -> Option<nat>,
    fakeIP: Addr -> FakeEntry,
    reverseMapping: Option<Addr> -> Option<Tag>,
    ipVersion: Socksaddr -> Option<nat>,
    matches: (nat, Metadata) -> bool,
    resolve: (nat, Metadata) -> Result<Option<seq<Addr>>, Failure>,
    sniff: (nat, Metadata) -> Sniffed)

  datatype Mode = Mode(preMatch: bool, supportBypass: bool)

  const FULL := Mode(false, false)

  datatype Outcome = Outcome(selected: Option<nat>, metadata: Metadata, buffers: seq<nat>, fatal: Option<Failure>)

  const MISSING_FAKEIP: Failure := 0

  // ---------------------------------------------------------------------------------------------
  // Preparing the metadata and rewriting it.
  // ---------------------------------------------------------------------------------------------

  function Owner(w: World, m: Metadata): (r: Option<nat>)
  {
    if m.process.None? then w.findProcess(m) else m.process
  }

  /** FakeIP addresses give way to their names; other addresses may have a name remembered for them. */
  function Named(w: World, m: Metadata): (r: Result<Metadata, Failure>)
  {
    match if m.destination.addr.Some? then w.fakeIP(m.destination.addr.value) else NotFake
    case Missing => Err(MISSING_FAKEIP)
    case Fake(domain) =>
      Ok(if domain == NO_TAG then m
         else m.(originDestination := m.destination, fakeIP := true,
                 destination := Socksaddr(None, domain, m.destination.port)))
    case NotFake =>
      var known := w.reverseMapping(m.destination.addr);
      Ok(if m.domain == NO_TAG && known.Some? then m.(domain := known.value) else m)
  }

  function Versioned(w: World, m: Metadata): (r: Metadata)
  {
    var version := w.ipVersion(m.destination);
    if version.Some? then m.(ipVersion := version.value) else m
  }

  /** The metadata the rules are matched against, or a failure for a FakeIP address without a record. */
  function Prepared(w: World, m: Metadata): (r: Result<Metadata, Failure>)
  {
    match Named(w, m.(process := Owner(w, m)))
    case Err(failure) => Err(failure)
    case Ok(named) => Ok(Versioned(w, named))
  }

  predicate Overrides(o: RouteOptions)
  {
    o.overrideAddress.IsValid() || o.overridePort > 0
  }

  /** The destination under the options: host and port are overridden independently. */
  function Redirected(d: Socksaddr, o: RouteOptions): (r: Socksaddr)
  {
    var host := if o.overrideAddress.IsValid() then o.overrideAddress else d;
    Socksaddr(host.addr, host.fqdn, if o.overridePort > 0 then o.overridePort else d.port)
  }

  function Rewritten(m: Metadata, o: RouteOptions): (r: Metadata)
  {
    m.(destination := Redirected(m.destination, o),
       routeOriginalDestination :=
         if Overrides(o) && !m.routeOriginalDestination.IsValid() then m.destination else m.routeOriginalDestination,
       destinationAddresses := if o.overrideAddress.IsValid() then [] else m.destinationAddresses,
       networkStrategy := if o.networkStrategy.Some? then o.networkStrategy else m.networkStrategy,
       networkType := if o.networkType != [] then o.networkType else m.networkType,
       fallbackNetworkType := if o.fallbackNetworkType != [] then o.fallbackNetworkType else m.fallbackNetworkType,
       fallbackDelay := if o.fallbackDelay != 0 then o.fallbackDelay else m.fallbackDelay,
       udpDisableDomainUnmapping := m.udpDisableDomainUnmapping || o.udpDisableDomainUnmapping,
       udpConnect := m.udpConnect || o.udpConnect,
       udpTimeout := if o.udpTimeout > 0 then o.udpTimeout else m.udpTimeout,
       tlsFragment := m.tlsFragment || o.tlsFragment,
       tlsFragmentFallbackDelay := if o.tlsFragment then o.tlsFragmentFallbackDelay else m.tlsFragmentFallbackDelay,
       tlsRecordFragment := m.tlsRecordFragment || o.tlsRecordFragment)
  }

  function OptionsOf(a: Action): (r: Option<RouteOptions>)
  {
    match a
    case Route(_, options) => Some(options)
    case SetOptions(options) => Some(options)
    case _ => None
  }

  function AfterOptions(a: Action, m: Metadata): (r: Metadata)
  {
    if OptionsOf(a).Some? then Rewritten(m, OptionsOf(a).value) else m
  }

  // ---------------------------------------------------------------------------------------------
  // What preparing and rewriting achieve.
  // ---------------------------------------------------------------------------------------------

  /** The destination is an address the FakeIP store handed out. */
  predicate IsFake(w: World, d: Socksaddr)
  {
    d.addr.Some? && !w.fakeIP(d.addr.value).NotFake?
  }

  /**
   Preparing fails exactly for a FakeIP address whose record is gone. Otherwise no FakeIP address with
   a name reaches the rules: they see that name at the same port, and the address is kept beside it.
   */
  lemma {:induction false} PreparedSettles(w: World, m: Metadata)
    ensures Prepared(w, m).Err? <==> IsFake(w, m.destination) && w.fakeIP(m.destination.addr.value).Missing?
    ensures Prepared(w, m).Ok? ==>
      var r := Prepared(w, m).value;
      && (IsFake(w, r.destination) ==> w.fakeIP(r.destination.addr.value) == Fake(NO_TAG))
      && (r.destination != m.destination <==> IsFake(w, m.destination) && !IsFake(w, r.destination))
      && (r.destination != m.destination ==>
            && r.fakeIP && r.originDestination == m.destination && r.destination.port == m.destination.port
            && w.fakeIP(m.destination.addr.value) == Fake(r.destination.fqdn))
  {
  }

  lemma {:induction false} NamedKeepsTheRest(w: World, m: Metadata)
    ensures Named(w, m).Ok? ==>
      var r := Named(w, m).value;
      && (m.domain != NO_TAG ==> r.domain == m.domain)
      && r == m.(domain := r.domain, destination := r.destination, fakeIP := r.fakeIP,
                 originDestination := r.originDestination)
  {
  }

  /** Preparing never replaces what was known already, and changes nothing but what it settles. */
  lemma {:induction false} PreparedKeepsTheRest(w: World, m: Metadata)
    ensures Prepared(w, m).Ok? ==>
      var r := Prepared(w, m).value;
      && (m.process.Some? ==> r.process == m.process)
      && (m.domain != NO_TAG ==> r.domain == m.domain)
      && (w.ipVersion(r.destination).Some? ==> r.ipVersion == w.ipVersion(r.destination).value)
      && r == m.(process := r.process, domain := r.domain, destination := r.destination, fakeIP := r.fakeIP,
                 originDestination := r.originDestination, ipVersion := r.ipVersion)
  {
    NamedKeepsTheRest(w, m.(process := Owner(w, m)));
    hide Named;
  }

  /** What preparing settles comes from its sources: the process, the name, the FakeIP mark and the version. */
  lemma {:induction false} PreparedFills(w: World, m: Metadata)
    ensures Prepared(w, m).Ok? ==>
      var r := Prepared(w, m).value;
      && (m.process.None? ==> r.process == w.findProcess(m))
      && (m.domain == NO_TAG && !IsFake(w, m.destination) && w.reverseMapping(m.destination.addr).Some? ==>
            r.domain == w.reverseMapping(m.destination.addr).value)
      && (IsFake(w, m.destination) || w.reverseMapping(m.destination.addr).None? ==> r.domain == m.domain)
      && (r.destination == m.destination ==> r.fakeIP == m.fakeIP && r.originDestination == m.originDestination)
      && (w.ipVersion(r.destination).None? ==> r.ipVersion == m.ipVersion)
  {
    hide Named, IsFake, Owner, Versioned;
    var searched := m.(process := Owner(w, m));
    NamedFills(w, searched);
    NamedKeepsTheRest(w, searched);
    OwnerIs(w, m);
    if Named(w, searched).Ok? {
      VersionedIs(w, Named(w, searched).value);
    }
  }

  lemma {:induction false} OwnerIs(w: World, m: Metadata)
    ensures m.process.None? ==> Owner(w, m) == w.findProcess(m)
  {
  }

  lemma {:induction false} VersionedIs(w: World, m: Metadata)
    ensures var r := Versioned(w, m);
      && r.process == m.process && r.domain == m.domain && r.destination == m.destination && r.fakeIP == m.fakeIP
      && r.originDestination == m.originDestination
      && (w.ipVersion(m.destination).None? ==> r.ipVersion == m.ipVersion)
  {
  }

  lemma {:induction false} NamedFills(w: World, m: Metadata)
    ensures Named(w, m).Ok? ==>
      var r, known := Named(w, m).value, w.reverseMapping(m.destination.addr);
      && (m.domain == NO_TAG && !IsFake(w, m.destination) && known.Some? ==> r.domain == known.value)
      && (IsFake(w, m.destination) || known.None? ==> r.domain == m.domain)
      && (r.destination == m.destination ==> r.fakeIP == m.fakeIP && r.originDestination == m.originDestination)
  {
  }

  /** Two sets of options as one: what the later one sets wins, and what it leaves unset stays. */
  function Combined(a: RouteOptions, b: RouteOptions): (r: RouteOptions)
  {
    RouteOptions(
      if b.overrideAddress.IsValid() then b.overrideAddress else a.overrideAddress,
      if b.overridePort > 0 then b.overridePort else a.overridePort,
      if b.networkStrategy.Some? then b.networkStrategy else a.networkStrategy,
      if b.networkType != [] then b.networkType else a.networkType,
      if b.fallbackNetworkType != [] then b.fallbackNetworkType else a.fallbackNetworkType,
      if b.fallbackDelay != 0 then b.fallbackDelay else a.fallbackDelay,
      a.udpDisableDomainUnmapping || b.udpDisableDomainUnmapping,
      a.udpConnect || b.udpConnect,
      if b.udpTimeout > 0 then b.udpTimeout else a.udpTimeout,
      a.tlsFragment || b.tlsFragment,
      if b.tlsFragment then b.tlsFragmentFallbackDelay else a.tlsFragmentFallbackDelay,
      a.tlsRecordFragment || b.tlsRecordFragment)
  }

  /** The first override finds no destination to remember, and so the second remembers the first's. */
  predicate ForgetsOrigin(m: Metadata, a: RouteOptions, b: RouteOptions)
  {
    && !m.destination.IsValid() && !m.routeOriginalDestination.IsValid()
    && Overrides(a) && Overrides(b) && Redirected(m.destination, a) != m.destination
  }

  /**
   Applying the options of two rules one after the other is applying their combination, if and only if
   the connection had a destination to begin with (or the rules do not both override it).
   */
  lemma {:induction false} OptionsCompose(m: Metadata, a: RouteOptions, b: RouteOptions)
    ensures Rewritten(Rewritten(m, a), b) == Rewritten(m, Combined(a, b)) <==> !ForgetsOrigin(m, a, b)
  {
    RedirectedTwice(m.destination, a, b);
    hide Redirected;
    var twice, once := Rewritten(Rewritten(m, a), b), Rewritten(m, Combined(a, b));
    assert twice == once.(routeOriginalDestination := twice.routeOriginalDestination);
  }

  lemma {:induction false} RedirectedTwice(d: Socksaddr, a: RouteOptions, b: RouteOptions)
    ensures Redirected(Redirected(d, a), b) == Redirected(d, Combined(a, b))
    ensures !Overrides(a) ==> Redirected(d, a) == d
    ensures Overrides(Combined(a, b)) <==> Overrides(a) || Overrides(b)
    ensures d.IsValid() ==> Redirected(d, a).IsValid()
  {
  }

  // ---------------------------------------------------------------------------------------------
  // One rule, and the walk over all of them.
  // ---------------------------------------------------------------------------------------------

  /** The metadata after a matched rule, the data sniffed on the way and a failure that ends the walk. */
  function Effect(w: World, mode: Mode, k: nat, a: Action, m: Metadata): (r: Sniffed)
  {
    var m1 := AfterOptions(a, m);
    match a
    case Sniff => if mode.preMatch then Sniffed(m1, [], None) else w.sniff(k, m1)
    case Resolve =>
      (match w.resolve(k, m1)
       case Err(failure) => Sniffed(m1, [], Some(failure))
       case Ok(None) => Sniffed(m1, [], None)
       case Ok(Some(addresses)) => Sniffed(m1.(destinationAddresses := addresses), [], None))
    case _ => Sniffed(m1, [], None)
  }

  /** A matched rule with this action ends the walk. */
  predicate Final(mode: Mode, a: Action, network: Network)
  {
    match a
    case Route(_, _) => true
    case Reject => true
    case HijackDNS => true
    case Bypass(outbound) => mode.supportBypass || outbound != NO_TAG
    case Sniff => mode.preMatch && !network.ICMP?
    case SetOptions(_) => false
    case Resolve => false
  }

  function Walk(w: World, mode: Mode, rules: seq<Action>, k: nat, m: Metadata, buffers: seq<nat>): (r: Outcome)
    requires k <= |rules|
    decreases |rules| - k
  {
    if k == |rules| then Outcome(None, m, buffers, None)
    else if !w.matches(k, m) then Walk(w, mode, rules, k + 1, m, buffers)
    else
      var effect := Effect(w, mode, k, rules[k], m);
      if effect.failure.Some? then Outcome(None, effect.metadata, buffers + effect.buffers, effect.failure)
      else if Final(mode, rules[k], m.network) then Outcome(Some(k), effect.metadata, buffers + effect.buffers, None)
      else Walk(w, mode, rules, k + 1, effect.metadata, buffers + effect.buffers)
  }

  function Match(w: World, mode: Mode, rules: seq<Action>, m: Metadata): (r: Outcome)
  {
    match Prepared(w, m)
    case Err(failure) => Outcome(None, m.(process := Owner(w, m)), [], Some(failure))
    case Ok(ready) => Walk(w, mode, rules, 0, ready, [])
  }

  // ---------------------------------------------------------------------------------------------
  // The loop that works on the connection's context.
  // ---------------------------------------------------------------------------------------------

  class InboundContext {
    var metadata: Metadata

    constructor (metadata: Metadata)
      ensures this.metadata == metadata
    {
      this.metadata := metadata;
    }

    method Redirect(o: RouteOptions)
      modifies this
      ensures metadata.destination == Redirected(old(metadata).destination, o)
      ensures metadata.routeOriginalDestination ==
        if Overrides(o) && !old(metadata).routeOriginalDestination.IsValid() then old(metadata).destination
        else old(metadata).routeOriginalDestination
      ensures metadata.destinationAddresses ==
        if o.overrideAddress.IsValid() then [] else old(metadata).destinationAddresses
      ensures metadata == old(metadata).(destination := metadata.destination,
        routeOriginalDestination := metadata.routeOriginalDestination,
        destinationAddresses := metadata.destinationAddresses)
    {
      if (o.overrideAddress.IsValid() || o.overridePort > 0) && !metadata.routeOriginalDestination.IsValid() {
        metadata := metadata.(routeOriginalDestination := metadata.destination);
      }
      if o.overrideAddress.IsValid() {
        metadata := metadata.(destination := o.overrideAddress.(port := metadata.destination.port));
        metadata := metadata.(destinationAddresses := []);
      }
      if o.overridePort > 0 {
        metadata := metadata.(destination := metadata.destination.(port := o.overridePort));
      }
    }

    method SetNetworks(o: RouteOptions)
      modifies this
      ensures metadata == old(metadata).(
        networkStrategy := if o.networkStrategy.Some? then o.networkStrategy else old(metadata).networkStrategy,
        networkType := if o.networkType != [] then o.networkType else old(metadata).networkType,
        fallbackNetworkType :=
          if o.fallbackNetworkType != [] then o.fallbackNetworkType else old(metadata).fallbackNetworkType,
        fallbackDelay := if o.fallbackDelay != 0 then o.fallbackDelay else old(metadata).fallbackDelay)
    {
      if o.networkStrategy.Some? {
        metadata := metadata.(networkStrategy := o.networkStrategy);
      }
      if |o.networkType| > 0 {
        metadata := metadata.(networkType := o.networkType);
      }
      if |o.fallbackNetworkType| > 0 {
        metadata := metadata.(fallbackNetworkType := o.fallbackNetworkType);
      }
      if o.fallbackDelay != 0 {
        metadata := metadata.(fallbackDelay := o.fallbackDelay);
      }
    }

    method SetPackets(o: RouteOptions)
      modifies this
      ensures metadata == old(metadata).(
        udpDisableDomainUnmapping := old(metadata).udpDisableDomainUnmapping || o.udpDisableDomainUnmapping,
        udpConnect := old(metadata).udpConnect || o.udpConnect,
        udpTimeout := if o.udpTimeout > 0 then o.udpTimeout else old(metadata).udpTimeout)
    {
      if o.udpDisableDomainUnmapping {
        metadata := metadata.(udpDisableDomainUnmapping := true);
      }
      if o.udpConnect {
        metadata := metadata.(udpConnect := true);
      }
      if o.udpTimeout > 0 {
        metadata := metadata.(udpTimeout := o.udpTimeout);
      }
    }

    method SetFragments(o: RouteOptions)
      modifies this
      ensures metadata == old(metadata).(
        tlsFragment := old(metadata).tlsFragment || o.tlsFragment,
        tlsFragmentFallbackDelay :=
          if o.tlsFragment then o.tlsFragmentFallbackDelay else old(metadata).tlsFragmentFallbackDelay,
        tlsRecordFragment := old(metadata).tlsRecordFragment || o.tlsRecordFragment)
    {
      if o.tlsFragment {
        metadata := metadata.(tlsFragment := true);
        metadata := metadata.(tlsFragmentFallbackDelay := o.tlsFragmentFallbackDelay);
      }
      if o.tlsRecordFragment {
        metadata := metadata.(tlsRecordFragment := true);
      }
    }

    method ApplyOptions(o: RouteOptions)
      modifies this
      ensures metadata == Rewritten(old(metadata), o)
    {
      Redirect(o);
      SetNetworks(o);
      SetPackets(o);
      SetFragments(o);
    }

    method SearchProcess(w: World)
      modifies this
      ensures metadata == old(metadata).(process := Owner(w, old(metadata)))
    {
      if metadata.process.None? {
        metadata := metadata.(process := w.findProcess(metadata));
      }
    }

    method Prepare(w: World) returns (failure: Option<Failure>)
      modifies this
      ensures match Prepared(w, old(metadata))
        case Err(e) => failure == Some(e) && metadata == old(metadata).(process := Owner(w, old(metadata)))
        case Ok(ready) => failure == None && metadata == ready
    {
      SearchProcess(w);
      var fake := if metadata.destination.addr.Some? then w.fakeIP(metadata.destination.addr.value) else NotFake;
      if fake.Missing? {
        return Some(MISSING_FAKEIP);
      } else if fake.Fake? {
        if fake.domain != NO_TAG {
          metadata := metadata.(originDestination := metadata.destination,
            destination := Socksaddr(None, fake.domain, metadata.destination.port), fakeIP := true);
        }
      } else if metadata.domain == NO_TAG {
        var domain := w.reverseMapping(metadata.destination.addr);
        if domain.Some? {
          metadata := metadata.(domain := domain.value);
        }
      }
      var version := w.ipVersion(metadata.destination);
      if version.Some? {
        metadata := metadata.(ipVersion := version.value);
      }
      return None;
    }

    method Run(w: World, mode: Mode, k: nat, a: Action) returns (buffers: seq<nat>, failure: Option<Failure>)
      modifies this
      ensures Sniffed(metadata, buffers, failure) == Effect(w, mode, k, a, old(metadata))
    {
      buffers, failure := [], None;
      if OptionsOf(a).Some? {
        ApplyOptions(OptionsOf(a).value);
      }
      if a.Sniff? && !mode.preMatch {
        var sniffed := w.sniff(k, metadata);
        metadata, buffers, failure := sniffed.metadata, sniffed.buffers, sniffed.failure;
      } else if a.Resolve? {
        var resolved := w.resolve(k, metadata);
        if resolved.Err? {
          failure := Some(resolved.error);
        } else if resolved.value.Some? {
          metadata := metadata.(destinationAddresses := resolved.value.value);
        }
      }
    }

    method MatchRule(w: World, mode: Mode, rules: seq<Action>)
      returns (selected: Option<nat>, buffers: seq<nat>, fatal: Option<Failure>)
      modifies this
      ensures Outcome(selected, metadata, buffers, fatal) == Match(w, mode, rules, old(metadata))
    {
      buffers := [];
      fatal := Prepare(w);
      if fatal.Some? {
        return None, [], fatal;
      }
      hide Prepared, Effect;
      ghost var ready := metadata;
      for k := 0 to |rules|
        invariant fatal.None?
        invariant Walk(w, mode, rules, k, metadata, buffers) == Walk(w, mode, rules, 0, ready, [])
      {
        if !w.matches(k, metadata) {
          continue;
        }
        var network := metadata.network;
        var found;
        found, fatal := Run(w, mode, k, rules[k]);
        buffers := buffers + found;
        if fatal.Some? {
          return None, buffers, fatal;
        }
        if Final(mode, rules[k], network) {
          return Some(k), buffers, None;
        }
      }
      return None, buffers, None;
    }
  }

  // ---------------------------------------------------------------------------------------------
  // The walk ends at the first rule that matches and is final.
  // ---------------------------------------------------------------------------------------------

  datatype Arrival = Arrival(metadata: Metadata, buffers: seq<nat>)

  /** What the walk carries when it comes to rule `k`, if no rule before it ended the walk. */
  function Arrives(w: World, mode: Mode, rules: seq<Action>, m: Metadata, k: nat): (r: Option<Arrival>)
    requires k <= |rules|
  {
    if k == 0 then Some(Arrival(m, []))
    else
      match Arrives(w, mode, rules, m, k - 1)
      case None => None
      case Some(here) =>
        if !w.matches(k - 1, here.metadata) then Some(here)
        else if Ends(w, mode, rules, k - 1, here.metadata) then None
        else
          var effect := Effect(w, mode, k - 1, rules[k - 1], here.metadata);
          Some(Arrival(effect.metadata, here.buffers + effect.buffers))
  }

  predicate Ends(w: World, mode: Mode, rules: seq<Action>, k: nat, m: Metadata)
    requires k < |rules|
  {
    && w.matches(k, m)
    && (Final(mode, rules[k], m.network) || Effect(w, mode, k, rules[k], m).failure.Some?)
  }

  lemma {:induction false} WalkFromArrival(w: World, mode: Mode, rules: seq<Action>, m: Metadata, k: nat)
    requires k <= |rules| && Arrives(w, mode, rules, m, k).Some?
    ensures var here := Arrives(w, mode, rules, m, k).value;
      Walk(w, mode, rules, k, here.metadata, here.buffers) == Walk(w, mode, rules, 0, m, [])
    decreases k
  {
    hide Effect;
    if k > 0 {
      WalkFromArrival(w, mode, rules, m, k - 1);
    }
  }

  lemma {:induction false} WalkGoesForward(w: World, mode: Mode, rules: seq<Action>, k: nat, m: Metadata,
                                           buffers: seq<nat>)
    requires k <= |rules|
    ensures var r := Walk(w, mode, rules, k, m, buffers);
      r.selected.Some? ==> k <= r.selected.value < |rules| && r.fatal.None?
    decreases |rules| - k
  {
    hide Effect;
    if k < |rules| {
      if !w.matches(k, m) {
        WalkGoesForward(w, mode, rules, k + 1, m, buffers);
      } else {
        var effect := Effect(w, mode, k, rules[k], m);
        WalkGoesForward(w, mode, rules, k + 1, effect.metadata, buffers + effect.buffers);
      }
    }
  }

  lemma {:induction false} EarlierArrival(w: World, mode: Mode, rules: seq<Action>, m: Metadata, j: nat, k: nat)
    requires j <= k <= |rules| && Arrives(w, mode, rules, m, k).Some?
    ensures Arrives(w, mode, rules, m, j).Some?
    decreases k
  {
    hide Effect, Ends;
    if j < k {
      EarlierArrival(w, mode, rules, m, j, k - 1);
    }
  }

  /** Some rule ends the walk, or it arrives behind the last rule. */
  lemma {:induction false} WalkArrives(w: World, mode: Mode, rules: seq<Action>, m: Metadata, n: nat) returns (k: nat)
    requires n <= |rules|
    ensures k <= n && Arrives(w, mode, rules, m, k).Some?
    ensures k == n || Ends(w, mode, rules, k, Arrives(w, mode, rules, m, k).value.metadata)
    decreases n
  {
    hide Effect, Ends;
    if n == 0 {
      k := 0;
    } else {
      k := WalkArrives(w, mode, rules, m, n - 1);
      if k == n - 1 && !Ends(w, mode, rules, k, Arrives(w, mode, rules, m, k).value.metadata) {
        k := n;
      }
    }
  }

  /** The kinds of action a match may end at: routing, rejecting, hijacking, a bypass or a deferred sniff. */
  predicate MayEndAt(mode: Mode, a: Action, network: Network)
  {
    || a.Route?
    || a.Reject?
    || a.HijackDNS?
    || (a.Bypass? && (a.outbound != NO_TAG || mode.supportBypass))
    || (a.Sniff? && mode.preMatch && (network == TCP || network == UDP))
  }

  /**
   Rule `i` is selected exactly when the walk comes to it, it matches what the walk carries there, and
   its action is of a kind to end at: the first such rule. None of these actions can fail.
   */
  lemma {:induction false} SelectsFirstFinal(w: World, mode: Mode, rules: seq<Action>, m: Metadata, i: nat)
    requires i < |rules|
    ensures Walk(w, mode, rules, 0, m, []).selected == Some(i) <==>
      && Arrives(w, mode, rules, m, i).Some?
      && var here := Arrives(w, mode, rules, m, i).value.metadata;
         w.matches(i, here) && MayEndAt(mode, rules[i], here.network)
  {
    KindsEnd(w, mode, rules, m, i);
    hide Effect, MayEndAt, Final;
    var k := WalkArrives(w, mode, rules, m, |rules|);
    var at := Arrives(w, mode, rules, m, k).value;
    WalkFromArrival(w, mode, rules, m, k);
    var ended := Walk(w, mode, rules, k, at.metadata, at.buffers);
    assert ended.selected == Some(k) || ended.selected.None?;
    if Arrives(w, mode, rules, m, i).Some? {
      var here := Arrives(w, mode, rules, m, i).value;
      WalkFromArrival(w, mode, rules, m, i);
      if k < i {
        EarlierArrival(w, mode, rules, m, k + 1, i);
      }
    }
  }

  lemma {:induction false} KindsEnd(w: World, mode: Mode, rules: seq<Action>, m: Metadata, i: nat)
    requires i < |rules|
    ensures Arrives(w, mode, rules, m, i).Some? ==>
      var here := Arrives(w, mode, rules, m, i).value.metadata;
      && (Final(mode, rules[i], here.network) <==> MayEndAt(mode, rules[i], here.network))
      && (MayEndAt(mode, rules[i], here.network) ==> Effect(w, mode, i, rules[i], here).failure.None?)
  {
  }

  /**
   No match goes past a matching rule of such a kind: it ends there if it comes there, so a rejected
   connection is never routed by a later rule or by default, nor does a later failure hide the rejection.
   */
  lemma {:induction false} NeverPassesAnEnd(w: World, mode: Mode, rules: seq<Action>, m: Metadata, i: nat, j: nat)
    requires i < j <= |rules| && Arrives(w, mode, rules, m, i).Some?
    requires var here := Arrives(w, mode, rules, m, i).value.metadata;
      w.matches(i, here) && MayEndAt(mode, rules[i], here.network)
    ensures Arrives(w, mode, rules, m, j).None?
    ensures Walk(w, mode, rules, 0, m, []).selected == Some(i) && Walk(w, mode, rules, 0, m, []).fatal.None?
  {
    SelectsFirstFinal(w, mode, rules, m, i);
    KindsEnd(w, mode, rules, m, i);
    WalkGoesForward(w, mode, rules, 0, m, []);
    hide Effect, MayEndAt, Final;
    if Arrives(w, mode, rules, m, j).Some? {
      EarlierArrival(w, mode, rules, m, i + 1, j);
    }
  }

  /** A match that ends at no rule and without failure met no matching rule of such a kind. */
  lemma {:induction false} NothingSelectedMeansNoEnd(w: World, mode: Mode, rules: seq<Action>, m: Metadata, i: nat)
    requires i < |rules|
    requires Walk(w, mode, rules, 0, m, []).selected.None? && Walk(w, mode, rules, 0, m, []).fatal.None?
    ensures Arrives(w, mode, rules, m, i).Some?
    ensures var here := Arrives(w, mode, rules, m, i).value.metadata;
      !(w.matches(i, here) && MayEndAt(mode, rules[i], here.network))
  {
    hide Effect, MayEndAt, Final;
    var k := WalkArrives(w, mode, rules, m, |rules|);
    var at := Arrives(w, mode, rules, m, k).value;
    WalkFromArrival(w, mode, rules, m, k);
    assert k == |rules|;
    EarlierArrival(w, mode, rules, m, i, k);
    SelectsFirstFinal(w, mode, rules, m, i);
  }

  /** What a matched rule does besides ending the match, action by action. */
  lemma {:induction false} EffectByKind(w: World, mode: Mode, k: nat, a: Action, m: Metadata)
    ensures var r := Effect(w, mode, k, a, m);
      match a
      case Route(_, options) => r == Sniffed(Rewritten(m, options), [], None)
      case SetOptions(options) => r == Sniffed(Rewritten(m, options), [], None)
      case Sniff => r == if mode.preMatch then Sniffed(m, [], None) else w.sniff(k, m)
      case Resolve =>
        (match w.resolve(k, m)
         case Err(failure) => r == Sniffed(m, [], Some(failure))
         case Ok(None) => r == Sniffed(m, [], None)
         case Ok(Some(addresses)) => r == Sniffed(m.(destinationAddresses := addresses), [], None))
      case _ => r == Sniffed(m, [], None)
  {
  }

  /** An address or a name overrides the host, a positive port the port, each alone or both together. */
  lemma {:induction false} OverrideReplaces(m: Metadata, o: RouteOptions)
    ensures var r, over := Rewritten(m, o), o.overrideAddress;
      && (over.addr != None || over.fqdn != NO_TAG ==>
            r.destination.addr == over.addr && r.destination.fqdn == over.fqdn && r.destinationAddresses == [])
      && (over.addr == None && over.fqdn == NO_TAG ==>
            && r.destination.addr == m.destination.addr && r.destination.fqdn == m.destination.fqdn
            && r.destinationAddresses == m.destinationAddresses)
      && r.destination.port == (if o.overridePort > 0 then o.overridePort else m.destination.port)
  {
  }

  // ---------------------------------------------------------------------------------------------
  // The two modes.
  // ---------------------------------------------------------------------------------------------

  /** The actions a pre-match may stop at and a full match passes: sniffing, and a bypass without outbound. */
  predicate Defers(a: Action)
  {
    a.Sniff? || (a.Bypass? && a.outbound == NO_TAG)
  }

  predicate EndsDeferred(rules: seq<Action>, r: Outcome)
  {
    r.selected.Some? && r.selected.value < |rules| && Defers(rules[r.selected.value])
  }

  predicate SameVerdict(p: Outcome, f: Outcome)
  {
    p.selected == f.selected && p.metadata == f.metadata && p.fatal == f.fatal
  }

  lemma {:induction false} EffectAgrees(w: World, mode: Mode, k: nat, a: Action, m: Metadata)
    requires !a.Sniff?
    ensures Effect(w, mode, k, a, m) == Effect(w, FULL, k, a, m)
    ensures Effect(w, mode, k, a, m).buffers == [] && Effect(w, mode, k, a, m).metadata.network == m.network
  {
  }

  lemma {:induction false} WalksAgree(w: World, supportBypass: bool, rules: seq<Action>, k: nat, m: Metadata)
    requires k <= |rules| && !m.network.ICMP?
    ensures var p := Walk(w, Mode(true, supportBypass), rules, k, m, []);
      SameVerdict(p, Walk(w, FULL, rules, k, m, [])) <==> !EndsDeferred(rules, p)
    decreases |rules| - k
  {
    hide Effect;
    var pre := Mode(true, supportBypass);
    if k < |rules| {
      if !w.matches(k, m) {
        WalksAgree(w, supportBypass, rules, k + 1, m);
      } else if rules[k].Sniff? || (rules[k].Bypass? && rules[k].outbound == NO_TAG && supportBypass) {
        SniffWaits(w, pre, k, rules[k], m);
        var effect := Effect(w, FULL, k, rules[k], m);
        WalkGoesForward(w, FULL, rules, k + 1, effect.metadata, [] + effect.buffers);
      } else {
        EffectAgrees(w, pre, k, rules[k], m);
        var effect := Effect(w, FULL, k, rules[k], m);
        WalksAgree(w, supportBypass, rules, k + 1, effect.metadata);
        assert [] + effect.buffers == [];
      }
    }
  }

  lemma {:induction false} SniffWaits(w: World, mode: Mode, k: nat, a: Action, m: Metadata)
    requires mode.preMatch && Defers(a)
    ensures Effect(w, mode, k, a, m).failure.None?
  {
  }

  /**
   For TCP and UDP, the full match of a connection ends at the same rule with the same rewritten
   metadata and the same failure as its pre-match, exactly when the pre-match did not stop at a rule
   that sniffs or bypasses without an outbound.
   */
  lemma {:induction false} ModesAgree(w: World, supportBypass: bool, rules: seq<Action>, m: Metadata)
    requires !m.network.ICMP?
    ensures var p := Match(w, Mode(true, supportBypass), rules, m);
      SameVerdict(p, Match(w, FULL, rules, m)) <==> !EndsDeferred(rules, p)
  {
    hide Walk;
    if Prepared(w, m).Ok? {
      WalksAgree(w, supportBypass, rules, 0, Prepared(w, m).value);
    }
  }

  /** A pre-match nobody can bypass stops early only to leave the connection to a sniffer. */
  lemma {:induction false} WithoutBypassOnlySniffDefers(w: World, rules: seq<Action>, m: Metadata)
    ensures var p := Match(w, Mode(true, false), rules, m);
      EndsDeferred(rules, p) ==> rules[p.selected.value].Sniff?
  {
    if Prepared(w, m).Ok? {
      var ready := Prepared(w, m).value;
      WalkGoesForward(w, Mode(true, false), rules, 0, ready, []);
      var p := Match(w, Mode(true, false), rules, m);
      if p.selected.Some? {
        SelectsFirstFinal(w, Mode(true, false), rules, ready, p.selected.value);
      }
    }
  }

  // ---------------------------------------------------------------------------------------------
  // Rewriting keeps the destination the connection came with.
  // ---------------------------------------------------------------------------------------------

  /** The destination in `r` is that of `m`, or `r` remembers where `m` was going. */
  predicate Remembers(m: Metadata, r: Metadata)
  {
    var origin := if m.routeOriginalDestination.IsValid() then m.routeOriginalDestination else m.destination;
    || (r.destination == m.destination && r.routeOriginalDestination == m.routeOriginalDestination)
    || r.routeOriginalDestination == origin
  }

  lemma {:induction false} RemembersChain(m: Metadata, r: Metadata, r': Metadata)
    requires m.destination.IsValid() && Remembers(m, r) && Remembers(r, r')
    ensures Remembers(m, r')
  {
  }

  lemma {:induction false} RewrittenRemembers(m: Metadata, o: RouteOptions)
    ensures Remembers(m, Rewritten(m, o)) && (m.destination.IsValid() ==> Rewritten(m, o).destination.IsValid())
  {
  }

  /** Whatever sniffing does at rule `k`, it leaves a destination that is accounted for. */
  ghost predicate SniffRemembers(w: World, k: nat)
  {
    forall m :: Remembers(m, w.sniff(k, m).metadata)
             && (m.destination.IsValid() ==> w.sniff(k, m).metadata.destination.IsValid())
  }

  /** The rules run without sniffing, or their sniffing does not move the destination unrecorded. */
  ghost predicate KeepsTrack(w: World, mode: Mode, rules: seq<Action>)
  {
    mode.preMatch || forall k :: 0 <= k < |rules| && rules[k].Sniff? ==> SniffRemembers(w, k)
  }

  lemma {:induction false} EffectRemembers(w: World, mode: Mode, k: nat, a: Action, m: Metadata)
    requires mode.preMatch || (a.Sniff? ==> SniffRemembers(w, k))
    ensures Remembers(m, Effect(w, mode, k, a, m).metadata)
    ensures m.destination.IsValid() ==> Effect(w, mode, k, a, m).metadata.destination.IsValid()
  {
    hide Rewritten;
    if OptionsOf(a).Some? {
      RewrittenRemembers(m, OptionsOf(a).value);
    }
  }

  /**
   In both modes, whatever rules are passed, a changed destination comes with the first destination
   recorded beside it, never one that an earlier rule put there.
   */
  lemma {:induction false} WalkRemembers(w: World, mode: Mode, rules: seq<Action>, k: nat, m: Metadata,
                                         buffers: seq<nat>)
    requires k <= |rules| && KeepsTrack(w, mode, rules) && m.destination.IsValid()
    ensures Remembers(m, Walk(w, mode, rules, k, m, buffers).metadata)
    decreases |rules| - k
  {
    hide Effect, Remembers, SniffRemembers;
    if k == |rules| {
      RemembersItself(m);
    } else if !w.matches(k, m) {
      WalkRemembers(w, mode, rules, k + 1, m, buffers);
    } else {
      var effect := Effect(w, mode, k, rules[k], m);
      EffectRemembers(w, mode, k, rules[k], m);
      var r := Walk(w, mode, rules, k, m, buffers);
      if r.metadata != effect.metadata {
        WalkRemembers(w, mode, rules, k + 1, effect.metadata, buffers + effect.buffers);
        RemembersChain(m, effect.metadata, r.metadata);
      }
    }
  }

  /**
   What sniffing never does: the loop over the rules alone records a first destination, and a sniffed
   one is a name.
   */
  ghost predicate SniffLeavesRecord(w: World)
  {
    forall k: nat, m ::
      && w.sniff(k, m).metadata.routeOriginalDestination == m.routeOriginalDestination
      && (m.destination.IsValid() ==> w.sniff(k, m).metadata.destination.IsValid())
  }

  predicate OverridesAt(a: Action)
  {
    OptionsOf(a).Some? && Overrides(OptionsOf(a).value)
  }

  /** The destination the first matched rule with overriding options sees, or else the final one. */
  function FirstSeen(w: World, mode: Mode, rules: seq<Action>, k: nat, m: Metadata): (d: Socksaddr)
    requires k <= |rules|
    decreases |rules| - k
  {
    if k == |rules| then m.destination
    else if !w.matches(k, m) then FirstSeen(w, mode, rules, k + 1, m)
    else if OverridesAt(rules[k]) then m.destination
    else
      var effect := Effect(w, mode, k, rules[k], m);
      if effect.failure.Some? || Final(mode, rules[k], m.network) then effect.metadata.destination
      else FirstSeen(w, mode, rules, k + 1, effect.metadata)
  }

  lemma {:induction false} EffectRecords(w: World, mode: Mode, k: nat, a: Action, m: Metadata)
    requires SniffLeavesRecord(w) && m.destination.IsValid()
    ensures var r := Effect(w, mode, k, a, m).metadata;
      && r.destination.IsValid()
      && r.routeOriginalDestination ==
           if OverridesAt(a) && !m.routeOriginalDestination.IsValid() then m.destination else m.routeOriginalDestination
  {
  }

  /** What the walk records: the first destination seen by an overriding rule, and only if none was recorded. */
  lemma {:induction false} WalkRecords(w: World, mode: Mode, rules: seq<Action>, k: nat, m: Metadata, buffers: seq<nat>)
    requires k <= |rules| && SniffLeavesRecord(w) && m.destination.IsValid()
    ensures var r, seen := Walk(w, mode, rules, k, m, buffers).metadata, FirstSeen(w, mode, rules, k, m);
      if m.routeOriginalDestination.IsValid() then r.routeOriginalDestination == m.routeOriginalDestination
      else
        || (r.routeOriginalDestination == seen && seen.IsValid())
        || (r.routeOriginalDestination == m.routeOriginalDestination && r.destination == seen)
    decreases |rules| - k
  {
    hide Effect, SniffLeavesRecord, OverridesAt, Final;
    if k < |rules| {
      if !w.matches(k, m) {
        WalkRecords(w, mode, rules, k + 1, m, buffers);
      } else {
        var effect := Effect(w, mode, k, rules[k], m);
        EffectRecords(w, mode, k, rules[k], m);
        WalkRecords(w, mode, rules, k + 1, effect.metadata, buffers + effect.buffers);
      }
    }
  }

  /**
   In both modes, the destination a connection came with is kept or recorded if and only if one was
   recorded before, or no sniffer had moved it by the time the first overriding rule saw it (or by the
   end, when no rule overrides it).
   */
  lemma {:induction false} WalkRemembersExactly(w: World, mode: Mode, rules: seq<Action>, k: nat, m: Metadata,
                                                buffers: seq<nat>)
    requires k <= |rules| && SniffLeavesRecord(w) && m.destination.IsValid()
    ensures Remembers(m, Walk(w, mode, rules, k, m, buffers).metadata) <==>
      m.routeOriginalDestination.IsValid() || FirstSeen(w, mode, rules, k, m) == m.destination
  {
    WalkRecords(w, mode, rules, k, m, buffers);
    hide Walk, FirstSeen;
  }

  /** A sniffer that overrides the destination, as sniff rules may be told to, leaves no record of it. */
  lemma {:induction false} SniffedDestinationIsNotRecorded(w: World, m: Metadata, name: Tag)
    requires w.matches(0, m) && name != NO_TAG && m.destination.addr.Some?
    requires !m.routeOriginalDestination.IsValid()
    requires w.sniff(0, m) == Sniffed(m.(destination := Socksaddr(None, name, m.destination.port)), [], None)
    ensures !Remembers(m, Walk(w, FULL, [Sniff], 0, m, []).metadata)
  {
    assert Effect(w, FULL, 0, Sniff, m) == w.sniff(0, m);
    assert Walk(w, FULL, [Sniff], 0, m, []) == Walk(w, FULL, [Sniff], 1, w.sniff(0, m).metadata, [] + []);
  }

  lemma {:induction false} RemembersItself(m: Metadata)
    ensures Remembers(m, m)
  {
  }
}
