/**
 The DNS transport manager's registry (dns/transport_manager.go), as far as it decides which
 transport queries fall back to.
 */
module TransportRegistry {
  import opened Common
  import opened DnsRouter

  datatype CreateError =
    | InvalidTag
    | ConstructionFailed
    | StartFailed
    | CloseOldFailed
    | DefaultCannotBeFakeIP
    | MultipleFakeIP

  class TransportManager {
    const defaultTag: Tag
    var started: bool
    var byTag: map<Tag, Transport>
    var defaultTransport: Option<Transport>
    var fakeIPTransport: Option<Transport>

    /** The default is never a FakeIP transport. */
    ghost predicate Valid()
      reads this
    {
      && (defaultTransport.Some? ==> !defaultTransport.value.fakeIP)
      && (fakeIPTransport.Some? ==> fakeIPTransport.value.fakeIP)
      && (forall t :: t in byTag ==> byTag[t].tag == t)
      && (defaultTag == NO_TAG && defaultTransport == None ==> forall t :: t in byTag ==> byTag[t].fakeIP)
    }

    constructor (defaultTag: Tag)
      ensures Valid() && this.defaultTag == defaultTag && byTag == map[]
    {
      this.defaultTag := defaultTag;
      started, byTag, defaultTransport, fakeIPTransport := false, map[], None, None;
    }

    /**
     Registers `built` under its tag. A FakeIP transport that may not become the default, or that is
     not the first of its kind, is reported as an error but stays registered.
     */
    method Create(tag: Tag, built: Option<Transport>, startOk: bool, closeOk: bool)
      returns (failure: Option<CreateError>)
      requires Valid() && (built.Some? ==> built.value.tag == tag)
      modifies this
      ensures Valid() && started == old(started)
      ensures
        var refused :=
          tag == NO_TAG || built == None || (started && !startOk) || (started && tag in old(byTag) && !closeOk);
        if refused then failure.Some? && unchanged(this)
        else
          var t := built.value;
          var becomesDefault := tag == defaultTag || (defaultTag == NO_TAG && old(defaultTransport) == None);
          && byTag == old(byTag)[tag := t]
          && defaultTransport == (if becomesDefault && !t.fakeIP then built else old(defaultTransport))
          && fakeIPTransport == (if t.fakeIP && !becomesDefault && old(fakeIPTransport) == None then built
                                 else old(fakeIPTransport))
          && (failure == Some(DefaultCannotBeFakeIP) <==> becomesDefault && t.fakeIP)
          && (failure == Some(MultipleFakeIP) <==> !becomesDefault && t.fakeIP && old(fakeIPTransport).Some?)
    {
      if tag == NO_TAG {
        return Some(InvalidTag);
      }
      if built == None {
        return Some(ConstructionFailed);
      }
      if started && !startOk {
        return Some(StartFailed);
      }
      if tag in byTag && started && !closeOk {
        return Some(CloseOldFailed);
      }
      var t := built.value;
      byTag := byTag[tag := t];
      if tag == defaultTag || (defaultTag == NO_TAG && defaultTransport == None) {
        if t.fakeIP {
          return Some(DefaultCannotBeFakeIP);
        }
        defaultTransport := Some(t);
      }
      if t.fakeIP {
        if fakeIPTransport.Some? {
          return Some(MultipleFakeIP);
        }
        fakeIPTransport := Some(t);
      }
      failure := None;
    }

    /** Starting settles the default: the configured one must exist, else the fallback is registered. */
    method StartDefault(fallback: Option<Transport>) returns (ok: bool)
      requires Valid() && (fallback.Some? ==> !fallback.value.fakeIP)
      modifies this
      ensures Valid() && started
      ensures ok <==> old(defaultTransport).Some? || (defaultTag == NO_TAG && fallback.Some?)
      ensures ok <==> defaultTransport.Some?
      ensures defaultTransport ==
        if old(defaultTransport).Some? then old(defaultTransport) else if defaultTag == NO_TAG then fallback else None
      ensures fakeIPTransport == old(fakeIPTransport)
      ensures byTag ==
        if old(defaultTransport) == None && ok then old(byTag)[fallback.value.tag := fallback.value] else old(byTag)
    {
      started := true;
      if defaultTag != NO_TAG && defaultTransport == None {
        return false;
      }
      if defaultTransport == None {
        if fallback == None {
          return false;
        }
        byTag := byTag[fallback.value.tag := fallback.value];
        defaultTransport := fallback;
      }
      ok := true;
    }

    /**
     A Lookup routed through this manager: whatever rules, replies and retries, no call of the client
     goes to a FakeIP transport.
     */
    method RunLookup(rules: seq<Rule>, defaultStrategy: Strategy, client: Attempt -> Reply, o: Options)
      returns (result: Outcome, attempts: seq<Attempt>)
      requires Valid()
      ensures forall k :: 0 <= k < |attempts| && attempts[k].transport.Some? ==> !attempts[k].transport.value.fakeIP
      ensures result.Done? ==> result.attempt in attempts
    {
      var r := Router(rules, byTag, defaultTransport, defaultStrategy);
      ghost var deciding;
      result, attempts, deciding := Resolve(r, Lookup, client, o);
      forall k | 0 <= k < |attempts|
        ensures attempts[k].transport.Some? ==> !attempts[k].transport.value.fakeIP
      {
        LookupAvoidsFakeIP(r, o, attempts, deciding, k);
      }
    }
  }
}
