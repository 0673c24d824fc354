/**
 The outbound manager's registry (adapter/outbound/manager.go): a list, a tag map, a reverse
 dependency index and a default, changed by Create, Remove and the fallback of Start.
 */
module OutboundRegistry {
  import opened Common

  /** An outbound object; `id` is its identity, as compared by pointer equality. */
  datatype Outbound = Outbound(id: nat, tag: Tag, dependencies: seq<Tag>)

  type Index = map<Tag, seq<Tag>>

  datatype CreateError = InvalidTag | ConstructionFailed | StartFailed | CloseOldFailed

  datatype RemoveError = NotRegistered | DependedBy(dependents: seq<Tag>) | CloseFailed

  // ---------------------------------------------------------------------------------------------
  // The reverse index as a value.
  // ---------------------------------------------------------------------------------------------

  function Dependents(index: Index, d: Tag): (r: seq<Tag>)
  {
    if d in index then index[d] else []
  }

  /** The loop that records `tag` under each of its dependencies. */
  function Record(index: Index, tag: Tag, dependencies: seq<Tag>): (r: Index)
  {
    if dependencies == [] then index
    else
      var m, d := Record(index, tag, dependencies[..|dependencies| - 1]), dependencies[|dependencies| - 1];
      m[d := Dependents(m, d) + [tag]]
  }

  /** What the removal loop makes of one dependency. */
  function Drop(index: Index, tag: Tag, d: Tag): (r: Index)
  {
    if |Dependents(index, d)| == 1 then index - {d} else index[d := Without(Dependents(index, d), tag)]
  }

  /** The loop that forgets `tag` under each of its dependencies. */
  function Forget(index: Index, tag: Tag, dependencies: seq<Tag>): (r: Index)
  {
    if dependencies == [] then index
    else Drop(Forget(index, tag, dependencies[..|dependencies| - 1]), tag, dependencies[|dependencies| - 1])
  }

  lemma {:induction false} RecordGrows(index: Index, tag: Tag, dependencies: seq<Tag>, d: Tag)
    ensures forall t :: t in Dependents(index, d) ==> t in Dependents(Record(index, tag, dependencies), d)
    ensures d in dependencies ==> tag in Dependents(Record(index, tag, dependencies), d)
    decreases |dependencies|
  {
    if dependencies != [] {
      var front := dependencies[..|dependencies| - 1];
      RecordGrows(index, tag, front, d);
      assert dependencies == front + [dependencies[|dependencies| - 1]];
    }
  }

  /** Under a dependency not in the list, and in full for other tags, forgetting loses nothing. */
  lemma {:induction false} ForgetKeepsOthers(index: Index, tag: Tag, dependencies: seq<Tag>, d: Tag)
    requires Distinct(dependencies)
    requires forall e :: e in dependencies ==> tag in Dependents(index, e)
    ensures Dependents(Forget(index, tag, dependencies), d)
         == if d in dependencies then Without(Dependents(index, d), tag) else Dependents(index, d)
    decreases |dependencies|
  {
    if dependencies != [] {
      var front, last := dependencies[..|dependencies| - 1], dependencies[|dependencies| - 1];
      assert dependencies == front + [last];
      ForgetKeepsOthers(index, tag, front, d);
      ForgetKeepsOthers(index, tag, front, last);
      var listed := Dependents(index, last);
      if |listed| == 1 {
        assert listed[0] == tag;
        assert listed == [tag] && Without([tag], tag) == [];
      }
    }
  }

  // ---------------------------------------------------------------------------------------------
  // Repeated dependencies: the removal loop can lose another outbound's entry.
  // ---------------------------------------------------------------------------------------------

  function Count(s: seq<Tag>, d: Tag): (n: nat)
  {
    if s == [] then 0 else Count(s[..|s| - 1], d) + if s[|s| - 1] == d then 1 else 0
  }

  /** No dependency is listed twice while exactly one other outbound waits on it. */
  ghost predicate NoLoneRepeat(index: Index, tag: Tag, dependencies: seq<Tag>)
  {
    forall d :: Count(dependencies, d) >= 2 ==> |Without(Dependents(index, d), tag)| != 1
  }

  ghost predicate KeepsOthers(before: Index, after: Index, tag: Tag)
  {
    forall d, t :: t != tag && t in Dependents(before, d) ==> t in Dependents(after, d)
  }

  /** Recording appends the tag under each dependency, once for every time it is listed, and nowhere else. */
  lemma {:induction false} RecordAt(index: Index, tag: Tag, dependencies: seq<Tag>, d: Tag)
    ensures Dependents(Record(index, tag, dependencies), d)
         == Dependents(index, d) + seq(Count(dependencies, d), _ => tag)
    decreases |dependencies|
  {
    if dependencies != [] {
      var n := |dependencies| - 1;
      RecordAt(index, tag, dependencies[..n], d);
      if dependencies[n] == d {
        var times := Count(dependencies[..n], d);
        assert seq(times + 1, _ => tag) == seq(times, _ => tag) + [tag];
      }
    }
  }

  lemma {:induction false} CountIn(s: seq<Tag>, d: Tag)
    ensures Count(s, d) > 0 <==> d in s
    decreases |s|
  {
    if s != [] {
      CountIn(s[..|s| - 1], d);
      assert s == s[..|s| - 1] + [s[|s| - 1]];
    }
  }

  lemma {:induction false} WithoutTwice(tags: seq<Tag>, tag: Tag)
    ensures Without(Without(tags, tag), tag) == Without(tags, tag)
  {
    assert tag !in Without(tags, tag);
  }

  lemma {:induction false} LoneDependent(tags: seq<Tag>, tag: Tag)
    requires tag in tags && |tags| == 1
    ensures Without(tags, tag) == []
  {
    assert tags[0] == tag;
    assert tags[..0] == [];
  }

  /** What the removal loop leaves under `d`, for any list of dependencies. */
  ghost function Left(listed: seq<Tag>, tag: Tag, times: nat): (r: seq<Tag>)
  {
    var others := Without(listed, tag);
    if times == 0 then listed else if times >= 2 && |others| == 1 then [] else others
  }

  lemma {:induction false} DropOnceMore(index: Index, listed: seq<Tag>, tag: Tag, d: Tag, times: nat)
    requires tag in listed && Dependents(index, d) == Left(listed, tag, times)
    ensures Dependents(Drop(index, tag, d), d) == Left(listed, tag, times + 1)
  {
    WithoutTwice(listed, tag);
    if |listed| == 1 {
      LoneDependent(listed, tag);
    }
  }

  lemma {:induction false} ForgetAt(index: Index, tag: Tag, dependencies: seq<Tag>, d: Tag)
    requires forall e :: e in dependencies ==> tag in Dependents(index, e)
    ensures Dependents(Forget(index, tag, dependencies), d) == Left(Dependents(index, d), tag, Count(dependencies, d))
    decreases |dependencies|
  {
    if dependencies != [] {
      var front, last := dependencies[..|dependencies| - 1], dependencies[|dependencies| - 1];
      assert dependencies == front + [last];
      ForgetAt(index, tag, front, d);
      if last == d {
        DropOnceMore(Forget(index, tag, front), Dependents(index, d), tag, d, Count(front, d));
      }
    }
  }

  /** Removal keeps every other outbound's entries exactly when no dependency repeats that way. */
  lemma {:induction false} ForgetKeepsOthersExactly(index: Index, tag: Tag, dependencies: seq<Tag>)
    requires forall e :: e in dependencies ==> tag in Dependents(index, e)
    ensures KeepsOthers(index, Forget(index, tag, dependencies), tag) <==> NoLoneRepeat(index, tag, dependencies)
  {
    var after := Forget(index, tag, dependencies);
    if NoLoneRepeat(index, tag, dependencies) {
      forall d, t | t != tag && t in Dependents(index, d)
        ensures t in Dependents(after, d)
      {
        ForgetAt(index, tag, dependencies, d);
      }
    } else {
      var d :| Count(dependencies, d) >= 2 && |Without(Dependents(index, d), tag)| == 1;
      ForgetAt(index, tag, dependencies, d);
      var t := Without(Dependents(index, d), tag)[0];
      assert t in Without(Dependents(index, d), tag);
      assert t != tag && t in Dependents(index, d) && t !in Dependents(after, d);
    }
  }

  // ---------------------------------------------------------------------------------------------
  // The manager.
  // ---------------------------------------------------------------------------------------------

  /** Removing `tag`, if it is registered, costs no other outbound its entries. */
  ghost predicate LosesNothing(byTag: map<Tag, Outbound>, index: Index, tag: Tag)
  {
    tag in byTag ==> NoLoneRepeat(index, tag, byTag[tag].dependencies)
  }

  /** The list and the tag map hold the same outbounds, one per tag. */
  ghost predicate Bijection(outbounds: seq<Outbound>, byTag: map<Tag, Outbound>)
  {
    && (forall i, j :: 0 <= i < j < |outbounds| ==> outbounds[i].tag != outbounds[j].tag)
    && (forall i :: 0 <= i < |outbounds| ==> outbounds[i].tag in byTag && byTag[outbounds[i].tag] == outbounds[i])
    && (forall t :: t in byTag ==> byTag[t] in outbounds && byTag[t].tag == t)
  }

  /** Every registered outbound is found under each of its dependencies. */
  ghost predicate Indexed(byTag: map<Tag, Outbound>, index: Index)
  {
    forall t, d :: t in byTag && d in byTag[t].dependencies ==> t in Dependents(index, d)
  }

  ghost predicate NoRepeats(byTag: map<Tag, Outbound>)
  {
    forall t :: t in byTag ==> Distinct(byTag[t].dependencies)
  }

  lemma {:induction false} NoRepeatsKept(byTag: map<Tag, Outbound>, o: Outbound)
    requires NoRepeats(byTag)
    ensures Distinct(o.dependencies) ==> NoRepeats(byTag[o.tag := o])
    ensures NoRepeats(byTag - {o.tag})
  {
  }

  /** Where `outbound` sits in the list. */
  method FindIndex(outbounds: seq<Outbound>, outbound: Outbound) returns (i: nat)
    requires outbound in outbounds
    ensures i < |outbounds| && outbounds[i] == outbound
  {
    i := 0;
    while outbounds[i] != outbound
      invariant i < |outbounds|
      invariant forall j :: 0 <= j < i ==> outbounds[j] != outbound
      decreases |outbounds| - i
    {
      assert exists j :: i < j < |outbounds| && outbounds[j] == outbound;
      i := i + 1;
    }
  }

  lemma {:induction false} BijectionRemove(outbounds: seq<Outbound>, byTag: map<Tag, Outbound>, i: nat)
    requires Bijection(outbounds, byTag) && i < |outbounds|
    ensures Bijection(outbounds[..i] + outbounds[i + 1..], byTag - {outbounds[i].tag})
  {
    var rest, left := outbounds[..i] + outbounds[i + 1..], byTag - {outbounds[i].tag};
    forall t | t in left
      ensures left[t] in rest && left[t].tag == t
    {
      var j :| 0 <= j < |outbounds| && outbounds[j] == byTag[t];
      assert rest[if j < i then j else j - 1] == byTag[t];
    }
  }

  lemma {:induction false} BijectionAdd(outbounds: seq<Outbound>, byTag: map<Tag, Outbound>, o: Outbound)
    requires Bijection(outbounds, byTag) && o.tag !in byTag
    ensures Bijection(outbounds + [o], byTag[o.tag := o])
  {
    var more, longer := byTag[o.tag := o], outbounds + [o];
    assert longer[|outbounds|] == o;
  }

  lemma {:induction false} BijectionOfNone(byTag: map<Tag, Outbound>)
    ensures Bijection([], byTag) ==> byTag == map[]
  {
  }

  /** The first outbound of a registry, one without dependencies, needs no entry in the index. */
  lemma {:induction false} EmptyAdds(o: Outbound, index: Index)
    requires o.dependencies == []
    ensures Indexed(map[o.tag := o], index) && NoRepeats(map[o.tag := o])
  {
  }

  method RecordAll(index: Index, tag: Tag, dependencies: seq<Tag>) returns (r: Index)
    ensures r == Record(index, tag, dependencies)
  {
    r := index;
    for i := 0 to |dependencies|
      invariant r == Record(index, tag, dependencies[..i])
    {
      assert dependencies[..i + 1][..i] == dependencies[..i];
      r := r[dependencies[i] := Dependents(r, dependencies[i]) + [tag]];
    }
    assert dependencies[..|dependencies|] == dependencies;
  }

  method ForgetAll(index: Index, tag: Tag, dependencies: seq<Tag>) returns (r: Index)
    ensures r == Forget(index, tag, dependencies)
  {
    r := index;
    for i := 0 to |dependencies|
      invariant r == Forget(index, tag, dependencies[..i])
    {
      assert dependencies[..i + 1][..i] == dependencies[..i];
      r := Drop(r, tag, dependencies[i]);
    }
    assert dependencies[..|dependencies|] == dependencies;
  }

  /** `rest` is `outbounds` without one element, `o`, and otherwise in the same order. */
  ghost predicate LeftOut(outbounds: seq<Outbound>, rest: seq<Outbound>, o: Outbound)
  {
    exists i :: 0 <= i < |outbounds| && outbounds[i] == o && rest == outbounds[..i] + outbounds[i + 1..]
  }

  /** The list without the outbound registered under `tag`. */
  method Unlist(outbounds: seq<Outbound>, byTag: map<Tag, Outbound>, tag: Tag) returns (rest: seq<Outbound>)
    requires Bijection(outbounds, byTag) && tag in byTag
    ensures Bijection(rest, byTag - {tag}) && LeftOut(outbounds, rest, byTag[tag])
  {
    var i := FindIndex(outbounds, byTag[tag]);
    BijectionRemove(outbounds, byTag, i);
    rest := outbounds[..i] + outbounds[i + 1..];
  }

  class Manager {
    const defaultTag: Tag
    var started: bool
    var outbounds: seq<Outbound>
    var byTag: map<Tag, Outbound>
    var index: Index
    var defaultOutbound: Option<Outbound>

    /** List and tag map agree, and only an empty registry has no default to fall back on. */
    ghost predicate Valid()
      reads this
    {
      && Bijection(outbounds, byTag)
      && (defaultTag == NO_TAG && defaultOutbound == None ==> outbounds == [])
    }

    /** The index is complete, and no registered outbound repeats a dependency. */
    ghost predicate Complete()
      reads this
    {
      Indexed(byTag, index) && NoRepeats(byTag)
    }

    constructor (defaultTag: Tag)
      ensures Valid() && Complete() && this.defaultTag == defaultTag && outbounds == [] && index == map[]
    {
      this.defaultTag := defaultTag;
      started, outbounds, byTag, index, defaultOutbound := false, [], map[], map[], None;
    }

    /**
     Registers `built`, what the registry constructed, under its tag, replacing any outbound there.
     `startOk` and `closeOk` are the outcomes of starting it and of closing the one it replaces.
     */
    method Create(tag: Tag, built: Option<Outbound>, startOk: bool, closeOk: bool)
      returns (failure: Option<CreateError>)
      requires Valid()
      requires built.Some? ==> built.value.tag == tag
      modifies this
      ensures Valid() && started == old(started)
      ensures old(Indexed(byTag, index)) ==> Indexed(byTag, index)
      ensures old(Complete()) && (built.Some? ==> Distinct(built.value.dependencies)) ==> Complete()
      ensures failure.Some? <==>
        tag == NO_TAG || built == None || (started && !startOk) || (started && tag in old(byTag) && !closeOk)
      ensures failure.Some? ==> unchanged(this)
      ensures failure == None ==>
        && byTag == old(byTag)[tag := built.value]
        && outbounds != [] && outbounds[|outbounds| - 1] == built.value
        && (if tag in old(byTag) then LeftOut(old(outbounds), outbounds[..|outbounds| - 1], old(byTag)[tag])
            else outbounds[..|outbounds| - 1] == old(outbounds))
        && index == Record(old(index), tag, built.value.dependencies)
        && defaultOutbound == (if tag == defaultTag || (defaultTag == NO_TAG && old(defaultOutbound) == None)
                               then built else old(defaultOutbound))
    {
      hide Bijection, Indexed, Record, Distinct, NoRepeats, LeftOut;
      if tag == NO_TAG {
        return Some(InvalidTag);
      }
      if built == None {
        return Some(ConstructionFailed);
      }
      if started && !startOk {
        return Some(StartFailed);
      }
      var o := built.value;
      var rest, left := outbounds, byTag;
      if tag in byTag {
        if started && !closeOk {
          return Some(CloseOldFailed);
        }
        rest := Unlist(outbounds, byTag, tag);
        left := byTag - {tag};
      }
      BijectionAdd(rest, left, o);
      assert left[tag := o] == byTag[tag := o];
      if Indexed(byTag, index) {
        RecordKeepsIndexed(byTag, index, o);
      }
      if NoRepeats(byTag) {
        NoRepeatsKept(byTag, o);
      }
      outbounds := rest + [o];
      byTag := byTag[tag := o];
      index := RecordAll(index, tag, o.dependencies);
      if tag == defaultTag || (defaultTag == NO_TAG && defaultOutbound == None) {
        defaultOutbound := Some(o);
      }
      failure := None;
    }

    /**
     Unregisters the outbound of `tag`. It leaves list and map even when the removal is then refused
     because the index still lists dependents; only a removal that goes through updates the index.
     */
    method Remove(tag: Tag, closeOk: bool) returns (failure: Option<RemoveError>)
      requires Valid()
      modifies this
      ensures Valid() && started == old(started)
      ensures old(Complete()) ==> Complete()
      ensures old(Indexed(byTag, index)) && LosesNothing(old(byTag), old(index), tag) ==> Indexed(byTag, index)
      ensures failure == Some(NotRegistered) <==> tag !in old(byTag)
      ensures tag !in old(byTag) ==> unchanged(this)
      ensures tag in old(byTag) ==>
        byTag == old(byTag) - {tag} && LeftOut(old(outbounds), outbounds, old(byTag)[tag])
      ensures tag in old(byTag) && Dependents(old(index), tag) != [] ==>
        failure == Some(DependedBy(Dependents(old(index), tag))) && index == old(index)
      ensures tag in old(byTag) && Dependents(old(index), tag) == [] ==>
        && index == Forget(old(index), tag, old(byTag)[tag].dependencies)
        && failure == (if started && !closeOk then Some(CloseFailed) else None)
        && (old(Indexed(byTag, index)) ==>
             && (forall t :: t in byTag ==> tag !in byTag[t].dependencies)
             && (KeepsOthers(old(index), index, tag) <==>
                 NoLoneRepeat(old(index), tag, old(byTag)[tag].dependencies)))
      ensures tag in old(byTag) ==>
        defaultOutbound == (if old(defaultOutbound) != Some(old(byTag)[tag]) then old(defaultOutbound)
                            else if outbounds == [] then None else Some(outbounds[0]))
    {
      if tag !in byTag {
        return Some(NotRegistered);
      }
      var o := byTag[tag];
      hide Bijection, Indexed, Forget, Distinct, NoRepeats, LeftOut, NoLoneRepeat, KeepsOthers;
      assert o.tag == tag by {
        RegisteredTag(outbounds, byTag, tag);
      }
      ghost var indexed, orderly := Indexed(byTag, index), NoRepeats(byTag);
      if indexed {
        IndexedShrinks(byTag, index, tag);
        ForgetKeepsIndexed(byTag, index, o);
      }
      if orderly {
        NoRepeatsKept(byTag, o);
        NoLoneRepeatOf(byTag, index, tag);
      }
      Unregister(tag);
      var dependents := Dependents(index, tag);
      if |dependents| > 0 {
        return Some(DependedBy(dependents));
      }
      index := ForgetAll(index, tag, o.dependencies);
      failure := if started && !closeOk then Some(CloseFailed) else None;
    }

    /** Takes the outbound of `tag` out of list and map; the first one left takes over a vacant default. */
    method Unregister(tag: Tag)
      requires Bijection(outbounds, byTag) && tag in byTag
      modifies this`outbounds, this`byTag, this`defaultOutbound
      ensures Bijection(outbounds, byTag)
      ensures byTag == old(byTag) - {tag} && LeftOut(old(outbounds), outbounds, old(byTag)[tag])
      ensures defaultOutbound == (if old(defaultOutbound) != Some(old(byTag)[tag]) then old(defaultOutbound)
                                  else if outbounds == [] then None else Some(outbounds[0]))
    {
      hide Bijection, LeftOut;
      var o := byTag[tag];
      outbounds := Unlist(outbounds, byTag, tag);
      byTag := byTag - {tag};
      if defaultOutbound == Some(o) {
        defaultOutbound := if |outbounds| > 0 then Some(outbounds[0]) else None;
      }
    }

    /**
     The default chosen when the manager starts: the endpoint named by the default tag, or else the
     fallback outbound, which joins the registry under its own tag.
     */
    method StartDefault(endpoint: Option<Outbound>, fallback: Option<Outbound>) returns (ok: bool)
      requires Valid()
      modifies this
      ensures Valid() && started && index == old(index)
      ensures ok <==> defaultOutbound.Some?
      ensures defaultOutbound == if old(defaultOutbound).Some? then old(defaultOutbound)
                                 else if defaultTag != NO_TAG then endpoint else fallback
      ensures if old(defaultOutbound).None? && defaultTag == NO_TAG && fallback.Some?
              then outbounds == [fallback.value] && byTag == map[fallback.value.tag := fallback.value]
              else outbounds == old(outbounds) && byTag == old(byTag)
      ensures old(Complete()) && (fallback.Some? ==> fallback.value.dependencies == []) ==> Complete()
    {
      started := true;
      if defaultTag != NO_TAG && defaultOutbound == None {
        if endpoint == None {
          return false;
        }
        defaultOutbound := endpoint;
      }
      hide Bijection, Indexed, NoRepeats, Distinct;
      if defaultOutbound == None {
        if fallback == None {
          return false;
        }
        var o := fallback.value;
        BijectionOfNone(byTag);
        BijectionAdd(outbounds, byTag, o);
        if o.dependencies == [] {
          EmptyAdds(o, index);
        }
        outbounds := outbounds + [o];
        byTag := byTag[o.tag := o];
        defaultOutbound := Some(o);
      }
      ok := true;
    }
  }

  lemma {:induction false} RegisteredTag(outbounds: seq<Outbound>, byTag: map<Tag, Outbound>, tag: Tag)
    requires Bijection(outbounds, byTag) && tag in byTag
    ensures byTag[tag].tag == tag
  {
  }

  /** Unregistering keeps the index complete, and an empty entry means nobody left depends on the tag. */
  lemma {:induction false} IndexedShrinks(byTag: map<Tag, Outbound>, index: Index, tag: Tag)
    requires Indexed(byTag, index)
    ensures Indexed(byTag - {tag}, index)
    ensures Dependents(index, tag) == [] ==> forall t :: t in byTag ==> tag !in byTag[t].dependencies
  {
    forall t | Dependents(index, tag) == [] && t in byTag
      ensures tag !in byTag[t].dependencies
    {
      assert tag in byTag[t].dependencies ==> t in Dependents(index, tag);
    }
  }

  lemma {:induction false} RecordKeepsIndexed(byTag: map<Tag, Outbound>, index: Index, o: Outbound)
    requires Indexed(byTag, index)
    ensures Indexed(byTag[o.tag := o], Record(index, o.tag, o.dependencies))
  {
    var more := byTag[o.tag := o];
    forall t, d | t in more && d in more[t].dependencies
      ensures t in Dependents(Record(index, o.tag, o.dependencies), d)
    {
      RecordGrows(index, o.tag, o.dependencies, d);
    }
  }

  /** Removal keeps the index complete unless it loses another outbound's entry, which is known exactly. */
  lemma {:induction false} ForgetKeepsIndexed(byTag: map<Tag, Outbound>, index: Index, o: Outbound)
    requires Indexed(byTag, index) && o.tag in byTag && byTag[o.tag] == o
    ensures KeepsOthers(index, Forget(index, o.tag, o.dependencies), o.tag) <==>
      NoLoneRepeat(index, o.tag, o.dependencies)
    ensures NoLoneRepeat(index, o.tag, o.dependencies) ==>
      Indexed(byTag - {o.tag}, Forget(index, o.tag, o.dependencies))
  {
    ForgetKeepsOthersExactly(index, o.tag, o.dependencies);
  }

  lemma {:induction false} DistinctCount(s: seq<Tag>, d: Tag)
    requires Distinct(s)
    ensures Count(s, d) <= 1
    decreases |s|
  {
    if s != [] {
      DistinctCount(s[..|s| - 1], d);
      CountIn(s[..|s| - 1], d);
    }
  }

  /** Outbounds that repeat no dependency are removed without loss. */
  lemma {:induction false} NoLoneRepeatOf(byTag: map<Tag, Outbound>, index: Index, tag: Tag)
    requires NoRepeats(byTag) && tag in byTag
    ensures NoLoneRepeat(index, tag, byTag[tag].dependencies)
  {
    forall d
      ensures Count(byTag[tag].dependencies, d) <= 1
    {
      DistinctCount(byTag[tag].dependencies, d);
    }
  }

  lemma {:induction false} RecordTwice(index: Index, tag: Tag, d: Tag)
    ensures Record(index, tag, [d]) == index[d := Dependents(index, d) + [tag]]
    ensures Record(index, tag, [d, d]) == index[d := Dependents(index, d) + [tag] + [tag]]
  {
    var one, two := [d], [d, d];
    assert one[..0] == [] && two[..1] == one;
    assert Record(index, tag, one) == index[d := Dependents(index, d) + [tag]];
  }

  lemma {:induction false} WithoutFirst(a: Tag, b: Tag)
    requires a != b
    ensures Without([a, a, b], a) == [b]
  {
    var s := [a, a, b];
    assert s[..2] == [a, a] && s[..2][..1] == [a] && s[..2][..1][..0] == [];
    assert Without([a], a) == [] && Without([a, a], a) == [];
  }

  lemma {:induction false} RecordedIndex(a: Tag, b: Tag, d: Tag)
    ensures Record(Record(map[], a, [d, d]), b, [d]) == map[d := [a, a, b]]
  {
    RecordTwice(map[], a, d);
    RecordTwice(map[d := [a, a]], b, d);
    assert [] + [a] + [a] == [a, a] && [a, a] + [b] == [a, a, b];
    assert Record(map[], a, [d, d]) == map[d := [a, a]];
  }

  lemma {:induction false} ForgottenEntry(a: Tag, b: Tag, d: Tag)
    requires a != b
    ensures Dependents(Forget(map[d := [a, a, b]], a, [d, d]), d) == []
  {
    var index, one, two := map[d := [a, a, b]], [d], [d, d];
    WithoutFirst(a, b);
    assert one[..0] == [] && two[..1] == one;
    assert Dependents(Forget(index, a, one), d) == [b];
  }

  /** Two outbounds wait on `d`, one of them twice over: removing that one loses the other's entry. */
  lemma {:induction false} RepeatedDependencyLosesEntry(a: Tag, b: Tag, d: Tag)
    requires a != b
    ensures var byTag := map[a := Outbound(0, a, [d, d]), b := Outbound(1, b, [d])];
      var index := Record(Record(map[], a, [d, d]), b, [d]);
      Indexed(byTag, index) && !Indexed(byTag - {a}, Forget(index, a, [d, d]))
  {
    var byTag := map[a := Outbound(0, a, [d, d]), b := Outbound(1, b, [d])];
    RecordedIndex(a, b, d);
    ForgottenEntry(a, b, d);
    hide Record, Forget;
    var left := byTag - {a};
    assert b in left && d in left[b].dependencies;
  }

  /** The same through the manager: two creations and a removal that all go through leave the index short. */
  method RemovalLosesEntry(a: Tag, b: Tag, d: Tag) returns (manager: Manager)
    requires a != b && a != NO_TAG && b != NO_TAG && a != d
    ensures fresh(manager) && manager.Valid()
    ensures b in manager.byTag && manager.byTag[b].dependencies == [d]
    ensures !Indexed(manager.byTag, manager.index)
  {
    manager := new Manager(NO_TAG);
    var first, second := Outbound(0, a, [d, d]), Outbound(1, b, [d]);
    var failure := manager.Create(a, Some(first), true, true);
    failure := manager.Create(b, Some(second), true, true);
    RecordedIndex(a, b, d);
    assert a !in manager.index;
    RepeatedDependencyLosesEntry(a, b, d);
    assert manager.byTag == map[a := first, b := second];
    var refused := manager.Remove(a, true);
    assert manager.byTag == map[a := first, b := second] - {a};
  }
}
