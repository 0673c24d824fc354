/**
 The DNS response cache (dns/client.go): one TTL is chosen for a response and written to all its
 records, the response is kept for that many seconds, and a later hit returns a copy whose TTLs are
 lowered to the time left, in 32-bit unsigned arithmetic.
 */
module DnsCache {
  import opened Common

  type uint32 = x: nat | x < 0x1_0000_0000

  /** Clock readings in nanoseconds. */
  type Time = nat
  const SECOND: nat := 1_000_000_000

  /** An OPT record keeps its extended flags in the TTL field of its header. */
  datatype Kind = Plain | Soa(minimum: uint32) | Opt(udpSize: nat)

  datatype Record = Record(kind: Kind, ttl: uint32)

  function Uint32(x: int): (r: uint32)
  {
    x % 0x1_0000_0000
  }

  // ---------------------------------------------------------------------------------------------
  // Choosing the TTL.
  // ---------------------------------------------------------------------------------------------

  /** `t` is the smallest positive TTL in `records`, or zero when there is none. */
  ghost predicate IsSmallestPositive(records: seq<Record>, t: uint32)
  {
    && (forall i :: 0 <= i < |records| ==> records[i].ttl == 0 || (0 < t <= records[i].ttl))
    && (t > 0 ==> exists i :: 0 <= i < |records| && records[i].ttl == t)
  }

  /** `t` is the negative TTL of section 5 of RFC 2308: the first SOA's TTL or minimum, the smaller. */
  ghost predicate IsNegativeTTL(authority: seq<Record>, k: nat, t: uint32)
  {
    && k < |authority| && authority[k].kind.Soa?
    && (forall i :: 0 <= i < k ==> !authority[i].kind.Soa?)
    && t <= authority[k].ttl && t <= authority[k].kind.minimum
    && (t == authority[k].ttl || t == authority[k].kind.minimum)
  }

  method ExtractNegativeTTL(authority: seq<Record>) returns (t: uint32, found: Option<nat>)
    ensures found.None? ==> t == 0 && forall i :: 0 <= i < |authority| ==> !authority[i].kind.Soa?
    ensures found.Some? ==> IsNegativeTTL(authority, found.value, t)
  {
    for k := 0 to |authority|
      invariant forall i :: 0 <= i < k ==> !authority[i].kind.Soa?
    {
      if authority[k].kind.Soa? {
        if authority[k].ttl < authority[k].kind.minimum {
          return authority[k].ttl, Some(k);
        }
        return authority[k].kind.minimum, Some(k);
      }
    }
    return 0, None;
  }

  /** One pass over a section, continuing from the TTL found in the sections before it. */
  function Smallest(records: seq<Record>, found: uint32): (t: uint32)
  {
    if records == [] then found
    else
      var ttl := records[0].ttl;
      Smallest(records[1..], if found == 0 || (ttl > 0 && ttl < found) then ttl else found)
  }

  lemma {:induction false} SmallestIsSmallest(before: seq<Record>, records: seq<Record>, found: uint32)
    requires IsSmallestPositive(before, found)
    ensures IsSmallestPositive(before + records, Smallest(records, found))
    decreases |records|
  {
    if records == [] {
      assert before + records == before;
    } else {
      var ttl := records[0].ttl;
      var t := if found == 0 || (ttl > 0 && ttl < found) then ttl else found;
      var more := before + [records[0]];
      assert IsSmallestPositive(more, t) by {
        assert more[|before|] == records[0];
        if t > 0 && t == found {
          var i :| 0 <= i < |before| && before[i].ttl == found;
          assert more[i].ttl == t;
        }
      }
      SmallestIsSmallest(more, records[1..], t);
      assert before + records == more + records[1..];
    }
  }

  lemma {:induction false} SmallestIsUnique(records: seq<Record>, s: uint32, t: uint32)
    requires IsSmallestPositive(records, s) && IsSmallestPositive(records, t)
    ensures s == t
  {
  }

  method ScanSection(records: seq<Record>, found: uint32) returns (t: uint32)
    ensures t == Smallest(records, found)
  {
    t := found;
    for i := 0 to |records|
      invariant Smallest(records[i..], t) == Smallest(records, found)
    {
      assert records[i..][0] == records[i] && records[i..][1..] == records[i + 1..];
      if t == 0 || (records[i].ttl > 0 && records[i].ttl < t) {
        t := records[i].ttl;
      }
    }
  }

  // ---------------------------------------------------------------------------------------------
  // Messages: their record lists are changed in place.
  // ---------------------------------------------------------------------------------------------

  datatype Sections = Sections(answer: seq<Record>, authority: seq<Record>, extra: seq<Record>) {
    function All(): (r: seq<Record>) { answer + authority + extra }
  }

  function Retimed(records: seq<Record>, t: uint32): (r: seq<Record>)
    ensures |r| == |records|
  {
    seq(|records|, i requires 0 <= i < |records| => records[i].(ttl := t))
  }

  function Lowered(records: seq<Record>, duration: uint32): (r: seq<Record>)
    ensures |r| == |records|
  {
    seq(|records|, i requires 0 <= i < |records| => records[i].(ttl := Uint32(records[i].ttl - duration)))
  }

  function RetimedAll(s: Sections, t: uint32): (r: Sections)
  {
    Sections(Retimed(s.answer, t), Retimed(s.authority, t), Retimed(s.extra, t))
  }

  function Origin(s: Sections): (t: uint32)
  {
    Smallest(s.extra, Smallest(s.authority, Smallest(s.answer, 0)))
  }

  /** What a hit with `left` whole seconds to go makes of the kept message. */
  function Aged(s: Sections, left: uint32): (r: Sections)
  {
    var origin := Origin(s);
    if origin == 0 then RetimedAll(s, left)
    else
      var duration := Uint32(origin - left);
      Sections(Lowered(s.answer, duration), Lowered(s.authority, duration), Lowered(s.extra, duration))
  }

  /** The last OPT record of a section, which is where IsEdns0 looks first. */
  function LastOpt(extra: seq<Record>): (r: Option<Record>)
    ensures r.Some? ==> exists i :: 0 <= i < |extra| && extra[i] == r.value && extra[i].kind.Opt?
                                 && forall j :: i < j < |extra| ==> !extra[j].kind.Opt?
    ensures r.None? ==> forall i :: 0 <= i < |extra| ==> !extra[i].kind.Opt?
  {
    if extra == [] then None
    else if extra[|extra| - 1].kind.Opt? then Some(extra[|extra| - 1])
    else LastOpt(extra[..|extra| - 1])
  }

  function Version(ttl: uint32): (r: nat) { (ttl / 0x1_0000) % 0x100 }

  /** The layout of section 6.1.3 of RFC 6891: an extended code, a version, the DO bit and a reserved rest. */
  lemma {:induction false} FlagsInTTL(code: nat, version: nat, dnssecOk: bool, rest: nat)
    requires code < 0x100 && version < 0x100 && rest < 0x8000
    ensures var ttl: uint32 := code * 0x100_0000 + version * 0x1_0000 + (if dnssecOk then 0x8000 else 0) + rest;
      Version(ttl) == version && (DnssecOk(ttl) <==> dnssecOk)
  {
  }

  predicate DnssecOk(ttl: uint32) { (ttl / 0x8000) % 2 == 1 }

  function WithoutOpt(extra: seq<Record>): (r: seq<Record>)
    ensures forall x :: x in r <==> x in extra && !x.kind.Opt?
  {
    if extra == [] then []
    else if extra[0].kind.Opt? then WithoutOpt(extra[1..])
    else [extra[0]] + WithoutOpt(extra[1..])
  }

  /** The additional section after the EDNS clean-up; `asked` is the version in the query's OPT record. */
  function Cleaned(extra: seq<Record>, asked: Option<nat>): (r: seq<Record>)
  {
    match LastOpt(extra)
    case None => extra
    case Some(opt) =>
      if asked.None? then WithoutOpt(extra)
      else if asked.value < Version(opt.ttl) then
        WithoutOpt(extra) + [Record(Opt(opt.kind.udpSize), if DnssecOk(opt.ttl) then 0x8000 else 0)]
      else extra
  }

  /** What the cache keeps of a response whose TTL was chosen as `t`. */
  function Kept(s: Sections, t: uint32, asked: Option<nat>): (r: Sections)
  {
    RetimedAll(s, t).(extra := Cleaned(Retimed(s.extra, t), asked))
  }

  // ---------------------------------------------------------------------------------------------
  // What a hit shows.
  // ---------------------------------------------------------------------------------------------

  /** Every record other than an OPT record has TTL `t`. */
  ghost predicate AllShow(records: seq<Record>, t: uint32)
  {
    forall i :: 0 <= i < |records| && !records[i].kind.Opt? ==> records[i].ttl == t
  }

  ghost predicate Shows(s: Sections, t: uint32)
  {
    AllShow(s.answer, t) && AllShow(s.authority, t) && AllShow(s.extra, t)
  }

  ghost predicate OnlyOpt(records: seq<Record>)
  {
    forall i :: 0 <= i < |records| ==> records[i].kind.Opt?
  }

  ghost predicate HasOpt(records: seq<Record>)
  {
    exists i :: 0 <= i < |records| && records[i].kind.Opt?
  }

  /** The clean-up gives the message a new OPT record, reading its flags from the chosen TTL. */
  ghost predicate Reopened(extra: seq<Record>, asked: Option<nat>, t: uint32)
  {
    HasOpt(extra) && asked.Some? && asked.value < Version(t)
  }

  lemma {:induction false} OriginIsSmallest(s: Sections)
    ensures IsSmallestPositive(s.All(), Origin(s))
  {
    SmallestIsSmallest([], s.answer, 0);
    SmallestIsSmallest([] + s.answer, s.authority, Smallest(s.answer, 0));
    SmallestIsSmallest([] + s.answer + s.authority, s.extra, Smallest(s.authority, Smallest(s.answer, 0)));
    assert [] + s.answer + s.authority + s.extra == s.All();
  }

  lemma {:induction false} LastOptOfRetimed(extra: seq<Record>, t: uint32)
    ensures LastOpt(Retimed(extra, t)).Some? <==> HasOpt(extra)
    ensures LastOpt(Retimed(extra, t)).Some? ==> LastOpt(Retimed(extra, t)).value.ttl == t
  {
    var timed := Retimed(extra, t);
    assert forall i :: 0 <= i < |extra| ==> timed[i].kind == extra[i].kind && timed[i].ttl == t;
    var opt := LastOpt(timed);
    hide LastOpt;
    if opt.Some? {
      var i :| 0 <= i < |timed| && timed[i] == opt.value;
      assert extra[i].kind.Opt?;
    }
  }

  ghost predicate AllAt(records: seq<Record>, t: uint32)
  {
    forall i :: 0 <= i < |records| ==> records[i].ttl == t
  }

  /** The kept section with a record added anew: everything else is at `t` and no OPT record. */
  ghost predicate EndsInNewOpt(records: seq<Record>, t: uint32)
  {
    && |records| > 0
    && records[|records| - 1].kind.Opt?
    && records[|records| - 1].ttl == (if DnssecOk(t) then 0x8000 else 0)
    && forall i :: 0 <= i < |records| - 1 ==> records[i].ttl == t && !records[i].kind.Opt?
  }

  /** The additional section the cache keeps: all of it at `t`, except an OPT record added anew. */
  lemma {:induction false} KeptExtra(extra: seq<Record>, t: uint32, asked: Option<nat>)
    ensures var r := Cleaned(Retimed(extra, t), asked);
      if Reopened(extra, asked, t) then EndsInNewOpt(r, t) else AllAt(r, t)
  {
    var timed := Retimed(extra, t);
    LastOptOfRetimed(extra, t);
    BareIsAt(timed, t);
    var bare := WithoutOpt(timed);
    var r := Cleaned(timed, asked);
    if Reopened(extra, asked, t) {
      var opt := LastOpt(timed).value;
      assert r == bare + [Record(Opt(opt.kind.udpSize), if DnssecOk(t) then 0x8000 else 0)];
    } else {
      assert r == timed || r == bare;
    }
  }

  lemma {:induction false} BareIsAt(records: seq<Record>, t: uint32)
    requires AllAt(records, t)
    ensures forall i :: 0 <= i < |WithoutOpt(records)| ==>
      WithoutOpt(records)[i].ttl == t && !WithoutOpt(records)[i].kind.Opt?
  {
    var bare := WithoutOpt(records);
    hide WithoutOpt;
    forall i | 0 <= i < |bare|
      ensures bare[i].ttl == t && !bare[i].kind.Opt?
    {
      assert bare[i] in bare;
    }
  }

  lemma {:induction false} RetimedSame(records: seq<Record>, t: uint32)
    ensures AllAt(Retimed(records, t), t)
    ensures OnlyOpt(records) <==> OnlyOpt(Retimed(records, t))
  {
    assert forall i :: 0 <= i < |records| ==> Retimed(records, t)[i].kind == records[i].kind;
  }

  lemma {:induction false} KeptOpt(extra: seq<Record>, t: uint32, asked: Option<nat>)
    ensures OnlyOpt(extra) <==> OnlyOpt(Cleaned(Retimed(extra, t), asked))
  {
    var timed := Retimed(extra, t);
    assert forall i :: 0 <= i < |extra| ==> timed[i].kind == extra[i].kind;
    var bare := WithoutOpt(timed);
    assert forall i :: 0 <= i < |bare| ==> bare[i] in bare;
    hide WithoutOpt, LastOpt, Version, DnssecOk;
    if !OnlyOpt(extra) {
      var j :| 0 <= j < |extra| && !extra[j].kind.Opt?;
      assert timed[j] in bare;
      var k :| 0 <= k < |bare| && bare[k] == timed[j];
      var cleaned := Cleaned(timed, asked);
      assert cleaned == timed || cleaned[k] == timed[j];
    }
  }

  /** The 32-bit subtraction is exact on records at the origin TTL, because no more time is left. */
  lemma {:induction false} SubtractionIsExact(origin: uint32, left: uint32)
    requires left <= origin
    ensures Uint32(origin - left) == origin - left
    ensures Uint32(origin - Uint32(origin - left)) == left
  {
  }

  /** With every record at `t` a hit shows the time left on every record, OPT or not. */
  lemma {:induction false} UniformHit(s: Sections, t: uint32, left: uint32)
    requires 0 < t && left <= t
    requires AllAt(s.answer, t) && AllAt(s.authority, t) && AllAt(s.extra, t)
    ensures Aged(s, left) == RetimedAll(s, left)
  {
    OriginIsSmallest(s);
    var all := s.All();
    assert AllAt(all, t);
    if all == [] {
      assert Origin(s) == 0;
    } else {
      assert all[0].ttl == t;
      assert Origin(s) == t;
      SubtractionIsExact(t, left);
    }
  }

  /** A message in which only an OPT record added anew is off `t`. */
  ghost predicate AtExceptNewOpt(s: Sections, t: uint32)
  {
    AllAt(s.answer, t) && AllAt(s.authority, t) && EndsInNewOpt(s.extra, t)
  }

  lemma {:induction false} ReopenedOrigin(s: Sections, t: uint32)
    requires t >= 0x1_0000 && AtExceptNewOpt(s, t)
    ensures DnssecOk(t) ==> Origin(s) == 0x8000
    ensures !DnssecOk(t) ==> Origin(s) == t || Origin(s) == 0
    ensures !DnssecOk(t) && Origin(s) == 0 ==> s.answer == [] && s.authority == [] && |s.extra| == 1
  {
    OriginIsSmallest(s);
    var all := s.All();
    var n := |all| - 1;
    assert all[n] == s.extra[|s.extra| - 1];
    forall i | 0 <= i < n
      ensures all[i].ttl == t
    {
    }
    var origin := Origin(s);
    assert n > 0 ==> all[0].ttl == t;
    hide Origin, DnssecOk;
  }

  lemma {:induction false} LoweredShows(records: seq<Record>, t: uint32, duration: uint32)
    requires forall i :: 0 <= i < |records| && !records[i].kind.Opt? ==> records[i].ttl == t
    ensures AllShow(Lowered(records, duration), Uint32(t - duration))
    ensures forall left: uint32 | left != Uint32(t - duration) ::
      AllShow(Lowered(records, duration), left) <==> OnlyOpt(records)
  {
    var r := Lowered(records, duration);
    assert forall i :: 0 <= i < |r| ==> r[i].kind == records[i].kind;
    hide Uint32;
    forall left: uint32 | left != Uint32(t - duration)
      ensures AllShow(r, left) <==> OnlyOpt(records)
    {
      if !OnlyOpt(records) {
        var i :| 0 <= i < |records| && !records[i].kind.Opt?;
        assert r[i].ttl != left;
      }
    }
  }

  /** The DO bit makes the new OPT record the smallest, and the subtraction wraps around. */
  lemma {:induction false} DamagedDuration(t: uint32, left: uint32)
    requires t >= 0x1_0000 && left <= t
    ensures Uint32(t - Uint32(0x8000 - left)) == Uint32(t - 0x8000 + left) != left
  {
  }

  lemma {:induction false} ReopenedHit(s: Sections, t: uint32, left: uint32)
    requires t >= 0x1_0000 && left <= t && AtExceptNewOpt(s, t)
    ensures Shows(Aged(s, left), if DnssecOk(t) then Uint32(t - 0x8000 + left) else left)
    ensures DnssecOk(t) ==>
      (Shows(Aged(s, left), left) <==> OnlyOpt(s.answer) && OnlyOpt(s.authority) && OnlyOpt(s.extra))
  {
    ReopenedOrigin(s, t);
    var origin := Origin(s);
    hide Origin;
    if origin == 0 {
      assert DnssecOk(t) ==> false;
    } else {
      var duration := Uint32(origin - left);
      LoweredShows(s.answer, t, duration);
      LoweredShows(s.authority, t, duration);
      LoweredShows(s.extra, t, duration);
      if DnssecOk(t) {
        DamagedDuration(t, left);
      } else {
        SubtractionIsExact(t, left);
      }
    }
  }

  /** The response asked for the DO bit of a new OPT record to be read out of the chosen TTL. */
  ghost predicate Damaged(s: Sections, asked: Option<nat>, t: uint32)
  {
    Reopened(s.extra, asked, t) && DnssecOk(t)
  }

  /**
   A hit shows the whole seconds left on every record that is not an OPT record, exactly when the
   EDNS clean-up did not add an OPT record whose DO bit comes from the chosen TTL (or when there are
   OPT records only).
   */
  lemma {:induction false} HitShowsTimeLeft(s: Sections, t: uint32, asked: Option<nat>, left: uint32)
    requires 0 < t && left <= t
    ensures Shows(Aged(Kept(s, t, asked), left), left) <==>
      !Damaged(s, asked, t) || (OnlyOpt(s.answer) && OnlyOpt(s.authority) && OnlyOpt(s.extra))
    ensures Damaged(s, asked, t) ==> Shows(Aged(Kept(s, t, asked), left), Uint32(t - 0x8000 + left))
    ensures !Reopened(s.extra, asked, t) ==> Aged(Kept(s, t, asked), left) == RetimedAll(Kept(s, t, asked), left)
  {
    hide Aged, Cleaned, Retimed, OnlyOpt, DnssecOk, HasOpt;
    var kept := Kept(s, t, asked);
    KeptExtra(s.extra, t, asked);
    KeptOpt(s.extra, t, asked);
    RetimedSame(s.answer, t);
    RetimedSame(s.authority, t);
    if Reopened(s.extra, asked, t) {
      ReopenedHit(kept, t, left);
    } else {
      UniformHit(kept, t, left);
      RetimedSame(kept.answer, left);
      RetimedSame(kept.authority, left);
      RetimedSame(kept.extra, left);
    }
  }

  // ---------------------------------------------------------------------------------------------
  // The client: messages are shared between the cache and the caller that stored them.
  // ---------------------------------------------------------------------------------------------

  method RetimeSection(records: seq<Record>, t: uint32) returns (r: seq<Record>)
    ensures r == Retimed(records, t)
  {
    r := records;
    for i := 0 to |records|
      invariant |r| == |records|
      invariant forall j :: 0 <= j < i ==> r[j] == records[j].(ttl := t)
      invariant forall j :: i <= j < |r| ==> r[j] == records[j]
    {
      r := r[i := r[i].(ttl := t)];
    }
  }

  method LowerSection(records: seq<Record>, duration: uint32) returns (r: seq<Record>)
    ensures r == Lowered(records, duration)
  {
    r := records;
    for i := 0 to |records|
      invariant |r| == |records|
      invariant forall j :: 0 <= j < i ==> r[j] == records[j].(ttl := Uint32(records[j].ttl - duration))
      invariant forall j :: i <= j < |r| ==> r[j] == records[j]
    {
      r := r[i := r[i].(ttl := Uint32(r[i].ttl - duration))];
    }
  }

  class Message {
    var answer: seq<Record>
    var authority: seq<Record>
    var extra: seq<Record>

    function Content(): (r: Sections)
      reads this
    {
      Sections(answer, authority, extra)
    }

    constructor (content: Sections)
      ensures Content() == content
    {
      answer, authority, extra := content.answer, content.authority, content.extra;
    }

    method Copy() returns (m: Message)
      ensures fresh(m) && m.Content() == Content()
    {
      m := new Message(Content());
    }

    method FindOrigin() returns (t: uint32)
      ensures t == Origin(Content())
    {
      t := ScanSection(answer, 0);
      t := ScanSection(authority, t);
      t := ScanSection(extra, t);
    }

    method Retime(t: uint32)
      modifies this
      ensures Content() == RetimedAll(old(Content()), t)
    {
      answer := RetimeSection(answer, t);
      authority := RetimeSection(authority, t);
      extra := RetimeSection(extra, t);
    }

    method Age(left: uint32)
      modifies this
      ensures Content() == Aged(old(Content()), left)
    {
      var origin := FindOrigin();
      if origin > 0 {
        var duration := Uint32(origin - left);
        answer := LowerSection(answer, duration);
        authority := LowerSection(authority, duration);
        extra := LowerSection(extra, duration);
      } else {
        Retime(left);
      }
    }

    method CleanUp(asked: Option<nat>)
      modifies this
      ensures Content() == old(Content()).(extra := Cleaned(old(extra), asked))
    {
      var opt := LastOpt(extra);
      if opt.Some? && (asked.None? || asked.value < Version(opt.value.ttl)) {
        extra := WithoutOpt(extra);
        if asked.Some? {
          extra := extra + [Record(Opt(opt.value.kind.udpSize), if DnssecOk(opt.value.ttl) then 0x8000 else 0)];
        }
      }
    }
  }

  /** An empty answer with an SOA record whose negative TTL is not zero. */
  ghost predicate HasNegativeTTL(s: Sections)
  {
    s.answer == [] && exists k, t: uint32 :: IsNegativeTTL(s.authority, k, t) && t > 0
  }

  /** What the TTL of a response should be. */
  ghost predicate IsLifetime(s: Sections, rewrite: Option<uint32>, t: uint32)
  {
    if rewrite.Some? then t == rewrite.value
    else if HasNegativeTTL(s) then exists k :: IsNegativeTTL(s.authority, k, t)
    else IsSmallestPositive(s.All(), t)
  }

  method ChooseTTL(m: Message, rewrite: Option<uint32>) returns (t: uint32)
    ensures forall u: uint32 :: IsLifetime(m.Content(), rewrite, u) <==> u == t
  {
    LifetimeIsUnique(m.Content(), rewrite);
    hide IsSmallestPositive, IsNegativeTTL;
    t := 0;
    if |m.answer| == 0 {
      var negative, found := ExtractNegativeTTL(m.authority);
      NegativeIsUnique(m.authority, negative, found);
      t := negative;
    }
    if t == 0 {
      t := m.FindOrigin();
      OriginIsSmallest(m.Content());
    }
    if rewrite.Some? {
      t := rewrite.value;
    }
  }

  /** The rules leave no choice. */
  lemma {:induction false} LifetimeIsUnique(s: Sections, rewrite: Option<uint32>)
    ensures forall t: uint32, u: uint32 :: IsLifetime(s, rewrite, t) && IsLifetime(s, rewrite, u) ==> t == u
  {
    forall t: uint32, u: uint32 | IsLifetime(s, rewrite, t) && IsLifetime(s, rewrite, u)
      ensures t == u
    {
      if rewrite.None? {
        if HasNegativeTTL(s) {
          var k :| IsNegativeTTL(s.authority, k, t);
          NegativeIsUnique(s.authority, t, Some(k));
        } else {
          SmallestIsUnique(s.All(), t, u);
        }
      }
    }
  }

  lemma {:induction false} NegativeIsUnique(authority: seq<Record>, t: uint32, found: Option<nat>)
    requires found.None? ==> t == 0 && forall i :: 0 <= i < |authority| ==> !authority[i].kind.Soa?
    requires found.Some? ==> IsNegativeTTL(authority, found.value, t)
    ensures forall k, u: uint32 :: IsNegativeTTL(authority, k, u) ==> u == t
  {
    forall k, u: uint32 | IsNegativeTTL(authority, k, u)
      ensures u == t
    {
      assert found.Some? && k == found.value;
    }
  }

  /**
   The TTL of a record that lives 98304 seconds, answered with an OPT record to a query with one, and
   hit at once: the clean-up reads a version and the DO bit out of 98304, and the hit shows 163840.
   */
  lemma {:induction false} OversizedTTL(udpSize: nat)
    ensures var s := Sections([Record(Plain, 98304)], [], [Record(Opt(udpSize), 0)]);
      && IsLifetime(s, None, 98304) && Damaged(s, Some(0), 98304)
      && Aged(Kept(s, 98304, Some(0)), 98304).answer == [Record(Plain, 163840)]
  {
    var s := Sections([Record(Plain, 98304)], [], [Record(Opt(udpSize), 0)]);
    assert s.All()[0].ttl == 98304;
    assert IsSmallestPositive(s.All(), 98304);
    assert s.extra[0].kind.Opt?;
    HitShowsTimeLeft(s, 98304, Some(0), 98304);
    var kept := Kept(s, 98304, Some(0));
    var hit := Aged(kept, 98304);
    assert |hit.answer| == 1 && hit.answer[0].kind == Plain;
    assert Shows(hit, Uint32(98304 - 0x8000 + 98304));
  }

  type Question = nat

  datatype Key = Key(question: Question, transport: Option<Tag>)

  datatype Entry = Entry(message: Message, expireAt: Time)

  /** The response an entry came from, the TTL chosen for it, and when it was stored. */
  datatype Deposit = Deposit(original: Sections, lifetime: uint32, asked: Option<nat>, at: Time) {
    function Content(): (r: Sections) { Kept(original, lifetime, asked) }
    function Expiry(): (r: Time) { at + SECOND * lifetime }
    function Left(now: Time): (r: nat) requires now <= Expiry() { (Expiry() - now) / SECOND }
  }

  lemma {:induction false} LeftIsBounded(d: Deposit, now: Time)
    requires d.at <= now <= d.Expiry()
    ensures d.Left(now) <= d.lifetime
  {
  }

  /** A kept message and its expiry are those of the deposit, made no later than the clock shows. */
  ghost predicate Fits(content: Sections, expireAt: Time, d: Deposit, clock: Time)
  {
    content == d.Content() && 0 < d.lifetime && d.at <= clock && expireAt == d.Expiry()
  }

  lemma {:induction false} FitsLater(content: Sections, expireAt: Time, d: Deposit, clock: Time, now: Time)
    requires Fits(content, expireAt, d, clock) && clock <= now
    ensures Fits(content, expireAt, d, now)
  {
  }

  lemma {:induction false} FitsNew(original: Sections, t: uint32, asked: Option<nat>, now: Time)
    ensures t > 0 ==> Fits(Kept(original, t, asked), now + SECOND * t, Deposit(original, t, asked, now), now)
  {
  }

  /** Where the cache keeps the answer to a question: by question alone, or apart for each transport. */
  function SlotOf(independent: bool, question: Question, transport: Tag): (r: Key)
  {
    Key(question, if independent then Some(transport) else None)
  }

  /** What was stored, for which question and from which transport. */
  datatype Stored = Stored(question: Question, transport: Tag, deposit: Deposit) {
    predicate Answers(independent: bool, q: Question, t: Tag)
    {
      question == q && (independent ==> transport == t)
    }
  }

  /** The deposit stored last for a question, and from the same transport when these are kept apart. */
  ghost function Latest(log: seq<Stored>, independent: bool, q: Question, t: Tag): (r: Option<Deposit>)
  {
    if log == [] then None
    else if log[|log| - 1].Answers(independent, q, t) then Some(log[|log| - 1].deposit)
    else Latest(log[..|log| - 1], independent, q, t)
  }

  lemma {:induction false} LatestIsLast(log: seq<Stored>, independent: bool, q: Question, t: Tag) returns (i: nat)
    ensures Latest(log, independent, q, t).Some? ==>
      && i < |log| && Latest(log, independent, q, t) == Some(log[i].deposit)
      && log[i].question == q && (independent ==> log[i].transport == t)
      && forall j :: i < j < |log| ==> log[j].question != q || (independent && log[j].transport != t)
    ensures Latest(log, independent, q, t).None? ==>
      forall j :: 0 <= j < |log| ==> log[j].question != q || (independent && log[j].transport != t)
    decreases |log|
  {
    i := 0;
    if log != [] {
      var n := |log| - 1;
      if log[n].Answers(independent, q, t) {
        i := n;
      } else {
        i := LatestIsLast(log[..n], independent, q, t);
      }
    }
  }

  /** What is kept for a question is its latest deposit; one that is no longer kept has expired. */
  ghost predicate RecallsAt(deposits: map<Key, Deposit>, log: seq<Stored>, independent: bool, disableExpire: bool,
                            clock: Time, q: Question, t: Tag)
  {
    var slot, latest := SlotOf(independent, q, t), Latest(log, independent, q, t);
    if slot in deposits then latest == Some(deposits[slot])
    else latest.None? || (!disableExpire && latest.value.Expiry() < clock)
  }

  ghost predicate Recalls(deposits: map<Key, Deposit>, log: seq<Stored>, independent: bool, disableExpire: bool,
                          clock: Time)
  {
    forall q, t :: RecallsAt(deposits, log, independent, disableExpire, clock, q, t)
  }

  lemma {:induction false} RecallsStored(deposits: map<Key, Deposit>, log: seq<Stored>, independent: bool,
                                         disableExpire: bool, clock: Time, now: Time, one: Stored)
    requires Recalls(deposits, log, independent, disableExpire, clock) && clock <= now
    ensures Recalls(deposits[SlotOf(independent, one.question, one.transport) := one.deposit], log + [one],
                    independent, disableExpire, now)
  {
    var more, longer := deposits[SlotOf(independent, one.question, one.transport) := one.deposit], log + [one];
    assert longer[..|log|] == log;
    forall q, t
      ensures RecallsAt(more, longer, independent, disableExpire, now, q, t)
    {
      assert RecallsAt(deposits, log, independent, disableExpire, clock, q, t);
    }
  }

  lemma {:induction false} RecallsLater(deposits: map<Key, Deposit>, log: seq<Stored>, independent: bool,
                                        disableExpire: bool, clock: Time, now: Time)
    requires Recalls(deposits, log, independent, disableExpire, clock) && clock <= now
    ensures Recalls(deposits, log, independent, disableExpire, now)
  {
    forall q, t
      ensures RecallsAt(deposits, log, independent, disableExpire, now, q, t)
    {
      assert RecallsAt(deposits, log, independent, disableExpire, clock, q, t);
    }
  }

  lemma {:induction false} RecallsDropped(deposits: map<Key, Deposit>, log: seq<Stored>, independent: bool,
                                          clock: Time, slot: Key)
    requires Recalls(deposits, log, independent, false, clock)
    requires slot in deposits && deposits[slot].Expiry() < clock
    ensures Recalls(deposits - {slot}, log, independent, false, clock)
  {
    forall q, t
      ensures RecallsAt(deposits - {slot}, log, independent, false, clock, q, t)
    {
      assert RecallsAt(deposits, log, independent, false, clock, q, t);
    }
  }

  class Client {
    const disableExpire: bool
    const independent: bool
    var cache: map<Key, Entry>
    ghost var deposits: map<Key, Deposit>
    ghost var kept: set<Message>
    ghost var clock: Time
    ghost var log: seq<Stored>

    ghost predicate Valid()
      reads this, kept
    {
      && cache.Keys == deposits.Keys
      && (forall k :: k in cache ==> Holds(k))
      && Recalls(deposits, log, independent, disableExpire, clock)
    }

    ghost predicate Holds(k: Key)
      requires k in cache && k in deposits
      reads this, kept
    {
      && cache[k].message in kept
      && Fits(cache[k].message.Content(), cache[k].expireAt, deposits[k], clock)
    }

    function KeyOf(question: Question, transport: Tag): (r: Key)
    {
      SlotOf(independent, question, transport)
    }

    constructor (disableExpire: bool, independent: bool)
      ensures Valid() && cache == map[] && kept == {} && clock == 0 && log == []
      ensures this.disableExpire == disableExpire && this.independent == independent
    {
      this.disableExpire, this.independent := disableExpire, independent;
      cache, deposits, kept, clock, log := map[], map[], {}, 0, [];
    }

    /**
     The end of an exchange: the response gets its TTL, is stored when it may be and the TTL is not
     zero, and is cleaned up afterwards, which the cache sees because it shares the message.
     */
    method Complete(question: Question, transport: Tag, response: Message, asked: Option<nat>,
                    rewrite: Option<uint32>, mayCache: bool, now: Time) returns (t: uint32)
      requires Valid() && response !in kept && clock <= now
      modifies this, response
      ensures Valid() && clock == now && kept == old(kept) + {response}
      ensures IsLifetime(old(response.Content()), rewrite, t)
      ensures response.Content() == Kept(old(response.Content()), t, asked)
      ensures !mayCache || t == 0 ==> cache == old(cache) && deposits == old(deposits) && log == old(log)
      ensures mayCache && t > 0 ==>
        var d := Deposit(old(response.Content()), t, asked, now);
        && log == old(log) + [Stored(question, transport, d)]
        && deposits == old(deposits)[KeyOf(question, transport) := d]
        && cache == old(cache)[KeyOf(question, transport) := Entry(response, now + SECOND * t)]
    {
      hide IsLifetime, Retimed, Cleaned, Fits, Recalls, Latest, SlotOf;
      ghost var original := response.Content();
      t := ChooseTTL(response, rewrite);
      response.Retime(t);
      if mayCache {
        StoreCache(question, transport, response, t, now, Deposit(original, t, asked, now));
      } else {
        RecallsLater(deposits, log, independent, disableExpire, clock, now);
      }
      response.CleanUp(asked);
      kept, clock := kept + {response}, now;
      FitsNew(original, t, asked, now);
      forall k | k in cache
        ensures Holds(k)
      {
        if cache[k].message != response {
          assert k in old(cache) && old(Holds(k));
          FitsLater(cache[k].message.Content(), cache[k].expireAt, deposits[k], old(clock), now);
        }
      }
    }

    method StoreCache(question: Question, transport: Tag, response: Message, t: uint32, now: Time, ghost d: Deposit)
      requires Recalls(deposits, log, independent, disableExpire, clock) && clock <= now
      modifies this`cache, this`deposits, this`log
      ensures Recalls(deposits, log, independent, disableExpire, now)
      ensures t == 0 ==> cache == old(cache) && deposits == old(deposits) && log == old(log)
      ensures t > 0 ==>
        && cache == old(cache)[KeyOf(question, transport) := Entry(response, now + SECOND * t)]
        && deposits == old(deposits)[KeyOf(question, transport) := d]
        && log == old(log) + [Stored(question, transport, d)]
    {
      if t == 0 {
        RecallsLater(deposits, log, independent, disableExpire, clock, now);
        return;
      }
      cache := cache[KeyOf(question, transport) := Entry(response, now + SECOND * t)];
      RecallsStored(deposits, log, independent, disableExpire, clock, now, Stored(question, transport, d));
      deposits := deposits[KeyOf(question, transport) := d];
      log := log + [Stored(question, transport, d)];
    }

    /**
     There is a hit exactly when something was stored for this question (from this transport, when they
     are kept apart) and the latest such deposit has not expired. It is a fresh copy of that deposit
     showing the whole seconds left, at most its lifetime. Nothing else in the cache is disturbed.
     */
    method LoadResponse(question: Question, transport: Tag, now: Time) returns (r: Message?, ttl: nat)
      requires Valid() && clock <= now
      modifies this
      ensures Valid() && clock == now && kept == old(kept) && log == old(log)
      ensures r != null <==>
        var latest := Latest(log, independent, question, transport);
        latest.Some? && (disableExpire || now <= latest.value.Expiry())
      ensures r != null ==> fresh(r) && cache == old(cache) && deposits == old(deposits)
      ensures r == null ==> cache == old(cache) - {KeyOf(question, transport)}
      ensures r != null && disableExpire ==>
        ttl == 0 && r.Content() == Latest(log, independent, question, transport).value.Content()
      ensures r != null && !disableExpire ==>
        var d := Latest(log, independent, question, transport).value;
        && now <= d.Expiry() && ttl == d.Left(now) <= d.lifetime
        && r.Content() == Aged(d.Content(), ttl)
        && (!Damaged(d.original, d.asked, d.lifetime) ==> Shows(r.Content(), ttl))
    {
      hide Aged, Retimed, Cleaned, Shows, Damaged, Latest;
      var key := KeyOf(question, transport);
      RecallsLater(deposits, log, independent, disableExpire, clock, now);
      assert RecallsAt(deposits, log, independent, disableExpire, now, question, transport);
      hide Recalls;
      clock := now;
      if key !in cache {
        return null, 0;
      }
      assert Holds(key);
      var entry := cache[key];
      if disableExpire {
        r := entry.message.Copy();
        return r, 0;
      }
      if now > entry.expireAt {
        RecallsDropped(deposits, log, independent, clock, key);
        cache, deposits := cache - {key}, deposits - {key};
        return null, 0;
      }
      r, ttl := Serve(entry, now, deposits[key]);
    }

    method Serve(entry: Entry, now: Time, ghost d: Deposit) returns (r: Message, ttl: nat)
      requires Fits(entry.message.Content(), entry.expireAt, d, now) && now <= entry.expireAt
      ensures fresh(r) && ttl == d.Left(now) <= d.lifetime
      ensures r.Content() == Aged(d.Content(), ttl)
      ensures !Damaged(d.original, d.asked, d.lifetime) ==> Shows(r.Content(), ttl)
    {
      hide Aged, Retimed, Cleaned, Shows, Damaged;
      var left := (entry.expireAt - now) / SECOND;
      LeftIsBounded(d, now);
      r := entry.message.Copy();
      r.Age(left);
      HitShowsTimeLeft(d.original, d.lifetime, d.asked, left);
      ttl := left;
    }
  }

  /**
   Any number of hits before expiry: each shows the seconds left at its own time, so hits do not
   compound, and none of them disturbs the entry.
   */
  method ServeRepeatedly(client: Client, question: Question, transport: Tag, times: seq<Time>, ghost d: Deposit)
    returns (served: seq<Sections>)
    requires client.Valid() && !client.disableExpire
    requires Latest(client.log, client.independent, question, transport) == Some(d)
    requires forall i :: 0 <= i < |times| ==> client.clock <= times[i] <= d.Expiry()
    requires forall i, j :: 0 <= i < j < |times| ==> times[i] <= times[j]
    modifies client
    ensures client.Valid() && client.cache == old(client.cache) && client.log == old(client.log)
    ensures |served| == |times|
    ensures forall i :: 0 <= i < |times| ==>
      && d.Left(times[i]) <= d.lifetime
      && served[i] == Aged(d.Content(), d.Left(times[i]))
      && (!Damaged(d.original, d.asked, d.lifetime) ==> Shows(served[i], d.Left(times[i])))
  {
    hide Aged, Retimed, Cleaned, Shows, Damaged, Latest;
    served := [];
    for i := 0 to |times|
      invariant client.Valid() && client.cache == old(client.cache) && client.log == old(client.log)
      invariant forall j :: i <= j < |times| ==> client.clock <= times[j]
      invariant |served| == i
      invariant forall j :: 0 <= j < i ==>
        && d.Left(times[j]) <= d.lifetime
        && served[j] == Aged(d.Content(), d.Left(times[j]))
        && (!Damaged(d.original, d.asked, d.lifetime) ==> Shows(served[j], d.Left(times[j])))
    {
      var r, left := client.LoadResponse(question, transport, times[i]);
      served := served + [r.Content()];
    }
  }
}
