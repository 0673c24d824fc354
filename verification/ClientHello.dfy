/**
 The TLS ClientHello parser behind JA3 fingerprints (common/ja3/parser.go): a record holding a
 handshake message holding length-prefixed vectors and a list of extensions.
 */
module ClientHello {
  import opened Common

  type word = x: int | 0 <= x < 0x1_0000

  datatype Error =
    | LengthErr(check: nat)
    | ContentTypeErr
    | VersionErr(check: nat)
    | HandshakeTypeErr
    | SNITypeErr
    | IndexPanic              // an index past the end of a slice: Go panics

  const SNI := 0
  const GROUPS := 10
  const POINT_FORMATS := 11
  const SIGNATURE_ALGORITHMS := 13
  const VERSIONS := 43

  /** What the extension loop collects. */
  datatype Found = Found(serverName: seq<byte>, extensions: seq<word>, groups: seq<word>,
                         pointFormats: seq<byte>, versions: seq<word>, signatureAlgorithms: seq<word>)

  const NOTHING := Found([], [], [], [], [], [])

  function U16(b: seq<byte>, i: nat): (r: int)
    requires i + 2 <= |b|
    ensures 0 <= r < 0x1_0000
  {
    b[i] as int * 256 + b[i + 1]
  }

  /** The first `n` big-endian words of `b`. */
  function Words(b: seq<byte>, n: nat): (r: seq<word>)
    requires 2 * n <= |b|
    ensures |r| == n
  {
    if n == 0 then [] else Words(b, n - 1) + [U16(b, 2 * (n - 1))]
  }

  /** Bytes a loop `for i := 0; i < length; i += 2` touches when each turn reads a word. */
  function Touched(length: nat): (r: nat)
  {
    (length + 1) / 2 * 2
  }

  predicate VersionSupported(v: int)
  {
    v / 4 * 4 == 0x0300 || v == 0x0304
  }

  /** One extension body, by type. */
  function Body(f: Found, kind: int, b: seq<byte>): (r: Result<Found, Error>)
  {
    if kind == SNI then
      if |b| < 5 then Err(LengthErr(13))
      else if |b| - 5 != U16(b, 3) then Err(LengthErr(14))
      else if b[2] != 0 then Err(SNITypeErr)
      else Ok(f.(serverName := b[5..]))
    else if kind == GROUPS then
      if |b| < 2 then Err(LengthErr(15))
      else if |b| - 2 != U16(b, 0) then Err(LengthErr(16))
      else Ok(f.(groups := Words(b[2..], (|b| - 2) / 2)))
    else if kind == POINT_FORMATS then
      if |b| < 1 then Err(LengthErr(17))
      else if |b| - 1 != b[0] then Err(LengthErr(18))
      else Ok(f.(pointFormats := b[1..]))
    else if kind == VERSIONS then
      if |b| < 1 then Err(LengthErr(19))
      else if Touched(b[0]) > |b| - 1 then Err(IndexPanic)
      else Ok(f.(versions := f.versions + Words(b[1..], (b[0] as int + 1) / 2)))
    else if kind == SIGNATURE_ALGORITHMS then
      if |b| < 2 then Err(LengthErr(20))
      else if Touched(U16(b, 0)) > |b| - 2 then Err(IndexPanic)
      else Ok(f.(signatureAlgorithms := f.signatureAlgorithms + Words(b[2..], (U16(b, 0) + 1) / 2)))
    else Ok(f)
  }

  /** The uint16 sum 4+exLen that advances the extension loop. */
  function Advance(length: int): (r: int)
  {
    (4 + length) % 0x1_0000
  }

  /** The extension loop. The record length keeps the input below 2^16 bytes, so it always advances. */
  function Walk(exs: seq<byte>, f: Found): (r: Result<Found, Error>)
    requires |exs| < 0x1_0000
    decreases |exs|
  {
    if exs == [] then Ok(f)
    else if |exs| < 4 then Err(LengthErr(11))
    else
      var kind, length := U16(exs, 0), U16(exs, 2);
      if |exs| < 4 + length then Err(LengthErr(12))
      else match Body(f.(extensions := f.extensions + [kind]), kind, exs[4..4 + length])
        case Err(e) => Err(e)
        case Ok(f') => Walk(exs[Advance(length)..], f')
  }

  function Extensions(exs: seq<byte>): (r: Result<Option<Found>, Error>)
    requires |exs| < 0x1_0000
  {
    if exs == [] then Ok(None)
    else if |exs| < 2 then Err(LengthErr(9))
    else if |exs| - 2 < U16(exs, 0) then Err(LengthErr(10))
    else match Walk(exs[2..], NOTHING)
      case Err(e) => Err(e)
      case Ok(f) => Ok(Some(f))
  }

  /** Version, cipher suites and the extension block of a handshake message. */
  datatype Handshake = Handshake(version: word, cipherSuites: seq<word>, rest: seq<byte>)

  function ParseHandshake(hs: seq<byte>): (r: Result<Handshake, Error>)
    ensures r.Ok? ==> |r.value.rest| < |hs|
  {
    if |hs| < 39 then Err(LengthErr(3))
    else if hs[0] != 1 then Err(HandshakeTypeErr)
    else if |hs| - 4 != hs[1] as int * 0x1_0000 + hs[2] as int * 0x100 + hs[3] then Err(LengthErr(4))
    else if !VersionSupported(U16(hs, 4)) then Err(VersionErr(2))
    else if |hs| < 39 + hs[38] as int then Err(LengthErr(5))
    else ParseCiphers(U16(hs, 4), hs[39 + hs[38] as int..])
  }

  function ParseCiphers(version: word, cs: seq<byte>): (r: Result<Handshake, Error>)
    ensures r.Ok? ==> |r.value.rest| <= |cs|
  {
    if |cs| < 2 then Err(LengthErr(6))
    else
      var length := U16(cs, 0);
      if |cs| < 2 + length + 1 then Err(LengthErr(7))
      else
        var ciphers := Words(cs[2..], length / 2);
        if |cs| < 2 + length + 1 + cs[2 + length] as int then Err(LengthErr(8))
        else Ok(Handshake(version, ciphers, cs[3 + length + cs[2 + length] as int..]))
  }

  function ParseRecord(segment: seq<byte>): (r: Result<seq<byte>, Error>)
    ensures r.Ok? ==> |r.value| < 0x1_0000
  {
    if |segment| < 5 then Err(LengthErr(1))
    else if segment[0] != 22 then Err(ContentTypeErr)
    else if !VersionSupported(U16(segment, 1)) then Err(VersionErr(1))
    else if |segment| - 5 < U16(segment, 3) then Err(LengthErr(2))
    else Ok(segment[5..5 + U16(segment, 3)])
  }

  datatype Hello = Hello(version: word, cipherSuites: seq<word>, found: Option<Found>)

  /** The parser as a function: what a segment means, or why it is refused. */
  function Parse(segment: seq<byte>): (r: Result<Hello, Error>)
  {
    match ParseRecord(segment)
    case Err(e) => Err(e)
    case Ok(hs) =>
      match ParseHandshake(hs)
      case Err(e) => Err(e)
      case Ok(h) =>
        match Extensions(h.rest)
        case Err(e) => Err(e)
        case Ok(found) => Ok(Hello(h.version, h.cipherSuites, found))
  }

  /** The version a handshake message has set by the time it is accepted or refused, if it got that far. */
  function VersionRead(hs: seq<byte>): (v: Option<word>)
  {
    if |hs| >= 39 && hs[0] == 1 && |hs| - 4 == hs[1] as int * 0x1_0000 + hs[2] as int * 0x100 + hs[3]
       && VersionSupported(U16(hs, 4))
    then Some(U16(hs, 4)) else None
  }

  /** The cipher suites it has set, if it got that far. */
  function CiphersRead(hs: seq<byte>): (c: Option<seq<word>>)
  {
    if VersionRead(hs).None? || |hs| < 39 + hs[38] as int + 2 then None
    else
      var cs := hs[39 + hs[38] as int..];
      if |cs| < 2 + U16(cs, 0) + 1 then None else Some(Words(cs[2..], U16(cs, 0) / 2))
  }

  // ---------------------------------------------------------------------------------------------
  // The parser as written: fields assigned on the way, slices advanced in loops.
  // ---------------------------------------------------------------------------------------------

  class Fingerprint {
    var version: word
    var cipherSuites: seq<word>
    var found: Found

    constructor ()
      ensures version == 0 && cipherSuites == [] && found == NOTHING
    {
      version, cipherSuites, found := 0, [], NOTHING;
    }

    method ParseSegment(segment: seq<byte>) returns (failure: Option<Error>)
      modifies this
      ensures match Parse(segment)
        case Err(e) => failure == Some(e)
        case Ok(hello) =>
          && failure == None
          && version == hello.version
          && cipherSuites == hello.cipherSuites
          && found == if hello.found.Some? then hello.found.value else old(found)
      ensures failure.Some? ==> found == old(found)
      ensures match ParseRecord(segment)
        case Err(_) => unchanged(this)
        case Ok(hs) =>
          && version == (if VersionRead(hs).Some? then VersionRead(hs).value else old(version))
          && cipherSuites == (if CiphersRead(hs).Some? then CiphersRead(hs).value else old(cipherSuites))
    {
      if |segment| < 5 {
        return Some(LengthErr(1));
      }
      if segment[0] != 22 {
        return Some(ContentTypeErr);
      }
      if !VersionSupported(U16(segment, 1)) {
        return Some(VersionErr(1));
      }
      var length := U16(segment, 3);
      if |segment[5..]| < length {
        return Some(LengthErr(2));
      }
      failure := ReadHandshake(segment[5..5 + length]);
    }

    method ReadHandshake(hs: seq<byte>) returns (failure: Option<Error>)
      requires |hs| < 0x1_0000
      modifies this
      ensures match ParseHandshake(hs)
        case Err(e) => failure == Some(e)
        case Ok(h) =>
          match Extensions(h.rest)
          case Err(e) => failure == Some(e)
          case Ok(more) =>
            && failure == None && version == h.version && cipherSuites == h.cipherSuites
            && found == if more.Some? then more.value else old(found)
      ensures failure.Some? ==> found == old(found)
      ensures version == if VersionRead(hs).Some? then VersionRead(hs).value else old(version)
      ensures cipherSuites == if CiphersRead(hs).Some? then CiphersRead(hs).value else old(cipherSuites)
    {
      hide Walk;
      if |hs| < 39 {
        return Some(LengthErr(3));
      }
      if hs[0] != 1 {
        return Some(HandshakeTypeErr);
      }
      if |hs[4..]| != hs[1] as int * 0x1_0000 + hs[2] as int * 0x100 + hs[3] {
        return Some(LengthErr(4));
      }
      if !VersionSupported(U16(hs, 4)) {
        return Some(VersionErr(2));
      }
      version := U16(hs, 4);
      if |hs| < 39 + hs[38] as int {
        return Some(LengthErr(5));
      }
      var cs := hs[39 + hs[38] as int..];
      if |cs| < 2 {
        return Some(LengthErr(6));
      }
      var length := U16(cs, 0);
      if |cs| < 2 + length + 1 {
        return Some(LengthErr(7));
      }
      cipherSuites := ReadCiphers(cs, length / 2);
      var methods: int := cs[2 + length];
      if |cs| < 2 + length + 1 + methods {
        return Some(LengthErr(8));
      }
      failure := ReadExtensions(cs[2 + length + 1 + methods..]);
    }

    method ReadExtensions(block: seq<byte>) returns (failure: Option<Error>)
      requires |block| < 0x1_0000
      modifies this`found
      ensures match Extensions(block)
        case Err(e) => failure == Some(e) && found == old(found)
        case Ok(more) => failure == None && found == if more.Some? then more.value else old(found)
    {
      hide Body, Words, Touched;
      if |block| == 0 {
        return None;
      }
      if |block| < 2 {
        return Some(LengthErr(9));
      }
      var exs := block[2..];
      if |exs| < U16(block, 0) {
        return Some(LengthErr(10));
      }
      var f := NOTHING;
      while |exs| > 0
        invariant |exs| < 0x1_0000 && found == old(found)
        invariant Walk(block[2..], NOTHING) == Walk(exs, f)
        decreases |exs|
      {
        if |exs| < 4 {
          return Some(LengthErr(11));
        }
        var kind, length := U16(exs, 0), U16(exs, 2);
        f := f.(extensions := f.extensions + [kind]);
        if |exs| < 4 + length {
          return Some(LengthErr(12));
        }
        var after := ReadBody(f, kind, exs[4..4 + length]);
        if after.Err? {
          return Some(after.error);
        }
        f := after.value;
        exs := exs[Advance(length)..];
      }
      found := f;
      failure := None;
    }
  }

  method ReadCiphers(cs: seq<byte>, count: nat) returns (r: seq<word>)
    requires 2 + 2 * count <= |cs|
    ensures r == Words(cs[2..], count)
  {
    r := [];
    for i := 0 to count
      invariant r == Words(cs[2..], i)
    {
      r := r + [cs[2 + 2 * i] as int * 256 + cs[3 + 2 * i]];
    }
  }

  /** Appends the words of a loop that trusts `length`; reading past the end is a panic. */
  method ReadTrusting(b: seq<byte>, length: nat) returns (r: Result<seq<word>, Error>)
    ensures r == if Touched(length) > |b| then Err(IndexPanic) else Ok(Words(b, (length + 1) / 2))
  {
    var words: seq<word> := [];
    var i := 0;
    while i < length
      invariant i % 2 == 0 && i <= Touched(length) && i <= |b|
      invariant words == Words(b, i / 2)
    {
      if i + 2 > |b| {
        return Err(IndexPanic);
      }
      words := words + [U16(b, i)];
      i := i + 2;
    }
    r := Ok(words);
  }

  method ReadBody(f: Found, kind: int, b: seq<byte>) returns (r: Result<Found, Error>)
    ensures r == Body(f, kind, b)
  {
    if kind == SNI {
      if |b| < 5 {
        return Err(LengthErr(13));
      }
      var name := b[5..];
      if |name| != U16(b, 3) {
        return Err(LengthErr(14));
      }
      if b[2] != 0 {
        return Err(SNITypeErr);
      }
      r := Ok(f.(serverName := name));
    } else if kind == GROUPS {
      if |b| < 2 {
        return Err(LengthErr(15));
      }
      var length := U16(b, 0);
      if |b[2..]| != length {
        return Err(LengthErr(16));
      }
      var groups := ReadCiphers(b, length / 2);
      r := Ok(f.(groups := groups));
    } else if kind == POINT_FORMATS {
      if |b| < 1 {
        return Err(LengthErr(17));
      }
      if |b[1..]| != b[0] {
        return Err(LengthErr(18));
      }
      r := Ok(f.(pointFormats := b[1..]));
    } else if kind == VERSIONS {
      if |b| < 1 {
        return Err(LengthErr(19));
      }
      var words := ReadTrusting(b[1..], b[0]);
      r := if words.Err? then Err(words.error) else Ok(f.(versions := f.versions + words.value));
    } else if kind == SIGNATURE_ALGORITHMS {
      if |b| < 2 {
        return Err(LengthErr(20));
      }
      var words := ReadTrusting(b[2..], U16(b, 0));
      r := if words.Err? then Err(words.error)
           else Ok(f.(signatureAlgorithms := f.signatureAlgorithms + words.value));
    } else {
      r := Ok(f);
    }
  }

  // ---------------------------------------------------------------------------------------------
  // The wire form of section 4.1.2 of RFC 8446.
  // ---------------------------------------------------------------------------------------------

  datatype Extension =
    | ServerName(name: seq<byte>)
    | SupportedGroups(words: seq<word>)
    | PointFormats(formats: seq<byte>)
    | SignatureAlgorithms(words: seq<word>)
    | SupportedVersions(words: seq<word>)
    | Other(kind: word, body: seq<byte>)

  datatype Wire = Wire(recordVersion: word, version: word, random: seq<byte>, sessionId: seq<byte>,
                       cipherSuites: seq<word>, compression: seq<byte>, extensions: Option<seq<Extension>>)

  function W(n: word): (r: seq<byte>)
  {
    [n / 256, n % 256]
  }

  function WordsBytes(ws: seq<word>): (r: seq<byte>)
    ensures |r| == 2 * |ws|
  {
    if ws == [] then [] else WordsBytes(ws[..|ws| - 1]) + W(ws[|ws| - 1])
  }

  function Kind(e: Extension): (r: word)
  {
    match e
    case ServerName(_) => 0
    case SupportedGroups(_) => 10
    case PointFormats(_) => 11
    case SignatureAlgorithms(_) => 13
    case SupportedVersions(_) => 43
    case Other(kind, _) => kind
  }

  predicate Fits(e: Extension)
  {
    match e
    case ServerName(name) => |name| < 0x1_0000 - 5
    case SupportedGroups(words) => 2 * |words| < 0x1_0000 - 2
    case PointFormats(formats) => |formats| < 256
    case SignatureAlgorithms(words) => 2 * |words| < 0x1_0000 - 2
    case SupportedVersions(words) => 2 * |words| < 256
    case Other(kind, body) =>
      && kind != SNI && kind != GROUPS && kind != POINT_FORMATS
      && kind != SIGNATURE_ALGORITHMS && kind != VERSIONS && |body| < 0x1_0000
  }

  function BodyBytes(e: Extension): (r: seq<byte>)
    requires Fits(e)
    ensures |r| < 0x1_0000
  {
    match e
    case ServerName(name) => W(3 + |name|) + [0] + W(|name|) + name
    case SupportedGroups(words) => W(2 * |words|) + WordsBytes(words)
    case PointFormats(formats) => [|formats|] + formats
    case SignatureAlgorithms(words) => W(2 * |words|) + WordsBytes(words)
    case SupportedVersions(words) => [2 * |words|] + WordsBytes(words)
    case Other(_, body) => body
  }

  function ExtensionBytes(e: Extension): (r: seq<byte>)
    requires Fits(e)
  {
    W(Kind(e)) + W(|BodyBytes(e)|) + BodyBytes(e)
  }

  ghost predicate AllFit(es: seq<Extension>)
  {
    forall e :: e in es ==> Fits(e)
  }

  function ListBytes(es: seq<Extension>): (r: seq<byte>)
    requires forall e :: e in es ==> Fits(e)
  {
    if es == [] then [] else ExtensionBytes(es[0]) + ListBytes(es[1..])
  }

  /** What a parser should know after one more extension. */
  function Absorb(f: Found, e: Extension): (r: Found)
  {
    var g := f.(extensions := f.extensions + [Kind(e)]);
    match e
    case ServerName(name) => g.(serverName := name)
    case SupportedGroups(words) => g.(groups := words)
    case PointFormats(formats) => g.(pointFormats := formats)
    case SignatureAlgorithms(words) => g.(signatureAlgorithms := g.signatureAlgorithms + words)
    case SupportedVersions(words) => g.(versions := g.versions + words)
    case Other(_, _) => g
  }

  function Summary(f: Found, es: seq<Extension>): (r: Found)
    decreases |es|
  {
    if es == [] then f else Summary(Absorb(f, es[0]), es[1..])
  }

  /** A two-byte length in front reads back, and the rest follows it. */
  lemma {:induction false} Prefix16(n: word, rest: seq<byte>)
    ensures |W(n) + rest| == 2 + |rest| && U16(W(n) + rest, 0) == n && (W(n) + rest)[2..] == rest
  {
  }

  lemma {:induction false} WordsExtend(a: seq<byte>, b: seq<byte>, n: nat)
    requires 2 * n <= |a|
    ensures Words(a + b, n) == Words(a, n)
  {
    if n > 0 {
      WordsExtend(a, b, n - 1);
    }
  }

  lemma {:induction false} WordsRoundTrip(ws: seq<word>, rest: seq<byte>)
    ensures Words(WordsBytes(ws) + rest, |ws|) == ws
    decreases |ws|
  {
    if ws != [] {
      var n := |ws| - 1;
      var front, last := WordsBytes(ws[..n]), W(ws[n]);
      WordsRoundTrip(ws[..n], last + rest);
      assert front + last + rest == front + (last + rest);
      var b := WordsBytes(ws) + rest;
      assert b[2 * n] == last[0] && b[2 * n + 1] == last[1];
      assert ws == ws[..n] + [ws[n]];
    }
  }

  /** A vector of words behind its two-byte length. */
  lemma {:induction false} VectorRoundTrip(ws: seq<word>)
    requires 2 * |ws| < 0x1_0000
    ensures
      var b := W(2 * |ws|) + WordsBytes(ws);
      |b| == 2 + 2 * |ws| && U16(b, 0) == 2 * |ws| && Words(b[2..], |ws|) == ws
  {
    Prefix16(2 * |ws|, WordsBytes(ws));
    WordsRoundTrip(ws, []);
    assert WordsBytes(ws) + [] == WordsBytes(ws);
  }

  lemma {:induction false} NameRoundTrip(name: seq<byte>)
    requires |name| < 0x1_0000 - 5
    ensures
      var b := W(3 + |name|) + [0] + W(|name|) + name;
      |b| == 5 + |name| && b[2] == 0 && U16(b, 3) == |name| && b[5..] == name
  {
  }

  lemma {:induction false} ShortVectorRoundTrip(ws: seq<word>)
    requires 2 * |ws| < 256
    ensures
      var b: seq<byte> := [2 * |ws|] + WordsBytes(ws);
      |b| == 1 + 2 * |ws| && b[0] == 2 * |ws| && Words(b[1..], |ws|) == ws
  {
    WordsRoundTrip(ws, []);
    assert WordsBytes(ws) + [] == WordsBytes(ws);
    var b: seq<byte> := [2 * |ws|] + WordsBytes(ws);
    assert b[1..] == WordsBytes(ws);
  }

  lemma {:induction false} BodyRoundTrip(f: Found, e: Extension)
    requires Fits(e)
    ensures Body(f.(extensions := f.extensions + [Kind(e)]), Kind(e), BodyBytes(e)) == Ok(Absorb(f, e))
  {
    hide U16, Words, WordsBytes, W;
    match e
    case ServerName(name) => NameRoundTrip(name);
    case SupportedGroups(words) => VectorRoundTrip(words);
    case PointFormats(formats) => assert BodyBytes(e)[1..] == formats;
    case SignatureAlgorithms(words) => VectorRoundTrip(words);
    case SupportedVersions(words) => ShortVectorRoundTrip(words);
    case Other(_, _) =>
  }

  /** Type, length, body and what follows, cut where the loop cuts them. */
  lemma {:induction false} ExtensionSplits(kind: word, b: seq<byte>, rest: seq<byte>)
    requires |b| < 0x1_0000
    ensures
      var exs := W(kind) + W(|b|) + b + rest;
      && |exs| == 4 + |b| + |rest| && U16(exs, 0) == kind && U16(exs, 2) == |b|
      && exs[4..4 + |b|] == b && exs[4 + |b|..] == rest
  {
  }

  lemma {:induction false} WalkStep(f: Found, kind: word, b: seq<byte>, rest: seq<byte>, f': Found)
    requires 4 + |b| + |rest| < 0x1_0000
    requires Body(f.(extensions := f.extensions + [kind]), kind, b) == Ok(f')
    ensures Walk(W(kind) + W(|b|) + b + rest, f) == Walk(rest, f')
  {
    ExtensionSplits(kind, b, rest);
    hide Body, W, U16;
    assert Advance(|b|) == 4 + |b|;
  }

  /** The extension loop reads back any well-formed list, in order. */
  lemma {:induction false} WalkRoundTrip(f: Found, es: seq<Extension>)
    requires AllFit(es) && |ListBytes(es)| < 0x1_0000
    ensures Walk(ListBytes(es), f) == Ok(Summary(f, es))
    decreases |es|
  {
    if es != [] {
      var e, rest := es[0], ListBytes(es[1..]);
      assert AllFit(es[1..]);
      BodyRoundTrip(f, e);
      hide Body, BodyBytes, Absorb, Fits, Kind, U16;
      WalkStep(f, Kind(e), BodyBytes(e), rest, Absorb(f, e));
      WalkRoundTrip(Absorb(f, e), es[1..]);
    }
  }

  /** The supported versions are SSL 3.0 to TLS 1.3. */
  lemma {:induction false} SupportedVersionsAre(v: int)
    ensures VersionSupported(v) <==> 0x0300 <= v <= 0x0304
  {
  }

  // ---------------------------------------------------------------------------------------------
  // Whole messages.
  // ---------------------------------------------------------------------------------------------

  function BlockBytes(extensions: Option<seq<Extension>>): (r: seq<byte>)
    requires extensions.Some? ==> AllFit(extensions.value) && |ListBytes(extensions.value)| < 0x1_0000
  {
    if extensions == None then [] else W(|ListBytes(extensions.value)|) + ListBytes(extensions.value)
  }

  /** Everything from the cipher suites on. */
  function TailBytes(ciphers: seq<byte>, compression: seq<byte>, block: seq<byte>): (r: seq<byte>)
    requires |ciphers| < 0x1_0000 && |compression| < 256
    ensures |r| == 3 + |ciphers| + |compression| + |block|
  {
    W(|ciphers|) + (ciphers + ([|compression|] + compression + block))
  }

  /** Everything in front of the cipher suites, in a message of `length` bytes after its header. */
  function FrontBytes(length: nat, version: word, random: seq<byte>, sessionId: seq<byte>): (r: seq<byte>)
    requires length < 0x1_0000 && |sessionId| < 256
  {
    [1, 0, length / 256, length % 256] + W(version) + random + [|sessionId|] + sessionId
  }

  ghost predicate WellFormed(w: Wire)
  {
    && VersionSupported(w.recordVersion) && VersionSupported(w.version)
    && |w.random| == 32 && |w.sessionId| < 256
    && 2 * |w.cipherSuites| < 0x1_0000 && |w.compression| < 256
    && (w.extensions.Some? ==> AllFit(w.extensions.value) && |ListBytes(w.extensions.value)| < 0x1_0000)
    && 39 + |w.sessionId| + |Tail(w)| < 0x1_0000
  }

  ghost function Tail(w: Wire): (r: seq<byte>)
    requires 2 * |w.cipherSuites| < 0x1_0000 && |w.compression| < 256
    requires w.extensions.Some? ==> AllFit(w.extensions.value) && |ListBytes(w.extensions.value)| < 0x1_0000
  {
    TailBytes(WordsBytes(w.cipherSuites), w.compression, BlockBytes(w.extensions))
  }

  ghost function HandshakeBytes(w: Wire): (r: seq<byte>)
    requires WellFormed(w)
    ensures |r| == 39 + |w.sessionId| + |Tail(w)|
  {
    FrontBytes(35 + |w.sessionId| + |Tail(w)|, w.version, w.random, w.sessionId) + Tail(w)
  }

  /** A record carrying the message, followed by whatever else was received. */
  ghost function RecordBytes(w: Wire, following: seq<byte>): (r: seq<byte>)
    requires WellFormed(w)
  {
    [22] + W(w.recordVersion) + W(|HandshakeBytes(w)|) + HandshakeBytes(w) + following
  }

  lemma {:induction false} BlockRoundTrip(extensions: Option<seq<Extension>>)
    requires extensions.Some? ==> AllFit(extensions.value) && |ListBytes(extensions.value)| < 0x1_0000
    requires |BlockBytes(extensions)| < 0x1_0000
    ensures Extensions(BlockBytes(extensions))
         == Ok(if extensions == None then None else Some(Summary(NOTHING, extensions.value)))
  {
    if extensions.Some? {
      var list := ListBytes(extensions.value);
      Prefix16(|list|, list);
      WalkRoundTrip(NOTHING, extensions.value);
      hide Walk, ListBytes, Summary, W, U16;
    }
  }

  lemma {:induction false} TailRoundTrip(version: word, cipherSuites: seq<word>, compression: seq<byte>,
                                         block: seq<byte>)
    requires 2 * |cipherSuites| < 0x1_0000 && |compression| < 256
    ensures ParseCiphers(version, TailBytes(WordsBytes(cipherSuites), compression, block))
         == Ok(Handshake(version, cipherSuites, block))
  {
    var after: seq<byte> := [|compression|] + compression + block;
    WordsRoundTrip(cipherSuites, after);
    TailSplits(WordsBytes(cipherSuites), compression, block);
    hide Words, WordsBytes, W, U16, TailBytes;
    assert 2 * |cipherSuites| / 2 == |cipherSuites|;
  }

  lemma {:induction false} TailSplits(ciphers: seq<byte>, compression: seq<byte>, block: seq<byte>)
    requires |ciphers| < 0x1_0000 && |compression| < 256
    ensures
      var n, cs := |ciphers|, TailBytes(ciphers, compression, block);
      && |cs| == 3 + n + |compression| + |block|
      && U16(cs, 0) == n
      && cs[2 + n] == |compression|
      && cs[3 + n + |compression|..] == block
      && cs[2..] == ciphers + ([|compression|] + compression + block)
  {
    var after: seq<byte> := [|compression|] + compression + block;
    var cs := TailBytes(ciphers, compression, block);
    Prefix16(|ciphers|, ciphers + after);
    assert cs[2..][|ciphers|] == after[0];
    assert cs[2..][|ciphers|..] == after;
    assert after[1 + |compression|..] == block;
    assert cs[3 + |ciphers| + |compression|..] == cs[2..][|ciphers|..][1 + |compression|..];
  }

  lemma {:induction false} FrontSplits(length: nat, version: word, random: seq<byte>, sessionId: seq<byte>,
                                       tail: seq<byte>)
    requires length < 0x1_0000 && |sessionId| < 256 && |random| == 32
    ensures
      var hs := FrontBytes(length, version, random, sessionId) + tail;
      && |hs| == 39 + |sessionId| + |tail|
      && hs[0] == 1 && hs[1] == 0 && hs[2] == length / 256 && hs[3] == length % 256
      && U16(hs, 4) == version && hs[38] == |sessionId| && hs[39 + |sessionId|..] == tail
  {
  }

  /** A front is passed as far as the cipher suites. */
  lemma {:induction false} FrontRoundTrip(version: word, random: seq<byte>, sessionId: seq<byte>, tail: seq<byte>)
    requires VersionSupported(version) && |random| == 32 && |sessionId| < 256 && 35 + |sessionId| + |tail| < 0x1_0000
    ensures ParseHandshake(FrontBytes(35 + |sessionId| + |tail|, version, random, sessionId) + tail)
         == ParseCiphers(version, tail)
  {
    var length := 35 + |sessionId| + |tail|;
    FrontSplits(length, version, random, sessionId, tail);
    hide FrontBytes, ParseCiphers, U16, VersionSupported;
    assert length / 256 * 256 + length % 256 == length;
  }

  lemma {:induction false} HandshakeRoundTrip(w: Wire)
    requires WellFormed(w)
    ensures ParseHandshake(HandshakeBytes(w)) == Ok(Handshake(w.version, w.cipherSuites, BlockBytes(w.extensions)))
  {
    hide FrontBytes, TailBytes, BlockBytes, ListBytes, ParseCiphers, ParseHandshake, VersionSupported, Fits;
    FrontRoundTrip(w.version, w.random, w.sessionId, Tail(w));
    TailRoundTrip(w.version, w.cipherSuites, w.compression, BlockBytes(w.extensions));
  }

  lemma {:induction false} RecordSplits(version: word, hs: seq<byte>, following: seq<byte>)
    requires |hs| < 0x1_0000
    ensures
      var segment := [22] + W(version) + W(|hs|) + hs + following;
      && |segment| == 5 + |hs| + |following| && segment[0] == 22
      && U16(segment, 1) == version && U16(segment, 3) == |hs| && segment[5..5 + |hs|] == hs
  {
  }

  /**
   Parsing the wire form of any well-formed ClientHello, whatever follows it, gives back its version,
   its cipher suites and the summary of its extensions in order.
   */
  lemma {:induction false} ParseRoundTrip(w: Wire, following: seq<byte>)
    requires WellFormed(w)
    ensures Parse(RecordBytes(w, following))
         == Ok(Hello(w.version, w.cipherSuites,
                     if w.extensions == None then None else Some(Summary(NOTHING, w.extensions.value))))
  {
    HandshakeRoundTrip(w);
    RecordSplits(w.recordVersion, HandshakeBytes(w), following);
    assert |BlockBytes(w.extensions)| < 0x1_0000;
    BlockRoundTrip(w.extensions);
    hide HandshakeBytes, BlockBytes, ParseHandshake, Extensions, Summary, W, U16;
  }

  function Kinds(es: seq<Extension>): (r: seq<word>)
  {
    seq(|es|, i requires 0 <= i < |es| => Kind(es[i]))
  }

  /** No extension type occurs twice, as section 4.2 of RFC 8446 demands. */
  ghost predicate OneEach(es: seq<Extension>)
  {
    forall i, j :: 0 <= i < j < |es| ==> Kind(es[i]) != Kind(es[j])
  }

  ghost predicate KnownFrom(e: Extension, f: Found)
  {
    match e
    case ServerName(name) => f.serverName == name
    case SupportedGroups(words) => f.groups == words
    case PointFormats(formats) => f.pointFormats == formats
    case SignatureAlgorithms(words) => f.signatureAlgorithms == words
    case SupportedVersions(words) => f.versions == words
    case Other(_, _) => true
  }

  /** Fields whose extension has not been met are still empty. */
  ghost predicate Fresh(f: Found, es: seq<Extension>)
  {
    && (forall e :: e in es && e.SignatureAlgorithms? ==> f.signatureAlgorithms == [])
    && (forall e :: e in es && e.SupportedVersions? ==> f.versions == [])
  }

  lemma {:induction false} SummaryKeeps(f: Found, es: seq<Extension>, e: Extension)
    requires KnownFrom(e, f) && forall i :: 0 <= i < |es| ==> Kind(es[i]) != Kind(e)
    requires Fits(e) && forall d :: d in es ==> Fits(d)
    ensures KnownFrom(e, Summary(f, es))
    decreases |es|
  {
    if es != [] {
      assert Fits(es[0]) && Kind(es[0]) != Kind(e);
      SummaryKeeps(Absorb(f, es[0]), es[1..], e);
    }
  }

  lemma {:induction false} SummaryOrder(f: Found, es: seq<Extension>)
    ensures Summary(f, es).extensions == f.extensions + Kinds(es)
    decreases |es|
  {
    if es == [] {
      assert f.extensions + [] == f.extensions;
    } else {
      SummaryOrder(Absorb(f, es[0]), es[1..]);
      assert Kinds(es) == [Kind(es[0])] + Kinds(es[1..]);
      assert f.extensions + [Kind(es[0])] + Kinds(es[1..]) == f.extensions + Kinds(es);
    }
  }

  /** With at most one extension of each type, the summary is exactly what was sent. */
  lemma {:induction false} SummaryIsFaithful(f: Found, es: seq<Extension>)
    requires OneEach(es) && (forall e :: e in es ==> Fits(e)) && Fresh(f, es)
    ensures Summary(f, es).extensions == f.extensions + Kinds(es)
    ensures forall e :: e in es ==> KnownFrom(e, Summary(f, es))
    decreases |es|
  {
    SummaryOrder(f, es);
    if es != [] {
      var g := Absorb(f, es[0]);
      assert forall i :: 1 <= i < |es| ==> Kind(es[0]) != Kind(es[i]);
      assert forall e :: e in es[1..] ==> Kind(e) != Kind(es[0]);
      SummaryIsFaithful(g, es[1..]);
      SummaryKeeps(g, es[1..], es[0]);
      assert es == [es[0]] + es[1..];
    }
  }

  /** Fields whose extension is absent stay as they are. */
  lemma {:induction false} SummaryUntouched(f: Found, es: seq<Extension>)
    ensures var s := Summary(f, es);
      && ((forall e :: e in es ==> !e.ServerName?) ==> s.serverName == f.serverName)
      && ((forall e :: e in es ==> !e.SupportedGroups?) ==> s.groups == f.groups)
      && ((forall e :: e in es ==> !e.PointFormats?) ==> s.pointFormats == f.pointFormats)
      && ((forall e :: e in es ==> !e.SignatureAlgorithms?) ==> s.signatureAlgorithms == f.signatureAlgorithms)
      && ((forall e :: e in es ==> !e.SupportedVersions?) ==> s.versions == f.versions)
    decreases |es|
  {
    if es != [] {
      var g := Absorb(f, es[0]);
      SummaryUntouched(g, es[1..]);
      assert Summary(f, es) == Summary(g, es[1..]);
      hide Summary;
      assert es[0] in es;
      assert forall e :: e in es[1..] ==> e in es;
    }
  }

  /** Every field is what the extensions carry, and empty where no extension carries it. */
  ghost predicate Reports(f: Found, es: seq<Extension>)
  {
    && f.extensions == Kinds(es)
    && (forall e :: e in es ==> KnownFrom(e, f))
    && ((forall e :: e in es ==> !e.ServerName?) ==> f.serverName == [])
    && ((forall e :: e in es ==> !e.SupportedGroups?) ==> f.groups == [])
    && ((forall e :: e in es ==> !e.PointFormats?) ==> f.pointFormats == [])
    && ((forall e :: e in es ==> !e.SignatureAlgorithms?) ==> f.signatureAlgorithms == [])
    && ((forall e :: e in es ==> !e.SupportedVersions?) ==> f.versions == [])
  }

  /**
   Parsing the wire form of any well-formed ClientHello with at most one extension of each type,
   whatever follows it, gives back its version, its cipher suites, the order of its extensions and
   in every field exactly what was sent.
   */
  lemma {:induction false} ParseIsFaithful(w: Wire, following: seq<byte>) returns (f: Option<Found>)
    requires WellFormed(w) && (w.extensions.Some? ==> OneEach(w.extensions.value))
    ensures Parse(RecordBytes(w, following)) == Ok(Hello(w.version, w.cipherSuites, f))
    ensures f.Some? <==> w.extensions.Some?
    ensures f.Some? ==> Reports(f.value, w.extensions.value)
  {
    ParseRoundTrip(w, following);
    f := None;
    if w.extensions.Some? {
      var es := w.extensions.value;
      AllFitEach(es);
      SummaryIsFaithful(NOTHING, es);
      SummaryUntouched(NOTHING, es);
      f := Some(Summary(NOTHING, es));
    }
  }

  lemma {:induction false} AllFitEach(es: seq<Extension>)
    requires AllFit(es)
    ensures forall e :: e in es ==> Fits(e)
  {
  }

  // ---------------------------------------------------------------------------------------------
  // Arbitrary input.
  // ---------------------------------------------------------------------------------------------

  /** `b` is an extension body of this type around `v`: its lengths are those of what they announce. */
  ghost predicate Encloses(kind: word, b: seq<byte>, v: seq<byte>)
    requires |v| < 0x1_0000
  {
    if kind == 0 then exists list: word :: b == W(list) + [0] + W(|v|) + v
    else if kind == 10 then b == W(|v|) + v
    else if kind == 11 then |v| < 256 && b == [|v|] + v
    else if kind == 13 then exists n: word :: n + n % 2 <= |v| && b == W(n) + v
    else if kind == 43 then exists n: byte :: n + n % 2 <= |v| && b == [n] + v
    else b == v
  }

  ghost predicate IsBody(kind: word, b: seq<byte>)
  {
    |b| < 0x1_0000 && exists v: seq<byte> | |v| < 0x1_0000 :: Encloses(kind, b, v)
  }

  lemma {:induction false} Word16(b: seq<byte>, i: nat)
    requires i + 2 <= |b|
    ensures W(U16(b, i)) == b[i..i + 2]
  {
  }

  /** A body is accepted if and only if it is of the form its type asks for. */
  lemma {:induction false} BodyAcceptsExactly(f: Found, kind: word, b: seq<byte>)
    requires |b| < 0x1_0000
    ensures Body(f, kind, b).Ok? <==> IsBody(kind, b)
  {
    if Body(f, kind, b).Ok? {
      var v := AcceptedBody(f, kind, b);
    }
    if v: seq<byte> :| |v| < 0x1_0000 && Encloses(kind, b, v) {
      EnclosedBody(f, kind, b, v);
    }
  }

  lemma {:induction false} AcceptedBody(f: Found, kind: word, b: seq<byte>) returns (v: seq<byte>)
    requires |b| < 0x1_0000 && Body(f, kind, b).Ok?
    ensures |v| < 0x1_0000 && Encloses(kind, b, v)
  {
    hide Words, W, U16;
    if kind == 0 {
      v := b[5..];
      Word16(b, 0);
      Word16(b, 3);
      assert b == b[0..2] + [b[2]] + b[3..5] + b[5..];
    } else if kind == 10 || kind == 13 {
      v := b[2..];
      Word16(b, 0);
      assert b == b[0..2] + b[2..];
    } else if kind == 11 || kind == 43 {
      v := b[1..];
      assert b == [b[0]] + b[1..];
    } else {
      v := b;
    }
  }

  lemma {:induction false} EnclosedBody(f: Found, kind: word, b: seq<byte>, v: seq<byte>)
    requires |b| < 0x1_0000 && |v| < 0x1_0000 && Encloses(kind, b, v)
    ensures Body(f, kind, b).Ok?
  {
    if kind == 0 {
      var list: word :| b == W(list) + [0] + W(|v|) + v;
    } else if kind == 13 {
      var n: word :| n + n % 2 <= |v| && b == W(n) + v;
    } else if kind == 43 {
      var n: byte :| n + n % 2 <= |v| && b == [n] + v;
    }
  }

  /** An extension as it travels: its type and its body. */
  datatype Part = Part(kind: word, body: seq<byte>)

  ghost predicate AreBodies(parts: seq<Part>)
  {
    forall p :: p in parts ==> IsBody(p.kind, p.body)
  }

  ghost function PartsBytes(parts: seq<Part>): (r: seq<byte>)
    requires AreBodies(parts)
  {
    if parts == [] then []
    else W(parts[0].kind) + W(|parts[0].body|) + parts[0].body + PartsBytes(parts[1..])
  }

  /** The block is a list of extensions, one right behind the other, with nothing between or after them. */
  ghost predicate IsList(exs: seq<byte>)
  {
    exists parts :: AreBodies(parts) && exs == PartsBytes(parts)
  }

  /** The extension loop accepts exactly such blocks. */
  lemma {:induction false} WalkAcceptsExactly(exs: seq<byte>, f: Found)
    requires |exs| < 0x1_0000
    ensures Walk(exs, f).Ok? <==> IsList(exs)
  {
    if Walk(exs, f).Ok? {
      var parts := AcceptedList(exs, f);
    }
    if parts :| AreBodies(parts) && exs == PartsBytes(parts) {
      ListAccepted(parts, f);
    }
  }

  lemma {:induction false} AcceptedList(exs: seq<byte>, f: Found) returns (parts: seq<Part>)
    requires |exs| < 0x1_0000 && Walk(exs, f).Ok?
    ensures AreBodies(parts) && exs == PartsBytes(parts)
    decreases |exs|
  {
    parts := [];
    if exs != [] {
      var kind, length := U16(exs, 0), U16(exs, 2);
      var b, rest := exs[4..4 + length], exs[4 + length..];
      var g := f.(extensions := f.extensions + [kind]);
      AdvanceNeverWraps(length, |exs|);
      BodyAcceptsExactly(g, kind, b);
      HeadIs(exs, length);
      hide *;
      var more := AcceptedList(rest, Body(g, kind, b).value);
      PartsGrow(Part(kind, b), more);
      parts := [Part(kind, b)] + more;
    }
  }

  lemma {:induction false} HeadIs(exs: seq<byte>, length: nat)
    requires 4 + length <= |exs| && U16(exs, 2) == length
    ensures exs == W(U16(exs, 0)) + W(length) + exs[4..4 + length] + exs[4 + length..]
  {
    Word16(exs, 0);
    Word16(exs, 2);
    hide W, U16;
    assert exs == exs[0..2] + exs[2..4] + exs[4..4 + length] + exs[4 + length..];
  }

  lemma {:induction false} PartsGrow(p: Part, more: seq<Part>)
    requires IsBody(p.kind, p.body) && AreBodies(more)
    ensures AreBodies([p] + more)
    ensures PartsBytes([p] + more) == W(p.kind) + W(|p.body|) + p.body + PartsBytes(more)
  {
    hide W, IsBody;
    assert ([p] + more)[1..] == more;
  }

  lemma {:induction false} ListAccepted(parts: seq<Part>, f: Found)
    requires AreBodies(parts) && |PartsBytes(parts)| < 0x1_0000
    ensures Walk(PartsBytes(parts), f).Ok?
    decreases |parts|
  {
    if parts != [] {
      var Part(kind, b) := parts[0];
      var rest := parts[1..];
      var g := f.(extensions := f.extensions + [kind]);
      assert parts[0] in parts && AreBodies(rest);
      hide Body, W, U16, Walk;
      BodyAcceptsExactly(g, kind, b);
      WalkStep(f, kind, b, PartsBytes(rest), Body(g, kind, b).value);
      ListAccepted(rest, Body(g, kind, b).value);
    } else {
      assert PartsBytes(parts) == [];
    }
  }

  /** What surrounds the extension block: a record and the handshake message in it. */
  datatype Frame = Frame(recordVersion: word, version: word, random: seq<byte>, sessionId: seq<byte>,
                         ciphers: seq<byte>, compression: seq<byte>, block: seq<byte>, following: seq<byte>)

  ghost predicate FrameFits(r: Frame)
  {
    && 0x0300 <= r.recordVersion <= 0x0304 && 0x0300 <= r.version <= 0x0304
    && |r.random| == 32 && |r.sessionId| < 256 && |r.ciphers| < 0x1_0000 && |r.compression| < 256
    && 42 + |r.sessionId| + |r.ciphers| + |r.compression| + |r.block| < 0x1_0000
  }

  ghost function MessageBytes(r: Frame): (hs: seq<byte>)
    requires FrameFits(r)
    ensures |hs| == 42 + |r.sessionId| + |r.ciphers| + |r.compression| + |r.block|
  {
    var tail := TailBytes(r.ciphers, r.compression, r.block);
    FrontBytes(35 + |r.sessionId| + |tail|, r.version, r.random, r.sessionId) + tail
  }

  ghost function FrameBytes(r: Frame): (segment: seq<byte>)
    requires FrameFits(r)
  {
    [22] + W(r.recordVersion) + W(|MessageBytes(r)|) + MessageBytes(r) + r.following
  }

  /** The block is missing, or it is a list of extensions behind a length that does not exceed it. */
  ghost predicate IsBlock(block: seq<byte>)
  {
    block == [] || exists n: word, exs: seq<byte> :: n <= |exs| && block == W(n) + exs && IsList(exs)
  }

  ghost predicate IsHello(segment: seq<byte>)
  {
    exists r: Frame :: FrameFits(r) && segment == FrameBytes(r) && IsBlock(r.block)
  }

  lemma {:induction false} BlockAcceptsExactly(block: seq<byte>)
    requires |block| < 0x1_0000
    ensures Extensions(block).Ok? <==> IsBlock(block)
  {
    hide Walk, IsList;
    if block != [] && Extensions(block).Ok? {
      Word16(block, 0);
      assert block == block[0..2] + block[2..];
      WalkAcceptsExactly(block[2..], NOTHING);
    }
    if n: word, exs: seq<byte> :| n <= |exs| && block == W(n) + exs && IsList(exs) {
      Prefix16(n, exs);
      WalkAcceptsExactly(exs, NOTHING);
    }
  }

  lemma {:induction false} FrameAccepted(r: Frame)
    requires FrameFits(r)
    ensures ParseRecord(FrameBytes(r)) == Ok(MessageBytes(r))
    ensures ParseHandshake(MessageBytes(r)).Ok? && ParseHandshake(MessageBytes(r)).value.rest == r.block
  {
    SupportedVersionsAre(r.recordVersion);
    SupportedVersionsAre(r.version);
    FrontRoundTrip(r.version, r.random, r.sessionId, TailBytes(r.ciphers, r.compression, r.block));
    TailSplits(r.ciphers, r.compression, r.block);
    RecordSplits(r.recordVersion, MessageBytes(r), r.following);
    hide FrontBytes, TailBytes, ParseHandshake, U16, W, VersionSupported, Words;
  }

  lemma {:induction false} CiphersAre(version: word, cs: seq<byte>) returns (ciphers: seq<byte>, compression: seq<byte>)
    requires ParseCiphers(version, cs).Ok?
    ensures |ciphers| < 0x1_0000 && |compression| < 256
    ensures cs == TailBytes(ciphers, compression, ParseCiphers(version, cs).value.rest)
  {
    var n := U16(cs, 0);
    var m: nat := cs[2 + n];
    Word16(cs, 0);
    hide U16, W, Words;
    ciphers, compression := cs[2..2 + n], cs[3 + n..3 + n + m];
    assert cs == cs[0..2] + (ciphers + ([cs[2 + n]] + compression + cs[3 + n + m..]));
  }

  lemma {:induction false} MessageIs(hs: seq<byte>) returns (r: Frame)
    requires |hs| < 0x1_0000 && ParseHandshake(hs).Ok?
    ensures FrameFits(r) && hs == MessageBytes(r) && r.block == ParseHandshake(hs).value.rest
    ensures r.recordVersion == 0x0301 && r.following == []
  {
    var version, n := U16(hs, 4), hs[38] as int;
    var tail := hs[39 + n..];
    SupportedVersionsAre(version);
    var ciphers, compression := CiphersAre(version, tail);
    var block := ParseHandshake(hs).value.rest;
    r := Frame(0x0301, version, hs[6..38], hs[39..39 + n], ciphers, compression, block, []);
    FrontIs(hs, n);
    hide FrontBytes, U16, W, TailBytes, ParseCiphers, VersionSupported;
  }

  lemma {:induction false} LengthBytes(a: byte, b: byte, c: byte, length: nat)
    requires length < 0x1_0000 && length == a as int * 0x1_0000 + b as int * 0x100 + c
    ensures a == 0 && b == length / 256 && c == length % 256
  {
  }

  lemma {:induction false} FrontIs(hs: seq<byte>, n: nat)
    requires 39 + n <= |hs| < 0x1_0000 && n < 256 && hs[0] == 1 && hs[38] == n
    requires |hs| - 4 == hs[1] as int * 0x1_0000 + hs[2] as int * 0x100 + hs[3]
    ensures hs == FrontBytes(|hs| - 4, U16(hs, 4), hs[6..38], hs[39..39 + n]) + hs[39 + n..]
  {
    Word16(hs, 4);
    LengthBytes(hs[1], hs[2], hs[3], |hs| - 4);
    hide U16, W;
    assert hs == [hs[0], hs[1], hs[2], hs[3]] + hs[4..6] + hs[6..38] + [hs[38]] + hs[39..39 + n] + hs[39 + n..];
  }

  /**
   The parser accepts exactly the segments that are a handshake record with a ClientHello in it, whose
   lengths are those of what they announce (the outer one of a server name is not read, that of the block may fall
   short), followed by anything.
   */
  lemma {:induction false} ParseAcceptsExactly(segment: seq<byte>)
    ensures Parse(segment).Ok? <==> IsHello(segment)
  {
    if Parse(segment).Ok? {
      AcceptedHello(segment);
    }
    if r: Frame :| FrameFits(r) && segment == FrameBytes(r) && IsBlock(r.block) {
      FrameAccepted(r);
      BlockAcceptsExactly(r.block);
      hide FrameBytes, MessageBytes, ParseRecord, ParseHandshake, Extensions, IsBlock;
    }
  }

  lemma {:induction false} AcceptedHello(segment: seq<byte>)
    requires Parse(segment).Ok?
    ensures IsHello(segment)
  {
    var hs := ParseRecord(segment).value;
    var m := MessageIs(hs);
    BlockAcceptsExactly(m.block);
    var version := U16(segment, 1);
    SupportedVersionsAre(version);
    RecordIs(segment, |hs|);
    hide U16, W, ParseRecord, ParseHandshake, Extensions, VersionSupported, IsBlock, TailBytes, FrontBytes;
    var r := m.(recordVersion := version, following := segment[5 + |hs|..]);
    assert FrameFits(r) && MessageBytes(r) == hs;
    assert segment == FrameBytes(r);
  }

  lemma {:induction false} RecordIs(segment: seq<byte>, n: nat)
    requires 5 + n <= |segment| && segment[0] == 22 && U16(segment, 3) == n
    ensures segment == [22] + W(U16(segment, 1)) + W(n) + segment[5..5 + n] + segment[5 + n..]
  {
    Word16(segment, 1);
    Word16(segment, 3);
    hide U16, W;
    assert segment == [segment[0]] + segment[1..3] + segment[3..5] + segment[5..5 + n] + segment[5 + n..];
  }

  /** A versions or signature-algorithms extension whose inner length points past its body. */
  predicate Overruns(kind: int, b: seq<byte>)
  {
    || (kind == VERSIONS && |b| >= 1 && Touched(b[0]) > |b| - 1)
    || (kind == SIGNATURE_ALGORITHMS && |b| >= 2 && Touched(U16(b, 0)) > |b| - 2)
  }

  /** The loop comes upon an overrunning extension before anything else stops it. */
  predicate MeetsOverrun(exs: seq<byte>)
    requires |exs| < 0x1_0000
    decreases |exs|
  {
    |exs| >= 4 &&
    var kind, length := U16(exs, 0), U16(exs, 2);
    |exs| >= 4 + length &&
    var b := exs[4..4 + length];
    Overruns(kind, b) || (Body(NOTHING, kind, b).Ok? && MeetsOverrun(exs[4 + length..]))
  }

  /** The loop panics on exactly those inputs, whatever it collected before. */
  lemma {:induction false} WalkPanicsExactly(exs: seq<byte>, f: Found)
    requires |exs| < 0x1_0000
    ensures Walk(exs, f) == Err(IndexPanic) <==> MeetsOverrun(exs)
    decreases |exs|
  {
    if |exs| >= 4 {
      var kind, length := U16(exs, 0), U16(exs, 2);
      if |exs| >= 4 + length {
        var g := f.(extensions := f.extensions + [kind]);
        var after := Body(g, kind, exs[4..4 + length]);
        if after.Ok? {
          AdvanceNeverWraps(length, |exs|);
          WalkPanicsExactly(exs[4 + length..], after.value);
        }
      }
    }
  }

  /** A segment whose record and handshake are accepted and whose extension block meets an overrun. */
  predicate SegmentOverruns(segment: seq<byte>)
  {
    var record := ParseRecord(segment);
    record.Ok? &&
    var handshake := ParseHandshake(record.value);
    handshake.Ok? &&
    var block := handshake.value.rest;
    |block| >= 2 && |block| - 2 >= U16(block, 0) && MeetsOverrun(block[2..])
  }

  /** The parser panics on exactly those segments. */
  lemma {:induction false} ParsePanicsExactly(segment: seq<byte>)
    ensures Parse(segment) == Err(IndexPanic) <==> SegmentOverruns(segment)
  {
    hide Walk, MeetsOverrun, Words;
    if ParseRecord(segment).Ok? && ParseHandshake(ParseRecord(segment).value).Ok? {
      var block := ParseHandshake(ParseRecord(segment).value).value.rest;
      if |block| >= 2 {
        WalkPanicsExactly(block[2..], NOTHING);
      }
    }
  }

  /** A segment whose handshake is accepted can carry any extension block. */
  lemma {:induction false} SegmentAround(block: seq<byte>) returns (segment: seq<byte>)
    requires |block| < 0x1000
    ensures ParseRecord(segment).Ok?
    ensures ParseHandshake(ParseRecord(segment).value) == Ok(Handshake(0x0303, [], block))
  {
    var tail, random := TailBytes([], [], block), seq(32, _ => 0);
    TailRoundTrip(0x0303, [], [], block);
    TailSplits([], [], block);
    assert WordsBytes([]) == [];
    hide TailBytes, ParseCiphers, U16, W, Words;
    var length := 35 + |tail|;
    FrontSplits(length, 0x0303, random, [], tail);
    var hs := FrontBytes(length, 0x0303, random, []) + tail;
    hide FrontBytes;
    assert length / 256 * 256 + length % 256 == length;
    assert ParseHandshake(hs) == Ok(Handshake(0x0303, [], block));
    hide ParseHandshake;
    segment := [22] + W(0x0303) + W(|hs|) + hs + [];
    RecordSplits(0x0303, hs, []);
  }

  /** One such segment: a versions extension of one byte that announces two more. */
  lemma {:induction false} OverrunExample() returns (segment: seq<byte>)
    ensures Parse(segment) == Err(IndexPanic)
  {
    var exs: seq<byte> := [0, 43, 0, 1, 2];
    assert U16(exs, 0) == VERSIONS && U16(exs, 2) == 1 && exs[4..5] == [2];
    assert MeetsOverrun(exs);
    hide MeetsOverrun;
    Prefix16(5, exs);
    segment := SegmentAround(W(5) + exs);
    hide ParseRecord, ParseHandshake;
    assert SegmentOverruns(segment);
    ParsePanicsExactly(segment);
  }

  lemma {:induction false} AdvanceNeverWraps(length: int, size: nat)
    requires 0 <= length && 4 + length <= size < 0x1_0000
    ensures Advance(length) == 4 + length
  {
  }
}
