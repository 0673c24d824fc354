/**
 The geosite database format (common/geosite): a writer that lays out a version byte, a table of
 (code, offset, item count) and a content area, and a seeking reader that must undo it.
 */
module Geosite {
  import opened Common

  const TWO_63 := 0x8000_0000_0000_0000
  const TWO_64 := 0x1_0000_0000_0000_0000

  datatype Item = Item(kind: byte, value: seq<byte>)

  type Domains = map<seq<byte>, seq<Item>>

  datatype Error =
    | UnexpectedEof
    | UvarintOverflow
    | UnknownVersion
    | CodeNotExists
    | InvalidSeek
    | AllocationPanic

  datatype Parsed<+T> = Got(value: T, next: nat) | Bad(error: Error)

  datatype TableEntry = TableEntry(code: seq<byte>, index: nat, length: nat)

  // ---------------------------------------------------------------------------------------------
  // Wire grammar: what the reader accepts at a position of a file, as pure functions.
  // ---------------------------------------------------------------------------------------------

  /** The value of the unsigned varint at `pos`, as encoding/binary reads it: at most ten bytes. */
  function ParseUvarint(file: seq<byte>, pos: nat, i: nat): (r: Parsed<nat>)
    ensures r.Got? ==> pos < r.next <= |file|
    decreases 10 - i
  {
    if i >= 10 then Bad(UvarintOverflow)
    else if pos >= |file| then Bad(UnexpectedEof)
    else if file[pos] < 128 then
      if i == 9 && file[pos] > 1 then Bad(UvarintOverflow) else Got(file[pos], pos + 1)
    else
      match ParseUvarint(file, pos + 1, i + 1)
      case Got(v, next) => Got(file[pos] - 128 + 128 * v, next)
      case Bad(e) => Bad(e)
  }

  function ParseString(file: seq<byte>, pos: nat): (r: Parsed<seq<byte>>)
  {
    match ParseUvarint(file, pos, 0)
    case Bad(e) => Bad(e)
    case Got(length, start) =>
      if length >= TWO_63 then Bad(AllocationPanic)
      else if start + length > |file| then Bad(UnexpectedEof)
      else Got(file[start..start + length], start + length)
  }

  function ParseItem(file: seq<byte>, pos: nat): (r: Parsed<Item>)
  {
    if pos >= |file| then Bad(UnexpectedEof)
    else match ParseString(file, pos + 1)
      case Bad(e) => Bad(e)
      case Got(value, next) => Got(Item(file[pos], value), next)
  }

  function ItemParser(file: seq<byte>): (r: nat -> Parsed<Item>)
  {
    (pos: nat) => ParseItem(file, pos)
  }

  function ParseEntry(file: seq<byte>, pos: nat): (r: Parsed<TableEntry>)
  {
    match ParseString(file, pos)
    case Bad(e) => Bad(e)
    case Got(code, p1) =>
      match ParseUvarint(file, p1, 0)
      case Bad(e) => Bad(e)
      case Got(index, p2) =>
        match ParseUvarint(file, p2, 0)
        case Bad(e) => Bad(e)
        case Got(length, p3) => Got(TableEntry(code, index, length), p3)
  }

  function EntryParser(file: seq<byte>): (r: nat -> Parsed<TableEntry>)
  {
    (pos: nat) => ParseEntry(file, pos)
  }

  /** `count` consecutive elements, the first at `pos`. */
  function Many<T>(parse: nat -> Parsed<T>, pos: nat, count: nat): (r: Parsed<seq<T>>)
  {
    if count == 0 then Got([], pos)
    else match Many(parse, pos, count - 1)
      case Bad(e) => Bad(e)
      case Got(front, next) =>
        match parse(next)
        case Bad(e) => Bad(e)
        case Got(last, end) => Got(front + [last], end)
  }

  function ParseMetadata(file: seq<byte>): (r: Parsed<seq<TableEntry>>)
  {
    if |file| == 0 then Bad(UnexpectedEof)
    else if file[0] != 0 then Bad(UnknownVersion)
    else match ParseUvarint(file, 1, 0)
      case Bad(e) => Bad(e)
      case Got(count, pos) =>
        if count >= TWO_63 then Bad(AllocationPanic) else Many(EntryParser(file), pos, count)
  }

  /** The conversion int(uint64) of the original: two's complement reinterpretation. */
  function ToInt64(v: int): (r: int)
  {
    var m := v % TWO_64;
    if m < TWO_63 then m else m - TWO_64
  }

  function IndexMap(table: seq<TableEntry>): (r: map<seq<byte>, int>)
  {
    if table == [] then map[]
    else IndexMap(table[..|table| - 1])[table[|table| - 1].code := ToInt64(table[|table| - 1].index)]
  }

  function LengthMap(table: seq<TableEntry>): (r: map<seq<byte>, int>)
  {
    if table == [] then map[]
    else LengthMap(table[..|table| - 1])[table[|table| - 1].code := ToInt64(table[|table| - 1].length)]
  }

  /** What Read answers for `code`: a function of the file and the three metadata fields alone. */
  function LookUp(file: seq<byte>, metadataIndex: nat, index: map<seq<byte>, int>,
                  length: map<seq<byte>, int>, code: seq<byte>): (r: Result<seq<Item>, Error>)
  {
    if code !in index then Err(CodeNotExists)
    else
      var offset := ToInt64(metadataIndex + index[code]);
      var count := if code in length then length[code] else 0;
      if offset < 0 then Err(InvalidSeek)
      else if count < 0 then Err(AllocationPanic)
      else match Many(ItemParser(file), offset, count)
        case Bad(e) => Err(e)
        case Got(items, _) => Ok(items)
  }

  // ---------------------------------------------------------------------------------------------
  // Layout: the bytes the writer produces.
  // ---------------------------------------------------------------------------------------------

  function UvarintBytes(n: nat): (r: seq<byte>)
  {
    if n < 128 then [n] else [n % 128 + 128] + UvarintBytes(n / 128)
  }

  function StringBytes(s: seq<byte>): (r: seq<byte>)
  {
    UvarintBytes(|s|) + s
  }

  function ItemBytes(item: Item): (r: seq<byte>)
  {
    [item.kind] + StringBytes(item.value)
  }

  /** The encodings of the elements of `xs`, one after the other. */
  function Concat<T>(encode: T -> seq<byte>, xs: seq<T>): (r: seq<byte>)
  {
    if xs == [] then [] else Concat(encode, xs[..|xs| - 1]) + encode(xs[|xs| - 1])
  }

  function ContentBytes(keys: seq<seq<byte>>, domains: Domains): (r: seq<byte>)
    requires forall k :: k in keys ==> k in domains
  {
    if keys == [] then []
    else ContentBytes(keys[..|keys| - 1], domains) + Concat(ItemBytes, domains[keys[|keys| - 1]])
  }

  function Offset(keys: seq<seq<byte>>, domains: Domains, i: nat): (r: nat)
    requires forall k :: k in keys ==> k in domains
    requires i <= |keys|
  {
    |ContentBytes(keys[..i], domains)|
  }

  function EntryBytes(entry: TableEntry): (r: seq<byte>)
  {
    StringBytes(entry.code) + UvarintBytes(entry.index) + UvarintBytes(entry.length)
  }

  function Table(keys: seq<seq<byte>>, domains: Domains): (r: seq<TableEntry>)
    requires forall k :: k in keys ==> k in domains
  {
    seq(|keys|, i requires 0 <= i < |keys| =>
      TableEntry(keys[i], Offset(keys, domains, i), |domains[keys[i]]|))
  }

  function FileBytes(keys: seq<seq<byte>>, domains: Domains): (r: seq<byte>)
    requires forall k :: k in keys ==> k in domains
  {
    [0] + UvarintBytes(|keys|) + Concat(EntryBytes, Table(keys, domains)) + ContentBytes(keys, domains)
  }

  /** `keys` lists every code of `domains` once, in any order. */
  ghost predicate Enumerates(keys: seq<seq<byte>>, domains: Domains)
  {
    && (forall k :: k in keys <==> k in domains)
    && Distinct(keys)
  }

  // ---------------------------------------------------------------------------------------------
  // The order of the codes: bytewise, as strings compare.
  // ---------------------------------------------------------------------------------------------

  predicate AtMost(a: seq<byte>, b: seq<byte>)
  {
    a == [] || (b != [] && (a[0] < b[0] || (a[0] == b[0] && AtMost(a[1..], b[1..]))))
  }

  lemma {:induction false} OrderIsTotal(a: seq<byte>, b: seq<byte>)
    ensures AtMost(a, b) || AtMost(b, a)
    ensures AtMost(a, b) && AtMost(b, a) ==> a == b
    decreases |a|
  {
    if a != [] && b != [] {
      OrderIsTotal(a[1..], b[1..]);
      assert a == [a[0]] + a[1..] && b == [b[0]] + b[1..];
    }
  }

  lemma {:induction false} OrderIsTransitive(a: seq<byte>, b: seq<byte>, c: seq<byte>)
    requires AtMost(a, b) && AtMost(b, c)
    ensures AtMost(a, c)
    decreases |a|
  {
    if a != [] && a[0] == b[0] == c[0] {
      OrderIsTransitive(a[1..], b[1..], c[1..]);
    }
  }

  ghost predicate Ascending(keys: seq<seq<byte>>)
  {
    forall i, j :: 0 <= i < j < |keys| ==> AtMost(keys[i], keys[j]) && keys[i] != keys[j]
  }

  lemma {:induction false} AscendingIsDistinct(keys: seq<seq<byte>>)
    requires Ascending(keys)
    ensures Distinct(keys)
    decreases |keys|
  {
    if keys != [] {
      AscendingIsDistinct(keys[..|keys| - 1]);
    }
  }

  lemma {:induction false} LastIsGreatest(keys: seq<seq<byte>>, k: seq<byte>)
    requires Ascending(keys) && k in keys
    ensures AtMost(k, keys[|keys| - 1])
    ensures k in keys[..|keys| - 1] <==> k != keys[|keys| - 1]
  {
    var i :| 0 <= i < |keys| && keys[i] == k;
    OrderIsTotal(k, k);
    if i < |keys| - 1 {
      assert keys[..|keys| - 1][i] == k;
    }
  }

  lemma {:induction false} EmptyTogether(a: seq<seq<byte>>, b: seq<seq<byte>>)
    requires forall k :: k in a <==> k in b
    ensures a == [] ==> b == []
  {
    if b != [] {
      assert b[0] in b;
    }
  }

  lemma {:induction false} FrontInFront(a: seq<seq<byte>>, b: seq<seq<byte>>)
    requires Ascending(a) && Ascending(b) && a != [] && b != [] && a[|a| - 1] == b[|b| - 1]
    requires forall k :: k in a ==> k in b
    ensures forall i :: 0 <= i < |a| - 1 ==> a[i] in b[..|b| - 1]
  {
    forall i | 0 <= i < |a| - 1
      ensures a[i] in b[..|b| - 1]
    {
      LastIsGreatest(b, a[i]);
    }
  }

  /** There is only one ascending list of the same codes. */
  lemma {:induction false} AscendingIsUnique(a: seq<seq<byte>>, b: seq<seq<byte>>)
    requires Ascending(a) && Ascending(b)
    requires forall k :: k in a <==> k in b
    ensures a == b
    decreases |a|
  {
    if a == [] {
      EmptyTogether(a, b);
    } else {
      assert a[|a| - 1] in b && b != [];
      assert b[|b| - 1] in a;
      LastIsGreatest(a, b[|b| - 1]);
      LastIsGreatest(b, a[|a| - 1]);
      OrderIsTotal(a[|a| - 1], b[|b| - 1]);
      FrontInFront(a, b);
      FrontInFront(b, a);
      AscendingIsUnique(a[..|a| - 1], b[..|b| - 1]);
      assert a == a[..|a| - 1] + [a[|a| - 1]] && b == b[..|b| - 1] + [b[|b| - 1]];
    }
  }

  /** A database has one file: its bytes do not depend on how the codes were collected. */
  lemma {:induction false} FileIsDetermined(a: seq<seq<byte>>, b: seq<seq<byte>>, domains: Domains)
    requires Enumerates(a, domains) && Enumerates(b, domains) && Ascending(a) && Ascending(b)
    ensures FileBytes(a, domains) == FileBytes(b, domains)
  {
    AscendingIsUnique(a, b);
  }

  // ---------------------------------------------------------------------------------------------
  // Round trips of the pieces, at any position of any file.
  // ---------------------------------------------------------------------------------------------

  /** `file` carries exactly `chunk` at `pos`. */
  ghost predicate At(file: seq<byte>, pos: nat, chunk: seq<byte>)
  {
    && pos + |chunk| <= |file|
    && forall k :: 0 <= k < |chunk| ==> file[pos + k] == chunk[k]
  }

  lemma {:induction false} AtSplit(file: seq<byte>, pos: nat, a: seq<byte>, b: seq<byte>)
    requires At(file, pos, a + b)
    ensures At(file, pos, a) && At(file, pos + |a|, b)
  {
    forall k | 0 <= k < |a|
      ensures file[pos + k] == a[k]
    {
      assert (a + b)[k] == a[k];
    }
    forall k | 0 <= k < |b|
      ensures file[pos + |a| + k] == b[k]
    {
      assert (a + b)[|a| + k] == b[k];
    }
  }

  lemma {:induction false} AtOne(file: seq<byte>, pos: nat, b: byte)
    requires At(file, pos, [b])
    ensures pos < |file| && file[pos] == b
  {
    assert file[pos + 0] == [b][0];
  }

  lemma {:induction false} AtPrefix(a: seq<byte>, b: seq<byte>)
    ensures At(a + b, 0, a) && At(a + b, |a|, b)
  {
  }

  /** The largest value ten varint bytes may still hold after `i` of them. */
  function Limit(i: nat): (r: nat)
    requires i <= 9
    decreases 9 - i
  {
    if i == 9 then 2 else 128 * Limit(i + 1)
  }

  lemma {:induction false} LimitIsUint64()
    ensures Limit(0) == TWO_64
  {
    assert Limit(8) == 256;
    assert Limit(6) == 0x40_0000;
    assert Limit(4) == 0x10_0000_0000;
    assert Limit(2) == 0x4_0000_0000_0000;
  }

  /** Whatever the bytes, what is read from `i` on fits the bits that are left: no value reaches 2^64. */
  lemma {:induction false} UvarintFits(file: seq<byte>, pos: nat, i: nat)
    requires i <= 9
    ensures var p := ParseUvarint(file, pos, i); p.Got? ==> p.value < Limit(i)
    ensures Limit(0) == 0x1_0000_0000_0000_0000
    decreases 10 - i
  {
    LimitIsUint64();
    if i < 9 {
      UvarintFits(file, pos + 1, i + 1);
      var limit := Limit(i + 1);
      assert Limit(i) == 128 * limit >= 128;
    }
    hide Limit;
  }

  lemma {:induction false} ManyInside<T>(parse: nat -> Parsed<T>, pos: nat, count: nat, end: nat)
    requires pos <= end && forall p: nat :: parse(p).Got? ==> p < parse(p).next <= end
    ensures var m := Many(parse, pos, count); m.Got? ==> |m.value| == count && pos + count <= m.next <= end
    decreases count
  {
    if count > 0 {
      ManyInside(parse, pos, count - 1, end);
    }
  }

  /**
   Whatever the file, a table is read only behind version zero and only from the bytes that are there,
   and has no more entries than these.
   */
  lemma {:induction false} MetadataInside(file: seq<byte>)
    ensures var m := ParseMetadata(file);
      m.Got? ==> file != [] && file[0] == 0 && 1 + |m.value| < m.next <= |file|
  {
    if ParseMetadata(file).Got? {
      var parse := EntryParser(file);
      forall p: nat
        ensures parse(p).Got? ==> p < parse(p).next <= |file|
      {
        assert parse(p) == ParseEntry(file, p);
      }
      var count := ParseUvarint(file, 1, 0);
      ManyInside(parse, count.next, count.value, |file|);
    }
  }

  lemma {:induction false} UvarintRoundTripFrom(file: seq<byte>, pos: nat, n: nat, i: nat)
    requires i <= 9 && n < Limit(i)
    requires At(file, pos, UvarintBytes(n))
    ensures ParseUvarint(file, pos, i) == Got(n, pos + |UvarintBytes(n)|)
    decreases n
  {
    assert file[pos + 0] == UvarintBytes(n)[0];
    if n >= 128 {
      assert i < 9;
      AtSplit(file, pos, [n % 128 + 128], UvarintBytes(n / 128));
      UvarintRoundTripFrom(file, pos + 1, n / 128, i + 1);
    }
  }

  lemma {:induction false} UvarintRoundTrip(file: seq<byte>, pos: nat, n: nat)
    requires n < TWO_64
    requires At(file, pos, UvarintBytes(n))
    ensures ParseUvarint(file, pos, 0) == Got(n, pos + |UvarintBytes(n)|)
  {
    LimitIsUint64();
    UvarintRoundTripFrom(file, pos, n, 0);
  }

  lemma {:induction false} StringRoundTrip(file: seq<byte>, pos: nat, s: seq<byte>)
    requires |file| < TWO_63
    requires At(file, pos, StringBytes(s))
    ensures ParseString(file, pos) == Got(s, pos + |StringBytes(s)|)
  {
    AtSplit(file, pos, UvarintBytes(|s|), s);
    UvarintRoundTrip(file, pos, |s|);
    var start := pos + |UvarintBytes(|s|)|;
    assert file[start..start + |s|] == s;
  }

  lemma {:induction false} ItemRoundTrip(file: seq<byte>, pos: nat, item: Item)
    requires |file| < TWO_63
    requires At(file, pos, ItemBytes(item))
    ensures ParseItem(file, pos) == Got(item, pos + |ItemBytes(item)|)
  {
    AtSplit(file, pos, [item.kind], StringBytes(item.value));
    assert file[pos + 0] == [item.kind][0];
    StringRoundTrip(file, pos + 1, item.value);
  }

  /** If `parse` undoes `encode` for each element, `Many` undoes `Concat`. */
  lemma {:induction false} ManyRoundTrip<T(!new)>(file: seq<byte>, pos: nat, parse: nat -> Parsed<T>,
                                                  encode: T -> seq<byte>, xs: seq<T>)
    requires forall x, p: nat :: x in xs && At(file, p, encode(x)) ==> parse(p) == Got(x, p + |encode(x)|)
    requires At(file, pos, Concat(encode, xs))
    ensures Many(parse, pos, |xs|) == Got(xs, pos + |Concat(encode, xs)|)
    decreases |xs|
  {
    if xs != [] {
      var front, last := xs[..|xs| - 1], xs[|xs| - 1];
      AtSplit(file, pos, Concat(encode, front), encode(last));
      var mid := pos + |Concat(encode, front)|;
      assert last in xs && parse(mid) == Got(last, mid + |encode(last)|);
      assert Concat(encode, xs) == Concat(encode, front) + encode(last);
      assert forall x :: x in front ==> x in xs;
      hide At, Concat, Many;
      ManyRoundTrip(file, pos, parse, encode, front);
      assert xs == front + [last];
      ManyStep(parse, pos, front, mid, last, mid + |encode(last)|);
    } else {
      assert Concat(encode, xs) == [];
    }
  }

  lemma {:induction false} ManyStep<T>(parse: nat -> Parsed<T>, pos: nat, front: seq<T>, mid: nat, last: T, end: nat)
    requires Many(parse, pos, |front|) == Got(front, mid) && parse(mid) == Got(last, end)
    ensures Many(parse, pos, |front| + 1) == Got(front + [last], end)
  {
  }

  lemma {:induction false} ManyFailsOnward<T>(parse: nat -> Parsed<T>, pos: nat, i: nat, count: nat)
    requires i <= count && Many(parse, pos, i).Bad?
    ensures Many(parse, pos, count) == Many(parse, pos, i)
    decreases count
  {
    if i < count {
      ManyFailsOnward(parse, pos, i, count - 1);
    }
  }

  lemma {:induction false} CountNoLongerThanBytes<T>(encode: T -> seq<byte>, xs: seq<T>)
    requires forall x :: x in xs ==> |encode(x)| >= 1
    ensures |xs| <= |Concat(encode, xs)|
    decreases |xs|
  {
    if xs != [] {
      CountNoLongerThanBytes(encode, xs[..|xs| - 1]);
    }
  }

  lemma {:induction false} ItemsRoundTrip(file: seq<byte>, pos: nat, items: seq<Item>)
    requires |file| < TWO_63
    requires At(file, pos, Concat(ItemBytes, items))
    ensures Many(ItemParser(file), pos, |items|) == Got(items, pos + |Concat(ItemBytes, items)|)
  {
    hide Concat, Many, At, ItemBytes, ParseItem;
    forall x, p: nat | At(file, p, ItemBytes(x))
      ensures ItemParser(file)(p) == Got(x, p + |ItemBytes(x)|)
    {
      ItemRoundTrip(file, p, x);
    }
    ManyRoundTrip(file, pos, ItemParser(file), ItemBytes, items);
  }

  lemma {:induction false} EntryRoundTrip(file: seq<byte>, pos: nat, entry: TableEntry)
    requires |file| < TWO_63 && entry.index < TWO_64 && entry.length < TWO_64
    requires At(file, pos, EntryBytes(entry))
    ensures ParseEntry(file, pos) == Got(entry, pos + |EntryBytes(entry)|)
  {
    hide At, StringBytes, UvarintBytes, ParseString, ParseUvarint;
    var a, b, c := StringBytes(entry.code), UvarintBytes(entry.index), UvarintBytes(entry.length);
    AtSplit(file, pos, a + b, c);
    AtSplit(file, pos, a, b);
    StringRoundTrip(file, pos, entry.code);
    UvarintRoundTrip(file, pos + |a|, entry.index);
    UvarintRoundTrip(file, pos + |a| + |b|, entry.length);
  }

  lemma {:induction false} TableRoundTrip(file: seq<byte>, pos: nat, table: seq<TableEntry>)
    requires |file| < TWO_63
    requires forall e :: e in table ==> e.index < TWO_64 && e.length < TWO_64
    requires At(file, pos, Concat(EntryBytes, table))
    ensures Many(EntryParser(file), pos, |table|) == Got(table, pos + |Concat(EntryBytes, table)|)
  {
    hide Concat, Many, At, EntryBytes, ParseEntry;
    forall x, p: nat | x in table && At(file, p, EntryBytes(x))
      ensures EntryParser(file)(p) == Got(x, p + |EntryBytes(x)|)
    {
      EntryRoundTrip(file, p, x);
    }
    ManyRoundTrip(file, pos, EntryParser(file), EntryBytes, table);
  }

  // ---------------------------------------------------------------------------------------------
  // Round trip of a whole file.
  // ---------------------------------------------------------------------------------------------

  /** The items of the i-th code sit in the content area at that code's offset. */
  lemma {:induction false} ContentAtOffset(keys: seq<seq<byte>>, domains: Domains, i: nat)
    requires forall k :: k in keys ==> k in domains
    requires i < |keys|
    ensures At(ContentBytes(keys, domains), Offset(keys, domains, i), Concat(ItemBytes, domains[keys[i]]))
    decreases |keys|
  {
    var n := |keys|;
    var front := keys[..n - 1];
    assert keys[..n - 1][..i] == keys[..i];
    if i < n - 1 {
      ContentAtOffset(front, domains, i);
      var chunk, at := Concat(ItemBytes, domains[keys[i]]), Offset(keys, domains, i);
      var all, some := ContentBytes(keys, domains), ContentBytes(front, domains);
      assert all[..|some|] == some;
    }
  }

  lemma {:induction false} TableFits(keys: seq<seq<byte>>, domains: Domains)
    requires forall k :: k in keys ==> k in domains
    requires |ContentBytes(keys, domains)| < TWO_63
    ensures forall e :: e in Table(keys, domains) ==> e.index < TWO_64 && e.length < TWO_64
  {
    forall i | 0 <= i < |keys|
      ensures Offset(keys, domains, i) < TWO_64 && |domains[keys[i]]| < TWO_64
    {
      ContentAtOffset(keys, domains, i);
      CountNoLongerThanBytes(ItemBytes, domains[keys[i]]);
    }
  }

  lemma {:induction false} HeaderSplit(count: seq<byte>, entries: seq<byte>, content: seq<byte>)
    ensures
      var file := [0] + count + entries + content;
      At(file, 0, [0]) && At(file, 1, count) && At(file, 1 + |count|, entries)
  {
    hide At;
    var version: seq<byte> := [0];
    var front := version + count;
    var header := front + entries;
    var file := header + content;
    AtPrefix(header, content);
    AtSplit(file, 0, front, entries);
    AtSplit(file, 0, version, count);
  }

  lemma {:induction false} HeaderRoundTrip(file: seq<byte>, table: seq<TableEntry>)
    requires |file| < TWO_63
    requires forall e :: e in table ==> e.index < TWO_64 && e.length < TWO_64
    requires At(file, 0, [0]) && At(file, 1, UvarintBytes(|table|))
    requires At(file, 1 + |UvarintBytes(|table|)|, Concat(EntryBytes, table))
    ensures ParseMetadata(file) == Got(table, 1 + |UvarintBytes(|table|)| + |Concat(EntryBytes, table)|)
  {
    hide Concat, UvarintBytes, ParseUvarint, Many, EntryParser, EntryBytes, At, ParseMetadata;
    var start := 1 + |UvarintBytes(|table|)|;
    AtOne(file, 0, 0);
    EntriesNoLongerThanFile(file, start, table);
    UvarintRoundTrip(file, 1, |table|);
    TableRoundTrip(file, start, table);
    MetadataIs(file, |table|, start, table, start + |Concat(EntryBytes, table)|);
  }

  lemma {:induction false} MetadataIs(file: seq<byte>, count: nat, start: nat, table: seq<TableEntry>, end: nat)
    requires |file| < TWO_63 && file != [] && file[0] == 0 && count <= |file|
    requires ParseUvarint(file, 1, 0) == Got(count, start)
    requires Many(EntryParser(file), start, count) == Got(table, end)
    ensures ParseMetadata(file) == Got(table, end)
  {
    hide ParseUvarint, Many, EntryParser;
  }

  lemma {:induction false} EntriesNoLongerThanFile(file: seq<byte>, pos: nat, table: seq<TableEntry>)
    requires At(file, pos, Concat(EntryBytes, table))
    ensures |table| <= |file|
  {
    CountNoLongerThanBytes(EntryBytes, table);
  }

  lemma {:induction false} MetadataRoundTrip(keys: seq<seq<byte>>, domains: Domains)
    requires forall k :: k in keys ==> k in domains
    requires |FileBytes(keys, domains)| < TWO_63
    ensures ParseMetadata(FileBytes(keys, domains))
         == Got(Table(keys, domains), |FileBytes(keys, domains)| - |ContentBytes(keys, domains)|)
  {
    var table := Table(keys, domains);
    assert |table| == |keys|;
    hide ContentBytes, Concat, UvarintBytes, EntryBytes, Table, ParseMetadata, At;
    TableFits(keys, domains);
    HeaderSplit(UvarintBytes(|table|), Concat(EntryBytes, table), ContentBytes(keys, domains));
    HeaderRoundTrip(FileBytes(keys, domains), table);
  }

  /** The two maps the reader fills hold each table entry under its code. */
  lemma {:induction false} TableMaps(keys: seq<seq<byte>>, table: seq<TableEntry>, i: nat)
    requires |keys| == |table| && forall j :: 0 <= j < |keys| ==> table[j].code == keys[j]
    requires Distinct(keys)
    requires i < |table| && table[i].index < TWO_63 && table[i].length < TWO_63
    ensures keys[i] in IndexMap(table) && IndexMap(table)[keys[i]] == table[i].index
    ensures keys[i] in LengthMap(table) && LengthMap(table)[keys[i]] == table[i].length
    decreases |table|
  {
    var n := |table| - 1;
    if i < n {
      TableMaps(keys[..n], table[..n], i);
      assert keys[i] in keys[..n];
    }
  }

  lemma {:induction false} TableMapKeys(table: seq<TableEntry>, code: seq<byte>)
    ensures code in IndexMap(table) ==> exists i :: 0 <= i < |table| && table[i].code == code
    decreases |table|
  {
    if table != [] {
      TableMapKeys(table[..|table| - 1], code);
    }
  }

  lemma {:induction false} TableMapHasKey(table: seq<TableEntry>, i: nat)
    requires i < |table|
    ensures table[i].code in IndexMap(table)
    decreases |table|
  {
    if i < |table| - 1 {
      TableMapHasKey(table[..|table| - 1], i);
    }
  }

  /** In a file whose content area starts at `start`, the i-th code's items read back from its offset. */
  lemma {:induction false} ItemsReadBack(file: seq<byte>, start: nat, keys: seq<seq<byte>>, domains: Domains, i: nat)
    requires forall k :: k in keys ==> k in domains
    requires i < |keys| && |file| < TWO_63
    requires At(file, start, ContentBytes(keys, domains))
    ensures start + Offset(keys, domains, i) < TWO_63 && |domains[keys[i]]| < TWO_63
    ensures
      var end := start + Offset(keys, domains, i) + |Concat(ItemBytes, domains[keys[i]])|;
      Many(ItemParser(file), start + Offset(keys, domains, i), |domains[keys[i]]|) == Got(domains[keys[i]], end)
  {
    hide Concat, ContentBytes, Many, ItemParser;
    var content, items, at := ContentBytes(keys, domains), domains[keys[i]], Offset(keys, domains, i);
    ContentAtOffset(keys, domains, i);
    CountNoLongerThanBytes(ItemBytes, items);
    forall k | 0 <= k < |Concat(ItemBytes, items)|
      ensures file[start + at + k] == Concat(ItemBytes, items)[k]
    {
      assert content[at + k] == Concat(ItemBytes, items)[k];
      assert file[start + (at + k)] == content[at + k];
    }
    ItemsRoundTrip(file, start + at, items);
  }

  lemma {:induction false} TableMapsAt(keys: seq<seq<byte>>, domains: Domains, i: nat)
    requires Enumerates(keys, domains) && i < |keys|
    requires Offset(keys, domains, i) < TWO_63 && |domains[keys[i]]| < TWO_63
    ensures
      var index, length := IndexMap(Table(keys, domains)), LengthMap(Table(keys, domains));
      && keys[i] in index && index[keys[i]] == Offset(keys, domains, i)
      && keys[i] in length && length[keys[i]] == |domains[keys[i]]|
  {
    TableMaps(keys, Table(keys, domains), i);
  }

  lemma {:induction false} LookUpHit(file: seq<byte>, start: nat, index: map<seq<byte>, int>,
                                     length: map<seq<byte>, int>,
                  code: seq<byte>, items: seq<Item>, end: nat)
    requires code in index && code in length
    requires 0 <= index[code] && start + index[code] < TWO_63 && length[code] == |items|
    requires Many(ItemParser(file), start + index[code], |items|) == Got(items, end)
    ensures LookUp(file, start, index, length, code) == Ok(items)
  {
    assert ToInt64(start + index[code]) == start + index[code];
  }

  /** Looking up the i-th code through the table of the file answers its items. */
  lemma {:induction false} CodeRoundTrip(file: seq<byte>, start: nat, keys: seq<seq<byte>>, domains: Domains, i: nat)
    requires Enumerates(keys, domains) && i < |keys|
    requires |file| < TWO_63
    requires At(file, start, ContentBytes(keys, domains))
    ensures
      var table := Table(keys, domains);
      LookUp(file, start, IndexMap(table), LengthMap(table), keys[i]) == Ok(domains[keys[i]])
  {
    hide LookUp, IndexMap, LengthMap, Table, Concat, ContentBytes, Many, At, Offset, Distinct, ItemParser;
    ItemsReadBack(file, start, keys, domains, i);
    TableMapsAt(keys, domains, i);
    var index, length := IndexMap(Table(keys, domains)), LengthMap(Table(keys, domains));
    var items, at := domains[keys[i]], Offset(keys, domains, i);
    LookUpHit(file, start, index, length, keys[i], items, start + at + |Concat(ItemBytes, items)|);
  }

  lemma {:induction false} TableKeys(keys: seq<seq<byte>>, domains: Domains)
    requires Enumerates(keys, domains)
    ensures IndexMap(Table(keys, domains)).Keys == domains.Keys
  {
    var table := Table(keys, domains);
    forall code
      ensures code in IndexMap(table) <==> code in domains
    {
      TableMapKeys(table, code);
      if code in domains {
        var i :| 0 <= i < |keys| && keys[i] == code;
        TableMapHasKey(table, i);
      }
    }
  }

  /** A reader holding these fields lists exactly the codes of `domains` and answers each code's items. */
  ghost predicate Serves(file: seq<byte>, start: nat, index: map<seq<byte>, int>,
                         length: map<seq<byte>, int>, domains: Domains)
  {
    && index.Keys == domains.Keys
    && forall code :: LookUp(file, start, index, length, code)
         == if code in domains then Ok(domains[code]) else Err(CodeNotExists)
  }

  lemma {:induction false} ContentServes(file: seq<byte>, start: nat, keys: seq<seq<byte>>, domains: Domains)
    requires Enumerates(keys, domains)
    requires |file| < TWO_63
    requires At(file, start, ContentBytes(keys, domains))
    ensures Serves(file, start, IndexMap(Table(keys, domains)), LengthMap(Table(keys, domains)), domains)
  {
    var table := Table(keys, domains);
    TableKeys(keys, domains);
    forall code
      ensures LookUp(file, start, IndexMap(table), LengthMap(table), code)
           == if code in domains then Ok(domains[code]) else Err(CodeNotExists)
    {
      if code in domains {
        var i :| 0 <= i < |keys| && keys[i] == code;
        CodeRoundTrip(file, start, keys, domains, i);
      }
    }
  }

  /** A written file opens to a table through which it serves `domains`. */
  lemma {:induction false} FileRoundTrip(keys: seq<seq<byte>>, domains: Domains, file: seq<byte>)
    returns (table: seq<TableEntry>, start: nat)
    requires Enumerates(keys, domains)
    requires file == FileBytes(keys, domains) && |file| < TWO_63
    ensures ParseMetadata(file) == Got(table, start)
    ensures Serves(file, start, IndexMap(table), LengthMap(table), domains)
  {
    var content := ContentBytes(keys, domains);
    table, start := Table(keys, domains), |file| - |content|;
    MetadataRoundTrip(keys, domains);
    assert At(file, start, content);
    ContentServes(file, start, keys, domains);
  }

  // ---------------------------------------------------------------------------------------------
  // The writer.
  // ---------------------------------------------------------------------------------------------

  method AppendItems(content: seq<byte>, items: seq<Item>) returns (r: seq<byte>)
    ensures r == content + Concat(ItemBytes, items)
  {
    r := content;
    for j := 0 to |items|
      invariant r == content + Concat(ItemBytes, items[..j])
    {
      assert items[..j + 1][..j] == items[..j];
      r := r + [items[j].kind];
      r := r + StringBytes(items[j].value);
    }
    assert items[..|items|] == items;
  }

  lemma {:induction false} ContentStep(order: seq<seq<byte>>, domains: Domains, i: nat)
    requires forall k :: k in order ==> k in domains
    requires i < |order|
    ensures ContentBytes(order[..i + 1], domains)
         == ContentBytes(order[..i], domains) + Concat(ItemBytes, domains[order[i]])
  {
    assert order[..i + 1][..i] == order[..i];
  }

  lemma {:induction false} IndexExtends<K, V>(index: map<K, V>, order: seq<K>, i: nat, wanted: seq<V>)
    requires Distinct(order) && i < |order| == |wanted|
    requires forall j :: 0 <= j < i ==> order[j] in index && index[order[j]] == wanted[j]
    ensures
      var extended := index[order[i] := wanted[i]];
      forall j :: 0 <= j <= i ==> order[j] in extended && extended[order[j]] == wanted[j]
  {
    forall j | 0 <= j < i
      ensures order[j] != order[i]
    {
      DistinctIndices(order, j, i);
    }
  }

  /** Lays out the items of every code, recording where each code's items begin. */
  method WriteContent(order: seq<seq<byte>>, domains: Domains) returns (content: seq<byte>, index: map<seq<byte>, nat>)
    requires Enumerates(order, domains)
    ensures content == ContentBytes(order, domains)
    ensures forall j :: 0 <= j < |order| ==> order[j] in index && index[order[j]] == Offset(order, domains, j)
  {
    ghost var offsets := seq(|order|, j requires 0 <= j < |order| => Offset(order, domains, j));
    content, index := [], map[];
    assert content == ContentBytes(order[..0], domains);
    hide Distinct, Concat, ContentBytes;
    for i := 0 to |order|
      invariant content == ContentBytes(order[..i], domains)
      invariant forall j :: 0 <= j < i ==> order[j] in index && index[order[j]] == offsets[j]
    {
      var code := order[i];
      IndexExtends(index, order, i, offsets);
      index := index[code := |content|];
      content := AppendItems(content, domains[code]);
      ContentStep(order, domains, i);
    }
    assert order[..|order|] == order;
  }

  method WriteTable(order: seq<seq<byte>>, domains: Domains, index: map<seq<byte>, nat>) returns (r: seq<byte>)
    requires forall k :: k in order ==> k in domains
    requires forall j :: 0 <= j < |order| ==> order[j] in index && index[order[j]] == Offset(order, domains, j)
    ensures r == Concat(EntryBytes, Table(order, domains))
  {
    r := [];
    ghost var table := Table(order, domains);
    for i := 0 to |order|
      invariant r == Concat(EntryBytes, table[..i])
    {
      assert table[..i + 1][..i] == table[..i];
      var entry := StringBytes(order[i]) + UvarintBytes(index[order[i]]) + UvarintBytes(|domains[order[i]]|);
      assert entry == EntryBytes(table[i]);
      r := r + entry;
    }
    assert table[..|table|] == table;
  }

  /** Writes the database: version, table, content. */
  method Write(domains: Domains) returns (file: seq<byte>, ghost keys: seq<seq<byte>>)
    ensures Enumerates(keys, domains) && Ascending(keys)
    ensures file == FileBytes(keys, domains)
  {
    var order := Keys(domains);
    keys := order;
    var content, index := WriteContent(order, domains);
    var table := WriteTable(order, domains, index);
    file := [0] + UvarintBytes(|order|) + table + content;
  }

  /** The codes in ascending order, however they are collected. */
  method Keys(domains: Domains) returns (keys: seq<seq<byte>>)
    ensures Enumerates(keys, domains) && Ascending(keys)
  {
    keys := [];
    var rest := domains.Keys;
    while rest != {}
      invariant rest <= domains.Keys
      invariant forall k :: k in keys <==> k in domains && k !in rest
      invariant Ascending(keys)
      decreases |rest|
    {
      var code :| code in rest;
      keys := Insert(keys, code);
      rest := rest - {code};
    }
    AscendingIsDistinct(keys);
  }

  method Insert(keys: seq<seq<byte>>, code: seq<byte>) returns (r: seq<seq<byte>>)
    requires Ascending(keys) && code !in keys
    ensures Ascending(r) && forall k :: k in r <==> k in keys || k == code
  {
    var i := |keys|;
    while i > 0 && !AtMost(keys[i - 1], code)
      invariant 0 <= i <= |keys|
      invariant forall j :: i <= j < |keys| ==> AtMost(code, keys[j])
    {
      OrderIsTotal(keys[i - 1], code);
      i := i - 1;
    }
    forall j | 0 <= j < i
      ensures AtMost(keys[j], code)
    {
      if j < i - 1 {
        OrderIsTransitive(keys[j], keys[i - 1], code);
      }
    }
    hide AtMost;
    r := keys[..i] + [code] + keys[i..];
    assert keys == keys[..i] + keys[i..];
  }

  // ---------------------------------------------------------------------------------------------
  // The reader.
  // ---------------------------------------------------------------------------------------------

  /** The accumulator `x` with `digit` placed at weight `scale`: x | digit << s of the original. */
  function Place(x: nat, scale: nat, digit: nat): (r: nat)
  {
    x + scale * digit
  }

  /** `p` with the digits read so far put in front of it. */
  function Prefixed(x: nat, scale: nat, p: Parsed<nat>): (r: Parsed<nat>)
  {
    match p
    case Got(v, next) => Got(Place(x, scale, v), next)
    case Bad(e) => Bad(e)
  }

  /** A buffered reader over a seekable file; each refill fetches an arbitrary number of bytes. */
  class BufferedReader {
    const file: seq<byte>
    var fetched: nat
    var buffer: seq<byte>

    ghost predicate Valid()
      reads this
    {
      && |buffer| <= fetched
      && (buffer != [] ==> fetched <= |file| && buffer == file[fetched - |buffer|..fetched])
    }

    /** Where the next byte comes from: bytes fetched less bytes still buffered. */
    function Position(): (r: nat)
      requires Valid()
      reads this
    {
      fetched - |buffer|
    }

    constructor (file: seq<byte>)
      ensures Valid() && this.file == file && Position() == 0
    {
      this.file := file;
      fetched, buffer := 0, [];
    }

    method Seek(offset: nat)
      requires Valid()
      modifies this
      ensures Valid() && Position() == offset
    {
      fetched, buffer := offset, [];
    }

    method ReadByte() returns (r: Result<byte, Error>)
      requires Valid()
      modifies this
      ensures Valid()
      ensures r == if old(Position()) < |file| then Ok(file[old(Position())]) else Err(UnexpectedEof)
      ensures Position() == old(Position()) + if r.Ok? then 1 else 0
    {
      if buffer == [] {
        if fetched >= |file| {
          return Err(UnexpectedEof);
        }
        var chunk :| 1 <= chunk <= |file| - fetched;
        buffer := file[fetched..fetched + chunk];
        fetched := fetched + chunk;
      }
      r := Ok(buffer[0]);
      buffer := buffer[1..];
    }

    method ReadUvarint() returns (r: Result<nat, Error>)
      requires Valid()
      modifies this
      ensures Valid()
      ensures ParseUvarint(file, old(Position()), 0)
           == if r.Ok? then Got(r.value, Position()) else Bad(r.error)
    {
      hide ParseUvarint;
      var x: nat, scale: nat := 0, 1;
      ghost var whole := ParseUvarint(file, Position(), 0);
      for i := 0 to 10
        invariant Valid()
        invariant whole == Prefixed(x, scale, ParseUvarint(file, Position(), i))
      {
        ParseUvarintStep(file, Position(), i, x, scale);
        var b := ReadByte();
        if b.Err? {
          return Err(b.error);
        }
        if b.value < 128 {
          if i == 9 && b.value > 1 {
            return Err(UvarintOverflow);
          }
          return Ok(Place(x, scale, b.value));
        }
        x, scale := Place(x, scale, b.value - 128), scale * 128;
      }
      ParseUvarintStep(file, Position(), 10, x, scale);
      r := Err(UvarintOverflow);
    }

    method ReadString() returns (r: Result<seq<byte>, Error>)
      requires Valid()
      modifies this
      ensures Valid()
      ensures ParseString(file, old(Position()))
           == if r.Ok? then Got(r.value, Position()) else Bad(r.error)
    {
      hide ParseUvarint;
      var length := ReadUvarint();
      if length.Err? {
        return Err(length.error);
      }
      if length.value >= TWO_63 {
        return Err(AllocationPanic);
      }
      var bytes: seq<byte> := [];
      ghost var start := Position();
      for i := 0 to length.value
        invariant Valid() && Position() == start + i
        invariant start + i <= |file| && bytes == file[start..start + i]
      {
        var b := ReadByte();
        if b.Err? {
          return Err(b.error);
        }
        assert file[start..start + i + 1] == file[start..start + i] + [file[start + i]];
        bytes := bytes + [b.value];
      }
      r := Ok(bytes);
    }
  }

  /** The database reader: offsets and counts by code, relative to the end of the metadata. */
  class Reader {
    const reader: BufferedReader
    var metadataIndex: nat
    var domainIndex: map<seq<byte>, int>
    var domainLength: map<seq<byte>, int>

    ghost predicate Valid()
      reads this, reader
    {
      reader.Valid()
    }

    constructor (file: seq<byte>)
      ensures Valid() && fresh(reader)
      ensures reader.file == file && reader.Position() == 0
    {
      reader := new BufferedReader(file);
      metadataIndex, domainIndex, domainLength := 0, map[], map[];
    }

    /** Fills the fields from the file's table; on an error they keep their old values. */
    method ReadMetadata() returns (r: Result<(), Error>)
      requires Valid() && reader.Position() == 0
      modifies this, reader
      ensures Valid()
      ensures match ParseMetadata(reader.file)
        case Bad(e) => r == Err(e) && unchanged(this)
        case Got(table, next) =>
          && r == Ok(())
          && metadataIndex == next
          && domainIndex == IndexMap(table)
          && domainLength == LengthMap(table)
    {
      hide ParseUvarint, Many, IndexMap, LengthMap;
      var version := reader.ReadByte();
      if version.Err? {
        return Err(version.error);
      }
      if version.value != 0 {
        return Err(UnknownVersion);
      }
      var count := reader.ReadUvarint();
      if count.Err? {
        return Err(count.error);
      }
      if count.value >= TWO_63 {
        return Err(AllocationPanic);
      }
      var index, length, failure := ReadTable(count.value);
      if failure.Some? {
        return Err(failure.value);
      }
      domainIndex, domainLength := index, length;
      metadataIndex := reader.fetched - |reader.buffer|;
      r := Ok(());
    }

    method ReadTable(count: nat)
      returns (index: map<seq<byte>, int>, length: map<seq<byte>, int>, failure: Option<Error>)
      requires reader.Valid()
      modifies reader
      ensures reader.Valid()
      ensures match Many(EntryParser(reader.file), old(reader.Position()), count)
        case Bad(e) => failure == Some(e)
        case Got(table, next) =>
          && failure == None
          && reader.Position() == next
          && index == IndexMap(table)
          && length == LengthMap(table)
    {
      hide ParseEntry;
      index, length, failure := map[], map[], None;
      ghost var start := reader.Position();
      ghost var table: seq<TableEntry> := [];
      for i := 0 to count
        invariant reader.Valid()
        invariant Many(EntryParser(reader.file), start, i) == Got(table, reader.Position())
        invariant index == IndexMap(table) && length == LengthMap(table)
      {
        var entry := ReadEntry();
        if entry.Err? {
          ManyFailsOnward(EntryParser(reader.file), start, i + 1, count);
          return index, length, Some(entry.error);
        }
        index := index[entry.value.code := ToInt64(entry.value.index)];
        length := length[entry.value.code := ToInt64(entry.value.length)];
        assert (table + [entry.value])[..|table|] == table;
        table := table + [entry.value];
      }
    }

    method ReadEntry() returns (r: Result<TableEntry, Error>)
      requires reader.Valid()
      modifies reader
      ensures reader.Valid()
      ensures ParseEntry(reader.file, old(reader.Position()))
           == if r.Ok? then Got(r.value, reader.Position()) else Bad(r.error)
    {
      hide ParseUvarint, ParseString;
      var code := reader.ReadString();
      if code.Err? {
        return Err(code.error);
      }
      var index := reader.ReadUvarint();
      if index.Err? {
        return Err(index.error);
      }
      var length := reader.ReadUvarint();
      if length.Err? {
        return Err(length.error);
      }
      r := Ok(TableEntry(code.value, index.value, length.value));
    }

    /** The items of `code`; the answer does not depend on earlier reads. */
    method Read(code: seq<byte>) returns (r: Result<seq<Item>, Error>)
      requires Valid()
      modifies reader
      ensures Valid()
      ensures r == LookUp(reader.file, metadataIndex, domainIndex, domainLength, code)
    {
      hide ItemParser, Many;
      if code !in domainIndex {
        return Err(CodeNotExists);
      }
      var offset := ToInt64(metadataIndex + domainIndex[code]);
      if offset < 0 {
        return Err(InvalidSeek);
      }
      reader.Seek(offset);
      var count := if code in domainLength then domainLength[code] else 0;
      if count < 0 {
        return Err(AllocationPanic);
      }
      r := ReadItems(count);
    }

    method ReadItem() returns (r: Result<Item, Error>)
      requires reader.Valid()
      modifies reader
      ensures reader.Valid()
      ensures ParseItem(reader.file, old(reader.Position()))
           == if r.Ok? then Got(r.value, reader.Position()) else Bad(r.error)
    {
      hide ParseString;
      var kind := reader.ReadByte();
      if kind.Err? {
        return Err(kind.error);
      }
      var value := reader.ReadString();
      if value.Err? {
        return Err(value.error);
      }
      r := Ok(Item(kind.value, value.value));
    }

    method ReadItems(count: nat) returns (r: Result<seq<Item>, Error>)
      requires reader.Valid()
      modifies reader
      ensures reader.Valid()
      ensures match Many(ItemParser(reader.file), old(reader.Position()), count)
        case Bad(e) => r == Err(e)
        case Got(items, _) => r == Ok(items)
    {
      hide ParseItem;
      var items: seq<Item> := [];
      ghost var start := reader.Position();
      for i := 0 to count
        invariant reader.Valid()
        invariant Many(ItemParser(reader.file), start, i) == Got(items, reader.Position())
      {
        var item := ReadItem();
        if item.Err? {
          ManyFailsOnward(ItemParser(reader.file), start, i + 1, count);
          return Err(item.error);
        }
        items := items + [item.value];
      }
      r := Ok(items);
    }
  }

  /** One turn of the varint loop: it ends here, or it goes on with one more digit placed. */
  lemma {:induction false} ParseUvarintStep(file: seq<byte>, pos: nat, i: nat, x: nat, scale: nat)
    ensures i >= 10 ==> ParseUvarint(file, pos, i) == Bad(UvarintOverflow)
    ensures i < 10 && pos >= |file| ==> ParseUvarint(file, pos, i) == Bad(UnexpectedEof)
    ensures i < 10 && pos < |file| && file[pos] < 128 ==>
      ParseUvarint(file, pos, i) == if i == 9 && file[pos] > 1 then Bad(UvarintOverflow) else Got(file[pos], pos + 1)
    ensures i < 10 && pos < |file| && file[pos] >= 128 ==>
      Prefixed(x, scale, ParseUvarint(file, pos, i))
        == Prefixed(Place(x, scale, file[pos] - 128), scale * 128, ParseUvarint(file, pos + 1, i + 1))
  {
    if i < 10 && pos < |file| && file[pos] >= 128 {
      var digit, tail := file[pos] - 128, ParseUvarint(file, pos + 1, i + 1);
      if tail.Got? {
        assert scale * (digit + 128 * tail.value) == scale * digit + (scale * 128) * tail.value;
      }
    }
  }

  /** The file of a database, which has its codes in ascending order, stays below 2^63 bytes. */
  ghost predicate FileIsSmall(domains: Domains)
  {
    exists keys :: Enumerates(keys, domains) && Ascending(keys) && |FileBytes(keys, domains)| < TWO_63
  }

  lemma {:induction false} SmallFile(keys: seq<seq<byte>>, domains: Domains)
    requires Enumerates(keys, domains) && Ascending(keys)
    ensures FileIsSmall(domains) <==> |FileBytes(keys, domains)| < TWO_63
  {
    if FileIsSmall(domains) {
      var other :| Enumerates(other, domains) && Ascending(other) && |FileBytes(other, domains)| < TWO_63;
      FileIsDetermined(keys, other, domains);
    }
  }

  method WriteServing(domains: Domains) returns (file: seq<byte>, ghost table: seq<TableEntry>, ghost start: nat)
    ensures |file| < TWO_63 <==> FileIsSmall(domains)
    ensures |file| < TWO_63 ==>
      && ParseMetadata(file) == Got(table, start)
      && Serves(file, start, IndexMap(table), LengthMap(table), domains)
  {
    ghost var keys;
    file, keys := Write(domains);
    SmallFile(keys, domains);
    table, start := [], 0;
    if |file| < TWO_63 {
      table, start := FileRoundTrip(keys, domains, file);
    }
  }

  /** Reads any codes, in any order and with any repetition, through a reader of a served file. */
  method ReadAll(reader: Reader, domains: Domains, requests: seq<seq<byte>>)
    returns (answers: seq<Result<seq<Item>, Error>>)
    requires reader.Valid()
    requires Serves(reader.reader.file, reader.metadataIndex, reader.domainIndex, reader.domainLength, domains)
    modifies reader.reader
    ensures |answers| == |requests|
    ensures forall i :: 0 <= i < |requests| ==>
      answers[i] == if requests[i] in domains then Ok(domains[requests[i]]) else Err(CodeNotExists)
  {
    answers := [];
    for i := 0 to |requests|
      invariant reader.Valid()
      invariant |answers| == i
      invariant forall j :: 0 <= j < i ==>
        answers[j] == if requests[j] in domains then Ok(domains[requests[j]]) else Err(CodeNotExists)
    {
      var answer := reader.Read(requests[i]);
      answers := answers + [answer];
    }
  }

  /**
   Writes a database, opens it and reads any codes in any order and with any repetition: the codes
   listed are exactly those written and every answer is exactly what was written under that code.
   */
  method WriteThenRead(domains: Domains, requests: seq<seq<byte>>)
    returns (codes: set<seq<byte>>, answers: seq<Result<seq<Item>, Error>>)
    ensures FileIsSmall(domains) ==>
      && codes == domains.Keys
      && |answers| == |requests|
      && forall i :: 0 <= i < |requests| ==>
           answers[i] == if requests[i] in domains then Ok(domains[requests[i]]) else Err(CodeNotExists)
  {
    hide FileIsSmall, Distinct;
    var file;
    ghost var table, start;
    file, table, start := WriteServing(domains);
    codes, answers := {}, [];
    if |file| >= TWO_63 {
      return;
    }
    var reader := new Reader(file);
    var outcome := reader.ReadMetadata();
    codes := reader.domainIndex.Keys;
    answers := ReadAll(reader, domains, requests);
  }
}
