/**
 The byte format underneath the envelopes: records of the Protocol Buffers Encoding specification
 (sections "Base 128 Varints", "Message Structure" and "Length-Delimited Records").
 */
module Wire {
  import opened Wrappers

  type Byte = x: int | 0 <= x < 0x100
  type Bytes = seq<Byte>
  type u32 = x: int | 0 <= x < 0x1_0000_0000
  type u64 = x: int | 0 <= x < 0x1_0000_0000_0000_0000
  type i32 = x: int | -0x8000_0000 <= x < 0x8000_0000

  const TWO32: nat := 0x1_0000_0000
  const TWO64: nat := 0x1_0000_0000_0000_0000

  // ---- Base 128 varints

  function EncodeVarint(n: nat): (bs: Bytes)
    ensures bs != []
  {
    if n < 0x80 then [n] else [n % 0x80 + 0x80] + EncodeVarint(n / 0x80)
  }

  /**
   Reads a varint whose first `index` bytes are already consumed; the result is the value of the
   remaining ones and the bytes after them. At most ten bytes are read, and the tenth holds one bit.
   */
  function DecodeVarint(bs: Bytes, index: nat := 0): (r: Option<(nat, Bytes)>)
    requires index <= 10
    ensures r.Some? ==> |r.value.1| < |bs| && r.value.0 < Room(index)
    decreases 10 - index
  {
    if index == 10 || bs == [] then None
    else if bs[0] < 0x80 then
      if index == 9 && bs[0] >= 2 then None else RoomIsWide(index); Some((bs[0], bs[1..]))
    else
      match DecodeVarint(bs[1..], index + 1)
      case None => None
      case Some((high, rest)) => Some((bs[0] - 0x80 + 0x80 * high, rest))
  }

  /** One more than the largest value that fits once `index` bytes are consumed. */
  function Room(index: nat): nat
    requires index <= 10
    decreases 10 - index
  {
    if index == 10 then 0 else if index == 9 then 2 else 0x80 * Room(index + 1)
  }

  lemma {:induction false} RoomIsWide(index: nat)
    requires index <= 9
    ensures Room(index) >= if index == 9 then 2 else 0x100
    decreases 10 - index
  {
    if index < 9 {
      RoomIsWide(index + 1);
    }
  }

  lemma RoomAtStart()
    ensures Room(0) == TWO64
  {
    assert Room(7) == 0x8000 && Room(5) == 0x2000_0000 && Room(3) == 0x80_0000_0000_0;
  }

  lemma {:induction false} VarintRoundTrip(n: nat, rest: Bytes, index: nat)
    requires index <= 9 && n < Room(index)
    ensures DecodeVarint(EncodeVarint(n) + rest, index) == Some((n, rest))
    decreases 10 - index
  {
    var bs := EncodeVarint(n) + rest;
    if n < 0x80 {
      assert bs[1..] == rest;
    } else {
      var high := n / 0x80;
      assert index < 9;
      assert bs[0] == n % 0x80 + 0x80;
      assert bs[1..] == EncodeVarint(high) + rest;
      VarintRoundTrip(high, rest, index + 1);
      assert DecodeVarint(bs, index) == Some((bs[0] - 0x80 + 0x80 * high, rest));
    }
  }

  function Power128(k: nat): (p: nat)
    ensures p > 0
  {
    if k == 0 then 1 else 0x80 * Power128(k - 1)
  }

  /** The low seven bits of byte `k` of a varint are the `k`-th digit of the number in base 128. */
  lemma {:induction false} VarintDigits(n: nat, k: nat)
    requires k < |EncodeVarint(n)|
    ensures EncodeVarint(n)[k] % 0x80 == n / Power128(k) % 0x80
  {
    if k > 0 {
      VarintDigits(n / 0x80, k - 1);
      hide EncodeVarint;
      DivideTwice(n, Power128(k - 1));
    }
  }

  /** The high bit of a byte says that more bytes follow. */
  lemma {:induction false} VarintFlags(n: nat, k: nat)
    requires k < |EncodeVarint(n)|
    ensures EncodeVarint(n)[k] >= 0x80 <==> k < |EncodeVarint(n)| - 1
  {
    if k > 0 {
      VarintFlags(n / 0x80, k - 1);
    }
  }

  /** There are as many bytes as the number has digits. */
  lemma {:induction false} VarintSize(n: nat)
    ensures var size := |EncodeVarint(n)|; n < Power128(size) && (size > 1 ==> n >= Power128(size - 1))
  {
    if n >= 0x80 {
      VarintSize(n / 0x80);
      var size := |EncodeVarint(n)|;
      assert |EncodeVarint(n / 0x80)| == size - 1;
      hide EncodeVarint;
      assert Power128(size) == 0x80 * Power128(size - 1);
      assert Power128(size - 1) == 0x80 * Power128(size - 2);
    } else {
      assert Power128(1) == 0x80 * Power128(0);
    }
  }

  lemma DivideTwice(n: nat, p: nat)
    requires p > 0
    ensures n / 0x80 / p == n / (0x80 * p)
  {
    var q, r := n / 0x80 / p, n / 0x80 % p;
    var low := n % 0x80;
    assert n == q * (0x80 * p) + (r * 0x80 + low);
    assert 0 <= r * 0x80 + low < 0x80 * p;
    QuotientIsUnique(n, q, r * 0x80 + low, 0x80 * p);
  }

  lemma QuotientIsUnique(x: int, q: int, r: int, m: int)
    requires 0 <= r < m && x == q * m + r
    ensures x % m == r && x / m == q
  {
    var d := x / m - q;
    assert d * m == r - x % m;
    if d != 0 {
      MultiplesAreFar(d, m);
    }
  }

  lemma MultiplesAreFar(d: int, m: int)
    requires d != 0 && m > 0
    ensures d * m >= m || d * m <= -m
  {
    if d > 0 {
      assert (d - 1) * m >= 0;
    } else {
      assert (-d - 1) * m >= 0;
    }
  }

  /** A varint that does not end, or is too large for 64 bits, is refused. */
  lemma {:induction false} BadVarintsAreRefused(bs: Bytes, index: nat)
    requires index <= 9
    requires forall k :: 0 <= k < |bs| && k < 9 - index ==> bs[k] >= 0x80
    requires |bs| > 9 - index ==> bs[9 - index] >= 2
    ensures DecodeVarint(bs, index).None?
    decreases 10 - index
  {
    if index < 9 && bs != [] {
      BadVarintsAreRefused(bs[1..], index + 1);
    }
  }

  // ---- Records

  datatype Record =
    | Varint(tag: nat, value: u64)
    | Fixed64(tag: nat, raw: Bytes)
    | Delimited(tag: nat, content: Bytes)
    | Fixed32(tag: nat, raw: Bytes)
  {
    predicate WellFormed() {
      1 <= tag < 0x2000_0000 &&
      match this
      case Varint(_, _) => true
      case Fixed64(_, raw) => |raw| == 8
      case Delimited(_, content) => |content| < TWO64
      case Fixed32(_, raw) => |raw| == 4
    }

    function WireType(): nat {
      match this
      case Varint(_, _) => 0
      case Fixed64(_, _) => 1
      case Delimited(_, _) => 2
      case Fixed32(_, _) => 5
    }
  }

  function EncodeRecord(r: Record): (bs: Bytes)
    ensures bs != []
  {
    EncodeVarint(r.tag * 8 + r.WireType()) + EncodeContent(r)
  }

  function EncodeContent(r: Record): Bytes {
    match r
    case Varint(_, value) => EncodeVarint(value)
    case Fixed64(_, raw) => raw
    case Delimited(_, content) => EncodeVarint(|content|) + content
    case Fixed32(_, raw) => raw
  }

  /** The key in front of a record is eight times the tag plus the number of the wire type. */
  lemma RecordLayout(tag: nat, value: u64, content: Bytes)
    ensures EncodeRecord(Varint(tag, value)) == EncodeVarint(8 * tag) + EncodeVarint(value)
    ensures EncodeRecord(Fixed64(tag, content)) == EncodeVarint(8 * tag + 1) + content
    ensures EncodeRecord(Delimited(tag, content)) == EncodeVarint(8 * tag + 2) + (EncodeVarint(|content|) + content)
    ensures EncodeRecord(Fixed32(tag, content)) == EncodeVarint(8 * tag + 5) + content
  {
  }

  function EncodeRecords(rs: seq<Record>): Bytes {
    if rs == [] then [] else EncodeRecord(rs[0]) + EncodeRecords(rs[1..])
  }

  /** The first record of `bs` and the bytes after it; None when the bytes are malformed or cut short. */
  function ParseRecord(bs: Bytes): (r: Option<(Record, Bytes)>)
    ensures r.Some? ==> |r.value.1| < |bs|
  {
    RoomAtStart();
    match DecodeVarint(bs)
    case None => None
    case Some((key, rest)) =>
      var tag := key / 8;
      if key >= TWO32 || tag == 0 then None
      else if key % 8 == 0 then
        match DecodeVarint(rest) {
          case None => None
          case Some((value, tail)) => Some((Varint(tag, value), tail))
        }
      else if key % 8 == 1 then
        if |rest| < 8 then None else Some((Fixed64(tag, rest[..8]), rest[8..]))
      else if key % 8 == 2 then
        match DecodeVarint(rest) {
          case None => None
          case Some((length, tail)) =>
            if length > |tail| then None else Some((Delimited(tag, tail[..length]), tail[length..]))
        }
      else if key % 8 == 5 then
        if |rest| < 4 then None else Some((Fixed32(tag, rest[..4]), rest[4..]))
      else None
  }

  function ParseRecords(bs: Bytes): Option<seq<Record>>
    decreases |bs|
  {
    if bs == [] then Some([])
    else
      match ParseRecord(bs)
      case None => None
      case Some((r, rest)) =>
        Prepend([r], ParseRecords(rest))
  }

  function Prepend(rs: seq<Record>, more: Option<seq<Record>>): Option<seq<Record>> {
    match more
    case None => None
    case Some(tail) => Some(rs + tail)
  }

  lemma PrependNothing(more: Option<seq<Record>>)
    ensures Prepend([], more) == more
  {
    if more.Some? {
      assert [] + more.value == more.value;
    }
  }

  lemma PrependTwice(a: seq<Record>, b: seq<Record>, more: Option<seq<Record>>)
    ensures Prepend(a, Prepend(b, more)) == Prepend(a + b, more)
  {
    if more.Some? {
      assert a + (b + more.value) == a + b + more.value;
    }
  }

  /** A well-formed record is read back exactly, and nothing after it is touched. */
  lemma RecordRoundTrip(r: Record, rest: Bytes)
    requires r.WellFormed()
    ensures ParseRecord(EncodeRecord(r) + rest) == Some((r, rest))
  {
    hide EncodeVarint, DecodeVarint;
    RoomAtStart();
    var key := r.tag * 8 + r.WireType();
    var content := EncodeContent(r);
    assert EncodeRecord(r) + rest == EncodeVarint(key) + (content + rest);
    VarintRoundTrip(key, content + rest, 0);
    assert key / 8 == r.tag && key % 8 == r.WireType();
    match r
    case Varint(_, value) =>
      VarintRoundTrip(value, rest, 0);
    case Fixed64(_, raw) =>
    case Delimited(_, inner) =>
      assert content + rest == EncodeVarint(|inner|) + (inner + rest);
      VarintRoundTrip(|inner|, inner + rest, 0);
    case Fixed32(_, raw) =>
  }

  /** So is a record that is longer than what is left of the message. */
  lemma CutRecordsAreRefused(tag: nat, length: nat, rest: Bytes)
    requires 1 <= tag < 0x2000_0000 && |rest| < length < TWO64
    ensures ParseRecord(EncodeVarint(8 * tag + 2) + (EncodeVarint(length) + rest)).None?
  {
    hide EncodeVarint, DecodeVarint;
    RoomAtStart();
    VarintRoundTrip(8 * tag + 2, EncodeVarint(length) + rest, 0);
    VarintRoundTrip(length, rest, 0);
  }

  lemma ParseAfterRecord(r: Record, rs: seq<Record>, body: Bytes, rest: Bytes)
    requires r.WellFormed()
    requires ParseRecords(body + rest) == Prepend(rs, ParseRecords(rest))
    ensures ParseRecords(EncodeRecord(r) + body + rest) == Prepend([r] + rs, ParseRecords(rest))
  {
    RecordRoundTrip(r, body + rest);
    PrependTwice([r], rs, ParseRecords(rest));
    assert EncodeRecord(r) + body + rest == EncodeRecord(r) + (body + rest);
  }

  /** Reading a message that starts with known records yields those records first. */
  lemma {:induction false} RecordsRoundTrip(rs: seq<Record>, rest: Bytes)
    requires forall r <- rs :: r.WellFormed()
    ensures ParseRecords(EncodeRecords(rs) + rest) == Prepend(rs, ParseRecords(rest))
  {
    if rs == [] {
      assert EncodeRecords(rs) + rest == rest;
      PrependNothing(ParseRecords(rest));
    } else {
      RecordsRoundTrip(rs[1..], rest);
      ParseAfterRecord(rs[0], rs[1..], EncodeRecords(rs[1..]), rest);
      assert [rs[0]] + rs[1..] == rs;
    }
  }

  lemma {:induction false} EncodeRecordsConcat(a: seq<Record>, b: seq<Record>)
    ensures EncodeRecords(a + b) == EncodeRecords(a) + EncodeRecords(b)
  {
    if a == [] {
      assert a + b == b;
    } else {
      assert (a + b)[1..] == a[1..] + b;
      EncodeRecordsConcat(a[1..], b);
    }
  }

  lemma EncodeFirst(r: Record, rs: seq<Record>)
    ensures EncodeRecords([r] + rs) == EncodeRecord(r) + EncodeRecords(rs)
  {
    assert ([r] + rs)[1..] == rs;
  }

  /** Nothing inside a message is longer than the message. */
  lemma {:induction false} ContentFits(rs: seq<Record>)
    ensures forall r <- rs :: r.Delimited? ==> |r.content| <= |EncodeRecords(rs)|
  {
    if rs != [] {
      ContentFits(rs[1..]);
    }
  }
}
