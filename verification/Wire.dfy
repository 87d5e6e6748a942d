/** The wire format of tagged records: tags in base 128, integers in nibbles. */
module Wire {
  import opened Wrappers
  import opened Bytes

  type Nibble = x: int | 0 <= x < 16

  const UINT32_MAX := 0xffff_ffff
  const UINT64_MAX := 0xffff_ffff_ffff_ffff
  const INT_MAX := 0x7fff_ffff

  /** The nibbles of a number, least significant first. */
  function Nibbles(n: nat): seq<Nibble>
  {
    if n == 0 then [] else [n % 16] + Nibbles(n / 16)
  }

  function FromNibbles(ns: seq<Nibble>): nat
  {
    if ns == [] then 0 else ns[0] + 16 * FromNibbles(ns[1..])
  }

  function TwoNibbles(high: int, low: int): Byte
    requires 0 <= high < 16 && 0 <= low < 16
  {
    16 * high + low
  }

  /** Two nibbles to a byte, and a padding nibble where one is missing. */
  function Pack(ns: seq<Nibble>): seq<Byte>
  {
    if ns == [] then []
    else if |ns| == 1 then [TwoNibbles(ns[0], 0)]
    else [TwoNibbles(ns[0], ns[1])] + Pack(ns[2..])
  }

  function NibbleAt(s: seq<Byte>, i: nat): Nibble
    requires i / 2 < |s|
  {
    if i % 2 == 0 then s[i / 2] / 16 else s[i / 2] % 16
  }

  lemma {:induction false} PackAt(ns: seq<Nibble>, i: nat)
    requires i / 2 < (|ns| + 1) / 2
    ensures |Pack(ns)| == (|ns| + 1) / 2
    ensures NibbleAt(Pack(ns), i) == if i < |ns| then ns[i] else 0
  {
    if |ns| > 2 {
      PackAt(ns[2..], if i >= 2 then i - 2 else 0);
    }
  }

  lemma {:induction false} FromOwnNibbles(n: nat)
    ensures FromNibbles(Nibbles(n)) == n
  {
    if n > 0 {
      FromOwnNibbles(n / 16);
    }
  }

  function Pow(b: nat, k: nat): nat
  {
    if k == 0 then 1 else b * Pow(b, k - 1)
  }

  lemma {:induction false} FewNibbles(n: nat, k: nat)
    requires n < Pow(16, k)
    ensures |Nibbles(n)| <= k
  {
    if n > 0 {
      FewNibbles(n / 16, k - 1);
    }
  }

  lemma Pow16()
    ensures Pow(16, 8) == UINT32_MAX + 1 && Pow(16, 16) == UINT64_MAX + 1
  {
    assert Pow(16, 4) == 0x1_0000;
    assert Pow(16, 8) == 0x1_0000_0000;
    assert Pow(16, 12) == 0x1_0000_0000_0000;
  }

  /** The count of nibbles less one, and the nibbles. */
  function IntNibbles(n: nat): (ns: seq<Nibble>)
    requires n <= UINT64_MAX
    ensures 1 <= |ns| <= 17 && (n <= UINT32_MAX ==> |ns| <= 9)
  {
    Pow16();
    FewNibbles(n, 16);
    assert n <= UINT32_MAX ==> |Nibbles(n)| <= 8 by {
      if n <= UINT32_MAX {
        FewNibbles(n, 8);
      }
    }
    [if n > 0 then |Nibbles(n)| - 1 else 0] + Nibbles(n)
  }

  /** encode_int_internal and encode_int64_internal. */
  function EncodeInt(n: nat): (s: seq<Byte>)
    requires n <= UINT64_MAX
    ensures 1 <= |s| <= 9 && (n <= UINT32_MAX ==> |s| <= 5)
  {
    PackAt(IntNibbles(n), 0);
    Pack(IntNibbles(n))
  }

  /** Nibbles 1 to k of the bytes. */
  function IntPart(s: seq<Byte>, k: nat): (ns: seq<Nibble>)
    requires k / 2 < |s|
    ensures |ns| == k
  {
    seq(k, i requires 0 <= i < k => NibbleAt(s, i + 1))
  }

  /** decode_int_internal and decode_int64_internal: the number and the length of its encoding. */
  function DecodeInt(s: seq<Byte>, maxNibbles: nat): (r: Option<(nat, nat)>)
    ensures r.Some? ==> 1 <= r.value.1 <= |s|
  {
    if s == [] then None
    else
      var nibbles := s[0] / 16 + 1;
      if nibbles > maxNibbles || nibbles / 2 + 1 > |s| then None
      else Some((FromNibbles(IntPart(s, nibbles)), nibbles / 2 + 1))
  }

  /** The nibbles from the second on are these. */
  ghost predicate Digits(s: seq<Byte>, digits: seq<Nibble>)
    requires |digits| / 2 < |s|
  {
    forall i :: 0 <= i < |digits| ==> NibbleAt(s, i + 1) == digits[i]
  }

  /** The first nibble counts those behind it, but for one, and they are the digits of the number: what decodes, and to what. */
  lemma DecodeIntIs(s: seq<Byte>, maxNibbles: nat, n: nat, k: nat)
    ensures DecodeInt(s, maxNibbles) == Some((n, k)) <==>
            exists digits: seq<Nibble> ::
              && 1 <= |digits| <= maxNibbles && k == |digits| / 2 + 1 <= |s| && NibbleAt(s, 0) == |digits| - 1
              && Digits(s, digits) && n == FromNibbles(digits)
  {
    if DecodeInt(s, maxNibbles) == Some((n, k)) {
      var digits := IntPart(s, s[0] / 16 + 1);
      assert Digits(s, digits);
    }
    forall digits: seq<Nibble> | 1 <= |digits| <= maxNibbles && k == |digits| / 2 + 1 <= |s| && NibbleAt(s, 0) == |digits| - 1
        && Digits(s, digits) && n == FromNibbles(digits)
      ensures DecodeInt(s, maxNibbles) == Some((n, k))
    {
      assert IntPart(s, |digits|) == digits;
    }
  }

  lemma {:induction false} FromFewNibbles(ns: seq<Nibble>, k: nat)
    requires |ns| <= k
    ensures FromNibbles(ns) < Pow(16, k)
  {
    if k > 0 && ns != [] {
      FromFewNibbles(ns[1..], k - 1);
    } else if k > 0 {
      FromFewNibbles(ns, k - 1);
    }
  }

  /** No other encoding of a number is shorter. */
  lemma EncodeIntShortest(n: nat, s: seq<Byte>, maxNibbles: nat)
    requires n <= UINT64_MAX && DecodeInt(s, maxNibbles).Some? && DecodeInt(s, maxNibbles).value.0 == n
    ensures |EncodeInt(n)| <= DecodeInt(s, maxNibbles).value.1
  {
    var digits := IntPart(s, s[0] / 16 + 1);
    FromFewNibbles(digits, |digits|);
    FewNibbles(n, |digits|);
    EncodedLength(n);
  }

  lemma NibbleOfEncoded(n: nat, rest: seq<Byte>, i: nat)
    requires n <= UINT64_MAX && i / 2 < |EncodeInt(n)|
    ensures NibbleAt(EncodeInt(n) + rest, i) == if i < |IntNibbles(n)| then IntNibbles(n)[i] else 0
  {
    hide Pack, IntNibbles;
    EncodedLength(n);
    PackAt(IntNibbles(n), i);
    assert NibbleAt(EncodeInt(n) + rest, i) == NibbleAt(EncodeInt(n), i);
  }

  lemma EncodedLength(n: nat)
    requires n <= UINT64_MAX
    ensures |EncodeInt(n)| == (|IntNibbles(n)| + 1) / 2
  {
    hide Pack, IntNibbles;
    PackAt(IntNibbles(n), 0);
  }

  /** The digits of a number are its nibbles, and 0 has one. */
  lemma PartOfEncoded(n: nat, rest: seq<Byte>)
    requires n <= UINT64_MAX
    ensures var k: nat := (IntNibbles(n)[0] as int) + 1;
            && |EncodeInt(n)| == k / 2 + 1 && (EncodeInt(n) + rest)[0] / 16 + 1 == k
            && FromNibbles(IntPart(EncodeInt(n) + rest, k)) == n
  {
    var ns := IntNibbles(n);
    var k: nat := (ns[0] as int) + 1;
    EncodedLength(n);
    NibbleOfEncoded(n, rest, 0);
    var part := IntPart(EncodeInt(n) + rest, k);
    forall i | 0 <= i < k ensures part[i] == if i + 1 < |ns| then ns[i + 1] else 0 {
      NibbleOfEncoded(n, rest, i + 1);
    }
    if n == 0 {
      assert part == [0];
      assert FromNibbles([0]) == 0 by { assert ([0])[1..] == []; }
    } else {
      assert part == Nibbles(n);
      FromOwnNibbles(n);
    }
  }

  /** A number comes back from its encoding, whatever follows. */
  lemma DecodeEncodedInt(n: nat, rest: seq<Byte>, maxNibbles: nat)
    requires (n <= UINT64_MAX && maxNibbles >= 16) || (n <= UINT32_MAX && maxNibbles >= 8)
    ensures DecodeInt(EncodeInt(n) + rest, maxNibbles) == Some((n, |EncodeInt(n)|))
  {
    PartOfEncoded(n, rest);
  }

  /** evtag_encode_tag: seven bits to a byte, the high bit telling that more follow. */
  function EncodeTag(tag: nat): seq<Byte>
  {
    if tag < 128 then [tag] else [128 + tag % 128] + EncodeTag(tag / 128)
  }

  lemma {:induction false} TagLength(tag: nat, k: nat)
    requires tag < Pow(128, k) && k >= 1
    ensures 1 <= |EncodeTag(tag)| <= k
  {
    if tag >= 128 {
      TagLength(tag / 128, k - 1);
    }
  }

  lemma TagAtMostFive(tag: nat)
    requires tag <= UINT32_MAX
    ensures 1 <= |EncodeTag(tag)| <= 5
  {
    assert Pow(128, 3) == 0x20_0000;
    assert Pow(128, 5) == 0x8_0000_0000;
    TagLength(tag, 5);
  }

  /** The first byte without the high bit, among the first five. */
  function TagEnd(s: seq<Byte>, from: nat): (r: Option<nat>)
    requires from <= 5
    ensures r.Some? ==> from <= r.value < 5 && r.value < |s|
    decreases 5 - from
  {
    if from == 5 || from >= |s| then None
    else if s[from] < 128 then Some(from)
    else TagEnd(s, from + 1)
  }

  function FromTagBytes(s: seq<Byte>): nat
  {
    if s == [] then 0 else s[0] % 128 + 128 * FromTagBytes(s[1..])
  }

  /** decode_tag_internal: the tag, modulo 2^32, and the length of its encoding. */
  function DecodeTag(s: seq<Byte>): (r: Option<(nat, nat)>)
    ensures r.Some? ==> 1 <= r.value.1 <= |s|
  {
    match TagEnd(s, 0)
    case None => None
    case Some(i) => Some((FromTagBytes(s[..i + 1]) % (UINT32_MAX + 1), i + 1))
  }

  lemma {:induction false} TagEndIs(s: seq<Byte>, from: nat, k: nat)
    requires from <= 5
    ensures TagEnd(s, from) == Some(k) <==> from <= k < 5 && k < |s| && s[k] < 128 && forall i :: from <= i < k ==> s[i] >= 128
    decreases 5 - from
  {
    if from < 5 && from < |s| && s[from] >= 128 {
      TagEndIs(s, from + 1, k);
    }
  }

  /** A tag is up to five bytes of which just the last has no high bit; their low bits are the number, modulo 2^32. */
  lemma DecodeTagIs(s: seq<Byte>, tag: nat, k: nat)
    ensures DecodeTag(s) == Some((tag, k)) <==>
            && 1 <= k <= 5 && k <= |s| && s[k - 1] < 128 && (forall i :: 0 <= i < k - 1 ==> s[i] >= 128)
            && tag == FromTagBytes(s[..k]) % (UINT32_MAX + 1)
  {
    hide FromTagBytes;
    if k > 0 {
      TagEndIs(s, 0, k - 1);
    }
  }

  lemma {:induction false} FromFewTagBytes(s: seq<Byte>)
    ensures FromTagBytes(s) < Pow(128, |s|)
  {
    if s != [] {
      FromFewTagBytes(s[1..]);
    }
  }

  /** No other encoding of a tag is shorter. */
  lemma EncodeTagShortest(tag: nat, s: seq<Byte>)
    requires s != [] && FromTagBytes(s) == tag
    ensures |EncodeTag(tag)| <= |s|
  {
    FromFewTagBytes(s);
    TagLength(tag, |s|);
  }

  lemma {:induction false} TagEndsThere(tag: nat, s: seq<Byte>, from: nat)
    requires from <= |s| && from + |EncodeTag(tag)| <= 5 && EncodeTag(tag) <= s[from..]
    ensures TagEnd(s, from) == Some(from + |EncodeTag(tag)| - 1)
    decreases tag
  {
    assert s[from] == s[from..][0];
    if tag >= 128 {
      assert s[from + 1..] == s[from..][1..];
      TagEndsThere(tag / 128, s, from + 1);
    }
  }

  lemma {:induction false} FromOwnTagBytes(tag: nat)
    ensures FromTagBytes(EncodeTag(tag)) == tag
  {
    if tag >= 128 {
      FromOwnTagBytes(tag / 128);
    }
  }

  /** A tag comes back from its encoding, whatever follows. */
  lemma DecodeEncodedTag(tag: nat, rest: seq<Byte>)
    requires tag <= UINT32_MAX
    ensures DecodeTag(EncodeTag(tag) + rest) == Some((tag, |EncodeTag(tag)|))
  {
    var s := EncodeTag(tag) + rest;
    TagAtMostFive(tag);
    assert s[0..] == s;
    TagEndsThere(tag, s, 0);
    assert s[..|EncodeTag(tag)|] == EncodeTag(tag);
    FromOwnTagBytes(tag);
  }

  /** The bytes that decode_tag_internal looks at lie among the five that it pulls up. */
  predicate TagInside(s: seq<Byte>)
  {
    |s| <= 5 || exists i :: 0 <= i < 5 && s[i] < 128
  }

  lemma {:induction false} NoEnd(s: seq<Byte>, from: nat)
    requires from <= 5
    ensures TagEnd(s, from).None? <==> forall i :: from <= i < 5 && i < |s| ==> s[i] >= 128
    decreases 5 - from
  {
    if from < 5 && from < |s| {
      NoEnd(s, from + 1);
    }
  }

  lemma EndsInside(s: seq<Byte>)
    ensures DecodeTag(s).Some? ==> TagInside(s)
  {
    NoEnd(s, 0);
  }

  /** A tag that evtag_encode_tag wrote is read inside, whatever follows. */
  lemma EncodedInside(tag: nat, rest: seq<Byte>)
    requires tag <= UINT32_MAX
    ensures TagInside(EncodeTag(tag) + rest)
  {
    DecodeEncodedTag(tag, rest);
    NoEnd(EncodeTag(tag) + rest, 0);
  }

  /** One record: tag, length and payload. */
  datatype Record = Record(tag: nat, payload: seq<Byte>)

  predicate Sendable(r: Record)
  {
    r.tag <= UINT32_MAX && |r.payload| <= INT_MAX
  }

  /** evtag_marshal; the length is written modulo 2^32. */
  function Marshal(r: Record): (s: seq<Byte>)
    ensures |s| > |r.payload|
  {
    EncodeTag(r.tag) + EncodeInt(To32(|r.payload|)) + r.payload
  }

  /** (ev_uint32_t) n. */
  function To32(n: nat): (m: nat)
    ensures m <= UINT32_MAX && (n <= UINT32_MAX ==> m == n)
  {
    n % (UINT32_MAX + 1)
  }

  /** evtag_unmarshal_header: tag, payload length, and length of the header. A length above INT_MAX reads as an error. */
  function UnmarshalHeader(s: seq<Byte>): (r: Option<(nat, nat, nat)>)
    ensures r.Some? ==> 1 <= r.value.2 && r.value.2 + r.value.1 <= |s|
  {
    match DecodeTag(s)
    case None => None
    case Some((tag, n)) =>
      match DecodeInt(s[n..], 8)
      case None => None
      case Some((len, m)) => if len > |s| - n - m || len > INT_MAX then None else Some((tag, len, n + m))
  }

  /** evtag_unmarshal: the first record, and what follows it. */
  function Unmarshal(s: seq<Byte>): (r: Option<(Record, seq<Byte>)>)
    ensures r.Some? ==> |r.value.1| < |s| && |r.value.0.payload| < |s|
  {
    match UnmarshalHeader(s)
    case None => None
    case Some((tag, len, h)) => Some((Record(tag, s[h..h + len]), s[h + len..]))
  }

  lemma HeaderOfMarshaled(r: Record, rest: seq<Byte>)
    requires Sendable(r)
    ensures UnmarshalHeader(Marshal(r) + rest) == Some((r.tag, |r.payload|, |Marshal(r)| - |r.payload|))
  {
    hide EncodeInt, EncodeTag, DecodeInt, DecodeTag, To32;
    var t, e := EncodeTag(r.tag), EncodeInt(|r.payload|);
    var s := Marshal(r) + rest;
    assert s == t + (e + (r.payload + rest));
    DecodeEncodedTag(r.tag, e + (r.payload + rest));
    assert s[|t|..] == e + (r.payload + rest);
    DecodeEncodedInt(|r.payload|, r.payload + rest, 8);
  }

  /** A record comes back from its encoding, with exactly what follows it. */
  lemma UnmarshalMarshaled(r: Record, rest: seq<Byte>)
    requires Sendable(r)
    ensures Unmarshal(Marshal(r) + rest) == Some((r, rest))
  {
    HeaderOfMarshaled(r, rest);
    var s, h := Marshal(r) + rest, |Marshal(r)| - |r.payload|;
    assert s[h..h + |r.payload|] == r.payload;
    assert s[h + |r.payload|..] == rest;
  }

  /** The record in front, of any length, and what follows it. */
  ghost function FirstRecord(s: seq<Byte>): (r: Option<(Record, seq<Byte>)>)
    ensures r.Some? ==> |r.value.1| < |s| && |r.value.0.payload| < |s|
  {
    match DecodeTag(s)
    case None => None
    case Some((tag, n)) =>
      match DecodeInt(s[n..], 8)
      case None => None
      case Some((len, m)) =>
        var rest := s[n..][m..];
        if len > |rest| then None else Some((Record(tag, rest[..len]), rest[len..]))
  }

  lemma UnmarshalFirst(s: seq<Byte>)
    ensures Unmarshal(s) == match FirstRecord(s)
                            case None => None
                            case Some((r, rest)) => if |r.payload| > INT_MAX then None else Some((r, rest))
  {
    hide DecodeInt;
    if FirstRecord(s).Some? {
      var n := DecodeTag(s).value.1;
      var (len, m) := DecodeInt(s[n..], 8).value;
      assert s[n..][m..] == s[n + m..];
      assert s[n + m..][..len] == s[n + m..n + m + len] && s[n + m..][len..] == s[n + m + len..];
    }
  }

  /** The records that the bytes split into. */
  ghost function Records(s: seq<Byte>): Option<seq<Record>>
    decreases |s|
  {
    if s == [] then Some([])
    else
      match FirstRecord(s)
      case None => None
      case Some((r, rest)) =>
        match Records(rest)
        case None => None
        case Some(rs) => Some([r] + rs)
  }

  /** What is marshaled splits into its records. */
  lemma {:induction false} RecordsOfMarshaled(rs: seq<Record>)
    requires forall r :: r in rs ==> Sendable(r)
    ensures Records(MarshalAll(rs)) == Some(rs)
  {
    hide Marshal, FirstRecord;
    if rs != [] {
      UnmarshalMarshaled(rs[0], MarshalAll(rs[1..]));
      UnmarshalFirst(MarshalAll(rs));
      RecordsOfMarshaled(rs[1..]);
      assert rs == [rs[0]] + rs[1..];
    }
  }

  function MarshalAll(rs: seq<Record>): (s: seq<Byte>)
    ensures s == [] <==> rs == []
  {
    if rs == [] then [] else Marshal(rs[0]) + MarshalAll(rs[1..])
  }

  /** A stream of records splits in one way only. */
  lemma {:induction false} SplitsOneWay(rs: seq<Record>, qs: seq<Record>)
    requires forall r :: r in rs ==> Sendable(r)
    requires forall r :: r in qs ==> Sendable(r)
    requires MarshalAll(rs) == MarshalAll(qs)
    ensures rs == qs
  {
    if rs != [] {
      UnmarshalMarshaled(rs[0], MarshalAll(rs[1..]));
      UnmarshalMarshaled(qs[0], MarshalAll(qs[1..]));
      SplitsOneWay(rs[1..], qs[1..]);
      assert rs == [rs[0]] + rs[1..] && qs == [qs[0]] + qs[1..];
    }
  }

  /** evtag_unmarshal_int and evtag_unmarshal_int64: the number is decoded from all that follows the header. */
  function UnmarshalInt(s: seq<Byte>, needTag: nat, maxNibbles: nat): (r: Option<(nat, seq<Byte>)>)
    ensures r.Some? ==> |r.value.1| < |s|
  {
    match DecodeTag(s)
    case None => None
    case Some((tag, n)) =>
      if tag != needTag then None
      else
        match DecodeInt(s[n..], 8)
        case None => None
        case Some((len, m)) =>
          var rest := s[n + m..];
          if |rest| < len then None
          else
            match DecodeInt(rest, maxNibbles)
            case None => None
            case Some((number, k)) => if k > len then None else Some((number, rest[len..]))
  }

  /** Only its own bytes decide about a number. */
  lemma DecodeIntPrefix(s: seq<Byte>, len: nat, maxNibbles: nat)
    requires len <= |s|
    ensures DecodeInt(s[..len], maxNibbles) == match DecodeInt(s, maxNibbles)
                                               case None => None
                                               case Some((n, k)) => if k > len then None else Some((n, k))
  {
    hide FromNibbles;
    if len > 0 {
      var nibbles: nat := s[0] / 16 + 1;
      if nibbles / 2 + 1 <= len {
        forall i: nat | i <= nibbles ensures NibbleAt(s[..len], i) == NibbleAt(s, i) {
        }
        assert IntPart(s[..len], nibbles) == IntPart(s, nibbles);
      }
    }
  }

  /** A number is read from a record with its tag whose payload begins with it. */
  lemma UnmarshalIntIs(s: seq<Byte>, needTag: nat, maxNibbles: nat)
    ensures UnmarshalInt(s, needTag, maxNibbles) ==
            match FirstRecord(s)
            case None => None
            case Some((r, rest)) =>
              if r.tag != needTag then None
              else
                match DecodeInt(r.payload, maxNibbles)
                case None => None
                case Some((n, _)) => Some((n, rest))
  {
    hide DecodeInt;
    if DecodeTag(s).Some? {
      var n := DecodeTag(s).value.1;
      if DecodeInt(s[n..], 8).Some? {
        var (len, m) := DecodeInt(s[n..], 8).value;
        assert s[n..][m..] == s[n + m..];
        if len <= |s[n + m..]| {
          DecodeIntPrefix(s[n + m..], len, maxNibbles);
        }
      }
    }
  }

  /** A number comes back from its record, with exactly what follows it. */
  lemma UnmarshalMarshaledInt(tag: nat, n: nat, rest: seq<Byte>, maxNibbles: nat)
    requires tag <= UINT32_MAX && ((n <= UINT64_MAX && maxNibbles >= 16) || (n <= UINT32_MAX && maxNibbles >= 8))
    ensures UnmarshalInt(Marshal(Record(tag, EncodeInt(n))) + rest, tag, maxNibbles) == Some((n, rest))
  {
    hide EncodeInt, EncodeTag, DecodeInt, DecodeTag, To32;
    var e := EncodeInt(n);
    var t, l := EncodeTag(tag), EncodeInt(|e|);
    var s := Marshal(Record(tag, e)) + rest;
    assert s == t + (l + (e + rest));
    DecodeEncodedTag(tag, l + (e + rest));
    assert s[|t|..] == l + (e + rest);
    DecodeEncodedInt(|e|, e + rest, 8);
    assert s[|t| + |l|..] == e + rest;
    DecodeEncodedInt(n, rest, maxNibbles);
    assert (e + rest)[|e|..] == rest;
  }

  /** evtag_unmarshal_fixed; with no length given, evtag_unmarshal_string. */
  function UnmarshalFixed(s: seq<Byte>, needTag: nat, length: Option<nat>): (r: Option<(seq<Byte>, seq<Byte>)>)
    ensures r.Some? ==> |r.value.1| < |s|
  {
    match Unmarshal(s)
    case None => None
    case Some((r, rest)) =>
      if r.tag != needTag || (length.Some? && |r.payload| != length.value) then None else Some((r.payload, rest))
  }

  /** evtag_payload_length. */
  function PayloadLength(s: seq<Byte>): Option<nat>
  {
    match DecodeTag(s)
    case None => None
    case Some((_, n)) =>
      match DecodeInt(s[n..], 8)
      case None => None
      case Some((len, _)) => Some(len)
  }

  lemma PayloadLengthOfMarshaled(r: Record, rest: seq<Byte>)
    requires Sendable(r)
    ensures PayloadLength(Marshal(r) + rest) == Some(|r.payload|)
  {
    HeaderOfMarshaled(r, rest);
  }
}
