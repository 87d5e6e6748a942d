/** evtag: tagged records in an evbuffer. */
module Tagging {
  import opened Wrappers
  import opened Bytes
  import opened EvBuffers
  import opened Wire

  lemma SameNibbles(s: seq<Byte>, t: seq<Byte>)
    requires |s| == |t| && forall i: nat :: i < 2 * |s| ==> NibbleAt(s, i) == NibbleAt(t, i)
    ensures s == t
  {
    forall i | 0 <= i < |s| ensures s[i] == t[i] {
      assert NibbleAt(s, 2 * i) == NibbleAt(t, 2 * i) && NibbleAt(s, 2 * i + 1) == NibbleAt(t, 2 * i + 1);
    }
  }

  /** Writes one nibble of data. */
  method SetNibble(data: array<Byte>, i: nat, x: Nibble)
    requires i / 2 < data.Length
    modifies data
    ensures NibbleAt(data[..], i) == x
    ensures forall j: nat :: j < 2 * data.Length && j != i ==> NibbleAt(data[..], j) == NibbleAt(old(data[..]), j)
  {
    var b := data[i / 2];
    data[i / 2] := if i % 2 == 0 then TwoNibbles(x, b % 16) else TwoNibbles(b / 16, x);
  }

  /** encode_int_internal on 5 bytes, encode_int64_internal on 9. */
  method EncodeIntInternal(data: array<Byte>, n: nat) returns (len: nat)
    requires n <= UINT64_MAX && (data.Length == 9 || (n <= UINT32_MAX && data.Length == 5))
    modifies data
    ensures len <= data.Length && data[..len] == EncodeInt(n)
  {
    forall i | 0 <= i < data.Length {
      data[i] := 0;
    }
    var off, number := 1, n;
    ghost var ns := Nibbles(n);
    assert |IntNibbles(n)| == |ns| + 1;
    while number > 0
      invariant 1 <= off <= |ns| + 1 && Nibbles(number) == ns[off - 1..]
      invariant forall j: nat :: j < 2 * data.Length ==>
                  NibbleAt(data[..], j) == if 0 < j < off then ns[j - 1] else 0
      decreases number
    {
      SetNibble(data, off, number % 16);
      number := number / 16;
      off := off + 1;
    }
    SetNibble(data, 0, if off > 2 then off - 2 else 0);
    len := (off + 1) / 2;
    NibblesDone(data[..], n, len);
  }

  lemma NibblesDone(s: seq<Byte>, n: nat, len: nat)
    requires n <= UINT64_MAX && len == (|IntNibbles(n)| + 1) / 2 <= |s|
    requires forall j: nat :: j < 2 * |s| ==> NibbleAt(s, j) == if j < |IntNibbles(n)| then IntNibbles(n)[j] else 0
    ensures s[..len] == EncodeInt(n)
  {
    hide IntNibbles, Pack;
    EncodedLength(n);
    forall j: nat | j < 2 * len ensures NibbleAt(s[..len], j) == NibbleAt(EncodeInt(n), j) {
      PackAt(IntNibbles(n), j);
      assert NibbleAt(s[..len], j) == NibbleAt(s, j);
    }
    SameNibbles(s[..len], EncodeInt(n));
  }

  lemma {:induction false} FromNibblesFront(ns: seq<Nibble>, k: nat)
    requires k < |ns|
    ensures FromNibbles(ns[k..]) == ns[k] + 16 * FromNibbles(ns[k + 1..])
  {
    assert ns[k..][1..] == ns[k + 1..];
  }

  /** The loop of decode_int_internal and decode_int64_internal: the last nibble first. */
  method DecodeNibbles(data: seq<Byte>, count: nat) returns (number: nat)
    requires count / 2 < |data|
    ensures number == FromNibbles(IntPart(data, count))
  {
    number := 0;
    var nibbles := count;
    ghost var ns := IntPart(data, count);
    while nibbles > 0
      invariant 0 <= nibbles <= count && number == FromNibbles(ns[nibbles..])
    {
      FromNibblesFront(ns, nibbles - 1);
      if nibbles % 2 == 1 {
        number := number * 16 + data[nibbles / 2] % 16;
      } else {
        number := number * 16 + data[nibbles / 2] / 16;
      }
      nibbles := nibbles - 1;
    }
    assert ns[0..] == ns;
  }

  /** evtag_encode_tag, without the evbuffer. */
  method EncodeTagInternal(data: array<Byte>, n: nat) returns (bytes: nat)
    requires n <= UINT32_MAX && data.Length == 5
    modifies data
    ensures 1 <= bytes <= 5 && data[..bytes] == EncodeTag(n)
  {
    TagAtMostFive(n);
    bytes := 0;
    var tag := n;
    var more := true;
    while more
      invariant bytes <= |EncodeTag(n)|
      invariant if more then data[..bytes] + EncodeTag(tag) == EncodeTag(n) else data[..bytes] == EncodeTag(n)
      decreases more, tag
    {
      var lower := tag % 128;
      ghost var before := data[..bytes];
      ghost var t := tag;
      tag := tag / 128;
      if tag != 0 {
        lower := lower + 128;
      }
      data[bytes] := lower;
      bytes := bytes + 1;
      assert data[..bytes] == before + [lower];
      assert EncodeTag(t) == if tag == 0 then [lower] else [lower] + EncodeTag(tag);
      more := tag != 0;
    }
  }

  lemma {:induction false} FromTagBytesSnoc(s: seq<Byte>, x: Byte)
    ensures FromTagBytes(s + [x]) == FromTagBytes(s) + x % 128 * Pow(128, |s|)
  {
    if s == [] {
      assert ([x])[1..] == [] && s + [x] == [x];
    } else {
      FromTagBytesSnoc(s[1..], x);
      assert (s + [x])[1..] == s[1..] + [x];
      calc {
        FromTagBytes(s + [x]);
        s[0] % 128 + 128 * (FromTagBytes(s[1..]) + x % 128 * Pow(128, |s| - 1));
        { Regroup(128, x % 128, Pow(128, |s| - 1)); }
        s[0] % 128 + 128 * FromTagBytes(s[1..]) + x % 128 * (128 * Pow(128, |s| - 1));
      }
    }
  }

  lemma Regroup(a: int, x: int, p: int)
    ensures a * (x * p) == x * (a * p)
  {
  }

  lemma ModAdd(a: nat, b: nat)
    ensures (a % (UINT32_MAX + 1) + b) % (UINT32_MAX + 1) == (a + b) % (UINT32_MAX + 1)
  {
  }

  /**
   * The loop of decode_tag_internal, which counts to the length of the buffer although only the first bytes are
   * pulled up. It leaves them exactly when the buffer is longer and all of them carry the high bit; the sixth turn
   * would also shift a 32-bit number by 35, which C leaves undefined wherever the byte comes from.
   */
  method DecodeTagBytes(data: seq<Byte>, len: nat) returns (inside: bool, done: bool, number: nat, count: nat)
    requires |data| == if len < 5 then len else 5
    ensures !inside <==> len > 5 && forall i :: 0 <= i < 5 ==> data[i] >= 128
    ensures done <==> TagEnd(data, 0).Some?
    ensures done ==> count == TagEnd(data, 0).value + 1 && number == FromTagBytes(data[..count]) % (UINT32_MAX + 1)
  {
    inside, done, number, count := true, false, 0, 0;
    var weight: nat := 1;
    NoEnd(data, 0);
    while count < len
      invariant count <= |data| && weight == Pow(128, count)
      invariant number == FromTagBytes(data[..count]) % (UINT32_MAX + 1) && TagEnd(data, 0) == TagEnd(data, count)
    {
      if count >= |data| {
        inside := false;
        break;
      }
      var lower: nat := data[count];
      assert data[..count + 1] == data[..count] + [lower];
      FromTagBytesSnoc(data[..count], lower);
      ModAdd(FromTagBytes(data[..count]), lower % 128 * weight);
      number := (number + lower % 128 * weight) % (UINT32_MAX + 1);
      count := count + 1;
      weight := 128 * weight;
      if lower < 128 {
        done := true;
        break;
      }
    }
  }

  /** Six bytes that end a tag, which the loop does not reach: it fails to be an error and to be a tag. */
  method SixByteTag(data: seq<Byte>) returns (inside: bool)
    requires data == [0x80, 0x80, 0x80, 0x80, 0x80]
    ensures !inside && DecodeTag(data + [0x01]).None?
  {
    var done, number, count;
    inside, done, number, count := DecodeTagBytes(data, 6);
    NoEnd(data + [0x01], 0);
  }

  /** evbuffer_pullup, and a look at the bytes it makes contiguous. */
  method Peek(buf: EvBuffer, n: nat) returns (data: seq<Byte>)
    requires Ready(buf) && n <= |buf.Contents()|
    modifies buf, Nodes(buf.chains), Buffers(buf.chains)
    ensures Ready(buf) && buf.Grown() && buf.Contents() == old(buf.Contents()) && data == buf.Contents()[..n]
  {
    var ok := buf.Pullup(n);
    if ok {
      data := buf.first.Bytes(n, buf.chunks[0]);
    } else {
      data := [];
    }
  }

  lemma LengthReady(buf: EvBuffer)
    requires Ready(buf)
    ensures buf.totalLen == |buf.Contents()|
  {
  }

  method Put(buf: EvBuffer, data: seq<Byte>)
    requires Ready(buf)
    modifies buf, Nodes(buf.chains), Buffers(buf.chains)
    ensures Ready(buf) && buf.Grown() && buf.Contents() == old(buf.Contents()) + data
  {
    var _, _ := buf.Add(data);
  }

  method Skip(buf: EvBuffer, n: nat)
    requires Ready(buf) && n <= |buf.Contents()|
    modifies buf, Nodes(buf.chains)
    ensures Ready(buf) && buf.Grown() && buf.Contents() == old(buf.Contents())[n..]
  {
    var _ := buf.Drain(n);
  }

  /** evtag_encode_int and evtag_encode_int64. */
  method EvtagEncodeInt(buf: EvBuffer, n: nat, is64: bool)
    requires Ready(buf) && n <= if is64 then UINT64_MAX else UINT32_MAX
    modifies buf, Nodes(buf.chains), Buffers(buf.chains)
    ensures Ready(buf) && buf.Grown() && buf.Contents() == old(buf.Contents()) + EncodeInt(n)
  {
    var data := new Byte[if is64 then 9 else 5](_ => 0);
    var len := EncodeIntInternal(data, n);
    Put(buf, data[..len]);
  }

  /** evtag_encode_tag. */
  method EvtagEncodeTag(buf: EvBuffer, tag: nat)
    requires Ready(buf) && tag <= UINT32_MAX
    modifies buf, Nodes(buf.chains), Buffers(buf.chains)
    ensures Ready(buf) && buf.Grown() && buf.Contents() == old(buf.Contents()) + EncodeTag(tag)
  {
    var data := new Byte[5](_ => 0);
    var bytes := EncodeTagInternal(data, tag);
    Put(buf, data[..bytes]);
  }

  /** evtag_marshal. */
  method EvtagMarshal(buf: EvBuffer, r: Record)
    requires Ready(buf) && Sendable(r)
    modifies buf, Nodes(buf.chains), Buffers(buf.chains)
    ensures Ready(buf) && buf.Grown() && buf.Contents() == old(buf.Contents()) + Marshal(r)
  {
    hide Ready;
    EvtagEncodeTag(buf, r.tag);
    EvtagEncodeInt(buf, |r.payload|, false);
    Put(buf, r.payload);
    assert buf.Contents() == old(buf.Contents()) + Marshal(r);
  }

  /** evtag_marshal_buffer; the length is cut to 32 bits. */
  method EvtagMarshalBuffer(buf: EvBuffer, tag: nat, data: EvBuffer)
    requires Ready(buf) && Ready(data) && buf.Apart(data) && tag <= UINT32_MAX
    modifies buf, Nodes(buf.chains), Buffers(buf.chains), data
    ensures Ready(buf) && forall c :: c in buf.chains ==> c in old(buf.chains) || c in old(data.chains) || (fresh(c) && fresh(c.buffer))
    ensures buf.Contents() == old(buf.Contents()) + Marshal(Record(tag, old(data.Contents())))
  {
    hide Ready;
    label A:
    ghost var s, d := buf.Contents(), data.Contents();
    LengthReady(data);
    EvtagEncodeTag(buf, tag);
    Untouched@A(data);
    label B:
    EvtagEncodeInt(buf, To32(data.totalLen), false);
    Untouched@B(data);
    Join(buf, data);
    assert buf.Contents() == s + Marshal(Record(tag, d));
  }

  /** evbuffer_add_buffer of two buffers that are ready. */
  method Join(buf: EvBuffer, data: EvBuffer)
    requires Ready(buf) && Ready(data) && buf.Apart(data)
    modifies buf, Nodes(buf.chains), data
    ensures Ready(buf) && buf.Contents() == old(buf.Contents()) + old(data.Contents())
    ensures forall c :: c in buf.chains ==> c in old(buf.chains) || c in old(data.chains)
  {
    LengthReady(data);
    var _ := buf.AddBuffer(data);
  }

  /** evtag_marshal_int and evtag_marshal_int64. */
  method EvtagMarshalInt(buf: EvBuffer, tag: nat, n: nat, is64: bool)
    requires Ready(buf) && tag <= UINT32_MAX && n <= if is64 then UINT64_MAX else UINT32_MAX
    modifies buf, Nodes(buf.chains), Buffers(buf.chains)
    ensures Ready(buf) && buf.Grown() && buf.Contents() == old(buf.Contents()) + Marshal(Record(tag, EncodeInt(n)))
  {
    var data := new Byte[if is64 then 9 else 5](_ => 0);
    var len := EncodeIntInternal(data, n);
    EvtagMarshal(buf, Record(tag, data[..len]));
  }

  /** decode_tag_internal: res is -1 or the length of the tag's encoding, where the loop stays inside. */
  method DecodeTagInternal(buf: EvBuffer, dodrain: bool) returns (inside: bool, res: int, tag: nat)
    requires Ready(buf)
    modifies buf, Nodes(buf.chains), Buffers(buf.chains)
    ensures Ready(buf) && buf.Grown()
    ensures inside <==> TagInside(old(buf.Contents()))
    ensures var d := DecodeTag(old(buf.Contents()));
            && (inside ==> (res == -1 <==> d.None?) && (d.Some? ==> d.value == (tag, res)))
            && buf.Contents() == old(buf.Contents())[if dodrain && d.Some? then d.value.1 else 0..]
  {
    var len := buf.totalLen;
    var data := Peek(buf, if len < 5 then len else 5);
    var done, number, count;
    inside, done, number, count := DecodeTagBytes(data, len);
    FirstFive(buf.Contents(), data, 0);
    assert inside <==> TagInside(buf.Contents()) by {
      assert forall i | 0 <= i < |data| :: data[i] == buf.Contents()[i];
    }
    if !done {
      return inside, -1, 0;
    }
    assert data[..count] == buf.Contents()[..count];
    if dodrain {
      Skip(buf, count);
    }
    return inside, count, number;
  }

  /** Only the first five bytes decide where a tag ends. */
  lemma {:induction false} FirstFive(s: seq<Byte>, t: seq<Byte>, from: nat)
    requires t == s[..if |s| < 5 then |s| else 5] && from <= 5
    ensures TagEnd(s, from) == TagEnd(t, from)
    decreases 5 - from
  {
    if from < 5 && from < |s| {
      FirstFive(s, t, from + 1);
    }
  }

  method PeekNibbles(buf: EvBuffer, offset: nat, nibbles: nat) returns (number: nat)
    requires Ready(buf) && offset + nibbles / 2 + 1 <= |buf.Contents()|
    modifies buf, Nodes(buf.chains), Buffers(buf.chains)
    ensures Ready(buf) && buf.Grown() && buf.Contents() == old(buf.Contents())
    ensures number == FromNibbles(IntPart(old(buf.Contents())[offset..], nibbles))
  {
    hide IntPart, NibbleAt, FromNibbles;
    ghost var s := buf.Contents();
    var data := Peek(buf, offset + nibbles / 2 + 1);
    number := DecodeNibbles(data[offset..], nibbles);
    IntPartSame(s, data, offset, nibbles);
  }

  lemma IntPartSame(s: seq<Byte>, t: seq<Byte>, offset: nat, nibbles: nat)
    requires |t| == offset + nibbles / 2 + 1 <= |s| && t == s[..|t|]
    ensures IntPart(t[offset..], nibbles) == IntPart(s[offset..], nibbles)
  {
    var a, b := t[offset..], s[offset..];
    forall i: nat | i <= nibbles ensures NibbleAt(a, i) == NibbleAt(b, i) {
      assert a[i / 2] == t[offset + i / 2] == b[i / 2];
    }
  }

  /** decode_int_internal and decode_int64_internal: res is -1 or the length of the number's encoding. */
  method DecodeIntInternal(buf: EvBuffer, offset: nat, maxNibbles: nat) returns (res: int, number: nat)
    requires Ready(buf) && offset <= |buf.Contents()|
    modifies buf, Nodes(buf.chains), Buffers(buf.chains)
    ensures Ready(buf) && buf.Grown() && buf.Contents() == old(buf.Contents())
    ensures var d := DecodeInt(old(buf.Contents())[offset..], maxNibbles);
            (res == -1 <==> d.None?) && (d.Some? ==> d.value == (number, res))
  {
    hide Ready;
    ghost var s := buf.Contents();
    LengthReady(buf);
    var len := buf.totalLen - offset;
    if len <= 0 {
      return -1, 0;
    }
    var head := Peek(buf, offset + 1);
    assert head[offset] == s[offset..][0];
    var nibbles := head[offset] / 16 + 1;
    if nibbles > maxNibbles || nibbles / 2 + 1 > len {
      return -1, 0;
    }
    len := nibbles / 2 + 1;
    number := PeekNibbles(buf, offset, nibbles);
    return len, number;
  }

  /** evtag_decode_int and evtag_decode_int64. */
  method EvtagDecodeInt(buf: EvBuffer, maxNibbles: nat) returns (ok: bool, number: nat)
    requires Ready(buf)
    modifies buf, Nodes(buf.chains), Buffers(buf.chains)
    ensures Ready(buf) && buf.Grown()
    ensures var d := DecodeInt(old(buf.Contents()), maxNibbles);
            && (ok <==> d.Some?) && (ok ==> number == d.value.0)
            && buf.Contents() == old(buf.Contents())[if d.Some? then d.value.1 else 0..]
  {
    hide Ready;
    ghost var s := buf.Contents();
    assert s[0..] == s;
    var res, n := DecodeIntInternal(buf, 0, maxNibbles);
    if res != -1 {
      Skip(buf, res);
    }
    return res != -1, n;
  }

  /** evtag_peek. */
  method EvtagPeek(buf: EvBuffer) returns (inside: bool, res: int, tag: nat)
    requires Ready(buf)
    modifies buf, Nodes(buf.chains), Buffers(buf.chains)
    ensures Ready(buf) && buf.Grown() && buf.Contents() == old(buf.Contents())
    ensures inside <==> TagInside(old(buf.Contents()))
    ensures var d := DecodeTag(old(buf.Contents()));
            inside ==> (res == -1 <==> d.None?) && (d.Some? ==> d.value == (tag, res))
  {
    hide Ready;
    ghost var s := buf.Contents();
    assert s[0..] == s;
    inside, res, tag := DecodeTagInternal(buf, false);
  }

  /** evtag_payload_length. */
  method EvtagPayloadLength(buf: EvBuffer) returns (inside: bool, ok: bool, length: nat)
    requires Ready(buf)
    modifies buf, Nodes(buf.chains), Buffers(buf.chains)
    ensures Ready(buf) && buf.Grown() && buf.Contents() == old(buf.Contents())
    ensures inside <==> TagInside(old(buf.Contents()))
    ensures ok <==> PayloadLength(old(buf.Contents())).Some?
    ensures ok ==> length == PayloadLength(old(buf.Contents())).value
  {
    hide Ready;
    EndsInside(buf.Contents());
    var len, tag, res;
    inside, len, tag := EvtagPeek(buf);
    if !inside || len == -1 {
      return inside, false, 0;
    }
    res, length := DecodeIntInternal(buf, len, 8);
    ok := res != -1;
  }

  /** What evtag_unmarshal_header leaves, also when it fails. */
  function AfterHeader(s: seq<Byte>): seq<Byte>
  {
    match DecodeTag(s)
    case None => s
    case Some((_, n)) =>
      match DecodeInt(s[n..], 8)
      case None => s[n..]
      case Some((_, m)) => s[n..][m..]
  }

  /** evtag_unmarshal_header: the length of the payload, or less than zero. */
  method EvtagUnmarshalHeader(buf: EvBuffer) returns (inside: bool, len: int, tag: nat)
    requires Ready(buf)
    modifies buf, Nodes(buf.chains), Buffers(buf.chains)
    ensures Ready(buf) && buf.Grown() && buf.Contents() == AfterHeader(old(buf.Contents()))
    ensures inside <==> TagInside(old(buf.Contents()))
    ensures var h := UnmarshalHeader(old(buf.Contents()));
            inside ==> (len < 0 <==> h.None?) && (h.Some? ==> h.value.0 == tag && h.value.1 == len)
                       && (h.Some? ==> len <= |buf.Contents()| && buf.Contents() == old(buf.Contents())[h.value.2..])
  {
    hide Ready;
    ghost var s := buf.Contents();
    var res, t, ok, n;
    inside, res, t := DecodeTagInternal(buf, true);
    if !inside || res == -1 {
      EndsInside(s);
      assert s[0..] == s;
      return inside, -1, 0;
    }
    ghost var s1 := buf.Contents();
    ok, n := EvtagDecodeInt(buf, 8);
    if !ok {
      assert s1[0..] == s1;
      return inside, -1, t;
    }
    LengthReady(buf);
    if buf.totalLen < n {
      return inside, -1, t;
    }
    len := if n > INT_MAX then n - (UINT32_MAX + 1) else n;
    tag := t;
    DecodedSmall(s1);
  }

  /** A number of at most eight nibbles has 32 bits. */
  lemma DecodedSmall(s: seq<Byte>)
    ensures var d := DecodeInt(s, 8); d.Some? ==> d.value.0 <= UINT32_MAX
  {
    var d := DecodeInt(s, 8);
    if d.Some? {
      Pow16();
      FromFewNibbles(IntPart(s, s[0] / 16 + 1), 8);
    }
  }

  /** Work on one buffer leaves another one alone. */
  twostate lemma Untouched(buf: EvBuffer)
    requires old(Ready(buf)) && unchanged(buf)
    requires forall c :: c in buf.chains ==> unchanged(c) && unchanged(c.buffer)
    ensures Ready(buf) && buf.Contents() == old(buf.Contents())
  {
    forall i | 0 <= i < |buf.chains|
      ensures unchanged(buf.chains[i]) && unchanged(buf.chains[i].buffer) && buf.chains[i].next == old(buf.chains[i].next)
    {
      assert buf.chains[i] in buf.chains;
    }
  }

  /** The header and a look at the payload. */
  method HeaderAndPayload(src: EvBuffer) returns (inside: bool, len: int, tag: nat, data: seq<Byte>)
    requires Ready(src)
    modifies src, Nodes(src.chains), Buffers(src.chains)
    ensures Ready(src) && src.Grown() && src.Contents() == AfterHeader(old(src.Contents()))
    ensures inside <==> TagInside(old(src.Contents()))
    ensures var u := Unmarshal(old(src.Contents()));
            inside ==> (len < 0 <==> u.None?)
                       && (u.Some? ==> u.value.0 == Record(tag, data) && len == |data|
                                       && data + u.value.1 == src.Contents())
  {
    hide Ready;
    ghost var s := src.Contents();
    inside, len, tag := EvtagUnmarshalHeader(src);
    if inside && len >= 0 {
      ghost var h := UnmarshalHeader(s).value.2;
      data := Peek(src, len);
      assert data == s[h..h + len] && src.Contents()[len..] == s[h + len..];
    } else {
      data := [];
    }
  }

  /** evtag_unmarshal, which gives the payload to another buffer. */
  method EvtagUnmarshal(src: EvBuffer, dst: EvBuffer) returns (inside: bool, ok: bool, tag: nat)
    requires Ready(src) && Ready(dst) && src.Apart(dst)
    modifies src, Nodes(src.chains), Buffers(src.chains), dst, Nodes(dst.chains), Buffers(dst.chains)
    ensures Ready(src) && Ready(dst) && src.Grown() && dst.Grown() && src.Apart(dst)
    ensures inside <==> TagInside(old(src.Contents()))
    ensures var u := Unmarshal(old(src.Contents()));
            && (inside ==> (ok <==> u.Some?)) && (!inside ==> !ok)
            && (ok ==> tag == u.value.0.tag && src.Contents() == u.value.1
                       && dst.Contents() == old(dst.Contents()) + u.value.0.payload)
            && (!ok ==> src.Contents() == AfterHeader(old(src.Contents())) && dst.Contents() == old(dst.Contents()))
  {
    hide Ready, AfterHeader, Unmarshal;
    label A:
    var len, t, data;
    inside, len, t, data := HeaderAndPayload(src);
    Untouched@A(dst);
    if !inside || len < 0 {
      return inside, false, t;
    }
    label B:
    Put(dst, data);
    Untouched@B(src);
    label C:
    Skip(src, len);
    Untouched@C(dst);
    return inside, true, t;
  }

  /** evtag_unmarshal_int and evtag_unmarshal_int64: res is -1 or the length of the number's encoding. */
  method EvtagUnmarshalInt(buf: EvBuffer, needTag: nat, maxNibbles: nat) returns (inside: bool, res: int, number: nat)
    requires Ready(buf)
    modifies buf, Nodes(buf.chains), Buffers(buf.chains)
    ensures Ready(buf) && buf.Grown()
    ensures inside <==> TagInside(old(buf.Contents()))
    ensures var u := UnmarshalInt(old(buf.Contents()), needTag, maxNibbles);
            (inside ==> (res == -1 <==> u.None?))
            && (u.Some? ==> u.value == (number, buf.Contents()))
  {
    hide Ready;
    ghost var s := buf.Contents();
    var tag, len, ok;
    inside, res, tag := DecodeTagInternal(buf, true);
    if !inside || res == -1 || tag != needTag {
      return inside, -1, 0;
    }
    ok, len := EvtagDecodeInt(buf, 8);
    if !ok {
      return inside, -1, 0;
    }
    ghost var rest := buf.Contents();
    LengthReady(buf);
    if buf.totalLen < len {
      return inside, -1, 0;
    }
    assert rest[0..] == rest;
    res, number := DecodeIntInternal(buf, 0, maxNibbles);
    Skip(buf, len);
    AfterTwo(s, DecodeTag(s).value.1, DecodeInt(s[DecodeTag(s).value.1..], 8).value.1);
    if res < 0 || res > len {
      return inside, -1, number;
    }
  }

  lemma AfterTwo(s: seq<Byte>, n: nat, m: nat)
    requires n + m <= |s|
    ensures s[n..][m..] == s[n + m..]
  {
  }

  /** evtag_unmarshal_fixed, and evtag_unmarshal_string where no length is given. */
  method EvtagUnmarshalFixed(buf: EvBuffer, needTag: nat, length: Option<nat>) returns (inside: bool, ok: bool, data: seq<Byte>)
    requires Ready(buf)
    modifies buf, Nodes(buf.chains), Buffers(buf.chains)
    ensures Ready(buf) && buf.Grown()
    ensures inside <==> TagInside(old(buf.Contents()))
    ensures var u := UnmarshalFixed(old(buf.Contents()), needTag, length);
            && (inside ==> (ok <==> u.Some?)) && (!inside ==> !ok) && (ok ==> u.value == (data, buf.Contents()))
  {
    hide Ready, UnmarshalFixed, UnmarshalHeader, AfterHeader;
    ghost var s := buf.Contents();
    var len, tag;
    inside, len, tag := EvtagUnmarshalHeader(buf);
    if !inside {
      return false, false, [];
    }
    FixedIs(s, buf.Contents(), len, tag, needTag, length);
    if len < 0 || tag != needTag || (length.Some? && len != length.value) {
      return true, false, [];
    }
    data := Peek(buf, len);
    Skip(buf, len);
    return true, true, data;
  }

  lemma FixedIs(s: seq<Byte>, rest: seq<Byte>, len: int, tag: nat, needTag: nat, length: Option<nat>)
    requires var h := UnmarshalHeader(s);
             && (len < 0 <==> h.None?)
             && (h.Some? ==> h.value.0 == tag && h.value.1 == len <= |rest| && rest == s[h.value.2..])
    ensures len >= 0 ==> len <= |rest|
    ensures UnmarshalFixed(s, needTag, length)
            == if len < 0 || tag != needTag || (length.Some? && len != length.value) then None
               else Some((rest[..len], rest[len..]))
  {
    if len >= 0 {
      var h := UnmarshalHeader(s).value.2;
      assert rest[..len] == s[h..h + len];
      assert rest[len..] == s[h + len..];
    }
  }
}
