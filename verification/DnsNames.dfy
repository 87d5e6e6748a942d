/** Domain names on the wire: name compression as evdns writes it, and the parser that reads it back. */
module DnsNames {
  import opened Wrappers
  import opened Bytes

  const DOT: Byte := 46
  const MAX_LABELS: nat := 128

  // ----- Names and labels -----

  /** strchr(name, '.'), or the end. */
  function Dot(name: seq<Byte>): (k: nat)
    ensures k <= |name|
  {
    if name == [] || name[0] == DOT then 0 else Dot(name[1..]) + 1
  }

  lemma {:induction false} DotIsFirst(name: seq<Byte>)
    ensures DOT !in name[..Dot(name)] && (Dot(name) < |name| ==> name[Dot(name)] == DOT)
  {
    if name != [] && name[0] != DOT {
      DotIsFirst(name[1..]);
      assert name[..Dot(name)] == [name[0]] + name[1..][..Dot(name[1..])];
    }
  }

  lemma DotInside(name: seq<Byte>)
    ensures Dot(name) <= |name|
  {
  }

  /** The labels of a name, up to the first empty one. */
  function WireLabels(name: seq<Byte>): seq<seq<Byte>>
    decreases |name|
  {
    var k := Dot(name);
    if k == 0 then [] else if k == |name| then [name] else [name[..k]] + WireLabels(name[k + 1..])
  }

  /** No label but possibly the last is empty. */
  ghost predicate NoGap(name: seq<Byte>)
    decreases |name|
  {
    var k := Dot(name);
    k == |name| || (k > 0 && NoGap(name[k + 1..]))
  }

  /** Every label is non-empty; the root is the empty name. */
  ghost predicate Clean(name: seq<Byte>)
    decreases |name|
  {
    var k := Dot(name);
    name == [] || (k > 0 && (k < |name| ==> name[k + 1..] != [] && Clean(name[k + 1..])))
  }

  /** Every label has at most 63 bytes. */
  ghost predicate ShortLabels(name: seq<Byte>)
    decreases |name|
  {
    var k := Dot(name);
    k <= 63 && (k < |name| ==> ShortLabels(name[k + 1..]))
  }

  function Join(labels: seq<seq<Byte>>): seq<Byte>
  {
    if labels == [] then [] else if |labels| == 1 then labels[0] else labels[0] + [DOT] + Join(labels[1..])
  }

  /** A name is the join of its wire labels exactly when it is clean. */
  lemma {:induction false} JoinOfLabels(name: seq<Byte>)
    ensures Join(WireLabels(name)) == name <==> Clean(name)
    ensures |Join(WireLabels(name))| <= |name|
    decreases |name|
  {
    var k := Dot(name);
    DotIsFirst(name);
    if 0 < k < |name| {
      var rest := name[k + 1..];
      JoinOfLabels(rest);
      assert name == name[..k] + [DOT] + rest;
      assert WireLabels(name)[1..] == WireLabels(rest);
      if Dot(rest) == 0 {
        assert Join(WireLabels(name)) == name[..k];
      }
    }
  }

  lemma {:induction false} CleanHasNoGap(name: seq<Byte>)
    requires Clean(name)
    ensures NoGap(name)
    decreases |name|
  {
    var k := Dot(name);
    if k < |name| {
      CleanHasNoGap(name[k + 1..]);
    }
  }

  // ----- Reading -----

  function Pointer(hi: Byte, lo: Byte): nat
  {
    (hi % 64) * 256 + lo
  }

  /** RFC 1035 section 4.1.4: the labels encoded at j inside p[..lim], a pointer naming a prior occurrence,
      and the index behind the encoding. */
  function Decode(p: seq<Byte>, j: nat, lim: nat): Option<(seq<seq<Byte>>, nat)>
    requires lim <= |p|
    decreases lim, lim - j
  {
    if j >= lim then None
    else if p[j] == 0 then Some(([], j + 1))
    else if p[j] < 64 then
      if j + 1 + p[j] > lim then None
      else
        match Decode(p, j + 1 + p[j], lim)
        case None => None
        case Some((labels, e)) => Some(([p[j + 1..j + 1 + p[j]]] + labels, e))
    else if j + 1 >= lim || Pointer(p[j], p[j + 1]) >= j then None
    else
      match Decode(p, Pointer(p[j], p[j + 1]), j)
      case None => None
      case Some((labels, _)) => Some((labels, j + 2))
  }

  lemma SamePart(p: seq<Byte>, q: seq<Byte>, lim: nat, a: nat, b: nat)
    requires a <= b <= lim <= |p| && lim <= |q| && p[..lim] == q[..lim]
    ensures p[a..b] == q[a..b]
  {
    assert p[a..b] == p[..lim][a..b];
    assert q[a..b] == q[..lim][a..b];
  }

  /** What was written before stays readable as the packet grows. */
  lemma {:induction false} DecodeStable(p: seq<Byte>, q: seq<Byte>, j: nat, lim: nat, lim': nat)
    requires lim <= |p| && lim <= lim' <= |q| && p[..lim] == q[..lim]
    requires Decode(p, j, lim).Some?
    ensures Decode(q, j, lim') == Decode(p, j, lim)
    decreases lim, lim - j
  {
    SamePart(p, q, lim, j, j + 1);
    assert p[j] == p[j..j + 1][0] == q[j];
    if p[j] == 0 {
    } else if p[j] < 64 {
      SamePart(p, q, lim, j + 1, j + 1 + p[j]);
      DecodeStable(p, q, j + 1 + p[j], lim, lim');
    } else {
      SamePart(p, q, lim, j + 1, j + 2);
      assert p[j + 1] == p[j + 1..j + 2][0] == q[j + 1];
      SamePart(p, q, lim, 0, j);
      DecodeStable(p, q, Pointer(p[j], p[j + 1]), j, j);
    }
  }

  lemma {:induction false} JoinConcat(a: seq<seq<Byte>>, b: seq<seq<Byte>>)
    requires a != [] && b != []
    ensures Join(a + b) == Join(a) + [DOT] + Join(b)
  {
    if |a| == 1 {
      assert (a + b)[1..] == b;
    } else {
      assert (a + b)[1..] == a[1..] + b;
      JoinConcat(a[1..], b);
    }
  }

  /** Appending a label to what has been printed. */
  lemma JoinStep(done: seq<seq<Byte>>, lbl: seq<Byte>, rest: seq<seq<Byte>>)
    ensures Join(done + [lbl]) == if done == [] then lbl else Join(done) + [DOT] + lbl
    ensures |Join(done + [lbl])| <= |Join(done + [lbl] + rest)|
  {
    if done == [] {
      assert done + [lbl] == [lbl];
    } else {
      JoinConcat(done, [lbl]);
    }
    if rest == [] {
      assert done + [lbl] + rest == done + [lbl];
    } else {
      JoinConcat(done + [lbl], rest);
    }
  }

  /** The local variables of name_parse. */
  datatype Parser = Parser(j: nat, ptrCount: nat, out: seq<Byte>, nameEnd: Option<nat>)

  /** Outside: a label is copied that runs past the bytes of the packet. */
  datatype Turn = Fail | Outside | Finished(name: seq<Byte>, idx: nat) | Go(next: Parser)

  datatype Parse = Malformed | ReadsOutside | Parsed(name: seq<Byte>, idx: nat)

  /** name_parse prints a dot before every label but the first. */
  function Printed(out: seq<Byte>, lbl: seq<Byte>): seq<Byte>
  {
    if out != [] then out + [DOT] + lbl else lbl
  }

  /** One turn of name_parse's loop, which copies a label without checking that it ends inside the packet. */
  function TakeTurn(packet: seq<Byte>, length: nat, outLen: nat, s: Parser): (t: Turn)
    requires length <= |packet|
    ensures t.Outside? ==> |packet| < length + 63
    ensures t.Go? && s.ptrCount <= length ==>
              t.next.ptrCount <= length
              && (s.ptrCount < t.next.ptrCount || (s.ptrCount == t.next.ptrCount && |s.out| < |t.next.out| < outLen))
  {
    if s.j >= length then Fail
    else
      var labelLen := packet[s.j];
      if labelLen == 0 then
        if |s.out| >= outLen then Fail
        else Finished(s.out, if s.nameEnd.None? then s.j + 1 else s.nameEnd.value)
      else if labelLen >= 64 then
        if s.j + 1 >= length then Fail
        else
          var target := Pointer(labelLen, packet[s.j + 1]);
          if target >= length || s.ptrCount + 1 > length then Fail
          else Go(Parser(target, s.ptrCount + 1, s.out, if s.nameEnd.None? then Some(s.j + 2) else s.nameEnd))
      else
        if |s.out| + (if s.out != [] then 1 else 0) + labelLen >= outLen then Fail
        else if s.j + 1 + labelLen > |packet| then Outside
        else
          var printed := Printed(s.out, packet[s.j + 1..s.j + 1 + labelLen]);
          Go(Parser(s.j + 1 + labelLen, s.ptrCount, printed, s.nameEnd))
  }

  /** A whole name, or labels in front of one that runs past the bytes of the packet. */
  datatype Reading = NoName | Beyond(labels: seq<seq<Byte>>, more: nat) | Whole(labels: seq<seq<Byte>>, idx: nat)

  /**
   * The name at j, as far as the parser goes along with it: pointers may lead anywhere inside the packet, but only
   * `jumps` times, and a label may end behind the packet.
   */
  ghost function Read(p: seq<Byte>, length: nat, j: nat, jumps: nat): Reading
    requires length <= |p|
    decreases jumps, |p| - j
  {
    if j >= length then NoName
    else if p[j] == 0 then Whole([], j + 1)
    else if p[j] >= 64 then
      if j + 1 >= length || Pointer(p[j], p[j + 1]) >= length || jumps == 0 then NoName
      else
        Behind([], Some(j + 2), Read(p, length, Pointer(p[j], p[j + 1]), jumps - 1))
    else if j + 1 + p[j] > |p| then Beyond([], p[j])
    else Behind([p[j + 1..j + 1 + p[j]]], None, Read(p, length, j + 1 + p[j], jumps))
  }

  /** What is read behind some labels. */
  ghost function Behind(done: seq<seq<Byte>>, nameEnd: Option<nat>, r: Reading): Reading
  {
    match r
    case NoName => NoName
    case Beyond(labels, more) => Beyond(done + labels, more)
    case Whole(labels, idx) => Whole(done + labels, if nameEnd.Some? then nameEnd.value else idx)
  }

  lemma BehindTwice(done: seq<seq<Byte>>, nameEnd: Option<nat>, idx: nat, r: Reading)
    ensures Behind(done, nameEnd, Behind([], Some(idx), r)) == Behind(done, Some(if nameEnd.Some? then nameEnd.value else idx), r)
    ensures r.Whole? ==> Behind([], Some(idx), r) == Whole(r.labels, idx)
  {
    if !r.NoName? {
      assert [] + r.labels == r.labels;
    }
  }

  /** Names in the format of RFC 1035 are read for what they are. */
  lemma {:induction false} DecodeIsRead(p: seq<Byte>, length: nat, j: nat, lim: nat, jumps: nat)
    requires lim <= length <= |p| && lim <= jumps && Decode(p, j, lim).Some?
    ensures Read(p, length, j, jumps) == Whole(Decode(p, j, lim).value.0, Decode(p, j, lim).value.1)
    decreases lim, lim - j
  {
    if p[j] == 0 {
    } else if p[j] < 64 {
      DecodeIsRead(p, length, j + 1 + p[j], lim, jumps);
    } else {
      DecodeIsRead(p, length, Pointer(p[j], p[j + 1]), j, jumps - 1);
      BehindTwice([], None, j + 2, Read(p, length, Pointer(p[j], p[j + 1]), jumps - 1));
    }
  }

  /** The labels joined by dots have to fit into the output with a zero behind them. */
  ghost function Expected(r: Reading, outLen: nat): Parse
  {
    match r
    case NoName => Malformed
    case Beyond(labels, more) =>
      if |Join(labels)| + (if labels != [] then 1 else 0) + more < outLen then ReadsOutside else Malformed
    case Whole(labels, idx) => if |Join(labels)| < outLen then Parsed(Join(labels), idx) else Malformed
  }

  /** The parser has printed the labels `done` of the name, and the rest of it is where it stands. */
  ghost predicate OnCourse(p: seq<Byte>, length: nat, name: Reading, s: Parser, done: seq<seq<Byte>>)
  {
    && s.ptrCount <= length <= |p| && s.out == Join(done) && (done == [] <==> s.out == [])
    && name == Behind(done, s.nameEnd, Read(p, length, s.j, length - s.ptrCount))
  }

  /** A turn of the parser goes on with the name, or ends as is expected of it. */
  lemma TurnStaysOnCourse(p: seq<Byte>, length: nat, outLen: nat, name: Reading, s: Parser, done: seq<seq<Byte>>)
      returns (done': seq<seq<Byte>>)
    requires OnCourse(p, length, name, s, done)
    ensures match TakeTurn(p, length, outLen, s)
            case Fail => Expected(name, outLen) == Malformed
            case Outside => Expected(name, outLen) == ReadsOutside
            case Finished(out, idx) => Expected(name, outLen) == Parsed(out, idx)
            case Go(next) => OnCourse(p, length, name, next, done')
  {
    hide Join, Pointer, Read;
    done' := done;
    ReadIs(p, length, s.j, length - s.ptrCount);
    assert done + [] == done;
    if s.j + 1 < length && p[s.j] >= 64 && s.ptrCount < length && Pointer(p[s.j], p[s.j + 1]) < length {
      BehindTwice(done, s.nameEnd, s.j + 2, Read(p, length, Pointer(p[s.j], p[s.j + 1]), length - s.ptrCount - 1));
    }
    if s.j < length && 0 < p[s.j] < 64 && s.j + 1 + p[s.j] <= |p| {
      var lbl := p[s.j + 1..s.j + 1 + p[s.j]];
      done' := done + [lbl];
      LabelRead(done, lbl, s.nameEnd, Read(p, length, s.j + 1 + p[s.j], length - s.ptrCount));
    }
  }

  lemma ReadIs(p: seq<Byte>, length: nat, j: nat, jumps: nat)
    requires length <= |p|
    ensures Read(p, length, j, jumps)
            == if j >= length then NoName
               else if p[j] == 0 then Whole([], j + 1)
               else if p[j] >= 64 then
                 if j + 1 >= length || Pointer(p[j], p[j + 1]) >= length || jumps == 0 then NoName
                 else Behind([], Some(j + 2), Read(p, length, Pointer(p[j], p[j + 1]), jumps - 1))
               else if j + 1 + p[j] > |p| then Beyond([], p[j])
               else Behind([p[j + 1..j + 1 + p[j]]], None, Read(p, length, j + 1 + p[j], jumps))
  {
    hide Pointer, Behind;
  }

  lemma LabelRead(done: seq<seq<Byte>>, lbl: seq<Byte>, nameEnd: Option<nat>, r: Reading)
    ensures Behind(done, nameEnd, Behind([lbl], None, r)) == Behind(done + [lbl], nameEnd, r)
    ensures Join(done + [lbl]) == if done == [] then lbl else Join(done) + [DOT] + lbl
    ensures !r.NoName? ==> |Join(done + [lbl])| <= |Join(done + [lbl] + r.labels)|
  {
    hide Join;
    var rest := if r.NoName? then [] else r.labels;
    JoinStep(done, lbl, rest);
    assert done + ([lbl] + rest) == done + [lbl] + rest;
  }

  /**
   * name_parse, on every packet. What is encoded in the format of RFC 1035 and fits is returned; nothing is read outside
   * the packet that has 63 bytes behind it.
   */
  method NameParse(packet: seq<Byte>, length: nat, idx: nat, outLen: nat) returns (r: Parse)
    requires length <= |packet|
    ensures r == Expected(Read(packet, length, idx, length), outLen)
    ensures var d := Decode(packet, idx, length);
            d.Some? && |Join(d.value.0)| < outLen ==> r == Parsed(Join(d.value.0), d.value.1)
    ensures r.Parsed? ==> |r.name| < outLen
    ensures r.ReadsOutside? ==> |packet| < length + 63
  {
    ghost var name, done := Read(packet, length, idx, length), [];
    if Decode(packet, idx, length).Some? {
      DecodeIsRead(packet, length, idx, length, length);
    }
    var s := Parser(idx, 0, [], None);
    while true
      invariant OnCourse(packet, length, name, s, done)
      decreases length - s.ptrCount, outLen - |s.out|
    {
      done := TurnStaysOnCourse(packet, length, outLen, name, s, done);
      match TakeTurn(packet, length, outLen, s)
      case Fail => return Malformed;
      case Outside => return ReadsOutside;
      case Finished(out, end) => return Parsed(out, end);
      case Go(next) => s := next;
    }
  }

  // ----- Writing -----

  datatype Entry = Entry(name: seq<Byte>, pos: nat)

  /** An entry reads back as its own name from what has been written before lim. */
  ghost predicate EntryOk(p: seq<Byte>, lim: nat, e: Entry)
    requires lim <= |p|
  {
    && e.pos < lim && e.pos < 0x4000
    && Decode(p, e.pos, lim).Some? && Decode(p, e.pos, lim).value.0 == WireLabels(e.name)
  }

  /** A table with one entry more, unless it is full. */
  function With(entries: seq<Entry>, name: seq<Byte>, pos: nat): seq<Entry>
  {
    if |entries| < MAX_LABELS then entries + [Entry(name, pos)] else entries
  }

  /** struct dnslabel_table. */
  class LabelTable {
    var entries: seq<Entry>

    constructor ()
      ensures entries == []
    {
      entries := [];
    }

    /** dnslabel_table_get_pos. */
    method GetPos(name: seq<Byte>) returns (r: Option<nat>)
      ensures r.Some? ==> Entry(name, r.value) in entries
      ensures r.None? ==> forall e :: e in entries ==> e.name != name
    {
      for i := 0 to |entries|
        invariant forall k :: 0 <= k < i ==> entries[k].name != name
      {
        if entries[i].name == name {
          return Some(entries[i].pos);
        }
      }
      return None;
    }

    /** dnslabel_table_add; a full table forgets the entry. */
    method Add(name: seq<Byte>, pos: nat)
      modifies this
      ensures entries == With(old(entries), name, pos)
    {
      if |entries| < MAX_LABELS {
        entries := entries + [Entry(name, pos)];
      }
    }
  }

  /** One label as it lies in the packet: its length, then its bytes. */
  ghost predicate LabelAt(p: seq<Byte>, j: nat, lbl: seq<Byte>)
  {
    |lbl| <= 63 && j + 1 + |lbl| <= |p| && p[j] == |lbl| && p[j + 1..j + 1 + |lbl|] == lbl
  }

  /** A label in front of something readable makes the longer suffix readable. */
  lemma LabelInFront(p: seq<Byte>, j: nat, lim: nat, suffix: seq<Byte>)
    requires lim <= |p| && LabelAt(p, j, suffix[..Dot(suffix)])
    requires j + 1 + Dot(suffix) <= lim
    requires Dot(suffix) > 0 && Dot(suffix) < |suffix| ==>
               var rest := Decode(p, j + 1 + Dot(suffix), lim);
               rest.Some? && rest.value.0 == WireLabels(suffix[Dot(suffix) + 1..])
    requires 0 < Dot(suffix) == |suffix| ==>
               j + 1 + Dot(suffix) < lim && p[j + 1 + Dot(suffix)] == 0
    ensures Decode(p, j, lim).Some? && Decode(p, j, lim).value.0 == WireLabels(suffix)
    ensures Dot(suffix) > 0 && Dot(suffix) < |suffix| ==>
              Decode(p, j, lim).value.1 == Decode(p, j + 1 + Dot(suffix), lim).value.1
  {
    assert Dot(suffix) == |suffix| ==> suffix[..Dot(suffix)] == suffix;
  }

  /** From start on, the labels of `from` are written up to jj, where `name` is still to come. */
  ghost predicate Trail(p: seq<Byte>, start: nat, from: seq<Byte>, jj: nat, name: seq<Byte>)
    decreases |from|
  {
    var k := Dot(from);
    || (start == jj && from == name)
    || (k < |from| && LabelAt(p, start, from[..k]) && Trail(p, start + 1 + k, from[k + 1..], jj, name))
  }

  lemma LabelAtStable(p: seq<Byte>, q: seq<Byte>, j: nat, lbl: seq<Byte>, lim: nat)
    requires LabelAt(p, j, lbl) && j + 1 + |lbl| <= lim && lim <= |p| && lim <= |q| && p[..lim] == q[..lim]
    ensures LabelAt(q, j, lbl)
  {
    assert q[j] == q[..lim][j] == p[..lim][j];
    forall k | j < k <= j + |lbl| ensures q[k] == p[k] {
      assert q[k] == q[..lim][k] == p[..lim][k];
    }
  }

  lemma {:induction false} TrailBelow(p: seq<Byte>, start: nat, from: seq<Byte>, jj: nat, name: seq<Byte>)
    requires Trail(p, start, from, jj, name)
    ensures |from| - |name| == jj - start && start <= jj
    decreases |from|
  {
    if !(start == jj && from == name) {
      TrailBelow(p, start + 1 + Dot(from), from[Dot(from) + 1..], jj, name);
    }
  }

  lemma {:induction false} TrailStable(p: seq<Byte>, q: seq<Byte>, start: nat, from: seq<Byte>, jj: nat, name: seq<Byte>)
    requires Trail(p, start, from, jj, name) && jj <= |p| && jj <= |q| && p[..jj] == q[..jj]
    ensures Trail(q, start, from, jj, name)
    decreases |from|
  {
    if !(start == jj && from == name) {
      var k := Dot(from);
      TrailBelow(p, start + 1 + k, from[k + 1..], jj, name);
      LabelAtStable(p, q, start, from[..k], jj);
      TrailStable(p, q, start + 1 + k, from[k + 1..], jj, name);
    }
  }

  lemma {:induction false} TrailSnoc(p: seq<Byte>, start: nat, from: seq<Byte>, jj: nat, name: seq<Byte>)
    requires Trail(p, start, from, jj, name) && Dot(name) < |name| && LabelAt(p, jj, name[..Dot(name)])
    ensures Trail(p, start, from, jj + 1 + Dot(name), name[Dot(name) + 1..])
    decreases |from|
  {
    if !(start == jj && from == name) {
      TrailSnoc(p, start + 1 + Dot(from), from[Dot(from) + 1..], jj, name);
    }
  }

  /** Once the rest of the name is readable at jj, the whole is. */
  lemma {:induction false} TrailReads(p: seq<Byte>, start: nat, from: seq<Byte>, jj: nat, name: seq<Byte>, lim: nat)
    requires Trail(p, start, from, jj, name) && jj < lim <= |p|
    requires Decode(p, jj, lim).Some? && Decode(p, jj, lim).value.0 == WireLabels(name)
    ensures Decode(p, start, lim).Some? && Decode(p, start, lim).value.0 == WireLabels(from)
    ensures NoGap(from) ==> Decode(p, start, lim).value.1 == Decode(p, jj, lim).value.1
    decreases |from|
  {
    if !(start == jj && from == name) {
      TrailBelow(p, start + 1 + Dot(from), from[Dot(from) + 1..], jj, name);
      TrailReads(p, start + 1 + Dot(from), from[Dot(from) + 1..], jj, name, lim);
      LabelInFront(p, start, lim, from);
    }
  }

  /** The length byte and the bytes of a label. */
  method WriteLabel(buf: array<Byte>, j: nat, lbl: seq<Byte>)
    requires |lbl| <= 63 && j + |lbl| + 1 <= buf.Length
    modifies buf
    ensures LabelAt(buf[..], j, lbl) && buf[..j] == old(buf[..j])
  {
    buf[j] := |lbl|;
    forall k | 0 <= k < |lbl| {
      buf[j + 1 + k] := lbl[k];
    }
  }

  /** While a name is being written, its own entries are still on the trail. */
  ghost predicate PendingEntry(p: seq<Byte>, j: nat, jj: nat, rest: seq<Byte>, e: Entry)
    requires j <= |p|
  {
    EntryOk(p, j, e) || (j <= e.pos < 0x4000 && |e.name| > |rest| && Trail(p, e.pos, e.name, jj, rest))
  }

  ghost predicate Pending(entries: seq<Entry>, p: seq<Byte>, j: nat, jj: nat, rest: seq<Byte>)
    requires j <= |p|
  {
    forall i :: 0 <= i < |entries| ==> PendingEntry(p, j, jj, rest, entries[i])
  }

  lemma EntryKept(p: seq<Byte>, q: seq<Byte>, j: nat, e: Entry, r: nat, jj: nat)
    requires j <= jj <= |p| && j <= r <= |q| && jj <= |q| && p[..jj] == q[..jj] && EntryOk(p, j, e)
    ensures EntryOk(q, r, e)
  {
    assert p[..j] == p[..jj][..j] == q[..j];
    DecodeStable(p, q, e.pos, j, r);
  }

  lemma EntryStep(p: seq<Byte>, q: seq<Byte>, j: nat, jj: nat, rest: seq<Byte>, e: Entry)
    requires j <= jj <= |p| && |q| == |p| && p[..jj] == q[..jj]
    requires Dot(rest) < |rest| && LabelAt(q, jj, rest[..Dot(rest)]) && PendingEntry(p, j, jj, rest, e)
    ensures PendingEntry(q, j, jj + 1 + Dot(rest), rest[Dot(rest) + 1..], e)
  {
    hide EntryOk, Trail, LabelAt, Dot;
    if EntryOk(p, j, e) {
      EntryKept(p, q, j, e, j, jj);
    } else {
      TrailStable(p, q, e.pos, e.name, jj, rest);
      TrailSnoc(q, e.pos, e.name, jj, rest);
    }
  }

  lemma NewEntry(q: seq<Byte>, j: nat, jj: nat, rest: seq<Byte>)
    requires j <= jj < 0x4000 && j <= |q| && Dot(rest) < |rest| && LabelAt(q, jj, rest[..Dot(rest)])
    ensures PendingEntry(q, j, jj + 1 + Dot(rest), rest[Dot(rest) + 1..], Entry(rest, jj))
  {
    hide Dot, LabelAt, EntryOk;
    assert Trail(q, jj, rest, jj, rest);
    TrailSnoc(q, jj, rest, jj, rest);
  }

  /** Writing one more label keeps the table in step. */
  lemma PendingStep(before: seq<Entry>, after: seq<Entry>, p: seq<Byte>, q: seq<Byte>, j: nat, jj: nat, rest: seq<Byte>)
    requires j <= jj <= |p| && jj < 0x4000 && |q| == |p| && p[..jj] == q[..jj]
    requires Dot(rest) < |rest| && LabelAt(q, jj, rest[..Dot(rest)]) && Pending(before, p, j, jj, rest)
    requires after == before || after == before + [Entry(rest, jj)]
    ensures Pending(after, q, j, jj + 1 + Dot(rest), rest[Dot(rest) + 1..])
  {
    hide PendingEntry, LabelAt, Dot;
    forall i | 0 <= i < |after|
      ensures PendingEntry(q, j, jj + 1 + Dot(rest), rest[Dot(rest) + 1..], after[i])
    {
      if i == |before| {
        NewEntry(q, j, jj, rest);
      } else {
        assert after[i] == before[i];
        EntryStep(p, q, j, jj, rest, before[i]);
      }
    }
  }

  /** When the rest of the name has become readable, so has every entry. */
  lemma PendingDone(entries: seq<Entry>, p: seq<Byte>, q: seq<Byte>, j: nat, jj: nat, rest: seq<Byte>, r: nat)
    requires j <= jj < r <= |q| && jj <= |p| && p[..jj] == q[..jj] && Pending(entries, p, j, jj, rest)
    requires Decode(q, jj, r).Some? && Decode(q, jj, r).value.0 == WireLabels(rest)
    ensures forall i :: 0 <= i < |entries| ==> EntryOk(q, r, entries[i])
  {
    forall i | 0 <= i < |entries| ensures EntryOk(q, r, entries[i]) {
      var e := entries[i];
      assert PendingEntry(p, j, jj, rest, e);
      if EntryOk(p, j, e) {
        EntryKept(p, q, j, e, r, jj);
      } else {
        TrailStable(p, q, e.pos, e.name, jj, rest);
        TrailBelow(q, e.pos, e.name, jj, rest);
        TrailReads(q, e.pos, e.name, jj, rest, r);
      }
    }
  }

  /** APPEND16(ref | 0xc000). */
  method WritePointer(buf: array<Byte>, j: nat, pos: nat)
    requires pos < 0x4000 && j + 2 <= buf.Length
    modifies buf
    ensures buf[j] >= 64 && Pointer(buf[j], buf[j + 1]) == pos && buf[..j] == old(buf[..j])
  {
    buf[j] := 192 + pos / 256;
    buf[j + 1] := pos % 256;
  }

  /** A pointer to an entry reads as the entry's name. */
  lemma PointerReads(p: seq<Byte>, q: seq<Byte>, j: nat, jj: nat, e: Entry)
    requires j <= jj && jj + 2 <= |q| && jj <= |p| && p[..jj] == q[..jj] && EntryOk(p, j, e)
    requires q[jj] >= 64 && Pointer(q[jj], q[jj + 1]) == e.pos
    ensures Decode(q, jj, jj + 2) == Some((WireLabels(e.name), jj + 2))
  {
    EntryKept(p, q, j, e, jj, jj);
  }

  /**
   * The last label, and the zero behind it unless the label is empty: its length byte is the zero then. There is no
   * check of the room for that zero; over tells that it would be written behind the buffer.
   */
  method WriteLast(buf: array<Byte>, bufLen: nat, j: nat, lbl: seq<Byte>) returns (r: nat, over: bool)
    requires |lbl| <= 63 && j + |lbl| + 1 <= bufLen <= buf.Length && Dot(lbl) == |lbl| && 0 !in lbl
    modifies buf
    ensures buf[..j] == old(buf[..j])
    ensures over <==> lbl != [] && j + |lbl| + 1 == bufLen
    ensures r == j + 1 + |lbl| + if lbl == [] then 0 else 1
    ensures if over then r == bufLen + 1 else j < r <= bufLen && Decode(buf[..], j, r) == Some((WireLabels(lbl), r))
  {
    WriteLabel(buf, j, lbl);
    r, over := j + 1 + |lbl|, false;
    assert lbl != [] ==> buf[r - 1] == buf[..][j + 1..j + 1 + |lbl|][|lbl| - 1] == lbl[|lbl| - 1];
    if buf[r - 1] != 0 {
      if r == bufLen {
        return r + 1, true;
      }
      ghost var p := buf[..];
      buf[r] := 0;
      r := r + 1;
      LabelAtStable(p, buf[..], j, lbl, r - 1);
      assert lbl[..Dot(lbl)] == lbl;
      LabelInFront(buf[..], j, r, lbl);
    }
  }

  /** An entry equal to the rest of the name is not one of the name's own. */
  lemma HitIsOld(entries: seq<Entry>, p: seq<Byte>, j: nat, jj: nat, rest: seq<Byte>, pos: nat)
    requires j <= |p| && Pending(entries, p, j, jj, rest) && Entry(rest, pos) in entries
    ensures EntryOk(p, j, Entry(rest, pos))
  {
    assert PendingEntry(p, j, jj, rest, Entry(rest, pos));
  }

  /** The rest readable at jj makes the whole name, and the entries, readable. */
  lemma RestReads(entries: seq<Entry>, p: seq<Byte>, q: seq<Byte>, j: nat, jj: nat, name: seq<Byte>, rest: seq<Byte>, r: nat)
    requires j <= jj < r <= |q| && jj <= |p| && p[..jj] == q[..jj]
    requires Pending(entries, p, j, jj, rest) && Trail(p, j, name, jj, rest)
    requires Decode(q, jj, r) == Some((WireLabels(rest), r))
    ensures Decode(q, j, r).Some? && Decode(q, j, r).value.0 == WireLabels(name)
    ensures NoGap(name) ==> Decode(q, j, r).value.1 == r
    ensures forall i :: 0 <= i < |entries| ==> EntryOk(q, r, entries[i])
    ensures jj < 0x4000 ==> EntryOk(q, r, Entry(rest, jj))
    ensures q[..j] == p[..j]
  {
    TrailStable(p, q, j, name, jj, rest);
    TrailReads(q, j, name, jj, rest, r);
    PendingDone(entries, p, q, j, jj, rest, r);
    assert q[..j] == q[..jj][..j] == p[..j];
  }

  ghost function EntriesOf(table: LabelTable?): seq<Entry>
    reads table
  {
    if table == null then [] else table.entries
  }

  /** Every entry reads back from what lies before lim. */
  ghost predicate Describes(entries: seq<Entry>, p: seq<Byte>, lim: nat)
    requires lim <= |p|
  {
    forall i :: 0 <= i < |entries| ==> EntryOk(p, lim, entries[i])
  }

  /** Between two labels of `name`, begun at j: `rest` is still to be written, at jj. */
  ghost predicate Writing(entries: seq<Entry>, p: seq<Byte>, j: nat, jj: nat, name: seq<Byte>, rest: seq<Byte>)
    requires j <= |p|
  {
    && j <= jj && |name| - |rest| == jj - j && 0 !in rest && (ShortLabels(name) ==> ShortLabels(rest))
    && Trail(p, j, name, jj, rest) && Pending(entries, p, j, jj, rest)
  }

  lemma BeginWriting(entries: seq<Entry>, p: seq<Byte>, j: nat, name: seq<Byte>)
    requires j <= |p| && 0 !in name && Describes(entries, p, j)
    ensures Writing(entries, p, j, j, name, name)
  {
  }

  /** The name written at j, ending at r, reads back, and so does every entry. */
  ghost predicate Written(entries: seq<Entry>, p: seq<Byte>, j: nat, r: nat, name: seq<Byte>)
    requires r <= |p|
  {
    && j < r && Decode(p, j, r).Some? && Decode(p, j, r).value.0 == WireLabels(name)
    && (NoGap(name) ==> Decode(p, j, r).value.1 == r)
    && Describes(entries, p, r)
  }

  /** End the name with a pointer to what the table already knows. */
  method WriteHit(buf: array<Byte>, j: nat, jj: nat, name: seq<Byte>, rest: seq<Byte>, pos: nat, ghost entries: seq<Entry>)
    requires j <= jj && jj + 2 <= buf.Length && Writing(entries, buf[..], j, jj, name, rest) && Entry(rest, pos) in entries
    modifies buf
    ensures Written(entries, buf[..], j, jj + 2, name) && buf[..j] == old(buf[..j])
  {
    ghost var p := buf[..];
    HitIsOld(entries, p, j, jj, rest, pos);
    WritePointer(buf, jj, pos);
    PointerReads(p, buf[..], j, jj, Entry(rest, pos));
    RestReads(entries, p, buf[..], j, jj, name, rest, jj + 2);
  }

  /** End the name with its last label. */
  method WriteEnd(buf: array<Byte>, bufLen: nat, j: nat, jj: nat, name: seq<Byte>, rest: seq<Byte>, table: LabelTable?)
      returns (r: nat, over: bool)
    requires j <= jj && jj + |rest| + 1 <= bufLen <= buf.Length && jj < 0x4000 && Writing(EntriesOf(table), buf[..], j, jj, name, rest)
    requires Dot(rest) == |rest| <= 63
    modifies buf, if table == null then {} else {table}
    ensures over <==> rest != [] && jj + |rest| + 1 == bufLen
    ensures r == jj + 1 + |rest| + (if rest == [] then 0 else 1)
    ensures if over then r == bufLen + 1 else r <= bufLen && Written(EntriesOf(table), buf[..], j, r, name)
    ensures buf[..j] == old(buf[..j]) && (table != null ==> table.entries == With(old(table.entries), rest, jj))
  {
    ghost var p, entries := buf[..], EntriesOf(table);
    if table != null {
      table.Add(rest, jj);
    }
    r, over := WriteLast(buf, bufLen, jj, rest);
    assert buf[..j] == buf[..jj][..j] == p[..jj][..j] == p[..j];
    if !over {
      RestReads(entries, p, buf[..], j, jj, name, rest, r);
    }
  }

  /** Write the next label of several. */
  method WriteMore(buf: array<Byte>, j: nat, jj: nat, name: seq<Byte>, rest: seq<Byte>, table: LabelTable?)
    requires j <= jj && jj + Dot(rest) + 1 <= buf.Length && jj < 0x4000 && Writing(EntriesOf(table), buf[..], j, jj, name, rest)
    requires Dot(rest) < |rest| && Dot(rest) <= 63
    modifies buf, if table == null then {} else {table}
    ensures Writing(EntriesOf(table), buf[..], j, jj + 1 + Dot(rest), name, rest[Dot(rest) + 1..]) && buf[..j] == old(buf[..j])
    ensures table != null ==> table.entries == With(old(table.entries), rest, jj)
  {
    hide Writing, LabelAt, Dot;
    ghost var p, entries := buf[..], EntriesOf(table);
    if table != null {
      table.Add(rest, jj);
    }
    WriteLabel(buf, jj, rest[..Dot(rest)]);
    LabelWritten(entries, EntriesOf(table), p, buf[..], j, jj, name, rest);
  }

  lemma NextLabels(rest: seq<Byte>)
    requires Dot(rest) < |rest|
    ensures ShortLabels(rest) ==> ShortLabels(rest[Dot(rest) + 1..])
    ensures 0 !in rest ==> 0 !in rest[Dot(rest) + 1..]
  {
  }

  lemma LabelWritten(before: seq<Entry>, after: seq<Entry>, p: seq<Byte>, q: seq<Byte>, j: nat, jj: nat, name: seq<Byte>, rest: seq<Byte>)
    requires j <= jj <= |p| == |q| && jj < 0x4000 && p[..jj] == q[..jj] && Writing(before, p, j, jj, name, rest)
    requires Dot(rest) < |rest| && LabelAt(q, jj, rest[..Dot(rest)])
    requires after == before || after == before + [Entry(rest, jj)]
    ensures Writing(after, q, j, jj + 1 + Dot(rest), name, rest[Dot(rest) + 1..]) && p[..j] == q[..j]
  {
    hide LabelAt, Trail, Pending, Dot, ShortLabels;
    NextLabels(rest);
    TrailStable(p, q, j, name, jj, rest);
    TrailSnoc(q, j, name, jj, rest);
    PendingStep(before, after, p, q, j, jj, rest);
    SamePart(p, q, jj, 0, j);
  }

  ghost predicate Has(entries: seq<Entry>, name: seq<Byte>)
  {
    exists e :: e in entries && e.name == name
  }

  /** The longest of the name and what stands behind its dots that is in the table. */
  ghost function Known(entries: seq<Entry>, name: seq<Byte>): (suffix: Option<seq<Byte>>)
    ensures suffix.Some? ==> Has(entries, suffix.value) && |suffix.value| <= |name|
    decreases |name|
  {
    if Has(entries, name) then Some(name)
    else if Dot(name) < |name| then Known(entries, name[Dot(name) + 1..])
    else None
  }

  /** Where a name ends that is written at j: behind a pointer, or behind the final zero. */
  ghost function EndOf(known: seq<Entry>, name: seq<Byte>, j: nat): nat
    decreases |name|
  {
    if Has(known, name) then j + 2
    else if Dot(name) == |name| then j + 1 + |name| + (if name == [] then 0 else 1)
    else EndOf(known, name[Dot(name) + 1..], j + 1 + Dot(name))
  }

  /** A name takes as many bytes as stand before its longest known suffix, and two; if none is known, its own length, and one or two. */
  lemma {:induction false} EndIs(known: seq<Entry>, name: seq<Byte>, j: nat)
    ensures EndOf(known, name, j) == match Known(known, name)
                                     case Some(suffix) => j + |name| - |suffix| + 2
                                     case None => j + |name| + if EndsInLabel(name) then 2 else 1
    decreases |name|
  {
    DotIsFirst(name);
    if !Has(known, name) && Dot(name) < |name| {
      LastNext(name);
      EndIs(known, name[Dot(name) + 1..], j + 1 + Dot(name));
    }
  }

  /** What dnsname_to_labels returns for a name of at most 255 bytes. */
  ghost function Outcome(known: seq<Entry>, name: seq<Byte>, j: nat, bufLen: nat): int
    decreases |name|
  {
    var k := Dot(name);
    if Has(known, name) then (if j + 2 > bufLen then -2 else j + 2)
    else if k > 63 then -1
    else if j + k + 1 > bufLen then -2
    else if k == |name| then j + 1 + |name| + (if name == [] then 0 else 1)
    else Outcome(known, name[k + 1..], j + 1 + k, bufLen)
  }

  /** The labels before the longest known suffix have at most 63 bytes. */
  ghost predicate ShortFront(known: seq<Entry>, name: seq<Byte>)
    decreases |name|
  {
    Has(known, name) || (Dot(name) <= 63 && (Dot(name) < |name| ==> ShortFront(known, name[Dot(name) + 1..])))
  }

  /** A name is written just when its new labels are short and there is room for them; the final zero needs none. */
  lemma {:induction false} OutcomeIs(known: seq<Entry>, name: seq<Byte>, j: nat, bufLen: nat)
    ensures var r := Outcome(known, name, j, bufLen);
            var room := if Known(known, name).Some? then EndOf(known, name, j) else j + |name| + 1;
            && (r >= 0 <==> ShortFront(known, name) && room <= bufLen) && (r >= 0 ==> r == EndOf(known, name, j))
            && (r == -1 ==> !ShortFront(known, name)) && (r < 0 ==> r == -1 || r == -2) && (r == -2 ==> bufLen < room)
            && j + 1 <= room
    decreases |name|
  {
    DotIsFirst(name);
    if !Has(known, name) && Dot(name) < |name| {
      OutcomeIs(known, name[Dot(name) + 1..], j + 1 + Dot(name), bufLen);
    }
  }

  /** What a packet is made of: names, and the header and the other fields between them. */
  datatype Part = Raw(bytes: seq<Byte>) | Name(name: seq<Byte>)

  /** There is room for a part at j, and it can be written. */
  ghost predicate Fits(part: Part, entries: seq<Entry>, j: nat, bufLen: nat)
  {
    PartEnd(part, entries, j) <= bufLen && (part.Name? ==> |part.name| <= 255 && ShortFront(entries, part.name))
  }

  ghost function PartEnd(part: Part, entries: seq<Entry>, j: nat): nat
  {
    match part
    case Raw(bytes) => j + |bytes|
    case Name(name) => EndOf(entries, name, j)
  }

  /** The table behind a row of parts, and where they end. */
  ghost function Laid(parts: seq<Part>): (seq<Entry>, nat)
  {
    if parts == [] then ([], 0)
    else
      var part := parts[|parts| - 1];
      var (entries, j) := Laid(parts[..|parts| - 1]);
      (if part.Name? then Gains(entries, part.name, j) else entries, PartEnd(part, entries, j))
  }

  lemma LaidNext(parts: seq<Part>, i: nat)
    requires i < |parts|
    ensures var (entries, j) := Laid(parts[..i]);
            Laid(parts[..i + 1]) == (if parts[i].Name? then Gains(entries, parts[i].name, j) else entries, PartEnd(parts[i], entries, j))
  {
    assert parts[..i + 1][..i] == parts[..i];
  }

  lemma NothingLaid(parts: seq<Part>)
    ensures Laid(parts[..0]) == ([], 0)
  {
  }

  /** Short labels are short before a known suffix too, and nothing else is asked where no suffix is known. */
  lemma {:induction false} ShortFrontIs(known: seq<Entry>, name: seq<Byte>)
    ensures ShortLabels(name) ==> ShortFront(known, name)
    ensures Known(known, name).None? ==> (ShortFront(known, name) <==> ShortLabels(name))
    decreases |name|
  {
    if Dot(name) < |name| {
      ShortFrontIs(known, name[Dot(name) + 1..]);
    }
  }

  /** The table after a name has been written at j: its new suffixes are in it at their places, while there is room. */
  ghost function Gains(entries: seq<Entry>, name: seq<Byte>, j: nat): seq<Entry>
    decreases |name|
  {
    if Has(entries, name) then entries
    else
      var more := With(entries, name, j);
      if Dot(name) == |name| then more else Gains(more, name[Dot(name) + 1..], j + 1 + Dot(name))
  }

  /** The name, or what stands behind one of its dots. */
  ghost predicate IsSuffix(name: seq<Byte>, suffix: seq<Byte>)
    decreases |name|
  {
    name == suffix || (Dot(name) < |name| && IsSuffix(name[Dot(name) + 1..], suffix))
  }

  lemma {:induction false} SuffixLength(name: seq<Byte>, suffix: seq<Byte>)
    requires IsSuffix(name, suffix)
    ensures |suffix| <= |name| && (suffix != name ==> Dot(name) < |name| && IsSuffix(name[Dot(name) + 1..], suffix) && |suffix| < |name|)
    decreases |name|
  {
    if suffix != name {
      SuffixLength(name[Dot(name) + 1..], suffix);
    }
  }

  lemma {:induction false} GainsKeeps(entries: seq<Entry>, name: seq<Byte>, j: nat)
    ensures entries <= Gains(entries, name, j)
    decreases |name|
  {
    if !Has(entries, name) && Dot(name) < |name| {
      GainsKeeps(With(entries, name, j), name[Dot(name) + 1..], j + 1 + Dot(name));
    }
  }

  lemma HeadGained(entries: seq<Entry>, name: seq<Byte>, j: nat)
    requires !Has(entries, name)
    ensures Entry(name, j) in Gains(entries, name, j) || |Gains(entries, name, j)| >= MAX_LABELS
  {
    hide Has;
    var more := With(entries, name, j);
    assert |entries| < MAX_LABELS ==> more[|entries|] == Entry(name, j);
    if Dot(name) < |name| {
      GainsKeeps(more, name[Dot(name) + 1..], j + 1 + Dot(name));
    }
  }

  /** Every suffix that was not known is in the table afterwards, at its place, unless the table is full. */
  lemma {:induction false} GainsAll(entries: seq<Entry>, name: seq<Byte>, j: nat, suffix: seq<Byte>)
    requires IsSuffix(name, suffix) && (Known(entries, name).Some? ==> |Known(entries, name).value| < |suffix|)
    ensures |suffix| <= |name|
    ensures Entry(suffix, j + |name| - |suffix|) in Gains(entries, name, j) || |Gains(entries, name, j)| >= MAX_LABELS
    decreases |name|
  {
    hide Known, Has, Gains, With, IsSuffix, Dot;
    SuffixLength(name, suffix);
    KnownIs(entries, name);
    if suffix == name {
      HeadGained(entries, name, j);
    } else {
      NextGains(entries, name, j);
      MoreKnown(entries, name, j);
      GainsAll(With(entries, name, j), name[Dot(name) + 1..], j + 1 + Dot(name), suffix);
    }
  }

  lemma KnownIs(entries: seq<Entry>, name: seq<Byte>)
    ensures Known(entries, name) == if Has(entries, name) then Some(name)
                                    else if Dot(name) < |name| then Known(entries, name[Dot(name) + 1..]) else None
  {
    hide Has, Dot;
  }

  /** An entry for a longer name tells nothing of a shorter one. */
  lemma {:induction false} LongerEntry(entries: seq<Entry>, more: seq<Entry>, e: Entry, name: seq<Byte>)
    requires (more == entries || more == entries + [e]) && |name| < |e.name|
    ensures Known(more, name) == Known(entries, name) && (Has(more, name) <==> Has(entries, name))
    decreases |name|
  {
    assert forall d :: d in entries ==> d in more;
    assert forall d :: d in more ==> d in entries || d == e;
    if Dot(name) < |name| {
      LongerEntry(entries, more, e, name[Dot(name) + 1..]);
    }
  }

  lemma MoreKnown(entries: seq<Entry>, name: seq<Byte>, j: nat)
    requires Dot(name) < |name|
    ensures Known(With(entries, name, j), name[Dot(name) + 1..]) == Known(entries, name[Dot(name) + 1..])
  {
    LongerEntry(entries, With(entries, name, j), Entry(name, j), name[Dot(name) + 1..]);
  }

  /** A name written again takes two bytes. */
  lemma AgainTwoBytes(entries: seq<Entry>, name: seq<Byte>, j: nat, again: nat)
    requires |entries| < MAX_LABELS
    ensures EndOf(Gains(entries, name, j), name, again) == again + 2
  {
    if !Has(entries, name) {
      var more := With(entries, name, j);
      assert Entry(name, j) in more;
      if Dot(name) < |name| {
        GainsKeeps(more, name[Dot(name) + 1..], j + 1 + Dot(name));
        assert Entry(name, j) in Gains(entries, name, j);
      }
    }
  }

  /** The last label of a name is not empty. */
  ghost predicate EndsInLabel(name: seq<Byte>)
  {
    name != [] && name[|name| - 1] != DOT
  }

  ghost predicate Gained(known: seq<Entry>, entries: seq<Entry>, left: int)
  {
    && (forall e :: e in known ==> e in entries)
    && (forall e :: e in entries ==> e in known || |e.name| > left)
  }

  lemma KnownStay(known: seq<Entry>, entries: seq<Entry>, left: int)
    requires Gained(known, entries, left)
    ensures forall e :: e in known ==> e in entries
  {
  }

  lemma GainedNext(known: seq<Entry>, before: seq<Entry>, after: seq<Entry>, e: Entry, left: int)
    requires Gained(known, before, |e.name|) && left < |e.name| && (after == before || after == before + [e])
    ensures Gained(known, after, left)
  {
    assert forall d :: d in after ==> d in before || d == e;
    assert forall d :: d in before ==> d in after;
  }

  /** While `name` is being written: the table has gained only longer names, and what is left tells all about the name. */
  ghost predicate Underway(known: seq<Entry>, entries: seq<Entry>, name: seq<Byte>, rest: seq<Byte>)
  {
    && Gained(known, entries, |rest|)
    && (Known(known, name).Some? <==> Known(known, rest).Some?) && (EndsInLabel(name) <==> EndsInLabel(rest))
    && (ShortLabels(name) <==> ShortLabels(rest))
  }

  lemma Begin(known: seq<Entry>, name: seq<Byte>)
    ensures Underway(known, known, name, name)
  {
  }

  /** What the table and the next dot tell. */
  lemma Turning(known: seq<Entry>, entries: seq<Entry>, name: seq<Byte>, rest: seq<Byte>, ref: Option<nat>)
    requires Underway(known, entries, name, rest)
    requires ref.Some? ==> Entry(rest, ref.value) in entries
    requires ref.None? ==> forall e :: e in entries ==> e.name != rest
    ensures ref.Some? <==> Has(known, rest)
    ensures ref.Some? <==> Has(entries, rest)
    ensures ref.Some? ==> Known(known, name).Some?
    ensures Dot(rest) > 63 ==> !ShortLabels(name)
    ensures ref.None? && Dot(rest) == |rest| <= 63 ==>
              Known(known, name).None? && ShortLabels(name) && (EndsInLabel(name) <==> rest != [])
  {
    DotIsFirst(rest);
  }

  lemma KnownNext(known: seq<Entry>, rest: seq<Byte>)
    requires Dot(rest) < |rest| && forall e :: e in known ==> e.name != rest
    ensures Known(known, rest) == Known(known, rest[Dot(rest) + 1..])
  {
  }

  lemma ShortNext(rest: seq<Byte>)
    requires Dot(rest) < |rest| && Dot(rest) <= 63
    ensures ShortLabels(rest) <==> ShortLabels(rest[Dot(rest) + 1..])
  {
  }

  lemma LastNext(rest: seq<Byte>)
    requires Dot(rest) < |rest|
    ensures EndsInLabel(rest) <==> EndsInLabel(rest[Dot(rest) + 1..])
  {
    hide Dot;
    DotIsFirst(rest);
    DotInside(rest);
  }

  lemma NextLabel(known: seq<Entry>, before: seq<Entry>, after: seq<Entry>, name: seq<Byte>, rest: seq<Byte>, jj: nat)
    requires Underway(known, before, name, rest) && Dot(rest) < |rest| && Dot(rest) <= 63
    requires forall e :: e in before ==> e.name != rest
    requires after == before || after == before + [Entry(rest, jj)]
    ensures Underway(known, after, name, rest[Dot(rest) + 1..])
  {
    hide Known, EndsInLabel, Gained, ShortLabels, Dot;
    assert forall e :: e in known ==> e.name != rest by { KnownStay(known, before, |rest|); }
    KnownNext(known, rest);
    LastNext(rest);
    ShortNext(rest);
    GainedNext(known, before, after, Entry(rest, jj), |rest[Dot(rest) + 1..]|);
  }

  /**
   * dnsname_to_labels: the index behind the name, -1 for a label that is too long, -2 where there is no room. The room
   * for the final zero is not checked: over tells that it would be written to buf[bufLen], behind the buffer.
   */
  method DnsnameToLabels(buf: array<Byte>, bufLen: nat, j: nat, name: seq<Byte>, table: LabelTable?) returns (r: int, over: bool)
    requires j <= bufLen <= buf.Length && (bufLen <= 0x4000 || j < 0x3f01) && 0 !in name
    requires Describes(EntriesOf(table), buf[..], j)
    modifies buf, if table == null then {} else {table}
    ensures buf[..j] == old(buf[..j])
    ensures over <==> |name| <= 255 && ShortLabels(name) && Known(old(EntriesOf(table)), name).None? && EndsInLabel(name)
                      && j + |name| + 1 == bufLen
    ensures over ==> r == bufLen + 1
    ensures r == if |name| > 255 then -2 else Outcome(old(EntriesOf(table)), name, j, bufLen)
    ensures r >= 0 ==> r == EndOf(old(EntriesOf(table)), name, j) <= j + |name| + 2
    ensures r >= 0 && !over <==> Fits(Name(name), old(EntriesOf(table)), j, bufLen)
    ensures r < 0 ==> r == -1 || r == -2
    ensures r == -1 ==> !ShortLabels(name)
    ensures r == -2 ==> |name| > 255 || bufLen < j + |name| + 2
    ensures r >= 0 && Known(old(EntriesOf(table)), name).None? ==> ShortLabels(name)
    ensures r >= 0 && table != null ==> table.entries == Gains(old(table.entries), name, j)
    ensures r >= 0 && !over ==> r <= bufLen && |name| <= 255 && Written(EntriesOf(table), buf[..], j, r, name)
  {
    hide Written, Describes, Trail, Pending, Underway, Known, EndsInLabel, ShortLabels, ShortFront, Outcome, EndOf, Gains, Has, Dot;
    OutcomeIs(EntriesOf(table), name, j, bufLen);
    EndIs(EntriesOf(table), name, j);
    ShortFrontIs(EntriesOf(table), name);
    if |name| > 255 {
      return -2, false;
    }
    ghost var known := EntriesOf(table);
    BeginWriting(known, buf[..], j, name);
    Begin(known, name);
    var rest, jj := name, j;
    while true
      invariant j <= jj <= bufLen && buf[..j] == old(buf[..j])
      invariant Writing(EntriesOf(table), buf[..], j, jj, name, rest)
      invariant known == old(EntriesOf(table)) && Underway(known, EntriesOf(table), name, rest)
      invariant Outcome(known, rest, jj, bufLen) == Outcome(known, name, j, bufLen)
      invariant table != null ==> Gains(table.entries, rest, jj) == Gains(known, name, j)
      decreases |rest|
    {
      var ref: Option<nat> := None;
      if table != null {
        ref := table.GetPos(rest);
      }
      ghost var before := EntriesOf(table);
      Turning(known, before, name, rest, ref);
      NextOutcome(known, rest, jj, bufLen);
      NextGains(before, rest, jj);
      if ref.Some? {
        if jj + 2 > bufLen {
          return -2, false;
        }
        WriteHit(buf, j, jj, name, rest, ref.value, before);
        return jj + 2, false;
      }
      var k := Dot(rest);
      if k > 63 {
        return -1, false;
      }
      if jj + k + 1 > bufLen {
        return -2, false;
      }
      if k == |rest| {
        r, over := WriteEnd(buf, bufLen, j, jj, name, rest, table);
        return;
      }
      WriteMore(buf, j, jj, name, rest, table);
      NextLabel(known, before, EntriesOf(table), name, rest, jj);
      rest, jj := rest[k + 1..], jj + 1 + k;
    }
  }

  lemma NextOutcome(known: seq<Entry>, name: seq<Byte>, j: nat, bufLen: nat)
    ensures var k := Dot(name);
            Outcome(known, name, j, bufLen)
            == if Has(known, name) then (if j + 2 > bufLen then -2 else j + 2)
               else if k > 63 then -1
               else if j + k + 1 > bufLen then -2
               else if k == |name| then j + 1 + |name| + (if name == [] then 0 else 1)
               else Outcome(known, name[k + 1..], j + 1 + k, bufLen)
    ensures Dot(name) <= |name|
  {
    hide Has, Dot;
    DotInside(name);
  }

  lemma NextGains(entries: seq<Entry>, name: seq<Byte>, j: nat)
    ensures Gains(entries, name, j)
            == if Has(entries, name) then entries
               else if Dot(name) == |name| then With(entries, name, j)
               else Gains(With(entries, name, j), name[Dot(name) + 1..], j + 1 + Dot(name))
  {
    hide Has, With, Dot;
  }

  /** A name of one byte where the room ends behind it: the zero goes to buf[2]. */
  method OneByteOver() returns (r: int, over: bool)
    ensures over && r == 3
  {
    var buf := new Byte[2](_ => 0);
    var name: seq<Byte> := [97];
    assert Describes([], buf[..], 0);
    assert Dot(name) == 1 by { assert name[1..] == []; }
    r, over := DnsnameToLabels(buf, 2, 0, name, null);
  }

  // ----- Round trip -----

  /** The name put at `at` reads back from what lies before lim, ending where the next one starts. */
  ghost predicate ReadsBack(p: seq<Byte>, at: nat, next: nat, lim: nat, name: seq<Byte>)
    requires lim <= |p|
  {
    && Decode(p, at, lim).Some? && Decode(p, at, lim).value.0 == WireLabels(name)
    && (NoGap(name) ==> Decode(p, at, lim).value.1 == next)
  }

  ghost predicate PartAt(p: seq<Byte>, at: nat, next: nat, lim: nat, part: Part)
    requires lim <= |p|
  {
    && at <= next <= lim
    && match part
       case Raw(bytes) => p[at..next] == bytes
       case Name(name) => |name| <= 255 && ReadsBack(p, at, next, lim, name)
  }

  lemma PartStable(p: seq<Byte>, q: seq<Byte>, at: nat, next: nat, lim: nat, lim': nat, part: Part)
    requires lim <= |p| && lim <= lim' <= |q| && p[..lim] == q[..lim] && PartAt(p, at, next, lim, part)
    ensures PartAt(q, at, next, lim', part)
  {
    SamePart(p, q, lim, at, next);
    if part.Name? {
      DecodeStable(p, q, at, lim, lim');
    }
  }

  lemma DescribesStable(entries: seq<Entry>, p: seq<Byte>, q: seq<Byte>, lim: nat, lim': nat)
    requires lim <= |p| && lim <= lim' <= |q| && p[..lim] == q[..lim] && Describes(entries, p, lim)
    ensures Describes(entries, q, lim')
  {
    forall i | 0 <= i < |entries| ensures EntryOk(q, lim', entries[i]) {
      EntryKept(p, q, lim, entries[i], lim', lim);
    }
  }

  lemma Nothing(p: seq<Byte>, lim: nat)
    requires lim <= |p|
    ensures Describes([], p, lim)
  {
  }

  lemma WrittenPart(entries: seq<Entry>, p: seq<Byte>, j: nat, r: nat, name: seq<Byte>)
    requires r <= |p| && |name| <= 255 && Written(entries, p, j, r, name)
    ensures Describes(entries, p, r) && PartAt(p, j, r, r, Name(name))
  {
  }

  /** APPEND16 and APPEND32, and the memcpy of raw data. */
  method AppendRaw(buf: array<Byte>, bufLen: nat, j: nat, bytes: seq<Byte>) returns (r: int)
    requires j <= bufLen <= buf.Length
    modifies buf
    ensures buf[..j] == old(buf[..j])
    ensures r == if j + |bytes| > bufLen then -2 else j + |bytes|
    ensures r >= 0 ==> PartAt(buf[..], j, r, r, Raw(bytes))
  {
    if j + |bytes| > bufLen {
      return -2;
    }
    forall k | 0 <= k < |bytes| {
      buf[j + k] := bytes[k];
    }
    r := j + |bytes|;
    assert buf[..][j..r] == bytes;
  }

  /** One part, behind what the table describes. */
  method WritePart(buf: array<Byte>, bufLen: nat, j: nat, part: Part, table: LabelTable) returns (r: int, over: bool)
    requires j <= bufLen <= buf.Length && bufLen <= 0x4000 && (part.Name? ==> 0 !in part.name)
    requires Describes(table.entries, buf[..], j)
    modifies buf, table
    ensures buf[..j] == old(buf[..j])
    ensures r >= 0 && !over ==> j <= r <= bufLen && Describes(table.entries, buf[..], r) && PartAt(buf[..], j, r, r, part)
    ensures r >= 0 && !over <==> Fits(part, old(table.entries), j, bufLen)
    ensures r >= 0 ==> r == PartEnd(part, old(table.entries), j)
    ensures r >= 0 ==> table.entries == if part.Name? then Gains(old(table.entries), part.name, j) else old(table.entries)
  {
    hide Written, Describes, ShortLabels, Known, EndsInLabel, EndOf, Gains, ShortFront;
    match part
    case Raw(bytes) =>
      over := false;
      ghost var p := buf[..];
      r := AppendRaw(buf, bufLen, j, bytes);
      if r >= 0 {
        assert p[..j] == buf[..][..j];
        DescribesStable(table.entries, p, buf[..], j, r);
      }
    case Name(name) =>
      r, over := DnsnameToLabels(buf, bufLen, j, name, table);
      if r >= 0 && !over {
        WrittenPart(table.entries, buf[..], j, r, name);
        assert j <= r;
      }
  }

  /** A packet: names share one table wherever they stand in it. Part i lies from at[i] on; the first that does not fit ends it. */
  method WriteParts(buf: array<Byte>, bufLen: nat, parts: seq<Part>) returns (r: int, over: bool, at: seq<nat>)
    requires bufLen <= buf.Length && bufLen <= 0x4000 && forall i :: 0 <= i < |parts| && parts[i].Name? ==> 0 !in parts[i].name
    modifies buf
    ensures |at| > 0 && at[0] == 0 && (r >= 0 && !over ==> r <= bufLen && |at| == |parts| + 1 && at[|parts|] == r)
    ensures r >= 0 && !over ==> forall i :: 0 <= i < |parts| ==> PartAt(buf[..], at[i], at[i + 1], r, parts[i])
    ensures forall i :: 0 <= i < |at| && i <= |parts| ==> at[i] == Laid(parts[..i]).1
    ensures r < 0 || over ==> 0 < |at| <= |parts| && var i := |at| - 1; !Fits(parts[i], Laid(parts[..i]).0, at[i], bufLen)
    ensures forall i :: 0 <= i < |at| - 1 && i < |parts| ==> Fits(parts[i], Laid(parts[..i]).0, at[i], bufLen)
  {
    hide PartAt, Describes, Fits, PartEnd, Laid;
    var table := new LabelTable();
    r, over, at := 0, false, [0];
    Nothing(buf[..], 0);
    NothingLaid(parts);
    for i := 0 to |parts|
      invariant 0 <= r <= bufLen && !over && |at| == i + 1 && at[i] == r && at[0] == 0
      invariant Describes(table.entries, buf[..], r) && table.entries == Laid(parts[..i]).0
      invariant forall k :: 0 <= k <= i ==> at[k] == Laid(parts[..k]).1
      invariant forall k :: 0 <= k < i ==> Fits(parts[k], Laid(parts[..k]).0, at[k], bufLen)
      invariant forall k :: 0 <= k < i ==> PartAt(buf[..], at[k], at[k + 1], r, parts[k])
    {
      ghost var p := buf[..];
      LaidNext(parts, i);
      var next;
      next, over := WritePart(buf, bufLen, r, parts[i], table);
      if next < 0 || over {
        return next, over, at;
      }
      assert p[..r] == buf[..][..r];
      forall k | 0 <= k < i ensures PartAt(buf[..], at[k], at[k + 1], next, parts[k]) {
        PartStable(p, buf[..], at[k], at[k + 1], r, next, parts[k]);
      }
      r, at := next, at + [next];
    }
  }

  /** The parse of a name is its labels up to the first empty one: the name itself exactly when it is clean. */
  ghost predicate ParsedRight(parsed: Parse, name: seq<Byte>, next: nat)
  {
    && parsed.Parsed? && parsed.name == Join(WireLabels(name))
    && (parsed.name == name <==> Clean(name))
    && (Clean(name) ==> parsed.idx == next)
  }

  /** Parsing every name at its start gives it back exactly when no label of it is empty; then it also ends where it should. */
  method ParseNames(packet: seq<Byte>, length: nat, at: seq<nat>, parts: seq<Part>) returns (parsed: seq<Parse>)
    requires length <= |packet| && |at| == |parts| + 1
    requires forall i :: 0 <= i < |parts| ==> PartAt(packet, at[i], at[i + 1], length, parts[i])
    ensures |parsed| == |parts|
    ensures forall i :: 0 <= i < |parts| && parts[i].Name? ==> ParsedRight(parsed[i], parts[i].name, at[i + 1])
  {
    hide ParsedRight;
    parsed := [];
    for i := 0 to |parts|
      invariant |parsed| == i
      invariant forall k :: 0 <= k < i && parts[k].Name? ==> ParsedRight(parsed[k], parts[k].name, at[k + 1])
    {
      var r := Malformed;
      if parts[i].Name? {
        r := NameParse(packet, length, at[i], 256);
        ParseIsRight(packet, length, parts[i].name, at[i], at[i + 1], r);
      }
      parsed := parsed + [r];
    }
  }

  lemma ParseIsRight(p: seq<Byte>, length: nat, name: seq<Byte>, at: nat, next: nat, r: Parse)
    requires length <= |p| && |name| <= 255 && ReadsBack(p, at, next, length, name)
    requires var d := Decode(p, at, length);
             d.Some? && |Join(d.value.0)| < 256 ==> r == Parsed(Join(d.value.0), d.value.1)
    ensures ParsedRight(r, name, next)
  {
    JoinOfLabels(name);
    if Clean(name) {
      CleanHasNoGap(name);
    }
  }

  /** A packet is written, sent, received in front of other bytes and parsed. */
  method WriteThenParse(bufLen: nat, parts: seq<Part>, behind: seq<Byte>) returns (r: int, over: bool, parsed: seq<Parse>, at: seq<nat>)
    requires bufLen <= 0x4000 && forall i :: 0 <= i < |parts| && parts[i].Name? ==> 0 !in parts[i].name
    ensures r >= 0 && !over ==> |parsed| == |parts| == |at| - 1
    ensures |at| > 0 && at[0] == 0
    ensures r >= 0 && !over ==>
              forall i :: 0 <= i < |parts| && parts[i].Name? ==> ParsedRight(parsed[i], parts[i].name, at[i + 1])
    ensures forall i :: 0 <= i < |at| && i <= |parts| ==> at[i] == Laid(parts[..i]).1
    ensures r < 0 || over ==> 0 < |at| <= |parts| && var i := |at| - 1; !Fits(parts[i], Laid(parts[..i]).0, at[i], bufLen)
    ensures r >= 0 && !over ==> r == Laid(parts).1
  {
    hide PartAt, ParsedRight, Fits, PartEnd, Laid;
    assert parts[..|parts|] == parts;
    var buf := new Byte[bufLen](_ => 0);
    r, over, at := WriteParts(buf, bufLen, parts);
    parsed := [];
    if r >= 0 && !over {
      var packet := buf[..r] + behind;
      forall i | 0 <= i < |parts| ensures PartAt(packet, at[i], at[i + 1], r, parts[i]) {
        PartStable(buf[..], packet, at[i], at[i + 1], r, r, parts[i]);
      }
      parsed := ParseNames(packet, r, at, parts);
    }
  }

  /** "a..b" comes back as "a". */
  method EmptyLabelLost() returns (parsed: seq<Parse>)
    ensures |parsed| == 1 && parsed[0].Parsed? && parsed[0].name == [97]
  {
    var name: seq<Byte> := [97, DOT, DOT, 98];
    var r, over, at;
    assert Dot(name) == 1 by { assert Dot(name[1..]) == 0; }
    assert Dot(name[2..]) == 0;
    assert Dot(name[3..]) == 1 by { assert name[3..][1..] == []; }
    assert name[2..][0 + 1..] == name[3..];
    assert ShortLabels(name[3..]) && ShortLabels(name[2..]) && ShortLabels(name);
    assert WireLabels(name) == [[97]] by { assert name[..1] == [97] && WireLabels(name[2..]) == []; }
    FitsWhole(name, [], 0, 16);
    assert [Name(name)][..0] == [];
    r, over, parsed, at := WriteThenParse(16, [Name(name)], []);
  }

  /** A name of short labels fits where there is room for all of it. */
  lemma FitsWhole(name: seq<Byte>, entries: seq<Entry>, j: nat, bufLen: nat)
    requires |name| <= 255 && ShortLabels(name) && j + |name| + 2 <= bufLen
    ensures Fits(Name(name), entries, j, bufLen)
  {
    EndIs(entries, name, j);
    ShortFrontIs(entries, name);
  }

  /** Five bytes for a.b, and two for the second time: seven, in a room of seven. */
  method TwiceInSeven() returns (r: int, over: bool)
    ensures r == 7 && !over
  {
    var name: seq<Byte> := [97, DOT, 98];
    var parts := [Name(name), Name(name)];
    assert Dot(name) == 1 by { assert Dot(name[1..]) == 0; }
    assert Dot(name[2..]) == 1 by { assert name[2..][1..] == []; }
    assert ShortLabels(name[2..]) && ShortLabels(name);
    FitsWhole(name, [], 0, 7);
    EndIs([], name, 0);
    NothingKnown(name);
    assert parts[..0] == [] && parts[..1] == [Name(name)] && parts[..1][..0] == [] && parts[..2] == parts;
    assert Laid(parts[..1]) == (Gains([], name, 0), 5);
    AgainTwoBytes([], name, 0, 5);
    ShortFrontIs(Gains([], name, 0), name);
    assert Laid(parts).1 == 7;
    var parsed, at;
    r, over, parsed, at := WriteThenParse(7, parts, []);
  }

  // ----- Requests -----

  /** evdns_request_len and evdns_request_data_build: the room is always enough, so a request fails only for its name. */
  method BuildRequest(header: seq<Byte>, name: seq<Byte>, question: seq<Byte>) returns (r: int, request: array<Byte>)
    requires |header| == 12 && |question| == 4 && 0 !in name
    ensures r >= 0 <==> |name| <= 255 && ShortLabels(name)
    ensures r >= 0 ==> 16 <= r <= request.Length && request[..12] == header && request[r - 4..r] == question
                       && PartAt(request[..], 12, r - 4, r, Name(name))
  {
    hide Written, Describes, PartAt, ShortLabels;
    var bufLen := 96 + |name| + 2 + 4;
    request := new Byte[bufLen](_ => 0);
    r := AppendRaw(request, bufLen, 0, header);
    assert request[..12] == header by { RawIs(request[..], 0, 12, r, header); }
    assert Describes([], request[..], r) by { Nothing(request[..], r); }
    var over;
    r, over := DnsnameToLabels(request, bufLen, r, name, null);
    assert Known([], name).None? by { NothingKnown(name); }
    if r < 0 {
      return r, request;
    }
    assert !over;
    var end: nat := r;
    ghost var p := request[..];
    WrittenPart([], p, 12, end, name);
    assert p[..12] == header;
    r := AppendRaw(request, bufLen, end, question);
    assert p[..end] == request[..][..end];
    PartStable(p, request[..], 12, end, end, r, Name(name));
    RawIs(request[..], end, r, r, question);
    assert request[..12] == request[..][..end][..12] == p[..12];
  }

  lemma RawIs(p: seq<Byte>, at: nat, next: nat, lim: nat, bytes: seq<Byte>)
    requires lim <= |p| && PartAt(p, at, next, lim, Raw(bytes))
    ensures at <= next <= lim && p[at..next] == bytes
  {
  }

  lemma {:induction false} NothingKnown(name: seq<Byte>)
    ensures Known([], name).None?
    decreases |name|
  {
    if Dot(name) < |name| {
      NothingKnown(name[Dot(name) + 1..]);
    }
  }
}
