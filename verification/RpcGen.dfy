/** The marshal and unmarshal code that event_rpcgen.py generates from a schema. */
module RpcGen {
  import opened Wrappers
  import opened Bytes
  import opened Wire
  import opened EvBuffers
  import Tagging

  datatype Kind = Int32 | Int64 | Fixed(length: nat) | VarBytes | Str | Ref(name: nat)

  datatype Mode = Required | Optional | Array

  datatype Entry = Entry(tag: nat, kind: Kind, mode: Mode)

  /** The structs of a file; Ref names one of them by its place. */
  type Schema = seq<seq<Entry>>

  datatype Value = Num(n: nat) | Data(bytes: seq<Byte>) | Msg(fields: seq<Field>)

  /**
   * The values of an entry: none if it is not set, and more than one only in an array. A number that is not set keeps
   * what its memory holds: 0, or the number it had before it was cleared.
   */
  datatype Field = Field(values: seq<Value>, kept: nat)

  predicate DistinctTags(es: seq<Entry>)
  {
    forall i, j :: 0 <= i < j < |es| ==> es[i].tag != es[j].tag
  }

  /** Entry.Verify, EntryBytes.Verify, and the references resolved. */
  predicate Verified(e: Entry, structs: nat)
  {
    && e.tag <= UINT32_MAX && (e.kind.Fixed? ==> e.kind.length > 0) && (e.kind.Ref? ==> e.kind.name < structs)
    && (e.mode == Array ==> !e.kind.Fixed? && e.kind != VarBytes)
  }

  /** The schemas that the generator accepts. */
  predicate Accepted(ss: Schema)
  {
    forall es :: es in ss ==> DistinctTags(es) && forall e :: e in es ==> Verified(e, |ss|)
  }

  class Struct {
    var entries: seq<Entry>
    /** The keys of _tags. */
    var tags: set<nat>

    constructor ()
      ensures Valid() && entries == []
    {
      entries, tags := [], {};
    }

    ghost predicate Valid()
      reads this
    {
      DistinctTags(entries) && tags == set e | e in entries :: e.tag
    }

    /** AddEntry, which raises an error for a tag that is taken. */
    method AddEntry(e: Entry) returns (ok: bool)
      requires Valid()
      modifies this
      ensures Valid() && (ok <==> DistinctTags(old(entries) + [e]))
      ensures entries == if ok then old(entries) + [e] else old(entries)
    {
      if e.tag in tags {
        ghost var d :| d in entries && d.tag == e.tag;
        ghost var i :| 0 <= i < |entries| && entries[i] == d;
        assert (entries + [e])[i].tag == (entries + [e])[|entries|].tag;
        return false;
      }
      forall i | 0 <= i < |entries| ensures entries[i].tag != e.tag {
        assert entries[i] in entries;
      }
      entries, tags := entries + [e], tags + {e.tag};
      return true;
    }
  }

  /** A string ends at its first zero. */
  function CString(s: seq<Byte>): (c: seq<Byte>)
    ensures c <= s && 0 !in c && (|c| < |s| ==> s[|c|] == 0)
  {
    if s == [] || s[0] == 0 then [] else [s[0]] + CString(s[1..])
  }

  lemma {:induction false} CStringWhole(s: seq<Byte>)
    requires 0 !in s
    ensures CString(s) == s
  {
    if s != [] {
      CStringWhole(s[1..]);
    }
  }

  function To64(n: nat): (m: nat)
    ensures m <= UINT64_MAX && (n <= UINT64_MAX ==> m == n)
  {
    n % (UINT64_MAX + 1)
  }

  /** What one value puts into its record. */
  function Payload(ss: Schema, kind: Kind, v: Value): seq<Byte>
    decreases v
  {
    match v
    case Num(n) => EncodeInt(To64(n))
    case Data(bytes) => bytes
    case Msg(fs) => if kind.Ref? && kind.name < |ss| then MarshalFields(ss, ss[kind.name], fs) else []
  }

  function MarshalValues(ss: Schema, e: Entry, vs: seq<Value>): seq<Byte>
    decreases vs, 0
  {
    if vs == [] then [] else Marshal(Record(e.tag, Payload(ss, e.kind, vs[0]))) + MarshalValues(ss, e, vs[1..])
  }

  function Zeros(n: nat): (s: seq<Byte>)
    ensures |s| == n
  {
    seq(n, _ => 0)
  }

  /**
   * What the memory of an entry that is not set holds: a number, zeros, or a null pointer, which counts for no bytes
   * in a variable array and for a struct without entries, and cannot be followed otherwise.
   */
  function Unset(ss: Schema, kind: Kind, kept: nat): Option<Value>
  {
    match kind
    case Int32 => Some(Num(kept))
    case Int64 => Some(Num(kept))
    case Fixed(length) => Some(Data(Zeros(length)))
    case VarBytes => Some(Data([]))
    case Str => None
    case Ref(name) => if name < |ss| && ss[name] == [] then Some(Msg([])) else None
  }

  /** The record of such an entry. */
  function UnsetRecord(ss: Schema, e: Entry, kept: nat): seq<Byte>
  {
    match Unset(ss, e.kind, kept)
    case Some(Num(n)) => Marshal(Record(e.tag, EncodeInt(To64(n))))
    case Some(Data(bytes)) => Marshal(Record(e.tag, bytes))
    case Some(Msg(_)) => Marshal(Record(e.tag, []))
    case None => []
  }

  /** One entry: the test of the set flag guards only an optional one and an array. */
  function MarshalEntry(ss: Schema, e: Entry, vs: seq<Value>, kept: nat): seq<Byte>
    decreases vs, 1
  {
    if vs == [] && e.mode == Required then UnsetRecord(ss, e, kept) else MarshalValues(ss, e, vs)
  }

  /** The generated marshal function: the entries in their order. */
  function MarshalFields(ss: Schema, es: seq<Entry>, fs: seq<Field>): seq<Byte>
    decreases fs
  {
    if es == [] || fs == [] then [] else MarshalEntry(ss, es[0], fs[0].values, fs[0].kept) + MarshalFields(ss, es[1..], fs[1..])
  }

  /** The marshal function follows no null pointer. */
  predicate Defined(ss: Schema, es: seq<Entry>, fs: seq<Field>)
    decreases fs
  {
    es == [] || fs == [] || (DefinedEntry(ss, es[0], fs[0].values) && Defined(ss, es[1..], fs[1..]))
  }

  predicate DefinedEntry(ss: Schema, e: Entry, vs: seq<Value>)
    decreases vs, 1
  {
    (vs == [] && e.mode == Required ==> Unset(ss, e.kind, 0).Some?) && DefinedValues(ss, e.kind, vs)
  }

  predicate DefinedValues(ss: Schema, kind: Kind, vs: seq<Value>)
    decreases vs, 0
  {
    vs == [] || (DefinedValue(ss, kind, vs[0]) && DefinedValues(ss, kind, vs[1..]))
  }

  predicate DefinedValue(ss: Schema, kind: Kind, v: Value)
    decreases v
  {
    v.Msg? && kind.Ref? && kind.name < |ss| ==> Defined(ss, ss[kind.name], v.fields)
  }

  /** A message with what its memory holds in place of the required entries that are not set, at every depth. */
  function Filled(ss: Schema, es: seq<Entry>, fs: seq<Field>): seq<Field>
    decreases fs
  {
    if es == [] || fs == [] then fs
    else [Field(FilledEntry(ss, es[0], fs[0].values, fs[0].kept), 0)] + Filled(ss, es[1..], fs[1..])
  }

  function FilledEntry(ss: Schema, e: Entry, vs: seq<Value>, kept: nat): seq<Value>
    decreases vs, 1
  {
    if vs == [] && e.mode == Required && Unset(ss, e.kind, kept).Some? then [Unset(ss, e.kind, kept).value]
    else FilledValues(ss, e.kind, vs)
  }

  function FilledValues(ss: Schema, kind: Kind, vs: seq<Value>): seq<Value>
    decreases vs, 0
  {
    if vs == [] then [] else [FilledValue(ss, kind, vs[0])] + FilledValues(ss, kind, vs[1..])
  }

  function FilledValue(ss: Schema, kind: Kind, v: Value): Value
    decreases v
  {
    if v.Msg? && kind.Ref? && kind.name < |ss| then Msg(Filled(ss, ss[kind.name], v.fields)) else v
  }

  /** A message as its get functions show it. */
  function Shown(fs: seq<Field>): seq<Field>
  {
    if fs == [] then [] else [Field(ShownValues(fs[0].values), 0)] + Shown(fs[1..])
  }

  function ShownValues(vs: seq<Value>): seq<Value>
  {
    if vs == [] then [] else [ShownValue(vs[0])] + ShownValues(vs[1..])
  }

  function ShownValue(v: Value): Value
  {
    match v
    case Msg(fs) => Msg(Shown(fs))
    case _ => v
  }

  /** A value that an entry of this kind can hold, and whose record is not too long. */
  predicate Typed(ss: Schema, kind: Kind, v: Value)
    decreases v
  {
    match kind
    case Int32 => v.Num? && v.n <= UINT32_MAX
    case Int64 => v.Num? && v.n <= UINT64_MAX
    case Fixed(length) => v.Data? && |v.bytes| == length <= INT_MAX
    case VarBytes => v.Data? && |v.bytes| <= INT_MAX
    case Str => v.Data? && 0 !in v.bytes && |v.bytes| <= INT_MAX
    case Ref(name) => v.Msg? && name < |ss| && TypedFields(ss, ss[name], v.fields) && |Payload(ss, kind, v)| <= INT_MAX
  }

  predicate TypedValues(ss: Schema, e: Entry, vs: seq<Value>)
    decreases vs
  {
    vs == [] || (Typed(ss, e.kind, vs[0]) && TypedValues(ss, e, vs[1..]))
  }

  /** What the memory of an entry holds fits a record. */
  predicate KeptFits(kind: Kind, kept: nat)
  {
    match kind
    case Int32 => kept <= UINT32_MAX
    case Int64 => kept <= UINT64_MAX
    case Fixed(length) => length <= INT_MAX
    case _ => true
  }

  /** A message of a struct: only an array has more than one value. */
  predicate TypedFields(ss: Schema, es: seq<Entry>, fs: seq<Field>)
    decreases fs
  {
    && |es| == |fs|
    && (fs == [] || (TypedValues(ss, es[0], fs[0].values) && (es[0].mode == Array || |fs[0].values| <= 1) &&
                     KeptFits(es[0].kind, fs[0].kept) && TypedFields(ss, es[1..], fs[1..])))
  }

  /** The generated complete function. */
  predicate Complete(ss: Schema, es: seq<Entry>, fs: seq<Field>)
    decreases fs
  {
    es == [] || fs == [] ||
    ((es[0].mode == Required ==> fs[0].values != []) && CompleteValues(ss, es[0].kind, fs[0].values) &&
     Complete(ss, es[1..], fs[1..]))
  }

  predicate CompleteValues(ss: Schema, kind: Kind, vs: seq<Value>)
    decreases vs
  {
    vs == [] || (CompleteValue(ss, kind, vs[0]) && CompleteValues(ss, kind, vs[1..]))
  }

  predicate CompleteValue(ss: Schema, kind: Kind, v: Value)
    decreases v
  {
    v.Msg? && kind.Ref? && kind.name < |ss| ==> Complete(ss, ss[kind.name], v.fields)
  }

  /** The case of the switch for a tag. */
  function Find(es: seq<Entry>, tag: nat): (r: Option<nat>)
    ensures r.Some? ==> r.value < |es| && es[r.value].tag == tag
  {
    if es == [] then None
    else if es[0].tag == tag then Some(0)
    else
      match Find(es[1..], tag)
      case None => None
      case Some(j) => Some(j + 1)
  }

  lemma {:induction false} FindDistinct(es: seq<Entry>, j: nat)
    requires DistinctTags(es) && j < |es|
    ensures Find(es, es[j].tag) == Some(j)
  {
    if j > 0 {
      FindDistinct(es[1..], j - 1);
      assert es[0].tag != es[j].tag;
    }
  }

  function Map(r: Option<(seq<Byte>, seq<Byte>)>): Option<(Value, seq<Byte>)>
  {
    match r
    case None => None
    case Some((data, rest)) => Some((Data(data), rest))
  }

  /** The generated code of one case: one value, and what follows it. */
  function UnmarshalValue(ss: Schema, e: Entry, s: seq<Byte>): (r: Option<(Value, seq<Byte>)>)
    ensures r.Some? ==> |r.value.1| < |s|
    decreases |s|, 0
  {
    match e.kind
    case Int32 => (match UnmarshalInt(s, e.tag, 8) case None => None case Some((n, rest)) => Some((Num(n), rest)))
    case Int64 => (match UnmarshalInt(s, e.tag, 16) case None => None case Some((n, rest)) => Some((Num(n), rest)))
    case Fixed(length) => Map(UnmarshalFixed(s, e.tag, Some(length)))
    case VarBytes =>
      (match PayloadLength(s)
       case None => None
       case Some(n) => if n > |s| then None else Map(UnmarshalFixed(s, e.tag, Some(n))))
    case Str =>
      (match UnmarshalFixed(s, e.tag, None)
       case None => None
       case Some((data, rest)) => Some((Data(CString(data)), rest)))
    case Ref(name) =>
      (match Unmarshal(s)
       case None => None
       case Some((r, rest)) =>
         if r.tag != e.tag || name >= |ss| then None
         else
           match UnmarshalMsg(ss, name, r.payload)
           case None => None
           case Some(fs) => Some((Msg(fs), rest)))
  }

  /** The generated unmarshal loop, with the entries read so far. */
  function UnmarshalLoop(ss: Schema, es: seq<Entry>, acc: seq<Field>, s: seq<Byte>): (r: Option<seq<Field>>)
    requires |acc| == |es|
    decreases |s|, 1
  {
    if s == [] then Some(acc)
    else
      match DecodeTag(s)
      case None => None
      case Some((tag, _)) =>
        match Find(es, tag)
        case None => None
        case Some(j) =>
          if es[j].mode != Array && acc[j].values != [] then None
          else
            match UnmarshalValue(ss, es[j], s)
            case None => None
            case Some((v, rest)) => UnmarshalLoop(ss, es, acc[j := Field(acc[j].values + [v], 0)], rest)
  }

  function Empty(n: nat): (fs: seq<Field>)
    ensures |fs| == n
  {
    seq(n, _ => Field([], 0))
  }

  /** The generated unmarshal function on a new message. */
  function UnmarshalMsg(ss: Schema, name: nat, s: seq<Byte>): Option<seq<Field>>
    requires name < |ss|
    decreases |s|, 2
  {
    match UnmarshalLoop(ss, ss[name], Empty(|ss[name]|), s)
    case None => None
    case Some(fs) => if Complete(ss, ss[name], fs) then Some(fs) else None
  }

  /** The value that a payload is, for an entry of this kind. */
  ghost function ValueOf(ss: Schema, kind: Kind, payload: seq<Byte>): Option<Value>
  {
    match kind
    case Int32 => (match DecodeInt(payload, 8) case None => None case Some((n, _)) => Some(Num(n)))
    case Int64 => (match DecodeInt(payload, 16) case None => None case Some((n, _)) => Some(Num(n)))
    case Fixed(length) => if |payload| == length <= INT_MAX then Some(Data(payload)) else None
    case VarBytes => if |payload| <= INT_MAX then Some(Data(payload)) else None
    case Str => if |payload| <= INT_MAX then Some(Data(CString(payload))) else None
    case Ref(name) =>
      if |payload| > INT_MAX || name >= |ss| then None
      else
        match UnmarshalMsg(ss, name, payload)
        case None => None
        case Some(fs) => Some(Msg(fs))
  }

  /** One case of the switch takes the record in front, if that has the tag, and reads its payload. */
  lemma {:induction false} UnmarshalValueIs(ss: Schema, e: Entry, s: seq<Byte>)
    ensures UnmarshalValue(ss, e, s) ==
            match FirstRecord(s)
            case None => None
            case Some((r, rest)) =>
              if r.tag != e.tag then None
              else
                match ValueOf(ss, e.kind, r.payload)
                case None => None
                case Some(v) => Some((v, rest))
  {
    hide DecodeTag, DecodeInt, UnmarshalInt, Unmarshal, UnmarshalMsg, CString;
    UnmarshalFirst(s);
    UnmarshalIntIs(s, e.tag, 8);
    UnmarshalIntIs(s, e.tag, 16);
  }

  /** The values of an entry: those of the records with its tag, in order. */
  ghost function ValuesOf(ss: Schema, e: Entry, rs: seq<Record>): seq<Value>
  {
    if rs == [] then []
    else if rs[0].tag == e.tag && ValueOf(ss, e.kind, rs[0].payload).Some? then
      [ValueOf(ss, e.kind, rs[0].payload).value] + ValuesOf(ss, e, rs[1..])
    else ValuesOf(ss, e, rs[1..])
  }

  /** The message that the records are. */
  ghost function Collected(ss: Schema, es: seq<Entry>, rs: seq<Record>): (fs: seq<Field>)
    ensures |fs| == |es|
  {
    seq(|es|, j requires 0 <= j < |es| => Field(ValuesOf(ss, es[j], rs), 0))
  }

  /** A record has the tag of an entry, and a value that the entry can hold. */
  ghost predicate Readable(ss: Schema, es: seq<Entry>, r: Record)
  {
    exists e :: e in es && e.tag == r.tag && ValueOf(ss, e.kind, r.payload).Some?
  }

  ghost predicate AllReadable(ss: Schema, es: seq<Entry>, rs: seq<Record>)
  {
    forall q :: q in rs ==> Readable(ss, es, q)
  }

  /** No entry that is not an array occurs twice. */
  ghost predicate Once(es: seq<Entry>, rs: seq<Record>)
  {
    forall e, i, k :: e in es && 0 <= i < k < |rs| && rs[i].tag == e.tag == rs[k].tag ==> e.mode == Array
  }

  /** Every required entry occurs. */
  ghost predicate AllThere(es: seq<Entry>, rs: seq<Record>)
  {
    forall e :: e in es && e.mode == Required ==> Occurs(e, rs)
  }

  ghost predicate Occurs(e: Entry, rs: seq<Record>)
  {
    exists q :: q in rs && q.tag == e.tag
  }

  /** No entry that is not an array and has a value occurs. */
  ghost predicate Fresh(es: seq<Entry>, acc: seq<Field>, rs: seq<Record>)
    requires |acc| == |es|
  {
    forall j :: 0 <= j < |es| && es[j].mode != Array && acc[j].values != [] ==> !Occurs(es[j], rs)
  }

  ghost function Extended(ss: Schema, es: seq<Entry>, acc: seq<Field>, rs: seq<Record>): (fs: seq<Field>)
    requires |acc| == |es|
    ensures |fs| == |es|
  {
    seq(|es|, j requires 0 <= j < |es| => Field(acc[j].values + ValuesOf(ss, es[j], rs), 0))
  }

  lemma {:induction false} FindNone(es: seq<Entry>, tag: nat)
    ensures Find(es, tag).None? <==> forall e :: e in es ==> e.tag != tag
  {
    if es != [] {
      FindNone(es[1..], tag);
      assert es == [es[0]] + es[1..];
    }
  }

  /** The record in front, in the middle of the loop. */
  lemma {:induction false} OneMore(ss: Schema, es: seq<Entry>, acc: seq<Field>, j: nat, v: Value, r: Record, rs: seq<Record>)
    requires DistinctTags(es) && |acc| == |es| && j < |es| && es[j].tag == r.tag && ValueOf(ss, es[j].kind, r.payload) == Some(v)
    requires es[j].mode == Array || acc[j].values == []
    ensures var acc1 := acc[j := Field(acc[j].values + [v], 0)];
            && AllReadable(ss, es, [r] + rs) == AllReadable(ss, es, rs)
            && (Once(es, [r] + rs) && Fresh(es, acc, [r] + rs) <==> Once(es, rs) && Fresh(es, acc1, rs))
            && Extended(ss, es, acc, [r] + rs) == Extended(ss, es, acc1, rs)
  {
    hide ValueOf;
    var all, acc1 := [r] + rs, acc[j := Field(acc[j].values + [v], 0)];
    assert Readable(ss, es, r) by { assert es[j] in es; }
    assert all[1..] == rs;
    OneMoreFresh(es, acc, acc1, j, r, rs);
    forall i | 0 <= i < |es| ensures acc[i].values + ValuesOf(ss, es[i], all) == acc1[i].values + ValuesOf(ss, es[i], rs) {
      if i != j {
        assert es[i].tag != r.tag;
      }
    }
  }

  lemma {:induction false} OneMoreFresh(es: seq<Entry>, acc: seq<Field>, acc1: seq<Field>, j: nat, r: Record, rs: seq<Record>)
    requires DistinctTags(es) && |acc| == |acc1| == |es| && j < |es| && es[j].tag == r.tag
    requires (forall i :: 0 <= i < |es| && i != j ==> acc1[i] == acc[i]) && acc1[j].values != []
    requires es[j].mode == Array || acc[j].values == []
    ensures Once(es, [r] + rs) && Fresh(es, acc, [r] + rs) <==> Once(es, rs) && Fresh(es, acc1, rs)
  {
    var all := [r] + rs;
    if Once(es, all) && Fresh(es, acc, all) {
      forall e, i, k | e in es && 0 <= i < k < |rs| && rs[i].tag == e.tag == rs[k].tag ensures e.mode == Array {
        assert all[i + 1] == rs[i] && all[k + 1] == rs[k];
      }
      forall i | 0 <= i < |es| && es[i].mode != Array && acc1[i].values != [] ensures !Occurs(es[i], rs) {
        assert es[i] in es && all[0] == r;
        forall q | q in rs ensures q.tag != es[i].tag {
          var k :| 0 <= k < |rs| && rs[k] == q;
          assert all[k + 1] == q && q in all;
        }
      }
    }
    if Once(es, rs) && Fresh(es, acc1, rs) {
      forall e, i, k | e in es && 0 <= i < k < |all| && all[i].tag == e.tag == all[k].tag ensures e.mode == Array {
        assert all[k] == rs[k - 1] && rs[k - 1] in rs;
        if i == 0 {
          var m :| 0 <= m < |es| && es[m] == e;
          assert m == j && Occurs(es[j], rs);
        } else {
          assert all[i] == rs[i - 1];
        }
      }
      forall i | 0 <= i < |es| && es[i].mode != Array && acc[i].values != [] ensures !Occurs(es[i], all) {
        assert i != j && es[i].tag != r.tag && !Occurs(es[i], rs);
        assert forall q :: q in all ==> q == r || q in rs;
      }
    }
  }

  /** The loop, from the middle on. */
  lemma {:induction false} LoopIs(ss: Schema, es: seq<Entry>, acc: seq<Field>, s: seq<Byte>)
    requires DistinctTags(es) && |acc| == |es| && forall j :: 0 <= j < |es| ==> acc[j].kept == 0
    ensures UnmarshalLoop(ss, es, acc, s) ==
            match Records(s)
            case None => None
            case Some(rs) =>
              if AllReadable(ss, es, rs) && Once(es, rs) && Fresh(es, acc, rs) then Some(Extended(ss, es, acc, rs)) else None
    decreases |s|
  {
    hide DecodeTag, UnmarshalValue, ValueOf, FirstRecord, Once, Fresh, AllReadable, Extended, DistinctTags;
    if s == [] {
      NothingMore(ss, es, acc);
      return;
    }
    TagInFront(s);
    if FirstRecord(s).None? {
      if DecodeTag(s).Some? && Find(es, DecodeTag(s).value.0).Some? {
        UnmarshalValueIs(ss, es[Find(es, DecodeTag(s).value.0).value], s);
      }
      return;
    }
    var r, rest := FirstRecord(s).value.0, FirstRecord(s).value.1;
    FindNone(es, r.tag);
    if Find(es, r.tag).None? {
      Unread(ss, es, r, Records(rest));
    } else {
      var j := Find(es, r.tag).value;
      UnmarshalValueIs(ss, es[j], s);
      if es[j].mode != Array && acc[j].values != [] {
        Again(es, acc, j, r, Records(rest));
      } else if ValueOf(ss, es[j].kind, r.payload).None? {
        Unread(ss, es, r, Records(rest));
      } else {
        var v := ValueOf(ss, es[j].kind, r.payload).value;
        LoopIs(ss, es, acc[j := Field(acc[j].values + [v], 0)], rest);
        if Records(rest).Some? {
          OneMore(ss, es, acc, j, v, r, Records(rest).value);
        }
      }
    }
  }

  lemma TagInFront(s: seq<Byte>)
    ensures DecodeTag(s).None? ==> FirstRecord(s).None?
    ensures FirstRecord(s).Some? ==> DecodeTag(s).Some? && DecodeTag(s).value.0 == FirstRecord(s).value.0.tag
  {
  }

  lemma NothingMore(ss: Schema, es: seq<Entry>, acc: seq<Field>)
    requires |acc| == |es| && forall j :: 0 <= j < |es| ==> acc[j].kept == 0
    ensures AllReadable(ss, es, []) && Once(es, []) && Fresh(es, acc, []) && Extended(ss, es, acc, []) == acc
  {
    var fs := Extended(ss, es, acc, []);
    forall j | 0 <= j < |es| ensures fs[j] == acc[j] {
      assert ValuesOf(ss, es[j], []) == [];
    }
  }

  lemma {:induction false} Unread(ss: Schema, es: seq<Entry>, r: Record, rest: Option<seq<Record>>)
    requires DistinctTags(es)
    requires Find(es, r.tag).Some? ==> ValueOf(ss, es[Find(es, r.tag).value].kind, r.payload).None?
    ensures rest.Some? ==> !AllReadable(ss, es, [r] + rest.value)
  {
    hide ValueOf;
    FindNone(es, r.tag);
    if rest.Some? {
      forall e | e in es && e.tag == r.tag ensures ValueOf(ss, e.kind, r.payload).None? {
        var i :| 0 <= i < |es| && es[i] == e;
        assert es[Find(es, r.tag).value].tag == es[i].tag;
      }
      assert r in [r] + rest.value && !Readable(ss, es, r);
    }
  }

  lemma Again(es: seq<Entry>, acc: seq<Field>, j: nat, r: Record, rest: Option<seq<Record>>)
    requires |acc| == |es| && j < |es| && es[j].mode != Array && acc[j].values != [] && es[j].tag == r.tag
    ensures rest.Some? ==> !Fresh(es, acc, [r] + rest.value)
  {
    if rest.Some? {
      assert r in [r] + rest.value;
      assert Occurs(es[j], [r] + rest.value);
    }
  }

  lemma {:induction false} CompleteIs(ss: Schema, es: seq<Entry>, fs: seq<Field>)
    requires |es| == |fs|
    ensures Complete(ss, es, fs) <==>
            forall j :: 0 <= j < |es| ==> (es[j].mode == Required ==> fs[j].values != []) && CompleteValues(ss, es[j].kind, fs[j].values)
  {
    hide CompleteValues;
    if es != [] {
      CompleteIs(ss, es[1..], fs[1..]);
      assert forall j :: 0 < j < |es| ==> es[j] == es[1..][j - 1] && fs[j] == fs[1..][j - 1];
    }
  }

  /** What is read is complete, so the values of the records are. */
  lemma {:induction false} ValuesComplete(ss: Schema, e: Entry, rs: seq<Record>)
    ensures CompleteValues(ss, e.kind, ValuesOf(ss, e, rs))
  {
    hide DecodeInt, UnmarshalLoop, CString;
    if rs != [] {
      ValuesComplete(ss, e, rs[1..]);
      var vs := ValuesOf(ss, e, rs);
      if vs != [] {
        assert vs[1..] == ValuesOf(ss, e, rs[1..]) || vs == ValuesOf(ss, e, rs[1..]);
      }
    }
  }

  lemma {:induction false} ValuesThere(ss: Schema, es: seq<Entry>, e: Entry, rs: seq<Record>)
    requires DistinctTags(es) && e in es && AllReadable(ss, es, rs)
    ensures ValuesOf(ss, e, rs) != [] <==> Occurs(e, rs)
  {
    hide ValueOf;
    if rs != [] {
      assert rs[0] in rs && Readable(ss, es, rs[0]);
      assert forall r :: r in rs <==> r == rs[0] || r in rs[1..];
      ValuesThere(ss, es, e, rs[1..]);
    }
  }

  /**
   * What is read, of any bytes, and what is refused: the bytes split into readable records, no entry that is not an
   * array occurs twice, and every required entry occurs; the message is the values of the records in order.
   */
  lemma {:induction false} UnmarshalIs(ss: Schema, name: nat, s: seq<Byte>)
    requires Accepted(ss) && name < |ss|
    ensures UnmarshalMsg(ss, name, s) ==
            match Records(s)
            case None => None
            case Some(rs) =>
              if AllReadable(ss, ss[name], rs) && Once(ss[name], rs) && AllThere(ss[name], rs) then Some(Collected(ss, ss[name], rs))
              else None
  {
    hide UnmarshalLoop, Complete, ValueOf, AllReadable, Once, ValuesOf;
    var es := ss[name];
    assert es in ss;
    LoopIs(ss, es, Empty(|es|), s);
    if Records(s).Some? && AllReadable(ss, es, Records(s).value) {
      var rs := Records(s).value;
      var fs := Collected(ss, es, rs);
      var gs := Extended(ss, es, Empty(|es|), rs);
      forall j | 0 <= j < |es| ensures gs[j] == fs[j] {
        assert [] + ValuesOf(ss, es[j], rs) == ValuesOf(ss, es[j], rs);
      }
      assert gs == fs;
      assert Fresh(es, Empty(|es|), rs);
      CompleteIs(ss, es, fs);
      forall j | 0 <= j < |es| ensures CompleteValues(ss, es[j].kind, fs[j].values) && (fs[j].values != [] <==> Occurs(es[j], rs)) {
        ValuesComplete(ss, es[j], rs);
        ValuesThere(ss, es, es[j], rs);
      }
    }
  }

  /** A message that lacks a required entry is refused. */
  lemma SecondMissing(n: nat)
    requires n <= UINT32_MAX
    ensures UnmarshalMsg([[Entry(1, Int32, Required), Entry(2, Int32, Required)]], 0, Marshal(Record(1, EncodeInt(n)))) == None
  {
    hide EncodeInt, Marshal, UnmarshalMsg, AllReadable;
    var es := [Entry(1, Int32, Required), Entry(2, Int32, Required)];
    var rs := [Record(1, EncodeInt(n))];
    assert MarshalAll(rs) == Marshal(rs[0]) by { assert rs[1..] == []; }
    RecordsOfMarshaled(rs);
    assert Accepted([es]);
    UnmarshalIs([es], 0, Marshal(rs[0]));
    assert es[1] in es && !Occurs(es[1], rs);
  }

  /** Every tag that the generated unmarshal loop looks at is read inside the bytes that are pulled up. */
  predicate LoopInside(ss: Schema, es: seq<Entry>, acc: seq<Field>, s: seq<Byte>)
    requires |acc| == |es|
    decreases |s|, 1
  {
    s != [] ==>
      TagInside(s) &&
      match DecodeTag(s)
      case None => true
      case Some((tag, _)) =>
        match Find(es, tag)
        case None => true
        case Some(j) =>
          (es[j].mode != Array && acc[j].values != []) ||
          (ValueInside(ss, es[j], s) &&
           match UnmarshalValue(ss, es[j], s)
           case None => true
           case Some((v, rest)) => LoopInside(ss, es, acc[j := Field(acc[j].values + [v], 0)], rest))
  }

  /** The same of the message in a value. */
  predicate ValueInside(ss: Schema, e: Entry, s: seq<Byte>)
    decreases |s|, 0
  {
    e.kind.Ref? && e.kind.name < |ss| ==>
      match Unmarshal(s)
      case None => true
      case Some((r, _)) => r.tag == e.tag ==> MsgInside(ss, e.kind.name, r.payload)
  }

  predicate MsgInside(ss: Schema, name: nat, s: seq<Byte>)
    requires name < |ss|
    decreases |s|, 2
  {
    LoopInside(ss, ss[name], Empty(|ss[name]|), s)
  }

  /** What reads as a message is read inside. */
  lemma {:induction false} ReadInside(ss: Schema, es: seq<Entry>, acc: seq<Field>, s: seq<Byte>)
    requires |acc| == |es| && UnmarshalLoop(ss, es, acc, s).Some?
    ensures LoopInside(ss, es, acc, s)
    decreases |s|, 1
  {
    hide TagInside, UnmarshalValue, MsgInside, UnmarshalMsg, Unmarshal, DecodeTag;
    if s != [] {
      EndsInside(s);
      var e := es[Find(es, DecodeTag(s).value.0).value];
      ValueReadInside(ss, e, s);
      var (v, rest) := UnmarshalValue(ss, e, s).value;
      var j := Find(es, DecodeTag(s).value.0).value;
      ReadInside(ss, es, acc[j := Field(acc[j].values + [v], 0)], rest);
    }
  }

  lemma {:induction false} ValueReadInside(ss: Schema, e: Entry, s: seq<Byte>)
    requires UnmarshalValue(ss, e, s).Some?
    ensures ValueInside(ss, e, s)
    decreases |s|, 0
  {
    if e.kind.Ref? {
      ReadInside(ss, ss[e.kind.name], Empty(|ss[e.kind.name]|), Unmarshal(s).value.0.payload);
    }
  }

  lemma {:induction false} TypedAt(ss: Schema, es: seq<Entry>, fs: seq<Field>, j: nat)
    requires TypedFields(ss, es, fs) && j < |fs|
    ensures |es| == |fs| && TypedValues(ss, es[j], fs[j].values) && (es[j].mode == Array || |fs[j].values| <= 1)
    ensures KeptFits(es[j].kind, fs[j].kept)
  {
    if j > 0 {
      TypedAt(ss, es[1..], fs[1..], j - 1);
    }
  }

  lemma {:induction false} ShownAt(fs: seq<Field>, j: nat)
    requires Shown(fs) == fs && j < |fs|
    ensures fs[j].kept == 0 && ShownValues(fs[j].values) == fs[j].values
  {
    if j > 0 {
      assert Shown(fs)[1..] == Shown(fs[1..]);
      ShownAt(fs[1..], j - 1);
    }
  }

  lemma {:induction false} ShownValueAt(vs: seq<Value>, m: nat)
    requires ShownValues(vs) == vs && m < |vs|
    ensures ShownValue(vs[m]) == vs[m]
  {
    if m > 0 {
      assert ShownValues(vs)[1..] == ShownValues(vs[1..]);
      ShownValueAt(vs[1..], m - 1);
    }
  }

  lemma {:induction false} TypedValueAt(ss: Schema, e: Entry, vs: seq<Value>, m: nat)
    requires TypedValues(ss, e, vs) && m < |vs|
    ensures Typed(ss, e.kind, vs[m])
  {
    if m > 0 {
      TypedValueAt(ss, e, vs[1..], m - 1);
    }
  }

  /** What a record starts with is its tag. */
  lemma TagOfMarshaled(r: Record, rest: seq<Byte>)
    requires r.tag <= UINT32_MAX
    ensures DecodeTag(Marshal(r) + rest) == Some((r.tag, |EncodeTag(r.tag)|))
  {
    var after := EncodeInt(To32(|r.payload|)) + r.payload + rest;
    assert Marshal(r) + rest == EncodeTag(r.tag) + after;
    DecodeEncodedTag(r.tag, after);
  }

  /** A complete value comes back from its record. */
  lemma {:induction false} ValueBack(ss: Schema, e: Entry, v: Value, rest: seq<Byte>)
    requires Accepted(ss) && Verified(e, |ss|) && Typed(ss, e.kind, v) && CompleteValue(ss, e.kind, v) && ShownValue(v) == v
    ensures UnmarshalValue(ss, e, Marshal(Record(e.tag, Payload(ss, e.kind, v))) + rest) == Some((v, rest))
    decreases v
  {
    hide Unmarshal, UnmarshalInt, UnmarshalMsg, MarshalFields, Complete, Marshal, EncodeInt, To64, UnmarshalFixed, TypedFields;
    if e.kind.Ref? {
      UnmarshalMarshaled(Record(e.tag, Payload(ss, e.kind, v)), rest);
      CompleteBack(ss, e.kind.name, v.fields);
    } else if v.Num? {
      UnmarshalMarshaledInt(e.tag, v.n, rest, if e.kind == Int32 then 8 else 16);
    } else {
      DataBack(e, v.bytes, rest);
    }
  }

  lemma DataBack(e: Entry, bytes: seq<Byte>, rest: seq<Byte>)
    requires e.tag <= UINT32_MAX && |bytes| <= INT_MAX
    ensures var s := Marshal(Record(e.tag, bytes)) + rest;
            && (forall n :: n == None || n == Some(|bytes|) ==> UnmarshalFixed(s, e.tag, n) == Some((bytes, rest)))
            && PayloadLength(s) == Some(|bytes|) && |bytes| <= |s|
    ensures 0 !in bytes ==> CString(bytes) == bytes
  {
    hide Unmarshal, Marshal, PayloadLength;
    UnmarshalMarshaled(Record(e.tag, bytes), rest);
    PayloadLengthOfMarshaled(Record(e.tag, bytes), rest);
    if 0 !in bytes {
      CStringWhole(bytes);
    }
  }

  /** The loop on the values of entry j from the m-th on. */
  lemma {:induction false} ValuesBack(ss: Schema, es: seq<Entry>, fs: seq<Field>, j: nat, m: nat, acc: seq<Field>, tail: seq<Byte>)
    requires Accepted(ss) && es in ss && TypedFields(ss, es, fs) && j < |fs| && m <= |fs[j].values|
    requires Shown(fs) == fs && |acc| == |es| && acc[j] == Field(fs[j].values[..m], 0) && CompleteValues(ss, es[j].kind, fs[j].values[m..])
    ensures |es| == |fs|
    ensures UnmarshalLoop(ss, es, acc, MarshalValues(ss, es[j], fs[j].values[m..]) + tail)
            == UnmarshalLoop(ss, es, acc[j := fs[j]], tail)
    decreases fs, 0, |fs[j].values| - m
  {
    hide Typed, Complete, CompleteValue, MarshalFields, Payload, Marshal, UnmarshalValue, DecodeTag;
    TypedAt(ss, es, fs, j);
    ShownAt(fs, j);
    var vs := fs[j].values;
    if m == |vs| {
      assert vs[..m] == vs && vs[m..] == [];
      assert acc[j := fs[j]] == acc;
      assert MarshalValues(ss, es[j], vs[m..]) + tail == tail;
    } else {
      var e, v := es[j], vs[m];
      assert vs[m..][0] == v && vs[m..][1..] == vs[m + 1..] && e in es;
      TypedValueAt(ss, e, vs, m);
      ShownValueAt(vs, m);
      var r := Record(e.tag, Payload(ss, e.kind, v));
      var after := MarshalValues(ss, e, vs[m + 1..]) + tail;
      assert MarshalValues(ss, e, vs[m..]) + tail == Marshal(r) + after;
      TagOfMarshaled(r, after);
      FindDistinct(es, j);
      assert e.mode != Array ==> m == 0;
      ValueBack(ss, e, v, after);
      var acc1 := acc[j := Field(vs[..m] + [v], 0)];
      assert vs[..m] + [v] == vs[..m + 1];
      ValuesBack(ss, es, fs, j, m + 1, acc1, tail);
      assert acc1[j := fs[j]] == acc[j := fs[j]];
    }
  }

  /** The loop from entry j on. */
  lemma {:induction false} FieldsBack(ss: Schema, es: seq<Entry>, fs: seq<Field>, j: nat)
    requires Accepted(ss) && es in ss && TypedFields(ss, es, fs) && j <= |fs| && Complete(ss, es[j..], fs[j..]) && Shown(fs) == fs
    ensures |es| == |fs|
    ensures UnmarshalLoop(ss, es, fs[..j] + Empty(|fs| - j), MarshalFields(ss, es[j..], fs[j..])) == Some(fs)
    decreases fs, 1, |fs| - j
  {
    hide Typed, CompleteValue, Payload, Marshal, UnmarshalValue, DecodeTag, UnsetRecord;
    var acc := fs[..j] + Empty(|fs| - j);
    if j == |fs| {
      assert acc == fs;
    } else {
      var tail := MarshalFields(ss, es[j + 1..], fs[j + 1..]);
      assert es[j..][1..] == es[j + 1..] && fs[j..][1..] == fs[j + 1..];
      assert fs[j].values[0..] == fs[j].values;
      ShownAt(fs, j);
      ValuesBack(ss, es, fs, j, 0, acc, tail);
      assert acc[j := fs[j]] == fs[..j + 1] + Empty(|fs| - (j + 1));
      FieldsBack(ss, es, fs, j + 1);
    }
  }

  /** A complete message comes back from its marshaled form. */
  lemma {:induction false} CompleteBack(ss: Schema, name: nat, fs: seq<Field>)
    requires Accepted(ss) && name < |ss| && TypedFields(ss, ss[name], fs) && Complete(ss, ss[name], fs) && Shown(fs) == fs
    ensures UnmarshalMsg(ss, name, MarshalFields(ss, ss[name], fs)) == Some(fs)
    decreases fs, 2
  {
    hide TypedFields, Complete, UnmarshalLoop, MarshalFields;
    var es := ss[name];
    assert es[0..] == es && fs[0..] == fs;
    FieldsBack(ss, es, fs, 0);
    assert fs[..0] + Empty(|fs| - 0) == Empty(|es|);
  }

  lemma {:induction false} FilledOne(ss: Schema, kind: Kind, v: Value)
    requires Typed(ss, kind, v) && DefinedValue(ss, kind, v)
    ensures var w := FilledValue(ss, kind, v);
            && Typed(ss, kind, w) && CompleteValue(ss, kind, w) && Payload(ss, kind, w) == Payload(ss, kind, v)
            && ShownValue(w) == w && (w == ShownValue(v) <==> CompleteValue(ss, kind, v))
    decreases v
  {
    if v.Msg? {
      FilledIs(ss, ss[kind.name], v.fields);
    }
  }

  lemma {:induction false} FilledMany(ss: Schema, e: Entry, vs: seq<Value>)
    requires TypedValues(ss, e, vs) && DefinedValues(ss, e.kind, vs)
    ensures var ws := FilledValues(ss, e.kind, vs);
            && |ws| == |vs| && TypedValues(ss, e, ws) && CompleteValues(ss, e.kind, ws)
            && MarshalValues(ss, e, ws) == MarshalValues(ss, e, vs)
            && ShownValues(ws) == ws && (ws == ShownValues(vs) <==> CompleteValues(ss, e.kind, vs))
    decreases vs, 0
  {
    hide Typed, CompleteValue, Payload, FilledValue, ShownValue, Marshal, DefinedValue;
    if vs != [] {
      FilledOne(ss, e.kind, vs[0]);
      FilledMany(ss, e, vs[1..]);
      var ws := FilledValues(ss, e.kind, vs);
      assert ws[1..] == FilledValues(ss, e.kind, vs[1..]) && ShownValues(vs)[1..] == ShownValues(vs[1..]);
    }
  }

  lemma UnsetIs(ss: Schema, e: Entry, kept: nat)
    requires Unset(ss, e.kind, kept).Some? && KeptFits(e.kind, kept)
    ensures var v := Unset(ss, e.kind, kept).value;
            && TypedValues(ss, e, [v]) && CompleteValues(ss, e.kind, [v])
            && MarshalValues(ss, e, [v]) == UnsetRecord(ss, e, kept) && ShownValues([v]) == [v]
  {
    hide Marshal, EncodeInt, To64;
    var v := Unset(ss, e.kind, kept).value;
    assert [v][1..] == [];
    assert Typed(ss, e.kind, v) && CompleteValue(ss, e.kind, v) && ShownValue(v) == v;
    assert MarshalValues(ss, e, [v]) == Marshal(Record(e.tag, Payload(ss, e.kind, v)));
  }

  /** One entry of FilledIs. */
  lemma FilledEntryIs(ss: Schema, e: Entry, vs: seq<Value>, kept: nat)
    requires TypedValues(ss, e, vs) && DefinedEntry(ss, e, vs) && KeptFits(e.kind, kept)
    requires e.mode == Array || |vs| <= 1
    ensures var ws := FilledEntry(ss, e, vs, kept);
            && TypedValues(ss, e, ws) && CompleteValues(ss, e.kind, ws) && (e.mode == Required ==> ws != [])
            && (e.mode == Array || |ws| <= 1) && MarshalEntry(ss, e, ws, 0) == MarshalEntry(ss, e, vs, kept)
            && ShownValues(ws) == ws
            && (ws == ShownValues(vs) <==> (e.mode == Required ==> vs != []) && CompleteValues(ss, e.kind, vs))
    decreases vs, 1
  {
    hide Typed, UnsetRecord, TypedValues, CompleteValues, MarshalValues, FilledValues, DefinedValues;
    FilledMany(ss, e, vs);
    if vs == [] && e.mode == Required {
      assert Unset(ss, e.kind, kept).Some?;
      UnsetIs(ss, e, kept);
    }
  }

  /**
   * Filling in changes no marshaled byte and completes the message; it shows the message as it was just when that is
   * complete.
   */
  lemma {:induction false} FilledIs(ss: Schema, es: seq<Entry>, fs: seq<Field>)
    requires TypedFields(ss, es, fs) && Defined(ss, es, fs)
    ensures var gs := Filled(ss, es, fs);
            && TypedFields(ss, es, gs) && Complete(ss, es, gs) && MarshalFields(ss, es, gs) == MarshalFields(ss, es, fs)
            && Shown(gs) == gs && (gs == Shown(fs) <==> Complete(ss, es, fs))
    decreases fs
  {
    hide TypedValues, CompleteValues, MarshalEntry, FilledEntry, DefinedEntry, ShownValues;
    if fs != [] {
      var e, vs, kept := es[0], fs[0].values, fs[0].kept;
      FilledEntryIs(ss, e, vs, kept);
      FilledIs(ss, es[1..], fs[1..]);
      var gs := Filled(ss, es, fs);
      assert gs[1..] == Filled(ss, es[1..], fs[1..]) && gs[0] == Field(FilledEntry(ss, e, vs, kept), 0);
      assert Shown(fs)[1..] == Shown(fs[1..]) && Shown(fs)[0] == Field(ShownValues(vs), 0);
      assert Shown(gs)[1..] == Shown(gs[1..]) && Shown(gs)[0] == Field(ShownValues(gs[0].values), 0);
    }
  }

  /**
   * For every accepted schema and every message that follows no null pointer: what comes back is the message with its
   * unset required entries filled in, and it shows as the message itself just when that is complete.
   */
  lemma MessageBack(ss: Schema, name: nat, fs: seq<Field>)
    requires Accepted(ss) && name < |ss| && TypedFields(ss, ss[name], fs) && Defined(ss, ss[name], fs)
    ensures UnmarshalMsg(ss, name, MarshalFields(ss, ss[name], fs)) == Some(Filled(ss, ss[name], fs))
    ensures Filled(ss, ss[name], fs) == Shown(fs) <==> Complete(ss, ss[name], fs)
  {
    FilledIs(ss, ss[name], fs);
    CompleteBack(ss, name, Filled(ss, ss[name], fs));
  }

  /** A required number that is not set is sent as what its memory holds, and the reader takes it for set. */
  lemma UnsetNumberSent(kept: nat)
    requires kept <= UINT32_MAX
    ensures var ss: Schema := [[Entry(1, Int32, Required)]];
            && Accepted(ss) && !Complete(ss, ss[0], [Field([], kept)])
            && UnmarshalMsg(ss, 0, MarshalFields(ss, ss[0], [Field([], kept)])) == Some([Field([Num(kept)], 0)])
  {
    var ss: Schema := [[Entry(1, Int32, Required)]];
    var fs := [Field([], kept)];
    var es := ss[0];
    assert forall ts :: ts in ss ==> ts == es;
    assert es[1..] == [] && fs[1..] == [] && es[0] == Entry(1, Int32, Required);
    assert TypedValues(ss, es[0], []) && KeptFits(Int32, kept) && DefinedEntry(ss, es[0], []);
    assert TypedFields(ss, es[1..], fs[1..]) && Defined(ss, es[1..], fs[1..]) && Filled(ss, es[1..], fs[1..]) == [];
    assert FilledEntry(ss, es[0], [], kept) == [Num(kept)];
    assert Filled(ss, es, fs) == [Field([Num(kept)], 0)];
    MessageBack(ss, 0, fs);
  }

  /** The marshal code of one value: EntryInt, EntryBytes, EntryVarBytes, EntryString and EntryStruct. */
  method MarshalValueCode(buf: EvBuffer, ss: Schema, e: Entry, v: Value) returns (ok: bool)
    requires Ready(buf) && Typed(ss, e.kind, v) && e.tag <= UINT32_MAX && Tags(ss)
    modifies buf, Nodes(buf.chains), Buffers(buf.chains)
    ensures Ready(buf) && buf.Grown() && (ok <==> DefinedValue(ss, e.kind, v))
    ensures ok ==> buf.Contents() == old(buf.Contents()) + Marshal(Record(e.tag, Payload(ss, e.kind, v)))
    decreases v, 0
  {
    ok := true;
    match v
    case Num(n) => MarshalNumber(buf, e, n);
    case Data(bytes) => Tagging.EvtagMarshal(buf, Record(e.tag, bytes));
    case Msg(fs) =>
      assert ss[e.kind.name] in ss;
      ok := MarshalStructCode(buf, ss, e.tag, ss[e.kind.name], fs);
  }

  method MarshalNumber(buf: EvBuffer, e: Entry, n: nat)
    requires Ready(buf) && e.tag <= UINT32_MAX && n <= if e.kind == Int32 then UINT32_MAX else UINT64_MAX
    modifies buf, Nodes(buf.chains), Buffers(buf.chains)
    ensures Ready(buf) && buf.Grown()
    ensures buf.Contents() == old(buf.Contents()) + Marshal(Record(e.tag, EncodeInt(To64(n))))
  {
    Tagging.EvtagMarshalInt(buf, e.tag, n, e.kind != Int32);
  }

  /** The generated evtag_marshal function of a struct: marshal into a buffer of its own, and send that. */
  method MarshalStructCode(buf: EvBuffer, ss: Schema, tag: nat, es: seq<Entry>, fs: seq<Field>) returns (ok: bool)
    requires Ready(buf) && TypedFields(ss, es, fs) && tag <= UINT32_MAX && Tags(ss) && forall e :: e in es ==> e.tag <= UINT32_MAX
    modifies buf, Nodes(buf.chains), Buffers(buf.chains)
    ensures Ready(buf) && buf.Grown() && (ok <==> Defined(ss, es, fs))
    ensures ok ==> buf.Contents() == old(buf.Contents()) + Marshal(Record(tag, MarshalFields(ss, es, fs)))
    decreases fs, 1
  {
    hide Ready, Defined, MarshalFields, Marshal, TypedFields;
    var inner := NewBuffer();
    label A:
    ok := MarshalCode(inner, ss, es, fs);
    Tagging.Untouched@A(buf);
    if ok {
      assert buf.Apart(inner) && inner.Contents() == MarshalFields(ss, es, fs);
      Tagging.EvtagMarshalBuffer(buf, tag, inner);
    }
  }

  method NewBuffer() returns (buf: EvBuffer)
    ensures fresh(buf) && Ready(buf) && buf.Contents() == [] && buf.chains == []
  {
    buf := new EvBuffer();
  }

  /** The tags of a file. */
  predicate Tags(ss: Schema)
  {
    forall es :: es in ss ==> forall e :: e in es ==> e.tag <= UINT32_MAX
  }

  /** The marshal code of one entry: not guarded for a required one, and a loop for an array; ok tells that no null pointer was followed. */
  method MarshalEntryCode(buf: EvBuffer, ss: Schema, e: Entry, vs: seq<Value>, kept: nat) returns (ok: bool)
    requires Ready(buf) && TypedValues(ss, e, vs) && e.tag <= UINT32_MAX && Tags(ss) && KeptFits(e.kind, kept)
    modifies buf, Nodes(buf.chains), Buffers(buf.chains)
    ensures Ready(buf) && buf.Grown() && (ok <==> DefinedEntry(ss, e, vs))
    ensures ok ==> buf.Contents() == old(buf.Contents()) + MarshalEntry(ss, e, vs, kept)
    decreases vs, 0
  {
    hide Ready, TypedValues, Typed, DefinedValue, Marshal, Payload;
    if vs == [] && e.mode == Required {
      ok := MarshalUnset(buf, ss, e, kept);
      return;
    }
    ok := true;
    var i := 0;
    assert vs[0..] == vs;
    while i < |vs|
      invariant i <= |vs| && Ready(buf) && buf.Grown()
      invariant buf.Contents() + MarshalValues(ss, e, vs[i..]) == old(buf.Contents()) + MarshalValues(ss, e, vs)
      invariant DefinedValues(ss, e.kind, vs) == DefinedValues(ss, e.kind, vs[i..])
    {
      TypedValueAt(ss, e, vs, i);
      assert vs[i..][1..] == vs[i + 1..];
      ok := MarshalValueCode(buf, ss, e, vs[i]);
      if !ok {
        return;
      }
      i := i + 1;
    }
    ok := true;
  }

  /** The same code on what the memory of an entry holds that is not set. */
  method MarshalUnset(buf: EvBuffer, ss: Schema, e: Entry, kept: nat) returns (ok: bool)
    requires Ready(buf) && e.tag <= UINT32_MAX && KeptFits(e.kind, kept)
    modifies buf, Nodes(buf.chains), Buffers(buf.chains)
    ensures Ready(buf) && buf.Grown() && (ok <==> Unset(ss, e.kind, 0).Some?)
    ensures ok ==> buf.Contents() == old(buf.Contents()) + UnsetRecord(ss, e, kept)
  {
    match Unset(ss, e.kind, kept) {
      case Some(Num(n)) => MarshalNumber(buf, e, n);
      case Some(Data(bytes)) => Tagging.EvtagMarshal(buf, Record(e.tag, bytes));
      case Some(Msg(_)) => Tagging.EvtagMarshal(buf, Record(e.tag, []));
      case None => return false;
    }
    return true;
  }

  lemma TypedLengths(ss: Schema, es: seq<Entry>, fs: seq<Field>)
    requires TypedFields(ss, es, fs)
    ensures |es| == |fs| && es[0..] == es && fs[0..] == fs
  {
  }

  lemma MarshalFieldsFrom(ss: Schema, es: seq<Entry>, fs: seq<Field>, j: nat)
    requires j <= |es| == |fs|
    ensures j == |es| ==> MarshalFields(ss, es[j..], fs[j..]) == [] && Defined(ss, es[j..], fs[j..])
    ensures j < |es| ==> Defined(ss, es[j..], fs[j..])
                         == (DefinedEntry(ss, es[j], fs[j].values) && Defined(ss, es[j + 1..], fs[j + 1..]))
    ensures j < |es| ==> MarshalFields(ss, es[j..], fs[j..])
                         == MarshalEntry(ss, es[j], fs[j].values, fs[j].kept) + MarshalFields(ss, es[j + 1..], fs[j + 1..])
  {
    if j < |es| {
      assert es[j..][1..] == es[j + 1..] && fs[j..][1..] == fs[j + 1..];
    }
  }

  /** The generated marshal function; ok tells that no null pointer was followed. */
  method MarshalCode(buf: EvBuffer, ss: Schema, es: seq<Entry>, fs: seq<Field>) returns (ok: bool)
    requires Ready(buf) && TypedFields(ss, es, fs) && Tags(ss) && forall e :: e in es ==> e.tag <= UINT32_MAX
    modifies buf, Nodes(buf.chains), Buffers(buf.chains)
    ensures Ready(buf) && buf.Grown() && (ok <==> Defined(ss, es, fs))
    ensures ok ==> buf.Contents() == old(buf.Contents()) + MarshalFields(ss, es, fs)
    decreases fs, 0
  {
    hide Ready, TypedFields, TypedValues, Typed, MarshalFields, MarshalEntry, Defined, DefinedEntry;
    TypedLengths(ss, es, fs);
    var j := 0;
    while j < |es|
      invariant j <= |es| && Ready(buf) && buf.Grown()
      invariant buf.Contents() + MarshalFields(ss, es[j..], fs[j..]) == old(buf.Contents()) + MarshalFields(ss, es, fs)
      invariant Defined(ss, es, fs) == Defined(ss, es[j..], fs[j..])
    {
      TypedAt(ss, es, fs, j);
      MarshalFieldsFrom(ss, es, fs, j);
      assert es[j] in es;
      ok := MarshalEntryCode(buf, ss, es[j], fs[j].values, fs[j].kept);
      if !ok {
        return;
      }
      j := j + 1;
    }
    MarshalFieldsFrom(ss, es, fs, j);
    ok := true;
  }

  /** The generated unmarshal function, on a new message: a loop with a switch on the tag. */
  method UnmarshalCode(buf: EvBuffer, ss: Schema, name: nat) returns (inside: bool, ok: bool, fs: seq<Field>)
    requires Ready(buf) && name < |ss|
    modifies buf, Nodes(buf.chains), Buffers(buf.chains)
    ensures Ready(buf) && buf.Grown() && (inside <==> MsgInside(ss, name, old(buf.Contents())))
    ensures ok <==> UnmarshalMsg(ss, name, old(buf.Contents())).Some?
    ensures ok ==> fs == UnmarshalMsg(ss, name, old(buf.Contents())).value && buf.Contents() == []
    decreases |buf.Contents()|, 2
  {
    hide Ready, UnmarshalValue, Complete, Find, DecodeTag, TagInside, ValueInside;
    ghost var s := buf.Contents();
    var es := ss[name];
    fs := Empty(|es|);
    LengthIs(buf);
    while buf.totalLen > 0
      invariant Ready(buf) && buf.Grown() && buf.totalLen == |buf.Contents()| <= |s| && |fs| == |es|
      invariant UnmarshalLoop(ss, es, fs, buf.Contents()) == UnmarshalLoop(ss, es, Empty(|es|), s)
      invariant LoopInside(ss, es, fs, buf.Contents()) == LoopInside(ss, es, Empty(|es|), s)
      decreases |buf.Contents()|
    {
      ghost var t := buf.Contents();
      EndsInside(t);
      var peek, tag;
      inside, peek, tag := Tagging.EvtagPeek(buf);
      if !inside || peek == -1 {
        return inside, false, [];
      }
      var j := Find(es, tag);
      if j == None || (es[j.value].mode != Array && fs[j.value].values != []) {
        return true, false, [];
      }
      var read, v;
      inside, read, v := UnmarshalValueCode(buf, ss, es[j.value]);
      if !read {
        return inside, false, [];
      }
      ValueReadInside(ss, es[j.value], t);
      fs := fs[j.value := Field(fs[j.value].values + [v], 0)];
      LengthIs(buf);
    }
    inside, ok := true, Complete(ss, es, fs);
  }

  lemma LengthIs(buf: EvBuffer)
    requires Ready(buf)
    ensures buf.totalLen == |buf.Contents()|
  {
  }

  /** The generated code of one case. */
  method UnmarshalValueCode(buf: EvBuffer, ss: Schema, e: Entry) returns (inside: bool, ok: bool, v: Value)
    requires Ready(buf)
    modifies buf, Nodes(buf.chains), Buffers(buf.chains)
    ensures Ready(buf) && buf.Grown() && (inside <==> TagInside(old(buf.Contents())) && ValueInside(ss, e, old(buf.Contents())))
    ensures ok <==> UnmarshalValue(ss, e, old(buf.Contents())).Some?
    ensures ok ==> UnmarshalValue(ss, e, old(buf.Contents())) == Some((v, buf.Contents()))
    decreases |buf.Contents()|, 1
  {
    hide Ready, TagInside;
    ghost var s := buf.Contents();
    EndsInside(s);
    v := Num(0);
    match e.kind
    case Int32 => inside, ok, v := UnmarshalNumber(buf, e.tag, 8);
    case Int64 => inside, ok, v := UnmarshalNumber(buf, e.tag, 16);
    case Fixed(length) => inside, ok, v := UnmarshalData(buf, e.tag, Some(length));
    case VarBytes =>
      var n;
      inside, ok, n := Tagging.EvtagPayloadLength(buf);
      LengthIs(buf);
      if ok && n <= buf.totalLen {
        inside, ok, v := UnmarshalData(buf, e.tag, Some(n));
      } else {
        ok := false;
      }
    case Str =>
      inside, ok, v := UnmarshalData(buf, e.tag, None);
      if ok {
        v := Data(CString(v.bytes));
      }
    case Ref(name) => inside, ok, v := UnmarshalStructCode(buf, ss, e.tag, name);
  }

  method UnmarshalNumber(buf: EvBuffer, tag: nat, maxNibbles: nat) returns (inside: bool, ok: bool, v: Value)
    requires Ready(buf)
    modifies buf, Nodes(buf.chains), Buffers(buf.chains)
    ensures Ready(buf) && buf.Grown() && (inside <==> TagInside(old(buf.Contents())))
    ensures var u := UnmarshalInt(old(buf.Contents()), tag, maxNibbles);
            (ok <==> u.Some?) && (ok ==> v == Num(u.value.0) && u.value.1 == buf.Contents())
  {
    EndsInside(buf.Contents());
    var res, n;
    inside, res, n := Tagging.EvtagUnmarshalInt(buf, tag, maxNibbles);
    ok, v := inside && res != -1, Num(n);
  }

  method UnmarshalData(buf: EvBuffer, tag: nat, length: Option<nat>) returns (inside: bool, ok: bool, v: Value)
    requires Ready(buf)
    modifies buf, Nodes(buf.chains), Buffers(buf.chains)
    ensures Ready(buf) && buf.Grown() && (inside <==> TagInside(old(buf.Contents()))) && v.Data?
    ensures var u := UnmarshalFixed(old(buf.Contents()), tag, length);
            (ok <==> u.Some?) && (ok ==> v == Data(u.value.0) && u.value.1 == buf.Contents())
  {
    EndsInside(buf.Contents());
    var data;
    inside, ok, data := Tagging.EvtagUnmarshalFixed(buf, tag, length);
    v := Data(data);
  }

  lemma NoRecord(s: seq<Byte>)
    ensures !TagInside(s) ==> Unmarshal(s).None?
  {
    EndsInside(s);
  }

  /** The generated evtag_unmarshal function of a struct. */
  method UnmarshalStructCode(buf: EvBuffer, ss: Schema, tag: nat, name: nat) returns (inside: bool, ok: bool, v: Value)
    requires Ready(buf)
    modifies buf, Nodes(buf.chains), Buffers(buf.chains)
    ensures Ready(buf) && buf.Grown()
    ensures inside <==> TagInside(old(buf.Contents())) && ValueInside(ss, Entry(tag, Ref(name), Required), old(buf.Contents()))
    ensures ok <==> UnmarshalValue(ss, Entry(tag, Ref(name), Required), old(buf.Contents())).Some?
    ensures ok ==> UnmarshalValue(ss, Entry(tag, Ref(name), Required), old(buf.Contents())) == Some((v, buf.Contents()))
    decreases |buf.Contents()|, 0
  {
    hide Ready, TagInside, Unmarshal, UnmarshalMsg, MsgInside;
    ghost var s := buf.Contents();
    NoRecord(s);
    v := Num(0);
    var tmp := NewBuffer();
    var t;
    inside, ok, t := Tagging.EvtagUnmarshal(buf, tmp);
    if !inside || !ok || t != tag || name >= |ss| {
      return inside, false, v;
    }
    assert tmp.Contents() == Unmarshal(s).value.0.payload;
    label A:
    var fs;
    inside, ok, fs := UnmarshalCode(tmp, ss, name);
    Tagging.Untouched@A(buf);
    v := Msg(fs);
  }

  /** A message is marshaled into an evbuffer, and what comes out of it again is the message with its gaps filled. */
  method SendAndReceive(ss: Schema, name: nat, fs: seq<Field>) returns (sent: bool, inside: bool, received: bool, back: seq<Field>)
    requires Accepted(ss) && name < |ss| && TypedFields(ss, ss[name], fs)
    ensures sent <==> Defined(ss, ss[name], fs)
    ensures sent ==> inside && received && back == Filled(ss, ss[name], fs) && (back == Shown(fs) <==> Complete(ss, ss[name], fs))
  {
    hide Ready, TypedFields, Defined, Filled, Shown, Complete, MarshalFields, UnmarshalMsg, MsgInside;
    assert ss[name] in ss;
    var buf := NewBuffer();
    inside, received, back := true, false, [];
    sent := MarshalCode(buf, ss, ss[name], fs);
    if sent {
      assert buf.Contents() == MarshalFields(ss, ss[name], fs);
      MessageBack(ss, name, fs);
      MsgReadInside(ss, name, buf.Contents());
      inside, received, back := UnmarshalCode(buf, ss, name);
    }
  }

  lemma MsgReadInside(ss: Schema, name: nat, s: seq<Byte>)
    requires name < |ss| && UnmarshalMsg(ss, name, s).Some?
    ensures MsgInside(ss, name, s)
  {
    ReadInside(ss, ss[name], Empty(|ss[name]|), s);
  }
}
