/** Runs of operations on two evbuffers: they do to the bytes what the same operations do to two sequences. */
module EvRuns {
  import opened Bytes
  import opened EvBuffers

  /** What happens to a buffer alone. */
  datatype Single = Add(data: seq<Byte>) | Prepend(data: seq<Byte>) | Drain(n: nat) | Remove(n: nat) | Copyout(n: nat) | Pullup(size: int)

  /** What moves bytes from the other buffer. */
  datatype Move = AddBuffer | PrependBuffer | RemoveBuffer(n: nat)

  /** An operation on the first buffer, or on the second. */
  datatype Op = One(first: bool, op: Single) | Two(first: bool, move: Move)

  function Least(n: nat, s: seq<Byte>): (r: nat)
    ensures r <= |s|
  {
    if n < |s| then n else |s|
  }

  /** The operation on a byte sequence, with the bytes it returns. */
  function OnBytes(s: seq<Byte>, op: Single): (seq<Byte>, seq<Byte>)
  {
    match op
    case Add(data) => (s + data, [])
    case Prepend(data) => (data + s, [])
    case Drain(n) => (s[Least(n, s)..], [])
    case Remove(n) => (s[Least(n, s)..], s[..Least(n, s)])
    case Copyout(n) => (s, s[..Least(n, s)])
    case Pullup(size) => (s, if size < 0 then s else if size <= |s| then s[..size] else [])
  }

  /** The move from t to s. */
  function OnBoth(s: seq<Byte>, t: seq<Byte>, move: Move): (seq<Byte>, seq<Byte>)
  {
    match move
    case AddBuffer => (s + t, [])
    case PrependBuffer => (t + s, [])
    case RemoveBuffer(n) => (s + t[..Least(n, t)], t[Least(n, t)..])
  }

  method OnOne(x: EvBuffer, op: Single) returns (out: seq<Byte>)
    requires Ready(x)
    modifies x, Nodes(x.chains), Buffers(x.chains)
    ensures Ready(x) && x.Grown() && (x.Contents(), out) == OnBytes(old(x.Contents()), op)
  {
    hide EvBuffer.Valid, EvBuffer.Tight;
    out := [];
    match op
    case Add(data) =>
      var _, _ := x.Add(data);
      BackToValid(x);
    case Prepend(data) =>
      var _ := x.Prepend(data);
    case Drain(n) =>
      var _ := x.Drain(n);
    case Remove(n) =>
      var r;
      r, out := x.Remove(n);
    case Copyout(n) =>
      out := Copied(x, n);
    case Pullup(size) =>
      out := PulledUp(x, size);
  }

  method Copied(x: EvBuffer, n: nat) returns (out: seq<Byte>)
    requires Ready(x)
    ensures Ready(x) && out == x.Contents()[..Least(n, x.Contents())]
  {
    var r;
    r, out := x.Copyout(n);
  }

  /** The bytes that evbuffer_pullup makes contiguous. */
  method PulledUp(x: EvBuffer, size: int) returns (out: seq<Byte>)
    requires Ready(x)
    modifies x, Nodes(x.chains), Buffers(x.chains)
    ensures Ready(x) && x.Grown() && (x.Contents(), out) == OnBytes(old(x.Contents()), Pullup(size))
  {
    hide EvBuffer.Pointed;
    ghost var s := x.Contents();
    var want := if size < 0 then x.totalLen else size;
    assert s[..|s|] == s && s[..0] == [];
    var ok := x.Pullup(size);
    if ok {
      FirstHolds(x);
      out := x.first.Bytes(want, x.chunks[0]);
    } else {
      out := [];
    }
  }

  lemma FirstHolds(x: EvBuffer)
    requires x.Valid() && x.chains != []
    ensures x.first != null && x.first.Holds(x.chunks[0]) && x.first.off == |x.chunks[0]|
  {
    assert x.chains[0].Holds(x.chunks[0]);
  }

  lemma BackToValid(x: EvBuffer)
    requires x.Linked() && x.Pointed()
    ensures x.Valid()
  {
  }

  ghost predicate BothReady(x: EvBuffer, y: EvBuffer)
    reads x, Nodes(x.chains), Buffers(x.chains), y, Nodes(y.chains), Buffers(y.chains)
  {
    Ready(x) && Ready(y) && x.Apart(y)
  }

  /** An operation on x leaves y as it is. */
  method OnOneOfTwo(x: EvBuffer, y: EvBuffer, op: Single) returns (out: seq<Byte>)
    requires BothReady(x, y)
    modifies x, Nodes(x.chains), Buffers(x.chains)
    ensures BothReady(x, y) && x.Grown() && (x.Contents(), out) == OnBytes(old(x.Contents()), op)
    ensures y.chains == old(y.chains) && y.Contents() == old(y.Contents())
  {
    out := OnOne(x, op);
  }

  method MoveFrom(x: EvBuffer, y: EvBuffer, move: Move)
    requires BothReady(x, y)
    modifies x, Nodes(x.chains), Buffers(x.chains), y, Nodes(y.chains), Buffers(y.chains)
    ensures BothReady(x, y) && (x.Contents(), y.Contents()) == OnBoth(old(x.Contents()), old(y.Contents()), move)
    ensures forall c :: c in x.chains ==> c in old(x.chains) || c in old(y.chains) || (fresh(c) && fresh(c.buffer))
    ensures forall c :: c in y.chains ==> c in old(x.chains) || c in old(y.chains) || (fresh(c) && fresh(c.buffer))
  {
    match move
    case AddBuffer => MoveBehind(x, y);
    case PrependBuffer => MoveBefore(x, y);
    case RemoveBuffer(n) => MoveSome(x, y, n);
  }

  method MoveBehind(x: EvBuffer, y: EvBuffer)
    requires BothReady(x, y)
    modifies x, Nodes(x.chains), Buffers(x.chains), y, Nodes(y.chains), Buffers(y.chains)
    ensures BothReady(x, y) && x.Contents() == old(x.Contents()) + old(y.Contents()) && y.Contents() == []
    ensures forall c :: c in x.chains ==> c in old(x.chains) || c in old(y.chains) || (fresh(c) && fresh(c.buffer))
    ensures forall c :: c in y.chains ==> c in old(x.chains) || c in old(y.chains) || (fresh(c) && fresh(c.buffer))
  {
    hide EvBuffer.Pointed, EvBuffer.Linked, EvBuffer.Valid, EvBuffer.Tight, EvBuffer.Apart;
    Lengths(x, y);
    var _ := x.AddBuffer(y);
    BackToValid(x);
    BackToValid(y);
  }

  method MoveBefore(x: EvBuffer, y: EvBuffer)
    requires BothReady(x, y)
    modifies x, Nodes(x.chains), Buffers(x.chains), y, Nodes(y.chains), Buffers(y.chains)
    ensures BothReady(x, y) && x.Contents() == old(y.Contents()) + old(x.Contents()) && y.Contents() == []
    ensures forall c :: c in x.chains ==> c in old(x.chains) || c in old(y.chains) || (fresh(c) && fresh(c.buffer))
    ensures forall c :: c in y.chains ==> c in old(x.chains) || c in old(y.chains) || (fresh(c) && fresh(c.buffer))
  {
    hide EvBuffer.Pointed, EvBuffer.Linked, EvBuffer.Valid, EvBuffer.Tight, EvBuffer.Apart;
    Lengths(x, y);
    var _ := x.PrependBuffer(y);
    BackToValid(x);
    BackToValid(y);
  }

  method MoveSome(x: EvBuffer, y: EvBuffer, n: nat)
    requires BothReady(x, y)
    modifies x, Nodes(x.chains), Buffers(x.chains), y, Nodes(y.chains), Buffers(y.chains)
    ensures BothReady(x, y)
    ensures (x.Contents(), y.Contents()) == OnBoth(old(x.Contents()), old(y.Contents()), RemoveBuffer(n))
    ensures forall c :: c in x.chains ==> c in old(x.chains) || c in old(y.chains) || (fresh(c) && fresh(c.buffer))
    ensures forall c :: c in y.chains ==> c in old(x.chains) || c in old(y.chains) || (fresh(c) && fresh(c.buffer))
  {
    hide EvBuffer.Valid, EvBuffer.Tight, EvBuffer.Apart;
    Lengths(x, y);
    Turned(x, y);
    var _, _ := y.RemoveBuffer(x, n);
    Turned(y, x);
  }

  lemma Lengths(x: EvBuffer, y: EvBuffer)
    requires BothReady(x, y)
    ensures x != y && x.totalLen == |x.Contents()| && y.totalLen == |y.Contents()|
    ensures y.totalLen == 0 ==> y.Contents() == [] && y.Contents() + x.Contents() == x.Contents() == x.Contents() + y.Contents()
  {
  }

  lemma Turned(x: EvBuffer, y: EvBuffer)
    requires x.Apart(y)
    ensures y.Apart(x)
  {
  }

  /** Two byte sequences, and what has been returned so far. */
  datatype State = State(s: seq<Byte>, t: seq<Byte>, outs: seq<seq<Byte>>)

  /** What a run makes of two byte sequences, and all that it returns. */
  function Steps(ops: seq<Op>): State
  {
    if ops == [] then State([], [], []) else Step(Steps(ops[..|ops| - 1]), ops[|ops| - 1])
  }

  function Step(st: State, op: Op): State
  {
    match op
    case One(first, op1) =>
      var (s, out) := OnBytes(if first then st.s else st.t, op1);
      State(if first then s else st.s, if first then st.t else s, st.outs + [out])
    case Two(first, move) =>
      var (s, t) := if first then OnBoth(st.s, st.t, move) else OnBoth(st.t, st.s, move);
      State(if first then s else t, if first then t else s, st.outs + [[]])
  }

  /** All the bytes that were added. */
  function Fed(ops: seq<Op>): seq<Byte>
  {
    if ops == [] then [] else
      Fed(ops[..|ops| - 1]) + (var op := ops[|ops| - 1]; if op.One? && op.op.Add? then op.op.data else [])
  }

  /** What is added at the end comes out at the beginning, all of it and in order. */
  lemma {:induction false} FirstInFirstOut(ops: seq<Op>)
    requires forall i :: 0 <= i < |ops| ==> ops[i].One? && ops[i].first && (ops[i].op.Add? || ops[i].op.Remove?)
    ensures Flatten(Steps(ops).outs) + Steps(ops).s == Fed(ops)
  {
    if ops != [] {
      hide Flatten, OnBytes;
      var front := ops[..|ops| - 1];
      FirstInFirstOut(front);
      OneInOneOut(Steps(front).outs, Steps(front).s, ops[|ops| - 1].op);
    }
  }

  lemma OneInOneOut(outs: seq<seq<Byte>>, s: seq<Byte>, op: Single)
    requires op.Add? || op.Remove?
    ensures var (s', out) := OnBytes(s, op);
            Flatten(outs + [out]) + s' == Flatten(outs) + s + if op.Add? then op.data else []
  {
    hide Flatten;
    var (s', out) := OnBytes(s, op);
    FlattenConcat(outs, [out]);
    FlattenOne(out);
    if op.Add? {
      Assoc(Flatten(outs), s, op.data);
    } else {
      assert s == out + s';
      Assoc(Flatten(outs), out, s');
    }
  }

  lemma Assoc(a: seq<Byte>, b: seq<Byte>, c: seq<Byte>)
    ensures a + (b + c) == (a + b) + c && a + [] == a && (a + b) + [] == a + b
  {
  }

  method Do(x: EvBuffer, y: EvBuffer, op: Op, ghost outs: seq<seq<Byte>>) returns (out: seq<Byte>)
    requires BothReady(x, y)
    modifies x, Nodes(x.chains), Buffers(x.chains), y, Nodes(y.chains), Buffers(y.chains)
    ensures BothReady(x, y)
    ensures forall c :: c in x.chains ==> c in old(x.chains) || c in old(y.chains) || (fresh(c) && fresh(c.buffer))
    ensures forall c :: c in y.chains ==> c in old(x.chains) || c in old(y.chains) || (fresh(c) && fresh(c.buffer))
    ensures Step(State(old(x.Contents()), old(y.Contents()), outs), op) == State(x.Contents(), y.Contents(), outs + [out])
  {
    hide BothReady;
    BothTurned(x, y);
    out := [];
    match op
    case One(first, op1) =>
      if first {
        out := OnOneOfTwo(x, y, op1);
      } else {
        out := OnOneOfTwo(y, x, op1);
        BothTurned(y, x);
      }
    case Two(first, move) =>
      if first {
        MoveFrom(x, y, move);
      } else {
        MoveFrom(y, x, move);
        BothTurned(y, x);
      }
  }

  lemma BothTurned(x: EvBuffer, y: EvBuffer)
    requires BothReady(x, y)
    ensures BothReady(y, x)
  {
  }

  /** Any run of these operations on two new evbuffers does to their bytes, and returns, what it does on sequences. */
  method Run(ops: seq<Op>) returns (x: EvBuffer, y: EvBuffer, outs: seq<seq<Byte>>)
    ensures fresh(x) && fresh(y) && BothReady(x, y) && State(x.Contents(), y.Contents(), outs) == Steps(ops)
  {
    hide Step, BothReady;
    x, y := NewPair();
    outs := [];
    for i := 0 to |ops|
      invariant BothReady(x, y) && fresh(x) && fresh(y)
      invariant forall c :: c in x.chains ==> fresh(c) && fresh(c.buffer)
      invariant forall c :: c in y.chains ==> fresh(c) && fresh(c.buffer)
      invariant State(x.Contents(), y.Contents(), outs) == Steps(ops[..i])
    {
      assert ops[..i + 1][..i] == ops[..i];
      assert forall o :: o in Buffers(x.chains) + Buffers(y.chains) ==> fresh(o);
      assert forall o :: o in Nodes(x.chains) + Nodes(y.chains) ==> fresh(o);
      var out := Do(x, y, ops[i], outs);
      outs := outs + [out];
    }
    assert ops[..|ops|] == ops;
  }

  method NewPair() returns (x: EvBuffer, y: EvBuffer)
    ensures fresh(x) && fresh(y) && BothReady(x, y)
    ensures x.chains == y.chains == [] && x.Contents() == y.Contents() == []
  {
    x := new EvBuffer();
    y := new EvBuffer();
  }
}
