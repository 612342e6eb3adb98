/** The decoder: a span is walked and consumed, values are written over `T{}`. */
module Deserialization {
  import opened Words
  import opened Types
  import TimePoints

  /** What the decoder throws. */
  datatype Fault =
    | OidMismatch(found: int, expected: int)
    | CountMismatch(found: int, expected: int)
    | Multidimensional
    | LengthError

  /** `Undefined` is a broken `std::span` precondition, a read past the end, or a signed
      overflow: what the code then does is not determined. */
  datatype Outcome<+T> = Done(value: T) | Thrown(fault: Fault) | Undefined {
    predicate IsFailure() {
      !Done?
    }

    function PropagateFailure<U>(): Outcome<U>
      requires IsFailure()
    {
      if Thrown? then Thrown(fault) else Undefined
    }

    function Extract(): T
      requires Done?
    {
      value
    }
  }

  // std::span

  /** `b.subspan(at)`. */
  function From(b: seq<byte>, at: int): Outcome<seq<byte>> {
    if 0 <= at <= |b| then Done(b[at..]) else Undefined
  }

  /** `b.subspan(at, count)` for an `int32_t` count: -1 becomes `std::dynamic_extent`, the
      rest of the span; other negative counts become huge. */
  function Sub(b: seq<byte>, at: nat, count: int): Outcome<seq<byte>> {
    if at > |b| then Undefined
    else if count == -1 then Done(b[at..])
    else if 0 <= count <= |b| - at then Done(b[at..at + count])
    else Undefined
  }

  /** `header + size` in `int`. */
  function Plus(header: nat, size: int): Outcome<int> {
    if header + size < TWO_31 then Done(header + size) else Undefined
  }

  /** The first `n` bytes, read through `data()`. */
  function Head(b: seq<byte>, n: nat): Outcome<seq<byte>> {
    if n <= |b| then Done(b[..n]) else Undefined
  }

  function ReadInt32(b: seq<byte>, at: nat): Outcome<int> {
    var s :- From(b, at);
    var h :- Head(s, 4);
    Done(LoadInt32(h))
  }

  function ReadU32(b: seq<byte>, at: nat): Outcome<u32> {
    var s :- From(b, at);
    var h :- Head(s, 4);
    Done(LoadU32(h))
  }

  // The checks

  function VerifyOid(b: seq<byte>, at: nat, expected: u32): Outcome<()> {
    var oid :- ReadU32(b, at);
    if expected != 0 && expected != oid then Thrown(OidMismatch(oid, expected)) else Done(())
  }

  function VerifyCount(b: seq<byte>, expected: nat): Outcome<()> {
    var count :- ReadInt32(b, 0);
    if ToInt32(expected) != count then Thrown(CountMismatch(count, ToInt32(expected))) else Done(())
  }

  // Decoding `b` over the value `v`

  function Decode(t: Type, b: seq<byte>, v: Value): Outcome<Value>
    requires HasType(v, t)
    decreases t, 0
  {
    match t
    case Word(k) =>
      var h :- Head(b, k.Width());
      Done(Bits(Load(h)))
    case Text(view) => Done(Chars(if view then b else v.chars + b))
    case TimePoint =>
      var h :- Head(b, 8);
      var wire := LoadInt64(h);
      if TimePoints.Representable(wire) then Done(Time(TimePoints.FromWire(wire))) else Undefined
    case Tuple(ms) => DecodeComposite(ms, b, v.fields)
    case Udt(_, _, ms, _) => DecodeComposite(ms, b, v.fields)
    case Array(e) => DecodeArray(e, b, v.elems)
  }

  function DecodeComposite(ts: seq<Type>, b: seq<byte>, vs: seq<Value>): Outcome<Value>
    requires HaveTypes(vs, ts)
    decreases ts, 3
  {
    var _ :- VerifyCount(b, |ts|);
    var rest :- From(b, 4);
    var (fields, _) :- DecodeMembers(ts, rest, vs);
    Done(Fields(fields))
  }

  /** The fold over the members, with the span that is left after the last. */
  function DecodeMembers(ts: seq<Type>, b: seq<byte>, vs: seq<Value>): (r: Outcome<(seq<Value>, seq<byte>)>)
    requires HaveTypes(vs, ts)
    decreases ts, 2
  {
    if ts == [] then Done(([], b)) else
      var (x, rest) :- DecodeMember(ts[0], b, vs[0]);
      var (xs, end) :- DecodeMembers(ts[1..], rest, vs[1..]);
      Done(([x] + xs, end))
  }

  function DecodeMember(t: Type, b: seq<byte>, v: Value): Outcome<(Value, seq<byte>)>
    requires HasType(v, t)
    decreases t, 2
  {
    var _ :- VerifyOid(b, 0, ExpectedOid(t));
    DecodeFramed(t, 8, b, v)
  }

  /** A member or an element: its length is the last word of the header. */
  function DecodeFramed(t: Type, header: nat, b: seq<byte>, v: Value): Outcome<(Value, seq<byte>)>
    requires HasType(v, t) && header >= 4
    decreases t, 1
  {
    var size :- ReadInt32(b, header - 4);
    var body :- Sub(b, header, size);
    var x :- Decode(t, body, v);
    var next :- Plus(header, size);
    var rest :- From(b, next);
    Done((x, rest))
  }

  /** `array.resize(n)`. */
  function Resize(t: Type, vs: seq<Value>, n: nat): (r: seq<Value>)
    requires AllHaveType(vs, t)
    ensures |r| == n && AllHaveType(r, t)
    ensures forall i | 0 <= i < n :: r[i] == if i < |vs| then vs[i] else Default(t)
  {
    if n <= |vs| then vs[..n] else vs + seq(n - |vs|, i => Default(t))
  }

  function DecodeArray(e: Type, b: seq<byte>, vs: seq<Value>): Outcome<Value>
    requires AllHaveType(vs, e)
    decreases e, 3
  {
    var count :- DecodeArrayHeader(e, b);
    var rest :- From(b, 20);
    if count < 0 then Thrown(LengthError) else
      var (elems, _) :- DecodeElems(e, rest, Resize(e, vs, count));
      Done(Elems(elems))
  }

  function DecodeArrayHeader(e: Type, b: seq<byte>): Outcome<int> {
    var dimensions :- ReadInt32(b, 0);
    if dimensions != 1 then Thrown(Multidimensional) else
      var s :- From(b, 8);
      var _ :- VerifyOid(s, 0, ExpectedOid(e));
      ReadInt32(b, 12)
  }

  function DecodeElems(e: Type, b: seq<byte>, vs: seq<Value>): Outcome<(seq<Value>, seq<byte>)>
    requires AllHaveType(vs, e)
    decreases e, 2, |vs|
  {
    if vs == [] then Done(([], b)) else
      var (x, rest) :- DecodeFramed(e, 4, b, vs[0]);
      var (xs, end) :- DecodeElems(e, rest, vs[1..]);
      Done(([x] + xs, end))
  }

  // What any bytes are read as

  /** A fixed-length field needs its length, is read from the front, and the rest is ignored. */
  lemma LeavesRead(t: Type, b: seq<byte>, v: Value)
    requires HasType(v, t) && (t.Word? || t.TimePoint?)
    ensures var n := if t.Word? then t.kind.Width() else 8;
            && (|b| < n ==> Decode(t, b, v) == Undefined)
            && (|b| >= n ==> Decode(t, b, v) == Decode(t, b[..n], v))
            && (|b| >= n && t.Word? ==> Decode(t, b, v) == Done(Bits(Load(b[..n]))))
            && (|b| >= n && t.TimePoint? ==>
                  var ns := (LoadInt64(b[..n]) + 946_684_800_000_000) * 1000;
                  Decode(t, b, v) == if TimePoints.IsInt64(ns) then Done(Time(ns)) else Undefined)
  {
    hide Load, HasType;
    var n := if t.Word? then t.kind.Width() else 8;
    if |b| >= n {
      assert b[..n][..n] == b[..n];
    }
  }

  /** A composite with another member count is refused. */
  lemma CompositeRefused(ts: seq<Type>, b: seq<byte>, vs: seq<Value>)
    requires HaveTypes(vs, ts) && |ts| < TWO_31
    ensures |b| < 4 ==> DecodeComposite(ts, b, vs) == Undefined
    ensures |b| >= 4 && LoadInt32(b[..4]) != |ts| ==>
              DecodeComposite(ts, b, vs) == Thrown(CountMismatch(LoadInt32(b[..4]), |ts|))
  {
    hide DecodeMembers, LoadInt32, HaveTypes;
    Wrap32(|ts|);
    assert b[0..] == b;
  }

  /** An array that has not one dimension, has elements of a wrong type or a negative count, is
      refused, in this order; NULL flag and lower bound are not looked at. */
  lemma ArrayRefused(e: Type, b: seq<byte>, vs: seq<Value>)
    requires AllHaveType(vs, e) && |b| >= 20
    ensures var dimensions, oid, count := LoadInt32(b[..4]), LoadU32(b[8..12]), LoadInt32(b[12..16]);
            DecodeArray(e, b, vs) ==
            if dimensions != 1 then Thrown(Multidimensional)
            else if ExpectedOid(e) != 0 && oid != ExpectedOid(e) then Thrown(OidMismatch(oid, ExpectedOid(e)))
            else if count < 0 then Thrown(LengthError)
            else
              var r := DecodeElems(e, b[20..], Resize(e, vs, count));
              if r.Done? then Done(Elems(r.value.0)) else r.PropagateFailure()
  {
    hide DecodeElems, LoadInt32, LoadU32, AllHaveType, Resize, ExpectedOid;
    assert b[0..][..4] == b[..4] && b[8..][0..][..4] == b[8..12] && b[12..][..4] == b[12..16];
  }

  // The decoder as it runs

  method Deserialize(t: Type, b: seq<byte>, v: Value) returns (r: Outcome<Value>)
    requires HasType(v, t)
    ensures r == Decode(t, b, v)
    decreases t, 0
  {
    match t
    case Word(k) =>
      var h :- Head(b, k.Width());
      r := Done(Bits(Load(h)));
    case Text(view) => r := Done(Chars(if view then b else v.chars + b));
    case TimePoint =>
      var h :- Head(b, 8);
      var wire := LoadInt64(h);
      if TimePoints.Representable(wire) {
        r := Done(Time(TimePoints.FromWire(wire)));
      } else {
        r := Undefined;
      }
    case Tuple(ms) => r := DeserializeComposite(ms, b, v.fields);
    case Udt(_, _, ms, _) => r := DeserializeComposite(ms, b, v.fields);
    case Array(e) => r := DeserializeArray(e, b, v.elems);
  }

  method DeserializeComposite(ts: seq<Type>, b: seq<byte>, vs: seq<Value>) returns (r: Outcome<Value>)
    requires HaveTypes(vs, ts)
    ensures r == DecodeComposite(ts, b, vs)
    decreases ts, 3
  {
    var _ :- VerifyCount(b, |ts|);
    var buffer :- From(b, 4);
    var done :- DeserializeMembers(ts, buffer, vs);
    r := Done(Fields(done.0));
  }

  /** The fold over the members: each is read from the front of `buffer`, which shrinks. */
  method DeserializeMembers(ts: seq<Type>, b: seq<byte>, vs: seq<Value>)
    returns (r: Outcome<(seq<Value>, seq<byte>)>)
    requires HaveTypes(vs, ts)
    ensures r == DecodeMembers(ts, b, vs)
    decreases ts, 2
  {
    if ts == [] {
      return Done(([], b));
    }
    var first :- DeserializeMember(ts[0], b, vs[0]);
    var others :- DeserializeMembers(ts[1..], first.1, vs[1..]);
    r := Done(([first.0] + others.0, others.1));
  }

  method DeserializeMember(t: Type, b: seq<byte>, v: Value) returns (r: Outcome<(Value, seq<byte>)>)
    requires HasType(v, t)
    ensures r == DecodeMember(t, b, v)
    decreases t, 1
  {
    var _ :- VerifyOid(b, 0, ExpectedOid(t));
    var size :- ReadInt32(b, 4);
    var body :- Sub(b, 8, size);
    var x :- Deserialize(t, body, v);
    var next :- Plus(8, size);
    var rest :- From(b, next);
    r := Done((x, rest));
  }

  method DeserializeArray(e: Type, b: seq<byte>, vs: seq<Value>) returns (r: Outcome<Value>)
    requires AllHaveType(vs, e)
    ensures r == DecodeArray(e, b, vs)
    decreases e, 3
  {
    var count :- DecodeArrayHeader(e, b);
    var buffer :- From(b, 20);
    if count < 0 {
      return Thrown(LengthError);
    }
    var done :- DeserializeElems(e, buffer, Resize(e, vs, count));
    r := Done(Elems(done.0));
  }

  /** The loop over the resized array: each element is decoded in place. */
  method DeserializeElems(e: Type, b: seq<byte>, vs: seq<Value>) returns (r: Outcome<(seq<Value>, seq<byte>)>)
    requires AllHaveType(vs, e)
    ensures r == DecodeElems(e, b, vs)
    decreases e, 2
  {
    hide HasType, DecodeElems, DecodeFramed, Onto, AllHaveType;
    var elems, buffer := vs, b;
    OntoNil(DecodeElems(e, b, vs));
    for i := 0 to |vs|
      invariant |elems| == |vs| && elems[i..] == vs[i..] && AllHaveType(vs[i..], e)
      invariant DecodeElems(e, b, vs) == Onto(elems[..i], DecodeElems(e, buffer, vs[i..]))
    {
      ghost var before := elems[..i];
      assert elems[i] == vs[i] by {
        assert elems[i] == elems[i..][0] == vs[i..][0];
      }
      ElemTyped(e, vs, i);
      OntoStep(e, buffer, vs, i, before);
      var x :- DeserializeElem(e, buffer, elems[i]);
      elems, buffer := elems[i := x.0], x.1;
      assert elems[..i + 1] == before + [x.0];
    }
    assert elems[..|vs|] == elems && vs[|vs|..] == [];
    OntoEnd(e, buffer, elems);
    r := Done((elems, buffer));
  }

  lemma ElemTyped(e: Type, vs: seq<Value>, i: nat)
    requires AllHaveType(vs, e) && i < |vs|
    ensures HasType(vs[i], e) && AllHaveType(vs[i..], e) && AllHaveType(vs[i + 1..], e)
  {
    hide HasType;
  }

  method DeserializeElem(e: Type, b: seq<byte>, v: Value) returns (r: Outcome<(Value, seq<byte>)>)
    requires HasType(v, e)
    ensures r == DecodeFramed(e, 4, b, v)
    decreases e, 1
  {
    var size :- ReadInt32(b, 0);
    var body :- Sub(b, 4, size);
    var x :- Deserialize(e, body, v);
    var next :- Plus(4, size);
    var rest :- From(b, next);
    r := Done((x, rest));
  }

  /** The values decoded so far in front of those still to come. */
  ghost function Onto(done: seq<Value>, o: Outcome<(seq<Value>, seq<byte>)>): Outcome<(seq<Value>, seq<byte>)> {
    if o.Done? then Done((done + o.value.0, o.value.1)) else o
  }

  lemma OntoNil(o: Outcome<(seq<Value>, seq<byte>)>)
    ensures Onto([], o) == o
  {
    if o.Done? {
      assert [] + o.value.0 == o.value.0;
    }
  }

  lemma OntoEnd(e: Type, b: seq<byte>, done: seq<Value>)
    ensures Onto(done, DecodeElems(e, b, [])) == Done((done, b))
  {
    assert done + [] == done;
  }

  lemma OntoStep(e: Type, b: seq<byte>, vs: seq<Value>, i: nat, done: seq<Value>)
    requires AllHaveType(vs, e) && i < |vs|
    ensures Onto(done, DecodeElems(e, b, vs[i..])) ==
            var x := DecodeFramed(e, 4, b, vs[i]);
            if x.Done? then Onto(done + [x.value.0], DecodeElems(e, x.value.1, vs[i + 1..])) else x.PropagateFailure()
  {
    hide HasType, DecodeFramed;
    var x := DecodeFramed(e, 4, b, vs[i]);
    assert vs[i..][0] == vs[i] && vs[i..][1..] == vs[i + 1..];
    if x.Done? {
      var o := DecodeElems(e, x.value.1, vs[i + 1..]);
      if o.Done? {
        assert done + ([x.value.0] + o.value.0) == done + [x.value.0] + o.value.0;
      }
    }
  }

  /** `as<T>(field)`: the column's OID is checked, then the field is decoded over `T{}`. */
  method As(t: Type, oid: u32, data: seq<byte>) returns (r: Outcome<Value>)
    ensures r == AsSpec(t, oid, data)
  {
    var result := Default(t);
    if ExpectedOid(t) != 0 && ExpectedOid(t) != oid {
      return Thrown(OidMismatch(oid, ExpectedOid(t)));
    }
    r := Deserialize(t, data, result);
  }

  function AsSpec(t: Type, oid: u32, data: seq<byte>): Outcome<Value> {
    if ExpectedOid(t) != 0 && ExpectedOid(t) != oid then Thrown(OidMismatch(oid, ExpectedOid(t)))
    else Decode(t, data, Default(t))
  }
}
