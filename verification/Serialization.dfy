/** The encoder: what it appends, how long that is, and how parameters share one buffer. */
module Serialization {
  import opened Words
  import opened Types
  import opened Buffers
  import TimePoints

  // The size computation

  function SizeOf(t: Type, v: Value): nat
    requires HasType(v, t)
    decreases t, 0
  {
    match t
    case Word(k) => k.Width()
    case Text(_) => |v.chars|
    case TimePoint => 8
    case Tuple(ms) => 4 + MembersSize(ms, v.fields)
    case Udt(_, _, ms, _) => 4 + MembersSize(ms, v.fields)
    case Array(e) => 20 + ElemsSize(e, v.elems)
  }

  function MembersSize(ts: seq<Type>, vs: seq<Value>): nat
    requires HaveTypes(vs, ts)
    decreases ts, 1
  {
    if ts == [] then 0 else SizeOf(ts[0], vs[0]) + 8 + MembersSize(ts[1..], vs[1..])
  }

  function ElemsSize(t: Type, vs: seq<Value>): nat
    requires AllHaveType(vs, t)
    decreases t, 1 + |vs|
  {
    if vs == [] then 0 else SizeOf(t, vs[0]) + 4 + ElemsSize(t, vs[1..])
  }

  /** The computation as the code runs it, with the loop over the elements of an array. */
  method ComputeSize(t: Type, v: Value) returns (size: nat)
    requires HasType(v, t)
    ensures size == SizeOf(t, v)
    decreases t
  {
    match t
    case Word(k) => size := k.Width();
    case Text(_) => size := |v.chars|;
    case TimePoint => size := 8;
    case Tuple(ms) =>
      size := ComputeMembersSize(ms, v.fields);
      size := size + 4;
    case Udt(_, _, ms, _) =>
      size := ComputeMembersSize(ms, v.fields);
      size := size + 4;
    case Array(e) =>
      size := 20;
      for i := 0 to |v.elems|
        invariant size + ElemsSize(e, v.elems[i..]) == SizeOf(t, v)
      {
        var n := ComputeSize(e, v.elems[i]);
        assert v.elems[i..][1..] == v.elems[i + 1..];
        size := size + n + 4;
      }
  }

  method ComputeMembersSize(ts: seq<Type>, vs: seq<Value>) returns (size: nat)
    requires HaveTypes(vs, ts)
    ensures size == MembersSize(ts, vs)
    decreases ts
  {
    size := 0;
    for i := 0 to |ts|
      invariant size + MembersSize(ts[i..], vs[i..]) == MembersSize(ts, vs)
    {
      var n := ComputeSize(ts[i], vs[i]);
      assert ts[i..][1..] == ts[i + 1..] && vs[i..][1..] == vs[i + 1..];
      size := size + n + 8;
    }
  }

  // The encoding

  function Encode(omp: OidMap, t: Type, v: Value): seq<byte>
    requires HasType(v, t)
    decreases t, 0
  {
    match t
    case Word(k) => Store(k.Width(), v.bits)
    case Text(_) => v.chars
    case TimePoint => Word64(TimePoints.ToWire(v.ns))
    case Tuple(ms) => EncodeComposite(omp, ms, v.fields)
    case Udt(_, _, ms, _) => EncodeComposite(omp, ms, v.fields)
    case Array(e) => EncodeArray(omp, e, v.elems)
  }

  function EncodeComposite(omp: OidMap, ts: seq<Type>, vs: seq<Value>): seq<byte>
    requires HaveTypes(vs, ts)
    decreases ts, 3
  {
    Word32(|ts|) + EncodeMembers(omp, ts, vs)
  }

  function EncodeMember(omp: OidMap, t: Type, v: Value): seq<byte>
    requires HasType(v, t)
    decreases t, 1
  {
    Word32(OidOf(omp, t)) + Word32(SizeOf(t, v)) + Encode(omp, t, v)
  }

  function EncodeMembers(omp: OidMap, ts: seq<Type>, vs: seq<Value>): seq<byte>
    requires HaveTypes(vs, ts)
    decreases ts, 2
  {
    if ts == [] then [] else EncodeMember(omp, ts[0], vs[0]) + EncodeMembers(omp, ts[1..], vs[1..])
  }

  function EncodeArray(omp: OidMap, e: Type, vs: seq<Value>): seq<byte>
    requires AllHaveType(vs, e)
    decreases e, 3 + |vs|
  {
    ArrayHeader(omp, e, |vs|) + EncodeElems(omp, e, vs)
  }

  function ArrayHeader(omp: OidMap, elem: Type, count: nat): (b: seq<byte>)
    ensures |b| == 20
  {
    Word32(1) + Word32(0) + Word32(OidOf(omp, elem)) + Word32(count) + Word32(0)
  }

  function EncodeElem(omp: OidMap, t: Type, v: Value): seq<byte>
    requires HasType(v, t)
    decreases t, 1
  {
    Word32(SizeOf(t, v)) + Encode(omp, t, v)
  }

  function EncodeElems(omp: OidMap, t: Type, vs: seq<Value>): seq<byte>
    requires AllHaveType(vs, t)
    decreases t, 2 + |vs|
  {
    if vs == [] then [] else EncodeElem(omp, t, vs[0]) + EncodeElems(omp, t, vs[1..])
  }

  /** Every `omp.at` that encoding this value performs succeeds. The elements of an empty
      array are never looked into. */
  ghost predicate Resolved(omp: OidMap, t: Type, v: Value)
    requires HasType(v, t)
    decreases t, 0
  {
    match t
    case Tuple(ms) => MembersResolved(omp, ms, v.fields)
    case Udt(_, _, ms, _) => MembersResolved(omp, ms, v.fields)
    case Array(e) => Known(omp, e) && ElemsResolved(omp, e, v.elems)
    case _ => true
  }

  ghost predicate MembersResolved(omp: OidMap, ts: seq<Type>, vs: seq<Value>)
    requires HaveTypes(vs, ts)
    decreases ts, 1
  {
    forall i | 0 <= i < |ts| :: Known(omp, ts[i]) && Resolved(omp, ts[i], vs[i])
  }

  ghost predicate ElemsResolved(omp: OidMap, t: Type, vs: seq<Value>)
    requires AllHaveType(vs, t)
    decreases t, 1
  {
    forall i | 0 <= i < |vs| :: Resolved(omp, t, vs[i])
  }

  // Size prediction

  /** `size_of` predicts the encoder exactly, whatever the OID map holds. */
  lemma {:induction false} SizeIsExact(omp: OidMap, t: Type, v: Value)
    requires HasType(v, t)
    ensures |Encode(omp, t, v)| == SizeOf(t, v)
    decreases t, 0
  {
    match t
    case Tuple(ms) => MembersSizeIsExact(omp, ms, v.fields);
    case Udt(_, _, ms, _) => MembersSizeIsExact(omp, ms, v.fields);
    case Array(e) => ElemsSizeIsExact(omp, e, v.elems);
    case _ =>
  }

  lemma {:induction false} MembersSizeIsExact(omp: OidMap, ts: seq<Type>, vs: seq<Value>)
    requires HaveTypes(vs, ts)
    ensures |EncodeMembers(omp, ts, vs)| == MembersSize(ts, vs)
    decreases ts, 1
  {
    if ts != [] {
      SizeIsExact(omp, ts[0], vs[0]);
      MembersSizeIsExact(omp, ts[1..], vs[1..]);
    }
  }

  lemma {:induction false} ElemsSizeIsExact(omp: OidMap, t: Type, vs: seq<Value>)
    requires AllHaveType(vs, t)
    ensures |EncodeElems(omp, t, vs)| == ElemsSize(t, vs)
    decreases t, 1 + |vs|
  {
    if vs != [] {
      SizeIsExact(omp, t, vs[0]);
      ElemsSizeIsExact(omp, t, vs[1..]);
    }
  }

  // Framing

  lemma {:induction false} EncodeMembersConcat(
      omp: OidMap, ts: seq<Type>, vs: seq<Value>, ts': seq<Type>, vs': seq<Value>)
    requires HaveTypes(vs, ts) && HaveTypes(vs', ts')
    ensures HaveTypes(vs + vs', ts + ts')
    ensures EncodeMembers(omp, ts + ts', vs + vs') == EncodeMembers(omp, ts, vs) + EncodeMembers(omp, ts', vs')
  {
    hide HasType, EncodeMember;
    HaveTypesConcat(ts, vs, ts', vs');
    if ts == [] {
      assert ts + ts' == ts' && vs + vs' == vs';
    } else {
      var t, v := ts[0], vs[0];
      EncodeMembersConcat(omp, ts[1..], vs[1..], ts', vs');
      assert (ts + ts')[1..] == ts[1..] + ts' && (vs + vs')[1..] == vs[1..] + vs';
      assert (ts + ts')[0] == t && (vs + vs')[0] == v;
      var tail := EncodeMembers(omp, ts[1..], vs[1..]);
      assert EncodeMembers(omp, ts, vs) == EncodeMember(omp, t, v) + tail;
    }
  }

  lemma HaveTypesConcat(ts: seq<Type>, vs: seq<Value>, ts': seq<Type>, vs': seq<Value>)
    requires HaveTypes(vs, ts) && HaveTypes(vs', ts')
    ensures HaveTypes(vs + vs', ts + ts')
  {
    forall i | 0 <= i < |ts + ts'| ensures HasType((vs + vs')[i], (ts + ts')[i]) {
      if i < |ts| {
        assert HasType(vs[i], ts[i]);
      } else {
        assert HasType(vs'[i - |ts|], ts'[i - |ts|]);
      }
    }
  }

  lemma MembersSplit(omp: OidMap, ts: seq<Type>, vs: seq<Value>, i: nat)
    requires HaveTypes(vs, ts) && i < |ts|
    ensures EncodeMembers(omp, ts, vs) ==
            EncodeMembers(omp, ts[..i], vs[..i])
            + (EncodeMember(omp, ts[i], vs[i]) + EncodeMembers(omp, ts[i + 1..], vs[i + 1..]))
  {
    assert ts[..i] + ts[i..] == ts && vs[..i] + vs[i..] == vs;
    EncodeMembersConcat(omp, ts[..i], vs[..i], ts[i..], vs[i..]);
    assert ts[i..][1..] == ts[i + 1..] && vs[i..][1..] == vs[i + 1..];
  }

  /** The OID word and length word in front of each member of a composite delimit exactly
      that member's encoding, and the next member starts where it ends. */
  lemma MemberFraming(omp: OidMap, ts: seq<Type>, vs: seq<Value>, i: nat)
    requires HaveTypes(vs, ts) && i < |ts|
    ensures var b, at, size := EncodeComposite(omp, ts, vs), 4 + MembersSize(ts[..i], vs[..i]), SizeOf(ts[i], vs[i]);
            && at + 8 + size <= |b|
            && b[at..at + 8] == Word32(OidOf(omp, ts[i])) + Word32(size)
            && b[at + 8..at + 8 + size] == Encode(omp, ts[i], vs[i])
            && at + 8 + size == 4 + MembersSize(ts[..i + 1], vs[..i + 1])
  {
    hide HasType, Encode, SizeOf, Word32, EncodeMembers, MembersSize;
    MembersSplit(omp, ts, vs, i);
    MembersSizeIsExact(omp, ts[..i], vs[..i]);
    SizeIsExact(omp, ts[i], vs[i]);
    MembersSizeSnoc(ts, vs, i);
    var x, y := Word32(OidOf(omp, ts[i])) + Word32(SizeOf(ts[i], vs[i])), Encode(omp, ts[i], vs[i]);
    var pre := Word32(|ts|) + EncodeMembers(omp, ts[..i], vs[..i]);
    var post := EncodeMembers(omp, ts[i + 1..], vs[i + 1..]);
    assert EncodeComposite(omp, ts, vs) == pre + (x + y + post);
    Slice(pre, x, y, post);
  }

  /** A word is its bits in big-endian order, a time point the microseconds since 2000 in eight
      bytes, and a string its bytes. */
  lemma LeafBytes(omp: OidMap, t: Type, v: Value)
    requires HasType(v, t)
    ensures t.Word? ==>
              var b := Encode(omp, t, v);
              forall i | 0 <= i < |b| :: b[i] == v.bits / Pow256(|b| - 1 - i) % 256
    ensures t.TimePoint? ==>
              |Encode(omp, t, v)| == 8
              && LoadInt64(Encode(omp, t, v)) == TimePoints.TruncDiv(v.ns, 1000) - 946_684_800_000_000
    ensures t.Text? ==> Encode(omp, t, v) == v.chars
  {
    match t
    case Word(k) =>
      var w := k.Width();
      forall i | 0 <= i < w ensures Store(w, v.bits)[i] == v.bits / Pow256(w - 1 - i) % 256 {
        BigEndian(w, v.bits, i);
      }
    case TimePoint =>
      TimePoints.MicrosTruncates(v.ns);
      ReadWord64(TimePoints.ToWire(v.ns));
    case _ =>
  }

  /** A composite begins with its member count. */
  lemma CompositeCount(omp: OidMap, ts: seq<Type>, vs: seq<Value>)
    requires HaveTypes(vs, ts) && |ts| < TWO_31
    ensures |EncodeComposite(omp, ts, vs)| >= 4 && LoadInt32(EncodeComposite(omp, ts, vs)[..4]) == |ts|
  {
    hide EncodeMembers, Word32, HaveTypes;
    assert EncodeComposite(omp, ts, vs)[..4] == Word32(|ts|);
    ReadWord32(|ts|);
  }

  /** An array begins with one dimension, no NULLs, the OID of its elements, their count as an
      `int32_t`, and lower bound 0. */
  lemma ArrayWords(omp: OidMap, e: Type, vs: seq<Value>)
    requires AllHaveType(vs, e)
    ensures var b := EncodeArray(omp, e, vs);
            && |b| >= 20
            && b[..8] == [0, 0, 0, 1, 0, 0, 0, 0] && LoadU32(b[8..12]) == OidOf(omp, e)
            && LoadInt32(b[12..16]) == ToInt32(|vs|) && b[16..20] == [0, 0, 0, 0]
  {
    hide EncodeElems, Word32, AllHaveType, OidOf;
    var b, oid := EncodeArray(omp, e, vs), Word32(OidOf(omp, e));
    assert b[..4] == Word32(1) && b[4..8] == b[16..20] == Word32(0);
    assert b[8..12] == oid && b[12..16] == Word32(|vs|) && b[..8] == b[..4] + b[4..8];
    ReadWord32(|vs|);
    ReadWord32(OidOf(omp, e));
    SmallWords();
  }

  lemma SmallWords()
    ensures Word32(0) == [0, 0, 0, 0] && Word32(1) == [0, 0, 0, 1]
  {
    assert Store(1, 0) == [0] && Store(2, 0) == [0, 0] && Store(3, 0) == [0, 0, 0];
  }

  lemma {:induction false} MembersSizeSnoc(ts: seq<Type>, vs: seq<Value>, i: nat)
    requires HaveTypes(vs, ts) && i < |ts|
    ensures MembersSize(ts[..i + 1], vs[..i + 1]) == MembersSize(ts[..i], vs[..i]) + 8 + SizeOf(ts[i], vs[i])
  {
    if i > 0 {
      MembersSizeSnoc(ts[1..], vs[1..], i - 1);
      assert ts[..i][1..] == ts[1..][..i - 1] && vs[..i][1..] == vs[1..][..i - 1];
      assert ts[..i + 1][1..] == ts[1..][..i] && vs[..i + 1][1..] == vs[1..][..i];
    }
  }

  /** The same for the length word of each array element. */
  lemma ElemFraming(omp: OidMap, e: Type, vs: seq<Value>, i: nat)
    requires AllHaveType(vs, e) && i < |vs|
    ensures var b, at, size := EncodeArray(omp, e, vs), 20 + ElemsSize(e, vs[..i]), SizeOf(e, vs[i]);
            && at + 4 + size <= |b|
            && b[at..at + 4] == Word32(size)
            && b[at + 4..at + 4 + size] == Encode(omp, e, vs[i])
            && at + 4 + size == 20 + ElemsSize(e, vs[..i + 1])
  {
    hide *;
    SlicesTyped(e, vs, i);
    ElemsSplit(omp, e, vs, i);
    ElemsSizeIsExact(omp, e, vs[..i]);
    ElemsSizeIsExact(omp, e, vs[..i + 1]);
    SizeIsExact(omp, e, vs[i]);
    EncodeElemIs(omp, e, vs[i]);
    EncodeArrayIs(omp, e, vs);
    var x, y := Word32(SizeOf(e, vs[i])), Encode(omp, e, vs[i]);
    var pre := ArrayHeader(omp, e, |vs|) + EncodeElems(omp, e, vs[..i]);
    var post := EncodeElems(omp, e, vs[i + 1..]);
    assert EncodeArray(omp, e, vs) == pre + (x + y + post);
    Slice(pre, x, y, post);
  }

  lemma SlicesTyped(t: Type, vs: seq<Value>, i: nat)
    requires AllHaveType(vs, t) && i < |vs|
    ensures HasType(vs[i], t)
    ensures AllHaveType(vs[..i], t) && AllHaveType(vs[..i + 1], t) && AllHaveType(vs[i + 1..], t)
  {
    hide HasType;
  }

  lemma EncodeElemIs(omp: OidMap, t: Type, v: Value)
    requires HasType(v, t)
    ensures EncodeElem(omp, t, v) == Word32(SizeOf(t, v)) + Encode(omp, t, v)
  {
  }

  lemma EncodeArrayIs(omp: OidMap, e: Type, vs: seq<Value>)
    requires AllHaveType(vs, e)
    ensures EncodeArray(omp, e, vs) == ArrayHeader(omp, e, |vs|) + EncodeElems(omp, e, vs)
  {
  }

  lemma Slice(pre: seq<byte>, a: seq<byte>, b: seq<byte>, post: seq<byte>)
    ensures var s, at := pre + (a + b + post), |pre|;
            && s[at..at + |a|] == a && s[at + |a|..at + |a| + |b|] == b
  {
  }

  lemma ElemsStep(omp: OidMap, t: Type, vs: seq<Value>)
    requires vs != [] && AllHaveType(vs, t)
    ensures HasType(vs[0], t) && AllHaveType(vs[1..], t)
    ensures EncodeElems(omp, t, vs) == EncodeElem(omp, t, vs[0]) + EncodeElems(omp, t, vs[1..])
  {
    hide HasType, EncodeElem;
  }

  lemma NoElems(omp: OidMap, t: Type, vs: seq<Value>)
    requires vs == [] && AllHaveType(vs, t)
    ensures EncodeElems(omp, t, vs) == []
  {
  }

  lemma {:induction false} EncodeElemsConcat(omp: OidMap, t: Type, a: seq<Value>, b: seq<Value>)
    requires AllHaveType(a, t) && AllHaveType(b, t)
    ensures AllHaveType(a + b, t)
    ensures EncodeElems(omp, t, a + b) == EncodeElems(omp, t, a) + EncodeElems(omp, t, b)
  {
    hide HasType, EncodeElem, EncodeElems;
    if a == [] {
      assert a + b == b;
      NoElems(omp, t, a);
      assert [] + EncodeElems(omp, t, b) == EncodeElems(omp, t, b);
    } else {
      ElemsStep(omp, t, a);
      EncodeElemsConcat(omp, t, a[1..], b);
      assert (a + b)[1..] == a[1..] + b && (a + b)[0] == a[0];
      ElemsStep(omp, t, a + b);
    }
  }

  // The encoder itself

  method PutWord(buffer: Buffer, n: nat, x: nat)
    requires buffer.Valid()
    modifies buffer
    ensures buffer.Valid() && Wrote(old(buffer.State()), buffer.State(), true, Store(n, x))
  {
    buffer.Extend(n);
    buffer.StoreBack(Store(n, x));
  }

  method PutInt32(buffer: Buffer, x: int)
    requires buffer.Valid()
    modifies buffer
    ensures buffer.Valid() && Wrote(old(buffer.State()), buffer.State(), true, Word32(x))
  {
    PutWord(buffer, 4, x % TWO_32);
  }

  /** Appends the encoding of `v`, or throws exactly when an OID it needs is not in the
      map, leaving a prefix of the encoding behind. */
  method Put(buffer: Buffer, omp: OidMap, t: Type, v: Value) returns (ok: bool)
    requires buffer.Valid() && HasType(v, t)
    modifies buffer
    ensures ok <==> Resolved(omp, t, v)
    ensures buffer.Valid() && Wrote(old(buffer.State()), buffer.State(), ok, Encode(omp, t, v))
    decreases t, 0
  {
    ok := true;
    match t
    case Word(k) => PutWord(buffer, k.Width(), v.bits);
    case Text(_) => buffer.Append(v.chars);
    case TimePoint => PutWord(buffer, 8, TimePoints.ToWire(v.ns) % TWO_64);
    case Tuple(ms) => ok := PutComposite(buffer, omp, ms, v.fields);
    case Udt(_, _, ms, _) => ok := PutComposite(buffer, omp, ms, v.fields);
    case Array(e) => ok := PutArray(buffer, omp, e, v.elems);
  }

  method PutComposite(buffer: Buffer, omp: OidMap, ts: seq<Type>, vs: seq<Value>) returns (ok: bool)
    requires buffer.Valid() && HaveTypes(vs, ts)
    modifies buffer
    ensures ok <==> MembersResolved(omp, ts, vs)
    ensures buffer.Valid() && Wrote(old(buffer.State()), buffer.State(), ok, EncodeComposite(omp, ts, vs))
    decreases ts, 2
  {
    PutInt32(buffer, |ts|);
    ghost var mid := buffer.State();
    ok := PutMembers(buffer, omp, ts, vs);
    WroteThen(old(buffer.State()), mid, buffer.State(), ok, Word32(|ts|), EncodeMembers(omp, ts, vs));
  }

  /** The fold over the members, first to last. */
  method PutMembers(buffer: Buffer, omp: OidMap, ts: seq<Type>, vs: seq<Value>) returns (ok: bool)
    requires buffer.Valid() && HaveTypes(vs, ts)
    modifies buffer
    ensures ok <==> MembersResolved(omp, ts, vs)
    ensures buffer.Valid() && Wrote(old(buffer.State()), buffer.State(), ok, EncodeMembers(omp, ts, vs))
    decreases ts, 1
  {
    if ts == [] {
      return true;
    }
    ghost var x, y := EncodeMember(omp, ts[0], vs[0]), EncodeMembers(omp, ts[1..], vs[1..]);
    ok := PutMember(buffer, omp, ts[0], vs[0]);
    if !ok {
      WrotePart(old(buffer.State()), buffer.State(), x, y);
      return;
    }
    ghost var mid := buffer.State();
    ok := PutMembers(buffer, omp, ts[1..], vs[1..]);
    WroteThen(old(buffer.State()), mid, buffer.State(), ok, x, y);
    assert forall i | 0 < i < |ts| :: ts[i] == ts[1..][i - 1] && vs[i] == vs[1..][i - 1];
  }

  method PutMember(buffer: Buffer, omp: OidMap, t: Type, v: Value) returns (ok: bool)
    requires buffer.Valid() && HasType(v, t)
    modifies buffer
    ensures ok <==> Known(omp, t) && Resolved(omp, t, v)
    ensures buffer.Valid() && Wrote(old(buffer.State()), buffer.State(), ok, EncodeMember(omp, t, v))
    decreases t, 1
  {
    if !Known(omp, t) {
      return false;
    }
    ghost var s0 := buffer.State();
    PutInt32(buffer, OidOf(omp, t));
    ghost var s1 := buffer.State();
    var size := ComputeSize(t, v);
    PutInt32(buffer, size);
    WroteThen(s0, s1, buffer.State(), true, Word32(OidOf(omp, t)), Word32(size));
    ghost var s2 := buffer.State();
    ok := Put(buffer, omp, t, v);
    WroteThen(s0, s2, buffer.State(), ok, Word32(OidOf(omp, t)) + Word32(size), Encode(omp, t, v));
  }

  method PutArray(buffer: Buffer, omp: OidMap, e: Type, vs: seq<Value>) returns (ok: bool)
    requires buffer.Valid() && AllHaveType(vs, e)
    modifies buffer
    ensures ok <==> Known(omp, e) && ElemsResolved(omp, e, vs)
    ensures buffer.Valid() && Wrote(old(buffer.State()), buffer.State(), ok, EncodeArray(omp, e, vs))
    decreases e, 4
  {
    ghost var header, elems := ArrayHeader(omp, e, |vs|), EncodeElems(omp, e, vs);
    ok := PutArrayHeader(buffer, omp, e, |vs|);
    if !ok {
      WrotePart(old(buffer.State()), buffer.State(), header, elems);
      return;
    }
    ghost var mid := buffer.State();
    ok := PutElems(buffer, omp, e, vs);
    WroteThen(old(buffer.State()), mid, buffer.State(), ok, header, elems);
  }

  method PutArrayHeader(buffer: Buffer, omp: OidMap, e: Type, count: nat) returns (ok: bool)
    requires buffer.Valid()
    modifies buffer
    ensures ok <==> Known(omp, e)
    ensures buffer.Valid() && Wrote(old(buffer.State()), buffer.State(), ok, ArrayHeader(omp, e, count))
  {
    ghost var s0 := buffer.State();
    ghost var oid := Word32(OidOf(omp, e));
    ghost var tail := oid + Word32(count) + Word32(0);
    assert Word32(1) + Word32(0) + tail == ArrayHeader(omp, e, count);
    PutTwo(buffer, 1, 0);
    ghost var s1 := buffer.State();
    if !Known(omp, e) {
      WroteNone(s1, tail);
      WroteThen(s0, s1, s1, false, Word32(1) + Word32(0), tail);
      return false;
    }
    PutInt32(buffer, OidOf(omp, e));
    ghost var s2 := buffer.State();
    PutTwo(buffer, count, 0);
    WroteThen(s1, s2, buffer.State(), true, oid, Word32(count) + Word32(0));
    assert oid + (Word32(count) + Word32(0)) == tail;
    WroteThen(s0, s1, buffer.State(), true, Word32(1) + Word32(0), tail);
    return true;
  }

  method PutTwo(buffer: Buffer, x: int, y: int)
    requires buffer.Valid()
    modifies buffer
    ensures buffer.Valid() && Wrote(old(buffer.State()), buffer.State(), true, Word32(x) + Word32(y))
  {
    PutInt32(buffer, x);
    ghost var mid := buffer.State();
    PutInt32(buffer, y);
    WroteThen(old(buffer.State()), mid, buffer.State(), true, Word32(x), Word32(y));
  }

  /** The loop over the elements. */
  method PutElems(buffer: Buffer, omp: OidMap, e: Type, vs: seq<Value>) returns (ok: bool)
    requires buffer.Valid() && AllHaveType(vs, e)
    modifies buffer
    ensures ok <==> ElemsResolved(omp, e, vs)
    ensures buffer.Valid() && Wrote(old(buffer.State()), buffer.State(), ok, EncodeElems(omp, e, vs))
    decreases e, 3
  {
    ghost var s0 := buffer.State();
    WroteNothing(s0);
    assert vs[..0] == [] && EncodeElems(omp, e, []) == [];
    hide HasType, AllHaveType, EncodeElem, EncodeElems, Resolved, Wrote;
    for i := 0 to |vs|
      invariant buffer.Valid() && AllHaveType(vs[..i], e)
      invariant Wrote(s0, buffer.State(), true, EncodeElems(omp, e, vs[..i]))
      invariant forall j | 0 <= j < i :: Resolved(omp, e, vs[j])
    {
      ghost var si := buffer.State();
      SlicesTyped(e, vs, i);
      ElemsSplit(omp, e, vs, i);
      ok := PutElem(buffer, omp, e, vs[i]);
      WroteThen(s0, si, buffer.State(), ok, EncodeElems(omp, e, vs[..i]), EncodeElem(omp, e, vs[i]));
      if !ok {
        WrotePart(s0, buffer.State(), EncodeElems(omp, e, vs[..i + 1]), EncodeElems(omp, e, vs[i + 1..]));
        return;
      }
    }
    assert vs[..|vs|] == vs;
    ok := true;
  }

  method PutElem(buffer: Buffer, omp: OidMap, t: Type, v: Value) returns (ok: bool)
    requires buffer.Valid() && HasType(v, t)
    modifies buffer
    ensures ok <==> Resolved(omp, t, v)
    ensures buffer.Valid() && Wrote(old(buffer.State()), buffer.State(), ok, EncodeElem(omp, t, v))
    decreases t, 1
  {
    ghost var s0 := buffer.State();
    var size := ComputeSize(t, v);
    PutInt32(buffer, size);
    ghost var s1 := buffer.State();
    ok := Put(buffer, omp, t, v);
    WroteThen(s0, s1, buffer.State(), ok, Word32(size), Encode(omp, t, v));
  }

  lemma ElemsSplit(omp: OidMap, t: Type, vs: seq<Value>, i: nat)
    requires AllHaveType(vs, t) && i < |vs|
    ensures EncodeElems(omp, t, vs[..i + 1]) == EncodeElems(omp, t, vs[..i]) + EncodeElem(omp, t, vs[i])
    ensures EncodeElems(omp, t, vs) == EncodeElems(omp, t, vs[..i + 1]) + EncodeElems(omp, t, vs[i + 1..])
  {
    hide HasType, EncodeElem;
    assert EncodeElems(omp, t, [vs[i]]) == EncodeElem(omp, t, vs[i]);
    EncodeElemsConcat(omp, t, vs[..i], [vs[i]]);
    assert vs[..i + 1] == vs[..i] + [vs[i]];
    EncodeElemsConcat(omp, t, vs[..i + 1], vs[i + 1..]);
    assert vs == vs[..i + 1] + vs[i + 1..];
  }

  // Query parameters

  datatype Arg = Arg(t: Type, v: Value)

  ghost predicate ValidArgs(args: seq<Arg>) {
    forall i | 0 <= i < |args| :: HasType(args[i].v, args[i].t)
  }

  /** No `omp.at` throws for any of the arguments. */
  ghost predicate ArgsResolved(omp: OidMap, args: seq<Arg>)
    requires ValidArgs(args)
  {
    forall i | 0 <= i < |args| :: Known(omp, args[i].t) && Resolved(omp, args[i].t, args[i].v)
  }

  /** The arrays handed to libpq. */
  datatype Params = Params(types: seq<u32>, values: seq<Pointer>, lengths: seq<int>, formats: seq<int>)

  function ArgSizes(args: seq<Arg>): nat
    requires ValidArgs(args)
  {
    if args == [] then 0 else ArgSizes(args[..|args| - 1]) + SizeOf(args[|args| - 1].t, args[|args| - 1].v)
  }

  /** Slice `[values[i], values[i] + size)` starts where the one before it ends (the first at
      the front of the buffer), is the encoding of argument `i`, and ends the buffer if it is
      the last; its pointer belongs to the buffer's present storage. */
  ghost predicate TileAt(omp: OidMap, args: seq<Arg>, s: Snapshot, values: seq<Pointer>, i: nat)
    requires ValidArgs(args) && |values| == |args| && i < |args|
  {
    var end := values[i].offset + SizeOf(args[i].t, args[i].v);
    && values[i].epoch == s.reallocations
    && values[i].offset == (if i == 0 then 0 else values[i - 1].offset + SizeOf(args[i - 1].t, args[i - 1].v))
    && end <= |s.contents|
    && s.contents[values[i].offset..end] == Encode(omp, args[i].t, args[i].v)
    && (i == |args| - 1 ==> end == |s.contents|)
  }

  /** The encodings of the arguments tile the buffer. */
  ghost predicate Tiled(omp: OidMap, args: seq<Arg>, s: Snapshot, values: seq<Pointer>)
    requires ValidArgs(args)
  {
    && |values| == |args|
    && (args == [] ==> s.contents == [])
    && forall i | 0 <= i < |args| :: TileAt(omp, args, s, values, i)
  }

  lemma SliceOfFront(a: seq<byte>, b: seq<byte>, i: nat, j: nat)
    requires i <= j <= |a|
    ensures (a + b)[i..j] == a[i..j]
  {
  }

  lemma TileStays(omp: OidMap, args: seq<Arg>, arg: Arg, a: Snapshot, b: Snapshot,
                  values: seq<Pointer>, p: Pointer, i: nat)
    requires ValidArgs(args) && ValidArgs(args + [arg]) && |values| == |args| && i < |args|
    requires TileAt(omp, args, a, values, i)
    requires a.contents <= b.contents && b.reallocations == a.reallocations
    ensures TileAt(omp, args + [arg], b, values + [p], i)
  {
    hide HasType, Encode, SizeOf;
    var from, end := values[i].offset, values[i].offset + SizeOf(args[i].t, args[i].v);
    assert b.contents == a.contents + b.contents[|a.contents|..];
    SliceOfFront(a.contents, b.contents[|a.contents|..], from, end);
  }

  lemma TileAdded(omp: OidMap, args: seq<Arg>, arg: Arg, a: Snapshot, b: Snapshot, values: seq<Pointer>)
    requires ValidArgs(args) && ValidArgs(args + [arg]) && HasType(arg.v, arg.t)
    requires Tiled(omp, args, a, values)
    requires b.contents == a.contents + Encode(omp, arg.t, arg.v) && b.reallocations == a.reallocations
    ensures TileAt(omp, args + [arg], b, values + [Pointer(a.reallocations, |a.contents|)], |args|)
  {
    hide HasType, Encode, SizeOf;
    SizeIsExact(omp, arg.t, arg.v);
    if args != [] {
      assert TileAt(omp, args, a, values, |args| - 1);
    }
    assert b.contents[|a.contents|..] == Encode(omp, arg.t, arg.v);
  }

  lemma TiledSnoc(omp: OidMap, args: seq<Arg>, arg: Arg, a: Snapshot, b: Snapshot, values: seq<Pointer>)
    requires ValidArgs(args) && HasType(arg.v, arg.t)
    requires Tiled(omp, args, a, values)
    requires b.contents == a.contents + Encode(omp, arg.t, arg.v) && b.reallocations == a.reallocations
    ensures ValidArgs(args + [arg])
    ensures Tiled(omp, args + [arg], b, values + [Pointer(a.reallocations, |a.contents|)])
  {
    hide HasType, Encode, SizeOf, TileAt;
    var all, p := args + [arg], Pointer(a.reallocations, |a.contents|);
    forall i | 0 <= i < |all| ensures TileAt(omp, all, b, values + [p], i) {
      if i < |args| {
        TileStays(omp, args, arg, a, b, values, p, i);
      } else {
        TileAdded(omp, args, arg, a, b, values);
      }
    }
  }

  /** `{ static_cast<int>(size_of(args))... }` and their sum. */
  method ComputeSizes(args: seq<Arg>) returns (total: nat, lengths: seq<int>)
    requires ValidArgs(args)
    ensures total == ArgSizes(args) && |lengths| == |args|
    ensures forall i | 0 <= i < |args| :: lengths[i] == ToInt32(SizeOf(args[i].t, args[i].v))
  {
    hide SizeOf;
    total, lengths := 0, [];
    for i := 0 to |args|
      invariant |lengths| == i && total == ArgSizes(args[..i])
      invariant forall j | 0 <= j < i :: lengths[j] == ToInt32(SizeOf(args[j].t, args[j].v))
    {
      var size := ComputeSize(args[i].t, args[i].v);
      assert args[..i + 1][..i] == args[..i];
      total, lengths := total + size, lengths + [ToInt32(size)];
    }
    assert args[..|args|] == args;
  }

  /** `{ oid_of<decltype(args)>(omp)... }`. */
  method ComputeTypes(omp: OidMap, args: seq<Arg>) returns (ok: bool, types: seq<u32>)
    ensures ok <==> forall i | 0 <= i < |args| :: Known(omp, args[i].t)
    ensures ok ==> |types| == |args| && forall i | 0 <= i < |args| :: types[i] == OidOf(omp, args[i].t)
  {
    types := [];
    for i := 0 to |args|
      invariant |types| == i
      invariant forall j | 0 <= j < i :: Known(omp, args[j].t) && types[j] == OidOf(omp, args[j].t)
    {
      if !Known(omp, args[i].t) {
        return false, types;
      }
      types := types + [OidOf(omp, args[i].t)];
    }
    ok := true;
  }

  /** `{ serialize(omp, buffer, args)... }` into a buffer with room for all of them: storage
      never moves, so every pointer taken is still good at the end. */
  method PutArgs(buffer: Buffer, omp: OidMap, args: seq<Arg>) returns (ok: bool, values: seq<Pointer>)
    requires buffer.Valid() && ValidArgs(args)
    requires buffer.contents == [] && buffer.capacity >= ArgSizes(args)
    modifies buffer
    ensures buffer.Valid() && buffer.reallocations == old(buffer.reallocations)
    ensures ok <==> forall i | 0 <= i < |args| :: Resolved(omp, args[i].t, args[i].v)
    ensures ok ==> Tiled(omp, args, buffer.State(), values)
  {
    hide HasType, Encode, SizeOf, TileAt, Resolved;
    values := [];
    for i := 0 to |args|
      invariant buffer.Valid() && buffer.capacity == old(buffer.capacity)
      invariant buffer.reallocations == old(buffer.reallocations) && |buffer.contents| == ArgSizes(args[..i])
      invariant Tiled(omp, args[..i], buffer.State(), values)
      invariant forall j | 0 <= j < i :: Resolved(omp, args[j].t, args[j].v)
    {
      ghost var before := buffer.State();
      ArgSizesMonotone(args, i + 1);
      SizeIsExact(omp, args[i].t, args[i].v);
      assert args[..i + 1] == args[..i] + [args[i]] && args[..i + 1][..i] == args[..i];
      var at := buffer.End();
      ok := Put(buffer, omp, args[i].t, args[i].v);
      if !ok {
        return;
      }
      TiledSnoc(omp, args[..i], args[i], before, buffer.State(), values);
      values := values + [at];
    }
    assert args[..|args|] == args;
    ok := true;
  }

  /** `serialize(omp, buffer, params)`. It throws exactly when an OID is missing. Otherwise
      the buffer, cleared and reserved once, is tiled by the arguments' encodings, and no
      pointer taken on the way has been invalidated. */
  method SerializeParams(buffer: Buffer, omp: OidMap, args: seq<Arg>) returns (ok: bool, p: Params)
    requires buffer.Valid() && ValidArgs(args)
    modifies buffer
    ensures buffer.Valid()
    ensures ok <==> ArgsResolved(omp, args)
    ensures ok ==> Tiled(omp, args, buffer.State(), p.values)
    ensures ok ==> |p.types| == |p.lengths| == |p.formats| == |args|
    ensures ok ==> forall i | 0 <= i < |args| ::
                && p.types[i] == OidOf(omp, args[i].t)
                && p.lengths[i] == ToInt32(SizeOf(args[i].t, args[i].v))
                && p.formats[i] == 1
  {
    var total, lengths := ComputeSizes(args);
    p := Params([], [], [], []);
    buffer.Clear();
    buffer.Reserve(total);
    var types, values;
    ok, types := ComputeTypes(omp, args);
    if ok {
      ok, values := PutArgs(buffer, omp, args);
      if ok {
        p := Params(types, values, lengths, seq(|args|, i => 1));
      }
    }
  }

  lemma {:induction false} ArgSizesMonotone(args: seq<Arg>, i: nat)
    requires ValidArgs(args) && i <= |args|
    ensures ArgSizes(args[..i]) <= ArgSizes(args)
  {
    if i == |args| {
      assert args[..i] == args;
    } else {
      var front := args[..|args| - 1];
      ArgSizesMonotone(front, i);
      assert front[..i] == args[..i];
    }
  }

  /** A tiled argument whose size fits the length array can be read back through its pointer. */
  lemma TiledReadable(buffer: Buffer, omp: OidMap, args: seq<Arg>, values: seq<Pointer>, i: nat)
    requires ValidArgs(args) && Tiled(omp, args, buffer.State(), values)
    requires i < |args| && SizeOf(args[i].t, args[i].v) < TWO_31
    ensures var n := ToInt32(SizeOf(args[i].t, args[i].v));
            buffer.Readable(values[i], n) && buffer.Read(values[i], n) == Encode(omp, args[i].t, args[i].v)
  {
    assert TileAt(omp, args, buffer.State(), values, i);
  }
}
