/** Encoder and decoder together: what decoding as `t` makes of an encoded value of type `s`. */
module Codec {
  import opened Words
  import opened Types
  import opened Serialization
  import opened Deserialization
  import TimePoints

  /** Every embedded count fits the `int32_t` it is narrowed to, and so does every embedded
      length together with the header words before it, as the decoder adds them. The size of
      the whole value is not embedded and does not matter. */
  ghost predicate Fits(t: Type, v: Value)
    requires HasType(v, t)
    decreases t, 0
  {
    match t
    case Tuple(ms) => MembersFit(ms, v.fields)
    case Udt(_, _, ms, _) => MembersFit(ms, v.fields)
    case Array(e) => |v.elems| < TWO_31 && ElemsFit(e, v.elems)
    case _ => true
  }

  ghost predicate MembersFit(ts: seq<Type>, vs: seq<Value>)
    requires HaveTypes(vs, ts)
    decreases ts, 1
  {
    forall i | 0 <= i < |ts| :: 8 + SizeOf(ts[i], vs[i]) < TWO_31 && Fits(ts[i], vs[i])
  }

  ghost predicate ElemsFit(e: Type, vs: seq<Value>)
    requires AllHaveType(vs, e)
    decreases e, 1
  {
    forall i | 0 <= i < |vs| :: 4 + SizeOf(e, vs[i]) < TWO_31 && Fits(e, vs[i])
  }

  // The OID checks

  predicate BuiltinOid(oid: u32) {
    oid in {26, 1028, 16, 1000, 17, 1001, 18, 1002, 20, 1016, 21, 1005, 23, 1007, 700, 1021, 701, 1022,
            1114, 1115, 25, 1009, 2249, 2287}
  }

  /** The server's OIDs for user-defined types are not those of its own types. */
  ghost predicate UserOids(omp: OidMap) {
    forall id | id in omp :: !BuiltinOid(omp[id].single) && !BuiltinOid(omp[id].arr)
  }

  /** The decoder, expecting `t`, rejects the OID the encoder wrote for `s`. */
  predicate Clash(omp: OidMap, s: Type, t: Type) {
    ExpectedOid(t) != 0 && ExpectedOid(t) != OidOf(omp, s)
  }

  function ClashFault(omp: OidMap, s: Type, t: Type): Fault {
    OidMismatch(OidOf(omp, s), ExpectedOid(t))
  }

  predicate UdtFree(t: Type) {
    match t
    case Tuple(ms) => forall m | m in ms :: UdtFree(m)
    case Udt(_, _, _, _) => false
    case Array(e) => UdtFree(e)
    case _ => true
  }

  /** Where `t` expects a user-defined type, and so accepts any OID, `s` has that type. */
  predicate Related(s: Type, t: Type) {
    if t.Udt? || (t.Array? && t.elem.Udt?) then s == t
    else if t.Tuple? && s.Tuple? && |s.members| == |t.members| then
      forall i | 0 <= i < |t.members| :: Related(s.members[i], t.members[i])
    else if t.Array? && s.Array? then Related(s.elem, t.elem)
    else true
  }

  lemma {:induction false} UdtFreeRelated(s: Type, t: Type)
    requires UdtFree(t)
    ensures Related(s, t)
    decreases t
  {
    if t.Tuple? && s.Tuple? && |s.members| == |t.members| {
      forall i | 0 <= i < |t.members| ensures Related(s.members[i], t.members[i]) {
        UdtFreeRelated(s.members[i], t.members[i]);
      }
    } else if t.Array? && s.Array? {
      UdtFreeRelated(s.elem, t.elem);
    }
  }

  lemma {:induction false} RelatedToItself(t: Type)
    ensures Related(t, t)
    decreases t
  {
    match t
    case Tuple(ms) =>
      forall i | 0 <= i < |ms| ensures Related(ms[i], ms[i]) { RelatedToItself(ms[i]); }
    case Array(e) => RelatedToItself(e);
    case _ =>
  }

  predicate SameHead(s: Type, t: Type) {
    match t
    case Word(k) => s == t
    case Text(_) => s.Text?
    case TimePoint => s.TimePoint?
    case Tuple(_) => s.Tuple?
    case Udt(_, _, _, _) => s == t
    case Array(_) => s.Array?
  }

  /** OIDs separate the built-in types: a passed check means the outermost type is right. */
  lemma OidGivesHead(omp: OidMap, s: Type, t: Type)
    requires s.WellFormed() && t.WellFormed() && Related(s, t)
    requires UserOids(omp) || s == t
    requires !Clash(omp, s, t)
    ensures SameHead(s, t)
  {
    if s != t {
      OidOfIsBuiltin(omp, s);
    }
  }

  lemma OidOfIsBuiltin(omp: OidMap, s: Type)
    requires UserOids(omp) && s.WellFormed()
    ensures BuiltinOid(OidOf(omp, s)) <==> UdtFreeHead(s)
  {
  }

  predicate UdtFreeHead(s: Type) {
    !s.Udt? && !(s.Array? && s.elem.Udt?)
  }

  // The reference decoder: it walks the types, the value and what was there before, and knows
  // nothing of bytes

  function Verdict(omp: OidMap, s: Type, t: Type, v: Value, start: Value): Outcome<Value>
    requires HasType(v, s) && HasType(start, t) && SameHead(s, t)
    decreases s, 0
  {
    match t
    case Text(view) => Done(Chars(if view then v.chars else start.chars + v.chars))
    case TimePoint => Done(Time(TimePoints.Micros(v.ns)))
    case Tuple(ts) => VerdictComposite(omp, s.members, ts, v.fields, start.fields)
    case Udt(_, _, ts, _) => VerdictComposite(omp, s.members, ts, v.fields, start.fields)
    case Array(e) =>
      if Clash(omp, s.elem, e) then Thrown(ClashFault(omp, s.elem, e)) else
        var xs :- VerdictElems(omp, s.elem, e, v.elems, Resize(e, start.elems, |v.elems|));
        Done(Elems(xs))
    case _ => Done(v)
  }

  function VerdictComposite(
      omp: OidMap, ss: seq<Type>, ts: seq<Type>, vs: seq<Value>, starts: seq<Value>): Outcome<Value>
    requires HaveTypes(vs, ss) && HaveTypes(starts, ts)
    decreases ss, 2
  {
    if |ss| != |ts| then Thrown(CountMismatch(|ss|, |ts|)) else
      var xs :- VerdictMembers(omp, ss, ts, vs, starts);
      Done(Fields(xs))
  }

  function VerdictMembers(
      omp: OidMap, ss: seq<Type>, ts: seq<Type>, vs: seq<Value>, starts: seq<Value>): Outcome<seq<Value>>
    requires HaveTypes(vs, ss) && HaveTypes(starts, ts) && |ss| == |ts|
    decreases ss, 1
  {
    if ts == [] then Done([]) else
    if Clash(omp, ss[0], ts[0]) then Thrown(ClashFault(omp, ss[0], ts[0])) else
    if !SameHead(ss[0], ts[0]) then Undefined else
      var x :- Verdict(omp, ss[0], ts[0], vs[0], starts[0]);
      var xs :- VerdictMembers(omp, ss[1..], ts[1..], vs[1..], starts[1..]);
      Done([x] + xs)
  }

  function VerdictElems(omp: OidMap, s: Type, t: Type, vs: seq<Value>, starts: seq<Value>): Outcome<seq<Value>>
    requires AllHaveType(vs, s) && AllHaveType(starts, t) && |starts| == |vs|
    decreases s, 1 + |vs|
  {
    if vs == [] then Done([]) else
    if !SameHead(s, t) then Undefined else
      var x :- Verdict(omp, s, t, vs[0], starts[0]);
      var xs :- VerdictElems(omp, s, t, vs[1..], starts[1..]);
      Done([x] + xs)
  }

  // Reading back what was written

  lemma ReadMemberHead(b: seq<byte>, oid: u32, size: nat, tail: seq<byte>, expected: u32)
    requires b == Word32(oid) + Word32(size) + tail
    ensures VerifyOid(b, 0, expected) ==
            if expected != 0 && expected != oid then Thrown(OidMismatch(oid, expected)) else Done(())
    ensures ReadInt32(b, 4) == Done(ToInt32(size))
  {
    ReadWord32(oid);
    ReadWord32(size);
    hide Word32, LoadU32, LoadInt32, ToInt32;
    assert b[0..][..4] == Word32(oid);
    assert b[4..][..4] == Word32(size);
  }

  lemma ReadMember(b: seq<byte>, oid: u32, size: nat, body: seq<byte>, tail: seq<byte>, expected: u32)
    requires b == Word32(oid) + Word32(size) + body + tail
    requires |body| == size && 8 + size < TWO_31
    ensures VerifyOid(b, 0, expected) ==
            if expected != 0 && expected != oid then Thrown(OidMismatch(oid, expected)) else Done(())
    ensures ReadInt32(b, 4) == Done(size)
    ensures Sub(b, 8, size) == Done(body) && Plus(8, size) == Done(8 + size)
    ensures From(b, 8 + size) == Done(tail)
  {
    assert ToInt32(size) == size;
    hide Word32, ToInt32, VerifyOid, ReadInt32;
    assert b == Word32(oid) + Word32(size) + (body + tail);
    ReadMemberHead(b, oid, size, body + tail, expected);
    assert b[8..8 + size] == body;
    assert b[8 + size..] == tail;
  }

  lemma ReadElem(b: seq<byte>, size: nat, body: seq<byte>, tail: seq<byte>)
    requires b == Word32(size) + body + tail
    requires |body| == size && 4 + size < TWO_31
    ensures ReadInt32(b, 0) == Done(size)
    ensures Sub(b, 4, size) == Done(body) && Plus(4, size) == Done(4 + size)
    ensures From(b, 4 + size) == Done(tail)
  {
    ReadWord32(size);
    hide Word32, LoadInt32;
    assert b[0..][..4] == Word32(size);
    assert b[4..4 + size] == body;
    assert b[4 + size..] == tail;
  }

  lemma ReadCount(b: seq<byte>, count: nat, tail: seq<byte>, expected: nat)
    requires b == Word32(count) + tail && count < TWO_31 && expected < TWO_31
    ensures VerifyCount(b, expected) == if expected != count then Thrown(CountMismatch(count, expected)) else Done(())
    ensures From(b, 4) == Done(tail)
  {
    ReadWord32(count);
    ReadWord32(expected);
    Wrap32(expected);
    assert b[0..][..4] == Word32(count);
    assert b[4..] == tail;
    hide Word32, LoadInt32;
  }

  lemma ReadArrayHeader(omp: OidMap, s: Type, e: Type, b: seq<byte>, count: nat, tail: seq<byte>)
    requires b == ArrayHeader(omp, s, count) + tail
    ensures DecodeArrayHeader(e, b) ==
            if Clash(omp, s, e) then Thrown(ClashFault(omp, s, e)) else Done(ToInt32(count))
    ensures From(b, 20) == Done(tail)
  {
    ReadWord32(1);
    ReadWord32(OidOf(omp, s));
    ReadWord32(count);
    hide Word32, LoadInt32, LoadU32;
    assert b[0..][..4] == Word32(1);
    assert b[8..][0..][..4] == Word32(OidOf(omp, s));
    assert b[12..][..4] == Word32(count);
    assert b[20..] == tail;
  }

  /** Decoding an array whose header announces `n` elements of type `s`. */
  lemma ReadArray(omp: OidMap, s: Type, e: Type, n: nat, rest: seq<byte>, before: seq<Value>)
    requires AllHaveType(before, e)
    ensures DecodeArray(e, ArrayHeader(omp, s, n) + rest, before) ==
            if Clash(omp, s, e) then Thrown(ClashFault(omp, s, e))
            else if ToInt32(n) < 0 then Thrown(LengthError)
            else
              var o := DecodeElems(e, rest, Resize(e, before, ToInt32(n)));
              if o.Done? then Done(Elems(o.value.0)) else o.PropagateFailure()
  {
    hide DecodeElems, HasType, AllHaveType, Default, Resize, ToInt32, ArrayHeader, Clash;
    ReadArrayHeader(omp, s, e, ArrayHeader(omp, s, n) + rest, n, rest);
    hide DecodeArrayHeader, From;
  }

  lemma FitsInt32(n: nat)
    requires n < TWO_31
    ensures ToInt32(n) == n
  {
  }

  lemma ComparableHeads(omp: OidMap, s: Type, t: Type)
    requires Comparable(omp, s, t) && !Clash(omp, s, t)
    ensures SameHead(s, t)
  {
    OidGivesHead(omp, s, t);
  }

  /** Decoding as `t` the encoding of a value of type `s`, over any value of type `t`, does
      exactly what the reference decoder says, and never reads outside the span. Whatever stands
      behind the encoding is ignored, except by strings, which take all there is. */
  lemma {:induction false} IgnoresBytesBehind(
      omp: OidMap, s: Type, t: Type, v: Value, start: Value, extra: seq<byte>)
    requires HasType(v, s) && HasType(start, t) && s.WellFormed() && t.WellFormed() && Fits(s, v)
    requires Related(s, t) && (UserOids(omp) || s == t)
    requires SameHead(s, t) && (t.Text? ==> extra == [])
    ensures Decode(t, Encode(omp, s, v) + extra, start) == Verdict(omp, s, t, v, start)
    ensures !Verdict(omp, s, t, v, start).Undefined?
    decreases s, 0
  {
    match t
    case Word(k) => WordFollowsVerdict(omp, k, v, start, extra);
    case Text(_) => assert Encode(omp, s, v) + extra == Encode(omp, s, v);
    case TimePoint => TimeFollowsVerdict(omp, v, start, extra);
    case Tuple(ts) => CompositeFollowsVerdict(omp, s.members, ts, v.fields, start.fields, extra);
    case Udt(_, _, ts, _) =>
      forall i | 0 <= i < |ts| ensures Related(ts[i], ts[i]) { RelatedToItself(ts[i]); }
      CompositeFollowsVerdict(omp, s.members, ts, v.fields, start.fields, extra);
    case Array(e) =>
      if s == t {
        RelatedToItself(e);
      }
      ArrayFollowsVerdict(omp, s.elem, e, v.elems, start.elems, extra);
  }

  /** The same where the span ends with the encoding. */
  lemma {:induction false} DecodeFollowsVerdict(omp: OidMap, s: Type, t: Type, v: Value, start: Value)
    requires HasType(v, s) && HasType(start, t) && s.WellFormed() && t.WellFormed() && Fits(s, v)
    requires Related(s, t) && (UserOids(omp) || s == t)
    requires SameHead(s, t)
    ensures Decode(t, Encode(omp, s, v), start) == Verdict(omp, s, t, v, start)
    ensures !Verdict(omp, s, t, v, start).Undefined?
    decreases s, 1
  {
    IgnoresBytesBehind(omp, s, t, v, start, []);
    assert Encode(omp, s, v) + [] == Encode(omp, s, v);
    hide *;
  }

  lemma WordFollowsVerdict(omp: OidMap, k: Kind, v: Value, start: Value, extra: seq<byte>)
    requires HasType(v, Word(k)) && HasType(start, Word(k))
    ensures Decode(Word(k), Encode(omp, Word(k), v) + extra, start) == Done(v)
  {
    hide Load, Store, Pow256, Kind.Width;
    var w := k.Width();
    LoadStoreFitting(w, v.bits);
    hide HasType;
    assert (Store(w, v.bits) + extra)[..w] == Store(w, v.bits);
  }

  lemma TimeFollowsVerdict(omp: OidMap, v: Value, start: Value, extra: seq<byte>)
    requires HasType(v, TimePoint) && HasType(start, TimePoint)
    ensures Decode(TimePoint, Encode(omp, TimePoint, v) + extra, start) == Done(Time(TimePoints.Micros(v.ns)))
  {
    TimePoints.MicrosTruncates(v.ns);
    ReadWord64(TimePoints.ToWire(v.ns));
    var b := Encode(omp, TimePoint, v);
    assert (b + extra)[..8] == b;
  }

  ghost predicate Comparable(omp: OidMap, s: Type, t: Type) {
    s.WellFormed() && t.WellFormed() && Related(s, t) && (UserOids(omp) || s == t)
  }

  lemma {:induction false} CompositeFollowsVerdict(
      omp: OidMap, ss: seq<Type>, ts: seq<Type>, vs: seq<Value>, starts: seq<Value>, extra: seq<byte>)
    requires HaveTypes(vs, ss) && HaveTypes(starts, ts) && MembersFit(ss, vs)
    requires |ss| < TWO_31 && |ts| < TWO_31
    requires |ss| == |ts| ==> forall i | 0 <= i < |ts| :: Comparable(omp, ss[i], ts[i])
    ensures DecodeComposite(ts, EncodeComposite(omp, ss, vs) + extra, starts)
            == VerdictComposite(omp, ss, ts, vs, starts)
    ensures !VerdictComposite(omp, ss, ts, vs, starts).Undefined?
    decreases ss, 4
  {
    var b := EncodeComposite(omp, ss, vs) + extra;
    assert b == Word32(|ss|) + (EncodeMembers(omp, ss, vs) + extra);
    ReadCount(b, |ss|, EncodeMembers(omp, ss, vs) + extra, |ts|);
    if |ss| == |ts| {
      MembersFollowVerdict(omp, ss, ts, vs, starts, extra);
    }
  }

  /** The loop over the members ends on the span behind the last. */
  lemma {:induction false} MembersFollowVerdict(
      omp: OidMap, ss: seq<Type>, ts: seq<Type>, vs: seq<Value>, starts: seq<Value>, extra: seq<byte>)
    requires HaveTypes(vs, ss) && HaveTypes(starts, ts) && MembersFit(ss, vs)
    requires |ss| == |ts| && forall i | 0 <= i < |ts| :: Comparable(omp, ss[i], ts[i])
    ensures DecodeMembers(ts, EncodeMembers(omp, ss, vs) + extra, starts)
            == Before(VerdictMembers(omp, ss, ts, vs, starts), extra)
    ensures !VerdictMembers(omp, ss, ts, vs, starts).Undefined?
    decreases ss, 3
  {
    hide HasType, Fits, SizeOf, Decode, Encode, EncodeMember, DecodeMember, Verdict, Comparable, Clash, SameHead;
    if ts != [] {
      var tail := EncodeMembers(omp, ss[1..], vs[1..]) + extra;
      MemberFollowsVerdict(omp, ss[0], ts[0], vs[0], tail, starts[0]);
      MembersFollowVerdict(omp, ss[1..], ts[1..], vs[1..], starts[1..], extra);
      assert EncodeMembers(omp, ss, vs) + extra == EncodeMember(omp, ss[0], vs[0]) + tail;
    } else {
      assert [] + extra == extra;
    }
  }

  lemma {:induction false} MemberFollowsVerdict(
      omp: OidMap, s: Type, t: Type, v: Value, tail: seq<byte>, start: Value)
    requires HasType(v, s) && HasType(start, t) && 8 + SizeOf(s, v) < TWO_31 && Fits(s, v)
    requires Comparable(omp, s, t)
    ensures DecodeMember(t, EncodeMember(omp, s, v) + tail, start) == MemberVerdict(omp, s, t, v, tail, start)
    ensures !MemberVerdict(omp, s, t, v, tail, start).Undefined?
    ensures !Clash(omp, s, t) ==> SameHead(s, t)
    decreases s, 2
  {
    hide HasType, Decode, Encode, EncodeMember, DecodeMember, Verdict, Word32, SizeOf, Fits, SameHead,
      Related, OidOf, ExpectedOid;
    MemberReads(omp, s, t, v, tail, start);
    if !Clash(omp, s, t) {
      OidGivesHead(omp, s, t);
      DecodeFollowsVerdict(omp, s, t, v, start);
    }
  }

  lemma MemberReads(omp: OidMap, s: Type, t: Type, v: Value, tail: seq<byte>, start: Value)
    requires HasType(v, s) && HasType(start, t) && 8 + SizeOf(s, v) < TWO_31
    ensures DecodeMember(t, EncodeMember(omp, s, v) + tail, start) ==
            if Clash(omp, s, t) then Thrown(ClashFault(omp, s, t)) else
              var x := Decode(t, Encode(omp, s, v), start);
              if x.Done? then Done((x.value, tail)) else x.PropagateFailure()
  {
    hide HasType, Decode, Encode, Word32, SizeOf, OidOf, ExpectedOid, VerifyOid, ReadInt32, Sub, From, Plus;
    SizeIsExact(omp, s, v);
    ReadMember(EncodeMember(omp, s, v) + tail, OidOf(omp, s), SizeOf(s, v), Encode(omp, s, v), tail, ExpectedOid(t));
  }

  ghost function MemberVerdict(
      omp: OidMap, s: Type, t: Type, v: Value, tail: seq<byte>, start: Value): Outcome<(Value, seq<byte>)>
    requires HasType(v, s) && HasType(start, t)
  {
    if Clash(omp, s, t) then Thrown(ClashFault(omp, s, t)) else
    if !SameHead(s, t) then Undefined else
      var x :- Verdict(omp, s, t, v, start);
      Done((x, tail))
  }

  ghost function Before(o: Outcome<seq<Value>>, rest: seq<byte>): Outcome<(seq<Value>, seq<byte>)> {
    match o
    case Done(xs) => Done((xs, rest))
    case Thrown(f) => Thrown(f)
    case Undefined => Undefined
  }

  lemma {:induction false} ArrayFollowsVerdict(
      omp: OidMap, s: Type, e: Type, vs: seq<Value>, before: seq<Value>, extra: seq<byte>)
    requires AllHaveType(vs, s) && AllHaveType(before, e) && ElemsFit(s, vs) && |vs| < TWO_31
    requires Comparable(omp, s, e)
    ensures var v := if Clash(omp, s, e) then Thrown(ClashFault(omp, s, e))
                     else VerdictElems(omp, s, e, vs, Resize(e, before, |vs|));
            && DecodeArray(e, EncodeArray(omp, s, vs) + extra, before)
               == (if v.Done? then Done(Elems(v.value)) else v.PropagateFailure())
            && !v.Undefined?
    decreases s, 4 + |vs|
  {
    hide HasType, AllHaveType, ElemsFit, Comparable, EncodeArray, DecodeArray, EncodeElems, DecodeElems, VerdictElems,
      ToInt32, Clash, ClashFault, SameHead, ArrayHeader, Default, Resize;
    EncodeArrayIs(omp, s, vs);
    var rest := EncodeElems(omp, s, vs) + extra;
    assert EncodeArray(omp, s, vs) + extra == ArrayHeader(omp, s, |vs|) + rest;
    ReadArray(omp, s, e, |vs|, rest, before);
    FitsInt32(|vs|);
    if !Clash(omp, s, e) {
      ComparableHeads(omp, s, e);
      ElemsFollowVerdict(omp, s, e, vs, Resize(e, before, |vs|), extra);
    }
  }

  /** The loop over the elements ends on the span behind the last. */
  lemma {:induction false} ElemsFollowVerdict(
      omp: OidMap, s: Type, e: Type, vs: seq<Value>, starts: seq<Value>, extra: seq<byte>)
    requires AllHaveType(vs, s) && ElemsFit(s, vs)
    requires Comparable(omp, s, e) && SameHead(s, e)
    requires AllHaveType(starts, e) && |starts| == |vs|
    ensures DecodeElems(e, EncodeElems(omp, s, vs) + extra, starts)
            == Before(VerdictElems(omp, s, e, vs, starts), extra)
    ensures !VerdictElems(omp, s, e, vs, starts).Undefined?
    decreases s, 3 + |vs|
  {
    hide HasType, Fits, SizeOf, Decode, Encode, EncodeElem, EncodeElems, DecodeFramed, Verdict, Comparable, SameHead;
    if vs != [] {
      ElemsStep(omp, s, vs);
      var tail := EncodeElems(omp, s, vs[1..]) + extra;
      ElemFollowsVerdict(omp, s, e, vs[0], tail, starts[0]);
      ElemsFollowVerdict(omp, s, e, vs[1..], starts[1..], extra);
      assert EncodeElems(omp, s, vs) + extra == EncodeElem(omp, s, vs[0]) + tail;
    } else {
      NoElems(omp, s, vs);
      assert [] + extra == extra;
    }
  }

  lemma {:induction false} ElemFollowsVerdict(
      omp: OidMap, s: Type, e: Type, v: Value, tail: seq<byte>, start: Value)
    requires HasType(v, s) && HasType(start, e) && 4 + SizeOf(s, v) < TWO_31 && Fits(s, v)
    requires Comparable(omp, s, e) && SameHead(s, e)
    ensures DecodeFramed(e, 4, EncodeElem(omp, s, v) + tail, start) ==
            (var x := Verdict(omp, s, e, v, start); if x.Done? then Done((x.value, tail)) else x.PropagateFailure())
    ensures !Verdict(omp, s, e, v, start).Undefined?
    decreases s, 2
  {
    SizeIsExact(omp, s, v);
    DecodeFollowsVerdict(omp, s, e, v, start);
    hide HasType, Decode, Encode, Verdict, Comparable, Word32, SizeOf;
    ReadElem(EncodeElem(omp, s, v) + tail, SizeOf(s, v), Encode(omp, s, v), tail);
  }
}
