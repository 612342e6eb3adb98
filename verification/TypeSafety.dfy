/** Reading a field as a type other than the one that was written. */
module TypeSafety {
  import opened Words
  import opened Types
  import opened Serialization
  import opened Deserialization
  import opened Codec

  /** `s` and `t` agree on OIDs and member counts wherever decoding `v` looks: not inside the
      elements of an empty array. */
  ghost predicate Agree(omp: OidMap, s: Type, t: Type, v: Value)
    requires HasType(v, s)
    decreases s, 0
  {
    && !Clash(omp, s, t)
    && SameHead(s, t)
    && match s
       case Tuple(ms) => |ms| == |t.members| && MembersAgree(omp, ms, t.members, v.fields)
       case Udt(_, _, ms, _) => |ms| == |t.members| && MembersAgree(omp, ms, t.members, v.fields)
       case Array(e) => !Clash(omp, e, t.elem) && ElemsAgree(omp, e, t.elem, v.elems)
       case _ => true
  }

  ghost predicate MembersAgree(omp: OidMap, ss: seq<Type>, ts: seq<Type>, vs: seq<Value>)
    requires HaveTypes(vs, ss) && |ss| == |ts|
    decreases ss, 1
  {
    forall i | 0 <= i < |ss| :: Agree(omp, ss[i], ts[i], vs[i])
  }

  ghost predicate ElemsAgree(omp: OidMap, s: Type, t: Type, vs: seq<Value>)
    requires AllHaveType(vs, s)
    decreases s, 1 + |vs|
  {
    vs != [] ==> Agree(omp, s, t, vs[0]) && ElemsAgree(omp, s, t, vs[1..])
  }

  lemma {:induction false} VerdictIffAgree(omp: OidMap, s: Type, t: Type, v: Value, start: Value)
    requires HasType(v, s) && HasType(start, t) && SameHead(s, t) && !Clash(omp, s, t)
    ensures Verdict(omp, s, t, v, start).Done? <==> Agree(omp, s, t, v)
    decreases s, 0
  {
    match t
    case Tuple(ts) => if |ts| == |s.members| { MembersIffAgree(omp, s.members, ts, v.fields, start.fields); }
    case Udt(_, _, ts, _) => if |ts| == |s.members| { MembersIffAgree(omp, s.members, ts, v.fields, start.fields); }
    case Array(e) =>
      if !Clash(omp, s.elem, e) { ElemsIffAgree(omp, s.elem, e, v.elems, Resize(e, start.elems, |v.elems|)); }
    case _ =>
  }

  lemma {:induction false} MembersIffAgree(
      omp: OidMap, ss: seq<Type>, ts: seq<Type>, vs: seq<Value>, starts: seq<Value>)
    requires HaveTypes(vs, ss) && HaveTypes(starts, ts) && |ss| == |ts|
    ensures VerdictMembers(omp, ss, ts, vs, starts).Done? <==> MembersAgree(omp, ss, ts, vs)
    decreases ss, 1
  {
    hide HasType, Agree, Verdict, Clash, SameHead;
    if ts != [] {
      if Clash(omp, ss[0], ts[0]) || !SameHead(ss[0], ts[0]) {
        AgreeHead(omp, ss[0], ts[0], vs[0]);
      } else {
        VerdictIffAgree(omp, ss[0], ts[0], vs[0], starts[0]);
      }
      MembersIffAgree(omp, ss[1..], ts[1..], vs[1..], starts[1..]);
      MembersAgreeSplit(omp, ss, ts, vs);
      hide MembersAgree;
    }
  }

  lemma AgreeHead(omp: OidMap, s: Type, t: Type, v: Value)
    requires HasType(v, s)
    ensures Agree(omp, s, t, v) ==> !Clash(omp, s, t) && SameHead(s, t)
  {
  }

  lemma MembersAgreeSplit(omp: OidMap, ss: seq<Type>, ts: seq<Type>, vs: seq<Value>)
    requires HaveTypes(vs, ss) && |ss| == |ts| > 0
    ensures MembersAgree(omp, ss, ts, vs) <==>
            Agree(omp, ss[0], ts[0], vs[0]) && MembersAgree(omp, ss[1..], ts[1..], vs[1..])
  {
    hide HasType, Agree;
    if MembersAgree(omp, ss, ts, vs) {
      forall i | 0 <= i < |ss| - 1 ensures Agree(omp, ss[1..][i], ts[1..][i], vs[1..][i]) {
        assert ss[1..][i] == ss[i + 1] && ts[1..][i] == ts[i + 1] && vs[1..][i] == vs[i + 1];
      }
    }
    if Agree(omp, ss[0], ts[0], vs[0]) && MembersAgree(omp, ss[1..], ts[1..], vs[1..]) {
      forall i | 0 <= i < |ss| ensures Agree(omp, ss[i], ts[i], vs[i]) {
        if i > 0 {
          assert ss[i] == ss[1..][i - 1] && ts[i] == ts[1..][i - 1] && vs[i] == vs[1..][i - 1];
        }
      }
    }
  }

  lemma {:induction false} ElemsIffAgree(omp: OidMap, s: Type, t: Type, vs: seq<Value>, starts: seq<Value>)
    requires AllHaveType(vs, s) && AllHaveType(starts, t) && |starts| == |vs| && !Clash(omp, s, t)
    ensures VerdictElems(omp, s, t, vs, starts).Done? <==> ElemsAgree(omp, s, t, vs)
    decreases s, 1 + |vs|
  {
    hide HasType, Agree, Verdict, Clash, SameHead;
    if vs != [] {
      if SameHead(s, t) {
        VerdictIffAgree(omp, s, t, vs[0], starts[0]);
      } else {
        AgreeHead(omp, s, t, vs[0]);
      }
      ElemsIffAgree(omp, s, t, vs[1..], starts[1..]);
    }
  }

  /** Reading as `t`, a type without user-defined parts, a field that holds an encoded `s`
      succeeds exactly when the two agree wherever the decoder looks, and throws otherwise:
      it never reads outside the field. What it throws is the reference decoder's fault. */
  lemma ReadsExactlyWhatAgrees(omp: OidMap, s: Type, t: Type, v: Value)
    requires s.WellFormed() && t.WellFormed() && UdtFree(t) && UserOids(omp)
    requires HasType(v, s) && Fits(s, v)
    ensures var r := AsSpec(t, OidOf(omp, s), Encode(omp, s, v));
            && (r.Done? <==> Agree(omp, s, t, v))
            && !r.Undefined?
            && r == (if Clash(omp, s, t) then Thrown(ClashFault(omp, s, t)) else
                     if !SameHead(s, t) then Undefined else Verdict(omp, s, t, v, Default(t)))
  {
    UdtFreeRelated(s, t);
    if !Clash(omp, s, t) {
      OidGivesHead(omp, s, t);
      DecodeFollowsVerdict(omp, s, t, v, Default(t));
      VerdictIffAgree(omp, s, t, v, Default(t));
    } else {
      AgreeHead(omp, s, t, v);
    }
    hide Agree, Decode, Encode, Verdict, Fits, Default, HasType;
  }

  // Where a disagreement is noticed

  /** How much of the encoding of `v` the decoder has looked at when it throws: everything up
      to and with the word that disagrees, an OID or a member count, at whatever depth. */
  ghost function Looked(omp: OidMap, s: Type, t: Type, v: Value): nat
    requires HasType(v, s) && SameHead(s, t)
    decreases s, 0
  {
    match t
    case Tuple(ts) => LookedComposite(omp, s.members, ts, v.fields)
    case Udt(_, _, ts, _) => LookedComposite(omp, s.members, ts, v.fields)
    case Array(e) => if Clash(omp, s.elem, e) then 12 else 20 + LookedElems(omp, s.elem, e, v.elems)
    case _ => 0
  }

  ghost function LookedComposite(omp: OidMap, ss: seq<Type>, ts: seq<Type>, vs: seq<Value>): nat
    requires HaveTypes(vs, ss)
    decreases ss, 2
  {
    if |ss| != |ts| then 4 else 4 + LookedMembers(omp, ss, ts, vs)
  }

  ghost function LookedMembers(omp: OidMap, ss: seq<Type>, ts: seq<Type>, vs: seq<Value>): nat
    requires HaveTypes(vs, ss) && |ss| == |ts|
    decreases ss, 1
  {
    if ts == [] then 0
    else if Clash(omp, ss[0], ts[0]) then 4
    else if !SameHead(ss[0], ts[0]) then 0
    else if !Agree(omp, ss[0], ts[0], vs[0]) then 8 + Looked(omp, ss[0], ts[0], vs[0])
    else 8 + SizeOf(ss[0], vs[0]) + LookedMembers(omp, ss[1..], ts[1..], vs[1..])
  }

  ghost function LookedElems(omp: OidMap, s: Type, t: Type, vs: seq<Value>): nat
    requires AllHaveType(vs, s)
    decreases s, 1 + |vs|
  {
    if vs == [] || !SameHead(s, t) then 0
    else if !Agree(omp, s, t, vs[0]) then 4 + Looked(omp, s, t, vs[0])
    else 4 + SizeOf(s, vs[0]) + LookedElems(omp, s, t, vs[1..])
  }

  /** `b` is long enough and starts like `c`. */
  ghost predicate Starts(b: seq<byte>, c: seq<byte>, k: nat) {
    k <= |c| <= |b| && b[..k] == c[..k]
  }

  lemma StartsMore(b: seq<byte>, c: seq<byte>, front: seq<byte>, c': seq<byte>, k: nat)
    requires c == front + c' && Starts(b, c, |front| + k)
    ensures b == front + b[|front|..] && Starts(b[|front|..], c', k)
  {
    var n := |front|;
    assert b[..n] == b[..n + k][..n] == c[..n + k][..n] == front;
    assert b[n..][..k] == b[..n + k][n..] == c[..n + k][n..] == c'[..k];
  }

  lemma {:induction false} RejectsThere(omp: OidMap, s: Type, t: Type, v: Value, start: Value, b: seq<byte>)
    requires HasType(v, s) && HasType(start, t) && Fits(s, v)
    requires Comparable(omp, s, t) && SameHead(s, t) && !Clash(omp, s, t)
    requires !Agree(omp, s, t, v) && Starts(b, Encode(omp, s, v), Looked(omp, s, t, v))
    ensures Decode(t, b, start).Thrown? && Decode(t, b, start) == Verdict(omp, s, t, v, start)
    decreases s, 0
  {
    hide DecodeComposite, VerdictComposite, LookedComposite, DecodeArray, EncodeComposite, EncodeArray, Starts, Clash,
      ClashFault, VerdictElems, LookedElems, MembersFit, ElemsFit, MembersAgree, ElemsAgree, Resize;
    match t
    case Tuple(ts) => CompositeRejectsThere(omp, s.members, ts, v.fields, start.fields, b);
    case Udt(_, _, ts, _) =>
      forall i | 0 <= i < |ts| ensures Related(ts[i], ts[i]) { RelatedToItself(ts[i]); }
      CompositeRejectsThere(omp, s.members, ts, v.fields, start.fields, b);
    case Array(e) =>
      if s == t {
        RelatedToItself(e);
      }
      ArrayRejectsThere(omp, s.elem, e, v.elems, start.elems, b);
    case _ =>
  }

  lemma {:induction false} CompositeRejectsThere(
      omp: OidMap, ss: seq<Type>, ts: seq<Type>, vs: seq<Value>, starts: seq<Value>, b: seq<byte>)
    requires HaveTypes(vs, ss) && HaveTypes(starts, ts) && MembersFit(ss, vs) && |ss| < TWO_31 && |ts| < TWO_31
    requires |ss| == |ts| ==> !MembersAgree(omp, ss, ts, vs)
    requires |ss| == |ts| ==> forall i | 0 <= i < |ts| :: Comparable(omp, ss[i], ts[i])
    requires Starts(b, EncodeComposite(omp, ss, vs), LookedComposite(omp, ss, ts, vs))
    ensures DecodeComposite(ts, b, starts).Thrown?
    ensures DecodeComposite(ts, b, starts) == VerdictComposite(omp, ss, ts, vs, starts)
    decreases ss, 2
  {
    var k := if |ss| == |ts| then LookedMembers(omp, ss, ts, vs) else 0;
    StartsMore(b, EncodeComposite(omp, ss, vs), Word32(|ss|), EncodeMembers(omp, ss, vs), k);
    ReadCount(b, |ss|, b[4..], |ts|);
    hide HasType, Word32, Comparable, DecodeMembers, VerdictMembers, EncodeMembers, MembersFit, VerifyCount, From,
      MembersAgree;
    if |ss| == |ts| {
      MembersRejectThere(omp, ss, ts, vs, starts, b[4..]);
    }
  }

  lemma {:induction false} MembersRejectThere(
      omp: OidMap, ss: seq<Type>, ts: seq<Type>, vs: seq<Value>, starts: seq<Value>, b: seq<byte>)
    requires HaveTypes(vs, ss) && HaveTypes(starts, ts) && MembersFit(ss, vs) && |ss| == |ts|
    requires forall i | 0 <= i < |ts| :: Comparable(omp, ss[i], ts[i])
    requires !MembersAgree(omp, ss, ts, vs)
    requires Starts(b, EncodeMembers(omp, ss, vs), LookedMembers(omp, ss, ts, vs))
    ensures VerdictMembers(omp, ss, ts, vs, starts).Thrown?
    ensures DecodeMembers(ts, b, starts) == Thrown(VerdictMembers(omp, ss, ts, vs, starts).fault)
    decreases ss, 1
  {
    hide HasType, SizeOf, Encode, Decode, Fits, Comparable, Word32, DecodeMember, EncodeMember, Verdict, Clash,
      SameHead, Starts, OidOf, Looked, Agree;
    assert ss != [];
    var s, t, v, start, c := ss[0], ts[0], vs[0], starts[0], EncodeMembers(omp, ss, vs);
    var tail := EncodeMembers(omp, ss[1..], vs[1..]);
    assert c == EncodeMember(omp, s, v) + tail;
    MembersAgreeSplit(omp, ss, ts, vs);
    if Clash(omp, s, t) {
      ClashRejectsThere(omp, s, t, v, start, tail, b);
    } else {
      ComparableHeads(omp, s, t);
      if !Agree(omp, s, t, v) {
        MemberRejectsThere(omp, s, t, v, start, tail, b);
      } else {
        VerdictIffAgree(omp, s, t, v, start);
        MemberSize(omp, s, v);
        StartsMore(b, c, EncodeMember(omp, s, v), tail, LookedMembers(omp, ss[1..], ts[1..], vs[1..]));
        MemberFollowsVerdict(omp, s, t, v, b[8 + SizeOf(s, v)..], start);
        hide MembersAgree;
        MembersRejectThere(omp, ss[1..], ts[1..], vs[1..], starts[1..], b[8 + SizeOf(s, v)..]);
      }
    }
  }

  lemma MemberSize(omp: OidMap, s: Type, v: Value)
    requires HasType(v, s)
    ensures |EncodeMember(omp, s, v)| == 8 + SizeOf(s, v)
  {
    SizeIsExact(omp, s, v);
  }

  lemma ClashRejectsThere(omp: OidMap, s: Type, t: Type, v: Value, start: Value, tail: seq<byte>, b: seq<byte>)
    requires HasType(v, s) && HasType(start, t) && Clash(omp, s, t) && Starts(b, EncodeMember(omp, s, v) + tail, 4)
    ensures DecodeMember(t, b, start) == Thrown(ClashFault(omp, s, t))
  {
    var oid := OidOf(omp, s);
    ReadWord32(oid);
    hide Word32, LoadU32, Encode, HasType, SizeOf;
    assert (EncodeMember(omp, s, v) + tail)[..4] == Word32(oid);
    assert b[0..][..4] == Word32(oid);
  }

  lemma {:induction false} MemberRejectsThere(
      omp: OidMap, s: Type, t: Type, v: Value, start: Value, tail: seq<byte>, b: seq<byte>)
    requires HasType(v, s) && HasType(start, t) && Fits(s, v) && 8 + SizeOf(s, v) < TWO_31 && Comparable(omp, s, t)
    requires !Clash(omp, s, t) && SameHead(s, t) && !Agree(omp, s, t, v)
    requires Starts(b, EncodeMember(omp, s, v) + tail, 8 + Looked(omp, s, t, v))
    ensures Verdict(omp, s, t, v, start).Thrown?
    ensures DecodeMember(t, b, start) == Thrown(Verdict(omp, s, t, v, start).fault)
    decreases s, 2
  {
    hide *;
    MemberIs(omp, s, t, v, start, tail, b, Looked(omp, s, t, v));
    FramedRejectsThere(omp, s, t, v, start, 8, Word32(OidOf(omp, s)), tail, b);
  }

  lemma MemberIs(omp: OidMap, s: Type, t: Type, v: Value, start: Value, tail: seq<byte>, b: seq<byte>, k: nat)
    requires HasType(v, s) && HasType(start, t)
    requires !Clash(omp, s, t) && Starts(b, EncodeMember(omp, s, v) + tail, 8 + k)
    ensures DecodeMember(t, b, start) == DecodeFramed(t, 8, b, start)
    ensures Starts(b, Word32(OidOf(omp, s)) + (Word32(SizeOf(s, v)) + (Encode(omp, s, v) + tail)), 8 + k)
  {
    var oid := OidOf(omp, s);
    ReadWord32(oid);
    hide Word32, LoadU32, Encode, HasType, SizeOf, DecodeFramed;
    var c := EncodeMember(omp, s, v) + tail;
    assert c == Word32(oid) + (Word32(SizeOf(s, v)) + (Encode(omp, s, v) + tail));
    StartsInside(b, c, 8 + k, 0, 4);
    assert c[0..4] == Word32(oid);
    assert b[0..][..4] == b[0..4];
  }

  lemma {:induction false} FramedRejectsThere(
      omp: OidMap, s: Type, t: Type, v: Value, start: Value,
      header: nat, head: seq<byte>, tail: seq<byte>, b: seq<byte>)
    requires HasType(v, s) && HasType(start, t) && Fits(s, v) && header + SizeOf(s, v) < TWO_31
    requires Comparable(omp, s, t) && !Clash(omp, s, t) && SameHead(s, t) && !Agree(omp, s, t, v)
    requires header >= 4 && |head| == header - 4
    requires Starts(b, head + (Word32(SizeOf(s, v)) + (Encode(omp, s, v) + tail)), header + Looked(omp, s, t, v))
    ensures Verdict(omp, s, t, v, start).Thrown?
    ensures DecodeFramed(t, header, b, start) == Thrown(Verdict(omp, s, t, v, start).fault)
    decreases s, 1
  {
    hide *;
    var n, body := SizeOf(s, v), Encode(omp, s, v);
    SizeIsExact(omp, s, v);
    LookedWithin(omp, s, t, v);
    ReadStarts(b, header, head, n, body, tail, Looked(omp, s, t, v));
    RejectsThere(omp, s, t, v, start, b[header..header + n]);
    FramedThrows(t, header, b, start, n);
  }

  lemma FramedThrows(t: Type, header: nat, b: seq<byte>, v: Value, n: nat)
    requires HasType(v, t) && header >= 4 && header + n <= |b|
    requires ReadInt32(b, header - 4) == Done(n) && Decode(t, b[header..header + n], v).Thrown?
    ensures DecodeFramed(t, header, b, v) == Thrown(Decode(t, b[header..header + n], v).fault)
  {
    hide Decode, ReadInt32, HasType;
  }

  lemma ReadStarts(b: seq<byte>, header: nat, head: seq<byte>, n: nat, body: seq<byte>, tail: seq<byte>, k: nat)
    requires header >= 4 && |head| == header - 4 && |body| == n && header + n < TWO_31 && k <= n
    requires Starts(b, head + (Word32(n) + (body + tail)), header + k)
    ensures header + n <= |b| && ReadInt32(b, header - 4) == Done(n) && Starts(b[header..header + n], body, k)
  {
    var c := head + (Word32(n) + (body + tail));
    ReadWord32(n);
    hide Word32, LoadInt32, Starts;
    assert c[header - 4..header] == Word32(n) && c[header..header + k] == body[..k];
    StartsInside(b, c, header + k, header - 4, header);
    StartsInside(b, c, header + k, header, header + k);
    assert b[header - 4..][..4] == b[header - 4..header];
    assert b[header..header + n][..k] == b[header..header + k];
    StartsIs(b[header..header + n], body, k);
  }

  lemma StartsInside(b: seq<byte>, c: seq<byte>, k: nat, i: nat, j: nat)
    requires Starts(b, c, k) && i <= j <= k
    ensures k <= |c| <= |b| && b[i..j] == c[i..j]
  {
    assert b[i..j] == b[..k][i..j] && c[i..j] == c[..k][i..j];
  }

  lemma StartsIs(b: seq<byte>, c: seq<byte>, k: nat)
    requires k <= |c| <= |b| && b[..k] == c[..k]
    ensures Starts(b, c, k)
  {
  }

  lemma {:induction false} ArrayRejectsThere(
      omp: OidMap, s: Type, e: Type, vs: seq<Value>, before: seq<Value>, b: seq<byte>)
    requires AllHaveType(vs, s) && AllHaveType(before, e) && ElemsFit(s, vs) && |vs| < TWO_31
    requires Comparable(omp, s, e) && (Clash(omp, s, e) || !ElemsAgree(omp, s, e, vs))
    requires Starts(b, EncodeArray(omp, s, vs), if Clash(omp, s, e) then 12 else 20 + LookedElems(omp, s, e, vs))
    ensures !Clash(omp, s, e) ==> VerdictElems(omp, s, e, vs, Resize(e, before, |vs|)).Thrown?
    ensures DecodeArray(e, b, before) ==
            Thrown(if Clash(omp, s, e) then ClashFault(omp, s, e)
                   else VerdictElems(omp, s, e, vs, Resize(e, before, |vs|)).fault)
    decreases s, 3 + |vs|
  {
    hide *;
    EncodeArrayIs(omp, s, vs);
    if Clash(omp, s, e) {
      HeaderRejectsThere(omp, s, e, |vs|, EncodeElems(omp, s, vs), before, b);
    } else {
      ComparableHeads(omp, s, e);
      ArrayThrows(omp, s, e, |vs|, EncodeElems(omp, s, vs), before, b, LookedElems(omp, s, e, vs));
      ElemsRejectThere(omp, s, e, vs, Resize(e, before, |vs|), b[20..]);
    }
  }

  lemma ArrayThrows(
      omp: OidMap, s: Type, e: Type, n: nat, full: seq<byte>, before: seq<Value>, b: seq<byte>, k: nat)
    requires AllHaveType(before, e)
    requires !Clash(omp, s, e) && n < TWO_31 && Starts(b, ArrayHeader(omp, s, n) + full, 20 + k)
    ensures |b| >= 20 && Starts(b[20..], full, k)
    ensures var o := DecodeElems(e, b[20..], Resize(e, before, n));
            o.Thrown? ==> DecodeArray(e, b, before) == Thrown(o.fault)
  {
    hide HasType, AllHaveType, DecodeElems, ArrayHeader, Resize;
    StartsMore(b, ArrayHeader(omp, s, n) + full, ArrayHeader(omp, s, n), full, k);
    ReadArray(omp, s, e, n, b[20..], before);
    FitsInt32(n);
    hide DecodeArray;
  }

  lemma HeaderRejectsThere(
      omp: OidMap, s: Type, e: Type, n: nat, tail: seq<byte>, before: seq<Value>, b: seq<byte>)
    requires AllHaveType(before, e) && Clash(omp, s, e) && Starts(b, ArrayHeader(omp, s, n) + tail, 12)
    ensures DecodeArray(e, b, before) == Thrown(ClashFault(omp, s, e))
  {
    var c := ArrayHeader(omp, s, n) + tail;
    ReadWord32(1);
    ReadWord32(OidOf(omp, s));
    hide Word32, LoadInt32, LoadU32, DecodeElems, HasType;
    StartsInside(b, c, 12, 0, 4);
    StartsInside(b, c, 12, 8, 12);
    assert c[0..4] == Word32(1) && c[8..12] == Word32(OidOf(omp, s));
    assert b[0..][..4] == b[0..4] && b[8..][0..][..4] == b[8..12];
  }

  lemma {:induction false} ElemsRejectThere(
      omp: OidMap, s: Type, e: Type, vs: seq<Value>, starts: seq<Value>, b: seq<byte>)
    requires AllHaveType(vs, s) && AllHaveType(starts, e) && |starts| == |vs| && ElemsFit(s, vs)
    requires Comparable(omp, s, e) && SameHead(s, e) && !Clash(omp, s, e)
    requires !ElemsAgree(omp, s, e, vs) && Starts(b, EncodeElems(omp, s, vs), LookedElems(omp, s, e, vs))
    ensures VerdictElems(omp, s, e, vs, starts).Thrown?
    ensures DecodeElems(e, b, starts) == Thrown(VerdictElems(omp, s, e, vs, starts).fault)
    decreases s, 2 + |vs|
  {
    hide *;
    NotEmpty(omp, s, e, vs);
    ElemsStep(omp, s, vs);
    SplitElems(e, starts);
    var v, start, c, tail := vs[0], starts[0], EncodeElems(omp, s, vs), EncodeElems(omp, s, vs[1..]);
    LookedElemsStep(omp, s, e, vs);
    VerdictElemsThrows(omp, s, e, vs, starts);
    DecodeElemsThrows(e, b, starts);
    FirstFits(s, vs);
    if !Agree(omp, s, e, v) {
      ElemIs(omp, s, v, tail);
      FramedRejectsThere(omp, s, e, v, start, 4, [], tail, b);
    } else {
      VerdictIffAgree(omp, s, e, v, start);
      ElemSize(omp, s, v);
      StartsMore(b, c, EncodeElem(omp, s, v), tail, LookedElems(omp, s, e, vs[1..]));
      ElemFollowsVerdict(omp, s, e, v, b[4 + SizeOf(s, v)..], start);
      ElemsRejectThere(omp, s, e, vs[1..], starts[1..], b[4 + SizeOf(s, v)..]);
    }
  }

  lemma NotEmpty(omp: OidMap, s: Type, t: Type, vs: seq<Value>)
    requires AllHaveType(vs, s) && !ElemsAgree(omp, s, t, vs)
    ensures vs != []
  {
  }

  lemma FirstFits(s: Type, vs: seq<Value>)
    requires vs != [] && AllHaveType(vs, s) && HasType(vs[0], s) && AllHaveType(vs[1..], s) && ElemsFit(s, vs)
    ensures 4 + SizeOf(s, vs[0]) < TWO_31 && Fits(s, vs[0]) && ElemsFit(s, vs[1..])
  {
    hide HasType, Fits, SizeOf;
  }

  lemma LookedElemsStep(omp: OidMap, s: Type, e: Type, vs: seq<Value>)
    requires vs != [] && AllHaveType(vs, s) && HasType(vs[0], s) && AllHaveType(vs[1..], s) && SameHead(s, e)
    ensures ElemsAgree(omp, s, e, vs) <==> Agree(omp, s, e, vs[0]) && ElemsAgree(omp, s, e, vs[1..])
    ensures LookedElems(omp, s, e, vs) ==
            if !Agree(omp, s, e, vs[0]) then 4 + Looked(omp, s, e, vs[0])
            else 4 + SizeOf(s, vs[0]) + LookedElems(omp, s, e, vs[1..])
  {
    hide HasType, AllHaveType, SizeOf, Agree, Looked, SameHead;
  }

  lemma VerdictElemsThrows(omp: OidMap, s: Type, e: Type, vs: seq<Value>, starts: seq<Value>)
    requires vs != [] && |starts| == |vs| && AllHaveType(vs, s) && AllHaveType(starts, e) && SameHead(s, e)
    requires HasType(vs[0], s) && AllHaveType(vs[1..], s) && HasType(starts[0], e) && AllHaveType(starts[1..], e)
    ensures var x, all := Verdict(omp, s, e, vs[0], starts[0]), VerdictElems(omp, s, e, vs, starts);
            && (x.Thrown? ==> all == Thrown(x.fault))
            && (x.Done? && VerdictElems(omp, s, e, vs[1..], starts[1..]).Thrown? ==>
                  all == Thrown(VerdictElems(omp, s, e, vs[1..], starts[1..]).fault))
  {
    hide HasType, AllHaveType, Verdict, SameHead;
  }

  lemma DecodeElemsThrows(e: Type, b: seq<byte>, starts: seq<Value>)
    requires starts != [] && AllHaveType(starts, e) && HasType(starts[0], e) && AllHaveType(starts[1..], e)
    ensures var x, all := DecodeFramed(e, 4, b, starts[0]), DecodeElems(e, b, starts);
            && (x.Thrown? ==> all == Thrown(x.fault))
            && (x.Done? && DecodeElems(e, x.value.1, starts[1..]).Thrown? ==>
                  all == Thrown(DecodeElems(e, x.value.1, starts[1..]).fault))
  {
    hide HasType, AllHaveType, DecodeFramed;
  }

  lemma ElemIs(omp: OidMap, s: Type, v: Value, tail: seq<byte>)
    requires HasType(v, s)
    ensures EncodeElem(omp, s, v) + tail == [] + (Word32(SizeOf(s, v)) + (Encode(omp, s, v) + tail))
  {
    hide HasType, SizeOf, Encode, Word32;
  }

  lemma ElemSize(omp: OidMap, s: Type, v: Value)
    requires HasType(v, s)
    ensures |EncodeElem(omp, s, v)| == 4 + SizeOf(s, v)
  {
    SizeIsExact(omp, s, v);
  }

  lemma {:induction false} LookedWithin(omp: OidMap, s: Type, t: Type, v: Value)
    requires HasType(v, s) && SameHead(s, t) && !Clash(omp, s, t) && !Agree(omp, s, t, v)
    ensures Looked(omp, s, t, v) <= SizeOf(s, v)
    decreases s, 0
  {
    match t
    case Tuple(ts) => if |ts| == |s.members| { LookedWithinMembers(omp, s.members, ts, v.fields); }
    case Udt(_, _, ts, _) => if |ts| == |s.members| { LookedWithinMembers(omp, s.members, ts, v.fields); }
    case Array(e) => if !Clash(omp, s.elem, e) { LookedWithinElems(omp, s.elem, e, v.elems); }
    case _ =>
  }

  lemma {:induction false} LookedWithinMembers(omp: OidMap, ss: seq<Type>, ts: seq<Type>, vs: seq<Value>)
    requires HaveTypes(vs, ss) && |ss| == |ts| && !MembersAgree(omp, ss, ts, vs)
    ensures LookedMembers(omp, ss, ts, vs) <= MembersSize(ss, vs)
    decreases ss, 1
  {
    hide HasType, SizeOf, Looked, SameHead, Clash, Agree;
    assert ss != [];
    if !Clash(omp, ss[0], ts[0]) && SameHead(ss[0], ts[0]) {
      if !Agree(omp, ss[0], ts[0], vs[0]) {
        LookedWithin(omp, ss[0], ts[0], vs[0]);
      } else {
        MembersAgreeSplit(omp, ss, ts, vs);
        hide MembersAgree;
        LookedWithinMembers(omp, ss[1..], ts[1..], vs[1..]);
      }
    }
  }

  lemma {:induction false} LookedWithinElems(omp: OidMap, s: Type, t: Type, vs: seq<Value>)
    requires AllHaveType(vs, s) && !Clash(omp, s, t) && !ElemsAgree(omp, s, t, vs)
    ensures LookedElems(omp, s, t, vs) <= ElemsSize(s, vs)
    decreases s, 1 + |vs|
  {
    hide HasType, SizeOf, Looked, SameHead, Agree;
    if SameHead(s, t) {
      if !Agree(omp, s, t, vs[0]) {
        LookedWithin(omp, s, t, vs[0]);
      } else {
        LookedWithinElems(omp, s, t, vs[1..]);
      }
    }
  }

  /** The word in front of position `k` is the one the fault reports. */
  ghost predicate EndsIn(b: seq<byte>, k: nat, fault: Fault) {
    4 <= k <= |b| && match fault
                     case OidMismatch(found, _) => LoadU32(b[k - 4..k]) == found
                     case CountMismatch(found, _) => LoadInt32(b[k - 4..k]) == found
                     case _ => false
  }

  lemma EndsInside(b: seq<byte>, k: nat, fault: Fault, front: seq<byte>, tail: seq<byte>)
    requires EndsIn(b, k, fault)
    ensures EndsIn(front + b + tail, |front| + k, fault)
  {
    hide LoadU32, LoadInt32;
    var all, at := front + b + tail, |front| + k;
    assert all[at - 4..at] == b[k - 4..k];
  }

  /** What the decoder has looked at ends exactly with the word whose content it reports. */
  lemma {:induction false} EndsInTheWord(omp: OidMap, s: Type, t: Type, v: Value, start: Value)
    requires HasType(v, s) && HasType(start, t) && SameHead(s, t) && s.WellFormed()
    requires Verdict(omp, s, t, v, start).Thrown?
    ensures EndsIn(Encode(omp, s, v), Looked(omp, s, t, v), Verdict(omp, s, t, v, start).fault)
    decreases s, 0
  {
    hide EndsIn, EncodeComposite, EncodeArray, VerdictComposite, LookedComposite, Clash, ClashFault, LookedElems,
      VerdictElems, Resize;
    match t
    case Tuple(ts) => CompositeEndsIn(omp, s.members, ts, v.fields, start.fields);
    case Udt(_, _, ts, _) => CompositeEndsIn(omp, s.members, ts, v.fields, start.fields);
    case Array(e) => ArrayEndsIn(omp, s.elem, e, v.elems, Resize(e, start.elems, |v.elems|));
    case _ =>
  }

  lemma {:induction false} CompositeEndsIn(
      omp: OidMap, ss: seq<Type>, ts: seq<Type>, vs: seq<Value>, starts: seq<Value>)
    requires HaveTypes(vs, ss) && HaveTypes(starts, ts) && |ss| < TWO_31 && forall m | m in ss :: m.WellFormed()
    requires VerdictComposite(omp, ss, ts, vs, starts).Thrown?
    ensures EndsIn(EncodeComposite(omp, ss, vs), LookedComposite(omp, ss, ts, vs),
                   VerdictComposite(omp, ss, ts, vs, starts).fault)
    decreases ss, 2
  {
    hide HasType, EncodeMembers, VerdictMembers, LookedMembers, LoadInt32, Word32;
    if |ss| != |ts| {
      CompositeCount(omp, ss, vs);
    } else {
      MembersEndIn(omp, ss, ts, vs, starts);
      var b := EncodeMembers(omp, ss, vs);
      EndsInside(b, LookedMembers(omp, ss, ts, vs), VerdictMembers(omp, ss, ts, vs, starts).fault, Word32(|ss|), []);
      assert Word32(|ss|) + b + [] == EncodeComposite(omp, ss, vs);
      hide EndsIn;
    }
  }

  lemma {:induction false} MembersEndIn(
      omp: OidMap, ss: seq<Type>, ts: seq<Type>, vs: seq<Value>, starts: seq<Value>)
    requires HaveTypes(vs, ss) && HaveTypes(starts, ts) && |ss| == |ts| && forall m | m in ss :: m.WellFormed()
    requires VerdictMembers(omp, ss, ts, vs, starts).Thrown?
    ensures EndsIn(EncodeMembers(omp, ss, vs), LookedMembers(omp, ss, ts, vs),
                   VerdictMembers(omp, ss, ts, vs, starts).fault)
    decreases ss, 1
  {
    hide HasType, Encode, Verdict, Looked, EndsIn, SizeOf, Clash, ClashFault, SameHead, Agree, Word32, EncodeMember;
    var s, t, v := ss[0], ts[0], vs[0];
    var tail := EncodeMembers(omp, ss[1..], vs[1..]);
    if Clash(omp, s, t) {
      OidEndsIn(omp, s, t, v, tail);
    } else if Verdict(omp, s, t, v, starts[0]).Thrown? {
      VerdictIffAgree(omp, s, t, v, starts[0]);
      EndsInTheWord(omp, s, t, v, starts[0]);
      var front := Word32(OidOf(omp, s)) + Word32(SizeOf(s, v));
      EndsInside(Encode(omp, s, v), Looked(omp, s, t, v), Verdict(omp, s, t, v, starts[0]).fault, front, tail);
      MemberParts(omp, s, v, tail);
    } else {
      VerdictIffAgree(omp, s, t, v, starts[0]);
      MembersEndIn(omp, ss[1..], ts[1..], vs[1..], starts[1..]);
      MemberSize(omp, s, v);
      var rest := VerdictMembers(omp, ss[1..], ts[1..], vs[1..], starts[1..]);
      EndsInside(tail, LookedMembers(omp, ss[1..], ts[1..], vs[1..]), rest.fault, EncodeMember(omp, s, v), []);
      assert EncodeMember(omp, s, v) + tail + [] == EncodeMember(omp, s, v) + tail;
    }
  }

  lemma OidEndsIn(omp: OidMap, s: Type, t: Type, v: Value, tail: seq<byte>)
    requires HasType(v, s)
    ensures EndsIn(EncodeMember(omp, s, v) + tail, 4, ClashFault(omp, s, t))
  {
    hide HasType, Encode, SizeOf, OidOf, LoadU32, Word32;
    ReadWord32(OidOf(omp, s));
    assert (EncodeMember(omp, s, v) + tail)[0..4] == Word32(OidOf(omp, s));
  }

  lemma MemberParts(omp: OidMap, s: Type, v: Value, tail: seq<byte>)
    requires HasType(v, s)
    ensures Word32(OidOf(omp, s)) + Word32(SizeOf(s, v)) + Encode(omp, s, v) + tail == EncodeMember(omp, s, v) + tail
    ensures |Word32(OidOf(omp, s)) + Word32(SizeOf(s, v))| == 8
  {
    hide HasType, Encode, SizeOf, OidOf, Word32;
  }

  lemma {:induction false} ArrayEndsIn(omp: OidMap, s: Type, e: Type, vs: seq<Value>, starts: seq<Value>)
    requires AllHaveType(vs, s) && AllHaveType(starts, e) && |starts| == |vs| && s.WellFormed()
    ensures Clash(omp, s, e) ==> EndsIn(EncodeArray(omp, s, vs), 12, ClashFault(omp, s, e))
    ensures !Clash(omp, s, e) && VerdictElems(omp, s, e, vs, starts).Thrown? ==>
              EndsIn(EncodeArray(omp, s, vs), 20 + LookedElems(omp, s, e, vs),
                     VerdictElems(omp, s, e, vs, starts).fault)
    decreases s, 2 + |vs|
  {
    hide HasType, AllHaveType, EncodeArray, EncodeElems, VerdictElems, LookedElems, Clash, LoadU32, LoadInt32, OidOf,
      Resize, ArrayHeader, EndsIn;
    if Clash(omp, s, e) {
      ArrayOidEndsIn(omp, s, e, vs);
    } else if VerdictElems(omp, s, e, vs, starts).Thrown? {
      ElemsEndIn(omp, s, e, vs, starts);
      EncodeArrayIs(omp, s, vs);
      var b, header := EncodeElems(omp, s, vs), ArrayHeader(omp, s, |vs|);
      EndsInside(b, LookedElems(omp, s, e, vs), VerdictElems(omp, s, e, vs, starts).fault, header, []);
      assert header + b + [] == header + b;
    }
  }

  lemma ArrayOidEndsIn(omp: OidMap, s: Type, e: Type, vs: seq<Value>)
    requires AllHaveType(vs, s)
    ensures EndsIn(EncodeArray(omp, s, vs), 12, ClashFault(omp, s, e))
  {
    ArrayWords(omp, s, vs);
    hide EncodeArray, LoadU32, OidOf, AllHaveType;
  }

  lemma {:induction false} ElemsEndIn(omp: OidMap, s: Type, t: Type, vs: seq<Value>, starts: seq<Value>)
    requires AllHaveType(vs, s) && AllHaveType(starts, t) && |starts| == |vs| && s.WellFormed() && !Clash(omp, s, t)
    requires VerdictElems(omp, s, t, vs, starts).Thrown?
    ensures EndsIn(EncodeElems(omp, s, vs), LookedElems(omp, s, t, vs), VerdictElems(omp, s, t, vs, starts).fault)
    decreases s, 1 + |vs|
  {
    hide HasType, AllHaveType, Encode, Verdict, Looked, EndsIn, SizeOf, Clash, SameHead, Agree, Word32, EncodeElem,
      EncodeElems, LookedElems, ElemsAgree;
    var v := vs[0];
    SplitElems(s, vs);
    SplitElems(t, starts);
    ElemsStep(omp, s, vs);
    var tail := EncodeElems(omp, s, vs[1..]);
    LookedElemsStep(omp, s, t, vs);
    VerdictIffAgree(omp, s, t, v, starts[0]);
    if Verdict(omp, s, t, v, starts[0]).Thrown? {
      EndsInTheWord(omp, s, t, v, starts[0]);
      EndsInside(Encode(omp, s, v), Looked(omp, s, t, v), Verdict(omp, s, t, v, starts[0]).fault,
                 Word32(SizeOf(s, v)), tail);
      EncodeElemIs(omp, s, v);
    } else {
      ElemsEndIn(omp, s, t, vs[1..], starts[1..]);
      ElemSize(omp, s, v);
      var rest := VerdictElems(omp, s, t, vs[1..], starts[1..]);
      EndsInside(tail, LookedElems(omp, s, t, vs[1..]), rest.fault, EncodeElem(omp, s, v), []);
      assert EncodeElem(omp, s, v) + tail + [] == EncodeElem(omp, s, v) + tail;
    }
  }

  /** A disagreement throws before anything behind the word that shows it is read: any bytes
      that start like the encoding up to that word, and are not fewer, meet the same end. */
  lemma RejectsBeforeReading(omp: OidMap, s: Type, t: Type, v: Value, b: seq<byte>)
    requires HasType(v, s) && Fits(s, v) && Comparable(omp, s, t)
    requires AsSpec(t, OidOf(omp, s), Encode(omp, s, v)).Thrown?
    ensures !Clash(omp, s, t) ==> SameHead(s, t)
    ensures var k := if Clash(omp, s, t) then 0 else Looked(omp, s, t, v);
            && k <= SizeOf(s, v)
            && (Starts(b, Encode(omp, s, v), k) ==>
                  AsSpec(t, OidOf(omp, s), b) == AsSpec(t, OidOf(omp, s), Encode(omp, s, v)))
  {
    if !Clash(omp, s, t) {
      ComparableHeads(omp, s, t);
      DecodeFollowsVerdict(omp, s, t, v, Default(t));
      VerdictIffAgree(omp, s, t, v, Default(t));
      hide HasType, Fits, Comparable, Encode, Decode, Verdict, SameHead, Default, Looked, SizeOf, Starts, Agree;
      LookedWithin(omp, s, t, v);
      if Starts(b, Encode(omp, s, v), Looked(omp, s, t, v)) {
        RejectsThere(omp, s, t, v, Default(t), b);
      }
    }
  }
}
