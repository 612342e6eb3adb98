/** The round trip through the codec, and exactly where it ends. */
module CodecTheorems {
  import opened Words
  import opened Types
  import opened Serialization
  import opened Deserialization
  import opened Codec
  import TimePoints

  // Round trip

  /** The value with every time point cut to whole microseconds. */
  function Canon(t: Type, v: Value): Value
    requires HasType(v, t)
    decreases t, 0
  {
    match t
    case TimePoint => Time(TimePoints.Micros(v.ns))
    case Tuple(ms) => Fields(CanonMembers(ms, v.fields))
    case Udt(_, _, ms, _) => Fields(CanonMembers(ms, v.fields))
    case Array(e) => Elems(CanonElems(e, v.elems))
    case _ => v
  }

  function CanonMembers(ts: seq<Type>, vs: seq<Value>): seq<Value>
    requires HaveTypes(vs, ts)
    decreases ts, 1
  {
    if ts == [] then [] else [Canon(ts[0], vs[0])] + CanonMembers(ts[1..], vs[1..])
  }

  function CanonElems(e: Type, vs: seq<Value>): seq<Value>
    requires AllHaveType(vs, e)
    decreases e, 1 + |vs|
  {
    if vs == [] then [] else [Canon(e, vs[0])] + CanonElems(e, vs[1..])
  }

  predicate NoTimes(t: Type) {
    match t
    case TimePoint => false
    case Tuple(ms) => forall m | m in ms :: NoTimes(m)
    case Udt(_, _, ms, _) => forall m | m in ms :: NoTimes(m)
    case Array(e) => NoTimes(e)
    case _ => true
  }

  lemma {:induction false} CanonWithoutTimes(t: Type, v: Value)
    requires HasType(v, t) && NoTimes(t)
    ensures Canon(t, v) == v
    decreases t, 0
  {
    match t
    case Tuple(ms) => CanonMembersWithoutTimes(ms, v.fields);
    case Udt(_, _, ms, _) => CanonMembersWithoutTimes(ms, v.fields);
    case Array(e) => CanonElemsWithoutTimes(e, v.elems);
    case _ =>
  }

  lemma {:induction false} CanonMembersWithoutTimes(ts: seq<Type>, vs: seq<Value>)
    requires HaveTypes(vs, ts) && forall t | t in ts :: NoTimes(t)
    ensures CanonMembers(ts, vs) == vs
    decreases ts, 1
  {
    if ts != [] {
      CanonWithoutTimes(ts[0], vs[0]);
      CanonMembersWithoutTimes(ts[1..], vs[1..]);
    }
  }

  lemma {:induction false} CanonElemsWithoutTimes(e: Type, vs: seq<Value>)
    requires AllHaveType(vs, e) && NoTimes(e)
    ensures CanonElems(e, vs) == vs
    decreases e, 1 + |vs|
  {
    if vs != [] {
      CanonWithoutTimes(e, vs[0]);
      CanonElemsWithoutTimes(e, vs[1..]);
    }
  }

  // What was there before

  /** What decoding a value over `start` leaves: a string is added to the one that is there,
      also inside what an array keeps of its elements; all else is overwritten. */
  function Over(t: Type, v: Value, start: Value): Value
    requires HasType(v, t) && HasType(start, t)
    decreases t, 0
  {
    match t
    case Text(view) => Chars(if view then v.chars else start.chars + v.chars)
    case TimePoint => Time(TimePoints.Micros(v.ns))
    case Tuple(ms) => Fields(OverMembers(ms, v.fields, start.fields))
    case Udt(_, _, ms, _) => Fields(OverMembers(ms, v.fields, start.fields))
    case Array(e) => Elems(OverElems(e, v.elems, Resize(e, start.elems, |v.elems|)))
    case _ => v
  }

  function OverMembers(ts: seq<Type>, vs: seq<Value>, starts: seq<Value>): seq<Value>
    requires HaveTypes(vs, ts) && HaveTypes(starts, ts)
    decreases ts, 1
  {
    if ts == [] then [] else [Over(ts[0], vs[0], starts[0])] + OverMembers(ts[1..], vs[1..], starts[1..])
  }

  function OverElems(e: Type, vs: seq<Value>, starts: seq<Value>): seq<Value>
    requires AllHaveType(vs, e) && AllHaveType(starts, e) && |starts| == |vs|
    decreases e, 1 + |vs|
  {
    if vs == [] then [] else [Over(e, vs[0], starts[0])] + OverElems(e, vs[1..], starts[1..])
  }

  /** Every string the decoder appends to is empty: in `start`, as far as it is kept, and in
      the elements that an array gains. */
  ghost predicate Clear(t: Type, v: Value, start: Value)
    requires HasType(v, t) && HasType(start, t)
    decreases t, 0
  {
    match t
    case Text(view) => view || start.chars == []
    case Tuple(ms) => MembersClear(ms, v.fields, start.fields)
    case Udt(_, _, ms, _) => MembersClear(ms, v.fields, start.fields)
    case Array(e) => ElemsClear(e, v.elems, Resize(e, start.elems, |v.elems|))
    case _ => true
  }

  ghost predicate MembersClear(ts: seq<Type>, vs: seq<Value>, starts: seq<Value>)
    requires HaveTypes(vs, ts) && HaveTypes(starts, ts)
    decreases ts, 1
  {
    ts != [] ==> Clear(ts[0], vs[0], starts[0]) && MembersClear(ts[1..], vs[1..], starts[1..])
  }

  ghost predicate ElemsClear(e: Type, vs: seq<Value>, starts: seq<Value>)
    requires AllHaveType(vs, e) && AllHaveType(starts, e) && |starts| == |vs|
    decreases e, 1 + |vs|
  {
    vs != [] ==> Clear(e, vs[0], starts[0]) && ElemsClear(e, vs[1..], starts[1..])
  }

  lemma SameCons(x: Value, xs: seq<Value>, y: Value, ys: seq<Value>)
    ensures [x] + xs == [y] + ys <==> x == y && xs == ys
  {
    if [x] + xs == [y] + ys {
      assert ([x] + xs)[0] == x && ([x] + xs)[1..] == xs && ([y] + ys)[0] == y && ([y] + ys)[1..] == ys;
    }
  }

  /** The value comes through exactly if nothing it is appended to was there. */
  lemma {:induction false} OverIffClear(t: Type, v: Value, start: Value)
    requires HasType(v, t) && HasType(start, t)
    ensures Over(t, v, start) == Canon(t, v) <==> Clear(t, v, start)
    decreases t, 0
  {
    match t
    case Text(_) => assert start.chars + v.chars == v.chars <==> start.chars == [] by {
      assert |start.chars + v.chars| == |start.chars| + |v.chars|;
      if start.chars == [] { assert start.chars + v.chars == v.chars; }
    }
    case Tuple(ms) => MembersOverIffClear(ms, v.fields, start.fields);
    case Udt(_, _, ms, _) => MembersOverIffClear(ms, v.fields, start.fields);
    case Array(e) => ElemsOverIffClear(e, v.elems, Resize(e, start.elems, |v.elems|));
    case _ =>
  }

  lemma {:induction false} MembersOverIffClear(ts: seq<Type>, vs: seq<Value>, starts: seq<Value>)
    requires HaveTypes(vs, ts) && HaveTypes(starts, ts)
    ensures OverMembers(ts, vs, starts) == CanonMembers(ts, vs) <==> MembersClear(ts, vs, starts)
    decreases ts, 1
  {
    hide HasType, Over, Canon, Clear;
    if ts != [] {
      OverIffClear(ts[0], vs[0], starts[0]);
      MembersOverIffClear(ts[1..], vs[1..], starts[1..]);
      SameCons(Over(ts[0], vs[0], starts[0]), OverMembers(ts[1..], vs[1..], starts[1..]),
               Canon(ts[0], vs[0]), CanonMembers(ts[1..], vs[1..]));
    }
  }

  lemma {:induction false} ElemsOverIffClear(e: Type, vs: seq<Value>, starts: seq<Value>)
    requires AllHaveType(vs, e) && AllHaveType(starts, e) && |starts| == |vs|
    ensures OverElems(e, vs, starts) == CanonElems(e, vs) <==> ElemsClear(e, vs, starts)
    decreases e, 1 + |vs|
  {
    hide HasType, Over, Canon, Clear;
    if vs != [] {
      OverIffClear(e, vs[0], starts[0]);
      ElemsOverIffClear(e, vs[1..], starts[1..]);
      SameCons(Over(e, vs[0], starts[0]), OverElems(e, vs[1..], starts[1..]), Canon(e, vs[0]), CanonElems(e, vs[1..]));
    }
  }

  // What survives

  /** The length word of this size is -1, the value of `std::dynamic_extent`. */
  predicate ReadsMinusOne(size: nat) {
    size % TWO_32 == TWO_32 - 1
  }

  /** A length word delimits its payload: the length fits with its header, or it reads -1 and
      nothing is behind it, so that taking the rest is right. */
  predicate Framed(header: nat, size: nat, last: bool) {
    header + size < TWO_31 || (last && ReadsMinusOne(size))
  }

  ghost predicate Survives(t: Type, v: Value)
    requires HasType(v, t)
    decreases t, 0
  {
    match t
    case Tuple(ms) => MembersSurvive(ms, v.fields)
    case Udt(_, _, ms, _) => MembersSurvive(ms, v.fields)
    case Array(e) => |v.elems| < TWO_31 && ElemsSurvive(e, v.elems)
    case _ => true
  }

  ghost predicate MembersSurvive(ts: seq<Type>, vs: seq<Value>)
    requires HaveTypes(vs, ts)
    decreases ts, 1
  {
    ts != [] ==>
      Survives(ts[0], vs[0]) && Framed(8, SizeOf(ts[0], vs[0]), |ts| == 1) && MembersSurvive(ts[1..], vs[1..])
  }

  ghost predicate ElemsSurvive(e: Type, vs: seq<Value>)
    requires AllHaveType(vs, e)
    decreases e, 1 + |vs|
  {
    vs != [] ==> Survives(e, vs[0]) && Framed(4, SizeOf(e, vs[0]), |vs| == 1) && ElemsSurvive(e, vs[1..])
  }

  /** No member of a user-defined type, or of an array of one, stands behind a composite or an
      array whose length word reads -1: there the decoder would take any bytes for the OID. And
      no string that is appended to has 2^31 bytes already, to make up for what a cut length
      leaves out. */
  ghost predicate Settled(t: Type, v: Value, start: Value)
    requires HasType(v, t) && HasType(start, t)
    decreases t, 0
  {
    match t
    case Text(view) => view || |start.chars| < TWO_31
    case Tuple(ms) => MembersSettled(ms, v.fields, start.fields)
    case Udt(_, _, ms, _) => MembersSettled(ms, v.fields, start.fields)
    case Array(e) => ElemsSettled(e, v.elems, Resize(e, start.elems, |v.elems|))
    case _ => true
  }

  ghost predicate MembersSettled(ts: seq<Type>, vs: seq<Value>, starts: seq<Value>)
    requires HaveTypes(vs, ts) && HaveTypes(starts, ts)
    decreases ts, 1
  {
    ts != [] ==>
      && Settled(ts[0], vs[0], starts[0]) && MembersSettled(ts[1..], vs[1..], starts[1..])
      && (|ts| > 1 && !ts[0].Text? && ReadsMinusOne(SizeOf(ts[0], vs[0])) ==> ExpectedOid(ts[1]) != 0)
  }

  ghost predicate ElemsSettled(e: Type, vs: seq<Value>, starts: seq<Value>)
    requires AllHaveType(vs, e) && AllHaveType(starts, e) && |starts| == |vs|
    decreases e, 1 + |vs|
  {
    vs != [] ==> Settled(e, vs[0], starts[0]) && ElemsSettled(e, vs[1..], starts[1..])
  }

  /** Without user-defined parts `T{}` holds no string but empty ones. */
  lemma {:induction false} UdtFreeIsPlain(t: Type, v: Value)
    requires t.WellFormed() && UdtFree(t) && HasType(v, t)
    ensures Settled(t, v, Default(t)) && Clear(t, v, Default(t))
    decreases t, 0
  {
    match t
    case Tuple(ms) => UdtFreeMembersArePlain(ms, v.fields);
    case Array(e) => UdtFreeElemsArePlain(e, v.elems, Resize(e, [], |v.elems|));
    case _ =>
  }

  lemma {:induction false} UdtFreeMembersArePlain(ts: seq<Type>, vs: seq<Value>)
    requires (forall t | t in ts :: t.WellFormed() && UdtFree(t)) && HaveTypes(vs, ts)
    ensures MembersSettled(ts, vs, Defaults(ts)) && MembersClear(ts, vs, Defaults(ts))
    decreases ts, 1
  {
    if ts != [] {
      UdtFreeIsPlain(ts[0], vs[0]);
      UdtFreeMembersArePlain(ts[1..], vs[1..]);
      assert Defaults(ts)[0] == Default(ts[0]) && Defaults(ts)[1..] == Defaults(ts[1..]);
      if |ts| > 1 {
        UdtFreeHasOid(ts[1]);
      }
    }
  }

  lemma {:induction false} UdtFreeElemsArePlain(e: Type, vs: seq<Value>, starts: seq<Value>)
    requires e.WellFormed() && UdtFree(e) && AllHaveType(vs, e)
    requires AllHaveType(starts, e) && |starts| == |vs| && forall i | 0 <= i < |starts| :: starts[i] == Default(e)
    ensures ElemsSettled(e, vs, starts) && ElemsClear(e, vs, starts)
    decreases e, 1 + |vs|
  {
    if vs != [] {
      UdtFreeIsPlain(e, vs[0]);
      UdtFreeElemsArePlain(e, vs[1..], starts[1..]);
    }
  }

  lemma UdtFreeHasOid(t: Type)
    requires t.WellFormed() && UdtFree(t)
    ensures ExpectedOid(t) != 0
  {
  }

  /** `p` is all of `b`, or what an `int32_t` length leaves of it. */
  ghost predicate CutOf(p: seq<byte>, b: seq<byte>) {
    p <= b && (p == b || (|p| < TWO_31 && |b| - |p| >= TWO_31))
  }

  ghost predicate Right(o: Outcome<(seq<Value>, seq<byte>)>, vs: seq<Value>) {
    o.Done? && o.value.0 == vs
  }

  /** Decoding an encoding over `start`: all of it leaves what `Over` says, if the value
      survives; and the value itself comes only of all of it, and only if it survives. */
  lemma {:induction false} ReadsBack(omp: OidMap, t: Type, v: Value, start: Value, p: seq<byte>)
    requires t.WellFormed() && HasType(v, t) && HasType(start, t) && CutOf(p, Encode(omp, t, v))
    ensures p == Encode(omp, t, v) && Survives(t, v) ==> Decode(t, p, start) == Done(Over(t, v, start))
    ensures Settled(t, v, start) && Decode(t, p, start) == Done(Canon(t, v)) ==>
              p == Encode(omp, t, v) && Survives(t, v)
    decreases t, 0
  {
    match t
    case Word(k) =>
      SizeIsExact(omp, t, v);
      if p == Encode(omp, t, v) {
        WordReadsBack(omp, k, v, start);
      }
    case Text(view) => assert |start.chars + p| == |start.chars| + |p|;
    case TimePoint =>
      SizeIsExact(omp, t, v);
      if p == Encode(omp, t, v) {
        TimeReadsBack(omp, v, start);
      }
    case Tuple(ms) => CompositeReadsBack(omp, ms, v.fields, start.fields, p);
    case Udt(_, _, ms, _) => CompositeReadsBack(omp, ms, v.fields, start.fields, p);
    case Array(e) => ArrayReadsBack(omp, e, v.elems, start.elems, p);
  }

  lemma WordReadsBack(omp: OidMap, k: Kind, v: Value, start: Value)
    requires HasType(v, Word(k)) && HasType(start, Word(k))
    ensures Decode(Word(k), Encode(omp, Word(k), v), start) == Done(v)
  {
    hide Decode, Encode, HasType;
    WordFollowsVerdict(omp, k, v, start, []);
    assert Encode(omp, Word(k), v) + [] == Encode(omp, Word(k), v);
  }

  lemma TimeReadsBack(omp: OidMap, v: Value, start: Value)
    requires HasType(v, TimePoint) && HasType(start, TimePoint)
    ensures Decode(TimePoint, Encode(omp, TimePoint, v), start) == Done(Time(TimePoints.Micros(v.ns)))
  {
    hide Decode, Encode, HasType;
    TimeFollowsVerdict(omp, v, start, []);
    assert Encode(omp, TimePoint, v) + [] == Encode(omp, TimePoint, v);
  }

  lemma {:induction false} CompositeReadsBack(
      omp: OidMap, ts: seq<Type>, vs: seq<Value>, starts: seq<Value>, p: seq<byte>)
    requires |ts| < TWO_31 && (forall t | t in ts :: t.WellFormed())
    requires HaveTypes(vs, ts) && HaveTypes(starts, ts) && CutOf(p, EncodeComposite(omp, ts, vs))
    ensures var r := DecodeComposite(ts, p, starts);
            && (p == EncodeComposite(omp, ts, vs) && MembersSurvive(ts, vs) ==>
                  r == Done(Fields(OverMembers(ts, vs, starts))))
            && (MembersSettled(ts, vs, starts) && r == Done(Fields(CanonMembers(ts, vs))) ==>
                  p == EncodeComposite(omp, ts, vs) && MembersSurvive(ts, vs))
    decreases ts, 2
  {
    hide HasType, Word32, VerifyCount, DecodeMembers, MembersSurvive, CanonMembers, OverMembers, MembersSettled,
      EncodeMembers;
    var full := EncodeMembers(omp, ts, vs);
    if |p| >= 4 {
      var rest := p[4..];
      assert p == Word32(|ts|) + rest && CutOf(rest, full);
      ReadCount(p, |ts|, rest, |ts|);
      MembersReadBack(omp, ts, vs, starts, rest);
      assert p == EncodeComposite(omp, ts, vs) <==> rest == full;
    } else {
      ShortCount(p, |ts|);
    }
  }

  lemma ShortCount(p: seq<byte>, n: nat)
    requires |p| < 4
    ensures !VerifyCount(p, n).Done?
  {
  }

  lemma {:induction false} MembersReadBack(
      omp: OidMap, ts: seq<Type>, vs: seq<Value>, starts: seq<Value>, p: seq<byte>)
    requires forall t | t in ts :: t.WellFormed()
    requires HaveTypes(vs, ts) && HaveTypes(starts, ts) && CutOf(p, EncodeMembers(omp, ts, vs))
    ensures var r := DecodeMembers(ts, p, starts);
            && (p == EncodeMembers(omp, ts, vs) && MembersSurvive(ts, vs) ==> Right(r, OverMembers(ts, vs, starts)))
            && (MembersSettled(ts, vs, starts) && Right(r, CanonMembers(ts, vs)) ==>
                  p == EncodeMembers(omp, ts, vs) && MembersSurvive(ts, vs))
    decreases ts, 1
  {
    hide *;
    if ts == [] {
      EmptyReadsBack(omp, ts, vs, starts, p);
    } else {
      SplitMembers(ts, vs);
      SplitMembers(ts, starts);
      var t, v, start, oid, n := ts[0], vs[0], starts[0], OidOf(omp, ts[0]), SizeOf(ts[0], vs[0]);
      var rest := EncodeMembers(omp, ts[1..], vs[1..]);
      MembersParts(omp, ts, vs, starts);
      RightMembers(ts, starts, p, Canon(t, v), CanonMembers(ts[1..], vs[1..]));
      RightMembers(ts, starts, p, Over(t, v, start), OverMembers(ts[1..], vs[1..], starts[1..]));
      PrefixOfCut(p, EncodeMembers(omp, ts, vs));
      ReadOwnOid(omp, t, start, Word32(n) + (Encode(omp, t, v) + rest), p);
      if 8 + n < TWO_31 {
        FittingReadsBack(omp, t, v, start, 8, Word32(oid), rest, p);
        if |p| >= 8 + n {
          MembersReadBack(omp, ts[1..], vs[1..], starts[1..], p[8 + n..]);
        }
      } else if ReadsMinusOne(n) {
        OpenReadsBack(omp, t, v, start, 8, Word32(oid), rest, p);
        if |p| >= 8 && p[7] == 255 {
          OpenMemberReadsBack(ts, starts, p[7..]);
        }
      } else {
        NotFramed(8, n);
        CutReadsBack(omp, t, v, start, 8, Word32(oid), rest, p);
      }
    }
  }

  lemma MembersParts(omp: OidMap, ts: seq<Type>, vs: seq<Value>, starts: seq<Value>)
    requires ts != [] && HaveTypes(vs, ts) && HaveTypes(starts, ts)
    requires vs != [] && HasType(vs[0], ts[0]) && HaveTypes(vs[1..], ts[1..])
    requires starts != [] && HasType(starts[0], ts[0]) && HaveTypes(starts[1..], ts[1..])
    ensures var n, rest := SizeOf(ts[0], vs[0]), EncodeMembers(omp, ts[1..], vs[1..]);
            && EncodeMembers(omp, ts, vs)
               == Word32(OidOf(omp, ts[0])) + (Word32(n) + (Encode(omp, ts[0], vs[0]) + rest))
            && CanonMembers(ts, vs) == [Canon(ts[0], vs[0])] + CanonMembers(ts[1..], vs[1..])
            && OverMembers(ts, vs, starts)
               == [Over(ts[0], vs[0], starts[0])] + OverMembers(ts[1..], vs[1..], starts[1..])
            && (MembersSurvive(ts, vs) <==>
                  && Survives(ts[0], vs[0]) && (8 + n < TWO_31 || (|ts| == 1 && ReadsMinusOne(n)))
                  && MembersSurvive(ts[1..], vs[1..]))
            && (|ts| == 1 ==> rest == [] && CanonMembers(ts[1..], vs[1..]) == [] && MembersSurvive(ts[1..], vs[1..]))
            && (|ts| == 1 ==> OverMembers(ts[1..], vs[1..], starts[1..]) == [])
            && (|ts| > 1 ==> rest != [])
            && (MembersSettled(ts, vs, starts) ==>
                  && Settled(ts[0], vs[0], starts[0]) && MembersSettled(ts[1..], vs[1..], starts[1..])
                  && (|ts| > 1 && !ts[0].Text? && ReadsMinusOne(n) ==> ExpectedOid(ts[1]) != 0))
  {
    hide HasType, HaveTypes, SizeOf, Encode, EncodeMembers, Survives, Canon, Over, Word32, Settled, OidOf, ExpectedOid,
      ReadsMinusOne;
    EncodeMembersParts(omp, ts, vs);
  }

  lemma EncodeMembersParts(omp: OidMap, ts: seq<Type>, vs: seq<Value>)
    requires ts != [] && HaveTypes(vs, ts)
    requires vs != [] && HasType(vs[0], ts[0]) && HaveTypes(vs[1..], ts[1..])
    ensures var n, rest := SizeOf(ts[0], vs[0]), EncodeMembers(omp, ts[1..], vs[1..]);
            && EncodeMembers(omp, ts, vs)
               == Word32(OidOf(omp, ts[0])) + (Word32(n) + (Encode(omp, ts[0], vs[0]) + rest))
            && (|ts| == 1 <==> rest == [])
  {
    hide HasType, SizeOf, Encode, Word32, OidOf;
    if |ts| > 1 {
      assert ts[1..] != [] && |EncodeMember(omp, ts[1..][0], vs[1..][0])| >= 8;
    }
  }

  lemma PrefixOfCut(p: seq<byte>, b: seq<byte>)
    requires CutOf(p, b)
    ensures p <= b
  {
  }

  lemma EmptyReadsBack(omp: OidMap, ts: seq<Type>, vs: seq<Value>, starts: seq<Value>, p: seq<byte>)
    requires ts == [] && HaveTypes(vs, ts) && HaveTypes(starts, ts) && CutOf(p, EncodeMembers(omp, ts, vs))
    ensures p == EncodeMembers(omp, ts, vs) && MembersSurvive(ts, vs)
    ensures Right(DecodeMembers(ts, p, starts), OverMembers(ts, vs, starts))
  {
  }

  /** Behind a length that reads -1: the last member ends the list, a later one is not read. */
  lemma OpenMemberReadsBack(ts: seq<Type>, starts: seq<Value>, p: seq<byte>)
    requires p != [] && p[0] == 255 && ts != [] && starts != [] && HaveTypes(starts[1..], ts[1..])
    ensures |ts| == 1 ==> Right(DecodeMembers(ts[1..], p, starts[1..]), [])
    ensures |ts| > 1 && ExpectedOid(ts[1]) != 0 ==> forall ys :: !Right(DecodeMembers(ts[1..], p, starts[1..]), ys)
  {
    hide DecodeFramed, HasType;
    if |ts| > 1 && ExpectedOid(ts[1]) != 0 {
      ClashesAfterOpen(ts[1], p);
      hide VerifyOid, ExpectedOid;
    }
  }

  lemma RightMembers(ts: seq<Type>, starts: seq<Value>, p: seq<byte>, y: Value, ys: seq<Value>)
    requires ts != [] && HaveTypes(starts, ts)
    requires starts != [] && HasType(starts[0], ts[0]) && HaveTypes(starts[1..], ts[1..])
    ensures Right(DecodeMembers(ts, p, starts), [y] + ys) <==>
            var x := DecodeMember(ts[0], p, starts[0]);
            x.Done? && x.value.0 == y && Right(DecodeMembers(ts[1..], x.value.1, starts[1..]), ys)
  {
    hide DecodeMember, HasType;
    var x := DecodeMember(ts[0], p, starts[0]);
    if x.Done? && DecodeMembers(ts[1..], x.value.1, starts[1..]).Done? {
      SameCons(x.value.0, DecodeMembers(ts[1..], x.value.1, starts[1..]).value.0, y, ys);
    }
  }

  lemma ReadOwnOid(omp: OidMap, t: Type, start: Value, tail: seq<byte>, p: seq<byte>)
    requires t.WellFormed() && HasType(start, t) && p <= Word32(OidOf(omp, t)) + tail
    ensures DecodeMember(t, p, start) == if |p| < 4 then Undefined else DecodeFramed(t, 8, p, start)
  {
    hide DecodeFramed, HasType;
    if |p| >= 4 {
      ReadWord32(OidOf(omp, t));
      assert p[0..][..4] == Word32(OidOf(omp, t));
    }
    hide Word32, LoadU32;
  }

  /** What `p` has of a length word `n` behind its header, and of the payload behind that. */
  lemma ReadCutSize(p: seq<byte>, header: nat, head: seq<byte>, n: nat, tail: seq<byte>)
    requires header >= 4 && |head| == header - 4 && p <= head + (Word32(n) + tail)
    ensures |p| < header ==> ReadInt32(p, header - 4).Undefined?
    ensures |p| >= header ==> ReadInt32(p, header - 4) == Done(ToInt32(n)) && p[header..] <= tail
    ensures |p| >= header && ReadsMinusOne(n) ==> p[header - 1] == 255
  {
    if |p| >= header {
      ReadWord32(n);
      assert p[header - 4..][..4] == Word32(n);
      assert p[header - 1] == Word32(n)[3];
    }
    hide LoadInt32, ToInt32;
  }

  lemma {:induction false} FittingReadsBack(
      omp: OidMap, t: Type, v: Value, start: Value, header: nat, head: seq<byte>, rest: seq<byte>, p: seq<byte>)
    requires t.WellFormed() && HasType(v, t) && HasType(start, t) && header + SizeOf(t, v) < TWO_31
    requires header in {4, 8} && |head| == header - 4
    requires CutOf(p, head + (Word32(SizeOf(t, v)) + (Encode(omp, t, v) + rest)))
    ensures var n, r := SizeOf(t, v), DecodeFramed(t, header, p, start);
            && (|p| >= header + n ==> CutOf(p[header + n..], rest))
            && (p == head + (Word32(n) + (Encode(omp, t, v) + rest)) <==>
                  |p| >= header + n && p[header + n..] == rest)
            && (|p| >= header + n && Survives(t, v) ==> r == Done((Over(t, v, start), p[header + n..])))
            && (Settled(t, v, start) && r.Done? && r.value.0 == Canon(t, v) ==>
                  |p| >= header + n && Survives(t, v) && r.value.1 == p[header + n..])
    decreases t, 1
  {
    hide *;
    var n, body := SizeOf(t, v), Encode(omp, t, v);
    SizeIsExact(omp, t, v);
    ReadFitting(p, header, head, n, body, rest);
    ReadsBack(omp, t, v, start, body);
    FramedIs(t, header, p, start);
  }

  lemma FramedIs(t: Type, header: nat, b: seq<byte>, v: Value)
    requires HasType(v, t) && header >= 4
    ensures DecodeFramed(t, header, b, v).Done? <==>
              && ReadInt32(b, header - 4).Done?
              && var size := ReadInt32(b, header - 4).value;
              && Sub(b, header, size).Done? && Decode(t, Sub(b, header, size).value, v).Done?
              && Plus(header, size).Done? && From(b, Plus(header, size).value).Done?
    ensures DecodeFramed(t, header, b, v).Done? ==>
              var size := ReadInt32(b, header - 4).value;
              && DecodeFramed(t, header, b, v).value.0 == Decode(t, Sub(b, header, size).value, v).value
              && DecodeFramed(t, header, b, v).value.1 == From(b, Plus(header, size).value).value
  {
    hide HasType, ReadInt32, Sub, Decode, Plus, From;
  }

  lemma ReadFitting(p: seq<byte>, header: nat, head: seq<byte>, n: nat, body: seq<byte>, rest: seq<byte>)
    requires header >= 4 && |head| == header - 4 && |body| == n && header + n < TWO_31
    requires CutOf(p, head + (Word32(n) + (body + rest)))
    ensures CutOf(body, body)
    ensures |p| < header ==> !ReadInt32(p, header - 4).Done?
    ensures |p| >= header ==>
              && ReadInt32(p, header - 4) == Done(n)
              && Sub(p, header, n) == (if |p| >= header + n then Done(body) else Undefined)
    ensures |p| >= header + n ==>
              Plus(header, n) == Done(header + n) && From(p, header + n) == Done(p[header + n..])
                  && CutOf(p[header + n..], rest)
    ensures p == head + (Word32(n) + (body + rest)) <==> |p| >= header + n && p[header + n..] == rest
  {
    FitsInt32(n);
    ReadCutSize(p, header, head, n, body + rest);
    var front := head + Word32(n);
    assert head + (Word32(n) + (body + rest)) == front + (body + rest);
    hide Word32, ReadInt32, ToInt32;
    if |p| >= header {
      var q := p[header..];
      assert p == front + q by {
        assert p[..header] == front;
      }
      SplitCut(q, n, body, rest);
      assert p == front + (body + rest) <==> q == body + rest;
      assert |q| >= n ==> p[header + n..] == q[n..] && p[header..header + n] == q[..n];
    }
  }

  lemma SplitCut(q: seq<byte>, n: nat, body: seq<byte>, rest: seq<byte>)
    requires |body| == n && q <= body + rest
    ensures |q| >= n ==> q[..n] == body && q[n..] <= rest
    ensures q == body + rest <==> |q| >= n && q[n..] == rest
  {
    if |q| >= n {
      assert q == q[..n] + q[n..];
      assert q[..n] == (body + rest)[..n] == body;
    }
  }

  /** A length that reads -1 takes the rest, and leaves the decoder on its own last byte. */
  lemma {:induction false} OpenReadsBack(
      omp: OidMap, t: Type, v: Value, start: Value, header: nat, head: seq<byte>, rest: seq<byte>, p: seq<byte>)
    requires t.WellFormed() && HasType(v, t) && HasType(start, t) && ReadsMinusOne(SizeOf(t, v))
    requires header in {4, 8} && |head| == header - 4
    requires CutOf(p, head + (Word32(SizeOf(t, v)) + (Encode(omp, t, v) + rest)))
    ensures var r, full := DecodeFramed(t, header, p, start), head + (Word32(SizeOf(t, v))
        + (Encode(omp, t, v) + rest));
            && (r.Done? ==> |p| >= header && p[header - 1] == 255 && r.value.1 == p[header - 1..])
            && (rest == [] && p == full && Survives(t, v) ==> r.Done? && r.value.0 == Over(t, v, start))
            && (rest == [] && Settled(t, v, start) && r.Done? && r.value.0 == Canon(t, v) ==>
                  p == full && Survives(t, v))
            && (rest != [] && t.Text? && Settled(t, v, start) ==> !(r.Done? && r.value.0 == Canon(t, v)))
    decreases t, 1
  {
    hide *;
    var n, body := SizeOf(t, v), Encode(omp, t, v);
    SizeIsExact(omp, t, v);
    ReadOpen(p, header, head, n, body, rest);
    if |p| >= header && rest == [] {
      ReadsBack(omp, t, v, start, p[header..]);
    } else if |p| >= header && t.Text? {
      OpenText(t.view, v, start, p[header..]);
    }
    FramedIs(t, header, p, start);
  }

  lemma OpenText(view: bool, v: Value, start: Value, q: seq<byte>)
    requires HasType(v, Text(view)) && HasType(start, Text(view))
    requires |q| > SizeOf(Text(view), v) || |q| + TWO_31 <= SizeOf(Text(view), v)
    ensures Settled(Text(view), v, start) ==> Decode(Text(view), q, start) != Done(Canon(Text(view), v))
  {
    assert |start.chars + q| == |start.chars| + |q|;
  }

  lemma ReadOpen(p: seq<byte>, header: nat, head: seq<byte>, n: nat, body: seq<byte>, rest: seq<byte>)
    requires header in {4, 8} && |head| == header - 4 && |body| == n && ReadsMinusOne(n)
    requires CutOf(p, head + (Word32(n) + (body + rest)))
    ensures |p| < header ==> !ReadInt32(p, header - 4).Done?
    ensures |p| >= header ==>
              && ReadInt32(p, header - 4) == Done(-1) && p[header - 1] == 255
              && Sub(p, header, -1) == Done(p[header..])
              && Plus(header, -1) == Done(header - 1) && From(p, header - 1) == Done(p[header - 1..])
              && (rest != [] ==> |p[header..]| > n || |p[header..]| + TWO_31 <= n)
              && (rest == [] ==> CutOf(p[header..], body))
              && (rest == [] ==> (p == head + (Word32(n) + (body + rest)) <==> p[header..] == body))
    ensures |p| < header ==> p != head + (Word32(n) + (body + rest))
  {
    ReadCutSize(p, header, head, n, body + rest);
    assert ToInt32(n) == -1;
    hide Word32, ReadInt32, ToInt32;
    var full := head + (Word32(n) + (body + rest));
    assert full[header..] == body + rest;
    if |p| >= header {
      assert p[..header] == full[..header];
      if rest == [] && p[header..] == body {
        assert |p| == |full| && p == full;
      }
    }
  }

  /** A length that is cut hands the decoder too little, or a sum that overflows. */
  lemma {:induction false} CutReadsBack(
      omp: OidMap, t: Type, v: Value, start: Value, header: nat, head: seq<byte>, rest: seq<byte>, p: seq<byte>)
    requires t.WellFormed() && HasType(v, t) && HasType(start, t) && !Framed(header, SizeOf(t, v), true)
    requires header in {4, 8} && |head| == header - 4
    requires CutOf(p, head + (Word32(SizeOf(t, v)) + (Encode(omp, t, v) + rest)))
    ensures var r := DecodeFramed(t, header, p, start);
            Settled(t, v, start) && r.Done? ==> r.value.0 != Canon(t, v)
    decreases t, 1
  {
    var n, body := SizeOf(t, v), Encode(omp, t, v);
    SizeIsExact(omp, t, v);
    ReadCut(p, header, head, n, body, rest);
    FramedIs(t, header, p, start);
    hide *;
    var q := Sub(p, header, ToInt32(n));
    if |p| >= header && q.Done? && Plus(header, ToInt32(n)).Done? {
      ReadsBack(omp, t, v, start, q.value);
    }
  }

  lemma ReadCut(p: seq<byte>, header: nat, head: seq<byte>, n: nat, body: seq<byte>, rest: seq<byte>)
    requires header >= 4 && |head| == header - 4 && |body| == n && !Framed(header, n, true)
    requires CutOf(p, head + (Word32(n) + (body + rest)))
    ensures |p| < header ==> !ReadInt32(p, header - 4).Done?
    ensures |p| >= header ==>
              var size := ToInt32(n);
              && ReadInt32(p, header - 4) == Done(size)
              && (Sub(p, header, size).Done? && Plus(header, size).Done? ==>
                    CutOf(Sub(p, header, size).value, body) && Sub(p, header, size).value != body)
  {
    ReadCutSize(p, header, head, n, body + rest);
    var size := ToInt32(n);
    hide Word32, ReadInt32;
    if 0 <= size && header + size < TWO_31 && |p| >= header + size {
      assert size < n;
      assert p[header..header + size] == body[..size];
    }
  }

  lemma LoadFour(b: seq<byte>)
    requires |b| == 4
    ensures Load(b) == ((b[0] as int * 256 + b[1]) * 256 + b[2]) * 256 + b[3]
  {
    assert b[..3][..2][..1][..0] == [];
    assert Load(b[..3][..2][..1]) == b[0];
    assert Load(b[..3][..2]) == b[0] as int * 256 + b[1];
    assert Load(b[..3]) == (b[0] as int * 256 + b[1]) * 256 + b[2];
  }

  /** A word that starts on the last byte of a length word -1 is no OID the decoder expects. */
  lemma ClashesAfterOpen(t: Type, p: seq<byte>)
    requires p != [] && p[0] == 255 && ExpectedOid(t) != 0
    ensures !VerifyOid(p, 0, ExpectedOid(t)).Done?
  {
    if |p| >= 4 {
      LoadFour(p[0..][..4]);
    }
    hide Load;
  }

  // Arrays

  lemma {:induction false} ArrayReadsBack(omp: OidMap, e: Type, vs: seq<Value>, before: seq<Value>, p: seq<byte>)
    requires e.WellFormed() && !e.Array? && AllHaveType(vs, e) && AllHaveType(before, e)
    requires CutOf(p, EncodeArray(omp, e, vs))
    ensures var r, starts := DecodeArray(e, p, before), Resize(e, before, |vs|);
            && (p == EncodeArray(omp, e, vs) && |vs| < TWO_31 && ElemsSurvive(e, vs) ==>
                  r == Done(Elems(OverElems(e, vs, starts))))
            && (ElemsSettled(e, vs, starts) && r == Done(Elems(CanonElems(e, vs))) ==>
                  p == EncodeArray(omp, e, vs) && |vs| < TWO_31 && ElemsSurvive(e, vs))
    decreases e, 3 + |vs|
  {
    hide *;
    var count, starts := ToInt32(|vs|), Resize(e, before, |vs|);
    CanonKeepsCount(e, vs);
    EncodeArrayIs(omp, e, vs);
    ReadOwnHeader(omp, e, |vs|, EncodeElems(omp, e, vs), before, p);
    if |p| >= 20 && |vs| < TWO_31 {
      FitsInt32(|vs|);
      ElemsReadBack(omp, e, vs, starts, p[20..]);
      RightDone(DecodeElems(e, p[20..], starts), CanonElems(e, vs));
      RightDone(DecodeElems(e, p[20..], starts), OverElems(e, vs, starts));
    } else if |p| >= 20 && count >= 0 {
      DecodesAsMany(e, p[20..], Resize(e, before, count));
    }
  }

  lemma RightDone(o: Outcome<(seq<Value>, seq<byte>)>, vs: seq<Value>)
    ensures Right(o, vs) <==> o.Done? && o.value.0 == vs
  {
  }

  lemma ReadOwnHeader(omp: OidMap, e: Type, n: nat, full: seq<byte>, before: seq<Value>, p: seq<byte>)
    requires e.WellFormed() && AllHaveType(before, e) && CutOf(p, ArrayHeader(omp, e, n) + full)
    ensures |p| < 20 ==> !DecodeArray(e, p, before).Done? && p != ArrayHeader(omp, e, n) + full
    ensures |p| >= 20 ==>
              && CutOf(p[20..], full) && (p == ArrayHeader(omp, e, n) + full <==> p[20..] == full)
              && var r, count := DecodeArray(e, p, before), ToInt32(n);
                 && (r.Done? <==> count >= 0 && DecodeElems(e, p[20..], Resize(e, before, count)).Done?)
                 && (r.Done? ==> r.value == Elems(DecodeElems(e, p[20..], Resize(e, before, count)).value.0))
  {
    hide DecodeElems, HasType, AllHaveType, Resize, Default, ToInt32, ArrayHeader;
    if |p| >= 20 {
      assert p[..20] == ArrayHeader(omp, e, n);
      assert p == ArrayHeader(omp, e, n) + p[20..];
      ReadArray(omp, e, e, n, p[20..], before);
      hide DecodeArray;
    }
  }

  lemma {:induction false} DecodesAsMany(e: Type, b: seq<byte>, start: seq<Value>)
    requires AllHaveType(start, e)
    ensures DecodeElems(e, b, start).Done? ==> |DecodeElems(e, b, start).value.0| == |start|
    decreases |start|
  {
    hide HasType, DecodeFramed;
    if start != [] {
      var x := DecodeFramed(e, 4, b, start[0]);
      if x.Done? {
        DecodesAsMany(e, x.value.1, start[1..]);
      }
    }
  }

  lemma {:induction false} CanonKeepsCount(e: Type, vs: seq<Value>)
    requires AllHaveType(vs, e)
    ensures |CanonElems(e, vs)| == |vs|
  {
    hide HasType, Canon;
    if vs != [] {
      CanonKeepsCount(e, vs[1..]);
    }
  }

  lemma {:induction false} ElemsReadBack(omp: OidMap, e: Type, vs: seq<Value>, starts: seq<Value>, p: seq<byte>)
    requires e.WellFormed() && !e.Array? && AllHaveType(vs, e) && CutOf(p, EncodeElems(omp, e, vs))
    requires AllHaveType(starts, e) && |starts| == |vs|
    ensures var r := DecodeElems(e, p, starts);
            && (p == EncodeElems(omp, e, vs) && ElemsSurvive(e, vs) ==> Right(r, OverElems(e, vs, starts)))
            && (ElemsSettled(e, vs, starts) && Right(r, CanonElems(e, vs)) ==>
                  p == EncodeElems(omp, e, vs) && ElemsSurvive(e, vs))
    decreases e, 2 + |vs|
  {
    hide *;
    if vs == [] {
      EmptyElemsReadBack(omp, e, vs, p, starts);
    } else {
      SplitElems(e, vs);
      SplitElems(e, starts);
      var v, start, n, rest := vs[0], starts[0], SizeOf(e, vs[0]), EncodeElems(omp, e, vs[1..]);
      ElemsParts(omp, e, vs, starts);
      RightElems(e, starts, p, Canon(e, v), CanonElems(e, vs[1..]));
      RightElems(e, starts, p, Over(e, v, start), OverElems(e, vs[1..], starts[1..]));
      if 4 + n < TWO_31 {
        FittingReadsBack(omp, e, v, start, 4, [], rest, p);
        if |p| >= 4 + n {
          ElemsReadBack(omp, e, vs[1..], starts[1..], p[4 + n..]);
        }
      } else if ReadsMinusOne(n) {
        OpenReadsBack(omp, e, v, start, 4, [], rest, p);
        OpenElemReadsBack(omp, e, v, rest, p, starts[1..]);
      } else {
        NotFramed(4, n);
        CutReadsBack(omp, e, v, start, 4, [], rest, p);
      }
    }
  }

  lemma NotFramed(header: nat, n: nat)
    requires header + n >= TWO_31 && !ReadsMinusOne(n)
    ensures !Framed(header, n, true)
  {
  }

  lemma ElemsParts(omp: OidMap, e: Type, vs: seq<Value>, starts: seq<Value>)
    requires vs != [] && AllHaveType(vs, e) && HasType(vs[0], e) && AllHaveType(vs[1..], e)
    requires |starts| == |vs| && AllHaveType(starts, e) && HasType(starts[0], e) && AllHaveType(starts[1..], e)
    ensures var n, rest := SizeOf(e, vs[0]), EncodeElems(omp, e, vs[1..]);
            && EncodeElems(omp, e, vs) == [] + (Word32(n) + (Encode(omp, e, vs[0]) + rest))
            && CanonElems(e, vs) == [Canon(e, vs[0])] + CanonElems(e, vs[1..])
            && OverElems(e, vs, starts) == [Over(e, vs[0], starts[0])] + OverElems(e, vs[1..], starts[1..])
            && (ElemsSurvive(e, vs) <==>
                  && Survives(e, vs[0]) && (4 + n < TWO_31 || (|vs| == 1 && ReadsMinusOne(n)))
                  && ElemsSurvive(e, vs[1..]))
            && (ElemsSettled(e, vs, starts) ==> Settled(e, vs[0], starts[0]) && ElemsSettled(e, vs[1..], starts[1..]))
            && (|vs| == 1 ==> rest == [] && CanonElems(e, vs[1..]) == [] && ElemsSurvive(e, vs[1..]))
            && (|vs| == 1 ==> OverElems(e, vs[1..], starts[1..]) == [])
            && (|vs| > 1 ==> rest != [])
  {
    hide HasType, SizeOf, Encode, Survives, Canon, Over, Settled, Word32;
    if |vs| > 1 {
      assert vs[1..] != [] && |EncodeElem(omp, e, vs[1..][0])| >= 4;
    }
  }

  lemma EmptyElemsReadBack(omp: OidMap, e: Type, vs: seq<Value>, p: seq<byte>, starts: seq<Value>)
    requires vs == [] == starts && AllHaveType(vs, e) && AllHaveType(starts, e) && CutOf(p, EncodeElems(omp, e, vs))
    ensures p == EncodeElems(omp, e, vs) && ElemsSurvive(e, vs)
    ensures Right(DecodeElems(e, p, starts), OverElems(e, vs, starts))
  {
  }

  lemma RightElems(e: Type, start: seq<Value>, p: seq<byte>, y: Value, ys: seq<Value>)
    requires start != [] && AllHaveType(start, e)
    ensures Right(DecodeElems(e, p, start), [y] + ys) <==>
            var x := DecodeFramed(e, 4, p, start[0]);
            x.Done? && x.value.0 == y && Right(DecodeElems(e, x.value.1, start[1..]), ys)
  {
    hide DecodeFramed, HasType;
    var x := DecodeFramed(e, 4, p, start[0]);
    if x.Done? && DecodeElems(e, x.value.1, start[1..]).Done? {
      SameCons(x.value.0, DecodeElems(e, x.value.1, start[1..]).value.0, y, ys);
    }
  }

  /** Behind a length that reads -1: the last element ends the array, a later one is not read. */
  lemma OpenElemReadsBack(omp: OidMap, e: Type, v: Value, rest: seq<byte>, p: seq<byte>, start: seq<Value>)
    requires HasType(v, e) && AllHaveType(start, e) && !e.Array? && e.WellFormed()
    requires ReadsMinusOne(SizeOf(e, v))
    requires CutOf(p, [] + (Word32(SizeOf(e, v)) + (Encode(omp, e, v) + rest)))
    ensures |p| >= 4 && start == [] ==> Right(DecodeElems(e, p[3..], start), [])
    ensures |p| >= 4 && p[3] == 255 && start != [] && !e.Text? ==>
              forall ys :: !Right(DecodeElems(e, p[3..], start), ys)
  {
    assert [] + (Word32(SizeOf(e, v)) + (Encode(omp, e, v) + rest))
        == Word32(SizeOf(e, v)) + (Encode(omp, e, v) + rest);
    hide HasType, SizeOf, Encode, DecodeFramed, Word32;
    if |p| >= 4 && p[3] == 255 && start != [] && !e.Text? {
      OpenElemIsLost(omp, e, v, rest, p, start[0]);
    }
  }

  /** An element that takes the rest, with elements behind it, is wrong itself, or what then
      stands for the length of the next is below -1. */
  lemma OpenElemIsLost(omp: OidMap, e: Type, v: Value, rest: seq<byte>, p: seq<byte>, next: Value)
    requires HasType(v, e) && HasType(next, e) && !e.Text? && !e.Array? && e.WellFormed()
    requires ReadsMinusOne(SizeOf(e, v)) && |p| >= 4 && p[3] == 255
    requires p <= Word32(SizeOf(e, v)) + (Encode(omp, e, v) + rest)
    ensures DecodeFramed(e, 4, p[3..], next).Undefined?
  {
    var q := p[3..];
    SizeIsExact(omp, e, v);
    if |p| >= 7 {
      var w := q[0..][..4];
      assert e.Tuple? || e.Udt?;
      SmallFirstByte(|e.members|);
      assert w[0] == 255 && w[1] == p[4] == Encode(omp, e, v)[0] == Word32(|e.members|)[0];
      LoadFour(w);
      hide HasType, SizeOf, Encode, Decode, Word32, Load;
      assert ReadInt32(q, 0) == Done(LoadInt32(w)) && LoadInt32(w) < -1;
    } else {
      hide HasType, SizeOf, Encode, Decode, Word32, Load;
      assert ReadInt32(q, 0) == Undefined;
    }
  }

  lemma SmallFirstByte(x: nat)
    requires x < TWO_31
    ensures Word32(x)[0] < 128
  {
    LoadWord32(x);
    LoadFour(Word32(x));
    hide Word32, Load;
  }

  // The law

  /** Decoding the encoding of a value that survives, over any value of its type. */
  lemma DecodesOver(omp: OidMap, t: Type, v: Value, start: Value)
    requires t.WellFormed() && HasType(v, t) && HasType(start, t) && Survives(t, v)
    ensures Decode(t, Encode(omp, t, v), start) == Done(Over(t, v, start))
  {
    ReadsBack(omp, t, v, start, Encode(omp, t, v));
  }

  /** Reading a field that holds the encoding of a value that survives, for every type and every
      OID map: the value comes over `T{}`, and so it is given back, time points cut to
      microseconds, exactly if every string in there that it is appended to is empty. */
  lemma RoundTrip(omp: OidMap, t: Type, v: Value)
    requires t.WellFormed() && HasType(v, t) && Survives(t, v)
    ensures var r := AsSpec(t, OidOf(omp, t), Encode(omp, t, v));
            && r == Done(Over(t, v, Default(t)))
            && (r == Done(Canon(t, v)) <==> Clear(t, v, Default(t)))
            && (NoTimes(t) ==> (r == Done(v) <==> Clear(t, v, Default(t))))
  {
    DecodesOver(omp, t, v, Default(t));
    OverIffClear(t, v, Default(t));
    if NoTimes(t) {
      CanonWithoutTimes(t, v);
    }
    hide Decode, Encode, Over, Canon, Clear, Default;
  }

  /** Nothing else is given back, whatever its size: the condition on lengths, counts and
      initial strings is exact. */
  lemma RoundTripIff(omp: OidMap, t: Type, v: Value)
    requires t.WellFormed() && HasType(v, t) && Settled(t, v, Default(t))
    ensures AsSpec(t, OidOf(omp, t), Encode(omp, t, v)) == Done(Canon(t, v))
            <==> Survives(t, v) && Clear(t, v, Default(t))
  {
    ReadsBack(omp, t, v, Default(t), Encode(omp, t, v));
    OverIffClear(t, v, Default(t));
    hide Decode, Encode, Over, Canon, Clear, Default, Settled, Survives;
  }

  /** Without user-defined parts only lengths and counts matter. */
  lemma UdtFreeRoundTripIff(omp: OidMap, t: Type, v: Value)
    requires t.WellFormed() && HasType(v, t) && UdtFree(t)
    ensures AsSpec(t, OidOf(omp, t), Encode(omp, t, v)) == Done(Canon(t, v)) <==> Survives(t, v)
  {
    UdtFreeIsPlain(t, v);
    RoundTripIff(omp, t, v);
  }

  /** libpq gives a field's length as an `int`: what can be received at all survives, so only
      the initial strings matter. */
  lemma ReceivableRoundTrip(omp: OidMap, t: Type, v: Value)
    requires t.WellFormed() && HasType(v, t) && SizeOf(t, v) < TWO_31
    ensures var r := AsSpec(t, OidOf(omp, t), Encode(omp, t, v));
            r == Done(Over(t, v, Default(t))) && (r == Done(Canon(t, v)) <==> Clear(t, v, Default(t)))
    ensures UdtFree(t) ==> AsSpec(t, OidOf(omp, t), Encode(omp, t, v)) == Done(Canon(t, v))
  {
    SmallFits(t, v);
    FitsSurvives(t, v);
    RoundTrip(omp, t, v);
    if UdtFree(t) {
      UdtFreeIsPlain(t, v);
    }
    hide Decode, Encode, Over, Canon, Clear, Default, Settled, Survives;
  }

  /** A class with one string member that is initially "new". */
  const JOB: Type := Udt(0, "job", [Text(false)], [Chars([110, 101, 119])])

  /** The initial string stays in front of every one that is received. */
  lemma InitializerStays(omp: OidMap, chars: seq<byte>)
    requires |chars| < TWO_31 - 12
    ensures var v, read := Fields([Chars(chars)]), Fields([Chars([110, 101, 119] + chars)]);
            && JOB.WellFormed() && HasType(v, JOB) && read != v
            && AsSpec(JOB, OidOf(omp, JOB), Encode(omp, JOB, v)) == Done(read)
  {
    var v := Fields([Chars(chars)]);
    JobIsWellFormed();
    assert HasType(Chars(chars), Text(false)) && HaveTypes([Chars(chars)], [Text(false)]);
    assert Survives(JOB, v) by {
      assert SizeOf(Text(false), Chars(chars)) == |chars|;
      assert MembersSurvive([], []);
    }
    RoundTrip(omp, JOB, v);
    JobOver(chars);
    hide Decode, Encode, AsSpec, Over, Default, Survives;
    assert |[110, 101, 119] + chars| != |chars|;
    assert Fields([Chars([110, 101, 119] + chars)]).fields[0] != v.fields[0];
  }

  lemma JobIsWellFormed()
    ensures JOB.WellFormed() && Default(JOB) == Fields([Chars([110, 101, 119])])
  {
    assert HasType(Chars([110, 101, 119]), Text(false));
    assert HaveTypes([Chars([110, 101, 119])], [Text(false)]);
  }

  lemma JobOver(chars: seq<byte>)
    ensures HasType(Fields([Chars(chars)]), JOB)
    ensures Over(JOB, Fields([Chars(chars)]), Default(JOB)) == Fields([Chars([110, 101, 119] + chars)])
  {
    JobIsWellFormed();
    hide Default;
    assert HasType(Chars(chars), Text(false)) && HasType(Chars([110, 101, 119]), Text(false));
    assert OverMembers([], [], []) == [];
    assert OverMembers([Text(false)], [Chars(chars)], [Chars([110, 101, 119])]) == [Chars([110, 101, 119] + chars)];
  }

  lemma {:induction false} FitsSurvives(t: Type, v: Value)
    requires HasType(v, t) && Fits(t, v)
    ensures Survives(t, v)
    decreases t, 0
  {
    match t
    case Tuple(ms) => MembersFitSurvive(ms, v.fields);
    case Udt(_, _, ms, _) => MembersFitSurvive(ms, v.fields);
    case Array(e) => ElemsFitSurvive(e, v.elems);
    case _ =>
  }

  lemma {:induction false} MembersFitSurvive(ts: seq<Type>, vs: seq<Value>)
    requires HaveTypes(vs, ts) && MembersFit(ts, vs)
    ensures MembersSurvive(ts, vs)
    decreases ts, 1
  {
    if ts != [] {
      FitsSurvives(ts[0], vs[0]);
      MembersFitSurvive(ts[1..], vs[1..]);
    }
  }

  lemma {:induction false} ElemsFitSurvive(e: Type, vs: seq<Value>)
    requires AllHaveType(vs, e) && ElemsFit(e, vs)
    ensures ElemsSurvive(e, vs)
    decreases e, 1 + |vs|
  {
    if vs != [] {
      FitsSurvives(e, vs[0]);
      ElemsFitSurvive(e, vs[1..]);
    }
  }

  /** A value whose whole encoding is shorter than 2^31 bytes fits, so it survives. */
  lemma {:induction false} SmallFits(t: Type, v: Value)
    requires HasType(v, t) && SizeOf(t, v) < TWO_31
    ensures Fits(t, v)
    decreases t, 0
  {
    match t
    case Tuple(ms) => SmallMembersFit(ms, v.fields);
    case Udt(_, _, ms, _) => SmallMembersFit(ms, v.fields);
    case Array(e) => SmallElemsFit(e, v.elems);
    case _ =>
  }

  lemma {:induction false} SmallMembersFit(ts: seq<Type>, vs: seq<Value>)
    requires HaveTypes(vs, ts) && MembersSize(ts, vs) < TWO_31
    ensures MembersFit(ts, vs)
    decreases ts, 1
  {
    if ts != [] {
      SmallFits(ts[0], vs[0]);
      SmallMembersFit(ts[1..], vs[1..]);
      assert forall i | 0 < i < |ts| :: ts[i] == ts[1..][i - 1] && vs[i] == vs[1..][i - 1];
    }
  }

  lemma {:induction false} SmallElemsFit(e: Type, vs: seq<Value>)
    requires AllHaveType(vs, e) && ElemsSize(e, vs) < TWO_31
    ensures ElemsFit(e, vs) && 4 * |vs| <= ElemsSize(e, vs)
    decreases e, 1 + |vs|
  {
    if vs != [] {
      SmallFits(e, vs[0]);
      SmallElemsFit(e, vs[1..]);
      assert forall i | 0 < i < |vs| :: vs[i] == vs[1..][i - 1];
    }
  }

  /** The condition for a tuple around one text. */
  lemma TextMemberSurvivesIff(omp: OidMap, chars: seq<byte>)
    ensures HasType(Fields([Chars(chars)]), Tuple([Text(false)]))
    ensures var t, v := Tuple([Text(false)]), Fields([Chars(chars)]);
            AsSpec(t, OidOf(omp, t), Encode(omp, t, v)) == Done(v)
            <==> |chars| < TWO_31 - 8 || |chars| % TWO_32 == TWO_32 - 1
  {
    var t, v := Tuple([Text(false)]), Fields([Chars(chars)]);
    assert HasType(Chars(chars), Text(false)) && SizeOf(Text(false), Chars(chars)) == |chars|;
    UdtFreeRoundTripIff(omp, t, v);
    CanonWithoutTimes(t, v);
    hide Decode, Encode, Canon;
    assert MembersSurvive([], []);
  }

  /** The shortest text that a tuple around it does not bring back. */
  lemma LongTextIsLost(omp: OidMap)
    ensures var t, v := Tuple([Text(false)]), Fields([Chars(seq(TWO_31 - 8, i => 0))]);
            HasType(v, t) && AsSpec(t, OidOf(omp, t), Encode(omp, t, v)) != Done(v)
  {
    hide Decode, Encode, HasType, Default, OidOf, ExpectedOid;
    TextMemberSurvivesIff(omp, seq(TWO_31 - 8, i => 0));
  }

  /** Decoding a string adds to what is there, which is why `as` starts from `T{}`; a string
      view is assigned. */
  lemma TextAppends(b: seq<byte>, before: seq<byte>)
    ensures Decode(Text(false), b, Chars(before)) == Done(Chars(before + b))
    ensures Decode(Text(false), b, Chars(before)) == AsSpec(Text(false), 25, b) <==> before == []
    ensures Decode(Text(true), b, Chars(before)) == AsSpec(Text(true), 25, b)
  {
    assert Decode(Text(false), b, Default(Text(false))) == Done(Chars([] + b));
    if before == [] {
      assert before + b == [] + b;
    } else {
      assert |before + b| != |[] + b|;
    }
  }
}
