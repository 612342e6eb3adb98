/** The C++ types the codec accepts, their values, and their PostgreSQL OIDs. */
module Types {
  import opened Words
  import TimePoints

  type TypeIndex = nat

  datatype Option<+T> = None | Some(value: T)

  /** The integral, floating point and byte types that have a `builtin`. */
  datatype Kind = U32 | Bool | Byte | Char | I64 | I16 | I32 | F32 | F64 {
    function Width(): (w: nat)
      ensures w in {1, 2, 4, 8}
    {
      match this
      case Bool => 1
      case Byte => 1
      case Char => 1
      case I16 => 2
      case U32 => 4
      case I32 => 4
      case F32 => 4
      case I64 => 8
      case F64 => 8
    }
  }

  /** `Text` is `std::string`, or with `view` `std::string_view`; `Udt` is a class with a
      `user_defined` specialization, known by its `type_index`, whose members begin with the
      values of `initial`: those of its default member initializers. */
  datatype Type =
    | Word(kind: Kind)
    | Text(view: bool)
    | TimePoint
    | Tuple(members: seq<Type>)
    | Udt(id: TypeIndex, name: string, members: seq<Type>, initial: seq<Value>)
    | Array(elem: Type)
  {
    /** The types that compile: composites have a member, of which an initial value has its
        type, and arrays do not nest. */
    predicate WellFormed() {
      match this
      case Tuple(ms) => 1 <= |ms| < TWO_31 && forall m | m in ms :: m.WellFormed()
      case Udt(_, _, ms, vs) => 1 <= |ms| < TWO_31 && HaveTypes(vs, ms) && forall m | m in ms :: m.WellFormed()
      case Array(e) => !e.Array? && e.WellFormed()
      case _ => true
    }
  }

  /** A word is its object representation read as an unsigned number, a time point its
      nanoseconds since 1970. */
  datatype Value =
    | Bits(bits: nat)
    | Chars(chars: seq<byte>)
    | Time(ns: int)
    | Fields(fields: seq<Value>)
    | Elems(elems: seq<Value>)

  predicate HasType(v: Value, t: Type)
    decreases t, 0
  {
    match t
    case Word(k) => v.Bits? && v.bits < Pow256(k.Width()) && (k.Bool? ==> v.bits < 2)
    case Text(_) => v.Chars?
    case TimePoint => v.Time? && TimePoints.IsInt64(v.ns)
    case Tuple(ms) => v.Fields? && HaveTypes(v.fields, ms)
    case Udt(_, _, ms, _) => v.Fields? && HaveTypes(v.fields, ms)
    case Array(e) => v.Elems? && AllHaveType(v.elems, e)
  }

  predicate HaveTypes(vs: seq<Value>, ts: seq<Type>)
    decreases ts, 0
  {
    |vs| == |ts| && forall i | 0 <= i < |ts| :: HasType(vs[i], ts[i])
  }

  predicate AllHaveType(vs: seq<Value>, t: Type)
    decreases t, 1
  {
    forall i | 0 <= i < |vs| :: HasType(vs[i], t)
  }

  lemma SplitMembers(ts: seq<Type>, vs: seq<Value>)
    requires ts != [] && HaveTypes(vs, ts)
    ensures vs != [] && HasType(vs[0], ts[0]) && HaveTypes(vs[1..], ts[1..])
  {
    hide HasType;
  }

  lemma SplitElems(e: Type, vs: seq<Value>)
    requires vs != [] && AllHaveType(vs, e)
    ensures HasType(vs[0], e) && AllHaveType(vs[1..], e)
  {
    hide HasType;
  }

  /** The value-initialized `T{}` that decoding starts from. The members of a class have their
      initial values. */
  function Default(t: Type): (v: Value)
    ensures HasType(v, t)
    decreases t, 0
  {
    match t
    case Word(_) => Bits(0)
    case Text(_) => Chars([])
    case TimePoint => Time(0)
    case Tuple(ms) => Fields(Defaults(ms))
    case Udt(_, _, ms, vs) => Fields(if HaveTypes(vs, ms) then vs else Defaults(ms))
    case Array(_) => Elems([])
  }

  function Defaults(ts: seq<Type>): (vs: seq<Value>)
    ensures HaveTypes(vs, ts)
    decreases ts, 0
  {
    if ts == [] then [] else [Default(ts[0])] + Defaults(ts[1..])
  }

  datatype OidPair = OidPair(single: u32, arr: u32)

  type OidMap = map<TypeIndex, OidPair>

  function BuiltinOids(t: Type): OidPair {
    match t
    case Word(U32) => OidPair(26, 1028)
    case Word(Bool) => OidPair(16, 1000)
    case Word(Byte) => OidPair(17, 1001)
    case Word(Char) => OidPair(18, 1002)
    case Word(I64) => OidPair(20, 1016)
    case Word(I16) => OidPair(21, 1005)
    case Word(I32) => OidPair(23, 1007)
    case Word(F32) => OidPair(700, 1021)
    case Word(F64) => OidPair(701, 1022)
    case TimePoint => OidPair(1114, 1115)
    case Text(_) => OidPair(25, 1009)
    case Tuple(_) => OidPair(2249, 2287)
    case Udt(_, _, _, _) => OidPair(0, 0)
    case Array(_) => OidPair(0, 0)
  }

  /** `oid_of<T>(omp)` does not throw. */
  predicate Known(omp: OidMap, t: Type) {
    (t.Udt? ==> t.id in omp) && (t.Array? && t.elem.Udt? ==> t.elem.id in omp)
  }

  /** `oid_of<T>(omp)`, with 0 in the cases where `omp.at` throws. */
  function OidOf(omp: OidMap, t: Type): u32 {
    match t
    case Udt(id, _, _, _) => if id in omp then omp[id].single else 0
    case Array(Udt(id, _, _, _)) => if id in omp then omp[id].arr else 0
    case Array(e) => BuiltinOids(e).arr
    case _ => BuiltinOids(t).single
  }

  /** `oid_of<T>()`, the decoder's expectation; 0 accepts every OID. */
  function ExpectedOid(t: Type): u32 {
    match t
    case Udt(_, _, _, _) => 0
    case Array(Udt(_, _, _, _)) => 0
    case Array(e) => BuiltinOids(e).arr
    case _ => BuiltinOids(t).single
  }
}
