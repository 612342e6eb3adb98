/** What PostgreSQL's own catalog says of the types the library encodes. */
module PgTypes {
  import opened Words
  import opened Types
  import opened Serialization
  import opened OidResolution

  /** A row of `pg_type`: OID, OID of the array type, and length, -1 if it varies. */
  datatype PgType = PgType(oid: u32, arrayOid: u32, length: int)

  /** Rows that every server has (`pg_type.dat` of PostgreSQL 15). */
  const PG_TYPE: map<string, PgType> := map[
    "bool" := PgType(16, 1000, 1),
    "bytea" := PgType(17, 1001, -1),
    "\"char\"" := PgType(18, 1002, 1),
    "int8" := PgType(20, 1016, 8),
    "int2" := PgType(21, 1005, 2),
    "int4" := PgType(23, 1007, 4),
    "text" := PgType(25, 1009, -1),
    "oid" := PgType(26, 1028, 4),
    "float4" := PgType(700, 1021, 4),
    "float8" := PgType(701, 1022, 8),
    "timestamp" := PgType(1114, 1115, 8),
    "record" := PgType(2249, 2287, -1)]

  /** The name of the type in SQL. */
  function TypeName(t: Type): string {
    match t
    case Word(U32) => "oid"
    case Word(Bool) => "bool"
    case Word(Byte) => "bytea"
    case Word(Char) => "\"char\""
    case Word(I64) => "int8"
    case Word(I16) => "int2"
    case Word(I32) => "int4"
    case Word(F32) => "float4"
    case Word(F64) => "float8"
    case Text(_) => "text"
    case TimePoint => "timestamp"
    case Tuple(_) => "record"
    case Udt(_, name, _, _) => name
    case Array(e) => TypeName(e) + "[]"
  }

  /** The catalog has the built-in types as every server does. */
  ghost predicate Standard(catalog: Catalog) {
    forall name | name in PG_TYPE ::
      && name in catalog && catalog[name] == PG_TYPE[name].oid
      && name + "[]" in catalog && catalog[name + "[]"] == PG_TYPE[name].arrayOid
  }

  /** The OIDs compiled into the library are PostgreSQL's, in both directions and whatever is in
      the map, and a type of fixed length is encoded in that length. */
  lemma BuiltinsAreStandard(omp: OidMap, t: Type)
    requires !t.Udt? && !t.Array?
    ensures TypeName(t) in PG_TYPE
    ensures OidOf(omp, t) == ExpectedOid(t) == PG_TYPE[TypeName(t)].oid
    ensures OidOf(omp, Array(t)) == ExpectedOid(Array(t)) == PG_TYPE[TypeName(t)].arrayOid
    ensures forall v | HasType(v, t) && PG_TYPE[TypeName(t)].length >= 0 :: SizeOf(t, v) == PG_TYPE[TypeName(t)].length
    ensures t == Word(Byte) ==> forall v | HasType(v, t) :: SizeOf(t, v) == 1
  {
    hide HasType;
  }

  /** With a sound map the OID passed for any type, built-in or user-defined, single or array,
      is the one the server's catalog has for the type's name. */
  lemma OidIsTheCatalogs(catalog: Catalog, names: map<TypeIndex, string>, omp: OidMap, t: Type)
    requires Standard(catalog) && Sound(catalog, names, omp)
    requires t.WellFormed() && Known(omp, t) && Declared(names, [t])
    ensures TypeName(t) in catalog && OidOf(omp, t) == catalog[TypeName(t)]
  {
    var e := if t.Array? then t.elem else t;
    if e.Udt? {
      UdtOids(catalog, names, omp, t, e);
    } else {
      hide Sound, Declared;
      BuiltinsAreStandard(omp, e);
    }
  }

  /** After any history of queries, with lookups of every outcome: a user-defined type that is in
      the map is passed as the type of that name, and an array of it as the type of that name
      with brackets. */
  lemma RunOids(catalog: Catalog, names: map<TypeIndex, string>, steps: seq<Step>, u: Type)
    requires AllDeclared(names, steps) && Declared(names, [u])
    requires u.Udt? && u.id in Run(catalog, steps).omp
    ensures var omp := Run(catalog, steps).omp;
            && u.name in catalog && OidOf(omp, u) == catalog[u.name]
            && u.name + "[]" in catalog && OidOf(omp, Array(u)) == catalog[u.name + "[]"]
  {
    RunSound(catalog, names, steps);
    UdtOids(catalog, names, Run(catalog, steps).omp, u, u);
  }

  /** The OID word in front of a member. */
  lemma MemberOid(catalog: Catalog, names: map<TypeIndex, string>, omp: OidMap, ts: seq<Type>, vs: seq<Value>, i: nat)
    requires Standard(catalog) && Sound(catalog, names, omp) && HaveTypes(vs, ts) && i < |ts|
    requires ts[i].WellFormed() && Known(omp, ts[i]) && Declared(names, [ts[i]])
    ensures var b, at := EncodeComposite(omp, ts, vs), 4 + MembersSize(ts[..i], vs[..i]);
            && at + 4 <= |b| && TypeName(ts[i]) in catalog && LoadU32(b[at..at + 4]) == catalog[TypeName(ts[i])]
  {
    hide *;
    OidIsTheCatalogs(catalog, names, omp, ts[i]);
    TypedMember(ts, vs, i);
    MemberFraming(omp, ts, vs, i);
    OidFits(omp, ts[i]);
    FirstWord(EncodeComposite(omp, ts, vs), 4 + MembersSize(ts[..i], vs[..i]), OidOf(omp, ts[i]), SizeOf(ts[i], vs[i]));
  }

  lemma TypedMember(ts: seq<Type>, vs: seq<Value>, i: nat)
    requires HaveTypes(vs, ts) && i < |ts|
    ensures |vs| == |ts| && HasType(vs[i], ts[i])
    ensures HaveTypes(vs[..i], ts[..i]) && HaveTypes(vs[..i + 1], ts[..i + 1])
  {
    hide HasType;
  }

  lemma FirstWord(b: seq<byte>, at: nat, x: nat, y: nat)
    requires at + 8 <= |b| && b[at..at + 8] == Word32(x) + Word32(y) && x < TWO_32
    ensures LoadU32(b[at..at + 4]) == x
  {
    hide Word32, LoadU32;
    assert b[at..at + 4] == b[at..at + 8][..4] == Word32(x);
    ReadWord32(x);
  }

  lemma OidFits(omp: OidMap, t: Type)
    ensures 0 <= OidOf(omp, t) < TWO_32
  {
  }
}
