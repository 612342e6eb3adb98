/** How a connection learns the OIDs of user-defined types, over a whole history of queries. */
module OidResolution {
  import opened Words
  import opened Types
  import opened Serialization

  datatype UdtPair = UdtPair(name: string, id: TypeIndex)

  // Extraction

  /** `u` occurs in `t`, at any depth of arrays, tuples and members. */
  ghost predicate Reaches(t: Type, u: Type)
    decreases t, 0
  {
    t == u || match t
              case Tuple(ms) => ReachesAny(ms, u)
              case Udt(_, _, ms, _) => ReachesAny(ms, u)
              case Array(e) => Reaches(e, u)
              case _ => false
  }

  ghost predicate ReachesAny(ts: seq<Type>, u: Type)
    decreases ts, 0
  {
    exists i | 0 <= i < |ts| :: Reaches(ts[i], u)
  }

  /** What `extract_new_udts<T>` pushes. */
  function Extracted(t: Type, omp: OidMap): seq<UdtPair>
    decreases t, 0
  {
    match t
    case Array(e) => Extracted(e, omp)
    case Udt(id, name, ms, _) => (if id in omp then [] else [UdtPair(name, id)]) + ExtractedAll(ms, omp)
    case Tuple(ms) => ExtractedAll(ms, omp)
    case _ => []
  }

  function ExtractedAll(ts: seq<Type>, omp: OidMap): seq<UdtPair>
    decreases ts, 1
  {
    if ts == [] then [] else Extracted(ts[0], omp) + ExtractedAll(ts[1..], omp)
  }

  /** `p` names a user-defined type in `ts` that the map lacks. */
  ghost predicate NewIn(ts: seq<Type>, omp: OidMap, p: UdtPair) {
    p.id !in omp && exists u: Type | u.Udt? && u.id == p.id && u.name == p.name :: ReachesAny(ts, u)
  }

  /** Extraction finds exactly the reachable types the map lacks, also those inside a type
      the map already has. */
  lemma {:induction false} ExtractedIff(t: Type, omp: OidMap, p: UdtPair)
    ensures p in Extracted(t, omp) <==> p.id !in omp && exists u: Type | u.Udt? && u.id == p.id
        && u.name == p.name :: Reaches(t, u)
    decreases t, 0
  {
    match t
    case Array(e) => ExtractedIff(e, omp, p);
    case Udt(id, name, ms, _) =>
      ExtractedAllIff(ms, omp, p);
      if id == p.id && name == p.name {
        assert Reaches(t, t);
      }
    case Tuple(ms) => ExtractedAllIff(ms, omp, p);
    case _ =>
  }

  lemma {:induction false} ExtractedAllIff(ts: seq<Type>, omp: OidMap, p: UdtPair)
    ensures p in ExtractedAll(ts, omp) <==> NewIn(ts, omp, p)
    decreases ts, 1
  {
    if ts != [] {
      ExtractedIff(ts[0], omp, p);
      ExtractedAllIff(ts[1..], omp, p);
      forall u: Type | u.Udt? && u.id == p.id && u.name == p.name
        ensures ReachesAny(ts, u) <==> Reaches(ts[0], u) || ReachesAny(ts[1..], u)
      {
        ReachesAnySplit(ts, u);
      }
    }
  }

  lemma ReachesAnySplit(ts: seq<Type>, u: Type)
    requires ts != []
    ensures ReachesAny(ts, u) <==> Reaches(ts[0], u) || ReachesAny(ts[1..], u)
  {
    if ReachesAny(ts, u) && !Reaches(ts[0], u) {
      var i :| 0 <= i < |ts| && Reaches(ts[i], u);
      assert ts[1..][i - 1] == ts[i];
    }
    if ReachesAny(ts[1..], u) {
      var i :| 0 <= i < |ts[1..]| && Reaches(ts[1..][i], u);
      assert ts[i + 1] == ts[1..][i];
    }
  }

  // Coverage

  ghost predicate Covers(omp: OidMap, ts: seq<Type>) {
    forall u: Type | u.Udt? && ReachesAny(ts, u) :: u.id in omp
  }

  /** A map with every reachable user-defined type makes encoding total: no `omp.at` throws. */
  lemma {:induction false} CoveredResolves(omp: OidMap, t: Type, v: Value)
    requires HasType(v, t)
    requires forall u: Type | u.Udt? && Reaches(t, u) :: u.id in omp
    ensures Known(omp, t) && Resolved(omp, t, v)
    decreases t, 0
  {
    assert Reaches(t, t);
    match t
    case Tuple(ms) => CoveredMembersResolve(omp, t, ms, v.fields);
    case Udt(_, _, ms, _) => CoveredMembersResolve(omp, t, ms, v.fields);
    case Array(e) =>
      assert Reaches(e, e) && Reaches(t, e);
      if e.Array? {
        assert Reaches(e.elem, e.elem) && Reaches(e, e.elem);
      }
      forall i | 0 <= i < |v.elems| ensures Resolved(omp, e, v.elems[i]) {
        CoveredResolves(omp, e, v.elems[i]);
      }
    case _ =>
  }

  lemma {:induction false} CoveredMembersResolve(omp: OidMap, t: Type, ms: seq<Type>, vs: seq<Value>)
    requires HaveTypes(vs, ms)
    requires forall u: Type | u.Udt? && ReachesAny(ms, u) :: u.id in omp
    ensures MembersResolved(omp, ms, vs)
    decreases ms, 1
  {
    forall i | 0 <= i < |ms| ensures Known(omp, ms[i]) && Resolved(omp, ms[i], vs[i]) {
      forall u: Type | u.Udt? && Reaches(ms[i], u) ensures u.id in omp {
        assert ReachesAny(ms, u);
      }
      CoveredResolves(omp, ms[i], vs[i]);
    }
  }

  ghost predicate NoEmptyArray(t: Type, v: Value)
    requires HasType(v, t)
    decreases t, 0
  {
    match t
    case Tuple(ms) => NoneEmpty(ms, v.fields)
    case Udt(_, _, ms, _) => NoneEmpty(ms, v.fields)
    case Array(e) => SomeNoneEmpty(e, v.elems)
    case _ => true
  }

  ghost predicate NoneEmpty(ts: seq<Type>, vs: seq<Value>)
    requires HaveTypes(vs, ts)
    decreases ts, 1
  {
    forall i | 0 <= i < |ts| :: NoEmptyArray(ts[i], vs[i])
  }

  ghost predicate SomeNoneEmpty(t: Type, vs: seq<Value>)
    requires AllHaveType(vs, t)
    decreases t, 1
  {
    vs != [] && forall i | 0 <= i < |vs| :: NoEmptyArray(t, vs[i])
  }

  /** Encoding a value throws exactly if the map lacks some user-defined type that occurs in its
      type, where no array hides one by being empty. */
  lemma ResolvedIffCovered(omp: OidMap, t: Type, v: Value)
    requires HasType(v, t) && NoEmptyArray(t, v)
    ensures Known(omp, t) && Resolved(omp, t, v) <==> forall u: Type | u.Udt? && Reaches(t, u) :: u.id in omp
  {
    if forall u: Type | u.Udt? && Reaches(t, u) :: u.id in omp {
      CoveredResolves(omp, t, v);
    }
    if Known(omp, t) && Resolved(omp, t, v) {
      forall u: Type | u.Udt? && Reaches(t, u) ensures u.id in omp {
        ResolvedCovers(omp, t, v, u);
      }
    }
  }

  lemma {:induction false} ResolvedCovers(omp: OidMap, t: Type, v: Value, u: Type)
    requires HasType(v, t) && NoEmptyArray(t, v) && Known(omp, t) && Resolved(omp, t, v)
    requires u.Udt? && Reaches(t, u)
    ensures u.id in omp
    decreases t
  {
    if t != u {
      match t
      case Tuple(ms) =>
        var i :| 0 <= i < |ms| && Reaches(ms[i], u);
        ResolvedCovers(omp, ms[i], v.fields[i], u);
      case Udt(_, _, ms, _) =>
        var i :| 0 <= i < |ms| && Reaches(ms[i], u);
        ResolvedCovers(omp, ms[i], v.fields[i], u);
      case Array(e) => ResolvedCovers(omp, e, v.elems[0], u);
      case _ =>
    }
  }

  // The OID query

  const NO_OID: u32 := 0xFFFF_FFFF

  /** `pg_type` as the query sees it: `to_regtype(name)::oid`. */
  type Catalog = map<string, u32>

  function RegType(catalog: Catalog, name: string): u32 {
    if name in catalog then catalog[name] else NO_OID
  }

  /** The row the query returns for one name. */
  function RowFor(catalog: Catalog, name: string): OidPair {
    OidPair(RegType(catalog, name), RegType(catalog, name + "[]"))
  }

  /** What the query returns, one row per name in order. */
  function Rows(catalog: Catalog, names: seq<string>): (rows: seq<OidPair>)
    ensures |rows| == |names|
  {
    seq(|names|, i requires 0 <= i < |names| => RowFor(catalog, names[i]))
  }

  function Names(udts: seq<UdtPair>): (names: seq<string>)
    ensures |names| == |udts|
  {
    seq(|udts|, i requires 0 <= i < |udts| => udts[i].name)
  }

  function RowsFor(catalog: Catalog, udts: seq<UdtPair>): (rows: seq<OidPair>)
    ensures |rows| == |udts| && forall i | 0 <= i < |udts| :: rows[i] == RowFor(catalog, udts[i].name)
  {
    Rows(catalog, Names(udts))
  }

  predicate Found(row: OidPair) {
    row.single != NO_OID && row.arr != NO_OID
  }

  /** A row is found exactly if the catalog has both the type and its array type, neither under
      the sentinel, and then it holds their two OIDs in this order. */
  lemma FoundIff(catalog: Catalog, name: string)
    ensures Found(RowFor(catalog, name)) <==>
            && name in catalog && catalog[name] != 0xFFFF_FFFF
            && name + "[]" in catalog && catalog[name + "[]"] != 0xFFFF_FFFF
    ensures Found(RowFor(catalog, name)) ==>
              RowFor(catalog, name) == OidPair(catalog[name], catalog[name + "[]"])
  {
  }

  /** `map::emplace`: an existing entry stays. */
  function Emplace(omp: OidMap, id: TypeIndex, row: OidPair): OidMap {
    if id in omp then omp else omp[id := row]
  }

  /** The map after the loop over the rows, which stops at the first row not found. */
  function Emplaced(omp: OidMap, udts: seq<UdtPair>, rows: seq<OidPair>): OidMap
    requires |rows| == |udts|
    decreases |udts|
  {
    if rows == [] || !Found(rows[0]) then omp
    else Emplaced(Emplace(omp, udts[0].id, rows[0]), udts[1..], rows[1..])
  }

  /** What was in the map stays. Each row in front of the first that has a sentinel gets its type
      an entry, and each new entry is from such a row. */
  lemma {:induction false} EmplacedRows(omp: OidMap, udts: seq<UdtPair>, rows: seq<OidPair>)
    requires |rows| == |udts|
    ensures var out := Emplaced(omp, udts, rows);
            && (forall id | id in omp :: id in out && out[id] == omp[id])
            && (forall id | id in out && id !in omp ::
                  exists i | 0 <= i < |rows| :: udts[i].id == id && out[id] == rows[i])
            && (forall i | 0 <= i < |rows| && (forall k | 0 <= k <= i ::
                  rows[k].single != 0xFFFF_FFFF && rows[k].arr != 0xFFFF_FFFF) :: udts[i].id in out)
    decreases |udts|
  {
    if rows != [] && Found(rows[0]) {
      var next := Emplace(omp, udts[0].id, rows[0]);
      EmplacedRows(next, udts[1..], rows[1..]);
      var out := Emplaced(omp, udts, rows);
      assert out == Emplaced(next, udts[1..], rows[1..]);
      hide Emplaced;
      forall i | 0 <= i < |rows| && (forall k | 0 <= k <= i ::
        rows[k].single != 0xFFFF_FFFF && rows[k].arr != 0xFFFF_FFFF) ensures udts[i].id in out
      {
        if i > 0 {
          assert udts[1..][i - 1] == udts[i];
        }
      }
      forall id | id in out && id !in omp
        ensures exists i | 0 <= i < |rows| :: udts[i].id == id && out[id] == rows[i]
      {
        if id in next {
          assert udts[0].id == id && out[id] == rows[0];
        } else {
          var i :| 0 <= i < |rows[1..]| && udts[1..][i].id == id && out[id] == rows[1..][i];
          assert udts[i + 1].id == id && out[id] == rows[i + 1];
        }
      }
    }
  }

  predicate AllFound(rows: seq<OidPair>) {
    forall i | 0 <= i < |rows| :: Found(rows[i])
  }

  /** The loop gets past row `i`. */
  predicate FoundUpTo(rows: seq<OidPair>, i: nat)
    requires i < |rows|
  {
    forall k | 0 <= k <= i :: Found(rows[k])
  }

  // A connection's history

  /** The two fields the queries of one connection share. `new_udts_` is never cleared. */
  datatype OidState = OidState(omp: OidMap, udts: seq<UdtPair>)

  const START := OidState(map[], [])

  /** What becomes of an OID query, if one is sent: a row for each name, an error that is
      reported, or one that is taken for success, without rows. */
  datatype Response = Answered | Refused | NoRows

  /** One query: the types of its parameters, and the response to the OID query. */
  datatype Step = Step(types: seq<Type>, response: Response)

  datatype Lookup = NotNeeded | Unanswered | Missing | Succeeded | Overlooked

  function Extend(st: OidState, ts: seq<Type>): OidState {
    st.(udts := st.udts + ExtractedAll(ts, st.omp))
  }

  function Ask(catalog: Catalog, st: OidState, step: Step): (OidState, Lookup) {
    var next := Extend(st, step.types);
    var rows := RowsFor(catalog, next.udts);
    if next.udts == [] then (next, NotNeeded)
    else if step.response.Refused? then (next, Unanswered)
    else if step.response.NoRows? then (next, Overlooked)
    else (next.(omp := Emplaced(next.omp, next.udts, rows)), if AllFound(rows) then Succeeded else Missing)
  }

  function Run(catalog: Catalog, steps: seq<Step>): OidState {
    if steps == [] then START
    else Ask(catalog, Run(catalog, steps[..|steps| - 1]), steps[|steps| - 1]).0
  }

  /** A type index stands for one C++ type, so it has one name. */
  ghost predicate Declared(names: map<TypeIndex, string>, ts: seq<Type>) {
    forall u: Type | u.Udt? && ReachesAny(ts, u) :: u.id in names && names[u.id] == u.name
  }

  ghost predicate AllDeclared(names: map<TypeIndex, string>, steps: seq<Step>) {
    forall k | 0 <= k < |steps| :: Declared(names, steps[k].types)
  }

  // Soundness of the map

  /** Every entry holds the OIDs that the catalog has for the type's name and for its array. */
  ghost predicate Sound(catalog: Catalog, names: map<TypeIndex, string>, omp: OidMap) {
    forall id | id in omp ::
      && id in names && names[id] in catalog && names[id] + "[]" in catalog
      && omp[id] == OidPair(catalog[names[id]], catalog[names[id] + "[]"])
      && omp[id].single != 0xFFFF_FFFF && omp[id].arr != 0xFFFF_FFFF
  }

  ghost predicate Named(names: map<TypeIndex, string>, udts: seq<UdtPair>) {
    forall i | 0 <= i < |udts| :: udts[i].id in names && names[udts[i].id] == udts[i].name
  }

  /** `b` has all entries of `a`. */
  predicate Grows(a: OidMap, b: OidMap) {
    forall id | id in a :: id in b && b[id] == a[id]
  }

  /** The loop over the rows: whatever was in the map stays, the map stays sound, and what it
      gains are exactly the types in front of the first row that was not found. */
  lemma {:induction false} EmplacedSound(catalog: Catalog, names: map<TypeIndex, string>, omp: OidMap,
      udts: seq<UdtPair>)
    requires Sound(catalog, names, omp) && Named(names, udts)
    ensures var rows := RowsFor(catalog, udts);
            var out := Emplaced(omp, udts, rows);
            && Sound(catalog, names, out)
            && Grows(omp, out)
            && (forall i | 0 <= i < |udts| && FoundUpTo(rows, i) :: udts[i].id in out)
            && (forall id | id in out ::
                  id in omp || exists i | 0 <= i < |udts| :: udts[i].id == id && FoundUpTo(rows, i))
    decreases |udts|
  {
    hide RowsFor, RowFor, Found;
    var rows := RowsFor(catalog, udts);
    if udts != [] && Found(rows[0]) {
      FoundIff(catalog, udts[0].name);
      var next, tail := Emplace(omp, udts[0].id, rows[0]), udts[1..];
      assert rows[1..] == RowsFor(catalog, tail);
      EmplacedSound(catalog, names, next, tail);
      hide Sound, Emplaced, Named, Grows;
      var out := Emplaced(omp, udts, rows);
      forall i | 0 <= i < |udts| && FoundUpTo(rows, i) ensures udts[i].id in out {
        if i > 0 {
          FoundUpToTail(rows, i);
          assert tail[i - 1] == udts[i];
        }
      }
      forall id | id in out && id !in omp
        ensures exists i | 0 <= i < |udts| :: udts[i].id == id && FoundUpTo(rows, i)
      {
        if id == udts[0].id {
          assert FoundUpTo(rows, 0);
        } else {
          var i :| 0 <= i < |tail| && tail[i].id == id && FoundUpTo(rows[1..], i);
          FoundUpToTail(rows, i + 1);
          assert udts[i + 1].id == id;
        }
      }
    }
  }

  lemma FoundUpToTail(rows: seq<OidPair>, i: nat)
    requires 0 < i < |rows| && Found(rows[0])
    ensures FoundUpTo(rows[1..], i - 1) <==> FoundUpTo(rows, i)
  {
    hide Found;
    if FoundUpTo(rows[1..], i - 1) {
      forall k | 0 <= k <= i ensures Found(rows[k]) {
        assert k > 0 ==> rows[1..][k - 1] == rows[k];
      }
    }
  }

  lemma ExtendNamed(names: map<TypeIndex, string>, st: OidState, ts: seq<Type>)
    requires Named(names, st.udts) && Declared(names, ts)
    ensures Named(names, Extend(st, ts).udts)
  {
    var added, all := ExtractedAll(ts, st.omp), Extend(st, ts).udts;
    forall i | 0 <= i < |all| ensures all[i].id in names && names[all[i].id] == all[i].name {
      if i >= |st.udts| {
        assert all[i] == added[i - |st.udts|] && all[i] in added;
        ExtractedAllIff(ts, st.omp, all[i]);
      }
    }
  }

  /** One query keeps the map sound and only adds to it, however it ends; if it does not fail,
      the map then covers every type its parameters reach. */
  lemma AskSound(catalog: Catalog, names: map<TypeIndex, string>, st: OidState, step: Step)
    requires Sound(catalog, names, st.omp) && Named(names, st.udts) && Declared(names, step.types)
    ensures var (next, lookup) := Ask(catalog, st, step);
            && Sound(catalog, names, next.omp) && Named(names, next.udts)
            && Grows(st.omp, next.omp)
            && (lookup.NotNeeded? || lookup.Succeeded? ==> Covers(next.omp, step.types))
  {
    hide Emplaced, RowsFor, Reaches, Sound, AllFound, FoundUpTo;
    var mid := Extend(st, step.types);
    var (next, lookup) := Ask(catalog, st, step);
    ExtendNamed(names, st, step.types);
    EmplacedSound(catalog, names, mid.omp, mid.udts);
    hide Named;
    if lookup.NotNeeded? || lookup.Succeeded? {
      forall u: Type | u.Udt? && ReachesAny(step.types, u) ensures u.id in next.omp {
        var p := UdtPair(u.name, u.id);
        ExtractedAllIff(step.types, st.omp, p);
        if u.id !in st.omp {
          assert NewIn(step.types, st.omp, p);
          assert p in ExtractedAll(step.types, st.omp) && p in mid.udts;
          var k :| 0 <= k < |mid.udts| && mid.udts[k] == p;
          AllFoundUpTo(RowsFor(catalog, mid.udts), k);
        }
      }
    }
  }

  lemma AllFoundUpTo(rows: seq<OidPair>, k: nat)
    requires AllFound(rows) && k < |rows|
    ensures FoundUpTo(rows, k)
  {
    hide Found;
  }

  /** Over any history, with lookups that succeed, stop midway or are not answered, and lists
      with duplicate and stale entries: every entry of the map is the catalog's pair for that
      type's name, and never the sentinel. */
  lemma {:induction false} RunSound(catalog: Catalog, names: map<TypeIndex, string>, steps: seq<Step>)
    requires AllDeclared(names, steps)
    ensures Sound(catalog, names, Run(catalog, steps).omp) && Named(names, Run(catalog, steps).udts)
    ensures var omp := Run(catalog, steps).omp;
            forall id | id in omp ::
              && id in names && names[id] in catalog && names[id] + "[]" in catalog
              && omp[id].single == catalog[names[id]] != 0xFFFF_FFFF
              && omp[id].arr == catalog[names[id] + "[]"] != 0xFFFF_FFFF
  {
    if steps != [] {
      var front := steps[..|steps| - 1];
      RunSound(catalog, names, front);
      AskSound(catalog, names, Run(catalog, front), steps[|steps| - 1]);
    }
  }

  /** Of a type in a sound map, and of arrays of it, the OID passed is the catalog's. */
  lemma UdtOids(catalog: Catalog, names: map<TypeIndex, string>, omp: OidMap, t: Type, u: Type)
    requires Sound(catalog, names, omp) && Declared(names, [t])
    requires u.Udt? && u.id in omp && (t == u || t == Array(u))
    ensures u.name in catalog && OidOf(omp, u) == catalog[u.name] != 0xFFFF_FFFF
    ensures u.name + "[]" in catalog && OidOf(omp, Array(u)) == catalog[u.name + "[]"] != 0xFFFF_FFFF
  {
    assert Reaches(u, u) && Reaches(t, u) && [t][0] == t;
    assert ReachesAny([t], u);
  }

  /** The map after a longer history contains the map after a shorter one. */
  lemma {:induction false} RunGrows(catalog: Catalog, names: map<TypeIndex, string>, steps: seq<Step>, k: nat)
    requires AllDeclared(names, steps) && k <= |steps|
    ensures Grows(Run(catalog, steps[..k]).omp, Run(catalog, steps).omp)
  {
    if k < |steps| {
      var front := steps[..|steps| - 1];
      assert front[..k] == steps[..k];
      RunGrows(catalog, names, front, k);
      RunSound(catalog, names, front);
      AskSound(catalog, names, Run(catalog, front), steps[|steps| - 1]);
    } else {
      assert steps[..k] == steps;
    }
  }

  // When a query looks OIDs up, and when it fails

  /** Some query of the history has `u` in its parameters. */
  ghost predicate Mentioned(steps: seq<Step>, u: Type) {
    u.Udt? && exists k | 0 <= k < |steps| :: ReachesAny(steps[k].types, u)
  }

  lemma MentionedSnoc(steps: seq<Step>, step: Step, u: Type)
    requires u.Udt?
    ensures Mentioned(steps + [step], u) <==> Mentioned(steps, u) || ReachesAny(step.types, u)
  {
    var all := steps + [step];
    if Mentioned(steps, u) {
      var k :| 0 <= k < |steps| && ReachesAny(steps[k].types, u);
      assert all[k] == steps[k];
    }
    if ReachesAny(step.types, u) {
      assert all[|steps|] == step;
    }
  }

  ghost predicate OnlyMentioned(udts: seq<UdtPair>, steps: seq<Step>) {
    forall p | p in udts :: exists u: Type | u.Udt? && u.id == p.id && u.name == p.name :: Mentioned(steps, u)
  }

  ghost predicate AllMentioned(udts: seq<UdtPair>, steps: seq<Step>) {
    forall u: Type | Mentioned(steps, u) :: UdtPair(u.name, u.id) in udts
  }

  ghost predicate MapListed(st: OidState) {
    forall id | id in st.omp :: exists p | p in st.udts :: p.id == id
  }

  lemma ExtendOnlyMentioned(st: OidState, steps: seq<Step>, step: Step)
    requires OnlyMentioned(st.udts, steps)
    ensures OnlyMentioned(Extend(st, step.types).udts, steps + [step])
  {
    hide Mentioned;
    forall p | p in Extend(st, step.types).udts
      ensures exists u: Type | u.Udt? && u.id == p.id && u.name == p.name :: Mentioned(steps + [step], u)
    {
      if p in st.udts {
        var u: Type :| u.Udt? && u.id == p.id && u.name == p.name && Mentioned(steps, u);
        MentionedSnoc(steps, step, u);
      } else {
        ExtractedAllIff(step.types, st.omp, p);
        var u: Type :| u.Udt? && u.id == p.id && u.name == p.name && ReachesAny(step.types, u);
        MentionedSnoc(steps, step, u);
      }
    }
  }

  lemma ExtendAllMentioned(names: map<TypeIndex, string>, st: OidState, steps: seq<Step>, step: Step)
    requires AllMentioned(st.udts, steps) && MapListed(st) && Declared(names, step.types) && Named(names, st.udts)
    ensures AllMentioned(Extend(st, step.types).udts, steps + [step])
  {
    hide ReachesAny, MapListed, Declared, Named;
    forall u: Type | Mentioned(steps + [step], u) ensures UdtPair(u.name, u.id) in Extend(st, step.types).udts {
      MentionedSnoc(steps, step, u);
      if !Mentioned(steps, u) {
        ListedWhenMentioned(names, st, step, u);
      }
    }
  }

  lemma AskMapListed(catalog: Catalog, names: map<TypeIndex, string>, st: OidState, step: Step)
    requires MapListed(st) && Sound(catalog, names, st.omp) && Named(names, st.udts) && Declared(names, step.types)
    ensures MapListed(Ask(catalog, st, step).0)
  {
    hide Emplaced, RowsFor, Sound, Named, Declared, ExtractedAll, AllFound, FoundUpTo;
    var mid, next := Extend(st, step.types), Ask(catalog, st, step).0;
    ExtendNamed(names, st, step.types);
    EmplacedSound(catalog, names, mid.omp, mid.udts);
    forall id | id in next.omp ensures exists p | p in next.udts :: p.id == id {
      if id in st.omp {
        var p :| p in st.udts && p.id == id;
        assert p in next.udts;
      } else {
        var i :| 0 <= i < |mid.udts| && mid.udts[i].id == id;
        assert mid.udts[i] in next.udts;
      }
    }
  }

  /** The list holds exactly the types ever mentioned, and the map nothing that is not in it. */
  lemma {:induction false} RunLists(catalog: Catalog, names: map<TypeIndex, string>, steps: seq<Step>)
    requires AllDeclared(names, steps)
    ensures var st := Run(catalog, steps);
            OnlyMentioned(st.udts, steps) && AllMentioned(st.udts, steps) && MapListed(st)
  {
    if steps != [] {
      var front, step := steps[..|steps| - 1], steps[|steps| - 1];
      assert steps == front + [step];
      var st := Run(catalog, front);
      RunLists(catalog, names, front);
      RunSound(catalog, names, front);
      ExtendOnlyMentioned(st, front, step);
      ExtendAllMentioned(names, st, front, step);
      AskMapListed(catalog, names, st, step);
      hide OnlyMentioned, AllMentioned, MapListed, Extend, Emplaced, Declared, Sound, Named;
    }
  }

  lemma ListedWhenMentioned(names: map<TypeIndex, string>, st: OidState, step: Step, u: Type)
    requires u.Udt? && ReachesAny(step.types, u) && Declared(names, step.types) && Named(names, st.udts)
    requires MapListed(st)
    ensures UdtPair(u.name, u.id) in Extend(st, step.types).udts
  {
    var p := UdtPair(u.name, u.id);
    if u.id in st.omp {
      var q :| q in st.udts && q.id == u.id;
      assert q == p;
    } else {
      ExtractedAllIff(step.types, st.omp, p);
    }
  }

  lemma AskLists(catalog: Catalog, st: OidState, step: Step)
    ensures var (next, lookup) := Ask(catalog, st, step);
            && (lookup.NotNeeded? <==> next.udts == [])
            && (step.response.Answered? ==> (lookup.Missing? <==> !AllFound(RowsFor(catalog, next.udts))))
  {
    hide RowsFor, Emplaced, ExtractedAll;
  }

  /** A type is missing only after an answer, the lookup unanswered only after an error, and its
      failure overlooked only without one. */
  lemma AskOutcomes(catalog: Catalog, st: OidState, step: Step)
    ensures var lookup := Ask(catalog, st, step).1;
            && (lookup in {Missing, Succeeded} ==> step.response.Answered?)
            && (lookup.Unanswered? ==> step.response.Refused?)
            && (lookup.Overlooked? ==> step.response.NoRows?)
  {
    hide RowsFor, Emplaced, ExtractedAll;
  }

  lemma RunSnoc(catalog: Catalog, steps: seq<Step>, step: Step)
    ensures Run(catalog, steps + [step]) == Ask(catalog, Run(catalog, steps), step).0
  {
    assert (steps + [step])[..|steps|] == steps;
    hide Ask;
  }

  /** A query asks the server for OIDs exactly when it or an earlier one has ever had a
      user-defined type in its parameters: knowing the OIDs already does not spare the query. */
  lemma LooksUpIffEverMentioned(catalog: Catalog, names: map<TypeIndex, string>, steps: seq<Step>, step: Step)
    requires AllDeclared(names, steps + [step])
    ensures Ask(catalog, Run(catalog, steps), step).1 != NotNeeded
            <==> exists u: Type :: Mentioned(steps + [step], u)
  {
    var udts := Run(catalog, steps + [step]).udts;
    RunLists(catalog, names, steps + [step]);
    RunSnoc(catalog, steps, step);
    AskLists(catalog, Run(catalog, steps), step);
    hide Ask, Run, Mentioned;
    if udts != [] {
      assert udts[0] in udts;
    }
  }

  /** An answered query fails for a missing type exactly when it or an earlier one has ever
      mentioned a type that the catalog lacks, or whose array type it lacks: one such type makes
      every later query fail, also those without parameters. */
  lemma FailsIffEverMissing(catalog: Catalog, names: map<TypeIndex, string>, steps: seq<Step>, step: Step)
    requires AllDeclared(names, steps + [step]) && step.response.Answered?
    ensures Ask(catalog, Run(catalog, steps), step).1 == Missing
            <==> exists u: Type | Mentioned(steps + [step], u) ::
                   || u.name !in catalog || catalog[u.name] == 0xFFFF_FFFF
                   || u.name + "[]" !in catalog || catalog[u.name + "[]"] == 0xFFFF_FFFF
  {
    var udts := Run(catalog, steps + [step]).udts;
    RunLists(catalog, names, steps + [step]);
    RunSnoc(catalog, steps, step);
    AskLists(catalog, Run(catalog, steps), step);
    AllFoundIff(catalog, udts);
    forall u: Type | u.Udt?
      ensures Found(RowFor(catalog, u.name)) <==>
              && u.name in catalog && catalog[u.name] != 0xFFFF_FFFF
              && u.name + "[]" in catalog && catalog[u.name + "[]"] != 0xFFFF_FFFF
    {
      FoundIff(catalog, u.name);
    }
    hide Ask, Emplaced, ReachesAny, Run, RowsFor, AllFound, RowFor, Found;
    if p :| p in udts && !Found(RowFor(catalog, p.name)) {
      var u: Type :| u.Udt? && u.id == p.id && u.name == p.name && Mentioned(steps + [step], u);
    }
  }

  lemma AllFoundIff(catalog: Catalog, udts: seq<UdtPair>)
    ensures AllFound(RowsFor(catalog, udts)) <==> forall p | p in udts :: Found(RowFor(catalog, p.name))
  {
    var rows := RowsFor(catalog, udts);
    if AllFound(rows) {
      forall p | p in udts ensures Found(RowFor(catalog, p.name)) {
        var i :| 0 <= i < |udts| && udts[i] == p;
        assert Found(rows[i]);
      }
    }
  }

  // Both at work

  const POINT: Type := Udt(0, "point", [Word(I32)], [Bits(0)])

  lemma PointExtracted(omp: OidMap)
    ensures ExtractedAll([POINT], omp) == if 0 in omp then [] else [UdtPair("point", 0)]
  {
    assert [POINT][1..] == [] && [Word(I32)][1..] == [];
    assert ExtractedAll([Word(I32)], omp) == [];
    assert Extracted(POINT, omp) == if 0 in omp then [] else [UdtPair("point", 0)];
  }

  /** The state after one answered query with a parameter of that type. */
  lemma AfterPoint(catalog: Catalog)
    ensures var row := RowFor(catalog, "point");
            Run(catalog, [Step([POINT], Answered)]) == OidState(if Found(row) then map[0 := row]
                else map[], [UdtPair("point", 0)])
  {
    var step := Step([POINT], Answered);
    PointExtracted(map[]);
    assert [step][..0] == [];
    var udts, rows := [UdtPair("point", 0)], RowsFor(catalog, [UdtPair("point", 0)]);
    assert Extend(START, [POINT]) == OidState(map[], udts);
    hide RowsFor, RowFor, Found;
    assert Emplaced(map[], udts, rows)
        == if Found(rows[0]) then Emplaced(map[0 := rows[0]], udts[1..], rows[1..]) else map[];
  }

  /** A type that the map has already is looked up again by the next query that uses it. */
  lemma KnownTypeIsLookedUp()
    ensures var catalog, steps := map["point" := 16384, "point[]" := 16383], [Step([POINT], Answered)];
            0 in Run(catalog, steps).omp && Ask(catalog, Run(catalog, steps), Step([POINT], Answered)).1 == Succeeded
  {
    var catalog := map["point" := 16384, "point[]" := 16383];
    assert "point" + "[]" == "point[]";
    assert RowFor(catalog, "point") == OidPair(16384, 16383);
    AfterPoint(catalog);
    PointExtracted(map[0 := OidPair(16384, 16383)]);
    hide RowFor, Emplaced, ExtractedAll, Run;
  }

  /** A query without parameters fails because an earlier one used a type the server lacks. */
  lemma MissingTypePoisons()
    ensures Ask(map[], Run(map[], [Step([POINT], Answered)]), Step([], Answered)).1 == Missing
  {
    AfterPoint(map[]);
    assert !Found(RowsFor(map[], [UdtPair("point", 0)])[0]);
    assert ExtractedAll([], map[]) == [];
    hide Emplaced, ExtractedAll, Run, RowsFor;
  }
}
