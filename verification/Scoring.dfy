/** The impact score of a dependent: normalized centralities and the inverse of its distance, weighted. */
module Scoring {
  import opened Common
  import opened CodeGraph
  import opened Discovery

  datatype JobConfig = JobConfig(entry: Id, scope: Scope, maxDepth: nat, samplingSize: int, wPpr: real, wProx: real,
                                 wBc: real)

  function ImpactKind(t: RelType): string {
    match t
    case Imports => "module-boundary"
    case DependsOn => "module-boundary"
    case Calls => "behavioral"
    case Implements => "syntactic"
    case Extends => "syntactic"
    case Overrides => "syntactic"
    case _ => ""
  }

  function Get(m: map<Id, real>, id: Id): real {
    if id in m then m[id] else 0.0
  }

  // ---------------------------------------------------------------- normalization

  lemma Member<T>(s: set<T>) returns (x: T)
    requires s != {}
    ensures x in s
  {
    x :| x in s;
  }

  lemma {:induction false} LeastExists(values: set<real>)
    requires values != {}
    ensures exists v :: v in values && forall w :: w in values ==> v <= w
  {
    var x := Member(values);
    var rest := values - {x};
    assert forall w :: w in values ==> w in rest || w == x;
    if rest != {} {
      LeastExists(rest);
      var v :| v in rest && forall w :: w in rest ==> v <= w;
      var least := if v <= x then v else x;
      assert least in values && forall w :: w in values ==> least <= w;
    }
  }

  lemma {:induction false} GreatestExists(values: set<real>)
    requires values != {}
    ensures exists v :: v in values && forall w :: w in values ==> w <= v
  {
    var x := Member(values);
    var rest := values - {x};
    assert forall w :: w in values ==> w in rest || w == x;
    if rest != {} {
      GreatestExists(rest);
      var v :| v in rest && forall w :: w in rest ==> w <= v;
      var greatest := if v <= x then x else v;
      assert greatest in values && forall w :: w in values ==> w <= greatest;
    }
  }

  function Least(values: set<real>): (v: real)
    requires values != {}
    ensures v in values && forall w :: w in values ==> v <= w
  {
    LeastExists(values);
    var v :| v in values && forall w :: w in values ==> v <= w;
    v
  }

  function Greatest(values: set<real>): (v: real)
    requires values != {}
    ensures v in values && forall w :: w in values ==> w <= v
  {
    GreatestExists(values);
    var v :| v in values && forall w :: w in values ==> w <= v;
    v
  }

  lemma HasValues(raw: map<Id, real>)
    requires raw != map[]
    ensures raw.Values != {}
  {
    var x :| x in raw;
    assert raw[x] in raw.Values;
  }

  function Scaled(v: real, lo: real, hi: real): real {
    if hi == lo then 0.0 else (v - lo) / (hi - lo)
  }

  /** Min-max normalization; when all values are the same they all become zero. */
  function Normalized(raw: map<Id, real>): map<Id, real> {
    if raw == map[] then map[]
    else
      HasValues(raw);
      map id | id in raw :: Scaled(raw[id], Least(raw.Values), Greatest(raw.Values))
  }

  /** One pass over the entries, in any order. */
  method Bounds(raw: map<Id, real>) returns (lo: real, hi: real)
    requires raw != map[]
    ensures raw.Values != {} && lo == Least(raw.Values) && hi == Greatest(raw.Values)
  {
    HasValues(raw);
    lo, hi := 0.0, 0.0;
    var first := true;
    var todo := raw.Keys;
    while todo != {}
      invariant todo <= raw.Keys && (first <==> todo == raw.Keys)
      invariant !first ==> lo in raw.Values && hi in raw.Values
      invariant !first ==> forall id :: id in raw.Keys - todo ==> lo <= raw[id] <= hi
      decreases |todo|
    {
      var id :| id in todo;
      todo := todo - {id};
      var v := raw[id];
      assert v in raw.Values;
      if first {
        lo, hi, first := v, v, false;
      } else {
        if v < lo { lo := v; }
        if v > hi { hi := v; }
      }
    }
    assert raw.Keys != {};
    assert forall v :: v in raw.Values ==> lo <= v <= hi;
  }

  method MinMaxNormalize(raw: map<Id, real>) returns (norm: map<Id, real>)
    ensures norm == Normalized(raw)
  {
    hide Scaled, Least, Greatest;
    norm := map[];
    if raw == map[] { return; }
    var lo, hi := Bounds(raw);
    var todo := raw.Keys;
    while todo != {}
      invariant todo <= raw.Keys && norm.Keys == raw.Keys - todo
      invariant forall id :: id in norm ==> norm[id] == Scaled(raw[id], lo, hi)
      decreases |todo|
    {
      var id :| id in todo;
      todo := todo - {id};
      norm := norm[id := Scaled(raw[id], lo, hi)];
    }
  }

  /**
  The place of an entry between the least and the greatest value; zero for a missing entry and among equal values.
  */
  ghost predicate IsShare(raw: map<Id, real>, id: Id, x: real) {
    if id !in raw then x == 0.0
    else
      exists a, b ::
        && a in raw && b in raw && (forall c :: c in raw ==> raw[a] <= raw[c] <= raw[b])
        && if raw[a] == raw[b] then x == 0.0 else x * (raw[b] - raw[a]) == raw[id] - raw[a]
  }

  lemma NormalizedIsShare(raw: map<Id, real>, id: Id)
    ensures IsShare(raw, id, Get(Normalized(raw), id))
  {
    if id in raw {
      HasValues(raw);
      var lo, hi := Least(raw.Values), Greatest(raw.Values);
      assert Get(Normalized(raw), id) == Scaled(raw[id], lo, hi);
      ScaledBack(raw[id], lo, hi);
      hide Scaled, Normalized, Get, Least, Greatest, IsShare;
      var a :| a in raw && raw[a] == lo;
      var b :| b in raw && raw[b] == hi;
      assert forall c :: c in raw ==> raw[c] in raw.Values;
      ShareBetween(raw, id, Scaled(raw[id], lo, hi), a, b);
    }
  }

  lemma ShareBetween(raw: map<Id, real>, id: Id, x: real, a: Id, b: Id)
    requires id in raw && a in raw && b in raw && forall c :: c in raw ==> raw[a] <= raw[c] <= raw[b]
    requires if raw[a] == raw[b] then x == 0.0 else x * (raw[b] - raw[a]) == raw[id] - raw[a]
    ensures IsShare(raw, id, x)
  {
  }

  lemma ScaledBack(v: real, lo: real, hi: real)
    ensures if lo == hi then Scaled(v, lo, hi) == 0.0 else Scaled(v, lo, hi) * (hi - lo) == v - lo
  {
    if lo != hi { DivisionUndone(v - lo, hi - lo); }
  }

  lemma DivisionUndone(x: real, y: real)
    requires y != 0.0
    ensures x / y * y == x
  {
  }

  /** Normalized values lie between zero and one and keep the order of the raw ones. */
  lemma NormalizedKeepsOrder(raw: map<Id, real>, a: Id, b: Id)
    requires a in raw && b in raw && raw[a] <= raw[b]
    ensures a in Normalized(raw) && b in Normalized(raw)
    ensures 0.0 <= Normalized(raw)[a] <= Normalized(raw)[b] <= 1.0
  {
    HasValues(raw);
    var lo, hi := Least(raw.Values), Greatest(raw.Values);
    assert raw[a] in raw.Values && raw[b] in raw.Values;
    if lo != hi { QuotientsOrdered(raw[a] - lo, raw[b] - lo, hi - lo); }
  }

  lemma QuotientsOrdered(x: real, y: real, z: real)
    requires 0.0 <= x <= y <= z && z > 0.0
    ensures 0.0 <= x / z <= y / z <= 1.0
  {
  }

  // ---------------------------------------------------------------- the combination

  function RowOf(cfg: JobConfig, dep: DepInfo, ppr: real, bc: real, community: int): ScoreRow {
    ScoreRow(cfg.wPpr * ppr + cfg.wProx * (1.0 / dep.hopDistance as real) + cfg.wBc * bc, community,
             ImpactKind(dep.relType))
  }

  function Combined(cfg: JobConfig, deps: map<Id, DepInfo>, ppr: map<Id, real>, bc: map<Id, real>,
                    communities: map<Id, int>): map<Id, ScoreRow> {
    map id | id in deps ::
      RowOf(cfg, deps[id], Get(Normalized(ppr), id), Get(Normalized(bc), id),
            if id in communities then communities[id] else 0)
  }

  lemma CombinedRows(cfg: JobConfig, deps: map<Id, DepInfo>, ppr: map<Id, real>, bc: map<Id, real>,
                     communities: map<Id, int>)
    ensures var rows := Combined(cfg, deps, ppr, bc, communities);
            && rows.Keys == deps.Keys
            && forall id :: id in deps ==>
                 rows[id] == RowOf(cfg, deps[id], Get(Normalized(ppr), id), Get(Normalized(bc), id),
                                   if id in communities then communities[id] else 0)
  {
    hide RowOf, Normalized;
  }

  /** One row for each dependent, in any order. */
  method CombineScores(cfg: JobConfig, deps: map<Id, DepInfo>, ppr: map<Id, real>, bc: map<Id, real>,
                       communities: map<Id, int>) returns (rows: map<Id, ScoreRow>)
    ensures rows == Combined(cfg, deps, ppr, bc, communities)
  {
    hide Normalized, RowOf, Combined;
    CombinedRows(cfg, deps, ppr, bc, communities);
    var pprNorm := MinMaxNormalize(ppr);
    var bcNorm := MinMaxNormalize(bc);
    rows := map[];
    var todo := deps.Keys;
    while todo != {}
      invariant todo <= deps.Keys && rows.Keys == deps.Keys - todo
      invariant forall id :: id in rows ==> rows[id] == Combined(cfg, deps, ppr, bc, communities)[id]
      decreases |todo|
    {
      var id :| id in todo;
      todo := todo - {id};
      rows := rows[id := RowOf(cfg, deps[id], Get(pprNorm, id), Get(bcNorm, id),
                               if id in communities then communities[id] else 0)];
    }
  }
}
