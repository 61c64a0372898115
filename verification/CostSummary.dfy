/** Cost aggregation of backend/handler_cost_dashboard.go, with exact rationals for the costs. */
module CostSummary {
  import opened Text
  import opened Ordering

  datatype CostRecord = CostRecord(resourceId: string, schemaId: string, env: string, region: string,
                                   cost: real, recordedAt: string)

  type Latest = map<string, CostRecord>
  type Totals = map<string, real>

  /** Records of one resource share a key; records without a resource id go by their coordinates. */
  function Key(r: CostRecord): string {
    if r.resourceId != "" then r.resourceId else r.schemaId + "|" + r.env + "|" + r.region
  }

  predicate Later(a: CostRecord, b: CostRecord) {
    !AtMost(a.recordedAt, b.recordedAt)
  }

  lemma ThreeParts(x: string, y: string, z: string)
    requires '|' !in x && '|' !in y && '|' !in z
    ensures Split(x + "|" + y + "|" + z, '|') == [x, y, z]
  {
    assert x + "|" + y + "|" + z == x + ['|'] + (y + ['|'] + z);
    SplitConcat(x, '|', y + ['|'] + z);
    SplitConcat(y, '|', z);
    SplitWhole(x, '|');
    SplitWhole(y, '|');
    SplitWhole(z, '|');
  }

  /** Records with ids are of one resource exactly if their ids agree; records without, exactly if schema,
      environment and region agree, as long as none holds the separator. */
  lemma KeysAgree(a: CostRecord, b: CostRecord)
    ensures a.resourceId != "" && b.resourceId != "" ==> (Key(a) == Key(b) <==> a.resourceId == b.resourceId)
    ensures a.resourceId == "" && b.resourceId == ""
              && '|' !in a.schemaId && '|' !in a.env && '|' !in a.region
              && '|' !in b.schemaId && '|' !in b.env && '|' !in b.region ==>
              (Key(a) == Key(b) <==> a.schemaId == b.schemaId && a.env == b.env && a.region == b.region)
  {
    if a.resourceId == "" && b.resourceId == ""
      && '|' !in a.schemaId && '|' !in a.env && '|' !in a.region
      && '|' !in b.schemaId && '|' !in b.env && '|' !in b.region
    {
      ThreeParts(a.schemaId, a.env, a.region);
      ThreeParts(b.schemaId, b.env, b.region);
    }
  }

  // ----- keeping the latest record

  /** What the dashboard keeps for every key: a record of that key, none later, and the first such. */
  ghost predicate Keeps(records: seq<CostRecord>, latest: Latest, key: string) {
    if key in latest then
      exists i :: 0 <= i < |records| && records[i] == latest[key] && Key(records[i]) == key
        && (forall j :: 0 <= j < |records| && Key(records[j]) == key ==> !Later(records[j], records[i]))
        && (forall j :: 0 <= j < i && Key(records[j]) == key ==> Later(records[i], records[j]))
    else
      forall j :: 0 <= j < |records| ==> Key(records[j]) != key
  }

  ghost predicate Deduplicates(records: seq<CostRecord>, latest: Latest) {
    forall key :: Keeps(records, latest, key)
  }

  /** A record later than the latest one of a key is later than all of them. */
  lemma LaterThanAll(records: seq<CostRecord>, latest: CostRecord, r: CostRecord, key: string)
    requires Later(r, latest)
    requires forall j :: 0 <= j < |records| && Key(records[j]) == key ==> !Later(records[j], latest)
    ensures forall j :: 0 <= j < |records| && Key(records[j]) == key ==>
              Later(r, records[j]) && !Later(records[j], r)
    ensures !Later(r, r)
  {
    AtMostTotal(r.recordedAt, r.recordedAt);
    forall j | 0 <= j < |records| && Key(records[j]) == key ensures Later(r, records[j]) && !Later(records[j], r) {
      AtMostTotal(r.recordedAt, latest.recordedAt);
      AtMostTransitive(records[j].recordedAt, latest.recordedAt, r.recordedAt);
      if AtMost(r.recordedAt, records[j].recordedAt) {
        AtMostTransitive(r.recordedAt, records[j].recordedAt, latest.recordedAt);
      }
    }
  }

  lemma KeepOne(records: seq<CostRecord>, latest: Latest, r: CostRecord, key: string)
    requires Keeps(records, latest, key)
    ensures var k := Key(r);
            var after := if k !in latest || Later(r, latest[k]) then latest[k := r] else latest;
            Keeps(records + [r], after, key)
  {
    var k := Key(r);
    var more := records + [r];
    var after := if k !in latest || Later(r, latest[k]) then latest[k := r] else latest;
    assert more[|records|] == r && forall j :: 0 <= j < |records| ==> more[j] == records[j];
    if key in latest {
      var i :| 0 <= i < |records| && records[i] == latest[key] && Key(records[i]) == key
        && (forall j :: 0 <= j < |records| && Key(records[j]) == key ==> !Later(records[j], records[i]))
        && (forall j :: 0 <= j < i && Key(records[j]) == key ==> Later(records[i], records[j]));
      if k == key && Later(r, latest[key]) {
        LaterThanAll(records, records[i], r, key);
        assert more[|records|] == after[key];
      } else {
        assert more[i] == after[key];
      }
    } else if k == key {
      AtMostTotal(r.recordedAt, r.recordedAt);
      assert more[|records|] == after[key];
    }
  }

  lemma KeepAll(records: seq<CostRecord>, latest: Latest, r: CostRecord)
    requires Deduplicates(records, latest)
    ensures Deduplicates(records + [r],
                         if Key(r) !in latest || Later(r, latest[Key(r)]) then latest[Key(r) := r] else latest)
  {
    var after := if Key(r) !in latest || Later(r, latest[Key(r)]) then latest[Key(r) := r] else latest;
    forall key ensures Keeps(records + [r], after, key) {
      KeepOne(records, latest, r, key);
    }
  }

  method LatestPerResource(records: seq<CostRecord>) returns (latest: Latest)
    ensures Deduplicates(records, latest)
  {
    latest := map[];
    for i := 0 to |records|
      invariant Deduplicates(records[..i], latest)
    {
      var r := records[i];
      var key := Key(r);
      assert records[..i + 1] == records[..i] + [r];
      KeepAll(records[..i], latest, r);
      if key !in latest || Later(r, latest[key]) {
        latest := latest[key := r];
      }
    }
    assert records[..|records|] == records;
  }

  // ----- sums over maps, in any order

  /** `ks` lists the keys of `m`, each once, in some order. */
  ghost predicate Enumerates<T>(ks: seq<string>, m: map<string, T>) {
    Distinct(ks) && forall k :: k in ks <==> k in m
  }

  function Sum(ks: seq<string>, m: Totals): real
    requires forall k :: k in ks ==> k in m
  {
    if ks == [] then 0.0 else m[ks[0]] + Sum(ks[1..], m)
  }

  lemma {:induction false} SumConcat(a: seq<string>, b: seq<string>, m: Totals)
    requires forall k :: k in a + b ==> k in m
    ensures (forall k :: k in a ==> k in m) && (forall k :: k in b ==> k in m)
    ensures Sum(a + b, m) == Sum(a, m) + Sum(b, m)
  {
    assert forall k :: k in a ==> k in a + b;
    assert forall k :: k in b ==> k in a + b;
    if a == [] {
      assert a + b == b;
    } else {
      assert (a + b)[1..] == a[1..] + b;
      SumConcat(a[1..], b, m);
    }
  }

  lemma {:induction false} SumAgrees(ks: seq<string>, m: Totals, n: Totals)
    requires forall k :: k in ks ==> k in m && k in n && m[k] == n[k]
    ensures Sum(ks, m) == Sum(ks, n)
  {
    if ks == [] {
    } else {
      assert ks[0] in ks;
      SumAgrees(ks[1..], m, n);
    }
  }

  lemma DropIndex(ks: seq<string>, i: nat)
    requires i < |ks| && Distinct(ks)
    ensures Distinct(ks[..i] + ks[i + 1..])
    ensures forall x :: x in ks[..i] + ks[i + 1..] <==> x in ks && x != ks[i]
  {
    var rest := ks[..i] + ks[i + 1..];
    forall x ensures x in rest <==> x in ks && x != ks[i] {
      if x in ks && x != ks[i] {
        var j :| 0 <= j < |ks| && ks[j] == x;
        assert if j < i then rest[j] == x else rest[j - 1] == x;
      }
    }
  }

  /** Taking one key out of the list. */
  lemma SumWithout(ks: seq<string>, m: Totals, k: string) returns (rest: seq<string>)
    requires Distinct(ks) && k in ks && forall x :: x in ks ==> x in m
    ensures Distinct(rest) && forall x :: x in rest <==> x in ks && x != k
    ensures Sum(ks, m) == m[k] + Sum(rest, m)
  {
    var i :| 0 <= i < |ks| && ks[i] == k;
    rest := ks[..i] + ks[i + 1..];
    DropIndex(ks, i);
    SumAround(ks, m, i);
  }

  lemma SumAround(ks: seq<string>, m: Totals, i: nat)
    requires i < |ks| && forall x :: x in ks ==> x in m
    ensures forall x :: x in ks[..i] + ks[i + 1..] ==> x in m
    ensures Sum(ks, m) == m[ks[i]] + Sum(ks[..i] + ks[i + 1..], m)
  {
    assert ks == ks[..i] + ([ks[i]] + ks[i + 1..]);
    SumConcat(ks[..i], [ks[i]] + ks[i + 1..], m);
    SumConcat([ks[i]], ks[i + 1..], m);
    SumConcat(ks[..i], ks[i + 1..], m);
    assert [ks[i]][1..] == [];
  }

  lemma NoMembers(ks: seq<string>)
    requires forall k :: k !in ks
    ensures ks == []
  {
    forall k ensures multiset(ks)[k] == 0 {
      assert k in multiset(ks) <==> k in ks;
    }
    assert |ks| == |multiset(ks)|;
  }

  /** The order of summation does not matter. */
  lemma {:induction false} SumIgnoresOrder(a: seq<string>, b: seq<string>, m: Totals)
    requires Distinct(a) && Distinct(b) && (forall k :: k in a <==> k in b) && forall k :: k in a ==> k in m
    ensures Sum(a, m) == Sum(b, m)
    decreases |a|
  {
    if a == [] {
      NoMembers(b);
    } else {
      assert a[0] in a;
      assert forall i :: 0 < i < |a| ==> a[i] != a[0];
      var rest := SumWithout(b, m, a[0]);
      assert forall k :: k in a <==> k == a[0] || k in a[1..];
      SumIgnoresOrder(a[1..], rest, m);
    }
  }

  // ----- the breakdowns

  type Attribute = CostRecord -> string

  function Costs(latest: Latest): Totals {
    map k | k in latest :: latest[k].cost
  }

  function AddTo(totals: Totals, group: string, cost: real): Totals {
    totals[group := (if group in totals then totals[group] else 0.0) + cost]
  }

  /** `m[f(r)] += r.cost` for every kept record. */
  function Breakdown(ks: seq<string>, latest: Latest, f: Attribute): Totals
    requires forall k :: k in ks ==> k in latest
  {
    if ks == [] then map[]
    else
      var n := |ks| - 1;
      assert ks[n] in ks;
      AddTo(Breakdown(ks[..n], latest, f), f(latest[ks[n]]), latest[ks[n]].cost)
  }

  function Env(): Attribute { (r: CostRecord) => r.env }

  function Schema(): Attribute { (r: CostRecord) => r.schemaId }

  function Region(): Attribute { (r: CostRecord) => r.region }

  lemma OneMoreKey(order: seq<string>, k: nat, latest: Latest)
    requires k < |order| && forall x :: x in order ==> x in latest
    ensures forall x :: x in order[..k] || x in order[..k + 1] ==> x in latest
    ensures order[..k + 1][..k] == order[..k]
    ensures Sum(order[..k + 1], Costs(latest)) == Sum(order[..k], Costs(latest)) + latest[order[k]].cost
  {
    assert order[k] in order;
    assert order[..k + 1] == order[..k] + [order[k]];
    SumConcat(order[..k], [order[k]], Costs(latest));
    assert [order[k]][1..] == [];
  }

  /** `order` is the order in which the map of latest records happens to be iterated. */
  method Summarize(latest: Latest, order: seq<string>)
    returns (total: real, byEnv: Totals, bySchema: Totals, byRegion: Totals)
    requires Enumerates(order, latest)
    ensures total == Sum(order, Costs(latest))
    ensures byEnv == Breakdown(order, latest, Env())
    ensures bySchema == Breakdown(order, latest, Schema())
    ensures byRegion == Breakdown(order, latest, Region())
  {
    total := 0.0;
    byEnv, bySchema, byRegion := map[], map[], map[];
    for k := 0 to |order|
      invariant forall x :: x in order[..k] ==> x in latest
      invariant total == Sum(order[..k], Costs(latest))
      invariant byEnv == Breakdown(order[..k], latest, Env())
      invariant bySchema == Breakdown(order[..k], latest, Schema())
      invariant byRegion == Breakdown(order[..k], latest, Region())
    {
      var r := latest[order[k]];
      OneMoreKey(order, k, latest);
      total := total + r.cost;
      byEnv := AddTo(byEnv, r.env, r.cost);
      bySchema := AddTo(bySchema, r.schemaId, r.cost);
      byRegion := AddTo(byRegion, r.region, r.cost);
    }
    assert order[..|order|] == order;
  }

  lemma AddToAddsCost(totals: Totals, groups: seq<string>, group: string, cost: real) returns (before: seq<string>)
    requires Enumerates(groups, AddTo(totals, group, cost))
    ensures Enumerates(before, totals)
    ensures Sum(groups, AddTo(totals, group, cost)) == Sum(before, totals) + cost
  {
    var after := AddTo(totals, group, cost);
    var rest := SumWithout(groups, after, group);
    SumAgrees(rest, after, totals);
    if group in totals {
      before := groups;
      var rest' := SumWithout(groups, totals, group);
      SumIgnoresOrder(rest, rest', totals);
    } else {
      before := rest;
    }
  }

  /** Conservation: whatever attribute a breakdown goes by, and whatever the order of either map, its
      groups add up to the total. */
  lemma {:induction false} BreakdownConserves(ks: seq<string>, latest: Latest, f: Attribute, groups: seq<string>)
    requires forall k :: k in ks ==> k in latest
    requires Enumerates(groups, Breakdown(ks, latest, f))
    ensures Sum(groups, Breakdown(ks, latest, f)) == Sum(ks, Costs(latest))
    decreases |ks|
  {
    if ks == [] {
      NoMembers(groups);
    } else {
      var n := |ks| - 1;
      assert ks[n] in ks;
      var before := AddToAddsCost(Breakdown(ks[..n], latest, f), groups, f(latest[ks[n]]), latest[ks[n]].cost);
      BreakdownConserves(ks[..n], latest, f, before);
      assert ks == ks[..n] + [ks[n]];
      SumConcat(ks[..n], [ks[n]], Costs(latest));
      assert [ks[n]][1..] == [];
    }
  }

  /** The three breakdowns of one summary add up to its total, and the total does not depend on the
      order in which the kept records are visited. */
  lemma SummaryConserves(latest: Latest, order: seq<string>, other: seq<string>,
                         envs: seq<string>, schemas: seq<string>, regions: seq<string>)
    requires Enumerates(order, latest) && Enumerates(other, latest)
    requires Enumerates(envs, Breakdown(order, latest, Env()))
    requires Enumerates(schemas, Breakdown(order, latest, Schema()))
    requires Enumerates(regions, Breakdown(order, latest, Region()))
    ensures Sum(envs, Breakdown(order, latest, Env())) == Sum(other, Costs(latest))
    ensures Sum(schemas, Breakdown(order, latest, Schema())) == Sum(other, Costs(latest))
    ensures Sum(regions, Breakdown(order, latest, Region())) == Sum(other, Costs(latest))
  {
    SumIgnoresOrder(order, other, Costs(latest));
    BreakdownConserves(order, latest, Env(), envs);
    BreakdownConserves(order, latest, Schema(), schemas);
    BreakdownConserves(order, latest, Region(), regions);
  }

  /** A group is there exactly if some visited record belongs to it, and its total is the sum over
      those records. */
  lemma {:induction false} BreakdownExact(ks: seq<string>, latest: Latest, f: Attribute, group: string)
    requires forall k :: k in ks ==> k in latest
    ensures var mine := Filter((k: string) => k in latest && f(latest[k]) == group, ks);
            && (forall k :: k in mine ==> k in Costs(latest))
            && (group in Breakdown(ks, latest, f) <==> mine != [])
            && (group in Breakdown(ks, latest, f) ==> Breakdown(ks, latest, f)[group] == Sum(mine, Costs(latest)))
    decreases |ks|
  {
    var p := (k: string) => k in latest && f(latest[k]) == group;
    if ks != [] {
      var n := |ks| - 1;
      assert ks[n] in ks && ks == ks[..n] + [ks[n]];
      BreakdownExact(ks[..n], latest, f, group);
      FilterConcat(p, ks[..n], [ks[n]]);
      assert [ks[n]][1..] == [];
      var mine := Filter(p, ks[..n]);
      if p(ks[n]) {
        SumConcat(mine, [ks[n]], Costs(latest));
        assert Sum([ks[n]], Costs(latest)) == latest[ks[n]].cost;
        assert Filter(p, ks) == mine + [ks[n]];
        assert mine == [] ==> Sum(mine, Costs(latest)) == 0.0;
      } else {
        assert Filter(p, ks) == mine;
      }
    }
  }

  lemma GroupExact(order: seq<string>, latest: Latest, f: Attribute, group: string, mine: string -> bool)
    requires Enumerates(order, latest)
    requires forall k :: k in latest ==> mine(k) == (f(latest[k]) == group)
    ensures var keys := Filter(mine, order);
            && (forall k :: k in keys ==> k in Costs(latest))
            && (group in Breakdown(order, latest, f) <==> keys != [])
            && (group in Breakdown(order, latest, f) ==> Breakdown(order, latest, f)[group] == Sum(keys, Costs(latest)))
  {
    BreakdownExact(order, latest, f, group);
    SameFilter((k: string) => k in latest && f(latest[k]) == group, mine, order);
  }

  /** The three breakdowns are by environment, by schema and by region: a group is there exactly if some
      kept record is of it, with the sum over those records. */
  lemma SummaryExact(latest: Latest, order: seq<string>, group: string)
    requires Enumerates(order, latest)
    ensures var byEnv := Breakdown(order, latest, Env());
            var keys := Filter((k: string) => k in latest && latest[k].env == group, order);
            && (forall k :: k in keys ==> k in Costs(latest))
            && (group in byEnv <==> keys != []) && (group in byEnv ==> byEnv[group] == Sum(keys, Costs(latest)))
    ensures var bySchema := Breakdown(order, latest, Schema());
            var keys := Filter((k: string) => k in latest && latest[k].schemaId == group, order);
            && (forall k :: k in keys ==> k in Costs(latest))
            && (group in bySchema <==> keys != [])
            && (group in bySchema ==> bySchema[group] == Sum(keys, Costs(latest)))
    ensures var byRegion := Breakdown(order, latest, Region());
            var keys := Filter((k: string) => k in latest && latest[k].region == group, order);
            && (forall k :: k in keys ==> k in Costs(latest))
            && (group in byRegion <==> keys != [])
            && (group in byRegion ==> byRegion[group] == Sum(keys, Costs(latest)))
  {
    GroupExact(order, latest, Env(), group, (k: string) => k in latest && latest[k].env == group);
    GroupExact(order, latest, Schema(), group, (k: string) => k in latest && latest[k].schemaId == group);
    GroupExact(order, latest, Region(), group, (k: string) => k in latest && latest[k].region == group);
  }

  // ----- budgets

  /** What a budget watches; an unknown scope matches no record. */
  datatype Scope = Global | OfEnv(env: string) | OfSchema(schema: string) | OfNothing

  predicate InScope(r: CostRecord, scope: Scope) {
    match scope
    case Global => true
    case OfEnv(env) => r.env == env
    case OfSchema(schema) => r.schemaId == schema
    case OfNothing => false
  }

  function SpendOf(records: seq<CostRecord>, scope: Scope): real {
    if records == [] then 0.0
    else
      var n := |records| - 1;
      SpendOf(records[..n], scope) + if InScope(records[n], scope) then records[n].cost else 0.0
  }

  method CurrentSpend(records: seq<CostRecord>, scope: Scope) returns (spend: real)
    ensures spend == SpendOf(records, scope)
  {
    spend := 0.0;
    for k := 0 to |records|
      invariant spend == SpendOf(records[..k], scope)
    {
      assert records[..k + 1][..k] == records[..k];
      if InScope(records[k], scope) {
        spend := spend + records[k].cost;
      }
    }
    assert records[..|records|] == records;
  }

  function SpendOverEnvs(records: seq<CostRecord>, envs: seq<string>): real {
    if envs == [] then 0.0 else SpendOf(records, OfEnv(envs[0])) + SpendOverEnvs(records, envs[1..])
  }

  lemma {:induction false} OneMoreRecord(records: seq<CostRecord>, r: CostRecord, envs: seq<string>)
    requires Distinct(envs)
    ensures SpendOverEnvs(records + [r], envs)
         == SpendOverEnvs(records, envs) + if r.env in envs then r.cost else 0.0
    decreases |envs|
  {
    if envs == [] {
    } else {
      OneMoreRecord(records, r, envs[1..]);
      assert (records + [r])[..|records|] == records;
      assert envs[0] !in envs[1..];
    }
  }

  /** The global spend is the sum of the spends of environments that partition the records. */
  lemma {:induction false} GlobalSpendIsSumOfEnvs(records: seq<CostRecord>, envs: seq<string>)
    requires Distinct(envs) && forall r :: r in records ==> r.env in envs
    ensures SpendOf(records, Global) == SpendOverEnvs(records, envs)
    decreases |records|
  {
    if records == [] {
      NoSpend(envs);
    } else {
      var n := |records| - 1;
      assert records[n] in records && records == records[..n] + [records[n]];
      GlobalSpendIsSumOfEnvs(records[..n], envs);
      OneMoreRecord(records[..n], records[n], envs);
    }
  }

  lemma {:induction false} NoSpend(envs: seq<string>)
    ensures SpendOverEnvs([], envs) == 0.0
  {
    if envs == [] {
    } else {
      NoSpend(envs[1..]);
    }
  }

  function TotalOf(records: seq<CostRecord>): real {
    if records == [] then 0.0 else records[0].cost + TotalOf(records[1..])
  }

  lemma {:induction false} TotalConcat(a: seq<CostRecord>, b: seq<CostRecord>)
    ensures TotalOf(a + b) == TotalOf(a) + TotalOf(b)
  {
    if a == [] {
      assert a + b == b;
    } else {
      assert (a + b)[0] == a[0] && (a + b)[1..] == a[1..] + b;
      TotalConcat(a[1..], b);
    }
  }

  lemma {:induction false} SpendIsTotal(records: seq<CostRecord>, scope: Scope, mine: CostRecord -> bool)
    requires forall r :: r in records ==> mine(r) == InScope(r, scope)
    ensures SpendOf(records, scope) == TotalOf(Filter(mine, records))
  {
    if records == [] {
    } else {
      var n := |records| - 1;
      assert records[n] in records && records == records[..n] + [records[n]];
      SpendIsTotal(records[..n], scope, mine);
      FilterConcat(mine, records[..n], [records[n]]);
      FilterOne(mine, records[n]);
      TotalConcat(Filter(mine, records[..n]), Filter(mine, [records[n]]));
      assert [records[n]][1..] == [];
    }
  }

  /** The spend of a budget is the total of all records, of its environment's, of its schema's, or none. */
  lemma SpendExact(records: seq<CostRecord>, value: string)
    ensures SpendOf(records, Global) == TotalOf(records)
    ensures SpendOf(records, OfEnv(value)) == TotalOf(Filter((r: CostRecord) => r.env == value, records))
    ensures SpendOf(records, OfSchema(value)) == TotalOf(Filter((r: CostRecord) => r.schemaId == value, records))
    ensures SpendOf(records, OfNothing) == 0.0
  {
    SpendIsTotal(records, Global, (r: CostRecord) => true);
    FilterAll((r: CostRecord) => true, records);
    SpendIsTotal(records, OfEnv(value), (r: CostRecord) => r.env == value);
    SpendIsTotal(records, OfSchema(value), (r: CostRecord) => r.schemaId == value);
    SpendIsTotal(records, OfNothing, (r: CostRecord) => false);
    FilterNone(records);
  }

  lemma {:induction false} FilterNone(records: seq<CostRecord>)
    ensures Filter((r: CostRecord) => false, records) == []
  {
    if records == [] {
    } else {
      FilterNone(records[1..]);
    }
  }
}
