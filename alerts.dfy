/**
 * The batch pipeline of src/get_alerts.py: from the bulletin's alert rows to a
 * duplicate-free table of (alert, district) records for the Moquegua region
 * (get_moquegua_alerts), and the upsert of that table into the alert history
 * store (save_to_database).
 *
 * Everything outside the process is a parameter bundled in `Env`: date
 * parsing, the HTTP client, the shapefile reader, `make_valid` and the
 * `intersects` predicate of the spatial join. A parameter that returns None
 * stands for a call that raised.
 */
module GetAlerts {
  import opened Common
  import opened GeoIdep
  import Database

  /** The department name every record carries. */
  const Department := "MOQUEGUA"

  /** Ubigeo prefix of the Moquegua department. */
  const RegionPrefix := "18"

  /** The background sub-level of an alert's shapefile. */
  const Background := "Nivel 1"

  /** Length of the province part of a ubigeo. */
  const ProvinceCodeLength := 4

  /**
   * The collaborators of one run:
   * - parseDate: `pd.to_datetime` on one cell, as a day number; None when it raises;
   * - get: `requests.get` on a URL; None when it raises (timeout, connection error);
   * - readShapefile: unzipping a body and reading its first .shp; None when there is none or reading raises;
   * - makeValid: `make_valid` on one shape; None when it raises;
   * - intersects: the predicate of `gpd.sjoin(..., predicate='intersects')`.
   */
  datatype Env<!G> = Env(
    parseDate: string -> Option<int>,
    get: string -> Option<HttpResponse>,
    readShapefile: seq<byte> -> Option<Layer<G>>,
    makeValid: G -> Option<G>,
    intersects: (G, G) -> bool)

  /** One row of the output table; Provincia is NaN when the district's province was not found. */
  datatype Record = Record(
    aviso: string, nro: string, nivel: string, inicio: string, fin: string,
    departamento: string, provincia: Option<string>, distrito: string)

  /** A row of `prov_map`: the province code ccdd + ccpp and the province name. */
  datatype ProvinceEntry = ProvinceEntry(code: string, name: string)

  /** A district after the left merge with `prov_map`. */
  datatype MatchedDistrict<G> = MatchedDistrict(district: District<G>, nombprov: Option<string>)

  // ---------------------------------------------------------------------------
  // Active alerts
  // ---------------------------------------------------------------------------

  /** `pd.to_datetime(alerts_table['fin'])` does not raise. */
  predicate DatesParse(rows: seq<AlertRow>, parse: string -> Option<int>)
  {
    forall i :: 0 <= i < |rows| ==> parse(rows[i].fin).Some?
  }

  predicate EndsOnOrAfter(parse: string -> Option<int>, today: int, a: AlertRow)
  {
    parse(a.fin).Some? && parse(a.fin).value >= today
  }

  /**
   * `alerts_table[fin_date >= today]`: the alerts whose end day is today or
   * later, in source order. Comparing a timestamp with today's midnight is
   * comparing its day with today.
   */
  function ActiveAlerts(rows: seq<AlertRow>, today: int, parse: string -> Option<int>): (r: seq<AlertRow>)
    requires DatesParse(rows, parse)
    ensures forall k :: 0 <= k < |r| ==> r[k] in rows && parse(r[k].fin).value >= today
    ensures forall i :: 0 <= i < |rows| && parse(rows[i].fin).value >= today ==> rows[i] in r
  {
    Filter(rows, Current(parse, today))
  }

  function Current(parse: string -> Option<int>, today: int): AlertRow -> bool
  {
    a => EndsOnOrAfter(parse, today, a)
  }

  /** Filtering keeps source order: the active alerts of a concatenation are those of each part. */
  lemma ActiveAlertsAppend(a: seq<AlertRow>, b: seq<AlertRow>, today: int, parse: string -> Option<int>)
    requires DatesParse(a, parse) && DatesParse(b, parse)
    ensures DatesParse(a + b, parse)
    ensures ActiveAlerts(a + b, today, parse) == ActiveAlerts(a, today, parse) + ActiveAlerts(b, today, parse)
  {
    assert forall i :: 0 <= i < |a + b| ==> (a + b)[i] == if i < |a| then a[i] else b[i - |a|];
    FilterAppend(a, b, Current(parse, today));
  }

  /** The comparison is inclusive: an alert ending today is active, one that ended yesterday is not. */
  lemma ActiveAlertsBoundary(a: AlertRow, today: int, parse: string -> Option<int>)
    requires parse(a.fin).Some?
    ensures parse(a.fin).value == today ==> ActiveAlerts([a], today, parse) == [a]
    ensures parse(a.fin).value == today - 1 ==> ActiveAlerts([a], today, parse) == []
  {
  }

  // ---------------------------------------------------------------------------
  // Districts of the region and their provinces
  // ---------------------------------------------------------------------------

  /** pandas `str.startswith`. */
  predicate StartsWith(s: string, prefix: string)
  {
    |s| >= |prefix| && s[..|prefix|] == prefix
  }

  /** `all_districts[all_districts['ubigeo'].str.startswith('18')]`. */
  function RegionDistricts<G(==)>(ds: seq<District<G>>): (r: seq<District<G>>)
    ensures forall k :: 0 <= k < |r| ==> r[k] in ds && StartsWith(r[k].ubigeo, RegionPrefix)
    ensures forall i :: 0 <= i < |ds| && StartsWith(ds[i].ubigeo, RegionPrefix) ==> ds[i] in r
  {
    Filter(ds, (d: District<G>) => StartsWith(d.ubigeo, RegionPrefix))
  }

  function EntryOf<G>(p: Province<G>): ProvinceEntry
  {
    ProvinceEntry(p.ccdd + p.ccpp, p.nombprov)
  }

  /** `prov_map`: the (ccdd + ccpp, nombprov) pairs of all provinces, duplicates dropped. */
  function ProvinceMap<G>(provs: seq<Province<G>>): (r: seq<ProvinceEntry>)
    ensures NoDuplicates(r)
    ensures forall k :: 0 <= k < |r| ==> exists i :: 0 <= i < |provs| && r[k] == EntryOf(provs[i])
    ensures forall i :: 0 <= i < |provs| ==> EntryOf(provs[i]) in r
  {
    var entries := seq(|provs|, i requires 0 <= i < |provs| => EntryOf(provs[i]));
    var r := DropDuplicates(entries);
    assert forall i :: 0 <= i < |provs| ==> entries[i] == EntryOf(provs[i]);
    assert forall k :: 0 <= k < |r| ==> r[k] in entries;
    r
  }

  /** `ubigeo.str[:4]`: the first four characters, or all of a shorter string. */
  function DistrictCode(ubigeo: string): string
  {
    if |ubigeo| <= ProvinceCodeLength then ubigeo else ubigeo[..ProvinceCodeLength]
  }

  /** The entries of `prov_map` with this code, in map order. */
  function WithCode(pm: seq<ProvinceEntry>, code: string): (r: seq<ProvinceEntry>)
    ensures forall k :: 0 <= k < |r| ==> r[k] in pm && r[k].code == code
    ensures forall e :: e in pm && e.code == code ==> e in r
    ensures |r| == 0 <==> forall e :: e in pm ==> e.code != code
  {
    var r := Filter(pm, (e: ProvinceEntry) => e.code == code);
    assert forall e :: e in pm && e.code == code ==> |r| > 0 by {
      forall e | e in pm && e.code == code ensures |r| > 0 {
        var i :| 0 <= i < |pm| && pm[i] == e;
        assert pm[i] in r;
      }
    }
    assert forall e :: e in pm && e.code == code ==> e in r by {
      forall e | e in pm && e.code == code ensures e in r {
        var i :| 0 <= i < |pm| && pm[i] == e;
        assert pm[i] in r;
      }
    }
    assert |r| > 0 ==> r[0] in pm && r[0].code == code;
    r
  }

  /**
   * The province a merged row carries agrees with `prov_map`: missing exactly
   * when no entry has the district's code, otherwise the name of such an entry.
   */
  predicate ProvinceFound<G>(m: MatchedDistrict<G>, pm: seq<ProvinceEntry>)
  {
    && (m.nombprov.None? <==> |WithCode(pm, DistrictCode(m.district.ubigeo))| == 0)
    && (m.nombprov.Some? ==> ProvinceEntry(DistrictCode(m.district.ubigeo), m.nombprov.value) in pm)
  }

  /**
   * The left merge for one district: one row per entry of `prov_map` whose
   * code is the district's, in map order; one row with no province when none is.
   */
  function JoinDistrict<G(==)>(d: District<G>, pm: seq<ProvinceEntry>): (r: seq<MatchedDistrict<G>>)
    ensures |r| == if |WithCode(pm, DistrictCode(d.ubigeo))| == 0 then 1 else |WithCode(pm, DistrictCode(d.ubigeo))|
    ensures forall k :: 0 <= k < |r| ==> r[k].district == d && ProvinceFound(r[k], pm)
    ensures forall e :: e in pm && e.code == DistrictCode(d.ubigeo) ==> MatchedDistrict(d, Some(e.name)) in r
  {
    var ms := WithCode(pm, DistrictCode(d.ubigeo));
    if |ms| == 0 then [MatchedDistrict(d, None)]
    else
      assert ms[0] in pm;
      var r := seq(|ms|, k requires 0 <= k < |ms| => MatchedDistrict(d, Some(ms[k].name)));
      assert forall e :: e in pm && e.code == DistrictCode(d.ubigeo) ==> MatchedDistrict(d, Some(e.name)) in r by {
        forall e | e in pm && e.code == DistrictCode(d.ubigeo) ensures MatchedDistrict(d, Some(e.name)) in r {
          var k :| 0 <= k < |ms| && ms[k] == e;
          assert r[k] == MatchedDistrict(d, Some(e.name));
        }
      }
      r
  }

  /**
   * `moquegua_dists.merge(prov_map, on='prov_code', how='left')`: every row is
   * a district of the input with its province as `prov_map` gives it, and no
   * district is dropped.
   */
  function LeftJoin<G(==)>(ds: seq<District<G>>, pm: seq<ProvinceEntry>): (r: seq<MatchedDistrict<G>>)
    ensures |r| >= |ds|
    ensures forall k :: 0 <= k < |r| ==> r[k].district in ds && ProvinceFound(r[k], pm)
    ensures forall i, e :: 0 <= i < |ds| && e in pm && e.code == DistrictCode(ds[i].ubigeo)
              ==> MatchedDistrict(ds[i], Some(e.name)) in r
  {
    if |ds| == 0 then []
    else
      var head := JoinDistrict(ds[0], pm);
      var rest := LeftJoin(ds[1..], pm);
      JoinConcat(ds, head, rest, pm);
      head + rest
  }

  lemma JoinConcat<G>(ds: seq<District<G>>, head: seq<MatchedDistrict<G>>, rest: seq<MatchedDistrict<G>>, pm: seq<ProvinceEntry>)
    requires |ds| > 0 && |head| >= 1 && |rest| >= |ds| - 1
    requires forall k :: 0 <= k < |head| ==> head[k].district == ds[0] && ProvinceFound(head[k], pm)
    requires forall k :: 0 <= k < |rest| ==> rest[k].district in ds[1..] && ProvinceFound(rest[k], pm)
    requires forall e :: e in pm && e.code == DistrictCode(ds[0].ubigeo) ==> MatchedDistrict(ds[0], Some(e.name)) in head
    requires forall i, e :: 0 <= i < |ds[1..]| && e in pm && e.code == DistrictCode(ds[1..][i].ubigeo)
               ==> MatchedDistrict(ds[1..][i], Some(e.name)) in rest
    ensures |head + rest| >= |ds|
    ensures forall k :: 0 <= k < |head + rest| ==> (head + rest)[k].district in ds && ProvinceFound((head + rest)[k], pm)
    ensures forall i, e :: 0 <= i < |ds| && e in pm && e.code == DistrictCode(ds[i].ubigeo)
              ==> MatchedDistrict(ds[i], Some(e.name)) in head + rest
  {
    var r := head + rest;
    forall i, e | 0 <= i < |ds| && e in pm && e.code == DistrictCode(ds[i].ubigeo)
      ensures MatchedDistrict(ds[i], Some(e.name)) in r
    {
      if i > 0 {
        assert ds[i] == ds[1..][i - 1];
      }
    }
    forall k | 0 <= k < |r| ensures r[k].district in ds && ProvinceFound(r[k], pm) {
      if k < |head| {
        assert r[k] == head[k];
      } else {
        assert r[k] == rest[k - |head|];
        assert rest[k - |head|].district in ds[1..];
      }
    }
  }

  /** The merge is a left join: no district is dropped. */
  lemma {:induction false} LeftJoinKeepsDistricts<G>(ds: seq<District<G>>, pm: seq<ProvinceEntry>, i: nat)
    requires i < |ds|
    ensures exists k :: 0 <= k < |LeftJoin(ds, pm)| && LeftJoin(ds, pm)[k].district == ds[i]
  {
    var head: seq<MatchedDistrict<G>> := JoinDistrict(ds[0], pm);
    var rest: seq<MatchedDistrict<G>> := LeftJoin(ds[1..], pm);
    assert LeftJoin(ds, pm) == head + rest;
    if i == 0 {
      assert (head + rest)[0].district == ds[0];
    } else {
      LeftJoinKeepsDistricts(ds[1..], pm, i - 1);
      var k :| 0 <= k < |rest| && rest[k].district == ds[1..][i - 1];
      assert (head + rest)[|head| + k] == rest[k];
    }
  }

  predicate CodesUnique(pm: seq<ProvinceEntry>)
  {
    forall i, j :: 0 <= i < j < |pm| ==> pm[i].code != pm[j].code
  }

  /** With one name per code, at most one entry has a given code. */
  lemma {:induction false} WithCodeAtMostOne(pm: seq<ProvinceEntry>, code: string)
    requires CodesUnique(pm)
    ensures |WithCode(pm, code)| <= 1
  {
    if |pm| > 0 {
      var p := (e: ProvinceEntry) => e.code == code;
      assert Filter(pm, p) == (if p(pm[0]) then [pm[0]] else []) + Filter(pm[1..], p);
      if pm[0].code == code {
        FilterNone(pm[1..], p);
      } else {
        WithCodeAtMostOne(pm[1..], code);
        assert WithCode(pm[1..], code) == Filter(pm[1..], p);
      }
    }
  }

  lemma JoinDistrictUnique<G>(d: District<G>, pm: seq<ProvinceEntry>)
    requires CodesUnique(pm)
    ensures |JoinDistrict(d, pm)| == 1 && JoinDistrict(d, pm)[0].district == d
  {
    WithCodeAtMostOne(pm, DistrictCode(d.ubigeo));
  }

  lemma OneThenRest<G>(ds: seq<District<G>>, head: seq<MatchedDistrict<G>>, rest: seq<MatchedDistrict<G>>)
    requires |ds| > 0 && |head| == 1 && head[0].district == ds[0]
    requires |rest| == |ds| - 1 && forall i :: 0 <= i < |rest| ==> rest[i].district == ds[1..][i]
    ensures |head + rest| == |ds| && forall i :: 0 <= i < |ds| ==> (head + rest)[i].district == ds[i]
  {
    forall i | 0 <= i < |ds| ensures (head + rest)[i].district == ds[i] {
      if i > 0 {
        assert (head + rest)[i] == rest[i - 1];
      }
    }
  }

  /** With one name per code, the merge yields exactly one row per district, in order. */
  lemma {:induction false} LeftJoinOnePerDistrict<G>(ds: seq<District<G>>, pm: seq<ProvinceEntry>)
    requires CodesUnique(pm)
    ensures |LeftJoin(ds, pm)| == |ds|
    ensures forall i :: 0 <= i < |ds| ==> LeftJoin(ds, pm)[i].district == ds[i]
  {
    if |ds| > 0 {
      LeftJoinOnePerDistrict(ds[1..], pm);
      JoinDistrictUnique(ds[0], pm);
      OneThenRest(ds, JoinDistrict(ds[0], pm), LeftJoin(ds[1..], pm));
    }
  }

  // ---------------------------------------------------------------------------
  // make_valid
  // ---------------------------------------------------------------------------

  function WithGeom<G>(m: MatchedDistrict<G>, g: G): MatchedDistrict<G>
  {
    m.(district := m.district.(geom := g))
  }

  /** `moquegua_dists['geometry'].make_valid()`: every shape repaired, or None when one repair raises. */
  function RepairDistricts<G>(ms: seq<MatchedDistrict<G>>, makeValid: G -> Option<G>): (r: Option<seq<MatchedDistrict<G>>>)
    ensures r.Some? <==> forall i :: 0 <= i < |ms| ==> makeValid(ms[i].district.geom).Some?
    ensures r.Some? ==> |r.value| == |ms|
    ensures r.Some? ==> forall i :: 0 <= i < |ms| ==> r.value[i] == WithGeom(ms[i], makeValid(ms[i].district.geom).value)
  {
    if |ms| == 0 then Some([])
    else
      match makeValid(ms[0].district.geom)
      case None => None
      case Some(g) =>
        match RepairDistricts(ms[1..], makeValid)
        case None => None
        case Some(rest) => Some([WithGeom(ms[0], g)] + rest)
  }

  /** `alert_geom['geometry'].make_valid()`. */
  function RepairFeatures<G>(fs: seq<Feature<G>>, makeValid: G -> Option<G>): (r: Option<seq<Feature<G>>>)
    ensures r.Some? <==> forall i :: 0 <= i < |fs| ==> makeValid(fs[i].geom).Some?
    ensures r.Some? ==> |r.value| == |fs|
    ensures r.Some? ==> forall i :: 0 <= i < |fs| ==> r.value[i] == Feature(fs[i].nivel, makeValid(fs[i].geom).value)
  {
    if |fs| == 0 then Some([])
    else
      match makeValid(fs[0].geom)
      case None => None
      case Some(g) =>
        match RepairFeatures(fs[1..], makeValid)
        case None => None
        case Some(rest) => Some([Feature(fs[0].nivel, g)] + rest)
  }

  // ---------------------------------------------------------------------------
  // One alert
  // ---------------------------------------------------------------------------

  predicate NotBackground<G>(f: Feature<G>)
  {
    f.nivel != Background
  }

  /** `alert_geom[alert_geom['nivel'] != 'Nivel 1']`. */
  function NonBackground<G(==)>(fs: seq<Feature<G>>): (r: seq<Feature<G>>)
    ensures forall k :: 0 <= k < |r| ==> r[k] in fs && r[k].nivel != Background
    ensures forall i :: 0 <= i < |fs| && fs[i].nivel != Background ==> fs[i] in r
  {
    Filter(fs, NotBackground)
  }

  /**
   * The features an alert is intersected with; empty when the alert is
   * skipped: no geometry, an empty one, a repair that raised, or nothing left
   * after dropping the background features.
   */
  function AlertFeatures<G(==)>(a: AlertRow, env: Env<G>): seq<Feature<G>>
  {
    match SpatialAlerts(a, env.get, env.readShapefile)
    case None => []
    case Some(layer) =>
      if |layer.features| == 0 then []
      else
        match RepairFeatures(layer.features, env.makeValid)
        case None => []
        case Some(fs) => if layer.hasNivel then NonBackground(fs) else fs
  }

  /** Rows of the spatial join for one district: the district once per feature it intersects. */
  function Hits<G(==)>(d: MatchedDistrict<G>, fs: seq<Feature<G>>, intersects: (G, G) -> bool): (r: seq<MatchedDistrict<G>>)
    ensures forall k :: 0 <= k < |r| ==> r[k] == d
    ensures |r| > 0 <==> exists j :: 0 <= j < |fs| && intersects(d.district.geom, fs[j].geom)
  {
    if |fs| == 0 then []
    else
      var rest := Hits(d, fs[1..], intersects);
      assert forall j :: 1 <= j < |fs| ==> fs[j] == fs[1..][j - 1];
      (if intersects(d.district.geom, fs[0].geom) then [d] else []) + rest
  }

  /**
   * `gpd.sjoin(moquegua_dists, alert_geom, how='inner', predicate='intersects')`:
   * one row per intersecting (district, feature) pair, in district order.
   */
  function SpatialJoin<G(==)>(ds: seq<MatchedDistrict<G>>, fs: seq<Feature<G>>, intersects: (G, G) -> bool): seq<MatchedDistrict<G>>
  {
    if |ds| == 0 then []
    else Hits(ds[0], fs, intersects) + SpatialJoin(ds[1..], fs, intersects)
  }

  /** Every district that intersects one of the features has a row in the spatial join. */
  lemma {:induction false} SpatialJoinComplete<G>(ds: seq<MatchedDistrict<G>>, fs: seq<Feature<G>>,
                                                  intersects: (G, G) -> bool, i: nat, j: nat)
    requires i < |ds| && j < |fs| && intersects(ds[i].district.geom, fs[j].geom)
    ensures ds[i] in SpatialJoin(ds, fs, intersects)
  {
    var head := Hits(ds[0], fs, intersects);
    var rest := SpatialJoin(ds[1..], fs, intersects);
    assert SpatialJoin(ds, fs, intersects) == head + rest;
    if i == 0 {
      assert head[0] == ds[0];
    } else {
      assert ds[1..][i - 1] == ds[i];
      SpatialJoinComplete(ds[1..], fs, intersects, i - 1, j);
      assert ds[i] in rest;
    }
  }

  /** Every row of the spatial join is a district together with a feature it intersects. */
  lemma {:induction false} SpatialJoinSound<G>(ds: seq<MatchedDistrict<G>>, fs: seq<Feature<G>>,
                                               intersects: (G, G) -> bool, k: nat)
    returns (i: nat, j: nat)
    requires k < |SpatialJoin(ds, fs, intersects)|
    ensures i < |ds| && j < |fs| && intersects(ds[i].district.geom, fs[j].geom)
    ensures SpatialJoin(ds, fs, intersects)[k] == ds[i]
  {
    var head := Hits(ds[0], fs, intersects);
    var rest := SpatialJoin(ds[1..], fs, intersects);
    assert SpatialJoin(ds, fs, intersects) == head + rest;
    if k < |head| {
      assert |head| > 0;
      i := 0;
      j :| 0 <= j < |fs| && intersects(ds[0].district.geom, fs[j].geom);
    } else {
      var i', j' := SpatialJoinSound(ds[1..], fs, intersects, k - |head|);
      i, j := i' + 1, j';
    }
  }

  // ---------------------------------------------------------------------------
  // Records
  // ---------------------------------------------------------------------------

  /** The dictionary appended for one row of the spatial join. */
  function MakeRecord<G>(a: AlertRow, m: MatchedDistrict<G>): Record
  {
    Record(a.aviso, a.nro, a.nivel, a.inicio, a.fin, Department, m.nombprov, m.district.nombdist)
  }

  function Records<G>(a: AlertRow, ms: seq<MatchedDistrict<G>>): (r: seq<Record>)
    ensures |r| == |ms|
  {
    seq(|ms|, k requires 0 <= k < |ms| => MakeRecord(a, ms[k]))
  }

  lemma RecordsStep<G>(a: AlertRow, ms: seq<MatchedDistrict<G>>, k: nat)
    requires k < |ms|
    ensures Records(a, ms[..k + 1]) == Records(a, ms[..k]) + [MakeRecord(a, ms[k])]
  {
    var x := Records(a, ms[..k + 1]);
    var y := Records(a, ms[..k]) + [MakeRecord(a, ms[k])];
    assert |x| == |y|;
    forall j | 0 <= j < |x| ensures x[j] == y[j] {
      assert ms[..k + 1][j] == ms[j];
      if j < k {
        assert ms[..k][j] == ms[j];
      }
    }
  }

  /** The records one active alert contributes, given the prepared districts. */
  function AlertRecords<G(==)>(a: AlertRow, dists: seq<MatchedDistrict<G>>, env: Env<G>): seq<Record>
  {
    Records(a, SpatialJoin(dists, AlertFeatures(a, env), env.intersects))
  }

  /** The records each alert contributes, as a function of the alert. */
  function RecordsOf<G(==)>(dists: seq<MatchedDistrict<G>>, env: Env<G>): AlertRow -> seq<Record>
  {
    (a: AlertRow) => AlertRecords(a, dists, env)
  }

  /** The records of a sequence of alerts, alert after alert. */
  function AllRecords<G(==)>(alerts: seq<AlertRow>, dists: seq<MatchedDistrict<G>>, env: Env<G>): seq<Record>
  {
    ConcatMap(alerts, RecordsOf(dists, env))
  }

  /** One more alert appends its own records. */
  lemma AllRecordsStep<G>(alerts: seq<AlertRow>, i: nat, dists: seq<MatchedDistrict<G>>, env: Env<G>)
    requires i < |alerts|
    ensures AllRecords(alerts[..i + 1], dists, env) == AllRecords(alerts[..i], dists, env) + AlertRecords(alerts[i], dists, env)
  {
    ConcatMapStep(alerts, i, RecordsOf(dists, env));
  }

  /** An alert that is skipped before the spatial join contributes nothing. */
  lemma NoFeaturesNoRecords<G>(a: AlertRow, dists: seq<MatchedDistrict<G>>, env: Env<G>)
    requires AlertFeatures(a, env) == []
    ensures AlertRecords(a, dists, env) == []
  {
    NoHits(dists, [], env.intersects);
  }

  /** With no intersecting (district, feature) pair, the spatial join is empty. */
  lemma {:induction false} NoHits<G>(ds: seq<MatchedDistrict<G>>, fs: seq<Feature<G>>, intersects: (G, G) -> bool)
    requires forall i, j :: 0 <= i < |ds| && 0 <= j < |fs| ==> !intersects(ds[i].district.geom, fs[j].geom)
    ensures SpatialJoin(ds, fs, intersects) == []
  {
    if |ds| > 0 {
      assert |Hits(ds[0], fs, intersects)| == 0;
      assert forall i :: 1 <= i < |ds| ==> ds[i] == ds[1..][i - 1];
      NoHits(ds[1..], fs, intersects);
    }
  }

  /** Each alert contributes on its own: one that is skipped does not change the records of the others. */
  lemma AllRecordsAppend<G>(a: seq<AlertRow>, b: seq<AlertRow>, dists: seq<MatchedDistrict<G>>, env: Env<G>)
    ensures AllRecords(a + b, dists, env) == AllRecords(a, dists, env) + AllRecords(b, dists, env)
  {
    ConcatMapAppend(a, b, RecordsOf(dists, env));
  }

  /**
   * get_moquegua_alerts: None when the run raises (an end date that does not
   * parse; a district shape that make_valid cannot repair), otherwise the
   * duplicate-free records. An empty DataFrame is the empty table.
   */
  function MoqueguaAlerts<G(==)>(rows: seq<AlertRow>, today: int, districts: seq<District<G>>,
                                 provinces: seq<Province<G>>, env: Env<G>): Option<seq<Record>>
  {
    if !DatesParse(rows, env.parseDate) then None
    else
      var active := ActiveAlerts(rows, today, env.parseDate);
      if |active| == 0 then Some([])
      else
        match PreparedDistricts(districts, provinces, env)
        case None => None
        case Some(dists) => Some(DropDuplicates(AllRecords(active, dists, env)))
  }

  /** The districts of a run, joined with their provinces and repaired; None when a repair raises. */
  function PreparedDistricts<G(==)>(districts: seq<District<G>>, provinces: seq<Province<G>>, env: Env<G>): Option<seq<MatchedDistrict<G>>>
  {
    RepairDistricts(LeftJoin(RegionDistricts(districts), ProvinceMap(provinces)), env.makeValid)
  }

  /**
   * The body of the `try` block for one alert: the records it contributes, or
   * none when it is skipped (`continue`) or raises.
   */
  method ProcessAlert<G(==)>(alert: AlertRow, dists: seq<MatchedDistrict<G>>, env: Env<G>) returns (records: seq<Record>)
    ensures records == AlertRecords(alert, dists, env)
  {
    records := [];
    var layer := SpatialAlerts(alert, env.get, env.readShapefile);
    if layer.None? || |layer.value.features| == 0 {
      NoFeaturesNoRecords(alert, dists, env);
      return;
    }
    var valid := RepairFeatures(layer.value.features, env.makeValid);
    if valid.None? {
      NoFeaturesNoRecords(alert, dists, env);
      return;
    }
    var features := valid.value;
    if layer.value.hasNivel {
      features := NonBackground(features);
      if |features| == 0 {
        NoFeaturesNoRecords(alert, dists, env);
        return;
      }
    }
    assert features == AlertFeatures(alert, env);
    var intersections := SpatialJoin(dists, features, env.intersects);
    if |intersections| == 0 {
      return;
    }
    assert Records(alert, intersections[..0]) == [];
    for k := 0 to |intersections|
      invariant records == Records(alert, intersections[..k])
    {
      RecordsStep(alert, intersections, k);
      records := records + [MakeRecord(alert, intersections[k])];
    }
    assert intersections[..|intersections|] == intersections;
  }

  /** The imperative body of get_moquegua_alerts computes MoqueguaAlerts. */
  method GetMoqueguaAlerts<G(==)>(rows: seq<AlertRow>, today: int, districts: seq<District<G>>,
                                  provinces: seq<Province<G>>, env: Env<G>)
    returns (result: Option<seq<Record>>)
    ensures result == MoqueguaAlerts(rows, today, districts, provinces, env)
  {
    if !DatesParse(rows, env.parseDate) {
      return None;
    }
    var active := ActiveAlerts(rows, today, env.parseDate);
    if |active| == 0 {
      return Some([]);
    }
    var repaired := PreparedDistricts(districts, provinces, env);
    if repaired.None? {
      return None;
    }
    var dists := repaired.value;
    var detailed: seq<Record> := [];
    var i := 0;
    while i < |active|
      invariant 0 <= i <= |active|
      invariant detailed == AllRecords(active[..i], dists, env)
    {
      AllRecordsStep(active, i, dists, env);
      var records := ProcessAlert(active[i], dists, env);
      detailed := detailed + records;
      i := i + 1;
    }
    assert active[..|active|] == active;
    if |detailed| == 0 {
      return Some([]);
    }
    return Some(DropDuplicates(detailed));
  }

  // ---------------------------------------------------------------------------
  // What the output table promises
  // ---------------------------------------------------------------------------

  /**
   * A record of one alert copies the alert's five columns, names MOQUEGUA, and
   * describes a prepared district that intersects one of the alert's kept features.
   */
  lemma AlertRecordOrigin<G>(a: AlertRow, dists: seq<MatchedDistrict<G>>, env: Env<G>, rec: Record)
    requires rec in AlertRecords(a, dists, env)
    ensures rec.aviso == a.aviso && rec.nro == a.nro && rec.nivel == a.nivel
    ensures rec.inicio == a.inicio && rec.fin == a.fin && rec.departamento == Department
    ensures exists i, j :: (0 <= i < |dists| && 0 <= j < |AlertFeatures(a, env)| &&
      env.intersects(dists[i].district.geom, AlertFeatures(a, env)[j].geom) &&
      rec == MakeRecord(a, dists[i]))
  {
    var fs := AlertFeatures(a, env);
    var hits := SpatialJoin(dists, fs, env.intersects);
    var k :| 0 <= k < |hits| && Records(a, hits)[k] == rec;
    assert rec == MakeRecord(a, hits[k]);
    var i, j := SpatialJoinSound(dists, fs, env.intersects, k);
  }

  /**
   * Every active alert appears alongside every prepared district that
   * intersects one of its kept features.
   */
  lemma AlertRecordComplete<G>(a: AlertRow, dists: seq<MatchedDistrict<G>>, env: Env<G>, i: nat, j: nat)
    requires i < |dists| && j < |AlertFeatures(a, env)|
    requires env.intersects(dists[i].district.geom, AlertFeatures(a, env)[j].geom)
    ensures MakeRecord(a, dists[i]) in AlertRecords(a, dists, env)
  {
    var hits := SpatialJoin(dists, AlertFeatures(a, env), env.intersects);
    SpatialJoinComplete(dists, AlertFeatures(a, env), env.intersects, i, j);
    var k :| 0 <= k < |hits| && hits[k] == dists[i];
    assert Records(a, hits)[k] == MakeRecord(a, dists[i]);
  }

  /**
   * A prepared district is a district of the region, with its geometry
   * repaired and the province `prov_map` gives for its code.
   */
  lemma PreparedDistrictOrigin<G>(districts: seq<District<G>>, provinces: seq<Province<G>>, env: Env<G>,
                                  dists: seq<MatchedDistrict<G>>, m: nat)
    requires PreparedDistricts(districts, provinces, env) == Some(dists) && m < |dists|
    ensures exists d :: (d in districts && StartsWith(d.ubigeo, RegionPrefix) &&
      d.ubigeo == dists[m].district.ubigeo && d.nombdist == dists[m].district.nombdist &&
      ProvinceFound(MatchedDistrict(d, dists[m].nombprov), ProvinceMap(provinces)))
  {
    var joined := LeftJoin(RegionDistricts(districts), ProvinceMap(provinces));
    assert |dists| == |joined|;
    assert dists[m] == WithGeom(joined[m], env.makeValid(joined[m].district.geom).value);
    var d := joined[m].district;
    assert d in RegionDistricts(districts);
    assert MatchedDistrict(d, dists[m].nombprov) == joined[m];
  }

  /** A successful run that lists something went through every step. */
  lemma MoqueguaSteps<G>(rows: seq<AlertRow>, today: int, districts: seq<District<G>>,
                         provinces: seq<Province<G>>, env: Env<G>, t: seq<Record>)
    requires MoqueguaAlerts(rows, today, districts, provinces, env) == Some(t) && t != []
    ensures DatesParse(rows, env.parseDate)
    ensures PreparedDistricts(districts, provinces, env).Some?
    ensures t == DropDuplicates(AllRecords(ActiveAlerts(rows, today, env.parseDate),
                                           PreparedDistricts(districts, provinces, env).value, env))
  {
  }

  /** The alert and the district a record of a sequence of alerts was made from. */
  lemma AllRecordsSource<G>(alerts: seq<AlertRow>, dists: seq<MatchedDistrict<G>>, env: Env<G>, rec: Record)
    returns (a: AlertRow, m: nat)
    requires rec in AllRecords(alerts, dists, env)
    ensures a in alerts && m < |dists| && rec == MakeRecord(a, dists[m])
  {
    var i := ConcatMapFrom(alerts, RecordsOf(dists, env), rec);
    a := alerts[i];
    AlertRecordOrigin(a, dists, env, rec);
    var m', j :| (0 <= m' < |dists| && 0 <= j < |AlertFeatures(a, env)| &&
      env.intersects(dists[m'].district.geom, AlertFeatures(a, env)[j].geom) &&
      rec == MakeRecord(a, dists[m']));
    m := m';
  }

  /** The alert and the prepared district a record of a successful run was made from. */
  lemma MoqueguaRecordSource<G>(rows: seq<AlertRow>, today: int, districts: seq<District<G>>,
                                provinces: seq<Province<G>>, env: Env<G>, t: seq<Record>, rec: Record)
    returns (a: AlertRow, dists: seq<MatchedDistrict<G>>, m: nat)
    requires MoqueguaAlerts(rows, today, districts, provinces, env) == Some(t)
    requires rec in t
    ensures a in rows && EndsOnOrAfter(env.parseDate, today, a)
    ensures PreparedDistricts(districts, provinces, env) == Some(dists) && m < |dists|
    ensures rec == MakeRecord(a, dists[m])
  {
    MoqueguaSteps(rows, today, districts, provinces, env, t);
    var active := ActiveAlerts(rows, today, env.parseDate);
    dists := PreparedDistricts(districts, provinces, env).value;
    var n :| 0 <= n < |t| && t[n] == rec;
    a, m := AllRecordsSource(active, dists, env, rec);
  }

  /**
   * Each record of a successful run stems from an alert of the bulletin that
   * ends today or later, and from a district of the region (ubigeo starting
   * "18"), with the province `prov_map` gives for the district's code, or none
   * exactly when no code matches.
   */
  lemma MoqueguaRecordOrigin<G>(rows: seq<AlertRow>, today: int, districts: seq<District<G>>,
                                provinces: seq<Province<G>>, env: Env<G>, t: seq<Record>, rec: Record)
    requires MoqueguaAlerts(rows, today, districts, provinces, env) == Some(t)
    requires rec in t
    ensures rec.departamento == Department
    ensures exists a :: (a in rows && EndsOnOrAfter(env.parseDate, today, a) &&
      rec.aviso == a.aviso && rec.nro == a.nro && rec.nivel == a.nivel && rec.inicio == a.inicio && rec.fin == a.fin)
    ensures exists d :: (d in districts && StartsWith(d.ubigeo, RegionPrefix) && d.nombdist == rec.distrito &&
      ProvinceFound(MatchedDistrict(d, rec.provincia), ProvinceMap(provinces)))
  {
    var a, dists, m := MoqueguaRecordSource(rows, today, districts, provinces, env, t, rec);
    PreparedDistrictOrigin(districts, provinces, env, dists, m);
  }

  /**
   * Conversely, a successful run lists every alert of the bulletin that ends
   * today or later with every prepared district that intersects one of its
   * kept features.
   */
  lemma MoqueguaRecordComplete<G>(rows: seq<AlertRow>, today: int, districts: seq<District<G>>,
                                      provinces: seq<Province<G>>, env: Env<G>, t: seq<Record>,
                                      a: AlertRow, dists: seq<MatchedDistrict<G>>, i: nat, j: nat)
    requires MoqueguaAlerts(rows, today, districts, provinces, env) == Some(t)
    requires a in rows && env.parseDate(a.fin).Some? && env.parseDate(a.fin).value >= today
    requires PreparedDistricts(districts, provinces, env) == Some(dists)
    requires i < |dists| && j < |AlertFeatures(a, env)|
    requires env.intersects(dists[i].district.geom, AlertFeatures(a, env)[j].geom)
    ensures MakeRecord(a, dists[i]) in t
  {
    var active := ActiveAlerts(rows, today, env.parseDate);
    var n :| 0 <= n < |rows| && rows[n] == a;
    assert a in active;
    var k :| 0 <= k < |active| && active[k] == a;
    AlertRecordComplete(a, dists, env, i, j);
    var all := AllRecords(active, dists, env);
    ConcatMapHas(active, RecordsOf(dists, env), k, MakeRecord(a, dists[i]));
    assert MakeRecord(a, dists[i]) in all;
    var q :| 0 <= q < |all| && all[q] == MakeRecord(a, dists[i]);
    assert t == DropDuplicates(all);
  }

  /** drop_duplicates at the end: a successful run has no repeated record, and deduplicating again changes nothing. */
  lemma MoqueguaNoDuplicates<G>(rows: seq<AlertRow>, today: int, districts: seq<District<G>>,
                                    provinces: seq<Province<G>>, env: Env<G>, t: seq<Record>)
    requires MoqueguaAlerts(rows, today, districts, provinces, env) == Some(t)
    ensures NoDuplicates(t)
    ensures DropDuplicates(t) == t
  {
    DropDuplicatesOfDistinct(t);
  }

  /** A run fails as a whole when an end date does not parse, whatever else holds. */
  lemma MoqueguaUnparsableDate<G>(rows: seq<AlertRow>, today: int, districts: seq<District<G>>,
                                      provinces: seq<Province<G>>, env: Env<G>, i: nat)
    requires i < |rows| && env.parseDate(rows[i].fin).None?
    ensures MoqueguaAlerts(rows, today, districts, provinces, env).None?
  {
  }

  /** Without an active alert the run returns the empty table before any district is loaded. */
  lemma MoqueguaNothingActive<G>(rows: seq<AlertRow>, today: int, districts: seq<District<G>>,
                                     provinces: seq<Province<G>>, env: Env<G>)
    requires DatesParse(rows, env.parseDate)
    requires forall i :: 0 <= i < |rows| ==> env.parseDate(rows[i].fin).value < today
    ensures MoqueguaAlerts(rows, today, districts, provinces, env) == Some([])
  {
    FilterNone(rows, Current(env.parseDate, today));
  }

  /** A shapefile with a nivel column whose features are all background contributes no record. */
  lemma OnlyBackgroundNoRecords<G>(a: AlertRow, dists: seq<MatchedDistrict<G>>, env: Env<G>, layer: Layer<G>)
    requires SpatialAlerts(a, env.get, env.readShapefile) == Some(layer) && layer.hasNivel
    requires forall i :: 0 <= i < |layer.features| ==> layer.features[i].nivel == Background
    ensures AlertRecords(a, dists, env) == []
  {
    var repaired := RepairFeatures(layer.features, env.makeValid);
    if |layer.features| > 0 && repaired.Some? {
      FilterNone(repaired.value, NotBackground);
    }
    NoFeaturesNoRecords(a, dists, env);
  }

  /** With a nivel column, background features never reach the spatial join. */
  lemma BackgroundNeverJoined<G>(a: AlertRow, env: Env<G>, layer: Layer<G>)
    requires SpatialAlerts(a, env.get, env.readShapefile) == Some(layer) && layer.hasNivel
    ensures forall j :: 0 <= j < |AlertFeatures(a, env)| ==> AlertFeatures(a, env)[j].nivel != Background
  {
  }

  /**
   * One alert whose shape, at a sub-level above the background, intersects
   * districts A and C but not B yields exactly two records, in district order.
   */
  lemma TwoOfThreeDistricts<G>(a: AlertRow, da: MatchedDistrict<G>, db: MatchedDistrict<G>, dc: MatchedDistrict<G>,
                                   g: G, env: Env<G>)
    requires SpatialAlerts(a, env.get, env.readShapefile) == Some(Layer(true, [Feature("Nivel 3", g)]))
    requires env.makeValid(g) == Some(g)
    requires env.intersects(da.district.geom, g) && !env.intersects(db.district.geom, g)
    requires env.intersects(dc.district.geom, g)
    ensures AlertRecords(a, [da, db, dc], env) == [MakeRecord(a, da), MakeRecord(a, dc)]
  {
    var fs := [Feature("Nivel 3", g)];
    var repaired := RepairFeatures(fs, env.makeValid);
    assert repaired.Some? && |repaired.value| == 1 && repaired.value[0] == fs[0];
    assert repaired.value == fs;
    assert NonBackground(fs) == fs by {
      FilterAll(fs, NotBackground);
    }
    assert AlertFeatures(a, env) == fs;
    TwoOfThreeJoin(da, db, dc, g, env.intersects);
  }

  lemma TwoOfThreeJoin<G>(da: MatchedDistrict<G>, db: MatchedDistrict<G>, dc: MatchedDistrict<G>, g: G, intersects: (G, G) -> bool)
    requires intersects(da.district.geom, g) && !intersects(db.district.geom, g) && intersects(dc.district.geom, g)
    ensures SpatialJoin([da, db, dc], [Feature("Nivel 3", g)], intersects) == [da, dc]
  {
    var fs := [Feature("Nivel 3", g)];
    assert fs[1..] == [];
    var ds := [da, db, dc];
    assert Hits(da, fs, intersects) == [da];
    assert Hits(db, fs, intersects) == [];
    assert Hits(dc, fs, intersects) == [dc];
    assert ds[1..] == [db, dc] && ds[1..][1..] == [dc] && ds[1..][1..][1..] == [];
    assert SpatialJoin([dc], fs, intersects) == [dc];
  }

  // ---------------------------------------------------------------------------
  // The static fallback tables
  // ---------------------------------------------------------------------------

  /** The province a fallback district's ubigeo designates: its third and fourth digits. */
  function FallbackProvinceIndex(k: nat): nat
  {
    if k < 6 then 0 else if k < 11 then 1 else 2
  }

  lemma FallbackProvinceMap<G>(disc: (real, real, real) -> G)
    ensures ProvinceMap(FallbackProvinces(disc)) ==
      [ProvinceEntry("1801", "MARISCAL NIETO"), ProvinceEntry("1802", "GENERAL SANCHEZ CERRO"), ProvinceEntry("1803", "ILO")]
  {
    var provs := FallbackProvinces(disc);
    var entries := seq(|provs|, i requires 0 <= i < |provs| => EntryOf(provs[i]));
    assert |entries| == 3;
    assert entries[0] == ProvinceEntry("18" + "01", "MARISCAL NIETO");
    assert entries[1] == ProvinceEntry("18" + "02", "GENERAL SANCHEZ CERRO");
    assert entries[2] == ProvinceEntry("18" + "03", "ILO");
    assert "18" + "01" == "1801" && "18" + "02" == "1802" && "18" + "03" == "1803";
    assert entries ==
      [ProvinceEntry("1801", "MARISCAL NIETO"), ProvinceEntry("1802", "GENERAL SANCHEZ CERRO"), ProvinceEntry("1803", "ILO")];
    DropDuplicatesOfDistinct(entries);
  }

  /** The first four digits of each fallback ubigeo. */
  lemma FallbackCodes()
    ensures forall k :: 0 <= k < 21 ==>
      DistrictCode(FallbackUbigeos[k]) == ["1801", "1802", "1803"][FallbackProvinceIndex(k)]
  {
    forall k | 0 <= k < 21
      ensures DistrictCode(FallbackUbigeos[k]) == ["1801", "1802", "1803"][FallbackProvinceIndex(k)]
    {
      assert |FallbackUbigeos[k]| == 6;
    }
  }

  lemma FallbackRegion<G>(disc: (real, real, real) -> G)
    ensures RegionDistricts(FallbackDistricts(disc)) == FallbackDistricts(disc)
  {
    FallbackUbigeosWellFormed();
    var ds := FallbackDistricts(disc);
    forall i | 0 <= i < |ds| ensures StartsWith(ds[i].ubigeo, RegionPrefix) {
      assert ds[i].ubigeo == FallbackUbigeos[i];
    }
    FilterAll(ds, (d: District<G>) => StartsWith(d.ubigeo, RegionPrefix));
  }

  lemma FallbackJoinRow<G>(ds: seq<District<G>>, pm: seq<ProvinceEntry>, joined: seq<MatchedDistrict<G>>, k: nat)
    requires |ds| == 21 && |joined| == 21 && k < 21
    requires forall i :: 0 <= i < 21 ==> ds[i].ubigeo == FallbackUbigeos[i]
    requires pm == [ProvinceEntry("1801", "MARISCAL NIETO"), ProvinceEntry("1802", "GENERAL SANCHEZ CERRO"), ProvinceEntry("1803", "ILO")]
    requires DistrictCode(FallbackUbigeos[k]) == ["1801", "1802", "1803"][FallbackProvinceIndex(k)]
    requires joined[k].district == ds[k] && ProvinceFound(joined[k], pm)
    ensures joined[k] == MatchedDistrict(ds[k], Some(FallbackProvinceNames[FallbackProvinceIndex(k)]))
  {
    var p := FallbackProvinceIndex(k);
    assert pm[p] in pm && pm[p].code == DistrictCode(ds[k].ubigeo);
    assert WithCode(pm, DistrictCode(ds[k].ubigeo)) != [];
    assert ProvinceEntry(pm[p].code, joined[k].nombprov.value) in pm;
  }

  /** The fallback districts all pass the region filter and each gets one merged row. */
  lemma FallbackJoinShape<G>(disc: (real, real, real) -> G)
    ensures |LeftJoin(RegionDistricts(FallbackDistricts(disc)), ProvinceMap(FallbackProvinces(disc)))| == 21
    ensures forall k :: 0 <= k < 21 ==>
      LeftJoin(RegionDistricts(FallbackDistricts(disc)), ProvinceMap(FallbackProvinces(disc)))[k].district == FallbackDistricts(disc)[k]
  {
    FallbackRegion(disc);
    FallbackProvinceMap(disc);
    LeftJoinOnePerDistrict(FallbackDistricts(disc), ProvinceMap(FallbackProvinces(disc)));
  }

  /**
   * When both downloads fail, the merge finds a province for every one of the
   * 21 fallback districts, namely the province whose code is the first four
   * digits of the district's ubigeo. The table gives the districts listed
   * from MATALAQUE onwards ubigeos 180304 to 180310, so they are reported in
   * the province of ILO.
   */
  lemma FallbackJoinComplete<G>(disc: (real, real, real) -> G)
    ensures |LeftJoin(RegionDistricts(FallbackDistricts(disc)), ProvinceMap(FallbackProvinces(disc)))| == 21
    ensures forall k :: 0 <= k < 21 ==>
      LeftJoin(RegionDistricts(FallbackDistricts(disc)), ProvinceMap(FallbackProvinces(disc)))[k] ==
      MatchedDistrict(FallbackDistricts(disc)[k], Some(FallbackProvinceNames[FallbackProvinceIndex(k)]))
  {
    var ds := FallbackDistricts(disc);
    var pm := ProvinceMap(FallbackProvinces(disc));
    var joined := LeftJoin(RegionDistricts(ds), pm);
    FallbackJoinShape(disc);
    FallbackProvinceMap(disc);
    FallbackCodes();
    forall k | 0 <= k < 21
      ensures joined[k] == MatchedDistrict(ds[k], Some(FallbackProvinceNames[FallbackProvinceIndex(k)]))
    {
      FallbackJoinRow(ds, pm, joined, k);
    }
  }

  // ---------------------------------------------------------------------------
  // save_to_database
  // ---------------------------------------------------------------------------

  /** A row of `warnings_df[['Aviso', 'Nro', 'Nivel', 'Inicio', 'Fin']]`. */
  datatype AlertFields = AlertFields(aviso: string, nro: string, nivel: string, inicio: string, fin: string)

  function FieldsOf(r: Record): AlertFields
  {
    AlertFields(r.aviso, r.nro, r.nivel, r.inicio, r.fin)
  }

  /** `unique_alerts`: the five alert columns of the table, duplicates dropped, in first-occurrence order. */
  function UniqueAlerts(t: seq<Record>): (u: seq<AlertFields>)
    ensures NoDuplicates(u)
    ensures |u| <= |t|
  {
    DropDuplicates(seq(|t|, i requires 0 <= i < |t| => FieldsOf(t[i])))
  }

  /** Every record's alert columns are among the unique alerts. */
  lemma UniqueAlertsCover(t: seq<Record>, i: nat)
    requires i < |t|
    ensures FieldsOf(t[i]) in UniqueAlerts(t)
  {
    var fields := seq(|t|, i requires 0 <= i < |t| => FieldsOf(t[i]));
    assert UniqueAlerts(t) == DropDuplicates(fields);
    assert fields[i] == FieldsOf(t[i]);
  }

  /** Every unique alert is the alert columns of some record. */
  lemma UniqueAlertsOrigin(t: seq<Record>, k: nat) returns (i: nat)
    requires k < |UniqueAlerts(t)|
    ensures i < |t| && UniqueAlerts(t)[k] == FieldsOf(t[i])
  {
    var fields := seq(|t|, i requires 0 <= i < |t| => FieldsOf(t[i]));
    assert UniqueAlerts(t) == DropDuplicates(fields);
    i :| 0 <= i < |fields| && fields[i] == UniqueAlerts(t)[k];
  }

  /** 'active' when the end day is today or later, 'expired' otherwise. */
  function Status(finDay: int, today: int): (s: string)
    ensures s == Database.Active <==> finDay >= today
    ensures s == "expired" <==> finDay < today
  {
    if finDay >= today then Database.Active else "expired"
  }

  function DistrictOf(r: Record): Database.DistrictData
  {
    Database.DistrictData(r.distrito, r.provincia, r.departamento)
  }

  /**
   * `warnings_df[warnings_df['Nro'] == nro][['Distrito', 'Provincia',
   * 'Departamento']]`: the districts of every record with this alert number, in
   * table order, whatever its Inicio.
   */
  function DistrictsFor(t: seq<Record>, nro: string): seq<Database.DistrictData>
  {
    Districts(Filter(t, WithNro(nro)))
  }

  /**
   * The districts selected for alert number nro are the districts of the
   * records with that number, every one of them, whatever its Inicio.
   */
  lemma DistrictsForSelects(t: seq<Record>, nro: string)
    ensures forall i :: 0 <= i < |t| && t[i].nro == nro ==> DistrictOf(t[i]) in DistrictsFor(t, nro)
    ensures forall d :: d in DistrictsFor(t, nro) ==>
      exists i :: 0 <= i < |t| && t[i].nro == nro && d == DistrictOf(t[i])
  {
    var f := Filter(t, WithNro(nro));
    var ds := Districts(f);
    forall i | 0 <= i < |t| && t[i].nro == nro
      ensures DistrictOf(t[i]) in ds
    {
      assert WithNro(nro)(t[i]);
      var k :| 0 <= k < |f| && f[k] == t[i];
      assert ds[k] == DistrictOf(t[i]);
    }
    forall d | d in ds
      ensures exists i :: 0 <= i < |t| && t[i].nro == nro && d == DistrictOf(t[i])
    {
      var k :| 0 <= k < |ds| && ds[k] == d;
      assert f[k] in t && WithNro(nro)(f[k]);
      var i :| 0 <= i < |t| && t[i] == f[k];
      assert t[i].nro == nro && d == DistrictOf(t[i]);
    }
  }

  function WithNro(nro: string): Record -> bool
  {
    (r: Record) => r.nro == nro
  }

  /** The district columns of records, in order. */
  function Districts(rs: seq<Record>): (ds: seq<Database.DistrictData>)
    ensures |ds| == |rs| && forall k :: 0 <= k < |rs| ==> ds[k] == DistrictOf(rs[k])
  {
    seq(|rs|, k requires 0 <= k < |rs| => DistrictOf(rs[k]))
  }

  /** Selecting by number keeps table order: the districts of a concatenation are those of each part. */
  lemma DistrictsForAppend(a: seq<Record>, b: seq<Record>, nro: string)
    ensures DistrictsFor(a + b, nro) == DistrictsFor(a, nro) + DistrictsFor(b, nro)
  {
    FilterAppend(a, b, WithNro(nro));
    var fa, fb := Filter(a, WithNro(nro)), Filter(b, WithNro(nro));
    var l, r := Districts(fa + fb), Districts(fa) + Districts(fb);
    forall k | 0 <= k < |l|
      ensures l[k] == r[k]
    {
      if k < |fa| {
        assert (fa + fb)[k] == fa[k];
      } else {
        assert (fa + fb)[k] == fb[k - |fa|];
      }
    }
    assert l == r;
  }

  /** The alert of the unique-alert row, as add_alert receives it. */
  function AlertDataOf(u: AlertFields, finDay: int, today: int): Database.AlertData
  {
    Database.AlertData(u.aviso, u.nro, u.nivel, u.inicio, u.fin, Status(finDay, today))
  }

  /** The row can be written: its Fin parses and each of its districts has a province. */
  predicate Writable(u: AlertFields, t: seq<Record>, parse: string -> Option<int>)
  {
    parse(u.fin).Some? && Database.AllNamed(DistrictsFor(t, u.nro))
  }

  /** Every alert of `us` has its history row and exactly the districts of its number. */
  ghost predicate AllStored(h: seq<Database.HistoryRow>, a: seq<Database.AffectedRow>, us: seq<AlertFields>, t: seq<Record>)
  {
    forall k :: 0 <= k < |us| ==> Database.Stored(h, a, us[k].nro, us[k].inicio, DistrictsFor(t, us[k].nro))
  }

  lemma AllStoredAfterUpsert(h: seq<Database.HistoryRow>, next: nat, a: seq<Database.AffectedRow>,
                             data: Database.AlertData, us: seq<AlertFields>, t: seq<Record>)
    requires Database.HistoryValid(h, next) && AllStored(h, a, us, t)
    ensures AllStored(Database.Upserted(h, next, data), a, us, t)
  {
    forall k | 0 <= k < |us|
      ensures Database.Stored(Database.Upserted(h, next, data), a, us[k].nro, us[k].inicio, DistrictsFor(t, us[k].nro))
    {
      Database.StoredAfterUpsert(h, next, a, data, us[k].nro, us[k].inicio, DistrictsFor(t, us[k].nro));
    }
  }

  lemma AllStoredAfterReplace(h: seq<Database.HistoryRow>, next: nat, a: seq<Database.AffectedRow>, nextChild: nat,
                              r: nat, us: seq<AlertFields>, u: AlertFields, t: seq<Record>)
    requires Database.HistoryValid(h, next) && AllStored(h, a, us, t)
    requires r < |h| && Database.SameKey(h[r], u.nro, u.inicio)
    requires Database.AllNamed(DistrictsFor(t, u.nro))
    ensures AllStored(h, Database.ReplacedChildren(a, nextChild, h[r].id, DistrictsFor(t, u.nro)), us + [u], t)
  {
    var ds := DistrictsFor(t, u.nro);
    var us' := us + [u];
    forall k | 0 <= k < |us'|
      ensures Database.Stored(h, Database.ReplacedChildren(a, nextChild, h[r].id, ds), us'[k].nro, us'[k].inicio,
                              DistrictsFor(t, us'[k].nro))
    {
      Database.StoredAfterReplace(h, next, a, nextChild, r, ds, us'[k].nro, us'[k].inicio, DistrictsFor(t, us'[k].nro));
    }
  }

  /**
   * The history holds the row of alert u as save_to_database writes it: its
   * key, its text, level and end, and the status its end day gives today.
   */
  ghost predicate Written(h: seq<Database.HistoryRow>, u: AlertFields, today: int, parse: string -> Option<int>)
  {
    && parse(u.fin).Some?
    && exists j :: 0 <= j < |h| && h[j] == Database.NewRow(h[j].id, AlertDataOf(u, parse(u.fin).value, today))
  }

  /** Two unique alerts share the key (Nro, Inicio) of alerts_history. */
  predicate SameAlertKey(x: AlertFields, y: AlertFields)
  {
    x.nro == y.nro && x.inicio == y.inicio
  }

  /** No alert among us[k + 1 .. n - 1] has the key of us[k]: its write is not overwritten before n. */
  predicate LastBefore(us: seq<AlertFields>, k: nat, n: nat)
    requires k < n <= |us|
  {
    forall k' :: k < k' < n ==> !SameAlertKey(us[k'], us[k])
  }

  /** Some alert among us[..n] has the key (nro, inicio). */
  predicate KeyAmong(us: seq<AlertFields>, n: nat, nro: string, inicio: string)
    requires n <= |us|
  {
    exists k :: 0 <= k < n && us[k].nro == nro && us[k].inicio == inicio
  }

  /**
   * From (h0, a0) to (h, a) only the alerts of us[..n] were touched: every
   * other history row, and the child rows of its id, are as they were, and
   * every row added has the key of one of them.
   */
  ghost predicate KeptOutside(h0: seq<Database.HistoryRow>, a0: seq<Database.AffectedRow>,
                              h: seq<Database.HistoryRow>, a: seq<Database.AffectedRow>, us: seq<AlertFields>, n: nat)
    requires n <= |us|
  {
    && |h| >= |h0|
    && (forall j :: 0 <= j < |h0| && !KeyAmong(us, n, h0[j].nro, h0[j].inicio) ==>
          h[j] == h0[j] && Database.ChildrenOf(a, h0[j].id) == Database.ChildrenOf(a0, h0[j].id))
    && (forall j :: |h0| <= j < |h| ==> KeyAmong(us, n, h[j].nro, h[j].inicio))
  }

  /** Saving us[n] after us[..n] touches only the alerts of us[..n + 1]. */
  lemma KeptOutsideStep(h0: seq<Database.HistoryRow>, a0: seq<Database.AffectedRow>,
                        h1: seq<Database.HistoryRow>, a1: seq<Database.AffectedRow>,
                        h2: seq<Database.HistoryRow>, a2: seq<Database.AffectedRow>, us: seq<AlertFields>, n: nat)
    requires n < |us|
    requires KeptOutside(h0, a0, h1, a1, us, n)
    requires Database.OthersKept(h1, a1, h2, a2, us[n].nro, us[n].inicio)
    ensures KeptOutside(h0, a0, h2, a2, us, n + 1)
  {
    forall j | 0 <= j < |h0| && !KeyAmong(us, n + 1, h0[j].nro, h0[j].inicio)
      ensures h2[j] == h0[j] && Database.ChildrenOf(a2, h0[j].id) == Database.ChildrenOf(a0, h0[j].id)
    {
      assert !KeyAmong(us, n, h0[j].nro, h0[j].inicio);
      assert !Database.SameKey(h1[j], us[n].nro, us[n].inicio);
    }
    forall j | |h0| <= j < |h2|
      ensures KeyAmong(us, n + 1, h2[j].nro, h2[j].inicio)
    {
      if j < |h1| && !Database.SameKey(h1[j], us[n].nro, us[n].inicio) {
        assert h2[j] == h1[j];
        var k :| 0 <= k < n && us[k].nro == h1[j].nro && us[k].inicio == h1[j].inicio;
        assert k < n + 1;
      } else {
        assert Database.SameKey(h2[j], us[n].nro, us[n].inicio);
      }
    }
  }

  /** Touching only the alerts of us[..n] is touching only alerts of a longer prefix. */
  lemma KeptOutsideWiden(h0: seq<Database.HistoryRow>, a0: seq<Database.AffectedRow>,
                         h: seq<Database.HistoryRow>, a: seq<Database.AffectedRow>, us: seq<AlertFields>, n: nat)
    requires n <= |us|
    requires KeptOutside(h0, a0, h, a, us, n)
    ensures KeptOutside(h0, a0, h, a, us, |us|)
  {
    forall j | 0 <= j < |h0| && !KeyAmong(us, |us|, h0[j].nro, h0[j].inicio)
      ensures !KeyAmong(us, n, h0[j].nro, h0[j].inicio)
    {
    }
    forall j | |h0| <= j < |h|
      ensures KeyAmong(us, |us|, h[j].nro, h[j].inicio)
    {
      var k :| 0 <= k < n && us[k].nro == h[j].nro && us[k].inicio == h[j].inicio;
    }
  }

  /**
   * After saving us[n], every alert of us[..n + 1] whose key does not come
   * again before n + 1 is written as save_to_database writes it.
   */
  lemma WrittenStep(h1: seq<Database.HistoryRow>, a1: seq<Database.AffectedRow>,
                    h2: seq<Database.HistoryRow>, a2: seq<Database.AffectedRow>,
                    us: seq<AlertFields>, n: nat, today: int, parse: string -> Option<int>)
    requires n < |us|
    requires forall k :: 0 <= k < n && LastBefore(us, k, n) ==> Written(h1, us[k], today, parse)
    requires Written(h2, us[n], today, parse)
    requires Database.OthersKept(h1, a1, h2, a2, us[n].nro, us[n].inicio)
    ensures forall k :: 0 <= k < n + 1 && LastBefore(us, k, n + 1) ==> Written(h2, us[k], today, parse)
  {
    forall k | 0 <= k < n && LastBefore(us, k, n + 1)
      ensures Written(h2, us[k], today, parse)
    {
      assert LastBefore(us, k, n) && !SameAlertKey(us[n], us[k]);
      var d := AlertDataOf(us[k], parse(us[k].fin).value, today);
      var j :| 0 <= j < |h1| && h1[j] == Database.NewRow(h1[j].id, d);
      assert !Database.SameKey(h1[j], us[n].nro, us[n].inicio);
      assert h2[j] == h1[j];
    }
  }

  /**
   * One pass of save_to_database's loop: add_alert for the row, then
   * add_affected_districts with the districts of its number. `ok` is false when
   * its Fin does not parse (nothing is written) or when one of its districts has
   * no province (its history row stays written). Alerts stored before stay
   * stored, and a written row is stored with exactly the districts of its number.
   */
  method SaveAlert(db: Database.AlertDatabase, u: AlertFields, t: seq<Record>, today: int,
                   parse: string -> Option<int>, ghost prev: seq<AlertFields>)
    returns (ok: bool)
    requires db.Valid() && AllStored(db.history, db.affected, prev, t)
    modifies db
    ensures db.Valid()
    ensures ok <==> Writable(u, t, parse)
    ensures ok ==> AllStored(db.history, db.affected, prev + [u], t)
    ensures parse(u.fin).Some? ==> Written(db.history, u, today, parse)
    ensures Database.OthersKept(old(db.history), old(db.affected), db.history, db.affected, u.nro, u.inicio)
  {
    var finDay := parse(u.fin);
    if finDay.None? {
      return false;
    }
    var data := AlertDataOf(u, finDay.value, today);
    ghost var h0, a0, n0 := db.history, db.affected, db.nextId;
    var alertId := db.AddAlert(data);
    AllStoredAfterUpsert(h0, n0, a0, data, prev, t);
    var districts := DistrictsFor(t, u.nro);
    ghost var r := Database.FindAlert(db.history, u.nro, u.inicio).value;
    assert db.history[r] == Database.NewRow(db.history[r].id, data);
    ghost var h1, a1, c1 := db.history, db.affected, db.nextChildId;
    ok := db.AddAffectedDistricts(alertId, districts);
    if ok {
      AllStoredAfterReplace(h1, db.nextId, a1, c1, r, prev, u, t);
      Database.UpsertReplaceKeepsOthers(h0, n0, a0, c1, data, districts);
    } else {
      Database.UpsertKeepsOthers(h0, n0, a0, data);
    }
  }

  /**
   * save_to_database's loop over the unique alerts, in order. The first row
   * whose Fin does not parse, or whose districts include one without a
   * province, raises and ends the loop (`ok` false); rows before it stay
   * written. When every row is written, each has its history row and exactly
   * the districts of its number.
   */
  method SaveAll(db: Database.AlertDatabase, unique: seq<AlertFields>, t: seq<Record>, today: int,
                 parse: string -> Option<int>)
    returns (ok: bool)
    requires db.Valid()
    modifies db
    ensures db.Valid()
    ensures ok <==> forall k :: 0 <= k < |unique| ==> Writable(unique[k], t, parse)
    ensures ok ==> AllStored(db.history, db.affected, unique, t)
    ensures ok ==> forall k :: 0 <= k < |unique| && LastBefore(unique, k, |unique|) ==>
      Written(db.history, unique[k], today, parse)
    ensures KeptOutside(old(db.history), old(db.affected), db.history, db.affected, unique, |unique|)
  {
    ghost var h0, a0 := db.history, db.affected;
    for i := 0 to |unique|
      invariant db.Valid()
      invariant forall k :: 0 <= k < i ==> Writable(unique[k], t, parse)
      invariant AllStored(db.history, db.affected, unique[..i], t)
      invariant forall k :: 0 <= k < i && LastBefore(unique, k, i) ==> Written(db.history, unique[k], today, parse)
      invariant KeptOutside(h0, a0, db.history, db.affected, unique, i)
    {
      assert unique[..i + 1] == unique[..i] + [unique[i]];
      ghost var h1, a1 := db.history, db.affected;
      var written := SaveAlert(db, unique[i], t, today, parse, unique[..i]);
      KeptOutsideStep(h0, a0, h1, a1, db.history, db.affected, unique, i);
      if !written {
        KeptOutsideWiden(h0, a0, db.history, db.affected, unique, i + 1);
        return false;
      }
      WrittenStep(h1, a1, db.history, db.affected, unique, i, today, parse);
    }
    assert unique[..|unique|] == unique;
    ok := true;
  }

  /**
   * save_to_database: an empty table writes nothing; otherwise add_alert then
   * add_affected_districts for each unique alert (number, level, Inicio, Fin
   * and text), in order of first occurrence.
   */
  method SaveToDatabase(db: Database.AlertDatabase, t: seq<Record>, today: int, parse: string -> Option<int>)
    returns (ok: bool)
    requires db.Valid()
    modifies db
    ensures db.Valid()
    ensures t == [] ==> ok && db.history == old(db.history) && db.affected == old(db.affected)
    ensures ok <==> forall k :: 0 <= k < |UniqueAlerts(t)| ==> Writable(UniqueAlerts(t)[k], t, parse)
    ensures ok ==> AllStored(db.history, db.affected, UniqueAlerts(t), t)
    ensures ok ==> forall k :: 0 <= k < |UniqueAlerts(t)| && LastBefore(UniqueAlerts(t), k, |UniqueAlerts(t)|) ==>
      Written(db.history, UniqueAlerts(t)[k], today, parse)
    ensures KeptOutside(old(db.history), old(db.affected), db.history, db.affected, UniqueAlerts(t), |UniqueAlerts(t)|)
  {
    if |t| == 0 {
      return true;
    }
    ok := SaveAll(db, UniqueAlerts(t), t, today, parse);
  }
}
