/**
 * The alert history store of src/database.py: two SQLite tables,
 * `alerts_history` (one row per alert, unique on (nro, inicio), AUTOINCREMENT
 * id) and `affected_districts` (child rows pointing at an alert id, AUTOINCREMENT
 * id), held here as sequences in table (rowid) order inside a class.
 *
 * Dates are stored as text, so SQL's `ORDER BY inicio` and `inicio < date(...)`
 * compare strings; they are modelled with the lexicographic order on
 * characters, which is SQLite's BINARY collation on UTF-8 text. The cutoff that
 * `date('now', '-N days')` computes is a parameter.
 */
module Database {
  import opened Common

  /** The dictionary `add_alert` receives. */
  datatype AlertData = AlertData(
    aviso: string, nro: string, nivel: string, inicio: string, fin: string, status: string)

  /** A row of alerts_history (the two timestamp columns are left out). */
  datatype HistoryRow = HistoryRow(
    id: nat, aviso: string, nro: string, nivel: string, inicio: string, fin: string, status: string)

  /** A dictionary passed to `add_affected_districts`; provincia may be missing (NaN). */
  datatype DistrictData = DistrictData(distrito: string, provincia: Option<string>, departamento: string)

  /** A row of affected_districts. */
  datatype AffectedRow = AffectedRow(
    id: nat, alertId: nat, distrito: string, provincia: string, departamento: string)

  /** A row of get_district_history: the alert's columns, then the district and province. */
  datatype JoinedRow = JoinedRow(alert: HistoryRow, distrito: string, provincia: string)

  const Active := "active"

  // ---------------------------------------------------------------------------
  // Text order (SQLite BINARY collation)
  // ---------------------------------------------------------------------------

  /** `a` sorts strictly before `b`: at the first difference, or as a proper prefix. */
  predicate LexLess(a: string, b: string)
  {
    |b| > 0 && (|a| == 0 || a[0] < b[0] || (a[0] == b[0] && LexLess(a[1..], b[1..])))
  }

  lemma {:induction false} LexLessIrreflexive(a: string)
    ensures !LexLess(a, a)
  {
    if |a| > 0 {
      LexLessIrreflexive(a[1..]);
    }
  }

  lemma {:induction false} LexLessAsymmetric(a: string, b: string)
    requires LexLess(a, b)
    ensures !LexLess(b, a)
  {
    if |a| > 0 && a[0] == b[0] {
      LexLessAsymmetric(a[1..], b[1..]);
    }
  }

  lemma {:induction false} LexLessTransitive(a: string, b: string, c: string)
    requires LexLess(a, b) && LexLess(b, c)
    ensures LexLess(a, c)
  {
    if |a| > 0 && a[0] == b[0] && b[0] == c[0] {
      LexLessTransitive(a[1..], b[1..], c[1..]);
    }
  }

  lemma {:induction false} LexLessTotal(a: string, b: string)
    ensures a == b || LexLess(a, b) || LexLess(b, a)
  {
    if |a| > 0 && |b| > 0 && a[0] == b[0] {
      LexLessTotal(a[1..], b[1..]);
      if a[1..] == b[1..] {
        assert a == [a[0]] + a[1..] && b == [b[0]] + b[1..];
      }
    }
  }

  /** "Not after" is transitive. */
  lemma NotAfterTransitive(a: string, b: string, c: string)
    requires !LexLess(b, a) && !LexLess(c, b)
    ensures !LexLess(c, a)
  {
    LexLessTotal(a, b);
    if LexLess(c, a) && LexLess(a, b) {
      LexLessTransitive(c, a, b);
    }
  }

  // ---------------------------------------------------------------------------
  // ORDER BY ... DESC
  // ---------------------------------------------------------------------------

  /** No row sorts before a later row by `key`: descending order. */
  ghost predicate SortedDesc<T>(s: seq<T>, key: T -> string)
  {
    forall i, j :: 0 <= i < j < |s| ==> !LexLess(key(s[i]), key(s[j]))
  }

  function InsertDesc<T(==)>(x: T, s: seq<T>, key: T -> string): (r: seq<T>)
    ensures multiset(r) == multiset(s) + multiset{x}
  {
    if |s| == 0 then [x]
    else if !LexLess(key(x), key(s[0])) then [x] + s
    else
      assert s == [s[0]] + s[1..];
      [s[0]] + InsertDesc(x, s[1..], key)
  }

  /** Insertion sort into descending order of `key`. */
  function SortDesc<T(==)>(s: seq<T>, key: T -> string): (r: seq<T>)
    ensures multiset(r) == multiset(s)
  {
    if |s| == 0 then []
    else
      assert s == [s[0]] + s[1..];
      InsertDesc(s[0], SortDesc(s[1..], key), key)
  }

  lemma {:induction false} InsertDescSorted<T>(x: T, s: seq<T>, key: T -> string)
    requires SortedDesc(s, key)
    ensures SortedDesc(InsertDesc(x, s, key), key)
  {
    var r := InsertDesc(x, s, key);
    if |s| == 0 {
    } else if !LexLess(key(x), key(s[0])) {
      forall j | 1 <= j < |r| ensures !LexLess(key(x), key(r[j])) {
        if j > 1 {
          NotAfterTransitive(key(r[j]), key(s[0]), key(x));
        }
      }
    } else {
      var rest := InsertDesc(x, s[1..], key);
      InsertDescSorted(x, s[1..], key);
      LexLessAsymmetric(key(x), key(s[0]));
      forall j | 0 <= j < |rest| ensures !LexLess(key(s[0]), key(rest[j])) {
        assert rest[j] in multiset(rest);
        assert rest[j] == x || rest[j] in multiset(s[1..]);
        if rest[j] != x {
          var k :| 0 <= k < |s[1..]| && s[1..][k] == rest[j];
          assert s[1 + k] == rest[j];
        }
      }
    }
  }

  /** The sort returns its input rows, in descending order. */
  lemma {:induction false} SortDescCorrect<T>(s: seq<T>, key: T -> string)
    ensures SortedDesc(SortDesc(s, key), key)
    ensures multiset(SortDesc(s, key)) == multiset(s)
  {
    if |s| > 0 {
      SortDescCorrect(s[1..], key);
      InsertDescSorted(s[0], SortDesc(s[1..], key), key);
    }
  }

  function InicioOf(r: HistoryRow): string
  {
    r.inicio
  }

  function JoinedInicio(r: JoinedRow): string
  {
    r.alert.inicio
  }

  // ---------------------------------------------------------------------------
  // alerts_history
  // ---------------------------------------------------------------------------

  predicate SameKey(r: HistoryRow, nro: string, inicio: string)
  {
    r.nro == nro && r.inicio == inicio
  }

  /** UNIQUE(nro, inicio). */
  predicate KeysUnique(h: seq<HistoryRow>)
  {
    forall i, j :: 0 <= i < j < |h| ==> !SameKey(h[j], h[i].nro, h[i].inicio)
  }

  /** The primary key, and AUTOINCREMENT ids lie in 1 .. next - 1. */
  predicate IdsValid(h: seq<HistoryRow>, next: nat)
  {
    && next >= 1
    && (forall i, j :: 0 <= i < j < |h| ==> h[i].id != h[j].id)
    && (forall i :: 0 <= i < |h| ==> 1 <= h[i].id < next)
  }

  predicate HistoryValid(h: seq<HistoryRow>, next: nat)
  {
    KeysUnique(h) && IdsValid(h, next)
  }

  /** `SELECT id ... WHERE nro = ? AND inicio = ?` with fetchone: the first matching row. */
  function FindAlert(h: seq<HistoryRow>, nro: string, inicio: string): (r: Option<nat>)
    ensures r.Some? ==> r.value < |h| && SameKey(h[r.value], nro, inicio)
    ensures r.Some? ==> forall i :: 0 <= i < r.value ==> !SameKey(h[i], nro, inicio)
    ensures r.None? ==> forall i :: 0 <= i < |h| ==> !SameKey(h[i], nro, inicio)
  {
    if |h| == 0 then None
    else if SameKey(h[0], nro, inicio) then Some(0)
    else match FindAlert(h[1..], nro, inicio)
      case None => None
      case Some(k) => Some(k + 1)
  }

  /** The UPDATE branch: aviso, nivel, fin and status replaced. */
  function Refreshed(r: HistoryRow, data: AlertData): HistoryRow
  {
    r.(aviso := data.aviso, nivel := data.nivel, fin := data.fin, status := data.status)
  }

  /** The INSERT branch's row, with the id AUTOINCREMENT hands out. */
  function NewRow(id: nat, data: AlertData): HistoryRow
  {
    HistoryRow(id, data.aviso, data.nro, data.nivel, data.inicio, data.fin, data.status)
  }

  /** alerts_history after add_alert(data). */
  function Upserted(h: seq<HistoryRow>, next: nat, data: AlertData): seq<HistoryRow>
  {
    match FindAlert(h, data.nro, data.inicio)
    case Some(k) => h[k := Refreshed(h[k], data)]
    case None => h + [NewRow(next, data)]
  }

  /** The id add_alert(data) returns. */
  function UpsertId(h: seq<HistoryRow>, next: nat, data: AlertData): nat
  {
    match FindAlert(h, data.nro, data.inicio)
    case Some(k) => h[k].id
    case None => next
  }

  /** The AUTOINCREMENT counter after add_alert(data). */
  function NextAfterUpsert(h: seq<HistoryRow>, next: nat, data: AlertData): nat
  {
    if FindAlert(h, data.nro, data.inicio).Some? then next else next + 1
  }

  /**
   * add_alert on a key already present returns that row's id and overwrites
   * only aviso, nivel, fin and status of that row; no row is added.
   */
  lemma AddAlertExisting(h: seq<HistoryRow>, next: nat, data: AlertData, k: nat)
    requires k < |h| && SameKey(h[k], data.nro, data.inicio)
    requires KeysUnique(h)
    ensures UpsertId(h, next, data) == h[k].id
    ensures |Upserted(h, next, data)| == |h|
    ensures Upserted(h, next, data)[k] ==
      HistoryRow(h[k].id, data.aviso, h[k].nro, data.nivel, h[k].inicio, data.fin, data.status)
    ensures forall j :: 0 <= j < |h| && j != k ==> Upserted(h, next, data)[j] == h[j]
  {
    assert FindAlert(h, data.nro, data.inicio).Some?;
  }

  /**
   * add_alert on a new key appends one row carrying all six values and an id
   * that no existing row has.
   */
  lemma AddAlertNew(h: seq<HistoryRow>, next: nat, data: AlertData)
    requires forall i :: 0 <= i < |h| ==> !SameKey(h[i], data.nro, data.inicio)
    requires IdsValid(h, next)
    ensures Upserted(h, next, data) == h + [NewRow(next, data)]
    ensures UpsertId(h, next, data) == next
    ensures forall i :: 0 <= i < |h| ==> h[i].id != UpsertId(h, next, data)
  {
  }

  /**
   * add_alert keeps one row per (nro, inicio), distinct ids, and ids below the
   * counter; the alert's row then carries the returned id and the six values.
   */
  lemma AddAlertKeepsInvariant(h: seq<HistoryRow>, next: nat, data: AlertData)
    requires HistoryValid(h, next)
    ensures HistoryValid(Upserted(h, next, data), NextAfterUpsert(h, next, data))
    ensures FindAlert(Upserted(h, next, data), data.nro, data.inicio).Some?
    ensures Upserted(h, next, data)[FindAlert(Upserted(h, next, data), data.nro, data.inicio).value]
            == NewRow(UpsertId(h, next, data), data)
  {
    var u := Upserted(h, next, data);
    var k := match FindAlert(h, data.nro, data.inicio) case Some(k) => k case None => |h|;
    assert u[k] == NewRow(UpsertId(h, next, data), data);
  }

  /** update_alert_status: every row with this nro gets the new status. */
  function WithStatus(h: seq<HistoryRow>, nro: string, status: string): (r: seq<HistoryRow>)
    ensures |r| == |h|
    ensures forall i :: 0 <= i < |h| ==>
      r[i] == if h[i].nro == nro then h[i].(status := status) else h[i]
  {
    seq(|h|, i requires 0 <= i < |h| => if h[i].nro == nro then h[i].(status := status) else h[i])
  }

  /** A status update keeps keys and ids, so it keeps the table's invariant. */
  lemma WithStatusKeepsInvariant(h: seq<HistoryRow>, nro: string, status: string, next: nat)
    requires HistoryValid(h, next)
    ensures HistoryValid(WithStatus(h, nro, status), next)
  {
  }

  predicate IsActive(r: HistoryRow)
  {
    r.status == Active
  }

  /** Rows whose inicio is not before the cutoff (`inicio >= cutoff` on text). */
  predicate StartsFrom(cutoff: string, r: HistoryRow)
  {
    !LexLess(r.inicio, cutoff)
  }

  /** The rows kept by a cutoff, as a selection mask. */
  function Since(cutoff: string): HistoryRow -> bool
  {
    (r: HistoryRow) => StartsFrom(cutoff, r)
  }

  /** alerts_history after cleanup_old_alerts: the rows with inicio >= cutoff, in order. */
  function Retained(h: seq<HistoryRow>, cutoff: string): seq<HistoryRow>
  {
    Filter(h, Since(cutoff))
  }

  /** Cleanup deletes exactly the rows that start before the cutoff. */
  lemma CleanupExact(h: seq<HistoryRow>, cutoff: string)
    ensures forall i :: 0 <= i < |h| ==> (h[i] in Retained(h, cutoff) <==> !LexLess(h[i].inicio, cutoff))
    ensures forall r :: r in Retained(h, cutoff) ==> r in h
  {
  }

  /** Putting a row with a new key and a new id in front keeps the table's invariant. */
  lemma ConsKeepsInvariant(x: HistoryRow, rest: seq<HistoryRow>, next: nat)
    requires HistoryValid(rest, next) && 1 <= x.id < next
    requires forall j :: 0 <= j < |rest| ==> !SameKey(rest[j], x.nro, x.inicio) && rest[j].id != x.id
    ensures HistoryValid([x] + rest, next)
  {
    var r := [x] + rest;
    forall i, j | 0 <= i < j < |r| ensures !SameKey(r[j], r[i].nro, r[i].inicio) && r[i].id != r[j].id {
      assert r[j] == rest[j - 1];
      if i > 0 {
        assert r[i] == rest[i - 1];
      }
    }
  }

  /** Deleting rows keeps the table's invariant. */
  lemma {:induction false} FilterKeepsInvariant(h: seq<HistoryRow>, p: HistoryRow -> bool, next: nat)
    requires HistoryValid(h, next)
    ensures HistoryValid(Filter(h, p), next)
  {
    if |h| > 0 {
      var tail := h[1..];
      FilterKeepsInvariant(tail, p, next);
      var rest := Filter(tail, p);
      if p(h[0]) {
        forall j | 0 <= j < |rest|
          ensures !SameKey(rest[j], h[0].nro, h[0].inicio) && rest[j].id != h[0].id
        {
          var k :| 0 <= k < |tail| && tail[k] == rest[j];
          assert h[k + 1] == rest[j];
        }
        ConsKeepsInvariant(h[0], rest, next);
        assert Filter(h, p) == [h[0]] + rest;
      } else {
        assert Filter(h, p) == rest;
      }
    }
  }

  // ---------------------------------------------------------------------------
  // affected_districts
  // ---------------------------------------------------------------------------

  /** The NOT NULL constraint on provincia holds for every district. */
  predicate AllNamed(ds: seq<DistrictData>)
  {
    forall i :: 0 <= i < |ds| ==> ds[i].provincia.Some?
  }

  /** A child row of alertId as the dictionary it was inserted from; nothing for a row of another alert. */
  function ChildRow(alertId: nat): AffectedRow -> seq<DistrictData>
  {
    (r: AffectedRow) => if r.alertId == alertId then [DistrictData(r.distrito, Some(r.provincia), r.departamento)] else []
  }

  /** The child rows of one alert, as the dictionaries they were inserted from, in rowid order. */
  function ChildrenOf(a: seq<AffectedRow>, alertId: nat): seq<DistrictData>
  {
    ConcatMap(a, ChildRow(alertId))
  }

  lemma ChildrenOfAppend(a: seq<AffectedRow>, b: seq<AffectedRow>, alertId: nat)
    ensures ChildrenOf(a + b, alertId) == ChildrenOf(a, alertId) + ChildrenOf(b, alertId)
  {
    ConcatMapAppend(a, b, ChildRow(alertId));
  }

  predicate NotChildOf(alertId: nat, r: AffectedRow)
  {
    r.alertId != alertId
  }

  /** The child rows a DELETE for alertId leaves, as a selection mask. */
  function OtherThan(alertId: nat): AffectedRow -> bool
  {
    (r: AffectedRow) => NotChildOf(alertId, r)
  }

  /** `DELETE FROM affected_districts WHERE alert_id = ?`. */
  function WithoutChildren(a: seq<AffectedRow>, alertId: nat): seq<AffectedRow>
  {
    Filter(a, OtherThan(alertId))
  }

  /** The DELETE removes every child row of alertId. */
  lemma {:induction false} WithoutChildrenOwn(a: seq<AffectedRow>, alertId: nat)
    ensures ChildrenOf(WithoutChildren(a, alertId), alertId) == []
  {
    if |a| > 0 {
      WithoutChildrenOwn(a[1..], alertId);
      var rest := WithoutChildren(a[1..], alertId);
      var head := if OtherThan(alertId)(a[0]) then [a[0]] else [];
      assert WithoutChildren(a, alertId) == head + rest;
      ChildrenOfAppend(head, rest, alertId);
      assert ChildrenOf(head, alertId) == [] by {
        if head != [] {
          ConcatMapSingle(a[0], ChildRow(alertId));
        }
      }
    }
  }

  /** The DELETE keeps the child rows of every other alert, in order. */
  lemma {:induction false} WithoutChildrenOther(a: seq<AffectedRow>, alertId: nat, other: nat)
    requires other != alertId
    ensures ChildrenOf(WithoutChildren(a, alertId), other) == ChildrenOf(a, other)
  {
    if |a| > 0 {
      WithoutChildrenOther(a[1..], alertId, other);
      var rest := WithoutChildren(a[1..], alertId);
      var head := if OtherThan(alertId)(a[0]) then [a[0]] else [];
      assert WithoutChildren(a, alertId) == head + rest;
      ChildrenOfAppend(head, rest, other);
      assert a == [a[0]] + a[1..];
      ChildrenOfAppend([a[0]], a[1..], other);
      ConcatMapSingle(a[0], ChildRow(other));
      assert ChildrenOf(head, other) == ChildRow(other)(a[0]) by {
        if head == [] {
          assert ChildRow(other)(a[0]) == [];
        }
      }
    }
  }

  /** The rows the INSERT loop appends, ids next, next + 1, ... */
  function NewChildren(next: nat, alertId: nat, ds: seq<DistrictData>): (r: seq<AffectedRow>)
    requires AllNamed(ds)
    ensures |r| == |ds|
    ensures forall i :: 0 <= i < |ds| ==> r[i].id == next + i && r[i].alertId == alertId
  {
    if |ds| == 0 then []
    else
      var last := ds[|ds| - 1];
      NewChildren(next, alertId, ds[..|ds| - 1])
        + [AffectedRow(next + |ds| - 1, alertId, last.distrito, last.provincia.value, last.departamento)]
  }

  lemma {:induction false} NewChildrenOf(next: nat, alertId: nat, ds: seq<DistrictData>, other: nat)
    requires AllNamed(ds)
    ensures ChildrenOf(NewChildren(next, alertId, ds), alertId) == ds
    ensures other != alertId ==> ChildrenOf(NewChildren(next, alertId, ds), other) == []
  {
    if |ds| > 0 {
      var init := ds[..|ds| - 1];
      var last := ds[|ds| - 1];
      var row := AffectedRow(next + |ds| - 1, alertId, last.distrito, last.provincia.value, last.departamento);
      var rows := NewChildren(next, alertId, ds);
      NewChildrenOf(next, alertId, init, other);
      assert rows[..|rows| - 1] == NewChildren(next, alertId, init) && rows[|rows| - 1] == row;
      assert ChildRow(alertId)(row) == [last];
      assert init + [last] == ds;
    }
  }

  /** affected_districts after add_affected_districts(alertId, ds). */
  function ReplacedChildren(a: seq<AffectedRow>, next: nat, alertId: nat, ds: seq<DistrictData>): seq<AffectedRow>
    requires AllNamed(ds)
  {
    WithoutChildren(a, alertId) + NewChildren(next, alertId, ds)
  }

  /**
   * After add_affected_districts(alertId, ds) the child rows of alertId are
   * exactly ds, in order; every other alert keeps its child rows.
   */
  lemma ReplaceChildrenExact(a: seq<AffectedRow>, next: nat, alertId: nat, ds: seq<DistrictData>, other: nat)
    requires AllNamed(ds)
    ensures ChildrenOf(ReplacedChildren(a, next, alertId, ds), alertId) == ds
    ensures other != alertId ==> ChildrenOf(ReplacedChildren(a, next, alertId, ds), other) == ChildrenOf(a, other)
  {
    ChildrenOfAppend(WithoutChildren(a, alertId), NewChildren(next, alertId, ds), alertId);
    ChildrenOfAppend(WithoutChildren(a, alertId), NewChildren(next, alertId, ds), other);
    WithoutChildrenOwn(a, alertId);
    if other != alertId {
      WithoutChildrenOther(a, alertId, other);
    }
    NewChildrenOf(next, alertId, ds, other);
  }

  /**
   * The INSERT loop of add_affected_districts: one child row per district, ids
   * next, next + 1, ..., appended to `kept`. It stops at the first district
   * without a province (NOT NULL), and `ok` is then false.
   */
  method InsertChildren(kept: seq<AffectedRow>, next: nat, alertId: nat, ds: seq<DistrictData>)
    returns (ok: bool, rows: seq<AffectedRow>)
    ensures ok == AllNamed(ds)
    ensures ok ==> rows == kept + NewChildren(next, alertId, ds)
  {
    rows := kept;
    for i := 0 to |ds|
      invariant AllNamed(ds[..i])
      invariant rows == kept + NewChildren(next, alertId, ds[..i])
    {
      if ds[i].provincia.None? {
        assert !AllNamed(ds);
        return false, rows;
      }
      var row := AffectedRow(next + i, alertId, ds[i].distrito, ds[i].provincia.value, ds[i].departamento);
      ghost var upto := ds[..i + 1];
      assert upto[..i] == ds[..i] && upto[i] == ds[i];
      assert AllNamed(upto);
      assert NewChildren(next, alertId, upto) == NewChildren(next, alertId, ds[..i]) + [row];
      rows := rows + [row];
    }
    assert ds[..|ds|] == ds;
    ok := true;
  }

  /** Child ids increase along the table and stay below the AUTOINCREMENT counter. */
  predicate ChildIdsValid(a: seq<AffectedRow>, next: nat)
  {
    && (forall i, j :: 0 <= i < j < |a| ==> a[i].id < a[j].id)
    && (forall i :: 0 <= i < |a| ==> 1 <= a[i].id < next)
  }

  lemma ConsKeepsChildIds(x: AffectedRow, rest: seq<AffectedRow>, next: nat)
    requires ChildIdsValid(rest, next) && 1 <= x.id < next
    requires forall j :: 0 <= j < |rest| ==> x.id < rest[j].id
    ensures ChildIdsValid([x] + rest, next)
  {
    var r := [x] + rest;
    forall i, j | 0 <= i < j < |r| ensures r[i].id < r[j].id {
      assert r[j] == rest[j - 1];
      if i > 0 {
        assert r[i] == rest[i - 1];
      }
    }
  }

  lemma {:induction false} FilterKeepsChildIds(a: seq<AffectedRow>, p: AffectedRow -> bool, next: nat)
    requires ChildIdsValid(a, next)
    ensures ChildIdsValid(Filter(a, p), next)
  {
    if |a| > 0 {
      var tail := a[1..];
      FilterKeepsChildIds(tail, p, next);
      var rest := Filter(tail, p);
      if p(a[0]) {
        forall j | 0 <= j < |rest| ensures a[0].id < rest[j].id {
          var k :| 0 <= k < |tail| && tail[k] == rest[j];
          assert a[k + 1] == rest[j];
        }
        ConsKeepsChildIds(a[0], rest, next);
      }
    }
  }

  lemma ReplaceKeepsChildIds(a: seq<AffectedRow>, next: nat, alertId: nat, ds: seq<DistrictData>)
    requires ChildIdsValid(a, next) && next >= 1
    requires AllNamed(ds)
    ensures ChildIdsValid(ReplacedChildren(a, next, alertId, ds), next + |ds|)
  {
    FilterKeepsChildIds(a, OtherThan(alertId), next);
    NewChildrenOf(next, alertId, ds, alertId);
  }

  // ---------------------------------------------------------------------------
  // get_district_history's join
  // ---------------------------------------------------------------------------

  predicate JoinsWith(alertId: nat, d: string, r: AffectedRow)
  {
    r.alertId == alertId && r.distrito == d
  }

  /** The child rows `ON ah.id = ad.alert_id WHERE ad.distrito = d` pairs with the alert alertId, as a mask. */
  function ChildIn(alertId: nat, d: string): AffectedRow -> bool
  {
    (r: AffectedRow) => JoinsWith(alertId, d, r)
  }

  /** The joined rows of one alert row h: one per child row in f, in f's order. */
  predicate JoinedFrom(h: HistoryRow, f: seq<AffectedRow>, r: seq<JoinedRow>)
  {
    |r| == |f| && forall k :: 0 <= k < |r| ==> r[k] == JoinedRow(h, f[k].distrito, f[k].provincia)
  }

  /** The pairs of h with its child rows for district d, as a membership test. */
  ghost predicate JoinsAll(h: HistoryRow, a: seq<AffectedRow>, d: string, r: seq<JoinedRow>)
  {
    forall x :: x in r <==> exists k :: (0 <= k < |a| && a[k].alertId == h.id && a[k].distrito == d
                                         && x == JoinedRow(h, a[k].distrito, a[k].provincia))
  }

  /** Putting the pair for a's first row (if it matches) before the pairs of the rest gives the pairs of a. */
  lemma JoinsAllCons(h: HistoryRow, a: seq<AffectedRow>, d: string, rest: seq<JoinedRow>, r: seq<JoinedRow>)
    requires |a| > 0 && JoinsAll(h, a[1..], d, rest)
    requires r == (if JoinsWith(h.id, d, a[0]) then [JoinedRow(h, a[0].distrito, a[0].provincia)] else []) + rest
    ensures JoinsAll(h, a, d, r)
  {
    assert forall k :: 1 <= k < |a| ==> a[k] == a[1..][k - 1];
    forall x | x in r
      ensures exists k :: (0 <= k < |a| && a[k].alertId == h.id && a[k].distrito == d
                           && x == JoinedRow(h, a[k].distrito, a[k].provincia))
    {
      if x !in rest {
        assert JoinsWith(h.id, d, a[0]) && x == JoinedRow(h, a[0].distrito, a[0].provincia);
      } else {
        var k :| 0 <= k < |a[1..]| && a[1..][k].alertId == h.id && a[1..][k].distrito == d
                 && x == JoinedRow(h, a[1..][k].distrito, a[1..][k].provincia);
        assert a[k + 1] == a[1..][k];
      }
    }
  }

  /**
   * The child rows of one alert row for district d, joined to it: one joined
   * row per matching child row, in rowid order, duplicates included.
   */
  function JoinOne(h: HistoryRow, a: seq<AffectedRow>, d: string): (r: seq<JoinedRow>)
    ensures JoinedFrom(h, Filter(a, ChildIn(h.id, d)), r)
    ensures JoinsAll(h, a, d, r)
  {
    if |a| == 0 then []
    else
      var rest := JoinOne(h, a[1..], d);
      assert a == [a[0]] + a[1..];
      var r :=
        if JoinsWith(h.id, d, a[0]) then
          assert Filter(a, ChildIn(h.id, d)) == [a[0]] + Filter(a[1..], ChildIn(h.id, d));
          [JoinedRow(h, a[0].distrito, a[0].provincia)] + rest
        else
          assert Filter(a, ChildIn(h.id, d)) == Filter(a[1..], ChildIn(h.id, d));
          rest;
      JoinsAllCons(h, a, d, rest, r);
      r
  }

  /**
   * `alerts_history ah JOIN affected_districts ad ON ah.id = ad.alert_id WHERE
   * ad.distrito = d`, before ordering: one row per matching pair.
   */
  function DistrictJoin(h: seq<HistoryRow>, a: seq<AffectedRow>, d: string): (r: seq<JoinedRow>)
    ensures forall x :: x in r <==> exists i, k :: (0 <= i < |h| && 0 <= k < |a| &&
      a[k].alertId == h[i].id && a[k].distrito == d && x == JoinedRow(h[i], a[k].distrito, a[k].provincia))
  {
    if |h| == 0 then []
    else
      var rest := DistrictJoin(h[1..], a, d);
      assert forall i :: 1 <= i < |h| ==> h[i] == h[1..][i - 1];
      JoinOne(h[0], a, d) + rest
  }

  /** Two equal child rows of one alert join twice: the join keeps duplicates. */
  lemma JoinOneKeepsDuplicates(h: HistoryRow, c: AffectedRow, d: string)
    requires c.alertId == h.id && c.distrito == d
    ensures JoinOne(h, [c, c], d) == [JoinedRow(h, d, c.provincia), JoinedRow(h, d, c.provincia)]
  {
    assert [c, c][1..] == [c] && [c][1..] == [];
  }

  /** The join of a concatenation of alert rows is the join of each part, in order. */
  lemma {:induction false} DistrictJoinAppend(h1: seq<HistoryRow>, h2: seq<HistoryRow>, a: seq<AffectedRow>, d: string)
    ensures DistrictJoin(h1 + h2, a, d) == DistrictJoin(h1, a, d) + DistrictJoin(h2, a, d)
  {
    if |h1| == 0 {
      assert h1 + h2 == h2;
    } else {
      assert (h1 + h2)[1..] == h1[1..] + h2;
      DistrictJoinAppend(h1[1..], h2, a, d);
    }
  }

  /** One alert row contributes exactly its JoinOne rows. */
  lemma DistrictJoinSingle(x: HistoryRow, a: seq<AffectedRow>, d: string)
    ensures DistrictJoin([x], a, d) == JoinOne(x, a, d)
  {
    assert [x][1..] == [];
  }

  // ---------------------------------------------------------------------------
  // An alert and its districts, as a reader of both tables sees them
  // ---------------------------------------------------------------------------

  /** The alert (nro, inicio) has a history row, and its child rows are exactly ds. */
  ghost predicate Stored(h: seq<HistoryRow>, a: seq<AffectedRow>, nro: string, inicio: string, ds: seq<DistrictData>)
  {
    && (exists j :: 0 <= j < |h| && SameKey(h[j], nro, inicio))
    && (forall j :: 0 <= j < |h| && SameKey(h[j], nro, inicio) ==> ChildrenOf(a, h[j].id) == ds)
  }

  /** add_alert for any alert keeps every stored alert stored: keys and ids of existing rows stay. */
  lemma StoredAfterUpsert(h: seq<HistoryRow>, next: nat, a: seq<AffectedRow>, data: AlertData,
                          nro: string, inicio: string, ds: seq<DistrictData>)
    requires HistoryValid(h, next)
    requires Stored(h, a, nro, inicio, ds)
    ensures Stored(Upserted(h, next, data), a, nro, inicio, ds)
  {
    var u := Upserted(h, next, data);
    var j :| 0 <= j < |h| && SameKey(h[j], nro, inicio);
    assert SameKey(u[j], nro, inicio);
    forall j' | 0 <= j' < |u| && SameKey(u[j'], nro, inicio)
      ensures ChildrenOf(a, u[j'].id) == ds
    {
      if j' < |h| {
        assert u[j'].id == h[j'].id && SameKey(h[j'], nro, inicio);
      }
    }
  }

  /**
   * add_affected_districts for the row at index k keeps every other stored
   * alert stored, and stores that row's alert with the new districts.
   */
  lemma StoredAfterReplace(h: seq<HistoryRow>, next: nat, a: seq<AffectedRow>, nextChild: nat,
                           k: nat, newDs: seq<DistrictData>, nro: string, inicio: string, ds: seq<DistrictData>)
    requires HistoryValid(h, next)
    requires k < |h| && AllNamed(newDs)
    requires SameKey(h[k], nro, inicio) ==> newDs == ds
    requires SameKey(h[k], nro, inicio) || Stored(h, a, nro, inicio, ds)
    ensures Stored(h, ReplacedChildren(a, nextChild, h[k].id, newDs), nro, inicio, ds)
  {
    var a' := ReplacedChildren(a, nextChild, h[k].id, newDs);
    if SameKey(h[k], nro, inicio) {
      assert SameKey(h[k], nro, inicio);
    }
    forall j | 0 <= j < |h| && SameKey(h[j], nro, inicio)
      ensures ChildrenOf(a', h[j].id) == ds
    {
      ReplaceChildrenExact(a, nextChild, h[k].id, newDs, h[j].id);
      if h[j].id == h[k].id {
        assert j == k;
      }
    }
  }

  /**
   * From (h0, a0) to (h, a) only the alert (nro, inicio) was touched: every
   * other history row, and the child rows of its id, are as they were; the
   * rows of that alert keep its key, and a row added at the end has it.
   */
  ghost predicate OthersKept(h0: seq<HistoryRow>, a0: seq<AffectedRow>, h: seq<HistoryRow>, a: seq<AffectedRow>,
                             nro: string, inicio: string)
  {
    && |h| >= |h0|
    && (forall j :: 0 <= j < |h0| && !SameKey(h0[j], nro, inicio) ==>
          h[j] == h0[j] && ChildrenOf(a, h0[j].id) == ChildrenOf(a0, h0[j].id))
    && (forall j :: 0 <= j < |h0| && SameKey(h0[j], nro, inicio) ==> SameKey(h[j], nro, inicio))
    && (forall j :: |h0| <= j < |h| ==> SameKey(h[j], nro, inicio))
  }

  /** add_alert touches no other alert. */
  lemma UpsertKeepsOthers(h: seq<HistoryRow>, next: nat, a: seq<AffectedRow>, data: AlertData)
    requires HistoryValid(h, next)
    ensures OthersKept(h, a, Upserted(h, next, data), a, data.nro, data.inicio)
  {
  }

  /**
   * add_alert followed by add_affected_districts for the id it returned touches
   * no other alert: the other rows keep their ids, which differ from that id.
   */
  lemma UpsertReplaceKeepsOthers(h: seq<HistoryRow>, next: nat, a: seq<AffectedRow>, nextChild: nat,
                                 data: AlertData, ds: seq<DistrictData>)
    requires HistoryValid(h, next) && AllNamed(ds)
    ensures OthersKept(h, a, Upserted(h, next, data),
                       ReplacedChildren(a, nextChild, UpsertId(h, next, data), ds), data.nro, data.inicio)
  {
    var id := UpsertId(h, next, data);
    UpsertKeepsOthers(h, next, a, data);
    forall j | 0 <= j < |h| && !SameKey(h[j], data.nro, data.inicio)
      ensures ChildrenOf(ReplacedChildren(a, nextChild, id, ds), h[j].id) == ChildrenOf(a, h[j].id)
    {
      assert h[j].id != id;
      ReplaceChildrenExact(a, nextChild, id, ds, h[j].id);
    }
  }

  // ---------------------------------------------------------------------------
  // The store
  // ---------------------------------------------------------------------------

  class AlertDatabase {
    /** alerts_history, in rowid order. */
    var history: seq<HistoryRow>
    /** affected_districts, in rowid order. */
    var affected: seq<AffectedRow>
    /** sqlite_sequence for alerts_history, plus one. */
    var nextId: nat
    /** sqlite_sequence for affected_districts, plus one. */
    var nextChildId: nat

    ghost predicate Valid()
      reads this
    {
      nextId >= 1 && nextChildId >= 1 && HistoryValid(history, nextId) && ChildIdsValid(affected, nextChildId)
    }

    /** init_database on a new file: both tables empty. */
    constructor ()
      ensures Valid()
      ensures history == [] && affected == []
    {
      history := [];
      affected := [];
      nextId := 1;
      nextChildId := 1;
    }

    /** add_alert: update the row with this (nro, inicio), or insert a new one; returns its id. */
    method AddAlert(data: AlertData) returns (id: nat)
      requires Valid()
      modifies this
      ensures Valid()
      ensures history == Upserted(old(history), old(nextId), data)
      ensures id == UpsertId(old(history), old(nextId), data)
      ensures nextId == NextAfterUpsert(old(history), old(nextId), data)
      ensures FindAlert(history, data.nro, data.inicio).Some?
      ensures history[FindAlert(history, data.nro, data.inicio).value] == NewRow(id, data)
      ensures affected == old(affected) && nextChildId == old(nextChildId)
    {
      AddAlertKeepsInvariant(history, nextId, data);
      var existing := FindAlert(history, data.nro, data.inicio);
      if existing.Some? {
        id := history[existing.value].id;
        history := history[existing.value := Refreshed(history[existing.value], data)];
      } else {
        id := nextId;
        history := history + [NewRow(id, data)];
        nextId := nextId + 1;
      }
    }

    /**
     * add_affected_districts: delete the alert's child rows, then insert one
     * per district, in order. A district without a province violates NOT NULL;
     * the transaction is then never committed: ok is false and nothing changes.
     */
    method AddAffectedDistricts(alertId: nat, ds: seq<DistrictData>) returns (ok: bool)
      requires Valid()
      modifies this
      ensures Valid()
      ensures ok == AllNamed(ds)
      ensures ok ==> affected == ReplacedChildren(old(affected), old(nextChildId), alertId, ds)
      ensures ok ==> nextChildId == old(nextChildId) + |ds|
      ensures !ok ==> affected == old(affected) && nextChildId == old(nextChildId)
      ensures history == old(history) && nextId == old(nextId)
    {
      var rows;
      ok, rows := InsertChildren(WithoutChildren(affected, alertId), nextChildId, alertId, ds);
      if ok {
        ReplaceKeepsChildIds(affected, nextChildId, alertId, ds);
        affected, nextChildId := rows, nextChildId + |ds|;
      }
    }

    /** get_active_alerts: the rows with status 'active', latest inicio first. */
    method GetActiveAlerts() returns (rows: seq<HistoryRow>)
      ensures multiset(rows) == multiset(Filter(history, IsActive))
      ensures SortedDesc(rows, InicioOf)
      ensures forall r :: r in rows <==> r in history && r.status == Active
    {
      var selected := Filter(history, IsActive);
      SortDescCorrect(selected, InicioOf);
      rows := SortDesc(selected, InicioOf);
      forall r ensures r in rows <==> r in history && r.status == Active {
        assert r in rows <==> r in multiset(rows);
        assert r in selected <==> r in multiset(selected);
      }
    }

    /** get_alert_history: the rows with inicio >= cutoff, latest first. */
    method GetAlertHistory(cutoff: string) returns (rows: seq<HistoryRow>)
      ensures multiset(rows) == multiset(Filter(history, Since(cutoff)))
      ensures SortedDesc(rows, InicioOf)
      ensures forall r :: r in rows <==> r in history && !LexLess(r.inicio, cutoff)
    {
      var selected := Filter(history, Since(cutoff));
      SortDescCorrect(selected, InicioOf);
      rows := SortDesc(selected, InicioOf);
      forall r ensures r in rows <==> r in history && !LexLess(r.inicio, cutoff) {
        assert r in rows <==> r in multiset(rows);
        assert r in selected <==> r in multiset(selected);
      }
    }

    /** get_district_history: one joined row per (alert, child row) pair of district d, latest first. */
    method GetDistrictHistory(d: string) returns (rows: seq<JoinedRow>)
      ensures multiset(rows) == multiset(DistrictJoin(history, affected, d))
      ensures SortedDesc(rows, JoinedInicio)
      ensures forall x :: x in rows ==> x.alert in history && x.distrito == d
    {
      var joined := DistrictJoin(history, affected, d);
      SortDescCorrect(joined, JoinedInicio);
      rows := SortDesc(joined, JoinedInicio);
      forall x | x in rows ensures x.alert in history && x.distrito == d {
        assert x in multiset(rows);
        assert x in joined;
      }
    }

    /** update_alert_status: every row with this nro gets the status; nothing else changes. */
    method UpdateAlertStatus(nro: string, status: string)
      requires Valid()
      modifies this
      ensures Valid()
      ensures history == WithStatus(old(history), nro, status)
      ensures affected == old(affected) && nextId == old(nextId) && nextChildId == old(nextChildId)
    {
      WithStatusKeepsInvariant(history, nro, status, nextId);
      history := WithStatus(history, nro, status);
    }

    /**
     * cleanup_old_alerts: delete the history rows with inicio < cutoff. The
     * child rows are not touched, so they may now point at no alert.
     */
    method CleanupOldAlerts(cutoff: string)
      requires Valid()
      modifies this
      ensures Valid()
      ensures history == Retained(old(history), cutoff)
      ensures affected == old(affected) && nextId == old(nextId) && nextChildId == old(nextChildId)
    {
      FilterKeepsInvariant(history, Since(cutoff), nextId);
      history := Retained(history, cutoff);
    }
  }

  /**
   * Cleanup removes the alert row of every alert that starts before the
   * cutoff, and no remaining row carries its id; since cleanup_old_alerts
   * leaves affected_districts as it is, the child rows of such an alert
   * remain and now point at no alert.
   */
  lemma CleanupLeavesOrphans(h: seq<HistoryRow>, next: nat, cutoff: string, k: nat)
    requires HistoryValid(h, next) && k < |h| && LexLess(h[k].inicio, cutoff)
    ensures forall r :: r in Retained(h, cutoff) ==> r.id != h[k].id
  {
    var kept := Retained(h, cutoff);
    forall r | r in kept
      ensures r.id != h[k].id
    {
      var i :| 0 <= i < |kept| && kept[i] == r;
      assert r in h && Since(cutoff)(r);
      var j :| 0 <= j < |h| && h[j] == r;
      assert j != k;
    }
  }
}
