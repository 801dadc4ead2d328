/** The summary report (`resumen_general`, views.py:1449-1603): the placed
    items are filtered by the query string, summed by sector, by location
    and by object, given percentages (`_add_percentages`, views.py:1434-1447),
    and the items in bad condition are listed per object. */
module Resumen {
  import opened Wrappers
  import opened Models
  import opened Sorting
  import Catalog

  // ---------------------------------------------------------------------
  // The joined rows
  // ---------------------------------------------------------------------

  /** One placed item with the columns the report reads through its room
      and its kind. A NULL or dangling key leaves every column reached
      through it NULL, as the LEFT JOINs of `select_related` do. */
  datatype Joined = Joined(
    id: Id,
    cantidad: int,
    estado: string,
    lugar: Option<Id>,
    lugarNombre: Option<string>,
    tipoLugar: Option<Id>,
    piso: Option<Id>,
    pisoNumero: Option<int>,
    ubicacion: Option<Id>,
    ubicacionNombre: Option<string>,
    sector: Option<Id>,
    sectorNombre: Option<string>,
    tipo: Option<Id>,
    marca: Option<string>,
    material: Option<string>,
    objeto: Option<Id>,
    objetoNombre: Option<string>,
    categoria: Option<Id>)

  /** The stored row a nullable key reaches, if any. */
  function Follow<T>(m: map<Id, T>, k: Option<Id>): (r: Option<T>)
    ensures r.Some? <==> k.Some? && k.value in m
    ensures r.Some? ==> r.value == m[k.value]
  {
    if k.Some? && k.value in m then Some(m[k.value]) else None
  }

  /** Item `id` joined with its room, floor, location, sector, kind and
      object. */
  function Join(s: Store, id: Id): (j: Joined)
    requires id in s.items
    ensures j.id == id && j.cantidad == s.items[id].cantidad && j.estado == s.items[id].estado
    ensures j.lugar.Some? <==> s.items[id].lugar.Some? && s.items[id].lugar.value in s.lugares
    ensures j.tipo.Some? <==> s.items[id].tipoDeObjeto.Some? && s.items[id].tipoDeObjeto.value in s.tiposObjeto
    ensures j.tipo.Some? <==> j.objeto.Some?
  {
    var item := s.items[id];
    var lugar := Follow(s.lugares, item.lugar);
    var pisoId := if lugar.Some? then Some(lugar.value.piso) else None;
    var piso := Follow(s.pisos, pisoId);
    var ubicacionId := if piso.Some? then Some(piso.value.ubicacion) else None;
    var ubicacion := Follow(s.ubicaciones, ubicacionId);
    var sectorId := if ubicacion.Some? then Some(ubicacion.value.sector) else None;
    var sector := Follow(s.sectores, sectorId);
    var tipo := Follow(s.tiposObjeto, item.tipoDeObjeto);
    var objetoId := if tipo.Some? then Some(tipo.value.objeto) else None;
    var objeto := Follow(s.objetos, objetoId);
    Joined(
      id, item.cantidad, item.estado,
      if lugar.Some? then item.lugar else None,
      if lugar.Some? then Some(lugar.value.nombreDelLugar) else None,
      if lugar.Some? then Some(lugar.value.tipoLugar) else None,
      pisoId,
      if piso.Some? then Some(piso.value.piso) else None,
      ubicacionId,
      if ubicacion.Some? then Some(ubicacion.value.ubicacion) else None,
      sectorId,
      if sector.Some? then Some(sector.value.sector) else None,
      if tipo.Some? then item.tipoDeObjeto else None,
      if tipo.Some? then tipo.value.marca else None,
      if tipo.Some? then tipo.value.material else None,
      objetoId,
      if objeto.Some? then Some(objeto.value.nombreDelObjeto) else None,
      if objeto.Some? then Some(objeto.value.categoria) else None)
  }

  /** `ObjetoLugar.objects` joined, in key order. */
  function Rows(s: Store): (rows: seq<Joined>)
    requires Fresh(s)
    ensures forall k :: k in s.items <==> exists i | 0 <= i < |rows| :: rows[i].id == k
    ensures forall i | 0 <= i < |rows| :: rows[i].id in s.items && rows[i] == Join(s, rows[i].id)
    ensures forall i, j | 0 <= i < j < |rows| :: rows[i].id < rows[j].id
  {
    var keys := Catalog.Matching(s.items, s.nextId, (x: ObjetoLugar) => true);
    assert forall k | k in s.items :: k in keys;
    var rows := seq(|keys|, i requires 0 <= i < |keys| => Join(s, keys[i]));
    assert forall i | 0 <= i < |keys| :: rows[i].id == keys[i];
    rows
  }

  // ---------------------------------------------------------------------
  // Filters (views.py:1454-1500)
  // ---------------------------------------------------------------------

  /** `request.GET.get(name) or None`: a missing or empty parameter is no
      filter. */
  function Param(raw: Option<string>): (p: Option<string>)
    ensures p.None? <==> raw.None? || raw.value == ""
    ensures p.Some? ==> p == raw
  {
    if raw.Some? && raw.value != "" then raw else None
  }

  /** The ten filters after `or None`; the key filters hold the number the
      parameter names. */
  datatype Filters = Filters(
    sector: Option<Id>,
    ubicacion: Option<Id>,
    piso: Option<Id>,
    tipoLugar: Option<Id>,
    categoria: Option<Id>,
    objeto: Option<Id>,
    tipoObjeto: Option<Id>,
    estado: Option<string>,
    marca: Option<string>,
    material: Option<string>)

  const NO_FILTERS: Filters := Filters(None, None, None, None, None, None, None, None, None, None)

  /** A column compared with a given filter value: SQL `=`, false on NULL. */
  predicate Eq<T(==)>(column: Option<T>, value: T) {
    column == Some(value)
  }

  // One lookup per filter, as the view spells it.
  predicate BySector(j: Joined, v: Id) { Eq(j.sector, v) }
  predicate ByUbicacion(j: Joined, v: Id) { Eq(j.ubicacion, v) }
  predicate ByPiso(j: Joined, v: Id) { Eq(j.piso, v) }
  predicate ByTipoLugar(j: Joined, v: Id) { Eq(j.tipoLugar, v) }
  predicate ByCategoria(j: Joined, v: Id) { Eq(j.categoria, v) }
  predicate ByObjeto(j: Joined, v: Id) { Eq(j.objeto, v) }
  predicate ByTipoObjeto(j: Joined, v: Id) { Eq(j.tipo, v) }
  predicate ByEstado(j: Joined, v: string) { j.estado == v }
  predicate ByMarca(j: Joined, v: string) { Eq(j.marca, v) }
  predicate ByMaterial(j: Joined, v: string) { Eq(j.material, v) }

  /** `given` is absent or `p` holds with its value. */
  predicate Imposes<T>(given: Option<T>, j: Joined, p: (Joined, T) -> bool) {
    given.Some? ==> p(j, given.value)
  }

  /** The row passes every filter given. */
  predicate Matches(j: Joined, f: Filters) {
    && Imposes(f.sector, j, BySector)
    && Imposes(f.ubicacion, j, ByUbicacion)
    && Imposes(f.piso, j, ByPiso)
    && Imposes(f.tipoLugar, j, ByTipoLugar)
    && Imposes(f.categoria, j, ByCategoria)
    && Imposes(f.objeto, j, ByObjeto)
    && Imposes(f.tipoObjeto, j, ByTipoObjeto)
    && Imposes(f.estado, j, ByEstado)
    && Imposes(f.marca, j, ByMarca)
    && Imposes(f.material, j, ByMaterial)
  }

  /** `.filter(...)`: the rows satisfying `p`, in order. */
  function Where(rows: seq<Joined>, p: Joined -> bool): (r: seq<Joined>)
    ensures |r| <= |rows|
    ensures forall x :: x in r <==> x in rows && p(x)
  {
    if rows == [] then []
    else
      var rest := Where(rows[1..], p);
      assert forall x :: x in rows <==> x == rows[0] || x in rows[1..];
      if p(rows[0]) then [rows[0]] + rest else rest
  }

  /** A single row is kept iff it satisfies the condition. */
  lemma WhereOne(x: Joined, p: Joined -> bool)
    ensures Where([x], p) == if p(x) then [x] else []
  {
    assert [x][1..] == [];
  }

  /** `.filter` keeps the order: filtering two runs of rows gives the kept
      rows of the first followed by those of the second. */
  lemma {:induction false} WhereAppend(a: seq<Joined>, b: seq<Joined>, p: Joined -> bool)
    ensures Where(a + b, p) == Where(a, p) + Where(b, p)
    decreases |a|
  {
    if a == [] {
      assert a + b == b;
    } else {
      var c, head := a + b, if p(a[0]) then [a[0]] else [];
      assert c[0] == a[0] && c[1..] == a[1..] + b;
      assert Where(c, p) == head + Where(a[1..] + b, p);
      assert Where(a, p) == head + Where(a[1..], p);
      WhereAppend(a[1..], b, p);
    }
  }

  /** Filtering twice is filtering once by both conditions. */
  lemma {:induction false} WhereWhere(rows: seq<Joined>, p: Joined -> bool, q: Joined -> bool, pq: Joined -> bool)
    requires forall x :: pq(x) == (p(x) && q(x))
    ensures Where(Where(rows, p), q) == Where(rows, pq)
  {
    if rows != [] {
      WhereWhere(rows[1..], p, q, pq);
      if p(rows[0]) {
        assert Where(rows, p) == [rows[0]] + Where(rows[1..], p);
        assert Where(rows, p)[1..] == Where(rows[1..], p);
      }
    }
  }

  /** Filters that agree on every row select the same rows. */
  lemma {:induction false} WhereSame(rows: seq<Joined>, p: Joined -> bool, q: Joined -> bool)
    requires forall x :: p(x) == q(x)
    ensures Where(rows, p) == Where(rows, q)
  {
    if rows != [] {
      WhereSame(rows[1..], p, q);
    }
  }

  /** A filter that holds of every row keeps them all. */
  lemma {:induction false} WhereAll(rows: seq<Joined>, p: Joined -> bool)
    requires forall i | 0 <= i < |rows| :: p(rows[i])
    ensures Where(rows, p) == rows
  {
    if rows != [] {
      assert forall i | 0 <= i < |rows| - 1 :: rows[1..][i] == rows[i + 1];
      WhereAll(rows[1..], p);
    }
  }

  /** `if x: base_qs = base_qs.filter(...)` for one filter. */
  function When<T>(given: Option<T>, rows: seq<Joined>, p: (Joined, T) -> bool): (r: seq<Joined>)
    ensures forall x :: x in r <==> x in rows && Imposes(given, x, p)
  {
    if given.Some? then Where(rows, (j: Joined) => p(j, given.value)) else rows
  }

  /** Applying one more filter to a filtered list is filtering by the
      conjunction. */
  lemma WhenWhere<T>(given: Option<T>, rows: seq<Joined>, p: (Joined, T) -> bool, before: Joined -> bool, after: Joined -> bool)
    requires forall x :: after(x) == (before(x) && Imposes(given, x, p))
    ensures When(given, Where(rows, before), p) == Where(rows, after)
  {
    if given.Some? {
      WhereWhere(rows, before, (j: Joined) => p(j, given.value), after);
    } else {
      WhereSame(rows, before, after);
    }
  }

  /** The filtered base: the ten filters applied one after another in the
      order the view applies them. */
  function Base(rows: seq<Joined>, f: Filters): seq<Joined> {
    var r1 := When(f.sector, rows, BySector);
    var r2 := When(f.ubicacion, r1, ByUbicacion);
    var r3 := When(f.piso, r2, ByPiso);
    var r4 := When(f.tipoLugar, r3, ByTipoLugar);
    var r5 := When(f.categoria, r4, ByCategoria);
    var r6 := When(f.objeto, r5, ByObjeto);
    var r7 := When(f.tipoObjeto, r6, ByTipoObjeto);
    var r8 := When(f.estado, r7, ByEstado);
    var r9 := When(f.marca, r8, ByMarca);
    When(f.material, r9, ByMaterial)
  }

  /** The chain of filters selects, in order, exactly the rows that pass
      every filter given: each kept row satisfies them all, and no row that
      does is dropped. */
  lemma BaseMatches(rows: seq<Joined>, f: Filters)
    ensures Base(rows, f) == Where(rows, (j: Joined) => Matches(j, f))
  {
    var p0 := (j: Joined) => true;
    var p1 := (j: Joined) => Imposes(f.sector, j, BySector);
    var p2 := (j: Joined) => p1(j) && Imposes(f.ubicacion, j, ByUbicacion);
    var p3 := (j: Joined) => p2(j) && Imposes(f.piso, j, ByPiso);
    var p4 := (j: Joined) => p3(j) && Imposes(f.tipoLugar, j, ByTipoLugar);
    var p5 := (j: Joined) => p4(j) && Imposes(f.categoria, j, ByCategoria);
    var p6 := (j: Joined) => p5(j) && Imposes(f.objeto, j, ByObjeto);
    var p7 := (j: Joined) => p6(j) && Imposes(f.tipoObjeto, j, ByTipoObjeto);
    var p8 := (j: Joined) => p7(j) && Imposes(f.estado, j, ByEstado);
    var p9 := (j: Joined) => p8(j) && Imposes(f.marca, j, ByMarca);
    var p10 := (j: Joined) => p9(j) && Imposes(f.material, j, ByMaterial);
    WhereAll(rows, p0);
    WhenWhere(f.sector, rows, BySector, p0, p1);
    WhenWhere(f.ubicacion, rows, ByUbicacion, p1, p2);
    WhenWhere(f.piso, rows, ByPiso, p2, p3);
    WhenWhere(f.tipoLugar, rows, ByTipoLugar, p3, p4);
    WhenWhere(f.categoria, rows, ByCategoria, p4, p5);
    WhenWhere(f.objeto, rows, ByObjeto, p5, p6);
    WhenWhere(f.tipoObjeto, rows, ByTipoObjeto, p6, p7);
    WhenWhere(f.estado, rows, ByEstado, p7, p8);
    WhenWhere(f.marca, rows, ByMarca, p8, p9);
    WhenWhere(f.material, rows, ByMaterial, p9, p10);
    WhereSame(rows, p10, (j: Joined) => Matches(j, f));
  }

  /** With no filter given the base is every row, in order. */
  lemma NoFiltersKeepAll(rows: seq<Joined>)
    ensures Base(rows, NO_FILTERS) == rows
  {
    BaseMatches(rows, NO_FILTERS);
    WhereAll(rows, (j: Joined) => Matches(j, NO_FILTERS));
  }

  // ---------------------------------------------------------------------
  // Sums (`annotate(total=Sum(...), buenas=Sum(..., filter=Q(...)), ...)`)
  // ---------------------------------------------------------------------

  /** The quantities of the rows satisfying `p`, added up. */
  function SumOf(rows: seq<Joined>, p: Joined -> bool): int {
    if rows == [] then 0
    else (if p(rows[0]) then rows[0].cantidad else 0) + SumOf(rows[1..], p)
  }

  /** SQL `SUM`: NULL over no row, otherwise the sum. */
  function SumWhere(rows: seq<Joined>, p: Joined -> bool): (r: Option<int>)
    ensures r.None? <==> forall x | x in rows :: !p(x)
    ensures r.Some? ==> r.value == SumOf(rows, p)
  {
    if forall x | x in rows :: !p(x) then None else Some(SumOf(rows, p))
  }

  /** The four sums of one group. */
  datatype Totals = Totals(total: Option<int>, buenas: Option<int>, pendientes: Option<int>, malas: Option<int>)

  predicate Any(j: Joined) { true }
  predicate IsBueno(j: Joined) { j.estado == BUENO }
  predicate IsPendiente(j: Joined) { j.estado == PENDIENTE }
  predicate IsMalo(j: Joined) { j.estado == MALO }

  function TotalsOf(rows: seq<Joined>): Totals {
    Totals(SumWhere(rows, Any), SumWhere(rows, IsBueno), SumWhere(rows, IsPendiente), SumWhere(rows, IsMalo))
  }

  /** Adding by condition: when every row is B, P or M, the three partial
      sums add up to the whole. */
  lemma {:induction false} SumSplits(rows: seq<Joined>)
    requires forall i | 0 <= i < |rows| :: ValidEstado(rows[i].estado)
    ensures SumOf(rows, IsBueno) + SumOf(rows, IsPendiente) + SumOf(rows, IsMalo) == SumOf(rows, Any)
  {
    if rows != [] {
      assert forall i | 0 <= i < |rows| - 1 :: rows[1..][i] == rows[i + 1];
      SumSplits(rows[1..]);
      assert ValidEstado(rows[0].estado);
    }
  }

  /** Within a group whose rows are all B, P or M, and reading a NULL sum
      as 0, buenas + pendientes + malas = total. */
  lemma PartsAddUp(rows: seq<Joined>)
    requires forall i | 0 <= i < |rows| :: ValidEstado(rows[i].estado)
    ensures var t := TotalsOf(rows);
      t.buenas.GetOr(0) + t.pendientes.GetOr(0) + t.malas.GetOr(0) == t.total.GetOr(0)
  {
    SumSplits(rows);
    NoneSumsZero(rows, Any);
    NoneSumsZero(rows, IsBueno);
    NoneSumsZero(rows, IsPendiente);
    NoneSumsZero(rows, IsMalo);
  }

  /** A condition no row satisfies sums to 0. */
  lemma {:induction false} NoneSumsZero(rows: seq<Joined>, p: Joined -> bool)
    ensures (forall x | x in rows :: !p(x)) ==> SumOf(rows, p) == 0
  {
    if rows != [] {
      assert forall x | x in rows[1..] :: x in rows;
      NoneSumsZero(rows[1..], p);
    }
  }

  // ---------------------------------------------------------------------
  // Percentages (`_add_percentages`)
  // ---------------------------------------------------------------------

  /** The three shares of a group, in percent. */
  datatype Pct = Pct(buenas: real, pendientes: real, malas: real)

  /** `_add_percentages` on one row: missing sums read as 0, a zero total
      gives three zeros without dividing, otherwise each part over the
      total, times 100 (exactly: the rounding to one decimal is left
      out). */
  function AddPercentages(t: Totals): (p: Pct)
    ensures t.total.GetOr(0) == 0 ==> p == Pct(0.0, 0.0, 0.0)
    ensures t.total.GetOr(0) != 0 ==>
      && p.buenas * t.total.GetOr(0) as real == (t.buenas.GetOr(0) * 100) as real
      && p.pendientes * t.total.GetOr(0) as real == (t.pendientes.GetOr(0) * 100) as real
      && p.malas * t.total.GetOr(0) as real == (t.malas.GetOr(0) * 100) as real
  {
    var total := t.total.GetOr(0);
    if total == 0 then Pct(0.0, 0.0, 0.0)
    else
      Pct((t.buenas.GetOr(0) * 100) as real / total as real,
          (t.pendientes.GetOr(0) * 100) as real / total as real,
          (t.malas.GetOr(0) * 100) as real / total as real)
  }

  /** When the parts add up to a non-zero total, the three shares add up
      to 100. */
  lemma SharesAddUp(t: Totals)
    requires t.total.GetOr(0) != 0
    requires t.buenas.GetOr(0) + t.pendientes.GetOr(0) + t.malas.GetOr(0) == t.total.GetOr(0)
    ensures var p := AddPercentages(t); p.buenas + p.pendientes + p.malas == 100.0
  {
    var p := AddPercentages(t);
    var b, e, m := t.buenas.GetOr(0) as real, t.pendientes.GetOr(0) as real, t.malas.GetOr(0) as real;
    var n := t.total.GetOr(0) as real;
    assert p.buenas * n == b * 100.0;
    assert p.pendientes * n == e * 100.0;
    assert p.malas * n == m * 100.0;
    assert b + e + m == n;
    calc {
      (p.buenas + p.pendientes + p.malas) * n;
      p.buenas * n + p.pendientes * n + p.malas * n;
      (b + e + m) * 100.0;
      100.0 * n;
    }
    CancelFactor(p.buenas + p.pendientes + p.malas, 100.0, n);
  }

  /** A non-zero factor cancels. */
  lemma CancelFactor(x: real, y: real, n: real)
    requires n != 0.0 && x * n == y * n
    ensures x == y
  {
    assert (x - y) * n == 0.0;
  }

  // ---------------------------------------------------------------------
  // Grouping (`values(...).annotate(...).order_by(...)`)
  // ---------------------------------------------------------------------

  /** Some row of `rows` has grouped columns equal to `g`. */
  predicate Occurs<G(==)>(rows: seq<Joined>, key: Joined -> G, g: G) {
    exists x | x in rows :: key(x) == g
  }

  /** The distinct group keys of `rows`, in order of first appearance. */
  function KeysOf<G(==,!new)>(rows: seq<Joined>, key: Joined -> G): (ks: seq<G>)
    ensures forall g :: g in ks <==> Occurs(rows, key, g)
    ensures forall i, j | 0 <= i < j < |ks| :: ks[i] != ks[j]
  {
    if rows == [] then []
    else
      var init := rows[..|rows| - 1];
      var ks := KeysOf(init, key);
      assert forall x :: x in rows <==> x in init || x == rows[|rows| - 1];
      if key(rows[|rows| - 1]) in ks then ks else ks + [key(rows[|rows| - 1])]
  }

  /** One row of a summary table: the grouped columns, the sums and the
      percentages. */
  datatype Summary<G> = Summary(key: G, totals: Totals, pct: Pct)

  /** The summary row of the rows whose grouped columns equal `g`. */
  function GroupRow<G(==,!new)>(rows: seq<Joined>, key: Joined -> G, g: G): Summary<G> {
    var t := TotalsOf(Where(rows, KeyIs(key, g)));
    Summary(g, t, AddPercentages(t))
  }

  /** The test "the grouped columns equal `g`". */
  function KeyIs<G(==)>(key: Joined -> G, g: G): Joined -> bool {
    (x: Joined) => key(x) == g
  }

  /** Some row of the table is the group of `g`. */
  predicate Listed<G(==)>(r: seq<Summary<G>>, g: G) {
    exists i | 0 <= i < |r| :: r[i].key == g
  }

  /** The summary rows of the groups `ks`, in that order. */
  function RowsFor<G(==,!new)>(rows: seq<Joined>, key: Joined -> G, ks: seq<G>): (u: seq<Summary<G>>)
    ensures |u| == |ks|
    ensures forall i | 0 <= i < |u| :: u[i].key == ks[i] && u[i] == GroupRow(rows, key, ks[i])
  {
    if ks == [] then [] else [GroupRow(rows, key, ks[0])] + RowsFor(rows, key, ks[1..])
  }

  /** The table built from `ks` lists exactly the groups in `ks`. */
  lemma ListedRowsFor<G(!new)>(rows: seq<Joined>, key: Joined -> G, ks: seq<G>)
    ensures forall g :: Listed(RowsFor(rows, key, ks), g) <==> g in ks
  {
    var u := RowsFor(rows, key, ks);
    forall g | g in ks ensures Listed(u, g) {
      var i :| 0 <= i < |ks| && ks[i] == g;
      assert u[i].key == g;
    }
  }

  /** The group rows in order of first appearance, before sorting. */
  function Groups<G(==,!new)>(rows: seq<Joined>, key: Joined -> G): (u: seq<Summary<G>>)
    ensures forall g :: Listed(u, g) <==> Occurs(rows, key, g)
    ensures forall i | 0 <= i < |u| :: u[i] == GroupRow(rows, key, u[i].key)
    ensures forall i, j | 0 <= i < j < |u| :: u[i].key != u[j].key
  {
    var ks := KeysOf(rows, key);
    ListedRowsFor(rows, key, ks);
    RowsFor(rows, key, ks)
  }

  /** A summary table: one row per distinct value of the grouped columns,
      each summing exactly the rows with that value, in `order`. */
  /** A summary row's sort key: the ordering columns of its group. */
  function ByKey<G>(order: G -> Key): Summary<G> -> Key {
    (x: Summary<G>) => order(x.key)
  }

  function Summarise<G(==,!new)>(rows: seq<Joined>, key: Joined -> G, order: G -> Key): (r: seq<Summary<G>>)
    ensures SortedBy(r, ByKey(order))
    ensures forall g :: Listed(r, g) <==> Occurs(rows, key, g)
    ensures forall i | 0 <= i < |r| :: r[i] == GroupRow(rows, key, r[i].key)
    ensures forall i, j | 0 <= i < j < |r| :: r[i].key != r[j].key
  {
    var u := Groups(rows, key);
    var r := SortBy(u, ByKey(order));
    SameGroups(u, r);
    assert forall i, j | 0 <= i < j < |u| :: u[i] != u[j];
    DistinctPerm(u, r);
    r
  }

  /** Reordering a table keeps its rows and the groups it lists. */
  lemma SameGroups<G>(u: seq<Summary<G>>, r: seq<Summary<G>>)
    requires multiset(u) == multiset(r)
    ensures forall g :: Listed(r, g) <==> Listed(u, g)
    ensures forall i | 0 <= i < |r| :: r[i] in u
  {
    forall g | Listed(u, g) ensures Listed(r, g) {
      var i :| 0 <= i < |u| && u[i].key == g;
      assert u[i] in multiset(r);
      var j :| 0 <= j < |r| && r[j] == u[i];
    }
    forall g | Listed(r, g) ensures Listed(u, g) {
      var i :| 0 <= i < |r| && r[i].key == g;
      assert r[i] in multiset(u);
      var j :| 0 <= j < |u| && u[j] == r[i];
    }
    forall i | 0 <= i < |r| ensures r[i] in u {
      assert r[i] in multiset(u);
    }
  }

  /** A permutation of a list without repeats has no repeats. */
  lemma DistinctPerm<T>(a: seq<T>, b: seq<T>)
    requires multiset(a) == multiset(b)
    requires forall i, j | 0 <= i < j < |a| :: a[i] != a[j]
    ensures forall i, j | 0 <= i < j < |b| :: b[i] != b[j]
  {
    forall i, j | 0 <= i < j < |b| ensures b[i] != b[j] {
      if b[i] == b[j] {
        var x := b[i];
        assert b == b[..j] + b[j..];
        assert x in b[..j] && x in b[j..];
        assert multiset(b)[x] >= 2;
        AtMostOnce(a, x);
        assert false;
      }
    }
  }

  /** A value occurs at most once in a list without repeats. */
  lemma {:induction false} AtMostOnce<T>(a: seq<T>, x: T)
    requires forall i, j | 0 <= i < j < |a| :: a[i] != a[j]
    ensures multiset(a)[x] <= 1
  {
    if a != [] {
      assert a == [a[0]] + a[1..];
      assert forall i, j | 0 <= i < j < |a[1..]| :: a[1..][i] == a[i + 1] && a[1..][j] == a[j + 1];
      AtMostOnce(a[1..], x);
      if a[0] == x {
        assert x !in a[1..];
      }
    }
  }

  // ---------------------------------------------------------------------
  // The three summary tables
  // ---------------------------------------------------------------------

  /** Grouped columns of the sector table: sector id and name. */
  type SectorKey = (Option<Id>, Option<string>)
  /** Grouped columns of the location table: location id and name, and the
      name of its sector. */
  type UbicacionKey = (Option<Id>, Option<string>, Option<string>)
  /** Grouped columns of the object table: object id and name. */
  type ObjetoKey = (Option<Id>, Option<string>)

  function SectorOf(j: Joined): SectorKey { (j.sector, j.sectorNombre) }
  function UbicacionOf(j: Joined): UbicacionKey { (j.ubicacion, j.ubicacionNombre, j.sectorNombre) }
  function ObjetoOf(j: Joined): ObjetoKey { (j.objeto, j.objetoNombre) }

  /** A nullable text column as an ordering field. */
  function TextField(o: Option<string>): Field {
    if o.Some? then Str(o.value) else Null
  }

  /** A nullable number column as an ordering field. */
  function NumField(o: Option<int>): Field {
    if o.Some? then Num(o.value) else Null
  }

  function SectorOrder(g: SectorKey): Key { [TextField(g.1)] }
  function UbicacionOrder(g: UbicacionKey): Key { [TextField(g.2), TextField(g.1)] }
  function ObjetoOrder(g: ObjetoKey): Key { [TextField(g.1)] }

  // ---------------------------------------------------------------------
  // Items in bad condition, per object
  // ---------------------------------------------------------------------

  /** `order_by(object name, sector, location, floor, room)` of the
      bad-condition list. */
  function MalosOrder(j: Joined): Key {
    [TextField(j.objetoNombre), TextField(j.sectorNombre), TextField(j.ubicacionNombre),
     NumField(j.pisoNumero), TextField(j.lugarNombre)]
  }

  /** `base_qs.filter(estado="M").order_by(...)`. */
  function MalosList(base: seq<Joined>): (r: seq<Joined>)
    ensures SortedBy(r, MalosOrder)
    ensures multiset(r) == multiset(Where(base, IsMalo))
  {
    SortBy(Where(base, IsMalo), MalosOrder)
  }

  /** The test "the item's object is `k`" (`tipo_de_objeto.objeto_id`). */
  function ObjetoIs(k: Option<Id>): Joined -> bool {
    (x: Joined) => x.objeto == k
  }

  /** Some item of `rows` has its kind missing. */
  predicate SomeKindless(rows: seq<Joined>) {
    exists i | 0 <= i < |rows| :: rows[i].tipo.None?
  }

  /** `m` maps each object that occurs in `rows` (and no other key) to the
      items of `rows` with that object, in list order. */
  ghost predicate Indexes(m: map<Option<Id>, seq<Joined>>, rows: seq<Joined>) {
    && (forall k :: k in m <==> exists y | y in rows :: y.objeto == k)
    && (forall k | k in m :: m[k] == Where(rows, ObjetoIs(k)))
  }

  /** The loop `malos_por_objeto.setdefault(oid, []).append(ol)`: reading
      `ol.tipo_de_objeto.objeto_id` through a NULL kind raises
      `AttributeError`; otherwise each object maps to exactly its items, in
      list order. */
  function MalosPorObjeto(malos: seq<Joined>): (r: Result<map<Option<Id>, seq<Joined>>, Fault>)
    ensures r.Err? <==> SomeKindless(malos)
    ensures r.Err? ==> r.error == AttributeError
    ensures r.Ok? ==> Indexes(r.value, malos)
  {
    if malos == [] then Ok(map[])
    else
      var init := malos[..|malos| - 1];
      var ol := malos[|malos| - 1];
      KindlessSnoc(init, ol);
      assert malos == init + [ol];
      var m :- MalosPorObjeto(init);
      if ol.tipo.None? then Err(AttributeError)
      else
        IndexesSnoc(init, ol, m);
        Ok(m[ol.objeto := (if ol.objeto in m then m[ol.objeto] else []) + [ol]])
  }

  lemma KindlessSnoc(init: seq<Joined>, x: Joined)
    ensures SomeKindless(init + [x]) <==> SomeKindless(init) || x.tipo.None?
  {
    var rows := init + [x];
    assert forall i | 0 <= i < |init| :: rows[i] == init[i];
    assert rows[|init|] == x;
  }

  /** Filtering a list with one more element at the end. */
  lemma {:induction false} WhereSnoc(rows: seq<Joined>, x: Joined, p: Joined -> bool)
    ensures Where(rows + [x], p) == Where(rows, p) + (if p(x) then [x] else [])
  {
    if rows != [] {
      assert (rows + [x])[1..] == rows[1..] + [x];
      WhereSnoc(rows[1..], x, p);
    }
  }

  /** The step of `MalosPorObjeto`: appending `x` under its object keeps
      the index exact. */
  lemma IndexesSnoc(init: seq<Joined>, x: Joined, m: map<Option<Id>, seq<Joined>>)
    requires Indexes(m, init)
    ensures Indexes(m[x.objeto := (if x.objeto in m then m[x.objeto] else []) + [x]], init + [x])
  {
    var m' := m[x.objeto := (if x.objeto in m then m[x.objeto] else []) + [x]];
    assert forall y :: y in init + [x] <==> y in init || y == x;
    forall k | k in m' ensures m'[k] == Where(init + [x], ObjetoIs(k)) {
      WhereSnoc(init, x, ObjetoIs(k));
      if k == x.objeto && x.objeto !in m {
        NoneWhere(init, ObjetoIs(k));
      }
    }
  }

  /** A filter no row satisfies selects nothing. */
  lemma {:induction false} NoneWhere(rows: seq<Joined>, p: Joined -> bool)
    requires forall x | x in rows :: !p(x)
    ensures Where(rows, p) == []
  {
    if rows != [] {
      assert forall x | x in rows[1..] :: x in rows;
      NoneWhere(rows[1..], p);
    }
  }

  // ---------------------------------------------------------------------
  // The report
  // ---------------------------------------------------------------------

  /** One entry of `resumen_objetos`: a row of the object table with the
      NULL sums read as 0, and the object's items in bad condition. */
  datatype ObjetoResumen = ObjetoResumen(
    id: Option<Id>,
    nombre: Option<string>,
    total: int,
    buenas: int,
    pendientes: int,
    malas: int,
    pct: Pct,
    malos: seq<Joined>)

  /** The entry built from one row of the object table. */
  function Entry(row: Summary<ObjetoKey>, m: map<Option<Id>, seq<Joined>>): ObjetoResumen {
    ObjetoResumen(
      row.key.0, row.key.1,
      row.totals.total.GetOr(0), row.totals.buenas.GetOr(0),
      row.totals.pendientes.GetOr(0), row.totals.malas.GetOr(0),
      row.pct,
      if row.key.0 in m then m[row.key.0] else [])
  }

  /** The loop building `resumen_objetos`: one entry per object row, in the
      same order. */
  function ResumenObjetos(porObjeto: seq<Summary<ObjetoKey>>, m: map<Option<Id>, seq<Joined>>): (r: seq<ObjetoResumen>)
    ensures |r| == |porObjeto|
    ensures forall i | 0 <= i < |r| :: r[i] == Entry(porObjeto[i], m)
  {
    seq(|porObjeto|, i requires 0 <= i < |porObjeto| => Entry(porObjeto[i], m))
  }

  /** What the page shows: the sector and location tables and the object
      entries. */
  datatype Report = Report(
    porSector: seq<Summary<SectorKey>>,
    porUbicacion: seq<Summary<UbicacionKey>>,
    objetos: seq<ObjetoResumen>)

  /** Some row passing the filters is in bad condition and has no kind. */
  predicate KindlessMalo(rows: seq<Joined>, f: Filters) {
    exists x | x in rows :: Matches(x, f) && IsMalo(x) && x.tipo.None?
  }

  /** `resumen_general` over the joined rows: filter, summarise three ways,
      list the bad-condition items per object. It fails with
      `AttributeError` exactly when a bad-condition item passing the
      filters has no kind. */
  function ResumenGeneral(rows: seq<Joined>, f: Filters): (r: Result<Report, Fault>)
    ensures r.Err? <==> KindlessMalo(rows, f)
    ensures r.Err? ==> r.error == AttributeError
  {
    var base := Base(rows, f);
    var malos := MalosList(base);
    BaseMembers(rows, f);
    KindlessMalos(base, malos);
    var m :- MalosPorObjeto(malos);
    Ok(Report(
      Summarise(base, SectorOf, SectorOrder),
      Summarise(base, UbicacionOf, UbicacionOrder),
      ResumenObjetos(Summarise(base, ObjetoOf, ObjetoOrder), m)))
  }

  /** The filtered base holds exactly the rows that pass the filters. */
  lemma BaseMembers(rows: seq<Joined>, f: Filters)
    ensures forall x :: x in Base(rows, f) <==> x in rows && Matches(x, f)
  {
    BaseMatches(rows, f);
  }

  /** The bad-condition list has a kindless item exactly when the base has
      a kindless item in bad condition. */
  lemma KindlessMalos(base: seq<Joined>, malos: seq<Joined>)
    requires multiset(malos) == multiset(Where(base, IsMalo))
    ensures SomeKindless(malos) <==> exists x | x in base :: IsMalo(x) && x.tipo.None?
  {
    if SomeKindless(malos) {
      var i :| 0 <= i < |malos| && malos[i].tipo.None?;
      assert malos[i] in multiset(Where(base, IsMalo));
    }
    if x :| x in base && IsMalo(x) && x.tipo.None? {
      assert x in multiset(malos);
      var i :| 0 <= i < |malos| && malos[i] == x;
    }
  }

  // ---------------------------------------------------------------------
  // What the report states
  // ---------------------------------------------------------------------

  /** The test "passes the filters and has grouped columns `g`". */
  function InGroup<G(==)>(f: Filters, key: Joined -> G, g: G): Joined -> bool {
    (x: Joined) => Matches(x, f) && key(x) == g
  }

  /** A group of the filtered base is the set of rows passing the filters
      with those grouped columns, in the same order. */
  lemma GroupOfBase<G>(rows: seq<Joined>, f: Filters, key: Joined -> G, g: G)
    ensures Where(Base(rows, f), KeyIs(key, g)) == Where(rows, InGroup(f, key, g))
  {
    BaseMatches(rows, f);
    WhereWhere(rows, (j: Joined) => Matches(j, f), KeyIs(key, g), InGroup(f, key, g));
  }

  /** A summary table of the filtered rows lists exactly the groups some
      row passing the filters belongs to, and sums each over exactly the
      rows of its group that pass the filters. */
  lemma TableOfBase<G(!new)>(rows: seq<Joined>, f: Filters, key: Joined -> G, order: G -> Key)
    ensures var t := Summarise(Base(rows, f), key, order);
      && (forall g :: Listed(t, g) <==> exists x | x in rows :: Matches(x, f) && key(x) == g)
      && (forall i | 0 <= i < |t| :: t[i].totals == TotalsOf(Where(rows, InGroup(f, key, t[i].key))))
      && (forall i | 0 <= i < |t| :: t[i].pct == AddPercentages(t[i].totals))
  {
    var t := Summarise(Base(rows, f), key, order);
    BaseMembers(rows, f);
    forall g ensures Occurs(Base(rows, f), key, g) <==> exists x | x in rows :: Matches(x, f) && key(x) == g {
    }
    forall i | 0 <= i < |t| ensures t[i].totals == TotalsOf(Where(rows, InGroup(f, key, t[i].key))) {
      GroupOfBase(rows, f, key, t[i].key);
    }
  }

  /** A sorted list stays sorted when filtered. */
  lemma {:induction false} WhereSorted(rows: seq<Joined>, p: Joined -> bool, key: Joined -> Key)
    requires SortedBy(rows, key)
    ensures SortedBy(Where(rows, p), key)
  {
    if rows != [] {
      assert forall i, j | 0 <= i < j < |rows[1..]| :: rows[1..][i] == rows[i + 1] && rows[1..][j] == rows[j + 1];
      WhereSorted(rows[1..], p, key);
      var rest := Where(rows[1..], p);
      if p(rows[0]) {
        var r := [rows[0]] + rest;
        forall i, j | 0 <= i < j < |r| ensures KeyLe(key(r[i]), key(r[j])) {
          if i == 0 {
            assert r[j] in rows[1..];
            var k :| 0 <= k < |rows[1..]| && rows[1..][k] == r[j];
            assert r[j] == rows[k + 1];
          } else {
            assert r[i] == rest[i - 1] && r[j] == rest[j - 1];
          }
        }
      }
    }
  }

  /** The sector and location tables of a successful report: each lists
      exactly the groups of the rows passing the filters (a row without a
      room falls in the all-NULL group, it is not dropped), sums each group
      over its rows, and is ordered by name. */
  lemma ReportTables(rows: seq<Joined>, f: Filters)
    requires ResumenGeneral(rows, f).Ok?
    ensures SummarisesBase(ResumenGeneral(rows, f).value.porSector, rows, f, SectorOf, SectorOrder)
    ensures SummarisesBase(ResumenGeneral(rows, f).value.porUbicacion, rows, f, UbicacionOf, UbicacionOrder)
  {
    var r := ResumenGeneral(rows, f).value;
    ReportTablesAre(rows, f);
    TableIs(r.porSector, rows, f, SectorOf, SectorOrder);
    TableIs(r.porUbicacion, rows, f, UbicacionOf, UbicacionOrder);
  }

  /** A table of the report: it lists exactly the groups of the rows that
      pass the filters, sums each group over those rows, and is sorted by
      the group's ordering columns. */
  ghost predicate SummarisesBase<G(!new)>(t: seq<Summary<G>>, rows: seq<Joined>, f: Filters, key: Joined -> G,
                                         order: G -> Key) {
    && (forall g :: Listed(t, g) <==> exists x | x in rows :: Matches(x, f) && key(x) == g)
    && (forall i | 0 <= i < |t| :: t[i].totals == TotalsOf(Where(rows, InGroup(f, key, t[i].key))))
    && SortedBy(t, ByKey(order))
  }

  /** A summary of the filtered base is such a table. */
  lemma TableIs<G(!new)>(t: seq<Summary<G>>, rows: seq<Joined>, f: Filters, key: Joined -> G, order: G -> Key)
    requires t == Summarise(Base(rows, f), key, order)
    ensures SummarisesBase(t, rows, f, key, order)
  {
    TableOfBase(rows, f, key, order);
  }

  /** The two tables of a report are the summaries of the filtered base. */
  lemma ReportTablesAre(rows: seq<Joined>, f: Filters)
    requires ResumenGeneral(rows, f).Ok?
    ensures ResumenGeneral(rows, f).value.porSector == Summarise(Base(rows, f), SectorOf, SectorOrder)
    ensures ResumenGeneral(rows, f).value.porUbicacion == Summarise(Base(rows, f), UbicacionOf, UbicacionOrder)
  {
  }

  /** Some entry is for the object group `g`. */
  predicate HasEntry(objs: seq<ObjetoResumen>, g: ObjetoKey) {
    exists i | 0 <= i < |objs| :: (objs[i].id, objs[i].nombre) == g
  }

  /** An entry's counts are its group's sums, a NULL sum read as 0. */
  lemma EntryCounts(rows: seq<Joined>, f: Filters, row: Summary<ObjetoKey>, m: map<Option<Id>, seq<Joined>>)
    requires row.totals == TotalsOf(Where(rows, InGroup(f, ObjetoOf, row.key)))
    ensures var e := Entry(row, m);
      var group := Where(rows, InGroup(f, ObjetoOf, (e.id, e.nombre)));
      && e.total == SumOf(group, Any)
      && e.buenas == SumOf(group, IsBueno)
      && e.pendientes == SumOf(group, IsPendiente)
      && e.malas == SumOf(group, IsMalo)
  {
    var group := Where(rows, InGroup(f, ObjetoOf, row.key));
    NoneSumsZero(group, Any);
    NoneSumsZero(group, IsBueno);
    NoneSumsZero(group, IsPendiente);
    NoneSumsZero(group, IsMalo);
  }

  /** An entry's `malos` are its object's slice of the sorted list, empty
      when the object has no bad-condition item. */
  lemma EntryMalos(malos: seq<Joined>, row: Summary<ObjetoKey>, m: map<Option<Id>, seq<Joined>>)
    requires Indexes(m, malos)
    requires SortedBy(malos, MalosOrder)
    ensures var e := Entry(row, m);
      && e.malos == Where(malos, ObjetoIs(e.id))
      && SortedBy(e.malos, MalosOrder)
  {
    var k := row.key.0;
    if k !in m {
      NoneWhere(malos, ObjetoIs(k));
    }
    WhereSorted(malos, ObjetoIs(k), MalosOrder);
  }

  /** The object entries of a successful report are built from the
      object table and the per-object index of the bad-condition list. */
  lemma ObjetosOfReport(rows: seq<Joined>, f: Filters)
    requires ResumenGeneral(rows, f).Ok?
    ensures var base := Base(rows, f);
      && MalosPorObjeto(MalosList(base)).Ok?
      && ResumenGeneral(rows, f).value.objetos
         == ResumenObjetos(Summarise(base, ObjetoOf, ObjetoOrder), MalosPorObjeto(MalosList(base)).value)
  {
  }

  /** The entries built from the object table list its groups. */
  lemma EntriesListed(rows: seq<Joined>, f: Filters, m: map<Option<Id>, seq<Joined>>)
    ensures var objs := ResumenObjetos(Summarise(Base(rows, f), ObjetoOf, ObjetoOrder), m);
      forall g :: HasEntry(objs, g) <==> exists x | x in rows :: Matches(x, f) && ObjetoOf(x) == g
  {
    TableOfBase(rows, f, ObjetoOf, ObjetoOrder);
    EntryPerRow(Summarise(Base(rows, f), ObjetoOf, ObjetoOrder), m);
  }

  /** There is an entry for a group exactly when the table lists it. */
  lemma EntryPerRow(t: seq<Summary<ObjetoKey>>, m: map<Option<Id>, seq<Joined>>)
    ensures forall g :: HasEntry(ResumenObjetos(t, m), g) <==> Listed(t, g)
  {
    var objs := ResumenObjetos(t, m);
    forall g ensures HasEntry(objs, g) <==> Listed(t, g) {
      if Listed(t, g) {
        var i :| 0 <= i < |t| && t[i].key == g;
        assert (objs[i].id, objs[i].nombre) == g;
      }
    }
  }

  /** The entries built from the object table carry its sums. */
  lemma EntriesCounted(rows: seq<Joined>, f: Filters, m: map<Option<Id>, seq<Joined>>)
    ensures var objs := ResumenObjetos(Summarise(Base(rows, f), ObjetoOf, ObjetoOrder), m);
      forall i | 0 <= i < |objs| ::
        var group := Where(rows, InGroup(f, ObjetoOf, (objs[i].id, objs[i].nombre)));
        && objs[i].total == SumOf(group, Any)
        && objs[i].buenas == SumOf(group, IsBueno)
        && objs[i].pendientes == SumOf(group, IsPendiente)
        && objs[i].malas == SumOf(group, IsMalo)
  {
    var t := Summarise(Base(rows, f), ObjetoOf, ObjetoOrder);
    TableOfBase(rows, f, ObjetoOf, ObjetoOrder);
    var objs := ResumenObjetos(t, m);
    forall i | 0 <= i < |objs|
      ensures var group := Where(rows, InGroup(f, ObjetoOf, (objs[i].id, objs[i].nombre)));
        && objs[i].total == SumOf(group, Any)
        && objs[i].buenas == SumOf(group, IsBueno)
        && objs[i].pendientes == SumOf(group, IsPendiente)
        && objs[i].malas == SumOf(group, IsMalo)
    {
      EntryCounts(rows, f, t[i], m);
    }
  }

  /** The object entries of a successful report: one per object group of
      the rows passing the filters, in the table's order; each entry's
      counts are its group's sums with NULL read as 0. */
  lemma ReportObjetos(rows: seq<Joined>, f: Filters)
    requires ResumenGeneral(rows, f).Ok?
    ensures var objs := ResumenGeneral(rows, f).value.objetos;
      && (forall g :: HasEntry(objs, g) <==> exists x | x in rows :: Matches(x, f) && ObjetoOf(x) == g)
      && (forall i | 0 <= i < |objs| ::
            var group := Where(rows, InGroup(f, ObjetoOf, (objs[i].id, objs[i].nombre)));
            && objs[i].total == SumOf(group, Any)
            && objs[i].buenas == SumOf(group, IsBueno)
            && objs[i].pendientes == SumOf(group, IsPendiente)
            && objs[i].malas == SumOf(group, IsMalo))
  {
    ObjetosOfReport(rows, f);
    EntriesListed(rows, f, MalosPorObjeto(MalosList(Base(rows, f))).value);
    EntriesCounted(rows, f, MalosPorObjeto(MalosList(Base(rows, f))).value);
  }

  /** The bad-condition items of each object entry in a successful report
      (`malos_por_objeto.get(oid, [])`): exactly the items of that object
      passing the filters whose condition is M, in the order of the
      bad-condition list (object, sector, location, floor, room); empty
      when the object has none. */
  lemma ReportMalos(rows: seq<Joined>, f: Filters)
    requires ResumenGeneral(rows, f).Ok?
    ensures var objs := ResumenGeneral(rows, f).value.objetos;
      && (forall i | 0 <= i < |objs| :: objs[i].malos == Where(MalosList(Base(rows, f)), ObjetoIs(objs[i].id)))
      && (forall i | 0 <= i < |objs| :: SortedBy(objs[i].malos, MalosOrder))
      && (forall i, x | 0 <= i < |objs| ::
            x in objs[i].malos <==> x in rows && Matches(x, f) && IsMalo(x) && x.objeto == objs[i].id)
  {
    var base := Base(rows, f);
    var malos := MalosList(base);
    var m := MalosPorObjeto(malos).value;
    var t := Summarise(base, ObjetoOf, ObjetoOrder);
    var objs := ResumenGeneral(rows, f).value.objetos;
    ObjetosOfReport(rows, f);
    BaseMembers(rows, f);
    forall i | 0 <= i < |objs|
      ensures objs[i].malos == Where(malos, ObjetoIs(objs[i].id)) && SortedBy(objs[i].malos, MalosOrder)
    {
      EntryMalos(malos, t[i], m);
    }
    forall i, x | 0 <= i < |objs|
      ensures x in objs[i].malos <==> x in rows && Matches(x, f) && IsMalo(x) && x.objeto == objs[i].id
    {
      assert x in malos <==> x in multiset(Where(base, IsMalo));
    }
  }

  /** When every item's condition is B, P or M, each object entry's three
      counts add up to its total. */
  lemma ReportPartsAddUp(rows: seq<Joined>, f: Filters)
    requires ResumenGeneral(rows, f).Ok?
    requires forall i | 0 <= i < |rows| :: ValidEstado(rows[i].estado)
    ensures var objs := ResumenGeneral(rows, f).value.objetos;
      forall i | 0 <= i < |objs| :: objs[i].buenas + objs[i].pendientes + objs[i].malas == objs[i].total
  {
    ReportObjetos(rows, f);
    var objs := ResumenGeneral(rows, f).value.objetos;
    forall i | 0 <= i < |objs| ensures objs[i].buenas + objs[i].pendientes + objs[i].malas == objs[i].total {
      var group := Where(rows, InGroup(f, ObjetoOf, (objs[i].id, objs[i].nombre)));
      forall k | 0 <= k < |group| ensures ValidEstado(group[k].estado) {
        assert group[k] in rows;
      }
      SumSplits(group);
    }
  }

  // ---------------------------------------------------------------------
  // The report over a database
  // ---------------------------------------------------------------------

  /** The view's report over the database's placed items. */
  function ReportOf(s: Store, f: Filters): (r: Result<Report, Fault>)
    requires Fresh(s)
    ensures r.Err? <==> exists id | id in s.items :: Matches(Join(s, id), f) && IsMalo(Join(s, id)) && Join(s, id).tipo.None?
  {
    var rows := Rows(s);
    assert forall x | x in rows :: x.id in s.items && x == Join(s, x.id);
    assert forall id | id in s.items :: Join(s, id) in rows;
    ResumenGeneral(rows, f)
  }

  /** In a database that keeps its declared constraints, the report fails
      exactly when a bad-condition item passing the filters has a NULL
      kind (views.py:1584 reads `objeto_id` through it). */
  lemma ReportFailsOnNullKind(s: Store, f: Filters)
    requires Valid(s)
    ensures ReportOf(s, f).Err? <==>
      exists id | id in s.items :: s.items[id].tipoDeObjeto.None? && s.items[id].estado == MALO && Matches(Join(s, id), f)
  {
    forall id | id in s.items ensures Join(s, id).tipo.None? <==> s.items[id].tipoDeObjeto.None? {
    }
  }

  /** An item without a room that passes the filters is not dropped: the
      sector and location tables each hold the all-NULL group. */
  lemma NullLugarGrouped(s: Store, f: Filters, id: Id)
    requires Fresh(s) && id in s.items && s.items[id].lugar.None?
    requires Matches(Join(s, id), f)
    requires ReportOf(s, f).Ok?
    ensures Listed(ReportOf(s, f).value.porSector, (None, None))
    ensures Listed(ReportOf(s, f).value.porUbicacion, (None, None, None))
  {
    var rows := Rows(s);
    var x := Join(s, id);
    assert x in rows;
    assert SectorOf(x) == (None, None) && UbicacionOf(x) == (None, None, None);
    ReportTables(rows, f);
  }
}
