/** The inventory's tables as one immutable value: the physical hierarchy
    (sector, location, floor, room), the catalogue (category, object,
    object kind), typical objects per room type, placed items and their
    change history. The field declarations' constraints become `Valid`. */
module Models {
  import opened Wrappers

  /** A database primary key. Keys are handed out from 1 upwards, so the
      source's `if self.pk:` is the test `pk != None`. */
  type Id = nat

  /** A calendar day, as a day number. */
  type Date = nat

  datatype Sector = Sector(sector: string)

  datatype Ubicacion = Ubicacion(ubicacion: string, sector: Id)

  /** A floor; the number is a signed small integer and may be 0 or negative. */
  datatype Piso = Piso(piso: int, ubicacion: Id)

  datatype TipoLugar = TipoLugar(tipoDeLugar: string)

  /** A room: its name, floor and room type. */
  datatype Lugar = Lugar(nombreDelLugar: string, piso: Id, tipoLugar: Id)

  datatype Categoria = Categoria(nombreDeCategoria: string)

  datatype Objeto = Objeto(nombreDelObjeto: string, categoria: Id)

  /** A variant of an object; brand and material are nullable. */
  datatype TipoObjeto = TipoObjeto(objeto: Id, marca: Option<string>, material: Option<string>)

  /** An object kind expected in rooms of a type, with its display order. */
  datatype Tipico = Tipico(tipoLugar: Id, tipoObjeto: Id, activo: bool, orden: nat)

  /** A placed item as stored. `detalle` may be blank but never NULL;
      room and kind are nullable. */
  datatype ObjetoLugar = ObjetoLugar(
    cantidad: int,
    estado: string,
    detalle: string,
    fecha: Date,
    lugar: Option<Id>,
    tipoDeObjeto: Option<Id>)

  /** A snapshot of an item's values before one change. */
  datatype Historico = Historico(
    objetoDelLugar: Id,
    cantidadAnterior: int,
    estadoAnterior: string,
    detalleAnterior: string,
    fechaAnterior: Date)

  /** The whole database. One counter hands out every new key. */
  datatype Store = Store(
    sectores: map<Id, Sector>,
    ubicaciones: map<Id, Ubicacion>,
    pisos: map<Id, Piso>,
    tiposLugar: map<Id, TipoLugar>,
    lugares: map<Id, Lugar>,
    categorias: map<Id, Categoria>,
    objetos: map<Id, Objeto>,
    tiposObjeto: map<Id, TipoObjeto>,
    tipicos: map<Id, Tipico>,
    items: map<Id, ObjetoLugar>,
    historicos: seq<Historico>,
    nextId: Id)

  /** The failures the modelled code can raise. */
  datatype Fault =
    | DoesNotExist            // `Model.objects.get` or a 404 lookup found nothing
    | MultipleObjectsReturned // `get_or_create` matched more than one row
    | IntegrityError          // a NOT NULL, UNIQUE or FOREIGN KEY constraint failed
    | RestrictedError         // a RESTRICT foreign key blocked a delete
    | ValidationError         // a submitted form did not validate
    | AttributeError          // an attribute was read through a NULL reference

  /** The failures a database write can raise. */
  predicate WriteFault(e: Fault) {
    e == IntegrityError || e == MultipleObjectsReturned
  }

  /** The condition codes and their display labels (`ObjetoLugar.ESTADO`). */
  datatype Choice = Choice(code: string, display: string)

  const ESTADO: seq<Choice> := [Choice("B", "Bueno"), Choice("P", "Pendiente"), Choice("M", "Malo")]

  const BUENO: string := "B"
  const PENDIENTE: string := "P"
  const MALO: string := "M"

  predicate ValidEstado(e: string) {
    e == BUENO || e == PENDIENTE || e == MALO
  }

  /** `get_estado_display()`: the label of a known code, else the code itself. */
  function EstadoDisplay(e: string): (shown: string)
    ensures e == BUENO ==> shown == "Bueno"
    ensures e == PENDIENTE ==> shown == "Pendiente"
    ensures e == MALO ==> shown == "Malo"
    ensures !ValidEstado(e) ==> shown == e
  {
    if e == ESTADO[0].code then ESTADO[0].display
    else if e == ESTADO[1].code then ESTADO[1].display
    else if e == ESTADO[2].code then ESTADO[2].display
    else e
  }

  // ---------------------------------------------------------------------
  // Store invariants
  // ---------------------------------------------------------------------

  /** Every key of `m` was handed out before `n`. */
  predicate KeysBelow<T>(m: map<Id, T>, n: nat) {
    forall k | k in m :: k < n
  }

  /** Every key in use was handed out before `nextId`. */
  predicate Fresh(s: Store) {
    && KeysBelow(s.sectores, s.nextId) && KeysBelow(s.ubicaciones, s.nextId)
    && KeysBelow(s.pisos, s.nextId) && KeysBelow(s.tiposLugar, s.nextId)
    && KeysBelow(s.lugares, s.nextId) && KeysBelow(s.categorias, s.nextId)
    && KeysBelow(s.objetos, s.nextId) && KeysBelow(s.tiposObjeto, s.nextId)
    && KeysBelow(s.tipicos, s.nextId) && KeysBelow(s.items, s.nextId)
  }

  // Each foreign key, as a predicate of the two tables it joins.

  predicate UbicacionSectors(ub: map<Id, Ubicacion>, sectores: map<Id, Sector>) {
    forall k {:trigger ub[k]} | k in ub :: ub[k].sector in sectores
  }

  predicate PisoUbicaciones(pisos: map<Id, Piso>, ub: map<Id, Ubicacion>) {
    forall k {:trigger pisos[k]} | k in pisos :: pisos[k].ubicacion in ub
  }

  predicate LugarPisos(lugares: map<Id, Lugar>, pisos: map<Id, Piso>) {
    forall k {:trigger lugares[k]} | k in lugares :: lugares[k].piso in pisos
  }

  predicate LugarTipos(lugares: map<Id, Lugar>, tipos: map<Id, TipoLugar>) {
    forall k {:trigger lugares[k]} | k in lugares :: lugares[k].tipoLugar in tipos
  }

  predicate ObjetoCategorias(objetos: map<Id, Objeto>, categorias: map<Id, Categoria>) {
    forall k {:trigger objetos[k]} | k in objetos :: objetos[k].categoria in categorias
  }

  predicate TipoObjetos(tipos: map<Id, TipoObjeto>, objetos: map<Id, Objeto>) {
    forall k {:trigger tipos[k]} | k in tipos :: tipos[k].objeto in objetos
  }

  predicate TipicoLugares(tipicos: map<Id, Tipico>, tipos: map<Id, TipoLugar>) {
    forall k {:trigger tipicos[k]} | k in tipicos :: tipicos[k].tipoLugar in tipos
  }

  predicate TipicoObjetos(tipicos: map<Id, Tipico>, tipos: map<Id, TipoObjeto>) {
    forall k {:trigger tipicos[k]} | k in tipicos :: tipicos[k].tipoObjeto in tipos
  }

  /** The nullable room key of every item names a stored room. */
  predicate ItemLugares(items: map<Id, ObjetoLugar>, lugares: map<Id, Lugar>) {
    forall k {:trigger items[k]} | k in items :: items[k].lugar.Some? ==> items[k].lugar.value in lugares
  }

  /** The nullable kind key of every item names a stored kind. */
  predicate ItemTipos(items: map<Id, ObjetoLugar>, tipos: map<Id, TipoObjeto>) {
    forall k {:trigger items[k]} | k in items :: items[k].tipoDeObjeto.Some? ==> items[k].tipoDeObjeto.value in tipos
  }

  predicate HistoryItems(hs: seq<Historico>, items: map<Id, ObjetoLugar>) {
    forall i | 0 <= i < |hs| :: hs[i].objetoDelLugar in items
  }

  /** Foreign keys of the hierarchy point at existing rows. */
  predicate HierarchyRefs(s: Store) {
    && UbicacionSectors(s.ubicaciones, s.sectores)
    && PisoUbicaciones(s.pisos, s.ubicaciones)
    && LugarPisos(s.lugares, s.pisos)
    && LugarTipos(s.lugares, s.tiposLugar)
  }

  /** Foreign keys of the catalogue point at existing rows. */
  predicate CatalogRefs(s: Store) {
    && ObjetoCategorias(s.objetos, s.categorias)
    && TipoObjetos(s.tiposObjeto, s.objetos)
    && TipicoLugares(s.tipicos, s.tiposLugar)
    && TipicoObjetos(s.tipicos, s.tiposObjeto)
  }

  /** Foreign keys of items and history point at existing rows. */
  predicate ItemRefs(s: Store) {
    && ItemLugares(s.items, s.lugares)
    && ItemTipos(s.items, s.tiposObjeto)
    && HistoryItems(s.historicos, s.items)
  }

  // `unique=True` on the five name columns (models.py:6, 14, 40, 71, 81).

  predicate UniqueSectorNames(m: map<Id, Sector>) {
    forall a, b {:trigger m[a].sector, m[b].sector}
      | a in m && b in m && m[a].sector == m[b].sector :: a == b
  }

  predicate UniqueUbicacionNames(m: map<Id, Ubicacion>) {
    forall a, b {:trigger m[a].ubicacion, m[b].ubicacion}
      | a in m && b in m && m[a].ubicacion == m[b].ubicacion :: a == b
  }

  predicate UniqueTipoLugarNames(m: map<Id, TipoLugar>) {
    forall a, b {:trigger m[a].tipoDeLugar, m[b].tipoDeLugar}
      | a in m && b in m && m[a].tipoDeLugar == m[b].tipoDeLugar :: a == b
  }

  predicate UniqueCategoriaNames(m: map<Id, Categoria>) {
    forall a, b {:trigger m[a].nombreDeCategoria, m[b].nombreDeCategoria}
      | a in m && b in m && m[a].nombreDeCategoria == m[b].nombreDeCategoria :: a == b
  }

  predicate UniqueObjetoNames(m: map<Id, Objeto>) {
    forall a, b {:trigger m[a].nombreDelObjeto, m[b].nombreDelObjeto}
      | a in m && b in m && m[a].nombreDelObjeto == m[b].nombreDelObjeto :: a == b
  }

  /** `unique_together = ("tipo_lugar", "tipo_objeto")` (models.py:128). */
  predicate UniqueTipicoPairs(m: map<Id, Tipico>) {
    forall a, b {:trigger m[a].tipoLugar, m[b].tipoLugar}
      | a in m && b in m && m[a].tipoLugar == m[b].tipoLugar && m[a].tipoObjeto == m[b].tipoObjeto :: a == b
  }

  /** The unique columns hold no value twice. */
  predicate Unique(s: Store) {
    && UniqueSectorNames(s.sectores) && UniqueUbicacionNames(s.ubicaciones)
    && UniqueTipoLugarNames(s.tiposLugar) && UniqueCategoriaNames(s.categorias)
    && UniqueObjetoNames(s.objetos) && UniqueTipicoPairs(s.tipicos)
  }

  /** A database state the declared constraints admit. */
  predicate Valid(s: Store) {
    Fresh(s) && HierarchyRefs(s) && CatalogRefs(s) && ItemRefs(s) && Unique(s)
  }

  /** Only the placed items, the history and the counter may differ. */
  predicate SameOutsideItems(s: Store, t: Store) {
    && t.sectores == s.sectores && t.ubicaciones == s.ubicaciones && t.pisos == s.pisos
    && t.tiposLugar == s.tiposLugar && t.lugares == s.lugares && t.categorias == s.categorias
    && t.objetos == s.objetos && t.tiposObjeto == s.tiposObjeto && t.tipicos == s.tipicos
  }

  /** The invariants that do not mention items carry over unchanged tables. */
  lemma SameOutsideItemsKeeps(s: Store, t: Store)
    requires SameOutsideItems(s, t)
    requires HierarchyRefs(s) && CatalogRefs(s) && Unique(s)
    ensures HierarchyRefs(t) && CatalogRefs(t) && Unique(t)
  {
  }

  /** The database with item `id` set to `row`. */
  function WithItem(s: Store, id: Id, row: ObjetoLugar): Store {
    s.(items := s.items[id := row])
  }

  /** The database with `row` added under the next key, the counter advanced. */
  function AddItem(s: Store, row: ObjetoLugar): Store {
    s.(items := s.items[s.nextId := row], nextId := s.nextId + 1)
  }

  /** The database with snapshot `h` appended to the history. */
  function AddSnapshot(s: Store, h: Historico): Store {
    s.(historicos := s.historicos + [h])
  }

  /** Overwriting a stored item with a row whose references exist. */
  lemma WriteItemKeepsValid(s: Store, id: Id, row: ObjetoLugar)
    requires Valid(s) && id in s.items
    requires row.lugar.Some? ==> row.lugar.value in s.lugares
    requires row.tipoDeObjeto.Some? ==> row.tipoDeObjeto.value in s.tiposObjeto
    ensures Valid(WithItem(s, id, row))
  {
    var t := WithItem(s, id, row);
    SameOutsideItemsKeeps(s, t);
    WriteItemKeepsFresh(s, id, row);
    WriteItemKeepsRefs(s, id, row);
  }

  lemma WriteItemKeepsFresh(s: Store, id: Id, row: ObjetoLugar)
    requires Fresh(s) && id in s.items
    ensures Fresh(WithItem(s, id, row))
  {
  }

  lemma WriteItemKeepsRefs(s: Store, id: Id, row: ObjetoLugar)
    requires ItemRefs(s) && id in s.items
    requires row.lugar.Some? ==> row.lugar.value in s.lugares
    requires row.tipoDeObjeto.Some? ==> row.tipoDeObjeto.value in s.tiposObjeto
    ensures ItemRefs(WithItem(s, id, row))
  {
    var t := WithItem(s, id, row);
    forall k | k in t.items
      ensures t.items[k].lugar.Some? ==> t.items[k].lugar.value in t.lugares
      ensures t.items[k].tipoDeObjeto.Some? ==> t.items[k].tipoDeObjeto.value in t.tiposObjeto
    {
      if k != id { assert t.items[k] == s.items[k]; }
    }
  }

  /** Inserting an item under the next key. */
  lemma InsertItemKeepsValid(s: Store, row: ObjetoLugar)
    requires Valid(s)
    requires row.lugar.Some? ==> row.lugar.value in s.lugares
    requires row.tipoDeObjeto.Some? ==> row.tipoDeObjeto.value in s.tiposObjeto
    ensures Valid(AddItem(s, row))
  {
    var t := AddItem(s, row);
    SameOutsideItemsKeeps(s, t);
    InsertItemKeepsFresh(s, row);
    InsertItemKeepsRefs(s, row);
  }

  lemma InsertItemKeepsFresh(s: Store, row: ObjetoLugar)
    requires Fresh(s)
    ensures Fresh(AddItem(s, row))
  {
  }

  /** Inserting an item only adds to the database. */
  lemma AddItemGrows(s: Store, row: ObjetoLugar)
    requires Fresh(s)
    ensures Fresh(AddItem(s, row)) && Grows(s, AddItem(s, row))
  {
  }

  lemma InsertItemKeepsRefs(s: Store, row: ObjetoLugar)
    requires ItemRefs(s)
    requires row.lugar.Some? ==> row.lugar.value in s.lugares
    requires row.tipoDeObjeto.Some? ==> row.tipoDeObjeto.value in s.tiposObjeto
    ensures ItemRefs(AddItem(s, row))
  {
    var t := AddItem(s, row);
    forall k | k in t.items
      ensures t.items[k].lugar.Some? ==> t.items[k].lugar.value in t.lugares
      ensures t.items[k].tipoDeObjeto.Some? ==> t.items[k].tipoDeObjeto.value in t.tiposObjeto
    {
      if k != s.nextId { assert t.items[k] == s.items[k]; }
    }
  }

  /** Appending a snapshot of an existing item. */
  lemma AppendHistoryKeepsValid(s: Store, h: Historico)
    requires Valid(s) && h.objetoDelLugar in s.items
    ensures Valid(AddSnapshot(s, h))
  {
    var t := AddSnapshot(s, h);
    SameOutsideItemsKeeps(s, t);
    AppendHistoryKeepsRefs(s, h);
  }

  lemma AppendHistoryKeepsRefs(s: Store, h: Historico)
    requires ItemRefs(s) && h.objetoDelLugar in s.items
    ensures ItemRefs(AddSnapshot(s, h))
  {
    var t := AddSnapshot(s, h);
    forall i | 0 <= i < |t.historicos|
      ensures t.historicos[i].objetoDelLugar in t.items
    {
      if i < |s.historicos| { assert t.historicos[i] == s.historicos[i]; }
    }
  }

  /** `a` keeps every row of `b` unchanged. */
  predicate Keeps<T(==)>(b: map<Id, T>, a: map<Id, T>) {
    forall k | k in b :: k in a && a[k] == b[k]
  }

  /** `t` only adds rows to `s`: every table keeps its rows, the history is
      unchanged, the counter never goes back. */
  predicate Grows(s: Store, t: Store) {
    && Keeps(s.sectores, t.sectores)
    && Keeps(s.ubicaciones, t.ubicaciones)
    && Keeps(s.pisos, t.pisos)
    && Keeps(s.tiposLugar, t.tiposLugar)
    && Keeps(s.lugares, t.lugares)
    && Keeps(s.categorias, t.categorias)
    && Keeps(s.objetos, t.objetos)
    && Keeps(s.tiposObjeto, t.tiposObjeto)
    && Keeps(s.tipicos, t.tipicos)
    && Keeps(s.items, t.items)
    && t.historicos == s.historicos
    && s.nextId <= t.nextId
  }

  lemma GrowsRefl(s: Store)
    ensures Grows(s, s)
  {
  }

  lemma GrowsTrans(a: Store, b: Store, c: Store)
    requires Grows(a, b) && Grows(b, c)
    ensures Grows(a, c)
  {
  }
}
