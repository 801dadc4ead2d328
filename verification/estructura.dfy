/** `crear_estructura` (views.py:44-151): one submission of the bulk page
    creates a room, resolving each level above it from an existing choice
    or a new name, and then one placed item per used row of the objects
    formset. The view runs in one transaction: any failure leaves the
    database as it was, which is why a failure returns no database here. */
module Estructura {
  import opened Wrappers
  import opened Text
  import opened Models
  import opened Forms
  import opened Catalog
  import History

  /** A chosen row, when there is one, is stored: what a `ModelChoiceField`
      accepts. */
  predicate Chosen<T>(x: Option<Id>, m: map<Id, T>) {
    x.Some? ==> x.value in m
  }

  /** The structure form's choices name stored rows. */
  predicate StructChoicesExist(s: Store, f: StructForm) {
    && Chosen(f.sectorExistente, s.sectores) && Chosen(f.ubicacionExistente, s.ubicaciones)
    && Chosen(f.pisoExistente, s.pisos) && Chosen(f.tipoLugarExistente, s.tiposLugar)
  }

  /** A row's choices name stored rows. */
  predicate RowChoicesExist(s: Store, f: RowForm) {
    && Chosen(f.categoriaExistente, s.categorias) && Chosen(f.objetoExistente, s.objetos)
    && Chosen(f.tipoObjetoExistente, s.tiposObjeto)
  }

  /** A formset entry the view skips: no cleaned data, or a row with no
      field filled in (see `SkippedIffMarkedEmpty`). */
  predicate Skipped(row: Option<RowForm>) {
    row.None? || !RowUsed(row.value)
  }

  /** The entries skipped are exactly those without cleaned data and those
      the row validator marks empty. */
  lemma SkippedIffMarkedEmpty(row: Option<RowForm>)
    ensures Skipped(row) <==> row.None? || CleanRow(row.value) == RowEmpty
  {
  }

  /** `form.is_valid() and objetos_formset.is_valid()`: every field passes
      its own checks, the choice fields name stored rows, and both
      cross-field validators accept. */
  predicate SubmissionValid(s: Store, f: StructForm, rows: seq<Option<RowForm>>) {
    && StructFieldsValid(f) && RowsFieldsValid(rows)
    && CleanStructure(f) == StructOk && StructChoicesExist(s, f) && RowsChoicesExist(s, rows)
    && forall i | 0 <= i < |rows| :: rows[i].Some? ==> !CleanRow(rows[i].value).RowError?
  }

  /** Every row with cleaned data passes its own field checks. */
  predicate RowsFieldsValid(rows: seq<Option<RowForm>>) {
    forall i | 0 <= i < |rows| :: rows[i].Some? ==> RowFieldsValid(rows[i].value)
  }

  /** The rows the view turns into items, in formset order. */
  function UsedRows(rows: seq<Option<RowForm>>): (r: seq<RowForm>)
    ensures |r| <= |rows|
  {
    if rows == [] then [] else UsedEntry(rows[0]) + UsedRows(rows[1..])
  }

  /** The used rows keep formset order: those of two runs of entries are
      the first run's followed by the second's. */
  lemma {:induction false} UsedRowsAppend(a: seq<Option<RowForm>>, b: seq<Option<RowForm>>)
    ensures UsedRows(a + b) == UsedRows(a) + UsedRows(b)
    decreases |a|
  {
    if a == [] {
      assert a + b == b;
    } else {
      assert (a + b)[0] == a[0] && (a + b)[1..] == a[1..] + b;
      UsedRowsAppend(a[1..], b);
    }
  }

  /** The row a formset entry contributes: none when it is skipped. */
  function UsedEntry(row: Option<RowForm>): (r: seq<RowForm>)
    ensures |r| <= 1
  {
    if Skipped(row) then [] else [row.value]
  }

  /** `row.get("cantidad") or 0` */
  function CantidadOf(f: RowForm): int {
    f.cantidad.GetOr(0)
  }

  /** `row.get("estado") or "B"` */
  function EstadoOf(f: RowForm): string {
    if f.estado.None? || f.estado.value == "" then BUENO else f.estado.value
  }

  /** On an accepted row neither default applies: quantity and condition
      are the submitted ones. */
  lemma DefaultsUnusedOnFilledRows(f: RowForm)
    requires CleanRow(f) == RowFilled
    ensures CantidadOf(f) == f.cantidad.value && EstadoOf(f) == f.estado.value
  {
    CleanRowOutcomes(f);
  }

  /** An accepted row that passed its field checks places at least one
      item, in one of the three conditions. */
  lemma AcceptedRowValues(f: RowForm)
    requires RowFieldsValid(f) && CleanRow(f) == RowFilled
    ensures CantidadOf(f) >= 1 && ValidEstado(EstadoOf(f))
  {
    CleanRowOutcomes(f);
  }

  /** A row whose quantity is below 1 fails `min_value=1`: the submission
      is shown again and nothing is written. */
  lemma QuantityBelowOneRejected(s: Store, f: StructForm, rows: seq<Option<RowForm>>, today: Date, i: nat)
    requires Fresh(s) && i < |rows| && rows[i].Some?
    requires rows[i].value.cantidad.Some? && rows[i].value.cantidad.value < 1
    ensures CrearEstructura(s, f, rows, today) == Err(ValidationError)
  {
    assert !RowFieldsValid(rows[i].value);
  }

  /** A condition other than the three choices fails the choice field. */
  lemma UnknownEstadoRejected(s: Store, f: StructForm, rows: seq<Option<RowForm>>, today: Date, i: nat)
    requires Fresh(s) && i < |rows| && rows[i].Some?
    requires rows[i].value.estado.Some? && rows[i].value.estado.value != "" && !ValidEstado(rows[i].value.estado.value)
    ensures CrearEstructura(s, f, rows, today) == Err(ValidationError)
  {
    assert !RowFieldsValid(rows[i].value);
  }

  /** The room name is required: a blank one fails the field. */
  lemma BlankRoomNameRejected(s: Store, f: StructForm, rows: seq<Option<RowForm>>, today: Date)
    requires Fresh(s) && Blank(f.nombreDelLugar)
    ensures CrearEstructura(s, f, rows, today) == Err(ValidationError)
  {
    if Trimmed(f.nombreDelLugar) {
      TrimmedIsStripped(f.nombreDelLugar);
    }
    assert !StructFieldsValid(f);
  }

  // ---------------------------------------------------------------------
  // The four levels and the room
  // ---------------------------------------------------------------------

  /** Sector: the chosen one, else the stripped new name, got or created. */
  function ResolveSector(s: Store, f: StructForm): (r: Result<Got, Fault>)
    requires Fresh(s) && LevelGiven(f, SectorLevel) && Chosen(f.sectorExistente, s.sectores)
    ensures r.Ok? ==> Fresh(r.value.store) && Grows(s, r.value.store) && r.value.id in r.value.store.sectores
    ensures r.Err? ==> WriteFault(r.error)
    ensures f.sectorExistente.Some? ==> r == Ok(Got(s, f.sectorExistente.value))
  {
    GrowsRefl(s);
    if f.sectorExistente.Some? then Ok(Got(s, f.sectorExistente.value))
    else GetOrCreateSector(s, Strip(OrEmpty(f.sectorNuevo)))
  }

  /** With no sector chosen, the sector found or created carries the
      stripped new name. */
  lemma ResolveSectorNamed(s: Store, f: StructForm)
    requires Fresh(s) && LevelGiven(f, SectorLevel) && f.sectorExistente.None?
    ensures var r := ResolveSector(s, f);
      r.Ok? ==> r.value.store.sectores[r.value.id].sector == Strip(OrEmpty(f.sectorNuevo))
  {
    GetOrCreateSectorRow(s, Strip(OrEmpty(f.sectorNuevo)));
  }

  /** Location: the chosen one, else the stripped new name under the
      resolved sector, got or created. */
  function ResolveUbicacion(s: Store, f: StructForm, sector: Id): (r: Result<Got, Fault>)
    requires Fresh(s) && LevelGiven(f, UbicacionLevel) && Chosen(f.ubicacionExistente, s.ubicaciones)
    ensures r.Ok? ==> Fresh(r.value.store) && Grows(s, r.value.store) && r.value.id in r.value.store.ubicaciones
    ensures r.Err? ==> WriteFault(r.error)
    ensures f.ubicacionExistente.Some? ==> r == Ok(Got(s, f.ubicacionExistente.value))
  {
    GrowsRefl(s);
    if f.ubicacionExistente.Some? then Ok(Got(s, f.ubicacionExistente.value))
    else GetOrCreateUbicacion(s, Strip(OrEmpty(f.ubicacionNueva)), sector)
  }

  /** With no location chosen, the location found or created is the
      stripped new name under the resolved sector. */
  lemma ResolveUbicacionNamed(s: Store, f: StructForm, sector: Id)
    requires Fresh(s) && LevelGiven(f, UbicacionLevel) && f.ubicacionExistente.None?
    ensures var r := ResolveUbicacion(s, f, sector);
      r.Ok? ==> r.value.store.ubicaciones[r.value.id] == Ubicacion(Strip(OrEmpty(f.ubicacionNueva)), sector)
  {
    GetOrCreateUbicacionRow(s, Strip(OrEmpty(f.ubicacionNueva)), sector);
  }

  /** Floor: the chosen one, else the new number (0 included) under the
      resolved location, got or created. */
  function ResolvePiso(s: Store, f: StructForm, ubicacion: Id): (r: Result<Got, Fault>)
    requires Fresh(s) && LevelGiven(f, PisoLevel) && Chosen(f.pisoExistente, s.pisos)
    ensures r.Ok? ==> Fresh(r.value.store) && Grows(s, r.value.store) && r.value.id in r.value.store.pisos
    ensures r.Err? ==> WriteFault(r.error)
    ensures f.pisoExistente.Some? ==> r == Ok(Got(s, f.pisoExistente.value))
  {
    GrowsRefl(s);
    if f.pisoExistente.Some? then Ok(Got(s, f.pisoExistente.value))
    else GetOrCreatePiso(s, f.pisoNuevo.value, ubicacion)
  }

  /** With no floor chosen, the floor found or created is the new number
      under the resolved location. */
  lemma ResolvePisoNamed(s: Store, f: StructForm, ubicacion: Id)
    requires Fresh(s) && LevelGiven(f, PisoLevel) && f.pisoExistente.None?
    ensures var r := ResolvePiso(s, f, ubicacion);
      r.Ok? ==> r.value.store.pisos[r.value.id] == Piso(f.pisoNuevo.value, ubicacion)
  {
    GetOrCreatePisoRow(s, f.pisoNuevo.value, ubicacion);
  }

  /** Room type: the chosen one, else the stripped new name, got or created. */
  function ResolveTipoLugar(s: Store, f: StructForm): (r: Result<Got, Fault>)
    requires Fresh(s) && LevelGiven(f, TipoLugarLevel) && Chosen(f.tipoLugarExistente, s.tiposLugar)
    ensures r.Ok? ==> Fresh(r.value.store) && Grows(s, r.value.store) && r.value.id in r.value.store.tiposLugar
    ensures r.Err? ==> WriteFault(r.error)
    ensures f.tipoLugarExistente.Some? ==> r == Ok(Got(s, f.tipoLugarExistente.value))
  {
    GrowsRefl(s);
    if f.tipoLugarExistente.Some? then Ok(Got(s, f.tipoLugarExistente.value))
    else GetOrCreateTipoLugar(s, Strip(OrEmpty(f.tipoLugarNuevo)))
  }

  /** With no room type chosen, the type found or created carries the
      stripped new name. */
  lemma ResolveTipoLugarNamed(s: Store, f: StructForm)
    requires Fresh(s) && LevelGiven(f, TipoLugarLevel) && f.tipoLugarExistente.None?
    ensures var r := ResolveTipoLugar(s, f);
      r.Ok? ==> r.value.store.tiposLugar[r.value.id].tipoDeLugar == Strip(OrEmpty(f.tipoLugarNuevo))
  {
    GetOrCreateTipoLugarRow(s, Strip(OrEmpty(f.tipoLugarNuevo)));
  }

  /** A choice made on the first database still names a row of a database
      grown from it. */
  lemma StructChoicesKept(s: Store, t: Store, f: StructForm)
    requires StructChoicesExist(s, f) && Grows(s, t)
    ensures StructChoicesExist(t, f)
  {
  }

  /** The room the form describes, in a database where its floor and type
      have the keys given. */
  predicate RoomAs(f: StructForm, room: Lugar, pisoKey: Id, tipoKey: Id) {
    && room == Lugar(Strip(f.nombreDelLugar), pisoKey, tipoKey)
    && (f.pisoExistente.Some? ==> pisoKey == f.pisoExistente.value)
    && (f.tipoLugarExistente.Some? ==> tipoKey == f.tipoLugarExistente.value)
  }

  /** The resolved floor and room type, and the database they live in. */
  datatype Levels = Levels(store: Store, piso: Id, tipoLugar: Id)

  /** Steps 3-4 of the view: floor, then room type. */
  function ResolveFloorAndType(s: Store, f: StructForm, ubicacion: Id): (r: Result<Levels, Fault>)
    requires Fresh(s) && CleanStructure(f) == StructOk && StructChoicesExist(s, f)
    ensures r.Ok? ==> Fresh(r.value.store) && Grows(s, r.value.store)
    ensures r.Err? ==> WriteFault(r.error)
    ensures r.Ok? ==> r.value.piso in r.value.store.pisos && r.value.tipoLugar in r.value.store.tiposLugar
    ensures r.Ok? && f.pisoExistente.Some? ==> r.value.piso == f.pisoExistente.value
    ensures r.Ok? && f.tipoLugarExistente.Some? ==> r.value.tipoLugar == f.tipoLugarExistente.value
  {
    var piso :- ResolvePiso(s, f, ubicacion);
    StructChoicesKept(s, piso.store, f);
    var tipo :- ResolveTipoLugar(piso.store, f);
    GrowsTrans(s, piso.store, tipo.store);
    Ok(Levels(tipo.store, piso.id, tipo.id))
  }

  /** Steps 2-4 of the view: location, floor, room type. */
  function ResolveBelowSector(s: Store, f: StructForm, sector: Id): (r: Result<Levels, Fault>)
    requires Fresh(s) && CleanStructure(f) == StructOk && StructChoicesExist(s, f)
    ensures r.Ok? ==> Fresh(r.value.store) && Grows(s, r.value.store)
    ensures r.Err? ==> WriteFault(r.error)
    ensures r.Ok? ==> r.value.piso in r.value.store.pisos && r.value.tipoLugar in r.value.store.tiposLugar
    ensures r.Ok? && f.pisoExistente.Some? ==> r.value.piso == f.pisoExistente.value
    ensures r.Ok? && f.tipoLugarExistente.Some? ==> r.value.tipoLugar == f.tipoLugarExistente.value
  {
    var ubicacion :- ResolveUbicacion(s, f, sector);
    StructChoicesKept(s, ubicacion.store, f);
    var levels :- ResolveFloorAndType(ubicacion.store, f, ubicacion.id);
    GrowsTrans(s, ubicacion.store, levels.store);
    Ok(levels)
  }

  /** Steps 1-4 of the view: sector, location, floor and room type, each
      resolved in the database the step before left. */
  function ResolveLevels(s: Store, f: StructForm): (r: Result<Levels, Fault>)
    requires Fresh(s) && CleanStructure(f) == StructOk && StructChoicesExist(s, f)
    ensures r.Ok? ==> Fresh(r.value.store) && Grows(s, r.value.store)
    ensures r.Err? ==> WriteFault(r.error)
    ensures r.Ok? ==> r.value.piso in r.value.store.pisos && r.value.tipoLugar in r.value.store.tiposLugar
    ensures r.Ok? && f.pisoExistente.Some? ==> r.value.piso == f.pisoExistente.value
    ensures r.Ok? && f.tipoLugarExistente.Some? ==> r.value.tipoLugar == f.tipoLugarExistente.value
  {
    var sector :- ResolveSector(s, f);
    StructChoicesKept(s, sector.store, f);
    var levels :- ResolveBelowSector(sector.store, f, sector.id);
    GrowsTrans(s, sector.store, levels.store);
    Ok(levels)
  }

  /** Steps 1-5 of the view: resolve the four levels, then create the room.
      Once the levels resolve, creating the room cannot fail: its floor and
      type are stored. */
  function CreateRoom(s: Store, f: StructForm): (r: Result<Got, Fault>)
    requires Fresh(s) && CleanStructure(f) == StructOk && StructChoicesExist(s, f)
    ensures r.Ok? ==> Fresh(r.value.store) && Grows(s, r.value.store)
    ensures r.Err? ==> WriteFault(r.error)
    ensures r.Ok? ==> r.value.id !in s.lugares && r.value.id in r.value.store.lugares
    ensures r.Ok? ==> var room := r.value.store.lugares[r.value.id];
      RoomAs(f, room, room.piso, room.tipoLugar) && room.piso in r.value.store.pisos
  {
    var levels :- ResolveLevels(s, f);
    var room := Lugar(Strip(f.nombreDelLugar), levels.piso, levels.tipoLugar);
    var lugar := CreateLugar(levels.store, room).value;
    GrowsTrans(s, levels.store, lugar.store);
    Ok(lugar)
  }

  // ---------------------------------------------------------------------
  // The object rows
  // ---------------------------------------------------------------------

  /** Category: the chosen one, else the stripped new name, got or created
      (an empty name included). */
  function ResolveCategoria(s: Store, f: RowForm): (r: Result<Got, Fault>)
    requires Fresh(s) && Chosen(f.categoriaExistente, s.categorias)
    ensures r.Ok? ==> Fresh(r.value.store) && Grows(s, r.value.store) && r.value.id in r.value.store.categorias
    ensures r.Err? ==> WriteFault(r.error)
    ensures f.categoriaExistente.Some? ==> r == Ok(Got(s, f.categoriaExistente.value))
  {
    GrowsRefl(s);
    if f.categoriaExistente.Some? then Ok(Got(s, f.categoriaExistente.value))
    else GetOrCreateCategoria(s, Strip(OrEmpty(f.categoriaNueva)))
  }

  /** With no category chosen, the category found or created carries the
      stripped new name (an empty one included). */
  lemma ResolveCategoriaNamed(s: Store, f: RowForm)
    requires Fresh(s) && f.categoriaExistente.None?
    ensures var r := ResolveCategoria(s, f);
      r.Ok? ==> r.value.store.categorias[r.value.id].nombreDeCategoria == Strip(OrEmpty(f.categoriaNueva))
  {
    GetOrCreateCategoriaRow(s, Strip(OrEmpty(f.categoriaNueva)));
  }

  /** Object: the chosen one, else the stripped new name under the resolved
      category, got or created. */
  function ResolveObjeto(s: Store, f: RowForm, categoria: Id): (r: Result<Got, Fault>)
    requires Fresh(s) && Chosen(f.objetoExistente, s.objetos)
    ensures r.Ok? ==> Fresh(r.value.store) && Grows(s, r.value.store) && r.value.id in r.value.store.objetos
    ensures r.Err? ==> WriteFault(r.error)
    ensures f.objetoExistente.Some? ==> r == Ok(Got(s, f.objetoExistente.value))
  {
    GrowsRefl(s);
    if f.objetoExistente.Some? then Ok(Got(s, f.objetoExistente.value))
    else GetOrCreateObjeto(s, Strip(OrEmpty(f.objetoNuevo)), categoria)
  }

  /** With no object chosen, the object found or created is the stripped
      new name under the resolved category. */
  lemma ResolveObjetoNamed(s: Store, f: RowForm, categoria: Id)
    requires Fresh(s) && f.objetoExistente.None?
    ensures var r := ResolveObjeto(s, f, categoria);
      r.Ok? ==> r.value.store.objetos[r.value.id] == Objeto(Strip(OrEmpty(f.objetoNuevo)), categoria)
  {
    GetOrCreateObjetoRow(s, Strip(OrEmpty(f.objetoNuevo)), categoria);
  }

  /** Kind: the chosen one, else the resolved object with the stripped
      brand and material, got or created. */
  function ResolveTipoObjeto(s: Store, f: RowForm, objeto: Id): (r: Result<Got, Fault>)
    requires Fresh(s) && Chosen(f.tipoObjetoExistente, s.tiposObjeto)
    ensures r.Ok? ==> Fresh(r.value.store) && Grows(s, r.value.store) && r.value.id in r.value.store.tiposObjeto
    ensures r.Err? ==> WriteFault(r.error)
    ensures f.tipoObjetoExistente.Some? ==> r == Ok(Got(s, f.tipoObjetoExistente.value))
  {
    GrowsRefl(s);
    if f.tipoObjetoExistente.Some? then Ok(Got(s, f.tipoObjetoExistente.value))
    else GetOrCreateTipoObjeto(s, objeto, Strip(OrEmpty(f.marca)), Strip(OrEmpty(f.material)))
  }

  /** With no kind chosen, the kind found or created is the resolved object
      with the stripped brand and material. */
  lemma ResolveTipoObjetoNamed(s: Store, f: RowForm, objeto: Id)
    requires Fresh(s) && f.tipoObjetoExistente.None?
    ensures var r := ResolveTipoObjeto(s, f, objeto);
      r.Ok? ==> r.value.store.tiposObjeto[r.value.id]
                == TipoObjeto(objeto, Some(Strip(OrEmpty(f.marca))), Some(Strip(OrEmpty(f.material))))
  {
    GetOrCreateTipoObjetoRow(s, objeto, Strip(OrEmpty(f.marca)), Strip(OrEmpty(f.material)));
  }

  /** The item a row places in room `lugar` on day `today`, its kind
      resolved to a stored key: quantity and condition with their defaults,
      the detail stripped, the chosen kind when there is one. */
  predicate PlacedAs(f: RowForm, item: ObjetoLugar, lugar: Id, today: Date) {
    && item.cantidad == CantidadOf(f) && item.estado == EstadoOf(f)
    && item.detalle == Strip(OrEmpty(f.detalle)) && item.fecha == today
    && item.lugar == Some(lugar) && item.tipoDeObjeto.Some?
    && (f.tipoObjetoExistente.Some? ==> item.tipoDeObjeto == f.tipoObjetoExistente)
  }

  /** The last steps of one used row: the kind resolved under object
      `objeto`, then the item created through `save()`, which cannot fail
      once the kind resolves: the detail is given and room and kind are
      stored. */
  function PlaceWithKind(s: Store, lugar: Id, f: RowForm, objeto: Id, today: Date): (r: Result<Got, Fault>)
    requires Fresh(s) && lugar in s.lugares && RowChoicesExist(s, f)
    ensures r.Ok? ==> Fresh(r.value.store) && Grows(s, r.value.store)
    ensures r.Err? ==> WriteFault(r.error)
    ensures r.Ok? ==> r.value.id !in s.items && r.value.id in r.value.store.items
    ensures r.Ok? ==> PlacedAs(f, r.value.store.items[r.value.id], lugar, today)
  {
    var tipo :- ResolveTipoObjeto(s, f, objeto);
    var x := History.Instance(None, CantidadOf(f), EstadoOf(f), Some(Strip(OrEmpty(f.detalle))), today,
      Some(lugar), Some(tipo.id));
    assert lugar in tipo.store.lugares;
    var saved := History.Insert(tipo.store, x, today).value;
    AddItemGrows(tipo.store, History.RowOf(x, today));
    GrowsTrans(s, tipo.store, saved.store);
    Ok(Got(saved.store, saved.id))
  }

  /** One used row from the object on: the object resolved under category
      `categoria`, then the kind and the item. */
  function PlaceWithObject(s: Store, lugar: Id, f: RowForm, categoria: Id, today: Date): (r: Result<Got, Fault>)
    requires Fresh(s) && lugar in s.lugares && RowChoicesExist(s, f)
    ensures r.Ok? ==> Fresh(r.value.store) && Grows(s, r.value.store)
    ensures r.Err? ==> WriteFault(r.error)
    ensures r.Ok? ==> r.value.id !in s.items && r.value.id in r.value.store.items
    ensures r.Ok? ==> PlacedAs(f, r.value.store.items[r.value.id], lugar, today)
  {
    var objeto :- ResolveObjeto(s, f, categoria);
    var placed :- PlaceWithKind(objeto.store, lugar, f, objeto.id, today);
    GrowsTrans(s, objeto.store, placed.store);
    Ok(placed)
  }

  /** One used row: category, object and kind resolved in that order, then
      the item created through `save()`. */
  function PlaceRow(s: Store, lugar: Id, f: RowForm, today: Date): (r: Result<Got, Fault>)
    requires Fresh(s) && lugar in s.lugares && RowChoicesExist(s, f)
    ensures r.Ok? ==> Fresh(r.value.store) && Grows(s, r.value.store)
    ensures r.Err? ==> WriteFault(r.error)
    ensures r.Ok? ==> r.value.id !in s.items && r.value.id in r.value.store.items
    ensures r.Ok? ==> PlacedAs(f, r.value.store.items[r.value.id], lugar, today)
  {
    var categoria :- ResolveCategoria(s, f);
    var placed :- PlaceWithObject(categoria.store, lugar, f, categoria.id, today);
    GrowsTrans(s, categoria.store, placed.store);
    Ok(placed)
  }

  /** The result of the row loop: the database and the new items' keys. */
  datatype Placed = Placed(store: Store, items: seq<Id>)

  /** Items `ids` are new relative to `s`, stored in `t`, and placed in room
      `lugar` on day `today` as rows `used` describe, in that order. */
  predicate NewItems(s: Store, t: Store, lugar: Id, used: seq<RowForm>, ids: seq<Id>, today: Date) {
    && |ids| == |used|
    && (forall i | 0 <= i < |ids| ::
         ids[i] !in s.items && ids[i] in t.items && PlacedAs(used[i], t.items[ids[i]], lugar, today))
    && Distinct(ids)
  }

  /** No key occurs twice. */
  predicate Distinct(ids: seq<Id>) {
    forall i, j | 0 <= i < j < |ids| :: ids[i] != ids[j]
  }

  /** The keys listed in `ids`. */
  function IdSet(ids: seq<Id>): set<Id> {
    set i | 0 <= i < |ids| :: ids[i]
  }

  /** The items of `t` are those of `s` and those of `ids`, and no other. */
  predicate AddsExactly(s: Store, t: Store, ids: seq<Id>) {
    t.items.Keys == s.items.Keys + IdSet(ids)
  }

  /** One new item. */
  lemma NewItemsSingle(s: Store, t: Store, lugar: Id, f: RowForm, id: Id, today: Date)
    requires id !in s.items && id in t.items && PlacedAs(f, t.items[id], lugar, today)
    ensures NewItems(s, t, lugar, [f], [id], today)
  {
  }

  /** A run of new items followed by a run made after it. */
  lemma {:induction false} NewItemsAppend(s: Store, m: Store, t: Store, lugar: Id,
                                          used1: seq<RowForm>, ids1: seq<Id>,
                                          used2: seq<RowForm>, ids2: seq<Id>, today: Date)
    requires Keeps(s.items, m.items) && Keeps(m.items, t.items)
    requires NewItems(s, m, lugar, used1, ids1, today) && NewItems(m, t, lugar, used2, ids2, today)
    ensures NewItems(s, t, lugar, used1 + used2, ids1 + ids2, today)
  {
    var used, ids := used1 + used2, ids1 + ids2;
    forall i | 0 <= i < |ids|
      ensures ids[i] !in s.items && ids[i] in t.items && PlacedAs(used[i], t.items[ids[i]], lugar, today)
    {
      if i < |ids1| {
        assert ids[i] == ids1[i] && used[i] == used1[i];
        assert ids[i] in m.items;
      } else {
        assert ids[i] == ids2[i - |ids1|] && used[i] == used2[i - |ids1|];
      }
    }
    forall i, j | 0 <= i < |ids1| && 0 <= j < |ids2| ensures ids1[i] != ids2[j] {
      assert ids1[i] in m.items;
    }
    DistinctAppend(ids1, ids2);
  }

  /** Two runs of distinct keys with no key in common make one. */
  lemma DistinctAppend(a: seq<Id>, b: seq<Id>)
    requires Distinct(a) && Distinct(b)
    requires forall i, j | 0 <= i < |a| && 0 <= j < |b| :: a[i] != b[j]
    ensures Distinct(a + b)
  {
    var c := a + b;
    forall i, j | 0 <= i < j < |c| ensures c[i] != c[j] {
      if j < |a| {
        assert c[i] == a[i] && c[j] == a[j];
      } else if i < |a| {
        assert c[i] == a[i] && c[j] == b[j - |a|];
      } else {
        assert c[i] == b[i - |a|] && c[j] == b[j - |a|];
      }
    }
  }

  /** Items new relative to a later database are new relative to an
      earlier one. */
  lemma NewItemsEarlier(s: Store, m: Store, t: Store, lugar: Id, used: seq<RowForm>, ids: seq<Id>, today: Date)
    requires Keeps(s.items, m.items) && NewItems(m, t, lugar, used, ids, today)
    ensures NewItems(s, t, lugar, used, ids, today)
  {
  }

  /** Every row's choices name stored rows. */
  predicate RowsChoicesExist(s: Store, rows: seq<Option<RowForm>>) {
    forall i | 0 <= i < |rows| :: rows[i].Some? ==> RowChoicesExist(s, rows[i].value)
  }

  /** Choices made on the first database still name rows of a database
      grown from it, for all rows and for the rows after the first. */
  lemma RowsChoicesKept(s: Store, t: Store, rows: seq<Option<RowForm>>)
    requires Grows(s, t) && RowsChoicesExist(s, rows)
    ensures RowsChoicesExist(t, rows)
    ensures rows != [] ==> RowsChoicesExist(t, rows[1..])
  {
    if rows != [] {
      forall i | 0 <= i < |rows| - 1 ensures rows[1..][i].Some? ==> RowChoicesExist(t, rows[1..][i].value) {
        assert rows[1..][i] == rows[i + 1];
      }
    }
  }

  /** One formset entry: a skipped one writes nothing, a used one places
      its item. */
  function PlaceEntry(s: Store, lugar: Id, row: Option<RowForm>, today: Date): (r: Result<Placed, Fault>)
    requires Fresh(s) && lugar in s.lugares && (row.Some? ==> RowChoicesExist(s, row.value))
    ensures r.Ok? ==> Fresh(r.value.store) && Grows(s, r.value.store)
    ensures r.Err? ==> WriteFault(r.error)
    ensures r.Ok? ==> NewItems(s, r.value.store, lugar, UsedEntry(row), r.value.items, today)
    ensures Skipped(row) ==> r == Ok(Placed(s, []))
  {
    if Skipped(row) then
      GrowsRefl(s);
      Ok(Placed(s, []))
    else
      var placed :- PlaceRow(s, lugar, row.value, today);
      NewItemsSingle(s, placed.store, lugar, row.value, placed.id, today);
      Ok(Placed(placed.store, [placed.id]))
  }

  /** Step 6 of the view: the entries in order, skipping the ones without
      data and the ones marked empty. */
  function PlaceRows(s: Store, lugar: Id, rows: seq<Option<RowForm>>, today: Date): (r: Result<Placed, Fault>)
    requires Fresh(s) && lugar in s.lugares && RowsChoicesExist(s, rows)
    ensures r.Ok? ==> Fresh(r.value.store) && Grows(s, r.value.store)
    ensures r.Err? ==> WriteFault(r.error)
    ensures r.Ok? ==> NewItems(s, r.value.store, lugar, UsedRows(rows), r.value.items, today)
    decreases |rows|
  {
    if rows == [] then
      GrowsRefl(s);
      Ok(Placed(s, []))
    else
      var first :- PlaceEntry(s, lugar, rows[0], today);
      RowsChoicesKept(s, first.store, rows);
      var rest :- PlaceRows(first.store, lugar, rows[1..], today);
      GrowsTrans(s, first.store, rest.store);
      NewItemsAppend(s, first.store, rest.store, lugar, UsedEntry(rows[0]), first.items,
        UsedRows(rows[1..]), rest.items, today);
      Ok(Placed(rest.store, first.items + rest.items))
  }

  /** What a submission creates: the database, the room and its items. */
  datatype Created = Created(store: Store, lugar: Id, items: seq<Id>)

  /** `crear_estructura` on a POST: an invalid submission writes nothing
      and is shown again; a valid one creates the room and one item per
      used row, all under new keys, or fails as a whole. */
  function CrearEstructura(s: Store, f: StructForm, rows: seq<Option<RowForm>>, today: Date)
    : (r: Result<Created, Fault>)
    requires Fresh(s)
    ensures !SubmissionValid(s, f, rows) ==> r == Err(ValidationError)
    ensures SubmissionValid(s, f, rows) && r.Err? ==> WriteFault(r.error)
    ensures r.Ok? ==> Fresh(r.value.store) && Grows(s, r.value.store)
    ensures r.Ok? ==> r.value.lugar !in s.lugares && r.value.lugar in r.value.store.lugares
    ensures r.Ok? ==> var room := r.value.store.lugares[r.value.lugar];
      RoomAs(f, room, room.piso, room.tipoLugar)
    ensures r.Ok? ==> NewItems(s, r.value.store, r.value.lugar, UsedRows(rows), r.value.items, today)
  {
    if !SubmissionValid(s, f, rows) then Err(ValidationError)
    else
      var room :- CreateRoom(s, f);
      RowsChoicesKept(s, room.store, rows);
      var placed :- PlaceRows(room.store, room.id, rows, today);
      GrowsTrans(s, room.store, placed.store);
      NewItemsEarlier(s, room.store, placed.store, room.id, UsedRows(rows), placed.items, today);
      Ok(Created(placed.store, room.id, placed.items))
  }

  // ---------------------------------------------------------------------
  // The items a submission adds, and no other
  // ---------------------------------------------------------------------

  /** Resolving the levels and creating the room add no item. */
  lemma ResolveSectorItems(s: Store, f: StructForm)
    requires Fresh(s) && LevelGiven(f, SectorLevel) && Chosen(f.sectorExistente, s.sectores)
    ensures ResolveSector(s, f).Ok? ==> ResolveSector(s, f).value.store.items == s.items
  {
  }

  lemma ResolveUbicacionItems(s: Store, f: StructForm, sector: Id)
    requires Fresh(s) && LevelGiven(f, UbicacionLevel) && Chosen(f.ubicacionExistente, s.ubicaciones)
    ensures ResolveUbicacion(s, f, sector).Ok? ==> ResolveUbicacion(s, f, sector).value.store.items == s.items
  {
  }

  lemma ResolvePisoItems(s: Store, f: StructForm, ubicacion: Id)
    requires Fresh(s) && LevelGiven(f, PisoLevel) && Chosen(f.pisoExistente, s.pisos)
    ensures ResolvePiso(s, f, ubicacion).Ok? ==> ResolvePiso(s, f, ubicacion).value.store.items == s.items
  {
  }

  lemma ResolveTipoLugarItems(s: Store, f: StructForm)
    requires Fresh(s) && LevelGiven(f, TipoLugarLevel) && Chosen(f.tipoLugarExistente, s.tiposLugar)
    ensures ResolveTipoLugar(s, f).Ok? ==> ResolveTipoLugar(s, f).value.store.items == s.items
  {
  }

  lemma ResolveFloorAndTypeItems(s: Store, f: StructForm, ubicacion: Id)
    requires Fresh(s) && CleanStructure(f) == StructOk && StructChoicesExist(s, f)
    ensures ResolveFloorAndType(s, f, ubicacion).Ok? ==> ResolveFloorAndType(s, f, ubicacion).value.store.items == s.items
  {
    ResolvePisoItems(s, f, ubicacion);
    var piso := ResolvePiso(s, f, ubicacion);
    if piso.Ok? {
      StructChoicesKept(s, piso.value.store, f);
      ResolveTipoLugarItems(piso.value.store, f);
    }
  }

  lemma ResolveBelowSectorItems(s: Store, f: StructForm, sector: Id)
    requires Fresh(s) && CleanStructure(f) == StructOk && StructChoicesExist(s, f)
    ensures ResolveBelowSector(s, f, sector).Ok? ==> ResolveBelowSector(s, f, sector).value.store.items == s.items
  {
    ResolveUbicacionItems(s, f, sector);
    var ubicacion := ResolveUbicacion(s, f, sector);
    if ubicacion.Ok? {
      StructChoicesKept(s, ubicacion.value.store, f);
      ResolveFloorAndTypeItems(ubicacion.value.store, f, ubicacion.value.id);
    }
  }

  lemma CreateRoomItems(s: Store, f: StructForm)
    requires Fresh(s) && CleanStructure(f) == StructOk && StructChoicesExist(s, f)
    ensures CreateRoom(s, f).Ok? ==> CreateRoom(s, f).value.store.items == s.items
  {
    ResolveSectorItems(s, f);
    var sector := ResolveSector(s, f);
    if sector.Ok? {
      StructChoicesKept(s, sector.value.store, f);
      ResolveBelowSectorItems(sector.value.store, f, sector.value.id);
    }
  }

  /** Resolving a row's category, object and kind adds no item. */
  lemma ResolveCategoriaItems(s: Store, f: RowForm)
    requires Fresh(s) && Chosen(f.categoriaExistente, s.categorias)
    ensures ResolveCategoria(s, f).Ok? ==> ResolveCategoria(s, f).value.store.items == s.items
  {
  }

  lemma ResolveObjetoItems(s: Store, f: RowForm, categoria: Id)
    requires Fresh(s) && Chosen(f.objetoExistente, s.objetos)
    ensures ResolveObjeto(s, f, categoria).Ok? ==> ResolveObjeto(s, f, categoria).value.store.items == s.items
  {
  }

  lemma ResolveTipoObjetoItems(s: Store, f: RowForm, objeto: Id)
    requires Fresh(s) && Chosen(f.tipoObjetoExistente, s.tiposObjeto)
    ensures ResolveTipoObjeto(s, f, objeto).Ok? ==> ResolveTipoObjeto(s, f, objeto).value.store.items == s.items
  {
  }

  /** A used row adds exactly its own item. */
  lemma PlaceRowAddsOne(s: Store, lugar: Id, f: RowForm, today: Date)
    requires Fresh(s) && lugar in s.lugares && RowChoicesExist(s, f) && PlaceRow(s, lugar, f, today).Ok?
    ensures var g := PlaceRow(s, lugar, f, today).value;
      g.store.items.Keys == s.items.Keys + {g.id}
  {
    var c := ResolveCategoria(s, f).value;
    ResolveCategoriaItems(s, f);
    PlaceWithObjectAddsOne(c.store, lugar, f, c.id, today);
  }

  lemma PlaceWithObjectAddsOne(s: Store, lugar: Id, f: RowForm, categoria: Id, today: Date)
    requires Fresh(s) && lugar in s.lugares && RowChoicesExist(s, f)
    requires PlaceWithObject(s, lugar, f, categoria, today).Ok?
    ensures var g := PlaceWithObject(s, lugar, f, categoria, today).value;
      g.store.items.Keys == s.items.Keys + {g.id}
  {
    var o := ResolveObjeto(s, f, categoria).value;
    ResolveObjetoItems(s, f, categoria);
    PlaceWithKindAddsOne(o.store, lugar, f, o.id, today);
  }

  lemma PlaceWithKindAddsOne(s: Store, lugar: Id, f: RowForm, objeto: Id, today: Date)
    requires Fresh(s) && lugar in s.lugares && RowChoicesExist(s, f)
    requires PlaceWithKind(s, lugar, f, objeto, today).Ok?
    ensures var g := PlaceWithKind(s, lugar, f, objeto, today).value;
      g.store.items.Keys == s.items.Keys + {g.id}
  {
    ResolveTipoObjetoItems(s, f, objeto);
  }

  /** Each formset entry adds exactly the items it reports. */
  lemma PlaceEntryAddsExactly(s: Store, lugar: Id, row: Option<RowForm>, today: Date)
    requires Fresh(s) && lugar in s.lugares && (row.Some? ==> RowChoicesExist(s, row.value))
    requires PlaceEntry(s, lugar, row, today).Ok?
    ensures AddsExactly(s, PlaceEntry(s, lugar, row, today).value.store, PlaceEntry(s, lugar, row, today).value.items)
  {
    if Skipped(row) {
      assert IdSet([]) == {};
    } else {
      var g := PlaceRow(s, lugar, row.value, today).value;
      PlaceRowAddsOne(s, lugar, row.value, today);
      IdSetOne(g.id);
    }
  }

  /** The keys of a single key. */
  lemma IdSetOne(id: Id)
    ensures IdSet([id]) == {id}
  {
    assert [id][0] == id;
  }

  /** The row loop adds exactly the items it reports. */
  lemma {:induction false} PlaceRowsAddsExactly(s: Store, lugar: Id, rows: seq<Option<RowForm>>, today: Date)
    requires Fresh(s) && lugar in s.lugares && RowsChoicesExist(s, rows) && PlaceRows(s, lugar, rows, today).Ok?
    ensures AddsExactly(s, PlaceRows(s, lugar, rows, today).value.store, PlaceRows(s, lugar, rows, today).value.items)
    decreases |rows|
  {
    if rows == [] {
      assert IdSet([]) == {};
    } else {
      var first := PlaceEntry(s, lugar, rows[0], today).value;
      PlaceEntryAddsExactly(s, lugar, rows[0], today);
      RowsChoicesKept(s, first.store, rows);
      var rest := PlaceRows(first.store, lugar, rows[1..], today).value;
      PlaceRowsAddsExactly(first.store, lugar, rows[1..], today);
      IdSetAppend(first.items, rest.items);
    }
  }

  /** The keys of two runs together. */
  lemma IdSetAppend(a: seq<Id>, b: seq<Id>)
    ensures IdSet(a + b) == IdSet(a) + IdSet(b)
  {
    var c := a + b;
    forall x | x in IdSet(c) ensures x in IdSet(a) + IdSet(b) {
      var i :| 0 <= i < |c| && c[i] == x;
      if i >= |a| {
        assert b[i - |a|] == x;
      }
    }
    forall x | x in IdSet(a) + IdSet(b) ensures x in IdSet(c) {
      if x in IdSet(a) {
        var i :| 0 <= i < |a| && a[i] == x;
        assert c[i] == x;
      } else {
        var i :| 0 <= i < |b| && b[i] == x;
        assert c[|a| + i] == x;
      }
    }
  }

  /** A submission adds the room's items and no other: the items of the
      new database are the old ones and those it reports, each once. */
  lemma CrearEstructuraAddsExactly(s: Store, f: StructForm, rows: seq<Option<RowForm>>, today: Date)
    requires Fresh(s) && CrearEstructura(s, f, rows, today).Ok?
    ensures var c := CrearEstructura(s, f, rows, today).value;
      AddsExactly(s, c.store, c.items) && Distinct(c.items)
  {
    var room := CreateRoom(s, f).value;
    CreateRoomItems(s, f);
    RowsChoicesKept(s, room.store, rows);
    PlaceRowsAddsExactly(room.store, room.id, rows, today);
  }

  // ---------------------------------------------------------------------
  // The declared constraints survive a submission
  // ---------------------------------------------------------------------

  lemma ResolveSectorKeepsValid(s: Store, f: StructForm)
    requires Valid(s) && LevelGiven(f, SectorLevel) && Chosen(f.sectorExistente, s.sectores)
    ensures ResolveSector(s, f).Ok? ==> Valid(ResolveSector(s, f).value.store)
  {
    if f.sectorExistente.None? {
      GetOrCreateSectorKeepsValid(s, Strip(OrEmpty(f.sectorNuevo)));
    }
  }

  lemma ResolveUbicacionKeepsValid(s: Store, f: StructForm, sector: Id)
    requires Valid(s) && LevelGiven(f, UbicacionLevel) && Chosen(f.ubicacionExistente, s.ubicaciones)
    ensures ResolveUbicacion(s, f, sector).Ok? ==> Valid(ResolveUbicacion(s, f, sector).value.store)
  {
    if f.ubicacionExistente.None? {
      GetOrCreateUbicacionKeepsValid(s, Strip(OrEmpty(f.ubicacionNueva)), sector);
    }
  }

  lemma ResolvePisoKeepsValid(s: Store, f: StructForm, ubicacion: Id)
    requires Valid(s) && LevelGiven(f, PisoLevel) && Chosen(f.pisoExistente, s.pisos)
    ensures ResolvePiso(s, f, ubicacion).Ok? ==> Valid(ResolvePiso(s, f, ubicacion).value.store)
  {
    if f.pisoExistente.None? {
      GetOrCreatePisoKeepsValid(s, f.pisoNuevo.value, ubicacion);
    }
  }

  lemma ResolveTipoLugarKeepsValid(s: Store, f: StructForm)
    requires Valid(s) && LevelGiven(f, TipoLugarLevel) && Chosen(f.tipoLugarExistente, s.tiposLugar)
    ensures ResolveTipoLugar(s, f).Ok? ==> Valid(ResolveTipoLugar(s, f).value.store)
  {
    if f.tipoLugarExistente.None? {
      GetOrCreateTipoLugarKeepsValid(s, Strip(OrEmpty(f.tipoLugarNuevo)));
    }
  }

  lemma ResolveCategoriaKeepsValid(s: Store, f: RowForm)
    requires Valid(s) && Chosen(f.categoriaExistente, s.categorias)
    ensures ResolveCategoria(s, f).Ok? ==> Valid(ResolveCategoria(s, f).value.store)
  {
    if f.categoriaExistente.None? {
      GetOrCreateCategoriaKeepsValid(s, Strip(OrEmpty(f.categoriaNueva)));
    }
  }

  lemma ResolveObjetoKeepsValid(s: Store, f: RowForm, categoria: Id)
    requires Valid(s) && Chosen(f.objetoExistente, s.objetos)
    ensures ResolveObjeto(s, f, categoria).Ok? ==> Valid(ResolveObjeto(s, f, categoria).value.store)
  {
    if f.objetoExistente.None? {
      GetOrCreateObjetoKeepsValid(s, Strip(OrEmpty(f.objetoNuevo)), categoria);
    }
  }

  lemma ResolveTipoObjetoKeepsValid(s: Store, f: RowForm, objeto: Id)
    requires Valid(s) && Chosen(f.tipoObjetoExistente, s.tiposObjeto)
    ensures ResolveTipoObjeto(s, f, objeto).Ok? ==> Valid(ResolveTipoObjeto(s, f, objeto).value.store)
  {
    if f.tipoObjetoExistente.None? {
      GetOrCreateTipoObjetoKeepsValid(s, objeto, Strip(OrEmpty(f.marca)), Strip(OrEmpty(f.material)));
    }
  }

  lemma ResolveFloorAndTypeKeepsValid(s: Store, f: StructForm, ubicacion: Id)
    requires Valid(s) && CleanStructure(f) == StructOk && StructChoicesExist(s, f)
    ensures ResolveFloorAndType(s, f, ubicacion).Ok? ==> Valid(ResolveFloorAndType(s, f, ubicacion).value.store)
  {
    ResolvePisoKeepsValid(s, f, ubicacion);
    var piso := ResolvePiso(s, f, ubicacion);
    if piso.Ok? {
      StructChoicesKept(s, piso.value.store, f);
      ResolveTipoLugarKeepsValid(piso.value.store, f);
    }
  }

  lemma ResolveBelowSectorKeepsValid(s: Store, f: StructForm, sector: Id)
    requires Valid(s) && CleanStructure(f) == StructOk && StructChoicesExist(s, f)
    ensures ResolveBelowSector(s, f, sector).Ok? ==> Valid(ResolveBelowSector(s, f, sector).value.store)
  {
    ResolveUbicacionKeepsValid(s, f, sector);
    var ubicacion := ResolveUbicacion(s, f, sector);
    if ubicacion.Ok? {
      StructChoicesKept(s, ubicacion.value.store, f);
      ResolveFloorAndTypeKeepsValid(ubicacion.value.store, f, ubicacion.value.id);
    }
  }

  lemma ResolveLevelsKeepsValid(s: Store, f: StructForm)
    requires Valid(s) && CleanStructure(f) == StructOk && StructChoicesExist(s, f)
    ensures ResolveLevels(s, f).Ok? ==> Valid(ResolveLevels(s, f).value.store)
  {
    ResolveSectorKeepsValid(s, f);
    var sector := ResolveSector(s, f);
    if sector.Ok? {
      StructChoicesKept(s, sector.value.store, f);
      ResolveBelowSectorKeepsValid(sector.value.store, f, sector.value.id);
    }
  }

  lemma CreateRoomKeepsValid(s: Store, f: StructForm)
    requires Valid(s) && CleanStructure(f) == StructOk && StructChoicesExist(s, f)
    ensures CreateRoom(s, f).Ok? ==> Valid(CreateRoom(s, f).value.store)
  {
    ResolveLevelsKeepsValid(s, f);
    var levels := ResolveLevels(s, f);
    if levels.Ok? {
      CreateLugarKeepsValid(levels.value.store,
        Lugar(Strip(f.nombreDelLugar), levels.value.piso, levels.value.tipoLugar));
    }
  }

  lemma PlaceWithKindKeepsValid(s: Store, lugar: Id, f: RowForm, objeto: Id, today: Date)
    requires Valid(s) && lugar in s.lugares && RowChoicesExist(s, f)
    ensures PlaceWithKind(s, lugar, f, objeto, today).Ok? ==>
      Valid(PlaceWithKind(s, lugar, f, objeto, today).value.store)
  {
    ResolveTipoObjetoKeepsValid(s, f, objeto);
    var tipo := ResolveTipoObjeto(s, f, objeto);
    if tipo.Ok? {
      History.InsertKeepsValid(tipo.value.store,
        History.Instance(None, CantidadOf(f), EstadoOf(f), Some(Strip(OrEmpty(f.detalle))), today,
          Some(lugar), Some(tipo.value.id)), today);
    }
  }

  lemma PlaceWithObjectKeepsValid(s: Store, lugar: Id, f: RowForm, categoria: Id, today: Date)
    requires Valid(s) && lugar in s.lugares && RowChoicesExist(s, f)
    ensures PlaceWithObject(s, lugar, f, categoria, today).Ok? ==>
      Valid(PlaceWithObject(s, lugar, f, categoria, today).value.store)
  {
    ResolveObjetoKeepsValid(s, f, categoria);
    var objeto := ResolveObjeto(s, f, categoria);
    if objeto.Ok? {
      PlaceWithKindKeepsValid(objeto.value.store, lugar, f, objeto.value.id, today);
    }
  }

  lemma PlaceRowKeepsValid(s: Store, lugar: Id, f: RowForm, today: Date)
    requires Valid(s) && lugar in s.lugares && RowChoicesExist(s, f)
    ensures PlaceRow(s, lugar, f, today).Ok? ==> Valid(PlaceRow(s, lugar, f, today).value.store)
  {
    ResolveCategoriaKeepsValid(s, f);
    var categoria := ResolveCategoria(s, f);
    if categoria.Ok? {
      PlaceWithObjectKeepsValid(categoria.value.store, lugar, f, categoria.value.id, today);
    }
  }

  lemma PlaceEntryKeepsValid(s: Store, lugar: Id, row: Option<RowForm>, today: Date)
    requires Valid(s) && lugar in s.lugares && (row.Some? ==> RowChoicesExist(s, row.value))
    ensures PlaceEntry(s, lugar, row, today).Ok? ==> Valid(PlaceEntry(s, lugar, row, today).value.store)
  {
    if Skipped(row) {
      assert PlaceEntry(s, lugar, row, today) == Ok(Placed(s, []));
    } else {
      PlaceRowKeepsValid(s, lugar, row.value, today);
      var placed := PlaceRow(s, lugar, row.value, today);
      if placed.Ok? {
        assert PlaceEntry(s, lugar, row, today).value.store == placed.value.store;
      }
    }
  }

  lemma {:induction false} PlaceRowsKeepsValid(s: Store, lugar: Id, rows: seq<Option<RowForm>>, today: Date)
    requires Valid(s) && lugar in s.lugares && RowsChoicesExist(s, rows)
    ensures PlaceRows(s, lugar, rows, today).Ok? ==> Valid(PlaceRows(s, lugar, rows, today).value.store)
    decreases |rows|
  {
    if rows != [] {
      PlaceEntryKeepsValid(s, lugar, rows[0], today);
      var first := PlaceEntry(s, lugar, rows[0], today);
      if first.Ok? {
        RowsChoicesKept(s, first.value.store, rows);
        PlaceRowsKeepsValid(first.value.store, lugar, rows[1..], today);
      }
    }
  }

  /** A successful submission leaves a database the declared constraints
      admit. */
  lemma CrearEstructuraKeepsValid(s: Store, f: StructForm, rows: seq<Option<RowForm>>, today: Date)
    requires Valid(s)
    ensures CrearEstructura(s, f, rows, today).Ok? ==> Valid(CrearEstructura(s, f, rows, today).value.store)
  {
    if SubmissionValid(s, f, rows) {
      CreateRoomKeepsValid(s, f);
      var room := CreateRoom(s, f);
      if room.Ok? {
        RowsChoicesKept(s, room.value.store, rows);
        PlaceRowsKeepsValid(room.value.store, room.value.id, rows, today);
      }
    }
  }
}
