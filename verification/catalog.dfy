/** `Model.objects.get_or_create` on the inventory's tables: look the row up
    by the given columns; one match is returned as it is, several are an
    error, none means a new row is created, which fails when it would
    repeat a unique column. */
module Catalog {
  import opened Wrappers
  import opened Models

  /** The keys below `n` whose rows in `m` satisfy `p`, in ascending order:
      what `filter()` returns. */
  function Matching<T>(m: map<Id, T>, n: nat, p: T -> bool): (r: seq<Id>)
    ensures forall k :: k in r <==> k < n && k in m && p(m[k])
    ensures forall i, j | 0 <= i < j < |r| :: r[i] < r[j]
  {
    if n == 0 then []
    else
      var rest := Matching(m, n - 1, p);
      assert forall i | 0 <= i < |rest| :: rest[i] in rest;
      if n - 1 in m && p(m[n - 1]) then rest + [n - 1] else rest
  }

  /** A table after `get_or_create`, the key of the row returned, and
      whether that row was created. */
  datatype Outcome<T> = Outcome(table: map<Id, T>, id: Id, created: bool)

  /** `get_or_create` on table `m`, whose keys are below `n`: `p` is the
      lookup, `row` the row to create, and `clash` tells the stored rows
      that would share a unique column with `row`. A new row takes key `n`. */
  function GetOrCreateIn<T>(m: map<Id, T>, n: nat, p: T -> bool, row: T, clash: T -> bool)
    : (r: Result<Outcome<T>, Fault>)
    requires forall k | k in m :: k < n
    ensures r.Ok? && !r.value.created ==>
      r.value.table == m && r.value.id in m && p(m[r.value.id])
    ensures r.Ok? && r.value.created ==>
      r.value.table == m[n := row] && r.value.id == n && n !in m
    ensures (r.Ok? && r.value.created) <==> forall k | k in m :: !p(m[k]) && !clash(m[k])
    ensures r == Err(IntegrityError) <==>
      (forall k | k in m :: !p(m[k])) && exists k | k in m :: clash(m[k])
    ensures r == Err(MultipleObjectsReturned) <==>
      exists a, b | a in m && b in m && a != b :: p(m[a]) && p(m[b])
    ensures r.Err? ==> r.error == IntegrityError || r.error == MultipleObjectsReturned
  {
    var found := Matching(m, n, p);
    if |found| > 1 then
      assert found[0] in found && found[1] in found && found[0] < found[1];
      Err(MultipleObjectsReturned)
    else if |found| == 1 then
      Ok(Outcome(m, found[0], false))
    else if exists k | k in m :: clash(m[k]) then
      Err(IntegrityError)
    else
      Ok(Outcome(m[n := row], n, true))
  }

  /** When at most one stored row satisfies the lookup and one does, that
      row is returned and nothing is written. */
  lemma GetOrCreateFinds<T>(m: map<Id, T>, n: nat, p: T -> bool, row: T, clash: T -> bool, k: Id)
    requires forall j | j in m :: j < n
    requires k in m && p(m[k])
    requires forall j | j in m && p(m[j]) :: j == k
    ensures GetOrCreateIn(m, n, p, row, clash) == Ok(Outcome(m, k, false))
  {
  }

  /** Running `get_or_create` again with the same arguments finds the row
      the first call returned, and writes nothing. */
  lemma GetOrCreateIdempotent<T>(m: map<Id, T>, n: nat, p: T -> bool, row: T, clash: T -> bool)
    requires forall k | k in m :: k < n
    requires p(row)
    requires GetOrCreateIn(m, n, p, row, clash).Ok?
    ensures var o := GetOrCreateIn(m, n, p, row, clash).value;
      GetOrCreateIn(o.table, n + 1, p, row, clash) == Ok(Outcome(o.table, o.id, false))
  {
    var o := GetOrCreateIn(m, n, p, row, clash).value;
    if !o.created {
      assert forall j | j in m && p(m[j]) :: j == o.id;
    } else {
      assert forall j | j in o.table && p(o.table[j]) :: j == n;
    }
    GetOrCreateFinds(o.table, n + 1, p, row, clash, o.id);
  }

  /** The database after a `get_or_create`, and the key of the row returned. */
  datatype Got = Got(store: Store, id: Id)

  // ---------------------------------------------------------------------
  // New rows under the next key. Each only adds to the database, and keeps
  // the constraints when its foreign keys exist and its unique column is
  // not taken.
  // ---------------------------------------------------------------------

  function AddSector(s: Store, row: Sector): Store {
    s.(sectores := s.sectores[s.nextId := row], nextId := s.nextId + 1)
  }

  lemma AddSectorGrows(s: Store, row: Sector)
    requires Fresh(s)
    ensures Fresh(AddSector(s, row)) && Grows(s, AddSector(s, row))
  {
  }

  lemma AddSectorKeepsValid(s: Store, row: Sector)
    requires Valid(s)
    requires forall k | k in s.sectores :: s.sectores[k].sector != row.sector
    ensures Valid(AddSector(s, row))
  {
    AddSectorGrows(s, row);
  }

  function AddUbicacion(s: Store, row: Ubicacion): Store {
    s.(ubicaciones := s.ubicaciones[s.nextId := row], nextId := s.nextId + 1)
  }

  lemma AddUbicacionGrows(s: Store, row: Ubicacion)
    requires Fresh(s)
    ensures Fresh(AddUbicacion(s, row)) && Grows(s, AddUbicacion(s, row))
  {
  }

  lemma AddUbicacionKeepsValid(s: Store, row: Ubicacion)
    requires Valid(s) && row.sector in s.sectores
    requires forall k | k in s.ubicaciones :: s.ubicaciones[k].ubicacion != row.ubicacion
    ensures Valid(AddUbicacion(s, row))
  {
    AddUbicacionGrows(s, row);
  }

  function AddPiso(s: Store, row: Piso): Store {
    s.(pisos := s.pisos[s.nextId := row], nextId := s.nextId + 1)
  }

  lemma AddPisoGrows(s: Store, row: Piso)
    requires Fresh(s)
    ensures Fresh(AddPiso(s, row)) && Grows(s, AddPiso(s, row))
  {
  }

  lemma AddPisoKeepsValid(s: Store, row: Piso)
    requires Valid(s) && row.ubicacion in s.ubicaciones
    ensures Valid(AddPiso(s, row))
  {
    AddPisoGrows(s, row);
  }

  function AddTipoLugar(s: Store, row: TipoLugar): Store {
    s.(tiposLugar := s.tiposLugar[s.nextId := row], nextId := s.nextId + 1)
  }

  lemma AddTipoLugarGrows(s: Store, row: TipoLugar)
    requires Fresh(s)
    ensures Fresh(AddTipoLugar(s, row)) && Grows(s, AddTipoLugar(s, row))
  {
  }

  lemma AddTipoLugarKeepsValid(s: Store, row: TipoLugar)
    requires Valid(s)
    requires forall k | k in s.tiposLugar :: s.tiposLugar[k].tipoDeLugar != row.tipoDeLugar
    ensures Valid(AddTipoLugar(s, row))
  {
    AddTipoLugarGrows(s, row);
  }

  function AddLugar(s: Store, row: Lugar): Store {
    s.(lugares := s.lugares[s.nextId := row], nextId := s.nextId + 1)
  }

  lemma AddLugarGrows(s: Store, row: Lugar)
    requires Fresh(s)
    ensures Fresh(AddLugar(s, row)) && Grows(s, AddLugar(s, row))
  {
  }

  lemma AddLugarKeepsValid(s: Store, row: Lugar)
    requires Valid(s) && row.piso in s.pisos && row.tipoLugar in s.tiposLugar
    ensures Valid(AddLugar(s, row))
  {
    AddLugarGrows(s, row);
  }

  function AddCategoria(s: Store, row: Categoria): Store {
    s.(categorias := s.categorias[s.nextId := row], nextId := s.nextId + 1)
  }

  lemma AddCategoriaGrows(s: Store, row: Categoria)
    requires Fresh(s)
    ensures Fresh(AddCategoria(s, row)) && Grows(s, AddCategoria(s, row))
  {
  }

  lemma AddCategoriaKeepsValid(s: Store, row: Categoria)
    requires Valid(s)
    requires forall k | k in s.categorias :: s.categorias[k].nombreDeCategoria != row.nombreDeCategoria
    ensures Valid(AddCategoria(s, row))
  {
    AddCategoriaGrows(s, row);
  }

  function AddObjeto(s: Store, row: Objeto): Store {
    s.(objetos := s.objetos[s.nextId := row], nextId := s.nextId + 1)
  }

  lemma AddObjetoGrows(s: Store, row: Objeto)
    requires Fresh(s)
    ensures Fresh(AddObjeto(s, row)) && Grows(s, AddObjeto(s, row))
  {
  }

  lemma AddObjetoKeepsValid(s: Store, row: Objeto)
    requires Valid(s) && row.categoria in s.categorias
    requires forall k | k in s.objetos :: s.objetos[k].nombreDelObjeto != row.nombreDelObjeto
    ensures Valid(AddObjeto(s, row))
  {
    AddObjetoGrows(s, row);
  }

  function AddTipoObjeto(s: Store, row: TipoObjeto): Store {
    s.(tiposObjeto := s.tiposObjeto[s.nextId := row], nextId := s.nextId + 1)
  }

  lemma AddTipoObjetoGrows(s: Store, row: TipoObjeto)
    requires Fresh(s)
    ensures Fresh(AddTipoObjeto(s, row)) && Grows(s, AddTipoObjeto(s, row))
  {
  }

  lemma AddTipoObjetoKeepsValid(s: Store, row: TipoObjeto)
    requires Valid(s) && row.objeto in s.objetos
    ensures Valid(AddTipoObjeto(s, row))
  {
    AddTipoObjetoGrows(s, row);
  }

  function AddTipico(s: Store, row: Tipico): Store {
    s.(tipicos := s.tipicos[s.nextId := row], nextId := s.nextId + 1)
  }

  lemma AddTipicoGrows(s: Store, row: Tipico)
    requires Fresh(s)
    ensures Fresh(AddTipico(s, row)) && Grows(s, AddTipico(s, row))
  {
  }

  lemma AddTipicoKeepsValid(s: Store, row: Tipico)
    requires Valid(s) && row.tipoLugar in s.tiposLugar && row.tipoObjeto in s.tiposObjeto
    requires forall k | k in s.tipicos :: s.tipicos[k].tipoLugar != row.tipoLugar || s.tipicos[k].tipoObjeto != row.tipoObjeto
    ensures Valid(AddTipico(s, row))
  {
    AddTipicoGrows(s, row);
  }

  // ---------------------------------------------------------------------
  // get_or_create per table. A row found is returned with the database
  // untouched; a row created takes the next key; a new row whose foreign
  // key names no stored row fails the FOREIGN KEY constraint.
  // ---------------------------------------------------------------------

  /** `Sector.objects.get_or_create(sector=name)`. */
  function GetOrCreateSector(s: Store, name: string): (r: Result<Got, Fault>)
    requires Fresh(s)
    ensures r.Ok? ==> Fresh(r.value.store) && Grows(s, r.value.store)
    ensures r.Err? ==> WriteFault(r.error)
    ensures r.Ok? ==>
      || (r.value.store == s && r.value.id in s.sectores && s.sectores[r.value.id].sector == name)
      || r.value == Got(AddSector(s, Sector(name)), s.nextId)
    ensures (forall k | k in s.sectores :: s.sectores[k].sector != name) <==>
      r == Ok(Got(AddSector(s, Sector(name)), s.nextId))
  {
    var o :- GetOrCreateIn(s.sectores, s.nextId, (x: Sector) => x.sector == name, Sector(name),
      (x: Sector) => x.sector == name);
    AddSectorGrows(s, Sector(name));
    if o.created then Ok(Got(AddSector(s, Sector(name)), s.nextId)) else Ok(Got(s, o.id))
  }

  /** The row returned carries the name looked up. */
  lemma GetOrCreateSectorRow(s: Store, name: string)
    requires Fresh(s)
    ensures var r := GetOrCreateSector(s, name);
      r.Ok? ==> r.value.id in r.value.store.sectores && r.value.store.sectores[r.value.id].sector == name
  {
    assert AddSector(s, Sector(name)).sectores[s.nextId] == Sector(name);
  }

  lemma GetOrCreateSectorKeepsValid(s: Store, name: string)
    requires Valid(s)
    ensures GetOrCreateSector(s, name).Ok? ==> Valid(GetOrCreateSector(s, name).value.store)
  {
    if forall k | k in s.sectores :: s.sectores[k].sector != name {
      AddSectorKeepsValid(s, Sector(name));
    }
  }

  /** `Ubicacion.objects.get_or_create(ubicacion=name, sector=sector)`: the
      name is unique on its own, so a location of that name under another
      sector makes the create fail. */
  function GetOrCreateUbicacion(s: Store, name: string, sector: Id): (r: Result<Got, Fault>)
    requires Fresh(s)
    ensures r.Ok? ==> Fresh(r.value.store) && Grows(s, r.value.store)
    ensures r.Err? ==> WriteFault(r.error)
    ensures r.Ok? ==>
      || (r.value.store == s && r.value.id in s.ubicaciones
          && s.ubicaciones[r.value.id] == Ubicacion(name, sector))
      || r.value == Got(AddUbicacion(s, Ubicacion(name, sector)), s.nextId)
    ensures (forall k | k in s.ubicaciones :: s.ubicaciones[k].ubicacion != name) && sector in s.sectores
      <==> r == Ok(Got(AddUbicacion(s, Ubicacion(name, sector)), s.nextId))
    ensures UniqueUbicacionNames(s.ubicaciones) ==>
      forall k | k in s.ubicaciones && s.ubicaciones[k].ubicacion == name && s.ubicaciones[k].sector != sector ::
        r == Err(IntegrityError)
  {
    var o :- GetOrCreateIn(s.ubicaciones, s.nextId, (x: Ubicacion) => x == Ubicacion(name, sector),
      Ubicacion(name, sector), (x: Ubicacion) => x.ubicacion == name);
    AddUbicacionGrows(s, Ubicacion(name, sector));
    if !o.created then Ok(Got(s, o.id))
    else if sector !in s.sectores then Err(IntegrityError)
    else Ok(Got(AddUbicacion(s, Ubicacion(name, sector)), s.nextId))
  }

  /** The row returned is the location looked up. */
  lemma GetOrCreateUbicacionRow(s: Store, name: string, sector: Id)
    requires Fresh(s)
    ensures var r := GetOrCreateUbicacion(s, name, sector);
      r.Ok? ==> (r.value.id in r.value.store.ubicaciones
                 && r.value.store.ubicaciones[r.value.id] == Ubicacion(name, sector))
  {
    assert AddUbicacion(s, Ubicacion(name, sector)).ubicaciones[s.nextId] == Ubicacion(name, sector);
  }

  lemma GetOrCreateUbicacionKeepsValid(s: Store, name: string, sector: Id)
    requires Valid(s)
    ensures GetOrCreateUbicacion(s, name, sector).Ok? ==>
      Valid(GetOrCreateUbicacion(s, name, sector).value.store)
  {
    if (forall k | k in s.ubicaciones :: s.ubicaciones[k].ubicacion != name) && sector in s.sectores {
      AddUbicacionKeepsValid(s, Ubicacion(name, sector));
    }
  }

  /** `Piso.objects.get_or_create(piso=n, ubicacion=ubicacion)`: floors are
      not unique, so several equal floors make the lookup fail. */
  function GetOrCreatePiso(s: Store, n: int, ubicacion: Id): (r: Result<Got, Fault>)
    requires Fresh(s)
    ensures r.Ok? ==> Fresh(r.value.store) && Grows(s, r.value.store)
    ensures r.Err? ==> WriteFault(r.error)
    ensures r.Ok? ==>
      || (r.value.store == s && r.value.id in s.pisos && s.pisos[r.value.id] == Piso(n, ubicacion))
      || r.value == Got(AddPiso(s, Piso(n, ubicacion)), s.nextId)
    ensures (forall k | k in s.pisos :: s.pisos[k] != Piso(n, ubicacion)) && ubicacion in s.ubicaciones
      <==> r == Ok(Got(AddPiso(s, Piso(n, ubicacion)), s.nextId))
    ensures r == Err(MultipleObjectsReturned) <==>
      exists a, b | a in s.pisos && b in s.pisos && a != b :: s.pisos[a] == Piso(n, ubicacion) == s.pisos[b]
  {
    var o :- GetOrCreateIn(s.pisos, s.nextId, (x: Piso) => x == Piso(n, ubicacion), Piso(n, ubicacion),
      (x: Piso) => false);
    AddPisoGrows(s, Piso(n, ubicacion));
    if !o.created then Ok(Got(s, o.id))
    else if ubicacion !in s.ubicaciones then Err(IntegrityError)
    else Ok(Got(AddPiso(s, Piso(n, ubicacion)), s.nextId))
  }

  /** The row returned is the floor looked up. */
  lemma GetOrCreatePisoRow(s: Store, n: int, ubicacion: Id)
    requires Fresh(s)
    ensures var r := GetOrCreatePiso(s, n, ubicacion);
      r.Ok? ==> r.value.id in r.value.store.pisos && r.value.store.pisos[r.value.id] == Piso(n, ubicacion)
  {
    assert AddPiso(s, Piso(n, ubicacion)).pisos[s.nextId] == Piso(n, ubicacion);
  }

  lemma GetOrCreatePisoKeepsValid(s: Store, n: int, ubicacion: Id)
    requires Valid(s)
    ensures GetOrCreatePiso(s, n, ubicacion).Ok? ==> Valid(GetOrCreatePiso(s, n, ubicacion).value.store)
  {
    if ubicacion in s.ubicaciones {
      AddPisoKeepsValid(s, Piso(n, ubicacion));
    }
  }

  /** `TipoLugar.objects.get_or_create(tipo_de_lugar=name)`. */
  function GetOrCreateTipoLugar(s: Store, name: string): (r: Result<Got, Fault>)
    requires Fresh(s)
    ensures r.Ok? ==> Fresh(r.value.store) && Grows(s, r.value.store)
    ensures r.Err? ==> WriteFault(r.error)
    ensures r.Ok? ==>
      || (r.value.store == s && r.value.id in s.tiposLugar && s.tiposLugar[r.value.id].tipoDeLugar == name)
      || r.value == Got(AddTipoLugar(s, TipoLugar(name)), s.nextId)
    ensures (forall k | k in s.tiposLugar :: s.tiposLugar[k].tipoDeLugar != name) <==>
      r == Ok(Got(AddTipoLugar(s, TipoLugar(name)), s.nextId))
  {
    var o :- GetOrCreateIn(s.tiposLugar, s.nextId, (x: TipoLugar) => x.tipoDeLugar == name, TipoLugar(name),
      (x: TipoLugar) => x.tipoDeLugar == name);
    AddTipoLugarGrows(s, TipoLugar(name));
    if o.created then Ok(Got(AddTipoLugar(s, TipoLugar(name)), s.nextId)) else Ok(Got(s, o.id))
  }

  /** The row returned carries the name looked up. */
  lemma GetOrCreateTipoLugarRow(s: Store, name: string)
    requires Fresh(s)
    ensures var r := GetOrCreateTipoLugar(s, name);
      r.Ok? ==> r.value.id in r.value.store.tiposLugar && r.value.store.tiposLugar[r.value.id].tipoDeLugar == name
  {
    assert AddTipoLugar(s, TipoLugar(name)).tiposLugar[s.nextId] == TipoLugar(name);
  }

  lemma GetOrCreateTipoLugarKeepsValid(s: Store, name: string)
    requires Valid(s)
    ensures GetOrCreateTipoLugar(s, name).Ok? ==> Valid(GetOrCreateTipoLugar(s, name).value.store)
  {
    if forall k | k in s.tiposLugar :: s.tiposLugar[k].tipoDeLugar != name {
      AddTipoLugarKeepsValid(s, TipoLugar(name));
    }
  }

  /** `CategoriaObjeto.objects.get_or_create(nombre_de_categoria=name)`. */
  function GetOrCreateCategoria(s: Store, name: string): (r: Result<Got, Fault>)
    requires Fresh(s)
    ensures r.Ok? ==> Fresh(r.value.store) && Grows(s, r.value.store)
    ensures r.Err? ==> WriteFault(r.error)
    ensures r.Ok? ==>
      || (r.value.store == s && r.value.id in s.categorias && s.categorias[r.value.id].nombreDeCategoria == name)
      || r.value == Got(AddCategoria(s, Categoria(name)), s.nextId)
    ensures (forall k | k in s.categorias :: s.categorias[k].nombreDeCategoria != name) <==>
      r == Ok(Got(AddCategoria(s, Categoria(name)), s.nextId))
  {
    var o :- GetOrCreateIn(s.categorias, s.nextId, (x: Categoria) => x.nombreDeCategoria == name,
      Categoria(name), (x: Categoria) => x.nombreDeCategoria == name);
    AddCategoriaGrows(s, Categoria(name));
    if o.created then Ok(Got(AddCategoria(s, Categoria(name)), s.nextId)) else Ok(Got(s, o.id))
  }

  /** The row returned carries the name looked up. */
  lemma GetOrCreateCategoriaRow(s: Store, name: string)
    requires Fresh(s)
    ensures var r := GetOrCreateCategoria(s, name);
      r.Ok? ==> (r.value.id in r.value.store.categorias
                 && r.value.store.categorias[r.value.id].nombreDeCategoria == name)
  {
    assert AddCategoria(s, Categoria(name)).categorias[s.nextId] == Categoria(name);
  }

  lemma GetOrCreateCategoriaKeepsValid(s: Store, name: string)
    requires Valid(s)
    ensures GetOrCreateCategoria(s, name).Ok? ==> Valid(GetOrCreateCategoria(s, name).value.store)
  {
    if forall k | k in s.categorias :: s.categorias[k].nombreDeCategoria != name {
      AddCategoriaKeepsValid(s, Categoria(name));
    }
  }

  /** `Objeto.objects.get_or_create(nombre_del_objeto=name,
      objeto_categoria=categoria)`: an object of that name under another
      category makes the create fail on the unique name. */
  function GetOrCreateObjeto(s: Store, name: string, categoria: Id): (r: Result<Got, Fault>)
    requires Fresh(s)
    ensures r.Ok? ==> Fresh(r.value.store) && Grows(s, r.value.store)
    ensures r.Err? ==> WriteFault(r.error)
    ensures r.Ok? ==>
      || (r.value.store == s && r.value.id in s.objetos && s.objetos[r.value.id] == Objeto(name, categoria))
      || r.value == Got(AddObjeto(s, Objeto(name, categoria)), s.nextId)
    ensures (forall k | k in s.objetos :: s.objetos[k].nombreDelObjeto != name) && categoria in s.categorias
      <==> r == Ok(Got(AddObjeto(s, Objeto(name, categoria)), s.nextId))
    ensures UniqueObjetoNames(s.objetos) ==>
      forall k | k in s.objetos && s.objetos[k].nombreDelObjeto == name && s.objetos[k].categoria != categoria ::
        r == Err(IntegrityError)
  {
    var o :- GetOrCreateIn(s.objetos, s.nextId, (x: Objeto) => x == Objeto(name, categoria),
      Objeto(name, categoria), (x: Objeto) => x.nombreDelObjeto == name);
    AddObjetoGrows(s, Objeto(name, categoria));
    if !o.created then Ok(Got(s, o.id))
    else if categoria !in s.categorias then Err(IntegrityError)
    else Ok(Got(AddObjeto(s, Objeto(name, categoria)), s.nextId))
  }

  /** The row returned is the object looked up. */
  lemma GetOrCreateObjetoRow(s: Store, name: string, categoria: Id)
    requires Fresh(s)
    ensures var r := GetOrCreateObjeto(s, name, categoria);
      r.Ok? ==> r.value.id in r.value.store.objetos && r.value.store.objetos[r.value.id] == Objeto(name, categoria)
  {
    assert AddObjeto(s, Objeto(name, categoria)).objetos[s.nextId] == Objeto(name, categoria);
  }

  lemma GetOrCreateObjetoKeepsValid(s: Store, name: string, categoria: Id)
    requires Valid(s)
    ensures GetOrCreateObjeto(s, name, categoria).Ok? ==> Valid(GetOrCreateObjeto(s, name, categoria).value.store)
  {
    if (forall k | k in s.objetos :: s.objetos[k].nombreDelObjeto != name) && categoria in s.categorias {
      AddObjetoKeepsValid(s, Objeto(name, categoria));
    }
  }

  /** `Objeto.objects.get_or_create(nombre_del_objeto=name,
      defaults={"objeto_categoria": categoria})`: looked up by name alone,
      so an object found keeps whatever category it has. */
  function GetOrCreateObjetoNamed(s: Store, name: string, categoria: Id): (r: Result<Got, Fault>)
    requires Fresh(s)
    ensures r.Ok? ==> Fresh(r.value.store) && Grows(s, r.value.store)
    ensures r.Err? ==> WriteFault(r.error)
    ensures r.Ok? ==>
      || (r.value.store == s && r.value.id in s.objetos && s.objetos[r.value.id].nombreDelObjeto == name)
      || r.value == Got(AddObjeto(s, Objeto(name, categoria)), s.nextId)
    ensures (forall k | k in s.objetos :: s.objetos[k].nombreDelObjeto != name) && categoria in s.categorias
      <==> r == Ok(Got(AddObjeto(s, Objeto(name, categoria)), s.nextId))
    ensures UniqueObjetoNames(s.objetos) ==> forall k | k in s.objetos && s.objetos[k].nombreDelObjeto == name ::
      r == Ok(Got(s, k))
  {
    var o :- GetOrCreateIn(s.objetos, s.nextId, (x: Objeto) => x.nombreDelObjeto == name,
      Objeto(name, categoria), (x: Objeto) => x.nombreDelObjeto == name);
    AddObjetoGrows(s, Objeto(name, categoria));
    if !o.created then Ok(Got(s, o.id))
    else if categoria !in s.categorias then Err(IntegrityError)
    else Ok(Got(AddObjeto(s, Objeto(name, categoria)), s.nextId))
  }

  lemma GetOrCreateObjetoNamedKeepsValid(s: Store, name: string, categoria: Id)
    requires Valid(s)
    ensures GetOrCreateObjetoNamed(s, name, categoria).Ok? ==>
      Valid(GetOrCreateObjetoNamed(s, name, categoria).value.store)
  {
    if (forall k | k in s.objetos :: s.objetos[k].nombreDelObjeto != name) && categoria in s.categorias {
      AddObjetoKeepsValid(s, Objeto(name, categoria));
    }
  }

  /** `TipoObjeto.objects.get_or_create(objeto=objeto, marca=marca,
      material=material)` with text values: a stored NULL brand or material
      does not match an empty text. */
  function GetOrCreateTipoObjeto(s: Store, objeto: Id, marca: string, material: string): (r: Result<Got, Fault>)
    requires Fresh(s)
    ensures r.Ok? ==> Fresh(r.value.store) && Grows(s, r.value.store)
    ensures r.Err? ==> WriteFault(r.error)
    ensures r.Ok? ==>
      || (r.value.store == s && r.value.id in s.tiposObjeto
          && s.tiposObjeto[r.value.id] == TipoObjeto(objeto, Some(marca), Some(material)))
      || r.value == Got(AddTipoObjeto(s, TipoObjeto(objeto, Some(marca), Some(material))), s.nextId)
    ensures (forall k | k in s.tiposObjeto :: s.tiposObjeto[k] != TipoObjeto(objeto, Some(marca), Some(material)))
      && objeto in s.objetos
      <==> r == Ok(Got(AddTipoObjeto(s, TipoObjeto(objeto, Some(marca), Some(material))), s.nextId))
  {
    var row := TipoObjeto(objeto, Some(marca), Some(material));
    var o :- GetOrCreateIn(s.tiposObjeto, s.nextId, (x: TipoObjeto) => x == row, row, (x: TipoObjeto) => false);
    AddTipoObjetoGrows(s, row);
    if !o.created then Ok(Got(s, o.id))
    else if objeto !in s.objetos then Err(IntegrityError)
    else Ok(Got(AddTipoObjeto(s, row), s.nextId))
  }

  /** The row returned is the kind looked up. */
  lemma GetOrCreateTipoObjetoRow(s: Store, objeto: Id, marca: string, material: string)
    requires Fresh(s)
    ensures var r := GetOrCreateTipoObjeto(s, objeto, marca, material);
      r.Ok? ==> (r.value.id in r.value.store.tiposObjeto
                 && r.value.store.tiposObjeto[r.value.id] == TipoObjeto(objeto, Some(marca), Some(material)))
  {
    var row := TipoObjeto(objeto, Some(marca), Some(material));
    assert AddTipoObjeto(s, row).tiposObjeto[s.nextId] == row;
  }

  lemma GetOrCreateTipoObjetoKeepsValid(s: Store, objeto: Id, marca: string, material: string)
    requires Valid(s)
    ensures GetOrCreateTipoObjeto(s, objeto, marca, material).Ok? ==>
      Valid(GetOrCreateTipoObjeto(s, objeto, marca, material).value.store)
  {
    if objeto in s.objetos {
      AddTipoObjetoKeepsValid(s, TipoObjeto(objeto, Some(marca), Some(material)));
    }
  }

  /** `TipoLugarObjetoTipico.objects.get_or_create(tipo_lugar=tl,
      tipo_objeto=to, defaults={"activo": True, "orden": orden})`: a link
      found is left as it is, inactive or not. */
  function GetOrCreateTipico(s: Store, tl: Id, to: Id, orden: nat): (r: Result<Got, Fault>)
    requires Fresh(s)
    ensures r.Ok? ==> Fresh(r.value.store) && Grows(s, r.value.store)
    ensures r.Err? ==> WriteFault(r.error)
    ensures r.Ok? ==>
      || (r.value.store == s && r.value.id in s.tipicos
          && s.tipicos[r.value.id].tipoLugar == tl && s.tipicos[r.value.id].tipoObjeto == to)
      || r.value == Got(AddTipico(s, Tipico(tl, to, true, orden)), s.nextId)
    ensures (forall k | k in s.tipicos :: s.tipicos[k].tipoLugar != tl || s.tipicos[k].tipoObjeto != to)
      && tl in s.tiposLugar && to in s.tiposObjeto
      <==> r == Ok(Got(AddTipico(s, Tipico(tl, to, true, orden)), s.nextId))
  {
    var o :- GetOrCreateIn(s.tipicos, s.nextId, (x: Tipico) => x.tipoLugar == tl && x.tipoObjeto == to,
      Tipico(tl, to, true, orden), (x: Tipico) => x.tipoLugar == tl && x.tipoObjeto == to);
    AddTipicoGrows(s, Tipico(tl, to, true, orden));
    if !o.created then Ok(Got(s, o.id))
    else if tl !in s.tiposLugar || to !in s.tiposObjeto then Err(IntegrityError)
    else Ok(Got(AddTipico(s, Tipico(tl, to, true, orden)), s.nextId))
  }

  lemma GetOrCreateTipicoKeepsValid(s: Store, tl: Id, to: Id, orden: nat)
    requires Valid(s)
    ensures GetOrCreateTipico(s, tl, to, orden).Ok? ==> Valid(GetOrCreateTipico(s, tl, to, orden).value.store)
  {
    if (forall k | k in s.tipicos :: s.tipicos[k].tipoLugar != tl || s.tipicos[k].tipoObjeto != to)
      && tl in s.tiposLugar && to in s.tiposObjeto {
      AddTipicoKeepsValid(s, Tipico(tl, to, true, orden));
    }
  }

  /** `Lugar.objects.create(...)`: always a new row; its floor and room type
      must exist. */
  function CreateLugar(s: Store, row: Lugar): (r: Result<Got, Fault>)
    requires Fresh(s)
    ensures r.Ok? ==> Fresh(r.value.store) && Grows(s, r.value.store)
    ensures r.Err? ==> WriteFault(r.error)
    ensures r.Ok? <==> row.piso in s.pisos && row.tipoLugar in s.tiposLugar
    ensures r.Ok? ==> r.value == Got(AddLugar(s, row), s.nextId) && s.nextId !in s.lugares
    ensures r.Err? ==> r.error == IntegrityError
  {
    AddLugarGrows(s, row);
    if row.piso !in s.pisos || row.tipoLugar !in s.tiposLugar then Err(IntegrityError)
    else Ok(Got(AddLugar(s, row), s.nextId))
  }

  lemma CreateLugarKeepsValid(s: Store, row: Lugar)
    requires Valid(s)
    ensures CreateLugar(s, row).Ok? ==> Valid(CreateLugar(s, row).value.store)
  {
    if row.piso in s.pisos && row.tipoLugar in s.tiposLugar {
      AddLugarKeepsValid(s, row);
    }
  }
}
