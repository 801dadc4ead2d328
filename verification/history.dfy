/** `ObjetoLugar.save`: saving a placed item inserts it, or updates it and,
    when quantity, condition or detail changed, records one snapshot of the
    values it had before (models.py:181-208). */
module History {
  import opened Wrappers
  import opened Text
  import opened Models

  /** An `ObjetoLugar` instance as the caller holds it when calling `save()`.
      `detalle` can hold `None` in Python even though the column cannot. */
  datatype Instance = Instance(
    pk: Option<Id>,
    cantidad: int,
    estado: string,
    detalle: Option<string>,
    fecha: Date,
    lugar: Option<Id>,
    tipoDeObjeto: Option<Id>)

  /** The outcome of a save: the new database and the key of the row written. */
  datatype Saved = Saved(store: Store, id: Id)

  /** `hubo_cambio`: quantity, condition or detail differ from the stored row;
      a NULL detail compares as the empty text. */
  predicate HuboCambio(anterior: ObjetoLugar, x: Instance) {
    || anterior.cantidad != x.cantidad
    || anterior.estado != x.estado
    || OrEmpty(Some(anterior.detalle)) != OrEmpty(x.detalle)
  }

  /** The constraints the database checks on the written row: the NOT NULL
      detail column and the two nullable foreign keys. */
  predicate Writable(s: Store, x: Instance) {
    && x.detalle.Some?
    && (x.lugar.Some? ==> x.lugar.value in s.lugares)
    && (x.tipoDeObjeto.Some? ==> x.tipoDeObjeto.value in s.tiposObjeto)
  }

  /** The row `super().save()` writes for `x`, with the date column given. */
  function RowOf(x: Instance, fecha: Date): ObjetoLugar
    requires x.detalle.Some?
  {
    ObjetoLugar(x.cantidad, x.estado, x.detalle.value, fecha, x.lugar, x.tipoDeObjeto)
  }

  /** The snapshot the update branch records: the previous values, the
      previous date copied verbatim. */
  function Snapshot(id: Id, anterior: ObjetoLugar): Historico {
    Historico(id, anterior.cantidad, anterior.estado, OrEmpty(Some(anterior.detalle)), anterior.fecha)
  }

  /** Every item other than `id` is still stored, unchanged. */
  predicate OthersKept(s: Store, t: Store, id: Id) {
    forall k | k in s.items && k != id :: k in t.items && t.items[k] == s.items[k]
  }

  /** The insert branch of `save()`: the row gets the next key and is dated
      `today` (`auto_now_add`); nothing is recorded in the history. */
  function Insert(s: Store, x: Instance, today: Date): (r: Result<Saved, Fault>)
    requires Fresh(s)
    ensures r.Ok? <==> Writable(s, x)
    ensures r.Err? ==> r.error == IntegrityError
    ensures r.Ok? ==> r.value == Saved(AddItem(s, RowOf(x, today)), s.nextId)
    ensures r.Ok? ==>
      && SameOutsideItems(s, r.value.store)
      && r.value.id !in s.items
      && r.value.store.items.Keys == s.items.Keys + {r.value.id}
      && r.value.store.items[r.value.id] == RowOf(x, today)
      && OthersKept(s, r.value.store, r.value.id)
      && r.value.store.historicos == s.historicos
  {
    if !Writable(s, x) then Err(IntegrityError)
    else
      Ok(Saved(AddItem(s, RowOf(x, today)), s.nextId))
  }

  /** The update branch of `save()`: the stored row is read first
      (`DoesNotExist` if it is gone), then overwritten with the submitted
      values, date included; a snapshot of the old values is appended when
      a tracked field changed. */
  function Update(s: Store, id: Id, x: Instance): (r: Result<Saved, Fault>)
    ensures id !in s.items ==> r == Err(DoesNotExist)
    ensures id in s.items ==> (r.Ok? <==> Writable(s, x))
    ensures r.Ok? ==>
      && SameOutsideItems(s, r.value.store)
      && r.value.id == id
      && r.value.store.items.Keys == s.items.Keys
      && r.value.store.items[id] == RowOf(x, x.fecha)
      && OthersKept(s, r.value.store, id)
    ensures r.Ok? && !HuboCambio(s.items[id], x) ==> r.value.store.historicos == s.historicos
    ensures r.Ok? && HuboCambio(s.items[id], x) ==>
      r.value.store.historicos == s.historicos + [Snapshot(id, s.items[id])]
  {
    if id !in s.items then Err(DoesNotExist)
    else if !Writable(s, x) then Err(IntegrityError)
    else
      var anterior := s.items[id];
      var updated := WithItem(s, id, RowOf(x, x.fecha));
      if HuboCambio(anterior, x) then
        Ok(Saved(AddSnapshot(updated, Snapshot(id, anterior)), id))
      else
        Ok(Saved(updated, id))
  }

  /** `ObjetoLugar.save()`: insert without a key, update with one. Either
      way no other item changes, and the history keeps every snapshot and
      gains at most one. A failed write leaves the database as it was
      (`transaction.atomic`). */
  function Save(s: Store, x: Instance, today: Date): (r: Result<Saved, Fault>)
    requires Fresh(s)
    ensures x.pk.None? ==> r == Insert(s, x, today)
    ensures x.pk.Some? ==> r == Update(s, x.pk.value, x)
    ensures r.Ok? ==> r.value.id in r.value.store.items && OthersKept(s, r.value.store, r.value.id)
    ensures r.Ok? ==>
      && s.historicos <= r.value.store.historicos
      && |r.value.store.historicos| <= |s.historicos| + 1
  {
    if x.pk.Some? then Update(s, x.pk.value, x) else Insert(s, x, today)
  }

  /** A successful insert keeps the declared constraints. */
  lemma InsertKeepsValid(s: Store, x: Instance, today: Date)
    requires Valid(s)
    ensures Insert(s, x, today).Ok? ==> Valid(Insert(s, x, today).value.store)
  {
    if Writable(s, x) {
      InsertItemKeepsValid(s, RowOf(x, today));
    }
  }

  /** A successful update keeps the declared constraints: the snapshot it
      may append names the updated item. */
  lemma UpdateKeepsValid(s: Store, id: Id, x: Instance)
    requires Valid(s)
    ensures Update(s, id, x).Ok? ==> Valid(Update(s, id, x).value.store)
  {
    if id in s.items && Writable(s, x) {
      var updated := WithItem(s, id, RowOf(x, x.fecha));
      WriteItemKeepsValid(s, id, RowOf(x, x.fecha));
      if HuboCambio(s.items[id], x) {
        AppendHistoryKeepsValid(updated, Snapshot(id, s.items[id]));
      }
    }
  }

  /** A successful save leaves a database the declared constraints admit. */
  lemma SaveKeepsValid(s: Store, x: Instance, today: Date)
    requires Valid(s)
    ensures Save(s, x, today).Ok? ==> Valid(Save(s, x, today).value.store)
  {
    if x.pk.None? {
      InsertKeepsValid(s, x, today);
    } else {
      UpdateKeepsValid(s, x.pk.value, x);
    }
  }

  /** The instance an edit form starts from: the stored row under its key. */
  function Load(s: Store, id: Id): (x: Instance)
    requires id in s.items
    ensures x.pk == Some(id) && x.detalle.Some?
    ensures RowOf(x, x.fecha) == s.items[id]
  {
    var row := s.items[id];
    Instance(Some(id), row.cantidad, row.estado, Some(row.detalle), row.fecha, row.lugar, row.tipoDeObjeto)
  }

  /** Saving a loaded row unchanged is a no-op: same database, no snapshot. */
  lemma SaveLoadedIsNoOp(s: Store, id: Id, today: Date)
    requires Valid(s) && id in s.items
    ensures Save(s, Load(s, id), today) == Ok(Saved(s, id))
  {
    var x := Load(s, id);
    assert !HuboCambio(s.items[id], x);
    assert s.items[id := RowOf(x, x.fecha)] == s.items;
  }

  /** Moving an item to another room or kind is not a tracked change: the
      row is rewritten, no snapshot is recorded. */
  lemma MoveIsNotTracked(s: Store, id: Id, lugar: Option<Id>, tipo: Option<Id>, today: Date)
    requires Valid(s) && id in s.items
    requires lugar.Some? ==> lugar.value in s.lugares
    requires tipo.Some? ==> tipo.value in s.tiposObjeto
    ensures var x := Load(s, id).(lugar := lugar, tipoDeObjeto := tipo);
      && Save(s, x, today).Ok?
      && Save(s, x, today).value.store.historicos == s.historicos
      && Save(s, x, today).value.store.items[id].lugar == lugar
  {
  }

  /** A NULL detail and an empty one are the same for change detection. */
  lemma NullDetailEqualsEmpty(anterior: ObjetoLugar, x: Instance)
    requires x.detalle.None?
    ensures HuboCambio(anterior, x) <==> HuboCambio(anterior, x.(detalle := Some("")))
  {
  }

  /** The date column is never advanced by an edit: editing a loaded row's
      tracked fields keeps its date, and the snapshot carries the old one. */
  lemma EditKeepsFecha(s: Store, id: Id, cantidad: int, estado: string, detalle: string, today: Date)
    requires Valid(s) && id in s.items
    ensures var x := Load(s, id).(cantidad := cantidad, estado := estado, detalle := Some(detalle));
      var r := Save(s, x, today);
      && r.Ok?
      && r.value.store.items[id].fecha == s.items[id].fecha
      && (|r.value.store.historicos| == |s.historicos| + 1 ==>
            r.value.store.historicos[|s.historicos|].fechaAnterior == s.items[id].fecha)
  {
  }

  /** Saving with a NULL detail always fails, in both branches, and so
      never records a snapshot. */
  lemma NullDetailIsRejected(s: Store, x: Instance, today: Date)
    requires Valid(s) && x.detalle.None?
    ensures Save(s, x, today).Err?
  {
  }

  /** Worked example: (5, B, "ok") edited to (3, P, "ok") keeps one
      snapshot (5, B, "ok"), and the row now holds (3, P, "ok"). */
  lemma ExampleChangeRecorded(s: Store, id: Id, today: Date)
    requires Valid(s) && id in s.items
    requires s.items[id].cantidad == 5 && s.items[id].estado == BUENO && s.items[id].detalle == "ok"
    ensures var x := Load(s, id).(cantidad := 3, estado := PENDIENTE);
      var r := Save(s, x, today);
      && r.Ok?
      && r.value.store.historicos == s.historicos + [Historico(id, 5, BUENO, "ok", s.items[id].fecha)]
      && r.value.store.items[id].cantidad == 3 && r.value.store.items[id].estado == PENDIENTE
      && r.value.store.items[id].detalle == "ok"
  {
  }
}
