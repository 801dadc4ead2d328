/** Deleting a row, as the foreign keys declared in models.py decide it:
    a RESTRICT key that still points at the row blocks the delete, a
    CASCADE key deletes the rows that point at it along with it. */
module Deletion {
  import opened Wrappers
  import opened Models

  /** The tables a delete can start from. */
  datatype Table =
    | SectorTable | UbicacionTable | PisoTable | TipoLugarTable | LugarTable
    | CategoriaTable | ObjetoTable | TipoObjetoTable | TipicoTable | ItemTable

  /** Row `id` of table `t` is stored. */
  predicate Has(s: Store, t: Table, id: Id) {
    match t
    case SectorTable => id in s.sectores
    case UbicacionTable => id in s.ubicaciones
    case PisoTable => id in s.pisos
    case TipoLugarTable => id in s.tiposLugar
    case LugarTable => id in s.lugares
    case CategoriaTable => id in s.categorias
    case ObjetoTable => id in s.objetos
    case TipoObjetoTable => id in s.tiposObjeto
    case TipicoTable => id in s.tipicos
    case ItemTable => id in s.items
  }

  /** Some row points at row `id` of table `t` through a RESTRICT key
      (models.py:18, 31, 52, 57, 86, 98, 151, 160). Typical-object rows and
      history rows are only reached through CASCADE keys, and nothing points
      at a typical-object row or at a history row. */
  predicate Restricted(s: Store, t: Table, id: Id) {
    match t
    case SectorTable => exists k | k in s.ubicaciones :: s.ubicaciones[k].sector == id
    case UbicacionTable => exists k | k in s.pisos :: s.pisos[k].ubicacion == id
    case PisoTable => exists k | k in s.lugares :: s.lugares[k].piso == id
    case TipoLugarTable => exists k | k in s.lugares :: s.lugares[k].tipoLugar == id
    case LugarTable => exists k | k in s.items :: s.items[k].lugar == Some(id)
    case CategoriaTable => exists k | k in s.objetos :: s.objetos[k].categoria == id
    case ObjetoTable => exists k | k in s.tiposObjeto :: s.tiposObjeto[k].objeto == id
    case TipoObjetoTable => exists k | k in s.items :: s.items[k].tipoDeObjeto == Some(id)
    case TipicoTable => false
    case ItemTable => false
  }

  /** The typical-object rows that survive deleting room type `tl`. */
  function TipicosWithoutLugar(m: map<Id, Tipico>, tl: Id): (r: map<Id, Tipico>)
    ensures forall k :: k in r <==> k in m && m[k].tipoLugar != tl
    ensures forall k | k in r :: r[k] == m[k]
  {
    map k | k in m && m[k].tipoLugar != tl :: m[k]
  }

  /** The typical-object rows that survive deleting object kind `to`. */
  function TipicosWithoutObjeto(m: map<Id, Tipico>, to: Id): (r: map<Id, Tipico>)
    ensures forall k :: k in r <==> k in m && m[k].tipoObjeto != to
    ensures forall k | k in r :: r[k] == m[k]
  {
    map k | k in m && m[k].tipoObjeto != to :: m[k]
  }

  /** The history without the snapshots of item `id`, in the same order. */
  function DropHistory(hs: seq<Historico>, id: Id): (r: seq<Historico>)
    ensures |r| <= |hs|
    ensures forall i | 0 <= i < |r| :: r[i].objetoDelLugar != id
    ensures forall h :: h in r <==> h in hs && h.objetoDelLugar != id
  {
    if hs == [] then []
    else if hs[0].objetoDelLugar == id then DropHistory(hs[1..], id)
    else [hs[0]] + DropHistory(hs[1..], id)
  }

  /** Dropping keeps the order of the other snapshots: dropping from two
      runs gives what is left of the first followed by what is left of the
      second. */
  lemma {:induction false} DropHistoryAppend(a: seq<Historico>, b: seq<Historico>, id: Id)
    ensures DropHistory(a + b, id) == DropHistory(a, id) + DropHistory(b, id)
    decreases |a|
  {
    if a == [] {
      assert a + b == b;
    } else {
      assert (a + b)[0] == a[0] && (a + b)[1..] == a[1..] + b;
      DropHistoryAppend(a[1..], b, id);
    }
  }

  /** `DropHistory` keeps a history that holds no snapshot of `id`. */
  lemma {:induction false} DropHistoryKeepsOthers(hs: seq<Historico>, id: Id)
    requires forall i | 0 <= i < |hs| :: hs[i].objetoDelLugar != id
    ensures DropHistory(hs, id) == hs
  {
    if hs != [] {
      DropHistoryKeepsOthers(hs[1..], id);
      assert hs == [hs[0]] + hs[1..];
    }
  }

  /** The row removed, with the rows its CASCADE keys take along: the
      typical-object rows of a room type or an object kind
      (models.py:115, 121) and the snapshots of an item (models.py:218). */
  function Remove(s: Store, t: Table, id: Id): Store {
    match t
    case SectorTable => s.(sectores := s.sectores - {id})
    case UbicacionTable => s.(ubicaciones := s.ubicaciones - {id})
    case PisoTable => s.(pisos := s.pisos - {id})
    case TipoLugarTable =>
      s.(tiposLugar := s.tiposLugar - {id}, tipicos := TipicosWithoutLugar(s.tipicos, id))
    case LugarTable => s.(lugares := s.lugares - {id})
    case CategoriaTable => s.(categorias := s.categorias - {id})
    case ObjetoTable => s.(objetos := s.objetos - {id})
    case TipoObjetoTable =>
      s.(tiposObjeto := s.tiposObjeto - {id}, tipicos := TipicosWithoutObjeto(s.tipicos, id))
    case TipicoTable => s.(tipicos := s.tipicos - {id})
    case ItemTable => s.(items := s.items - {id}, historicos := DropHistory(s.historicos, id))
  }

  /** `obj.delete()` on a fetched row: a missing row is `DoesNotExist` (the
      lookup before the delete), a row still reached through a RESTRICT key
      is `RestrictedError`, and otherwise the row and its CASCADE dependants
      go. */
  function Delete(s: Store, t: Table, id: Id): (r: Result<Store, Fault>)
    ensures !Has(s, t, id) ==> r == Err(DoesNotExist)
    ensures Has(s, t, id) && Restricted(s, t, id) ==> r == Err(RestrictedError)
    ensures r.Ok? <==> Has(s, t, id) && !Restricted(s, t, id)
  {
    if !Has(s, t, id) then Err(DoesNotExist)
    else if Restricted(s, t, id) then Err(RestrictedError)
    else Ok(Remove(s, t, id))
  }

  /** The keys stored in table `u`. */
  function KeysOf(s: Store, u: Table): set<Id> {
    match u
    case SectorTable => s.sectores.Keys
    case UbicacionTable => s.ubicaciones.Keys
    case PisoTable => s.pisos.Keys
    case TipoLugarTable => s.tiposLugar.Keys
    case LugarTable => s.lugares.Keys
    case CategoriaTable => s.categorias.Keys
    case ObjetoTable => s.objetos.Keys
    case TipoObjetoTable => s.tiposObjeto.Keys
    case TipicoTable => s.tipicos.Keys
    case ItemTable => s.items.Keys
  }

  /** The typical-object rows that hang from row `id` of table `t` through a
      CASCADE key. */
  function Dependants(s: Store, t: Table, id: Id): set<Id> {
    match t
    case TipoLugarTable => set k | k in s.tipicos && s.tipicos[k].tipoLugar == id
    case TipoObjetoTable => set k | k in s.tipicos && s.tipicos[k].tipoObjeto == id
    case _ => {}
  }

  /** What deleting row `id` of table `t` takes out of table `u`. */
  function Removed(s: Store, t: Table, id: Id, u: Table): set<Id> {
    (if u == t then {id} else {}) + (if u == TipicoTable then Dependants(s, t, id) else {})
  }

  /** Every row of `a` is stored unchanged in `b`, and every snapshot of `a`
      is one of `b`. */
  predicate SubStore(a: Store, b: Store) {
    && Keeps(a.sectores, b.sectores) && Keeps(a.ubicaciones, b.ubicaciones)
    && Keeps(a.pisos, b.pisos) && Keeps(a.tiposLugar, b.tiposLugar)
    && Keeps(a.lugares, b.lugares) && Keeps(a.categorias, b.categorias)
    && Keeps(a.objetos, b.objetos) && Keeps(a.tiposObjeto, b.tiposObjeto)
    && Keeps(a.tipicos, b.tipicos) && Keeps(a.items, b.items)
    && (forall h :: h in a.historicos ==> h in b.historicos)
  }

  /** A delete removes from each table exactly the row itself and its
      CASCADE dependants, and nothing else. */
  lemma DeleteRemovesExactly(s: Store, t: Table, id: Id, u: Table)
    requires Delete(s, t, id).Ok?
    ensures KeysOf(Delete(s, t, id).value, u) == KeysOf(s, u) - Removed(s, t, id, u)
  {
    RemoveRemovesExactly(s, t, id, u);
  }

  /** Removing a row takes from table `u` exactly what the delete takes. */
  lemma RemoveRemovesExactly(s: Store, t: Table, id: Id, u: Table)
    ensures KeysOf(Remove(s, t, id), u) == KeysOf(s, u) - Removed(s, t, id, u)
  {
    if u == TipicoTable {
      match t
      case TipoLugarTable =>
        assert KeysOf(Remove(s, t, id), u) == TipicosWithoutLugar(s.tipicos, id).Keys;
      case TipoObjetoTable =>
        assert KeysOf(Remove(s, t, id), u) == TipicosWithoutObjeto(s.tipicos, id).Keys;
      case _ =>
    }
  }

  /** The rows a delete leaves are the rows that were there, unchanged. */
  lemma DeleteKeepsRows(s: Store, t: Table, id: Id)
    requires Delete(s, t, id).Ok?
    ensures SubStore(Delete(s, t, id).value, s)
  {
    RemoveKeepsRows(s, t, id);
  }

  /** Removing a row and its dependants only takes rows away. */
  lemma RemoveKeepsRows(s: Store, t: Table, id: Id)
    ensures SubStore(Remove(s, t, id), s)
  {
    var r := Remove(s, t, id);
    match t
    case SectorTable => assert Keeps(r.sectores, s.sectores);
    case UbicacionTable => assert Keeps(r.ubicaciones, s.ubicaciones);
    case PisoTable => assert Keeps(r.pisos, s.pisos);
    case TipoLugarTable => assert Keeps(r.tiposLugar, s.tiposLugar) && Keeps(r.tipicos, s.tipicos);
    case LugarTable => assert Keeps(r.lugares, s.lugares);
    case CategoriaTable => assert Keeps(r.categorias, s.categorias);
    case ObjetoTable => assert Keeps(r.objetos, s.objetos);
    case TipoObjetoTable => assert Keeps(r.tiposObjeto, s.tiposObjeto) && Keeps(r.tipicos, s.tipicos);
    case TipicoTable => assert Keeps(r.tipicos, s.tipicos);
    case ItemTable => assert Keeps(r.items, s.items);
  }

  /** Deleting an item drops exactly its snapshots and keeps the others in
      order; any other delete leaves the history as it was. The key counter
      never moves back. */
  lemma DeleteHistory(s: Store, t: Table, id: Id)
    requires Delete(s, t, id).Ok?
    ensures t == ItemTable ==> Delete(s, t, id).value.historicos == DropHistory(s.historicos, id)
    ensures t != ItemTable ==> Delete(s, t, id).value.historicos == s.historicos
    ensures Delete(s, t, id).value.nextId == s.nextId
  {
  }

  /** The history left by `DropHistory` only names items other than `id`
      that were named before. */
  lemma {:induction false} DropHistoryKeepsRefs(hs: seq<Historico>, items: map<Id, ObjetoLugar>, id: Id)
    requires HistoryItems(hs, items)
    ensures HistoryItems(DropHistory(hs, id), items - {id})
  {
    if hs != [] {
      DropHistoryKeepsRefs(hs[1..], items, id);
      assert HistoryItems(hs[1..], items) by {
        forall i | 0 <= i < |hs| - 1 ensures hs[1..][i].objetoDelLugar in items {
          assert hs[1..][i] == hs[i + 1];
        }
      }
      if hs[0].objetoDelLugar != id {
        var r := [hs[0]] + DropHistory(hs[1..], id);
        forall i | 0 <= i < |r| ensures r[i].objetoDelLugar in items - {id} {
          if i > 0 {
            assert r[i] == DropHistory(hs[1..], id)[i - 1];
          }
        }
      }
    }
  }

  /** Removing a room-hierarchy row that nothing points at keeps the
      constraints. */
  lemma RemoveHierarchyKeepsValid(s: Store, t: Table, id: Id)
    requires Valid(s) && Has(s, t, id) && !Restricted(s, t, id)
    requires t.SectorTable? || t.UbicacionTable? || t.PisoTable? || t.LugarTable?
    ensures Valid(Remove(s, t, id))
  {
  }

  /** Removing a category, an object or a typical-object row that no
      RESTRICT key points at keeps the constraints. */
  lemma RemoveCatalogKeepsValid(s: Store, t: Table, id: Id)
    requires Valid(s) && Has(s, t, id) && !Restricted(s, t, id)
    requires t.CategoriaTable? || t.ObjetoTable? || t.TipicoTable?
    ensures Valid(Remove(s, t, id))
  {
  }

  /** Removing a room type or a kind that no RESTRICT key points at keeps
      the constraints: the typical-object rows naming it go with it. */
  lemma RemoveCascadingKeepsValid(s: Store, t: Table, id: Id)
    requires Valid(s) && Has(s, t, id) && !Restricted(s, t, id)
    requires t.TipoLugarTable? || t.TipoObjetoTable?
    ensures Valid(Remove(s, t, id))
  {
  }

  /** Removing an item keeps the constraints: its snapshots go with it. */
  lemma RemoveItemKeepsValid(s: Store, id: Id)
    requires Valid(s) && Has(s, ItemTable, id)
    ensures Valid(Remove(s, ItemTable, id))
  {
    DropHistoryKeepsRefs(s.historicos, s.items, id);
  }

  /** A delete the database allows leaves a database the declared
      constraints admit: a RESTRICT key never dangles, and the rows a
      CASCADE key would leave dangling go with the deleted row. */
  lemma DeleteKeepsValid(s: Store, t: Table, id: Id)
    requires Valid(s)
    ensures Delete(s, t, id).Ok? ==> Valid(Delete(s, t, id).value)
  {
    if Has(s, t, id) && !Restricted(s, t, id) {
      if t.ItemTable? {
        RemoveItemKeepsValid(s, id);
      } else if t.SectorTable? || t.UbicacionTable? || t.PisoTable? || t.LugarTable? {
        RemoveHierarchyKeepsValid(s, t, id);
      } else if t.TipoLugarTable? || t.TipoObjetoTable? {
        RemoveCascadingKeepsValid(s, t, id);
      } else {
        RemoveCatalogKeepsValid(s, t, id);
      }
    }
  }

  /** Deleting an item right after inserting it undoes the insert: only the
      key counter remembers it. */
  lemma DeleteUndoesInsert(s: Store, row: ObjetoLugar)
    requires Fresh(s) && HistoryItems(s.historicos, s.items)
    ensures Delete(AddItem(s, row), ItemTable, s.nextId) == Ok(s.(nextId := s.nextId + 1))
  {
    var t := AddItem(s, row);
    assert !Restricted(t, ItemTable, s.nextId);
    assert t.items - {s.nextId} == s.items;
    DropHistoryKeepsOthers(s.historicos, s.nextId);
  }
}
