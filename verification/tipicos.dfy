/** The typical objects of a room type: replacing the whole list from the
    type's page (views.py:819-842) and seeding it once from the built-in
    table (views.py:1745-1885). */
module Tipicos {
  import opened Wrappers
  import opened Models
  import opened Catalog
  import Deletion

  // ---------------------------------------------------------------------
  // Replacing the list (`detalle_tipo_lugar` on a POST)
  // ---------------------------------------------------------------------

  /** The posted values `int()` accepts, in posted order; `parse` stands for
      `int()` and gives `None` where it raises. */
  function Survivors(raw: seq<string>, parse: string -> Option<int>): (ids: seq<int>)
    ensures |ids| <= |raw|
    ensures forall x :: x in ids <==> exists i | 0 <= i < |raw| :: parse(raw[i]) == Some(x)
  {
    if raw == [] then []
    else
      var rest := Survivors(raw[1..], parse);
      assert forall i | 0 < i < |raw| :: raw[i] == raw[1..][i - 1];
      match parse(raw[0])
      case None => rest
      case Some(x) => [x] + rest
  }

  /** One posted value survives, as its number, iff it parses. */
  lemma SurvivorsOne(v: string, parse: string -> Option<int>)
    ensures Survivors([v], parse) == if parse(v).Some? then [parse(v).value] else []
  {
    assert [v][1..] == [];
  }

  /** Survivors keep the posted order and multiplicity: the survivors of two
      runs of values are those of the first followed by those of the second. */
  lemma {:induction false} SurvivorsAppend(a: seq<string>, b: seq<string>, parse: string -> Option<int>)
    ensures Survivors(a + b, parse) == Survivors(a, parse) + Survivors(b, parse)
    decreases |a|
  {
    if a == [] {
      assert a + b == b;
    } else {
      assert (a + b)[0] == a[0] && (a + b)[1..] == a[1..] + b;
      SurvivorsAppend(a[1..], b, parse);
    }
  }

  /** When every value parses, nothing is dropped and the order is kept. */
  lemma {:induction false} SurvivorsAllParse(raw: seq<string>, parse: string -> Option<int>)
    requires forall i | 0 <= i < |raw| :: parse(raw[i]).Some?
    ensures |Survivors(raw, parse)| == |raw|
    ensures forall i | 0 <= i < |raw| :: Survivors(raw, parse)[i] == parse(raw[i]).value
  {
    if raw != [] {
      assert forall i | 0 <= i < |raw| - 1 :: raw[1..][i] == raw[i + 1];
      SurvivorsAllParse(raw[1..], parse);
    }
  }

  /** The survivors can go in as typical rows: each names a stored object
      kind (the FOREIGN KEY) and none comes twice (`unique_together`, the
      type's old rows being gone by then). */
  predicate Insertable(s: Store, ids: seq<int>) {
    && (forall i | 0 <= i < |ids| :: ids[i] >= 0 && ids[i] as nat in s.tiposObjeto)
    && (forall i, j | 0 <= i < j < |ids| :: ids[i] != ids[j])
  }

  /** When no value parses, nothing survives. */
  lemma {:induction false} SurvivorsNoneParse(raw: seq<string>, parse: string -> Option<int>)
    requires forall i | 0 <= i < |raw| :: parse(raw[i]).None?
    ensures Survivors(raw, parse) == []
  {
    if raw != [] {
      assert forall i | 0 <= i < |raw| - 1 :: raw[1..][i] == raw[i + 1];
      SurvivorsNoneParse(raw[1..], parse);
    }
  }

  /** The rows `bulk_create` writes: survivor `i` under key `n + i`, active,
      with `orden` = `i`. */
  function NewLinks(tl: Id, ids: seq<int>, n: nat): (m: map<Id, Tipico>)
    requires forall i | 0 <= i < |ids| :: ids[i] >= 0
    ensures forall k :: k in m <==> n <= k < n + |ids|
    ensures forall i | 0 <= i < |ids| :: m[n + i] == Tipico(tl, ids[i] as nat, true, i)
    ensures forall k | k in m :: m[k].tipoLugar == tl
  {
    if ids == [] then map[]
    else
      var last := |ids| - 1;
      NewLinks(tl, ids[..last], n)[n + last := Tipico(tl, ids[last] as nat, true, last)]
  }

  /** Each survivor paired with its position. */
  function Positions(ids: seq<int>): set<(Id, nat)>
    requires forall i | 0 <= i < |ids| :: ids[i] >= 0
  {
    set i | 0 <= i < |ids| :: (ids[i] as nat, i)
  }

  /** The (kind, orden) pairs of room type `tl`'s typical rows. */
  function LinksOf(m: map<Id, Tipico>, tl: Id): set<(Id, nat)> {
    set k | k in m && m[k].tipoLugar == tl :: (m[k].tipoObjeto, m[k].orden)
  }

  /** The typical rows after the delete and the bulk insert. */
  function Relinked(s: Store, tl: Id, ids: seq<int>): map<Id, Tipico>
    requires forall i | 0 <= i < |ids| :: ids[i] >= 0
  {
    Deletion.TipicosWithoutLugar(s.tipicos, tl) + NewLinks(tl, ids, s.nextId)
  }

  /** The POST: the room type is fetched (404 when missing), the values
      that do not parse are dropped, and in one transaction every typical
      row of the type is deleted and the survivors are created in order. A
      survivor naming no stored kind, or coming twice, makes the insert
      fail and the transaction roll back. Only the typical rows and the
      key counter change. */
  function ReplaceTipicos(s: Store, tl: Id, raw: seq<string>, parse: string -> Option<int>)
    : (r: Result<Store, Fault>)
    requires Fresh(s)
    ensures tl !in s.tiposLugar ==> r == Err(DoesNotExist)
    ensures tl in s.tiposLugar ==> (r.Ok? <==> Insertable(s, Survivors(raw, parse)))
    ensures r.Err? ==> r.error == DoesNotExist || r.error == IntegrityError
    ensures r.Ok? ==> r.value == s.(tipicos := r.value.tipicos, nextId := s.nextId + |Survivors(raw, parse)|)
  {
    if tl !in s.tiposLugar then Err(DoesNotExist)
    else
      var ids := Survivors(raw, parse);
      if !Insertable(s, ids) then Err(IntegrityError)
      else Ok(s.(tipicos := Relinked(s, tl, ids), nextId := s.nextId + |ids|))
  }

  /** The rows of `Relinked`: `tl`'s rows are exactly the survivors under
      fresh keys, survivor `i` with `orden` = `i`; every row of another type
      is kept as it was. */
  lemma RelinkedRows(s: Store, tl: Id, ids: seq<int>)
    requires Fresh(s) && forall i | 0 <= i < |ids| :: ids[i] >= 0
    ensures var t := Relinked(s, tl, ids);
      && (forall k | k in s.tipicos && s.tipicos[k].tipoLugar != tl :: k in t && t[k] == s.tipicos[k])
      && (forall k | k in t && t[k].tipoLugar == tl :: s.nextId <= k < s.nextId + |ids|)
      && (forall k | k in t && t[k].tipoLugar != tl :: k in s.tipicos && s.tipicos[k] == t[k])
      && (forall i | 0 <= i < |ids| :: s.nextId + i in t && t[s.nextId + i] == Tipico(tl, ids[i] as nat, true, i))
  {
    var kept := Deletion.TipicosWithoutLugar(s.tipicos, tl);
    var links := NewLinks(tl, ids, s.nextId);
    var t := Relinked(s, tl, ids);
    assert t == kept + links;
    forall k | k in t && t[k].tipoLugar == tl
      ensures s.nextId <= k < s.nextId + |ids|
    {
      assert k in links;
    }
    forall i | 0 <= i < |ids| ensures s.nextId + i in t && t[s.nextId + i] == Tipico(tl, ids[i] as nat, true, i) {
      assert s.nextId + i in links;
    }
    forall k | k in kept ensures k !in links {
      assert k in s.tipicos;
    }
  }

  /** After a replacement the type's typical rows are exactly the survivors
      under fresh keys, survivor `i` with `orden` = `i`; every row of
      another type is kept as it was. */
  lemma ReplaceTipicosRows(s: Store, tl: Id, raw: seq<string>, parse: string -> Option<int>)
    requires Fresh(s) && ReplaceTipicos(s, tl, raw, parse).Ok?
    ensures var ids := Survivors(raw, parse);
      var t := ReplaceTipicos(s, tl, raw, parse).value.tipicos;
      && (forall k | k in s.tipicos && s.tipicos[k].tipoLugar != tl :: k in t && t[k] == s.tipicos[k])
      && (forall k | k in t && t[k].tipoLugar == tl :: s.nextId <= k < s.nextId + |ids|)
      && (forall k | k in t && t[k].tipoLugar != tl :: k in s.tipicos && s.tipicos[k] == t[k])
      && (forall i | 0 <= i < |ids| :: s.nextId + i in t && t[s.nextId + i] == Tipico(tl, ids[i] as nat, true, i))
  {
    var ids := Survivors(raw, parse);
    assert ReplaceTipicos(s, tl, raw, parse).value.tipicos == Relinked(s, tl, ids);
    RelinkedRows(s, tl, ids);
  }

  /** The (kind, orden) pairs of a table whose `tl` rows are exactly `ids`
      at keys `n + i` and whose other rows are those of `o`. */
  lemma LinksOfRows(o: map<Id, Tipico>, m: map<Id, Tipico>, tl: Id, ids: seq<int>, n: nat)
    requires forall i | 0 <= i < |ids| :: ids[i] >= 0
    requires forall k | k in o && o[k].tipoLugar != tl :: k in m && m[k] == o[k]
    requires forall k | k in m && m[k].tipoLugar == tl :: n <= k < n + |ids|
    requires forall k | k in m && m[k].tipoLugar != tl :: k in o && o[k] == m[k]
    requires forall i | 0 <= i < |ids| :: n + i in m && m[n + i] == Tipico(tl, ids[i] as nat, true, i)
    ensures LinksOf(m, tl) == Positions(ids)
    ensures forall u | u != tl :: LinksOf(m, u) == LinksOf(o, u)
  {
    var want := Positions(ids);
    forall p | p in LinksOf(m, tl) ensures p in want {
      var k :| k in m && m[k].tipoLugar == tl && p == (m[k].tipoObjeto, m[k].orden);
      var i := k - n;
      assert m[n + i] == Tipico(tl, ids[i] as nat, true, i);
    }
    forall p | p in want ensures p in LinksOf(m, tl) {
      var i :| 0 <= i < |ids| && p == (ids[i] as nat, i);
      assert m[n + i] == Tipico(tl, ids[i] as nat, true, i);
    }
    forall u | u != tl ensures LinksOf(m, u) == LinksOf(o, u) {
      forall p | p in LinksOf(m, u) ensures p in LinksOf(o, u) {
        var k :| k in m && m[k].tipoLugar == u && p == (m[k].tipoObjeto, m[k].orden);
        assert k in o && o[k] == m[k];
      }
      forall p | p in LinksOf(o, u) ensures p in LinksOf(m, u) {
        var k :| k in o && o[k].tipoLugar == u && p == (o[k].tipoObjeto, o[k].orden);
        assert k in m && m[k] == o[k];
      }
    }
  }

  /** The pairs view of the same fact: the type's (kind, orden) pairs are
      exactly the survivors with their positions, other types keep theirs. */
  lemma ReplaceTipicosLinks(s: Store, tl: Id, raw: seq<string>, parse: string -> Option<int>)
    requires Fresh(s) && ReplaceTipicos(s, tl, raw, parse).Ok?
    ensures var ids := Survivors(raw, parse);
      LinksOf(ReplaceTipicos(s, tl, raw, parse).value.tipicos, tl)
        == Positions(ids)
    ensures forall u | u != tl :: LinksOf(ReplaceTipicos(s, tl, raw, parse).value.tipicos, u) == LinksOf(s.tipicos, u)
  {
    var ids := Survivors(raw, parse);
    assert ReplaceTipicos(s, tl, raw, parse).value.tipicos == Relinked(s, tl, ids);
    RelinkedRows(s, tl, ids);
    LinksOfRows(s.tipicos, Relinked(s, tl, ids), tl, ids, s.nextId);
  }

  /** Posting the same values again leaves the same list. */
  lemma ReplaceTipicosTwice(s: Store, tl: Id, raw: seq<string>, parse: string -> Option<int>)
    requires Fresh(s) && ReplaceTipicos(s, tl, raw, parse).Ok?
    ensures var t := ReplaceTipicos(s, tl, raw, parse).value;
      && Fresh(t)
      && ReplaceTipicos(t, tl, raw, parse).Ok?
      && LinksOf(ReplaceTipicos(t, tl, raw, parse).value.tipicos, tl) == LinksOf(t.tipicos, tl)
  {
    var t := ReplaceTipicos(s, tl, raw, parse).value;
    ReplaceTipicosRows(s, tl, raw, parse);
    assert KeysBelow(t.tipicos, t.nextId);
    ReplaceTipicosLinks(s, tl, raw, parse);
    ReplaceTipicosLinks(t, tl, raw, parse);
  }

  /** Posting no parsable value clears the type's list. */
  lemma ReplaceWithNothingClears(s: Store, tl: Id, raw: seq<string>, parse: string -> Option<int>)
    requires Fresh(s) && tl in s.tiposLugar
    requires forall i | 0 <= i < |raw| :: parse(raw[i]).None?
    ensures ReplaceTipicos(s, tl, raw, parse).Ok?
    ensures LinksOf(ReplaceTipicos(s, tl, raw, parse).value.tipicos, tl) == {}
  {
    SurvivorsNoneParse(raw, parse);
    ReplaceTipicosLinks(s, tl, raw, parse);
  }

  /** Swapping in a new table of typical rows and a larger key counter keeps
      the declared constraints when the new rows keep them. */
  lemma WithTipicosKeepsValid(s: Store, m: map<Id, Tipico>, n: nat)
    requires Valid(s) && s.nextId <= n && KeysBelow(m, n)
    requires TipicoLugares(m, s.tiposLugar) && TipicoObjetos(m, s.tiposObjeto) && UniqueTipicoPairs(m)
    ensures Valid(s.(tipicos := m, nextId := n))
  {
  }

  /** A replacement keeps the declared constraints: every new row names the
      (stored) type and a stored kind, and no kind comes twice. */
  lemma ReplaceTipicosKeepsValid(s: Store, tl: Id, raw: seq<string>, parse: string -> Option<int>)
    requires Valid(s)
    ensures ReplaceTipicos(s, tl, raw, parse).Ok? ==> Valid(ReplaceTipicos(s, tl, raw, parse).value)
  {
    if ReplaceTipicos(s, tl, raw, parse).Ok? {
      var ids := Survivors(raw, parse);
      var m := Relinked(s, tl, ids);
      var n := s.nextId + |ids|;
      assert ReplaceTipicos(s, tl, raw, parse).value == s.(tipicos := m, nextId := n);
      ReplaceTipicosRows(s, tl, raw, parse);
      assert KeysBelow(m, n);
      assert TipicoLugares(m, s.tiposLugar) by {
        forall k | k in m ensures m[k].tipoLugar in s.tiposLugar {
          if m[k].tipoLugar != tl { assert k in s.tipicos; }
        }
      }
      assert TipicoObjetos(m, s.tiposObjeto) by {
        forall k | k in m ensures m[k].tipoObjeto in s.tiposObjeto {
          if m[k].tipoLugar == tl {
            assert m[s.nextId + (k - s.nextId)] == Tipico(tl, ids[k - s.nextId] as nat, true, k - s.nextId);
          } else {
            assert k in s.tipicos;
          }
        }
      }
      assert UniqueTipicoPairs(m) by {
        forall a, b | a in m && b in m && m[a].tipoLugar == m[b].tipoLugar && m[a].tipoObjeto == m[b].tipoObjeto
          ensures a == b
        {
          if m[a].tipoLugar == tl {
            assert m[s.nextId + (a - s.nextId)] == Tipico(tl, ids[a - s.nextId] as nat, true, a - s.nextId);
            assert m[s.nextId + (b - s.nextId)] == Tipico(tl, ids[b - s.nextId] as nat, true, b - s.nextId);
          } else {
            assert a in s.tipicos && b in s.tipicos;
          }
        }
      }
      WithTipicosKeepsValid(s, m, n);
    }
  }
}

module Seeding {
  import opened Wrappers
  import opened Models
  import opened Catalog

  // ---------------------------------------------------------------------
  // The built-in table (`TIPICOS_POR_TIPO_LUGAR`, views.py:1745-1829)
  // ---------------------------------------------------------------------

  /** One category of a room type's entry and its object names, in order. */
  datatype Group = Group(categoria: string, objetos: seq<string>)

  /** The nine building elements every entry starts with. */
  const INFRAESTRUCTURA: seq<string> := [
    "Paredes", "Piso", "Cielo", "Techo", "Luces", "Ventanas", "Puertas",
    "Conexi\U{F3}n el\U{E9}ctrica", "Interruptores"]

  /** Room type name to its groups, in the dictionary's insertion order
      (accented letters are written as escapes: \U{F1} is n with tilde,
      \U{F3} o with acute, \U{E9} e with acute, \U{ED} i with acute, \U{FC}
      u with diaeresis). */
  const TIPICOS_POR_TIPO_LUGAR: seq<(string, seq<Group>)> := [
    ("Ba\U{F1}o", [
      Group("Infraestructura", INFRAESTRUCTURA),
      Group("Sanitario", ["Tasas", "Urinario", "Desag\U{FC}es", "Papeleros", "Lavamanos"]),
      Group("Decoraci\U{F3}n", ["Espejos"]),
      Group("Higiene", ["Jaboneras", "Dispensadores de papel", "Dispensadores de jab\U{F3}n"])]),
    ("Vestidor", [
      Group("Infraestructura", INFRAESTRUCTURA),
      Group("Mobiliario", ["Bancos", "Casilleros", "Percheros"]),
      Group("Sanitario", ["Duchas"]),
      Group("Higiene", ["Secadores de toalla", "Dispensadores de jab\U{F3}n"]),
      Group("Climatizaci\U{F3}n", ["Extractores", "Estufas"])]),
    ("Comedor", [
      Group("Infraestructura", INFRAESTRUCTURA),
      Group("Mobiliario", ["Mesas", "Sillas", "Muebles"]),
      Group("Electrodom\U{E9}sticos", ["Refrigerador", "Microondas", "Dispensador de agua", "Televisor"]),
      Group("Sanitario", ["Lavaplatos", "Papeleros"]),
      Group("Climatizaci\U{F3}n", ["Aire acondicionado"])]),
    ("Cafeter\U{ED}a", [
      Group("Infraestructura", INFRAESTRUCTURA),
      Group("Mobiliario", ["Mesas", "Sillas", "Muebles"]),
      Group("Electrodom\U{E9}sticos", ["Cafetera", "Refrigerador", "Dispensador de agua"]),
      Group("Climatizaci\U{F3}n", ["Aire acondicionado"])]),
    ("Ba\U{F1}o vestidor", [
      Group("Infraestructura", INFRAESTRUCTURA),
      Group("Sanitario", ["Tasas", "Urinario", "Desag\U{FC}es", "Lavamanos", "Duchas", "Papeleros"]),
      Group("Decoraci\U{F3}n", ["Espejos"]),
      Group("Higiene", ["Secadores de toalla", "Dispensadores de jab\U{F3}n"]),
      Group("Mobiliario", ["Bancas", "Casilleros"]),
      Group("Climatizaci\U{F3}n", ["Extractores"])])
  ]

  /** `TIPICOS_POR_TIPO_LUGAR.get(name, {})`: the entry under `name`, no
      groups when there is none. */
  function Lookup(name: string): (groups: seq<Group>)
    ensures (forall i | 0 <= i < |TIPICOS_POR_TIPO_LUGAR| :: TIPICOS_POR_TIPO_LUGAR[i].0 != name) ==> groups == []
  {
    LookupFrom(TIPICOS_POR_TIPO_LUGAR, name)
  }

  /** Each room type name of the table finds its own entry. */
  lemma LookupEntry(i: nat)
    requires i < |TIPICOS_POR_TIPO_LUGAR|
    ensures Lookup(TIPICOS_POR_TIPO_LUGAR[i].0) == TIPICOS_POR_TIPO_LUGAR[i].1
  {
    TableShape();
  }

  /** The first entry of `table` under `name`. */
  function LookupFrom(table: seq<(string, seq<Group>)>, name: string): (groups: seq<Group>)
    ensures (forall i | 0 <= i < |table| :: table[i].0 != name) ==> groups == []
    ensures forall i | 0 <= i < |table| && table[i].0 == name && (forall j | 0 <= j < i :: table[j].0 != name) ::
      groups == table[i].1
  {
    if table == [] then []
    else if table[0].0 == name then table[0].1
    else
      var rest := table[1..];
      assert forall i | 0 < i < |table| :: table[i] == rest[i - 1];
      LookupFrom(rest, name)
  }

  /** Every entry of the table has at least one group, and each group at
      least one object; the five room type names are distinct. */
  lemma TableShape()
    ensures forall i | 0 <= i < |TIPICOS_POR_TIPO_LUGAR| ::
      TIPICOS_POR_TIPO_LUGAR[i].1 != [] && TIPICOS_POR_TIPO_LUGAR[i].1[0].objetos != []
    ensures forall i, j | 0 <= i < j < |TIPICOS_POR_TIPO_LUGAR| ::
      TIPICOS_POR_TIPO_LUGAR[i].0 != TIPICOS_POR_TIPO_LUGAR[j].0
  {
  }

  /** The number of object names across `groups`. */
  function Count(groups: seq<Group>): nat {
    if groups == [] then 0 else |groups[0].objetos| + Count(groups[1..])
  }

  /** Worked example: a bathroom seeds 9 + 5 + 1 + 3 = 18 typical objects. */
  lemma BanoCount()
    ensures Count(Lookup("Ba\U{F1}o")) == 18
  {
    assert TIPICOS_POR_TIPO_LUGAR[0].0 == "Ba\U{F1}o";
  }

  // ---------------------------------------------------------------------
  // What seeding leaves behind
  // ---------------------------------------------------------------------

  /** Object kind `t` is stored, and its object is stored under `name`. */
  predicate KindNamed(s: Store, t: Id, name: string) {
    && t in s.tiposObjeto
    && s.tiposObjeto[t].objeto in s.objetos
    && s.objetos[s.tiposObjeto[t].objeto].nombreDelObjeto == name
  }

  /** Room type `tl` has a typical row whose kind is an object named `name`. */
  predicate Linked(s: Store, tl: Id, name: string) {
    exists k | k in s.tipicos :: s.tipicos[k].tipoLugar == tl && KindNamed(s, s.tipicos[k].tipoObjeto, name)
  }

  /** Room type `tl` has an active typical row: what `qs.exists()` asks. */
  predicate HasActive(m: map<Id, Tipico>, tl: Id) {
    exists k | k in m :: m[k].tipoLugar == tl && m[k].activo
  }

  /** Room type `tl` has no typical row at all, active or not. */
  predicate NoLinks(m: map<Id, Tipico>, tl: Id) {
    forall k | k in m :: m[k].tipoLugar != tl
  }

  /** Adding rows keeps every link. */
  lemma LinkedGrows(s: Store, t: Store, tl: Id, name: string)
    requires Grows(s, t)
    ensures Linked(s, tl, name) ==> Linked(t, tl, name)
  {
    if Linked(s, tl, name) {
      var k :| k in s.tipicos && s.tipicos[k].tipoLugar == tl && KindNamed(s, s.tipicos[k].tipoObjeto, name);
      assert k in t.tipicos && t.tipicos[k] == s.tipicos[k];
    }
  }

  /** Adding rows keeps every active row. */
  lemma HasActiveGrows(s: Store, t: Store, tl: Id)
    requires Grows(s, t)
    ensures HasActive(s.tipicos, tl) ==> HasActive(t.tipicos, tl)
  {
    if HasActive(s.tipicos, tl) {
      var k :| k in s.tipicos && s.tipicos[k].tipoLugar == tl && s.tipicos[k].activo;
      assert k in t.tipicos && t.tipicos[k] == s.tipicos[k];
    }
  }

  // ---------------------------------------------------------------------
  // One object name
  // ---------------------------------------------------------------------

  /** The kind a name resolves to, and the category the loop carries on
      with. */
  datatype Kind = Kind(store: Store, tipo: Id, categoria: Id)

  /** The object named `name` (found, or created under `categoria`), and its
      kind with empty brand and material (found, or created). */
  function KindFor(s: Store, categoria: Id, name: string): (r: Result<Kind, Fault>)
    requires Fresh(s)
    ensures r.Ok? ==> Fresh(r.value.store) && Grows(s, r.value.store)
    ensures r.Err? ==> WriteFault(r.error)
    ensures r.Ok? ==> KindNamed(r.value.store, r.value.tipo, name) && r.value.store.tipicos == s.tipicos
    ensures r.Ok? ==> r.value.categoria == r.value.store.objetos[r.value.store.tiposObjeto[r.value.tipo].objeto].categoria
    ensures r.Ok? ==> forall k | k in r.value.store.objetos && k !in s.objetos ::
      r.value.store.objetos[k] == Objeto(name, categoria)
    ensures UniqueObjetoNames(s.objetos) && r.Ok? ==> forall k | k in s.objetos && s.objetos[k].nombreDelObjeto == name ::
      r.value.categoria == s.objetos[k].categoria
    ensures r.Ok? && (forall k | k in s.objetos :: s.objetos[k].nombreDelObjeto != name) ==>
      r.value.categoria == categoria
  {
    var obj :- GetOrCreateObjetoNamed(s, name, categoria);
    assert obj.id in obj.store.objetos && obj.store.objetos[obj.id].nombreDelObjeto == name;
    assert obj.store.objetos == s.objetos || obj.store.objetos == s.objetos[s.nextId := Objeto(name, categoria)];
    // The loop switches to the object's category when it differs
    // (views.py:1871-1872), so it continues with the object's own either way.
    var cat := obj.store.objetos[obj.id].categoria;
    var to :- GetOrCreateTipoObjeto(obj.store, obj.id, "", "");
    assert to.id in to.store.tiposObjeto && to.store.tiposObjeto[to.id].objeto == obj.id;
    assert to.store.objetos == obj.store.objetos && to.store.tipicos == s.tipicos;
    GrowsTrans(s, obj.store, to.store);
    Ok(Kind(to.store, to.id, cat))
  }

  /** A kind resolved for `name` keeps the declared constraints. */
  lemma KindForKeepsValid(s: Store, categoria: Id, name: string)
    requires Valid(s)
    ensures KindFor(s, categoria, name).Ok? ==> Valid(KindFor(s, categoria, name).value.store)
  {
    GetOrCreateObjetoNamedKeepsValid(s, name, categoria);
    var obj := GetOrCreateObjetoNamed(s, name, categoria);
    if obj.Ok? {
      GetOrCreateTipoObjetoKeepsValid(obj.value.store, obj.value.id, "", "");
    }
  }

  /** The typical row `get_or_create` returns links `tl` to kind `t`, and
      is a new active one when `tl` had no rows; objects and kinds are
      untouched. */
  lemma TipicoRow(s: Store, tl: Id, t: Id, orden: nat)
    requires Fresh(s) && GetOrCreateTipico(s, tl, t, orden).Ok?
    ensures var g := GetOrCreateTipico(s, tl, t, orden).value;
      && g.id in g.store.tipicos && g.store.tipicos[g.id].tipoLugar == tl && g.store.tipicos[g.id].tipoObjeto == t
      && g.store.objetos == s.objetos && g.store.tiposObjeto == s.tiposObjeto
      && (NoLinks(s.tipicos, tl) ==> g.store.tipicos[g.id].activo)
  {
  }

  /** An active row of `tl` is what `qs.exists()` finds. */
  lemma ActiveAt(m: map<Id, Tipico>, tl: Id, k: Id)
    requires k in m && m[k].tipoLugar == tl
    ensures m[k].activo ==> HasActive(m, tl)
  {
  }

  /** A row of `tl` whose kind is named `name` is a link. */
  lemma LinkedAt(s: Store, tl: Id, name: string, k: Id)
    requires k in s.tipicos && s.tipicos[k].tipoLugar == tl && KindNamed(s, s.tipicos[k].tipoObjeto, name)
    ensures Linked(s, tl, name)
  {
  }

  /** The state the loop carries from one name to the next: the database,
      the current category and the next `orden`. */
  datatype Seeded = Seeded(store: Store, categoria: Id, orden: nat)

  /** One pass of the inner loop: the kind for `name`, then the typical row
      of `tl` for it, created active at position `orden` unless one exists
      (an existing row keeps its `orden` and `activo`). `orden` advances
      either way. */
  function SeedObject(s: Store, tl: Id, categoria: Id, name: string, orden: nat): (r: Result<Seeded, Fault>)
    requires Fresh(s)
    ensures r.Ok? ==> Fresh(r.value.store) && Grows(s, r.value.store)
    ensures r.Err? ==> WriteFault(r.error)
    ensures r.Ok? ==> Linked(r.value.store, tl, name) && r.value.orden == orden + 1
    ensures r.Ok? ==> forall k | k in r.value.store.objetos && k !in s.objetos ::
      r.value.store.objetos[k] == Objeto(name, categoria)
    ensures r.Ok? && (forall k | k in s.objetos :: s.objetos[k].nombreDelObjeto != name) ==>
      r.value.categoria == categoria
    ensures UniqueObjetoNames(s.objetos) && r.Ok? ==> forall k | k in s.objetos && s.objetos[k].nombreDelObjeto == name ::
      r.value.categoria == s.objetos[k].categoria
    ensures r.Ok? && NoLinks(s.tipicos, tl) ==> HasActive(r.value.store.tipicos, tl)
  {
    var kind :- KindFor(s, categoria, name);
    var link :- GetOrCreateTipico(kind.store, tl, kind.tipo, orden);
    TipicoRow(kind.store, tl, kind.tipo, orden);
    LinkedAt(link.store, tl, name, link.id);
    ActiveAt(link.store.tipicos, tl, link.id);
    GrowsTrans(s, kind.store, link.store);
    Ok(Seeded(link.store, kind.categoria, orden + 1))
  }

  lemma SeedObjectKeepsValid(s: Store, tl: Id, categoria: Id, name: string, orden: nat)
    requires Valid(s)
    ensures SeedObject(s, tl, categoria, name, orden).Ok? ==> Valid(SeedObject(s, tl, categoria, name, orden).value.store)
  {
    KindForKeepsValid(s, categoria, name);
    var kind := KindFor(s, categoria, name);
    if kind.Ok? {
      GetOrCreateTipicoKeepsValid(kind.value.store, tl, kind.value.tipo, orden);
    }
  }

  /** Every name of `names` is linked to `tl`. */
  predicate AllLinked(s: Store, tl: Id, names: seq<string>) {
    forall i | 0 <= i < |names| :: Linked(s, tl, names[i])
  }

  /** Linking the head and the tail links the whole list. */
  lemma AllLinkedCons(s: Store, tl: Id, names: seq<string>)
    requires names != [] && Linked(s, tl, names[0]) && AllLinked(s, tl, names[1..])
    ensures AllLinked(s, tl, names)
  {
    forall i | 0 < i < |names| ensures Linked(s, tl, names[i]) {
      assert names[i] == names[1..][i - 1];
    }
  }

  /** Adding rows keeps a list linked. */
  lemma AllLinkedGrows(s: Store, t: Store, tl: Id, names: seq<string>)
    requires Grows(s, t) && AllLinked(s, tl, names)
    ensures AllLinked(t, tl, names)
  {
    forall i | 0 <= i < |names| ensures Linked(t, tl, names[i]) {
      LinkedGrows(s, t, tl, names[i]);
    }
  }

  /** The inner loop over one group's names, from position `orden`, the
      category rebinding carried from each name to the next. */
  function SeedObjects(s: Store, tl: Id, categoria: Id, names: seq<string>, orden: nat): (r: Result<Seeded, Fault>)
    requires Fresh(s)
    decreases |names|
    ensures r.Ok? ==> Fresh(r.value.store) && Grows(s, r.value.store)
    ensures r.Err? ==> WriteFault(r.error)
    ensures r.Ok? ==> AllLinked(r.value.store, tl, names) && r.value.orden == orden + |names|
    ensures r.Ok? && names != [] && NoLinks(s.tipicos, tl) ==> HasActive(r.value.store.tipicos, tl)
  {
    if names == [] then
      GrowsRefl(s);
      Ok(Seeded(s, categoria, orden))
    else
      var one :- SeedObject(s, tl, categoria, names[0], orden);
      var rest :- SeedObjects(one.store, tl, one.categoria, names[1..], one.orden);
      GrowsTrans(s, one.store, rest.store);
      LinkedGrows(one.store, rest.store, tl, names[0]);
      HasActiveGrows(one.store, rest.store, tl);
      AllLinkedCons(rest.store, tl, names);
      Ok(rest)
  }

  lemma {:induction false} SeedObjectsKeepsValid(s: Store, tl: Id, categoria: Id, names: seq<string>, orden: nat)
    requires Valid(s)
    ensures SeedObjects(s, tl, categoria, names, orden).Ok? ==>
      Valid(SeedObjects(s, tl, categoria, names, orden).value.store)
    decreases |names|
  {
    if names != [] {
      SeedObjectKeepsValid(s, tl, categoria, names[0], orden);
      var one := SeedObject(s, tl, categoria, names[0], orden);
      if one.Ok? {
        SeedObjectsKeepsValid(one.value.store, tl, one.value.categoria, names[1..], one.value.orden);
      }
    }
  }

  /** Every name of every group is linked to `tl`. */
  predicate AllGroupsLinked(s: Store, tl: Id, groups: seq<Group>) {
    forall g | 0 <= g < |groups| :: AllLinked(s, tl, groups[g].objetos)
  }

  /** The database and the next `orden` after the outer loop. */
  datatype Sown = Sown(store: Store, orden: nat)

  /** The outer loop: each group's category is fetched or created by name,
      which resets the category the inner loop starts from. */
  function SeedGroups(s: Store, tl: Id, groups: seq<Group>, orden: nat): (r: Result<Sown, Fault>)
    requires Fresh(s)
    decreases |groups|
    ensures r.Ok? ==> Fresh(r.value.store) && Grows(s, r.value.store)
    ensures r.Err? ==> WriteFault(r.error)
    ensures r.Ok? ==> AllGroupsLinked(r.value.store, tl, groups) && r.value.orden == orden + Count(groups)
    ensures r.Ok? && groups != [] && groups[0].objetos != [] && NoLinks(s.tipicos, tl) ==>
      HasActive(r.value.store.tipicos, tl)
  {
    if groups == [] then
      GrowsRefl(s);
      Ok(Sown(s, orden))
    else
      var cat :- GetOrCreateCategoria(s, groups[0].categoria);
      assert cat.store.tipicos == s.tipicos;
      var objs :- SeedObjects(cat.store, tl, cat.id, groups[0].objetos, orden);
      var rest :- SeedGroups(objs.store, tl, groups[1..], objs.orden);
      GrowsTrans(s, cat.store, objs.store);
      GrowsTrans(s, objs.store, rest.store);
      AllLinkedGrows(objs.store, rest.store, tl, groups[0].objetos);
      HasActiveGrows(objs.store, rest.store, tl);
      AllGroupsCons(rest.store, tl, groups);
      Ok(rest)
  }

  /** Linking the first group and the rest links them all. */
  lemma AllGroupsCons(s: Store, tl: Id, groups: seq<Group>)
    requires groups != [] && AllLinked(s, tl, groups[0].objetos) && AllGroupsLinked(s, tl, groups[1..])
    ensures AllGroupsLinked(s, tl, groups)
  {
    forall g | 0 < g < |groups| ensures AllLinked(s, tl, groups[g].objetos) {
      assert groups[g] == groups[1..][g - 1];
    }
  }

  lemma {:induction false} SeedGroupsKeepsValid(s: Store, tl: Id, groups: seq<Group>, orden: nat)
    requires Valid(s)
    ensures SeedGroups(s, tl, groups, orden).Ok? ==> Valid(SeedGroups(s, tl, groups, orden).value.store)
    decreases |groups|
  {
    if groups != [] {
      GetOrCreateCategoriaKeepsValid(s, groups[0].categoria);
      var cat := GetOrCreateCategoria(s, groups[0].categoria);
      if cat.Ok? {
        SeedObjectsKeepsValid(cat.value.store, tl, cat.value.id, groups[0].objetos, orden);
        var objs := SeedObjects(cat.value.store, tl, cat.value.id, groups[0].objetos, orden);
        if objs.Ok? {
          SeedGroupsKeepsValid(objs.value.store, tl, groups[1..], objs.value.orden);
        }
      }
    }
  }

  /** `objetos_tipicos_por_tipo_lugar`'s seeding: the room type is fetched
      (404 when missing); when it has no active typical row and its name is
      in the table, every group is seeded in one transaction from `orden`
      0. Otherwise the database is left alone. */
  function SeedTipicos(s: Store, tl: Id): (r: Result<Store, Fault>)
    requires Fresh(s)
    ensures tl !in s.tiposLugar <==> r == Err(DoesNotExist)
    ensures tl in s.tiposLugar && HasActive(s.tipicos, tl) ==> r == Ok(s)
    ensures tl in s.tiposLugar && Lookup(s.tiposLugar[tl].tipoDeLugar) == [] ==> r == Ok(s)
    ensures tl in s.tiposLugar && r.Err? ==> WriteFault(r.error)
    ensures r.Ok? ==> Fresh(r.value) && Grows(s, r.value)
    ensures r.Ok? && !HasActive(s.tipicos, tl) ==> AllGroupsLinked(r.value, tl, Lookup(s.tiposLugar[tl].tipoDeLugar))
  {
    if tl !in s.tiposLugar then Err(DoesNotExist)
    else if HasActive(s.tipicos, tl) then
      GrowsRefl(s);
      Ok(s)
    else
      var groups := Lookup(s.tiposLugar[tl].tipoDeLugar);
      if groups == [] then
        GrowsRefl(s);
        Ok(s)
      else
        var sown :- SeedGroups(s, tl, groups, 0);
        Ok(sown.store)
  }

  lemma SeedTipicosKeepsValid(s: Store, tl: Id)
    requires Valid(s)
    ensures SeedTipicos(s, tl).Ok? ==> Valid(SeedTipicos(s, tl).value)
  {
    if tl in s.tiposLugar {
      SeedGroupsKeepsValid(s, tl, Lookup(s.tiposLugar[tl].tipoDeLugar), 0);
    }
  }

  // ---------------------------------------------------------------------
  // Display positions
  // ---------------------------------------------------------------------

  /** The object names of `groups`, in the order the loops visit them. */
  function Flatten(groups: seq<Group>): (names: seq<string>)
    ensures |names| == Count(groups)
  {
    if groups == [] then [] else groups[0].objetos + Flatten(groups[1..])
  }

  /** Kind `t` is stored and its object is stored under one of `names`. */
  predicate KindNamedIn(s: Store, t: Id, names: seq<string>) {
    && t in s.tiposObjeto
    && s.tiposObjeto[t].objeto in s.objetos
    && s.objetos[s.tiposObjeto[t].objeto].nombreDelObjeto in names
  }

  /** Every typical row of `tl` has a stored kind named by one of `names`. */
  predicate RowsNamedIn(s: Store, tl: Id, names: seq<string>) {
    forall k | k in s.tipicos && s.tipicos[k].tipoLugar == tl :: KindNamedIn(s, s.tipicos[k].tipoObjeto, names)
  }

  /** Room type `tl` has an active typical row at display position `orden`
      whose kind is an object named `name`. */
  predicate ListedAt(s: Store, tl: Id, name: string, orden: nat) {
    exists k | k in s.tipicos ::
      && s.tipicos[k].tipoLugar == tl && s.tipicos[k].activo && s.tipicos[k].orden == orden
      && KindNamed(s, s.tipicos[k].tipoObjeto, name)
  }

  /** Adding rows keeps a listed position. */
  lemma ListedAtGrows(s: Store, t: Store, tl: Id, name: string, orden: nat)
    requires Grows(s, t) && ListedAt(s, tl, name, orden)
    ensures ListedAt(t, tl, name, orden)
  {
    var k :| k in s.tipicos && s.tipicos[k].tipoLugar == tl && s.tipicos[k].activo && s.tipicos[k].orden == orden
      && KindNamed(s, s.tipicos[k].tipoObjeto, name);
    assert k in t.tipicos && t.tipicos[k] == s.tipicos[k];
  }

  /** Rows named by `prev` stay so when only objects, kinds or categories
      are added. */
  lemma RowsNamedInGrows(s: Store, t: Store, tl: Id, prev: seq<string>)
    requires Grows(s, t) && t.tipicos == s.tipicos && RowsNamedIn(s, tl, prev)
    ensures RowsNamedIn(t, tl, prev)
  {
    forall k | k in t.tipicos && t.tipicos[k].tipoLugar == tl
      ensures KindNamedIn(t, t.tipicos[k].tipoObjeto, prev)
    {
      assert KindNamedIn(s, s.tipicos[k].tipoObjeto, prev);
    }
  }

  /** `names[i]` occurs for the first time: neither `prev` nor an earlier
      name of the list is the same. */
  predicate IsFirst(names: seq<string>, prev: seq<string>, i: nat) {
    i < |names| && names[i] !in prev + names[..i]
  }

  /** The first occurrences of `names` are listed from position `orden` on:
      a name first seen at index i is listed at `orden + i`. */
  predicate FirstsListed(s: Store, tl: Id, names: seq<string>, orden: nat, prev: seq<string>) {
    forall i | 0 <= i < |names| && IsFirst(names, prev, i) :: ListedAt(s, tl, names[i], orden + i)
  }

  /** The head is first iff `prev` lacks it; a later name is first in the
      list iff it is first in the tail after the head. */
  lemma IsFirstCons(names: seq<string>, prev: seq<string>, i: nat)
    requires i < |names|
    ensures i == 0 ==> (IsFirst(names, prev, i) <==> names[0] !in prev)
    ensures i > 0 ==> (IsFirst(names, prev, i) <==> IsFirst(names[1..], prev + [names[0]], i - 1))
  {
    if i == 0 {
      assert prev + names[..0] == prev;
    } else {
      assert names[1..][i - 1] == names[i];
      assert (prev + [names[0]]) + names[1..][..i - 1] == prev + names[..i];
    }
  }

  /** First occurrences in a concatenation: those of the left part, and
      those of the right part after the left one. */
  lemma IsFirstAppend(a: seq<string>, b: seq<string>, prev: seq<string>, i: nat)
    requires i < |a + b|
    ensures i < |a| ==> (IsFirst(a + b, prev, i) <==> IsFirst(a, prev, i))
    ensures i >= |a| ==> (IsFirst(a + b, prev, i) <==> IsFirst(b, prev + a, i - |a|))
  {
    var names := a + b;
    if i < |a| {
      assert names[i] == a[i] && names[..i] == a[..i];
    } else {
      assert b[i - |a|] == names[i];
      assert (prev + a) + b[..i - |a|] == prev + names[..i];
    }
  }

  /** The head's position and the tail's positions make the list's. */
  lemma FirstsListedCons(s: Store, tl: Id, names: seq<string>, orden: nat, prev: seq<string>)
    requires names != [] && (names[0] !in prev ==> ListedAt(s, tl, names[0], orden))
    requires FirstsListed(s, tl, names[1..], orden + 1, prev + [names[0]])
    ensures FirstsListed(s, tl, names, orden, prev)
  {
    forall i | 0 <= i < |names| && IsFirst(names, prev, i) ensures ListedAt(s, tl, names[i], orden + i) {
      IsFirstCons(names, prev, i);
      if i > 0 {
        assert names[1..][i - 1] == names[i];
        FirstListedAt(s, tl, names[1..], orden + 1, prev + [names[0]], i - 1);
      }
    }
  }

  /** Two lists' positions make their concatenation's. */
  lemma FirstsListedAppend(s: Store, tl: Id, a: seq<string>, b: seq<string>, orden: nat, prev: seq<string>)
    requires FirstsListed(s, tl, a, orden, prev) && FirstsListed(s, tl, b, orden + |a|, prev + a)
    ensures FirstsListed(s, tl, a + b, orden, prev)
  {
    var names := a + b;
    forall i | 0 <= i < |names| && IsFirst(names, prev, i) ensures ListedAt(s, tl, names[i], orden + i) {
      IsFirstAppend(a, b, prev, i);
      if i < |a| {
        assert names[i] == a[i];
        FirstListedAt(s, tl, a, orden, prev, i);
      } else {
        assert names[i] == b[i - |a|];
        FirstListedAt(s, tl, b, orden + |a|, prev + a, i - |a|);
      }
    }
  }

  /** One first occurrence of a listed run. */
  lemma FirstListedAt(s: Store, tl: Id, names: seq<string>, orden: nat, prev: seq<string>, i: nat)
    requires FirstsListed(s, tl, names, orden, prev) && IsFirst(names, prev, i)
    ensures ListedAt(s, tl, names[i], orden + i)
  {
  }

  /** Adding rows keeps every listed position. */
  lemma FirstsListedGrows(s: Store, t: Store, tl: Id, names: seq<string>, orden: nat, prev: seq<string>)
    requires Grows(s, t) && FirstsListed(s, tl, names, orden, prev)
    ensures FirstsListed(t, tl, names, orden, prev)
  {
    forall i | 0 <= i < |names| && IsFirst(names, prev, i) ensures ListedAt(t, tl, names[i], orden + i) {
      ListedAtGrows(s, t, tl, names[i], orden + i);
    }
  }

  /** The typical row `get_or_create` settles for kind `t`, named `name`,
      when every row of `tl` so far belongs to a name of `prev`: afterwards
      every row belongs to `prev` or `name`. */
  lemma TipicoRowsNamed(s: Store, tl: Id, t: Id, orden: nat, name: string, prev: seq<string>)
    requires Fresh(s) && GetOrCreateTipico(s, tl, t, orden).Ok?
    requires KindNamed(s, t, name) && RowsNamedIn(s, tl, prev)
    ensures RowsNamedIn(GetOrCreateTipico(s, tl, t, orden).value.store, tl, prev + [name])
  {
    var g := GetOrCreateTipico(s, tl, t, orden).value.store;
    TipicoRow(s, tl, t, orden);
    forall k | k in g.tipicos && g.tipicos[k].tipoLugar == tl
      ensures KindNamedIn(g, g.tipicos[k].tipoObjeto, prev + [name])
    {
      if k in s.tipicos {
        assert KindNamedIn(s, s.tipicos[k].tipoObjeto, prev);
      } else {
        assert g.tipicos[k].tipoObjeto == t;
      }
    }
  }

  /** ... and when `name` is not in `prev`, no row links `tl` to `t` yet, so
      a new active row at position `orden` is created. */
  lemma TipicoListed(s: Store, tl: Id, t: Id, orden: nat, name: string, prev: seq<string>)
    requires Fresh(s) && GetOrCreateTipico(s, tl, t, orden).Ok?
    requires KindNamed(s, t, name) && RowsNamedIn(s, tl, prev) && name !in prev
    ensures ListedAt(GetOrCreateTipico(s, tl, t, orden).value.store, tl, name, orden)
  {
    forall k | k in s.tipicos && s.tipicos[k].tipoLugar == tl
      ensures s.tipicos[k].tipoObjeto != t
    {
      assert KindNamedIn(s, s.tipicos[k].tipoObjeto, prev);
    }
    var g := GetOrCreateTipico(s, tl, t, orden).value;
    assert g == Got(AddTipico(s, Tipico(tl, t, true, orden)), s.nextId);
    assert g.store.tipicos[g.id] == Tipico(tl, t, true, orden);
  }

  /** One pass of the inner loop, when every row of `tl` so far belongs to
      a name of `prev`: afterwards every row belongs to `prev` or `name`,
      and a name not in `prev` gets a new active row at position `orden`. */
  lemma SeedObjectOrden(s: Store, tl: Id, categoria: Id, name: string, orden: nat, prev: seq<string>)
    requires Fresh(s) && SeedObject(s, tl, categoria, name, orden).Ok? && RowsNamedIn(s, tl, prev)
    ensures RowsNamedIn(SeedObject(s, tl, categoria, name, orden).value.store, tl, prev + [name])
    ensures name !in prev ==> ListedAt(SeedObject(s, tl, categoria, name, orden).value.store, tl, name, orden)
  {
    var kind := KindFor(s, categoria, name).value;
    RowsNamedInGrows(s, kind.store, tl, prev);
    TipicoRowsNamed(kind.store, tl, kind.tipo, orden, name, prev);
    if name !in prev {
      TipicoListed(kind.store, tl, kind.tipo, orden, name, prev);
    }
  }

  /** The inner loop from position `orden`: every row of `tl` belongs to
      `prev` or `names`, and first occurrences are listed at `orden + i`. */
  lemma {:induction false} SeedObjectsOrden(s: Store, tl: Id, categoria: Id, names: seq<string>, orden: nat,
                                            prev: seq<string>)
    requires Fresh(s) && SeedObjects(s, tl, categoria, names, orden).Ok? && RowsNamedIn(s, tl, prev)
    ensures RowsNamedIn(SeedObjects(s, tl, categoria, names, orden).value.store, tl, prev + names)
    ensures FirstsListed(SeedObjects(s, tl, categoria, names, orden).value.store, tl, names, orden, prev)
    decreases |names|
  {
    if names == [] {
      assert prev + names == prev;
    } else {
      SeedObjectsStep(s, tl, categoria, names, orden);
      var one := SeedObject(s, tl, categoria, names[0], orden).value;
      var t := SeedObjects(one.store, tl, one.categoria, names[1..], one.orden).value.store;
      SeedObjectOrden(s, tl, categoria, names[0], orden, prev);
      SeedObjectsOrden(one.store, tl, one.categoria, names[1..], one.orden, prev + [names[0]]);
      OrdenCons(one.store, t, tl, names, orden, prev);
    }
  }

  /** The head's pass and the tail's passes make the list's. */
  lemma OrdenCons(one: Store, t: Store, tl: Id, names: seq<string>, orden: nat, prev: seq<string>)
    requires names != [] && Grows(one, t)
    requires names[0] !in prev ==> ListedAt(one, tl, names[0], orden)
    requires RowsNamedIn(t, tl, (prev + [names[0]]) + names[1..])
    requires FirstsListed(t, tl, names[1..], orden + 1, prev + [names[0]])
    ensures RowsNamedIn(t, tl, prev + names) && FirstsListed(t, tl, names, orden, prev)
  {
    assert (prev + [names[0]]) + names[1..] == prev + names;
    if names[0] !in prev {
      ListedAtGrows(one, t, tl, names[0], orden);
    }
    FirstsListedCons(t, tl, names, orden, prev);
  }

  /** The outer loop from position `orden`: as the inner loop, over the
      names of all groups in turn. */
  lemma {:induction false} SeedGroupsOrden(s: Store, tl: Id, groups: seq<Group>, orden: nat, prev: seq<string>)
    requires Fresh(s) && SeedGroups(s, tl, groups, orden).Ok? && RowsNamedIn(s, tl, prev)
    ensures RowsNamedIn(SeedGroups(s, tl, groups, orden).value.store, tl, prev + Flatten(groups))
    ensures FirstsListed(SeedGroups(s, tl, groups, orden).value.store, tl, Flatten(groups), orden, prev)
    decreases |groups|
  {
    if groups == [] {
      assert prev + Flatten(groups) == prev;
    } else {
      SeedGroupsStep(s, tl, groups, orden);
      var cat := GetOrCreateCategoria(s, groups[0].categoria).value;
      RowsNamedInGrows(s, cat.store, tl, prev);
      var g := groups[0].objetos;
      var objs := SeedObjects(cat.store, tl, cat.id, g, orden).value;
      SeedObjectsOrden(cat.store, tl, cat.id, g, orden, prev);
      var t := SeedGroups(objs.store, tl, groups[1..], objs.orden).value.store;
      SeedGroupsOrden(objs.store, tl, groups[1..], objs.orden, prev + g);
      assert Flatten(groups) == g + Flatten(groups[1..]);
      OrdenAppend(objs.store, t, tl, g, Flatten(groups[1..]), orden, prev);
    }
  }

  /** One step of the outer loop: the first group's category and names,
      then the later groups from the state they leave. */
  lemma SeedGroupsStep(s: Store, tl: Id, groups: seq<Group>, orden: nat)
    requires Fresh(s) && groups != [] && SeedGroups(s, tl, groups, orden).Ok?
    ensures GetOrCreateCategoria(s, groups[0].categoria).Ok?
    ensures var cat := GetOrCreateCategoria(s, groups[0].categoria).value;
      && cat.store.tipicos == s.tipicos
      && SeedObjects(cat.store, tl, cat.id, groups[0].objetos, orden).Ok?
    ensures var cat := GetOrCreateCategoria(s, groups[0].categoria).value;
      var objs := SeedObjects(cat.store, tl, cat.id, groups[0].objetos, orden).value;
      SeedGroups(s, tl, groups, orden) == SeedGroups(objs.store, tl, groups[1..], objs.orden)
  {
  }

  /** The first group's passes and the later groups' passes make the
      whole table's. */
  lemma OrdenAppend(mid: Store, t: Store, tl: Id, a: seq<string>, b: seq<string>, orden: nat, prev: seq<string>)
    requires Grows(mid, t) && FirstsListed(mid, tl, a, orden, prev)
    requires RowsNamedIn(t, tl, (prev + a) + b) && FirstsListed(t, tl, b, orden + |a|, prev + a)
    ensures RowsNamedIn(t, tl, prev + (a + b)) && FirstsListed(t, tl, a + b, orden, prev)
  {
    assert (prev + a) + b == prev + (a + b);
    FirstsListedGrows(mid, t, tl, a, orden, prev);
    FirstsListedAppend(t, tl, a, b, orden, prev);
  }

  /** A room type of the table with no typical rows at all is seeded with
      positions 0, 1, 2, ... in table order: the first occurrence of each
      name is listed, active, at its index, and every row of the type
      belongs to a name of its entry. */
  lemma SeedTipicosOrden(s: Store, tl: Id)
    requires Fresh(s) && tl in s.tiposLugar && NoLinks(s.tipicos, tl) && SeedTipicos(s, tl).Ok?
    ensures var names := Flatten(Lookup(s.tiposLugar[tl].tipoDeLugar));
      RowsNamedIn(SeedTipicos(s, tl).value, tl, names)
    ensures FirstsListed(SeedTipicos(s, tl).value, tl, Flatten(Lookup(s.tiposLugar[tl].tipoDeLugar)), 0, [])
  {
    var groups := Lookup(s.tiposLugar[tl].tipoDeLugar);
    assert !HasActive(s.tipicos, tl);
    if groups != [] {
      SeedGroupsOrden(s, tl, groups, 0, []);
      assert [] + Flatten(groups) == Flatten(groups);
    }
  }

  /** Worked example: a bathroom with no typical rows lists its walls
      first and its toilets tenth, after the nine building elements. */
  lemma BanoPositions(s: Store, tl: Id)
    requires Fresh(s) && tl in s.tiposLugar && s.tiposLugar[tl].tipoDeLugar == "Ba\U{F1}o"
    requires NoLinks(s.tipicos, tl) && SeedTipicos(s, tl).Ok?
    ensures ListedAt(SeedTipicos(s, tl).value, tl, "Paredes", 0)
    ensures ListedAt(SeedTipicos(s, tl).value, tl, "Tasas", 9)
  {
    SeedTipicosOrden(s, tl);
    BanoNames();
    var names := Flatten(Lookup("Ba\U{F1}o"));
    FirstListedAt(SeedTipicos(s, tl).value, tl, names, 0, [], 0);
    FirstListedAt(SeedTipicos(s, tl).value, tl, names, 0, [], 9);
  }

  /** The bathroom entry visits "Paredes" first and "Tasas" tenth, neither
      seen before. */
  lemma BanoNames()
    ensures var names := Flatten(Lookup("Ba\U{F1}o"));
      && |names| > 9 && names[0] == "Paredes" && names[9] == "Tasas"
      && IsFirst(names, [], 0) && IsFirst(names, [], 9)
  {
    var groups := TIPICOS_POR_TIPO_LUGAR[0].1;
    LookupEntry(0);
    var later := Flatten(groups[1..]);
    var names := INFRAESTRUCTURA + later;
    assert Flatten(groups) == names;
    assert later == groups[1].objetos + Flatten(groups[2..]);
    assert names[..9] == INFRAESTRUCTURA && names[9] == later[0];
    assert "Tasas" !in INFRAESTRUCTURA;
    assert names[..0] == [];
  }

  /** Seeding happens once: a type of the table with no typical rows at all
      gets at least one active row, so asking again changes nothing. */
  lemma SeedThenNoOp(s: Store, tl: Id)
    requires Fresh(s) && tl in s.tiposLugar && NoLinks(s.tipicos, tl)
    requires exists i | 0 <= i < |TIPICOS_POR_TIPO_LUGAR| :: TIPICOS_POR_TIPO_LUGAR[i].0 == s.tiposLugar[tl].tipoDeLugar
    requires SeedTipicos(s, tl).Ok?
    ensures HasActive(SeedTipicos(s, tl).value.tipicos, tl)
    ensures SeedTipicos(SeedTipicos(s, tl).value, tl) == SeedTipicos(s, tl)
  {
    var i :| 0 <= i < |TIPICOS_POR_TIPO_LUGAR| && TIPICOS_POR_TIPO_LUGAR[i].0 == s.tiposLugar[tl].tipoDeLugar;
    LookupEntry(i);
    TableShape();
    var t := SeedTipicos(s, tl).value;
    assert t.tiposLugar[tl] == s.tiposLugar[tl];
  }

  /** A type whose name the table lacks is never seeded. */
  lemma UnknownTypeNotSeeded(s: Store, tl: Id)
    requires Fresh(s) && tl in s.tiposLugar
    requires forall i | 0 <= i < |TIPICOS_POR_TIPO_LUGAR| :: TIPICOS_POR_TIPO_LUGAR[i].0 != s.tiposLugar[tl].tipoDeLugar
    ensures SeedTipicos(s, tl) == Ok(s)
  {
  }

  /** One step of the inner loop: the first name, then the rest from the
      state it leaves. */
  lemma SeedObjectsStep(s: Store, tl: Id, categoria: Id, names: seq<string>, orden: nat)
    requires Fresh(s) && names != [] && SeedObjects(s, tl, categoria, names, orden).Ok?
    ensures SeedObject(s, tl, categoria, names[0], orden).Ok?
    ensures var one := SeedObject(s, tl, categoria, names[0], orden).value;
      SeedObjects(s, tl, categoria, names, orden) == SeedObjects(one.store, tl, one.categoria, names[1..], one.orden)
  {
  }

  /** The inner loop over two names is two steps. */
  lemma SeedPair(s: Store, tl: Id, categoria: Id, a: string, b: string, orden: nat)
    requires Fresh(s) && SeedObjects(s, tl, categoria, [a, b], orden).Ok?
    ensures SeedObject(s, tl, categoria, a, orden).Ok?
    ensures var one := SeedObject(s, tl, categoria, a, orden).value;
      && SeedObject(one.store, tl, one.categoria, b, one.orden).Ok?
      && SeedObjects(s, tl, categoria, [a, b], orden).value.store
         == SeedObject(one.store, tl, one.categoria, b, one.orden).value.store
  {
    SeedObjectsStep(s, tl, categoria, [a, b], orden);
    var one := SeedObject(s, tl, categoria, a, orden).value;
    assert [a, b][1..] == [b];
    SeedObjectsStep(one.store, tl, one.categoria, [b], one.orden);
    assert [b][1..] == [];
  }

  /** A name no stored object has is created under the category given. */
  lemma NewNameUnder(s: Store, tl: Id, categoria: Id, name: string, orden: nat)
    requires Fresh(s) && SeedObject(s, tl, categoria, name, orden).Ok?
    requires forall k | k in s.objetos :: s.objetos[k].nombreDelObjeto != name
    ensures var t := SeedObject(s, tl, categoria, name, orden).value.store;
      forall k | k in t.objetos && t.objetos[k].nombreDelObjeto == name :: t.objetos[k].categoria == categoria
  {
  }

  /** The category quirk: in a group [a, b] where `a` already stands under
      another category `c`, the new object `b` is created under `c`, not
      under the group's category. */
  lemma SeedQuirk(s: Store, tl: Id, categoria: Id, a: string, b: string, ka: Id, orden: nat)
    requires Fresh(s) && UniqueObjetoNames(s.objetos) && ka in s.objetos && s.objetos[ka].nombreDelObjeto == a
    requires forall k | k in s.objetos :: s.objetos[k].nombreDelObjeto != b
    requires SeedObjects(s, tl, categoria, [a, b], orden).Ok?
    ensures var t := SeedObjects(s, tl, categoria, [a, b], orden).value.store;
      forall k | k in t.objetos && t.objetos[k].nombreDelObjeto == b :: t.objetos[k].categoria == s.objetos[ka].categoria
  {
    SeedPair(s, tl, categoria, a, b, orden);
    var one := SeedObject(s, tl, categoria, a, orden).value;
    assert one.categoria == s.objetos[ka].categoria;
    assert forall k | k in one.store.objetos :: one.store.objetos[k].nombreDelObjeto != b by {
      forall k | k in one.store.objetos ensures one.store.objetos[k].nombreDelObjeto != b {
        if k !in s.objetos { assert one.store.objetos[k] == Objeto(a, categoria); }
      }
    }
    NewNameUnder(one.store, tl, one.categoria, b, one.orden);
  }
}
