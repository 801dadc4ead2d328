/** The validation of the bulk structure page: each field's own checks
    (forms.py:195-260 and 296-368) and the two cross-field validators, of
    the structure form (forms.py:262-289) and of one row of the objects
    formset (forms.py:370-411). Each field holds its cleaned value, what
    the field's `to_python` returns (text stripped of surrounding
    whitespace), or `None` when the field is absent from `cleaned_data`. */
module Forms {
  import opened Wrappers
  import opened Text
  import opened Models

  /** One check of a validator: whether it passes, and the failure it
      reports otherwise. */
  datatype Check<E> = Check(passes: bool, failure: E)

  /** The failure of the first check that does not pass, if any: a
      validator that raises on its first failing check. */
  function FirstFailure<E>(cs: seq<Check<E>>): (r: Option<E>)
    ensures r.None? <==> forall i | 0 <= i < |cs| :: cs[i].passes
    ensures r.Some? ==>
      exists i | 0 <= i < |cs| :: !cs[i].passes && cs[i].failure == r.value
        && forall j | 0 <= j < i :: cs[j].passes
  {
    if cs == [] then None
    else if !cs[0].passes then Some(cs[0].failure)
    else
      var r := FirstFailure(cs[1..]);
      assert forall j | 1 <= j < |cs| :: cs[j] == cs[1..][j - 1];
      r
  }

  /** Four checks fail on the first of them that does not pass. */
  lemma FirstFailureOfFour<E>(a: Check<E>, b: Check<E>, c: Check<E>, d: Check<E>)
    ensures FirstFailure([a, b, c, d]) ==
      if !a.passes then Some(a.failure)
      else if !b.passes then Some(b.failure)
      else if !c.passes then Some(c.failure)
      else if !d.passes then Some(d.failure)
      else None
  {
    assert [d][1..] == [];
    assert FirstFailure([d]) == if !d.passes then Some(d.failure) else FirstFailure([]);
    assert [c, d][1..] == [d];
    assert FirstFailure([c, d]) == if !c.passes then Some(c.failure) else FirstFailure([d]);
    assert [b, c, d][1..] == [c, d];
    assert FirstFailure([b, c, d]) == if !b.passes then Some(b.failure) else FirstFailure([c, d]);
    assert [a, b, c, d][1..] == [b, c, d];
    assert FirstFailure([a, b, c, d]) == if !a.passes then Some(a.failure) else FirstFailure([b, c, d]);
  }

  /** `not (x or "").strip()` on a text field is false: something was typed. */
  predicate Typed(x: Option<string>) {
    !Blank(OrEmpty(x))
  }

  // ---------------------------------------------------------------------
  // EstructuraCompletaForm
  // ---------------------------------------------------------------------

  /** The structure form: an existing choice or a new value per level, and
      the room name. */
  datatype StructForm = StructForm(
    sectorExistente: Option<Id>,
    sectorNuevo: Option<string>,
    ubicacionExistente: Option<Id>,
    ubicacionNueva: Option<string>,
    pisoExistente: Option<Id>,
    pisoNuevo: Option<int>,
    tipoLugarExistente: Option<Id>,
    tipoLugarNuevo: Option<string>,
    nombreDelLugar: string)

  /** The levels of the structure, in the order they are checked. */
  datatype Level = SectorLevel | UbicacionLevel | PisoLevel | TipoLugarLevel

  datatype StructCheck = StructOk | StructError(level: Level)

  /** A level is filled in: an existing row is chosen, or a new value is
      given. For the floor any integer is a value, 0 included; for the named
      levels the new text must not be blank. */
  predicate LevelGiven(f: StructForm, l: Level) {
    match l
    case SectorLevel => f.sectorExistente.Some? || Typed(f.sectorNuevo)
    case UbicacionLevel => f.ubicacionExistente.Some? || Typed(f.ubicacionNueva)
    case PisoLevel => f.pisoExistente.Some? || f.pisoNuevo.Some?
    case TipoLugarLevel => f.tipoLugarExistente.Some? || Typed(f.tipoLugarNuevo)
  }

  /** The checks of `EstructuraCompletaForm.clean` in source order. */
  function StructChecks(f: StructForm): seq<Check<Level>> {
    [ Check(LevelGiven(f, SectorLevel), SectorLevel),
      Check(LevelGiven(f, UbicacionLevel), UbicacionLevel),
      Check(LevelGiven(f, PisoLevel), PisoLevel),
      Check(LevelGiven(f, TipoLugarLevel), TipoLugarLevel) ]
  }

  /** `EstructuraCompletaForm.clean`: the first level left empty is
      reported, and a form with every level filled in is accepted. */
  function CleanStructure(f: StructForm): (r: StructCheck)
    ensures r == StructOk <==>
      LevelGiven(f, SectorLevel) && LevelGiven(f, UbicacionLevel)
      && LevelGiven(f, PisoLevel) && LevelGiven(f, TipoLugarLevel)
    ensures r == StructError(SectorLevel) <==> !LevelGiven(f, SectorLevel)
    ensures r == StructError(UbicacionLevel) <==>
      LevelGiven(f, SectorLevel) && !LevelGiven(f, UbicacionLevel)
    ensures r == StructError(PisoLevel) <==>
      LevelGiven(f, SectorLevel) && LevelGiven(f, UbicacionLevel) && !LevelGiven(f, PisoLevel)
    ensures r == StructError(TipoLugarLevel) <==>
      LevelGiven(f, SectorLevel) && LevelGiven(f, UbicacionLevel) && LevelGiven(f, PisoLevel)
      && !LevelGiven(f, TipoLugarLevel)
  {
    if f.sectorExistente.None? && Blank(OrEmpty(f.sectorNuevo)) then StructError(SectorLevel)
    else if f.ubicacionExistente.None? && Blank(OrEmpty(f.ubicacionNueva)) then StructError(UbicacionLevel)
    else if f.pisoExistente.None? && f.pisoNuevo.None? then StructError(PisoLevel)
    else if f.tipoLugarExistente.None? && Blank(OrEmpty(f.tipoLugarNuevo)) then StructError(TipoLugarLevel)
    else StructOk
  }

  /** The validator raises exactly the first failing check of the list. */
  lemma CleanStructureIsFirstFailure(f: StructForm)
    ensures CleanStructure(f) == match FirstFailure(StructChecks(f))
      case None => StructOk
      case Some(l) => StructError(l)
  {
    var cs := StructChecks(f);
    FirstFailureOfFour(cs[0], cs[1], cs[2], cs[3]);
  }

  /** A floor number of 0 is a value: with it, the floor level passes. */
  lemma FloorZeroIsAValue(f: StructForm)
    requires f.pisoExistente.None? && f.pisoNuevo == Some(0)
    requires LevelGiven(f, SectorLevel) && LevelGiven(f, UbicacionLevel)
    ensures CleanStructure(f) != StructError(PisoLevel)
  {
  }

  /** A new name of spaces alone is not a value. */
  lemma BlankNameIsNoValue(f: StructForm)
    requires f.sectorExistente.None? && f.sectorNuevo == Some(" \t")
    ensures CleanStructure(f) == StructError(SectorLevel)
  {
    assert IsSpace(' ') && IsSpace('\t');
    assert " \t"[1..] == "\t" && "\t"[1..] == [];
    assert TrimLeft(" \t") == [];
  }

  // ---------------------------------------------------------------------
  // ObjetoLugarFilaForm
  // ---------------------------------------------------------------------

  /** One row of the objects formset. */
  datatype RowForm = RowForm(
    categoriaExistente: Option<Id>,
    categoriaNueva: Option<string>,
    objetoExistente: Option<Id>,
    objetoNuevo: Option<string>,
    tipoObjetoExistente: Option<Id>,
    marca: Option<string>,
    material: Option<string>,
    cantidad: Option<int>,
    estado: Option<string>,
    detalle: Option<string>)

  /** `value not in (None, "", 0)` for each kind of field. */
  predicate ChoiceUsed(x: Option<Id>) { x.Some? }
  predicate TextUsed(x: Option<string>) { x.Some? && x.value != "" }
  predicate NumberUsed(x: Option<int>) { x.Some? && x.value != 0 }

  /** Some of the ten checked fields holds a value other than None, "" or 0. */
  predicate RowUsed(f: RowForm) {
    || ChoiceUsed(f.categoriaExistente) || TextUsed(f.categoriaNueva)
    || ChoiceUsed(f.objetoExistente) || TextUsed(f.objetoNuevo)
    || ChoiceUsed(f.tipoObjetoExistente) || TextUsed(f.marca) || TextUsed(f.material)
    || NumberUsed(f.cantidad) || TextUsed(f.estado) || TextUsed(f.detalle)
  }

  /** `value not in (None, "", 0)` for the ten checked fields, in the
      order they are listed. */
  function CheckedFields(f: RowForm): seq<bool> {
    [ ChoiceUsed(f.categoriaExistente), TextUsed(f.categoriaNueva),
      ChoiceUsed(f.objetoExistente), TextUsed(f.objetoNuevo),
      ChoiceUsed(f.tipoObjetoExistente), TextUsed(f.marca), TextUsed(f.material),
      NumberUsed(f.cantidad), TextUsed(f.estado), TextUsed(f.detalle) ]
  }

  /** What a used row can lack, in the order it is checked. */
  datatype RowProblem = NoCategoria | NoObjeto | NoCantidad | NoEstado

  /** `__empty__` set to True, a validation error, or `__empty__` False. */
  datatype RowCheck = RowEmpty | RowError(problem: RowProblem) | RowFilled

  predicate CategoriaGiven(f: RowForm) { f.categoriaExistente.Some? || Typed(f.categoriaNueva) }
  predicate ObjetoGiven(f: RowForm) { f.objetoExistente.Some? || Typed(f.objetoNuevo) }
  predicate CantidadGiven(f: RowForm) { f.cantidad.Some? }
  predicate EstadoGiven(f: RowForm) { f.estado.Some? && f.estado.value != "" }

  /** The checks a used row goes through, in source order. */
  function RowChecks(f: RowForm): seq<Check<RowProblem>> {
    [ Check(CategoriaGiven(f), NoCategoria),
      Check(ObjetoGiven(f), NoObjeto),
      Check(CantidadGiven(f), NoCantidad),
      Check(EstadoGiven(f), NoEstado) ]
  }

  /** `ObjetoLugarFilaForm.clean`. A row with nothing in it is marked empty
      and not checked further; a used row must name a category, then an
      object, then give a quantity, then a condition. A kind, brand or
      material is never required. */
  function CleanRow(f: RowForm): (r: RowCheck)
    ensures r == RowEmpty <==> !RowUsed(f)
    ensures RowUsed(f) ==> r == match FirstFailure(RowChecks(f))
      case None => RowFilled
      case Some(p) => RowError(p)
  {
    var cs := RowChecks(f);
    FirstFailureOfFour(cs[0], cs[1], cs[2], cs[3]);
    if true !in CheckedFields(f) then RowEmpty
    else if f.categoriaExistente.None? && Blank(OrEmpty(f.categoriaNueva)) then RowError(NoCategoria)
    else if f.objetoExistente.None? && Blank(OrEmpty(f.objetoNuevo)) then RowError(NoObjeto)
    else if f.cantidad.None? then RowError(NoCantidad)
    else if f.estado.None? || f.estado.value == "" then RowError(NoEstado)
    else RowFilled
  }

  /** The outcome of a row, spelled out: empty when nothing is used;
      otherwise the first of category, object, quantity and condition that
      is missing; otherwise accepted. */
  lemma CleanRowOutcomes(f: RowForm)
    ensures CleanRow(f) == RowFilled <==>
      RowUsed(f) && CategoriaGiven(f) && ObjetoGiven(f) && CantidadGiven(f) && EstadoGiven(f)
    ensures CleanRow(f) == RowError(NoCategoria) <==> RowUsed(f) && !CategoriaGiven(f)
    ensures CleanRow(f) == RowError(NoObjeto) <==> RowUsed(f) && CategoriaGiven(f) && !ObjetoGiven(f)
    ensures CleanRow(f) == RowError(NoCantidad) <==>
      RowUsed(f) && CategoriaGiven(f) && ObjetoGiven(f) && !CantidadGiven(f)
    ensures CleanRow(f) == RowError(NoEstado) <==>
      RowUsed(f) && CategoriaGiven(f) && ObjetoGiven(f) && CantidadGiven(f) && !EstadoGiven(f)
  {
    var cs := RowChecks(f);
    FirstFailureOfFour(cs[0], cs[1], cs[2], cs[3]);
  }

  /** Kind, brand and material decide only whether the row is used: two
      used rows that differ in nothing else are judged alike. */
  lemma KindNeverRequired(f: RowForm, tipo: Option<Id>, marca: Option<string>, material: Option<string>)
    requires RowUsed(f)
    requires RowUsed(f.(tipoObjetoExistente := tipo, marca := marca, material := material))
    ensures CleanRow(f.(tipoObjetoExistente := tipo, marca := marca, material := material)) == CleanRow(f)
  {
  }

  // ---------------------------------------------------------------------
  // Field validation, before either `clean`
  // ---------------------------------------------------------------------

  /** `max_length=100`, on every text field but the detail. */
  const MAX_LENGTH: nat := 100

  /** A text field's cleaned value: `CharField` strips surrounding
      whitespace before anything else looks at it (`TrimmedIsStripped`,
      `StripEnds`). */
  predicate StrippedText(x: Option<string>) {
    x.None? || Trimmed(x.value)
  }

  /** An optional text field with `max_length=100`. */
  predicate ShortText(x: Option<string>) {
    StrippedText(x) && |OrEmpty(x)| <= MAX_LENGTH
  }

  /** The structure form's own field checks: the new names are at most 100
      characters, and the room name is required (not empty once stripped)
      and at most 100 characters. The floor number is any integer. */
  predicate StructFieldsValid(f: StructForm) {
    && ShortText(f.sectorNuevo) && ShortText(f.ubicacionNueva) && ShortText(f.tipoLugarNuevo)
    && ShortText(Some(f.nombreDelLugar)) && f.nombreDelLugar != ""
  }

  /** A row's own field checks: the new names, brand and material are at
      most 100 characters, the detail has no limit, a quantity is at least
      1 (`min_value=1`) and a condition is empty or one of the choices. */
  predicate RowFieldsValid(f: RowForm) {
    && ShortText(f.categoriaNueva) && ShortText(f.objetoNuevo)
    && ShortText(f.marca) && ShortText(f.material) && StrippedText(f.detalle)
    && (f.cantidad.None? || f.cantidad.value >= 1)
    && (f.estado.None? || f.estado.value == "" || ValidEstado(f.estado.value))
  }

  /** Something is chosen, typed (not blank) or given in the row. */
  predicate AnythingGiven(f: RowForm) {
    || f.categoriaExistente.Some? || Typed(f.categoriaNueva)
    || f.objetoExistente.Some? || Typed(f.objetoNuevo)
    || f.tipoObjetoExistente.Some? || Typed(f.marca) || Typed(f.material)
    || CantidadGiven(f) || EstadoGiven(f) || Typed(f.detalle)
  }

  /** A cleaned text is used exactly when something was typed: stripping
      has already removed the spaces `clean` would ignore. */
  lemma StrippedUsedIffTyped(x: Option<string>)
    requires StrippedText(x)
    ensures TextUsed(x) <==> Typed(x)
  {
    if x.Some? {
      TrimmedIsStripped(x.value);
    }
  }

  /** After the field checks, a row is used exactly when it names a
      category, object or kind, or types a name, brand, material or detail,
      or gives a quantity or a condition: a quantity of 0 or a detail of
      spaces never reaches the row validator. */
  lemma UsedIffGiven(f: RowForm)
    requires RowFieldsValid(f)
    ensures RowUsed(f) <==> AnythingGiven(f)
  {
    UsedMeansGiven(f);
    GivenMeansUsed(f);
  }

  /** A used row, once its fields are checked, has something given. */
  lemma UsedMeansGiven(f: RowForm)
    requires RowFieldsValid(f)
    ensures RowUsed(f) ==> AnythingGiven(f)
  {
    if TextUsed(f.categoriaNueva) {
      StrippedUsedIffTyped(f.categoriaNueva);
    } else if TextUsed(f.objetoNuevo) {
      StrippedUsedIffTyped(f.objetoNuevo);
    } else if TextUsed(f.marca) {
      StrippedUsedIffTyped(f.marca);
    } else if TextUsed(f.material) {
      StrippedUsedIffTyped(f.material);
    } else if TextUsed(f.detalle) {
      StrippedUsedIffTyped(f.detalle);
    } else if RowUsed(f) {
      assert || f.categoriaExistente.Some? || f.objetoExistente.Some? || f.tipoObjetoExistente.Some?
             || CantidadGiven(f) || EstadoGiven(f);
    }
  }

  /** A row with something given is used. */
  lemma GivenMeansUsed(f: RowForm)
    requires RowFieldsValid(f)
    ensures AnythingGiven(f) ==> RowUsed(f)
  {
    TypedIsUsed(f.categoriaNueva);
    TypedIsUsed(f.objetoNuevo);
    TypedIsUsed(f.marca);
    TypedIsUsed(f.material);
    TypedIsUsed(f.detalle);
  }

  /** Typed text is never empty, stripped or not. */
  lemma TypedIsUsed(x: Option<string>)
    ensures Typed(x) ==> TextUsed(x)
  {
  }
}
