# pvsa_p inventory core in Dafny

A model of the core of the pvsa_p inventory, a Django application. The
inventory records which objects stand in which rooms of a building and in
what condition. Rooms hang from a hierarchy: sector, location, floor, room.
Each room has a room type. Objects are catalogued by category, object and
object kind; a kind is an object together with a brand and a material. A
placed item is a quantity of one kind in one room, with a condition code
(B good, P pending, M bad), a free-text detail and a date. Editing an item
keeps a history of its earlier quantity, condition and detail.

The model covers:

- the database as one immutable value, with the declared unique columns and
  foreign keys as invariants (`Models`, with deletes in `Deletion`);
- `ObjetoLugar.save` and its change history (`History`);
- the two forms: their field checks (required room name, quantity at least
  1, the condition choices, text lengths) and their cross-field validators
  (`Forms`);
- the bulk creation page `crear_estructura`, including the
  `get_or_create` lookups it is built on (`Estructura`, `Catalog`);
- replacing a room type's typical objects, and seeding them from the
  built-in table `TIPICOS_POR_TIPO_LUGAR` (`Tipicos`, `Seeding`);
- the summary report `resumen_general` with `_add_percentages`
  (`Resumen`, built on the ordering model in `Sorting`);
- the spreadsheet helpers: sheet names, the kind text, the condition fill
  and one room's block of rows (`Excel`).

`Text` models the few Python string operations these use: `strip`,
`split`, `join`, `str(int)` and `isspace`. `Wrappers` holds `Option` and
`Result`.

Conventions:

- Every failure is a `Fault` value (`DoesNotExist`, `IntegrityError`,
  `MultipleObjectsReturned`, `AttributeError`, ...). A view that would raise
  returns `Err`. A function that writes returns the new database.
- The database's own constraints are stated as `Valid`. Each operation has a
  `...KeepsValid` lemma showing that a successful call preserves them.
- `ORDER BY` follows SQLite: NULLs first, and text compared by code point.
- A condition code outside the three choices is kept as it is. The column
  does not restrict it, and `get_estado_display` shows the raw code.

Quirks of the code that the model reproduces and states:

- While seeding typical objects, finding an object that already stands in
  another category switches the loop's current category to that one. Later
  new objects of the same group are then created under it (views.py:1871-1872).
- `_safe_sheet_name` cuts at 31 characters after collapsing spaces, so its
  result can end in a space. It is therefore not idempotent.
- The summary groups items without a room under a NULL sector and location;
  the items are not dropped.
- The summary raises `AttributeError` when an item in bad condition has no
  kind (views.py:1584).
- The kind text shows "-" both when brand and material are blank and when
  the brand is literally "-" and the material blank.
- `excel_utils.py:32` annotates a parameter with the undefined name
  `workbook`. Only `Workbook` is imported, at excel_utils.py:2. On Python
  before 3.14 annotations are evaluated at definition time, so importing the
  module raises `NameError`. The model describes the function as if the
  annotation were valid.

## Model

| member | source | states |
|---|---|---|
| Models.EstadoDisplay | p_w_pvsa/models.py:137-144 | the display label of B, P and M is Bueno, Pendiente and Malo; any other code is shown as it is |
| Models.WriteItemKeepsValid | p_w_pvsa/models.py:148-164 | overwriting a stored item with a row whose nullable room and kind keys are NULL or exist keeps every declared constraint |
| Models.InsertItemKeepsValid | p_w_pvsa/models.py:136-164 | inserting an item whose references exist keeps every declared constraint |
| Models.AppendHistoryKeepsValid | p_w_pvsa/models.py:211-224 | appending a snapshot that names a stored item keeps every declared constraint |
| Sorting.SortBy | p_w_pvsa/views.py:1516 | `order_by` yields a permutation of its input, sorted by the key with NULLs first |
| Sorting.KeyLeTotal | p_w_pvsa/views.py:1536-1539 | the multi-column SQL ordering is total: any two keys compare one way or the other |
| Sorting.KeyLeTrans | p_w_pvsa/views.py:1536-1539 | the multi-column SQL ordering is transitive |
| History.Insert | p_w_pvsa/models.py:207-208 | saving a new instance adds exactly one item under a fresh key, dated today; all else is unchanged and no snapshot is recorded; a NULL detail or a missing room or kind is an IntegrityError |
| History.Update | p_w_pvsa/models.py:186-205 | saving a stored instance reads the old row (DoesNotExist when it is gone) and overwrites it; exactly one snapshot of the old values is appended iff quantity, condition or detail changed, with a NULL detail equal to "" |
| History.Save | p_w_pvsa/models.py:181-208 | no key inserts and a key updates; no other item changes; the history keeps every snapshot and gains at most one |
| History.SaveKeepsValid | p_w_pvsa/models.py:181-208 | a successful save keeps the declared constraints |
| History.Load | p_w_pvsa/models.py:187 | the instance read back under a key has that key and writes back the stored row |
| History.SaveLoadedIsNoOp | p_w_pvsa/models.py:189-193 | saving a row unchanged leaves the database identical, with no snapshot |
| History.MoveIsNotTracked | p_w_pvsa/models.py:189-193 | changing only the room or the kind rewrites the row but records no snapshot |
| History.NullDetailEqualsEmpty | p_w_pvsa/models.py:192 | a NULL detail and "" are the same for change detection |
| History.EditKeepsFecha | p_w_pvsa/models.py:196-205 | an edit never advances the item's date, and a recorded snapshot carries the old date |
| History.NullDetailIsRejected | p_w_pvsa/models.py:145 | saving with a NULL detail fails in both branches, because the column is NOT NULL |
| History.ExampleChangeRecorded | p_w_pvsa/models.py:194-205 | editing (5, B, "ok") to (3, P, "ok") records the snapshot (5, B, "ok", old date) |
| Deletion.Delete | p_w_pvsa/models.py:13-164 | a delete fails with DoesNotExist on a missing row and is refused iff a RESTRICT key still points at the row |
| Deletion.DeleteRemovesExactly | p_w_pvsa/models.py:111-123 | a delete removes from each table exactly the row and its CASCADE dependants: typical rows of a room type or a kind |
| Deletion.DeleteKeepsRows | p_w_pvsa/models.py:13-164 | every row a delete leaves was there before, unchanged |
| Deletion.DeleteHistory | p_w_pvsa/models.py:215-220 | deleting an item drops exactly its snapshots and keeps the other snapshots in order; other deletes keep the history |
| Deletion.DeleteKeepsValid | p_w_pvsa/models.py:13-164 | a delete the RESTRICT keys allow keeps every declared constraint |
| Deletion.DeleteUndoesInsert | p_w_pvsa/models.py:211-220 | deleting an item right after inserting it gives back the database, except for the key counter |
| Deletion.DropHistory | p_w_pvsa/models.py:215-220 | the history without an item's snapshots holds exactly the other snapshots |
| Deletion.DropHistoryAppend | p_w_pvsa/models.py:215-220 | the cascade keeps the other snapshots in their order: dropping from two runs of history is dropping from each and joining the results |
| Catalog.GetOrCreateIn | p_w_pvsa/views.py:58 | get_or_create returns the one matching row unchanged, creates the row under a new key iff nothing matches and no unique column clashes, fails with MultipleObjectsReturned iff two rows match, and fails with IntegrityError iff nothing matches but a unique column clashes |
| Catalog.GetOrCreateFinds | p_w_pvsa/views.py:58 | when exactly one stored row matches, that row is returned and nothing is written |
| Catalog.GetOrCreateIdempotent | p_w_pvsa/views.py:58 | a second get_or_create with the same arguments finds the row the first one returned or created |
| Catalog.GetOrCreateSector | p_w_pvsa/views.py:58 | the sector named `name` is found or created; it is created iff no sector has that name |
| Catalog.GetOrCreateUbicacion | p_w_pvsa/views.py:66-69 | the location is looked up by name and sector; a name taken under another sector is an IntegrityError because the name is unique |
| Catalog.GetOrCreatePiso | p_w_pvsa/views.py:77-80 | the floor is looked up by number and location and may repeat; two equal floors give MultipleObjectsReturned |
| Catalog.GetOrCreateTipoLugar | p_w_pvsa/views.py:88-90 | the room type named `name` is found or created |
| Catalog.GetOrCreateCategoria | p_w_pvsa/views.py:117-119 | the category named `name` is found or created |
| Catalog.GetOrCreateObjeto | p_w_pvsa/views.py:125-128 | the object is looked up by name and category; a name taken under another category is an IntegrityError |
| Catalog.GetOrCreateObjetoNamed | p_w_pvsa/views.py:1866-1869 | the object is looked up by name alone and created under the given category only when missing |
| Catalog.GetOrCreateTipoObjeto | p_w_pvsa/views.py:135-139 | the kind is looked up by object, brand and material, and created when missing |
| Catalog.GetOrCreateTipico | p_w_pvsa/views.py:1880-1884 | the typical row for the pair is found, or created active at the given position |
| Catalog.CreateLugar | p_w_pvsa/views.py:96-100 | a new room is created under a fresh key iff its floor and room type exist; otherwise the insert is an IntegrityError |
| Catalog.GetOrCreateSectorKeepsValid | p_w_pvsa/models.py:6 | creating sectors through get_or_create keeps sector names unique and every other constraint |
| Catalog.GetOrCreateTipicoKeepsValid | p_w_pvsa/models.py:127-128 | get_or_create of a typical row keeps the (room type, kind) pair unique |
| Forms.FirstFailure | p_w_pvsa/forms.py:262-289 | a validator reports the failure of its first failing check, and passes iff every check passes |
| Forms.CleanStructure | p_w_pvsa/forms.py:262-289 | the structure form is accepted iff each of sector, location, floor and room type is chosen or given; otherwise it reports the first level left empty |
| Forms.CleanStructureIsFirstFailure | p_w_pvsa/forms.py:262-289 | the structure validator is the first failure of its four checks in source order |
| Forms.FloorZeroIsAValue | p_w_pvsa/forms.py:278 | a new floor number 0 counts as given |
| Forms.BlankNameIsNoValue | p_w_pvsa/forms.py:266 | a new sector name of whitespace alone counts as missing |
| Forms.CleanRow | p_w_pvsa/forms.py:370-411 | a row is marked empty iff none of its ten fields holds a value other than None, "" or 0; a used row reports the first missing check among category, object, quantity and condition |
| Forms.CleanRowOutcomes | p_w_pvsa/forms.py:386-411 | each outcome of a row holds exactly under its conditions: accepted, or missing category, object, quantity or condition |
| Forms.KindNeverRequired | p_w_pvsa/forms.py:398-402 | kind, brand and material never decide a used row's outcome |
| Forms.StrippedUsedIffTyped | p_w_pvsa/forms.py:380 | a text field Django has already stripped counts as a value iff it is not blank |
| Forms.UsedIffGiven | p_w_pvsa/forms.py:296-382 | after the field checks, a row is used iff it names a category, object or kind, types a brand, material or detail, or gives a quantity or condition |
| Estructura.SkippedIffMarkedEmpty | p_w_pvsa/views.py:106-109 | the view skips exactly the entries without cleaned data and those the row validator marked empty |
| Estructura.DefaultsUnusedOnFilledRows | p_w_pvsa/views.py:141-142 | on an accepted row neither the quantity default 0 nor the condition default B applies |
| Estructura.AcceptedRowValues | p_w_pvsa/views.py:141-142 | an accepted row that passed its field checks is stored with a quantity of at least 1 and a condition among B, P and M |
| Estructura.QuantityBelowOneRejected | p_w_pvsa/forms.py:350-357 | a quantity below 1 in any posted row fails `min_value=1`, so the submission writes nothing |
| Estructura.UnknownEstadoRejected | p_w_pvsa/forms.py:358-363 | a non-empty condition other than B, P or M fails the choice field, so the submission writes nothing |
| Estructura.BlankRoomNameRejected | p_w_pvsa/forms.py:256-260 | the room name is required: a blank one fails the form, so the submission writes nothing |
| Estructura.ResolveSector | p_w_pvsa/views.py:55-58 | the chosen sector is used as it is; otherwise the stripped new name is found or created |
| Estructura.ResolveSectorNamed | p_w_pvsa/views.py:55-58 | with no sector chosen, the sector returned carries the stripped new name |
| Estructura.ResolveUbicacion | p_w_pvsa/views.py:63-69 | the chosen location is used; otherwise the stripped new name is found or created under the resolved sector |
| Estructura.ResolveUbicacionNamed | p_w_pvsa/views.py:63-69 | with no location chosen, the location returned has the stripped new name and the resolved sector |
| Estructura.ResolvePiso | p_w_pvsa/views.py:74-80 | the chosen floor is used; otherwise the new number, 0 included, is found or created under the resolved location |
| Estructura.ResolvePisoNamed | p_w_pvsa/views.py:74-80 | with no floor chosen, the floor returned has the new number and the resolved location |
| Estructura.ResolveTipoLugar | p_w_pvsa/views.py:85-90 | the chosen room type is used; otherwise the stripped new name is found or created |
| Estructura.ResolveTipoLugarNamed | p_w_pvsa/views.py:85-90 | with no room type chosen, the type returned carries the stripped new name |
| Estructura.CreateRoom | p_w_pvsa/views.py:55-100 | a new room is created with the stripped name on the resolved floor and type |
| Estructura.ResolveCategoria | p_w_pvsa/views.py:114-119 | the chosen category is used; otherwise the stripped new name is found or created |
| Estructura.ResolveCategoriaNamed | p_w_pvsa/views.py:114-119 | with no category chosen, the category returned carries the stripped new name |
| Estructura.ResolveObjeto | p_w_pvsa/views.py:122-128 | the chosen object is used; otherwise the stripped new name is found or created under the resolved category |
| Estructura.ResolveObjetoNamed | p_w_pvsa/views.py:122-128 | with no object chosen, the object returned has the stripped new name and the resolved category |
| Estructura.ResolveTipoObjeto | p_w_pvsa/views.py:131-139 | the chosen kind is used; otherwise the kind with the stripped brand and material is found or created for the object |
| Estructura.ResolveTipoObjetoNamed | p_w_pvsa/views.py:131-139 | with no kind chosen, the kind returned is the resolved object with the stripped brand and material |
| Estructura.PlaceRow | p_w_pvsa/views.py:111-151 | a used row creates exactly one new item in the room, with the row's quantity, condition and stripped detail |
| Estructura.UsedRowsAppend | p_w_pvsa/views.py:105-109 | the rows the loop uses keep formset order: those of two runs of entries are the first run's followed by the second's |
| Estructura.PlaceRows | p_w_pvsa/views.py:105-151 | the loop creates one new item per used row, in formset order, and none for skipped rows |
| Estructura.CrearEstructura | p_w_pvsa/views.py:44-151 | an invalid submission writes nothing; a valid one creates the room the form describes and one new item per used row, or fails with a database error |
| Estructura.PlaceRowsAddsExactly | p_w_pvsa/views.py:105-151 | the row loop adds to the items exactly the keys it reports |
| Estructura.CrearEstructuraAddsExactly | p_w_pvsa/views.py:44-151 | a successful submission adds exactly the items it reports, each under its own key, and no other |
| Estructura.CrearEstructuraKeepsValid | p_w_pvsa/views.py:44-151 | a successful submission keeps every declared constraint |
| Tipicos.Survivors | p_w_pvsa/views.py:820-828 | a number survives iff some posted value parses to it, and there are never more survivors than values |
| Tipicos.SurvivorsOne | p_w_pvsa/views.py:824-828 | a single posted value survives as its number iff `int()` accepts it, and is dropped otherwise |
| Tipicos.SurvivorsAppend | p_w_pvsa/views.py:820-828 | survivors keep posted order and repeats: the survivors of two runs of values are the first run's followed by the second's |
| Tipicos.SurvivorsAllParse | p_w_pvsa/views.py:824-826 | when every value parses, nothing is dropped and the order is kept |
| Tipicos.SurvivorsNoneParse | p_w_pvsa/views.py:827-828 | when no value parses, nothing survives |
| Tipicos.NewLinks | p_w_pvsa/views.py:832-842 | the bulk insert writes survivor i as an active row with position i, under consecutive new keys |
| Tipicos.ReplaceTipicos | p_w_pvsa/views.py:817-842 | a missing room type is DoesNotExist; otherwise the replacement succeeds iff every survivor names a stored kind with no repeats; only the typical rows and the key counter change |
| Tipicos.ReplaceTipicosRows | p_w_pvsa/views.py:830-842 | after a replacement the type's rows are exactly the survivors, active, at their positions; other types' rows are untouched |
| Tipicos.ReplaceTipicosLinks | p_w_pvsa/views.py:830-842 | after a replacement the type's (kind, position) pairs are exactly the survivors with their positions |
| Tipicos.ReplaceTipicosTwice | p_w_pvsa/views.py:830-842 | posting the same values again gives the same list |
| Tipicos.ReplaceWithNothingClears | p_w_pvsa/views.py:831 | posting no parsable value clears the type's list |
| Tipicos.ReplaceTipicosKeepsValid | p_w_pvsa/views.py:830-842 | a replacement keeps every declared constraint, the unique (room type, kind) pair included |
| Seeding.Lookup | p_w_pvsa/views.py:1855 | a room type name missing from the table gives no groups |
| Seeding.LookupEntry | p_w_pvsa/views.py:1745-1833 | each room type name of the table finds its own entry |
| Seeding.TableShape | p_w_pvsa/views.py:1745-1833 | every entry of the table has a group, each group names objects, and no name repeats as a key |
| Seeding.BanoCount | p_w_pvsa/views.py:1746-1760 | a bathroom seeds 18 typical objects |
| Seeding.KindFor | p_w_pvsa/views.py:1866-1878 | a name resolves to a kind with empty brand and material of the object so named; a new object goes under the current category; the loop continues with the object's own category |
| Seeding.SeedObject | p_w_pvsa/views.py:1865-1885 | one name is linked to the room type, the position advances by one, and a type without rows gains an active one |
| Seeding.SeedObjects | p_w_pvsa/views.py:1865-1885 | every name of a group is linked to the room type, and the position advances by the group's size |
| Seeding.SeedGroups | p_w_pvsa/views.py:1858-1885 | every name of every group is linked, and the position advances by the total count |
| Seeding.SeedTipicos | p_w_pvsa/views.py:1839-1885 | a missing type is DoesNotExist; a type with an active row, or one absent from the table, is left as it is; otherwise every tabled name is linked to it |
| Seeding.SeedObjectOrden | p_w_pvsa/views.py:1865-1885 | every typical row of the type names a seeded object; a name not seen before gets an active row at the current position |
| Seeding.SeedObjectsOrden | p_w_pvsa/views.py:1865-1885 | over a group, the first occurrence of the i-th name is listed active at position orden + i |
| Seeding.SeedGroupsOrden | p_w_pvsa/views.py:1858-1885 | over all groups, the first occurrence of the i-th name is listed active at position orden + i, counting across groups |
| Seeding.SeedTipicosOrden | p_w_pvsa/views.py:1839-1885 | after seeding a type without rows, its typical rows name only tabled objects, and the first occurrence of the i-th tabled name is active at position i |
| Seeding.BanoPositions | p_w_pvsa/views.py:1746-1760 | seeding a bathroom lists Paredes at position 0 and Tasas at position 9 |
| Seeding.SeedTipicosKeepsValid | p_w_pvsa/views.py:1859-1885 | seeding keeps every declared constraint |
| Seeding.SeedThenNoOp | p_w_pvsa/views.py:1853-1854 | seeding happens once: after it the type has an active row and a second call changes nothing |
| Seeding.UnknownTypeNotSeeded | p_w_pvsa/views.py:1855-1857 | a type whose name the table lacks is never seeded |
| Seeding.NewNameUnder | p_w_pvsa/views.py:1866-1869 | a name no object has is created under the category given |
| Seeding.SeedQuirk | p_w_pvsa/views.py:1871-1872 | when `a` already stands under another category, the next new object `b` of the same group is created under `a`'s category, not the group's |
| Resumen.Join | p_w_pvsa/views.py:1468-1477 | an item joined with its room, floor, location, sector, kind, object and category; a NULL or missing link gives NULL columns |
| Resumen.Rows | p_w_pvsa/views.py:1468 | the joined rows list every stored item exactly once, in key order |
| Resumen.Param | p_w_pvsa/views.py:1454-1463 | a missing or empty parameter is no filter; any other value is kept |
| Resumen.Where | p_w_pvsa/views.py:1479-1500 | `.filter` keeps exactly the rows satisfying the condition, and never more rows than it is given |
| Resumen.WhereOne | p_w_pvsa/views.py:1479-1500 | a single row is kept iff it satisfies the condition |
| Resumen.WhereAppend | p_w_pvsa/views.py:1479-1500 | `.filter` keeps order: filtering two runs of rows gives the first run's kept rows followed by the second's |
| Resumen.WhereWhere | p_w_pvsa/views.py:1479-1500 | two filters in a row are one filter by both conditions |
| Resumen.BaseMatches | p_w_pvsa/views.py:1479-1500 | the chain of ten optional filters keeps, in order, exactly the rows that pass every filter given |
| Resumen.BaseMembers | p_w_pvsa/views.py:1479-1500 | a row is in the filtered base iff it is stored and passes the filters |
| Resumen.NoFiltersKeepAll | p_w_pvsa/views.py:1479-1500 | with no filter given, the base is every row in order |
| Resumen.SumWhere | p_w_pvsa/views.py:1511-1514 | SQL SUM is NULL over no row and otherwise the sum of the quantities |
| Resumen.PartsAddUp | p_w_pvsa/views.py:1511-1514 | when every condition is B, P or M, the good, pending and bad sums add up to the total |
| Resumen.AddPercentages | p_w_pvsa/views.py:1434-1447 | missing sums read as 0; a zero total gives 0 shares; otherwise each share is its part over the total times 100 |
| Resumen.SharesAddUp | p_w_pvsa/views.py:1441-1446 | when the parts add up to a non-zero total, the three shares add up to 100 |
| Resumen.KeysOf | p_w_pvsa/views.py:1506-1509 | the distinct values of the grouped columns, each once |
| Resumen.Groups | p_w_pvsa/views.py:1505-1515 | one summary row per distinct grouped value, with that group's sums and shares |
| Resumen.Summarise | p_w_pvsa/views.py:1505-1519 | a summary table lists each group that occurs exactly once, with the group's sums and shares, sorted by the ordering columns |
| Resumen.MalosList | p_w_pvsa/views.py:1564-1580 | the bad-condition list holds exactly the base's M rows, sorted by object, sector, location, floor and room |
| Resumen.MalosPorObjeto | p_w_pvsa/views.py:1582-1585 | the grouping loop fails with AttributeError iff some bad item has no kind; otherwise each object key maps to its items in list order |
| Resumen.ResumenObjetos | p_w_pvsa/views.py:1587-1603 | one entry per object row, in the table's order |
| Resumen.ResumenGeneral | p_w_pvsa/views.py:1449-1603 | the report fails with AttributeError iff some row passing the filters is in bad condition and has no kind |
| Resumen.ReportTables | p_w_pvsa/views.py:1502-1542 | the sector and location tables list exactly the groups of rows passing the filters, with those rows' sums and shares, sorted by name |
| Resumen.ReportObjetos | p_w_pvsa/views.py:1544-1603 | there is an object entry iff some row passing the filters has that object; its counts are the group's sums with NULL read as 0 |
| Resumen.ReportMalos | p_w_pvsa/views.py:1563-1601 | an entry's bad items are exactly the filtered M rows of its object, in the list's order |
| Resumen.ReportPartsAddUp | p_w_pvsa/views.py:1594-1597 | when all conditions are B, P or M, each entry's good, pending and bad counts add up to its total |
| Resumen.ReportOf | p_w_pvsa/views.py:1449-1603 | over a database, the report fails iff a filtered item in bad condition joins to no kind |
| Resumen.ReportFailsOnNullKind | p_w_pvsa/views.py:1584 | in a valid database the report fails iff a filtered item in bad condition has a NULL kind |
| Resumen.NullLugarGrouped | p_w_pvsa/views.py:1505-1541 | an item without a room that passes the filters shows up under the NULL sector and the NULL location |
| Excel.ReplaceChar | p_w_pvsa/excel_utils.py:27-28 | replacing one character changes exactly its occurrences to a space |
| Excel.ReplaceEachMaps | p_w_pvsa/excel_utils.py:26-28 | after the replacements each forbidden character has become a space and every other character is kept |
| Excel.NormalisedShape | p_w_pvsa/excel_utils.py:26-29 | the normalised name has no forbidden character, no leading or trailing space and single spaces between words |
| Excel.SafeSheetName | p_w_pvsa/excel_utils.py:25-30 | a safe name has at most 31 characters, none of `: \ / ? * [ ]`, no leading space and no double space |
| Excel.SafeShort | p_w_pvsa/excel_utils.py:29-30 | a normalised name of at most 31 characters is returned whole; a longer one is cut to its first 31 |
| Excel.SafeFixed | p_w_pvsa/excel_utils.py:25-30 | a name already normalised and at most 31 characters long is returned unchanged |
| Excel.NormalisedWords | p_w_pvsa/excel_utils.py:29 | normalising keeps the words of the name after replacement |
| Excel.SafeNotIdempotent | p_w_pvsa/excel_utils.py:29-30 | a 30-letter word followed by " b" becomes the word plus a trailing space, and making that safe again drops the space |
| Excel.CandidateShape | p_w_pvsa/excel_utils.py:37-40 | for a safe base name, a numbered candidate is the base cut to leave room for the suffix `(i)`, followed by the suffix |
| Excel.SuffixDistinct | p_w_pvsa/excel_utils.py:38-40 | two names ending in different suffixes `(i)` and `(j)` differ |
| Excel.CandidatesDistinct | p_w_pvsa/excel_utils.py:36-43 | candidates for different numbers differ |
| Excel.UniqueSheetName | p_w_pvsa/excel_utils.py:32-43 | the name returned is not taken, is at most 31 characters long and has no forbidden character; it is the safe name when that is free, and otherwise the first free numbered candidate from 2 on |
| Excel.Pigeonhole | p_w_pvsa/excel_utils.py:36-43 | the candidates tried are distinct and all taken, so the loop ends within the number of taken names plus two |
| Excel.TipoText | p_w_pvsa/excel_utils.py:87-90 | the kind text is never empty |
| Excel.KindTextCases | p_w_pvsa/excel_utils.py:88-90 | for stripped parts, each of the four blank/non-blank cases gives its own text, and the text has no surrounding whitespace |
| Excel.TipoTextParts | p_w_pvsa/excel_utils.py:87-90 | the kind text is "-" when both stripped parts are empty, the one non-empty part alone, or brand " - " material; it neither starts nor ends with whitespace |
| Excel.EstadoFill | p_w_pvsa/excel_utils.py:100-105 | a fill is chosen iff the shown label is Bueno, Pendiente or Malo |
| Excel.FillByCode | p_w_pvsa/excel_utils.py:96-105 | a one-character stored condition is filled iff it is B, P or M, each with its own colour |
| Excel.LineOf | p_w_pvsa/excel_utils.py:84-124 | an item gets a row iff its kind is readable, and raises AttributeError otherwise; the row keeps the item's quantity and date, never shows an empty detail, shows the item's own detail when it has one, and any fill is the one for the displayed condition |
| Excel.LineOfCells | p_w_pvsa/excel_utils.py:84-124 | a printable item's row is exactly object name, kind text, quantity, displayed condition, its fill, detail or "-", and date |
| Excel.ItemLines | p_w_pvsa/excel_utils.py:82-124 | one row per item in order; the export fails iff some item has no readable kind |
| Excel.WriteLugarBlock | p_w_pvsa/excel_utils.py:64-124 | a block is a title, the header row, one row per item or a single placeholder, then a blank row; it returns start + 3 + max(n, 1) |
| Excel.BlockFailsOnlyOnNullKind | p_w_pvsa/excel_utils.py:85 | in a valid database a block fails iff one of its items has a NULL kind |
| Excel.BlocksChain | p_w_pvsa/excel_utils.py:153-155 | two consecutive blocks of n and m items take 6 + max(n, 1) + max(m, 1) rows |

## Left out

- HTTP handling is left out: requests, redirects, templates, JSON and the
  AJAX endpoints (views.py:1673-1743). Query parameters and posted values
  are parameters of the model.
- `int()` on posted text is the parameter `parse` of `Tipicos.Survivors`.
  Python's integer parser is not modelled.
- The clock is a parameter: `today` stands for `auto_now_add`.
- Transactions and concurrency are left out. Each operation either returns
  the new database or fails and leaves it unchanged. Two points are not
  modelled: the old row is read before the atomic block opens
  (models.py:187, 196), and another request could write in between.
- Percentages are exact reals; `round(..., 1)` on floats is not modelled.
- Resumen.AddPercentages: the shares are exact quotients, not rounded to
  one decimal, because floating-point rounding is left out.
- Ties in `ORDER BY` are not resolved. The model sorts stably from key
  order, and the database's order among equal keys is unspecified.
- Text compares by code point, as SQLite's default collation does. Other
  collations are not modelled.
- openpyxl styling, merged cells, column widths, number formats and
  serialisation are left out (excel_utils.py:7-23, 45-62, 125-163). This
  includes the sheet loop of `build_excel_sectores`.
- The filter-choice lists of the summary page are left out
  (views.py:1605-1630).
- Excel.UniqueSheetName: requires fewer than 10^29 - 2 taken names, so
  that the suffix `(i)` always fits in 31 characters. Beyond that the
  source's loop could produce over-long candidates.
- The `NameError` from the `workbook` annotation at excel_utils.py:32 is
  described above and not modelled.
- Resumen.Filters: the sector, location, floor, room type, category, object
  and kind filters are taken as numbers. A value that is not a number, such
  as `?sector=abc`, makes Django raise `ValueError` when the query is built
  (views.py:1454-1460, 1479-1494); that failure is not modelled.
- Form fields are taken as already cleaned: text arrives stripped, and
  `max_length=100` is a stated condition of the field checks rather than a
  computed error. The model field's `max_length=200` on the detail is not
  checked.
- Django's 404 page for a missing room type is modelled as `DoesNotExist`.
- Integers are unbounded. The `SmallIntegerField` range of quantity and
  floor is not modelled.
- Keys start at 1 in the database. The model does not treat `pk == 0` as
  falsy the way `if self.pk:` would.
