# Concept rules of the Catalogi API, in Dafny

This project models the draft/published ("concept") consistency rules of the
Catalogi API, the catalogue of case types (zaaktypen) and their related types
(besluittypen, informatieobjecttypen, resultaattypen, ...). It covers:

- the serializer validators that decide whether a create or update may
  proceed, each raising one error code: `non-concept-object`,
  `non-concept-zaaktype`, `non-concept-relation`,
  `relations-incorrect-catalogus` or `overlap`;
- the `publish` action of the zaaktype view set, which flips `concept` to
  false only when every related besluittype and informatieobjecttype is
  already published, and refuses with a permission-denied outcome otherwise;
- the field rules of the `ZaakType` and `ZaakObjectType` models: the
  extension term that `save` clears or demands, the checks of `clean`, and the
  range and per-catalogus uniqueness of the identificatie;
- the copying of zaak-informatieobjecttype links when an informatieobjecttype
  is created;
- the scope tables and concept-related field lists of the two view sets, as
  constants.

Everything is a pure function over immutable snapshots (or a method with
loops where the source iterates). A catalogue type is an `Entity` with an id,
a catalogus id, the `concept` flag, identificatie, omschrijving and a validity
window; the object being validated is an `Instance` that also carries its
foreign keys and many-to-many relations by field name. The validated request
attributes are a map from field name to an already-resolved `Value`, and
Python truthiness (`attrs.get(k) or default`) is written out in `Base.Truthy`,
`Base.ObjAt`, `Base.ObjsAt` and `Base.CatAt`. Storage queries the code calls
but does not define (the overlap queries, the mixin's validity check) are
parameters.

Files: `base.dfy` (shared types), `validators.dfy` (module `Validators`,
from `src/ztc/api/validators.py`), `zaaktype_views.dfy` (`ZaakTypeViews`,
from `src/ztc/api/views/zaken.py`), `zaaktype_model.dfy` (`ZaakTypeModel`,
from `src/ztc/datamodel/models/zaken.py`) and `informatieobjecttype_views.dfy`
(`InformatieObjectTypeViews`, from `src/ztc/api/views/informatieobjecttype.py`).

Behaviour of the code worth knowing, which the model keeps:

- Publishing never reads the zaaktype's own flag, so publishing an already
  published zaaktype succeeds and changes nothing (`ZaakTypeViews.PublishAgain`).
- `M2MConceptCreateValidator` reads no force flag: this validator refuses a
  create linking a published object whatever the scope. Whether a forced
  create reaches it at all is decided by view mixins outside this model.
- The overlap query `get_overlapping_zaaktypes` is defined outside the
  modelled files, so the model keeps it as a parameter and asserts no
  interval arithmetic about it.
- The link query of `perform_create` compares the zaaktype's end date with
  `>=`: a zaaktype whose validity ends on the new type's begin date still
  counts (`InformatieObjectTypeViews.ValidOnIsInclusiveWindow`).
- The double-concept error is reported under the field `concept`.
- `ZaaktypeGeldigheidValidator` checks the window of the STORED instance, not
  the window in the request attributes
  (`Validators.EndDatePatchJudgedOnStoredWindow`).
- The model file names the identificatie `zaaktype_identificatie`, a
  five-digit integer, and has no `concept` field. The validators use
  `identificatie` and `concept`. `ZaakTypeModel` follows the model file;
  `Validators` follows the validators.
- Catalogus ids are storage ids, which start at 1, so `Base.CatalogusId`
  excludes 0 and the truthiness test `if self.catalogus_id:` in `clean` is
  "a catalogus is set".
- `perform_create` as written cannot copy a link that has a statustype; see
  "## Findings".

## Model

| member | source | states |
|---|---|---|
| Validators.ZaaktypeGeldigheid | src/ztc/api/validators.py:31-52 | raises `overlap` exactly when the overlap query on the stored catalogus, identificatie and window (excluding the instance) is non-empty; the error sits on `einde_geldigheid` for a partial update and on `begin_geldigheid` otherwise |
| Validators.PartialOnlyMovesGeldigheidKey | src/ztc/api/validators.py:44-52 | whether the update is partial never changes whether the overlap validator fails; it only moves the error between the two validity fields |
| Validators.EndDatePatchJudgedOnStoredWindow | src/ztc/api/validators.py:32-44 | a patch closing the validity of a zaaktype whose stored window overlaps another version passes the object check but is refused for overlap on `einde_geldigheid`, even when the requested end date would remove the overlap |
| Validators.ZaaktypeDoubleConcept | src/ztc/api/validators.py:73-87 | never raises on update; on create raises `overlap` on field `concept` exactly when a concept version with the same catalogus and identificatie exists |
| Validators.DoubleConceptDependsOnlyOnIdentity | src/ztc/api/validators.py:78-84 | on create, two requests that agree on catalogus and identificatie get the same verdict |
| Validators.DoubleConceptSkippedOnUpdate | src/ztc/api/validators.py:74-76 | an update passes even when its identity matches an existing concept that would refuse the same request as a create |
| Validators.ConceptUpdate | src/ztc/api/validators.py:103-117 | never rejects a create; never rejects a patch whose attributes are exactly the end date; never rejects when forced; otherwise rejects with `non-concept-object` exactly when the instance is published |
| Validators.ZaakTypeConcept | src/ztc/api/validators.py:142-155 | passes exactly when forced, or when both the stored zaaktype and a supplied zaaktype are concept; the stored one is reported first, both with `non-concept-zaaktype` |
| Validators.RepointingAwayFromPublishedZaaktypeRefused | src/ztc/api/validators.py:144-147 | an instance linked to a published zaaktype is refused without force whatever zaaktype the attributes supply |
| Validators.M2MConceptCreate | src/ztc/api/validators.py:177-188 | never raises on update; on create passes exactly when every object supplied for every configured field is concept; on failure names the first offending field in configuration order |
| Validators.AbsentRelationFieldIsEmpty | src/ztc/api/validators.py:182 | an omitted relation field gives the same verdict as one supplied as an empty list |
| Validators.M2MConceptUpdate | src/ztc/api/validators.py:211-235 | never raises on create or when a truthy end date is the only key of the request body; otherwise passes exactly when no configured field is linked to or receives a published object, and on failure names the first such field |
| Validators.LockedFieldError | src/ztc/api/validators.py:219-235 | for a field that is locked, the stored links are reported before the supplied objects, both with `non-concept-relation` |
| Validators.NullEndDatePatchOnlyExemptForObjectCheck | src/ztc/api/validators.py:215-217 | for every instance, field list and force flag, a patch setting the end date to null passes the object check, while the M2M update check refuses it exactly when some configured field is linked to a published object |
| Validators.FullEndDateUpdateOnlyExemptForRelationCheck | src/ztc/api/validators.py:110 | for every instance and field list, a non-partial update whose one-key body is a non-null end date passes the M2M update check, while the object check refuses it exactly when the instance is published and not forced |
| Validators.ClosingValidityPassesBoth | src/ztc/api/validators.py:109-111 | a patch carrying only a non-null end date passes both the object check and the M2M update check, whatever the stored state |
| Validators.Resolved | src/ztc/api/validators.py:250-253 | the related object in force after a write is the supplied one, or else the stored one |
| Validators.ZaakInformatieObjectTypeCatalogus | src/ztc/api/validators.py:249-256 | raises `relations-incorrect-catalogus` exactly when the resolved zaaktype and informatieobjecttype belong to different catalogi |
| Validators.CatalogusCheckIgnoresConceptState | src/ztc/api/validators.py:249-256 | for every create or update whose two sides resolve, the verdict equals that of a create supplying both resolved sides with arbitrary draft flags: draft state never matters |
| Validators.EffectiveDeelzaaktypen | src/ztc/api/validators.py:271-276 | the deelzaaktypen in force are the supplied ones when non-empty, else the stored ones, else none |
| Validators.EffectiveCatalogus | src/ztc/api/validators.py:274-277 | the catalogus in force is the supplied one, else the stored one; there is none exactly on a create without catalogus |
| Validators.DeelzaaktypeCatalogus | src/ztc/api/validators.py:270-286 | skipped without a catalogus; otherwise raises `relations-incorrect-catalogus` under `deelzaaktypen` exactly when some deelzaaktype in force is in another catalogus |
| Validators.EmptyDeelzaaktypenFallsBack | src/ztc/api/validators.py:276 | an empty `deelzaaktypen` list gives the same verdict as an omitted one |
| ZaakTypeViews.Publish | src/ztc/api/views/zaken.py:119-137 | succeeds exactly when every related besluittype and informatieobjecttype is published; on success only `concept` changes, to false; on refusal the stored zaaktype is unchanged; with no relations it always succeeds |
| ZaakTypeViews.PublishAgain | src/ztc/api/views/zaken.py:119-133 | publishing an already published zaaktype whose relations are published succeeds and leaves it unchanged |
| ZaakTypeViews.ZaakTypeScopeTable | src/ztc/api/views/zaken.py:107-113 | publish, create and destroy need the write scope, list and retrieve the read scope, and the table names no update action (the view set has no update mixin) |
| ZaakTypeViews.CreateWithPublishedBesluittypeRefused | src/ztc/api/views/zaken.py:114 | with the zaaktype view set's concept-related fields, a create passes the M2M create check exactly when every besluittype it supplies is a concept, and a published one is reported against `besluittype_set` |
| ZaakTypeModel.Save | src/ztc/datamodel/models/zaken.py:437-443 | without extension the term is cleared; with extension a null or zero term is an error; otherwise the record is kept; a saved record is always consistent and differs at most in the term |
| ZaakTypeModel.SaveIdempotent | src/ztc/datamodel/models/zaken.py:437-441 | saving a saved record again gives the same record |
| ZaakTypeModel.SaveFixesExactlyConsistent | src/ztc/datamodel/models/zaken.py:438-441 | save leaves a record as it is exactly when its extension fields are consistent |
| ZaakTypeModel.SaveRow | src/ztc/datamodel/models/zaken.py:437-443 | a refused save (extension possible but no term) leaves the table unchanged and reports the missing term; an accepted one writes exactly the record as `save` left it under its own key and leaves every other row as it was |
| ZaakTypeModel.SaveRowStoresRecordUpToTerm | src/ztc/datamodel/models/zaken.py:438-443 | the stored row equals the given record apart from the extension term, which is kept when extension is possible and cleared otherwise |
| ZaakTypeModel.Clean | src/ztc/datamodel/models/zaken.py:445-464 | fails on a service norm longer than the lead time (both set), then on an omschrijving already used by another zaaktype of the catalogus (skipped without catalogus; ids are never 0), then on the validity check; passes otherwise |
| ZaakTypeModel.CleanInsertKeepsOmschrijvingUnique | src/ztc/datamodel/models/zaken.py:456-462 | adding a new zaaktype that passed clean keeps omschrijvingen unique per catalogus |
| ZaakTypeModel.CleanUpdateKeepsOmschrijvingUnique | src/ztc/datamodel/models/zaken.py:456-462 | replacing a zaaktype by an updated version that passed clean keeps omschrijvingen unique per catalogus |
| ZaakTypeModel.CleanObjectType | src/ztc/datamodel/models/zaken.py:85-91 | fails with an unknown-objecttype error exactly when ander objecttype is 'N' and the objecttype is not a known one; then on the validity check |
| ZaakTypeModel.OtherObjecttypeAcceptsAnyText | src/ztc/datamodel/models/zaken.py:85 | with ander objecttype 'J' the verdict does not depend on the objecttype text |
| ZaakTypeModel.Insert | src/ztc/datamodel/models/zaken.py:220-222 | an identificatie outside 0..99999 is refused, and so is one already used in the same catalogus; on success the row is appended |
| ZaakTypeModel.InsertKeepsIdentificatieUnique | src/ztc/datamodel/models/zaken.py:408 | every successful insert keeps (catalogus, identificatie) unique and every identificatie in range |
| InformatieObjectTypeViews.ValidOnIsInclusiveWindow | src/ztc/api/views/informatieobjecttype.py:108-119 | the query's date condition is "begin on or before the date, and no end or an end on or after it" |
| InformatieObjectTypeViews.Selected | src/ztc/api/views/informatieobjecttype.py:106-120 | returns exactly the stored links with the new type's omschrijving and a zaaktype valid on its begin date, each as often as it is stored |
| InformatieObjectTypeViews.SelectionIgnoresConcept | src/ztc/api/views/informatieobjecttype.py:103 | the selection does not depend on the draft flag of the new type, the linked zaaktype or the linked informatieobjecttype |
| InformatieObjectTypeViews.Copies | src/ztc/api/views/informatieobjecttype.py:121-130 | the copies of the selected links, one per link and in order, each pointing at the new type under the next consecutive key |
| InformatieObjectTypeViews.CopyAll | src/ztc/api/views/informatieobjecttype.py:121-130 | the copy loop builds exactly the copies of the selected links |
| InformatieObjectTypeViews.CopyTable | src/ztc/api/views/informatieobjecttype.py:121-130 | the table after copying holds the old rows unchanged, then one copy per selected link with its zaaktype and details, and its keys stay distinct when the new keys are fresh |
| InformatieObjectTypeViews.PerformCreate | src/ztc/api/views/informatieobjecttype.py:102-130 | the intended copy: keeps every existing link, adds exactly one link per selected link, in order, with that link's zaaktype and details (statustype included) and the new informatieobjecttype, and keeps keys distinct when the new keys are fresh |
| InformatieObjectTypeViews.PerformCreateAsWritten | src/ztc/api/views/informatieobjecttype.py:121-130 | the create as written fails exactly when some selected link has a statustype; when it succeeds its table is the intended one |
| InformatieObjectTypeViews.StatustypeLinkRollsBackCreate | src/ztc/api/views/informatieobjecttype.py:122-130 | one selected link with a statustype: the intended copy keeps the statustype, the create as written fails |
| InformatieObjectTypeViews.FreshPksKeepDistinct | src/ztc/api/views/informatieobjecttype.py:126-130 | rows appended under consecutive keys above every existing key keep all keys distinct |
| InformatieObjectTypeViews.InformatieObjectTypeScopeTable | src/ztc/api/views/informatieobjecttype.py:89-97 | updates accept write or forced write, destroy accepts write or forced delete, create and publish need write only |
| InformatieObjectTypeViews.UpdateLockedByPublishedRelation | src/ztc/api/views/informatieobjecttype.py:98 | with the informatieobjecttype view set's concept-related fields, an update outside the end-date exemption passes the M2M update check exactly when neither besluittypen nor zaaktypen are or become linked to a published object, besluittypen reported first |
| InformatieObjectTypeViews.UpdateOfTypeLinkedToPublishedZaaktypeRefused | src/ztc/api/views/informatieobjecttype.py:98 | an informatieobjecttype linked to a published zaaktype is refused by the M2M update check outside the end-date exemption |

## Left out

- The archival-procedure validators of `ztc/api/utils/validators.py`: that file is not part of this model, and they depend on an external selection-list lookup.
- The overlap queries of `ztc/datamodel/utils` and the validity check of the `GeldigheidMixin`: not part of this model; they are parameters (`OverlapQuery`, `ConceptQuery`, `geldigheidValid`) with no interval semantics asserted.
- The rule that both ends of a zaak-informatieobjecttype link must be concept: it lives in view and serializer mixins that are not part of this model.
- HTTP routing, scope enforcement and the meaning of the `|` scope operator, notifications, pagination, filters and schema decorators: framework plumbing. The scope tables are kept as constants only.
- Remote resource lookups: network I/O.
- `transaction.atomic` on link copying: `PerformCreate` returns the whole new link table at once, which is the all-or-nothing result, and `PerformCreateAsWritten` returns an error in place of a table; saving the new informatieobjecttype itself, which the rollback also undoes, is not modelled.
- Serializer field mappings and the wiring of validators into serializers; the besluittype and resultaattype view sets, which only hold scope tables.
- Error message texts: each message is an enumeration value of `Validators.Message`.
- The other field validators that `clean` runs through `super().clean()`.
- Validators.ZaakInformatieObjectTypeCatalogus: a create without zaaktype or informatieobjecttype makes the source fail on an attribute of None; the model requires both instead, as the serializer marks them required.
- Validators.ZaakTypeConcept: on an update the source reads the stored instance's zaaktype without a guard; the model requires the instance to have one, as every object this validator serves (resultaattypen, statustypen) does.
- Validators.ZaaktypeGeldigheid: takes the stored instance as given; on a create the source would read fields of None, so the validator is only meaningful on updates and the model has no create case.
- Validators.ZaaktypeDoubleConcept: a create without catalogus or identificatie makes the source fail with a key error; the model requires both instead.
- Validators.M2MConceptUpdate: a configured field that the instance lacks would make the source fail; the model requires every configured field to be a relation of the instance.
- Attribute values of a shape the serializer would not produce (a list where an object is expected) are read as absent by the accessors.
- Dates are day numbers and durations whole days; only their order and zero-ness matter to the rules.
- ZaakTypeModel.Insert: `PositiveIntegerField`, the maximum validator and `unique_together` run at different moments in the framework; the model checks them together at insertion.
- InformatieObjectTypeViews.PerformCreate: the id and the uuid of a new link are folded into one storage key, taken consecutively from a given start.

## Findings

| source | as written | input that shows it | evidently intended | confidence | as-written member | corrected member |
|---|---|---|---|---|---|---|
| src/ztc/api/views/informatieobjecttype.py:122-130 | each copy's fields come from `model_to_dict`, which gives the `statustype` foreign key as its bare id; `objects.create` accepts only a `StatusType` object (or null) for that field and raises, and `transaction.atomic` rolls back the whole create | one stored link whose informatieobjecttype has the new type's omschrijving, whose zaaktype is valid on the new type's begin date, and whose statustype is set | every selected link is copied with the same statustype, and the create succeeds | medium: relies on the framework's foreign-key assignment rule and on the link's `statustype` being a foreign key (the link serializer exposes it as a hyperlinked relation); not executed | InformatieObjectTypeViews.PerformCreateAsWritten, InformatieObjectTypeViews.StatustypeLinkRollsBackCreate | InformatieObjectTypeViews.PerformCreate |
