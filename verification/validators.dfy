/**
 The serializer validators of the catalogue API. Each takes the stored
 instance (None on create), the validated attributes and, where the source
 reads it, the "forced" flag from the serializer context, and either passes
 or raises exactly one error.
 */
module Validators {
  import opened Base

  /** The error codes the validators raise. */
  datatype Code =
    | Overlap
    | NonConceptObject
    | NonConceptZaaktype
    | NonConceptRelation
    | RelationsIncorrectCatalogus

  /** Where an error is reported: as a non-field error or under a field name. */
  datatype Key = NonFieldErrors | FieldKey(name: string)

  /** Which of the source's messages an error carries. */
  datatype Message =
    | GeldigheidOverlap
    | DoubleConcept
    | ObjectNotConcept
    | LinkedToPublishedZaaktype
    | RelationToPublishedZaaktype
    | CreateRelationToPublished(field: string)
    | LinkedToPublished(field: string)
    | UpdateRelationToPublished(field: string)
    | ZaaktypeCatalogusMismatch
    | DeelzaaktypeCatalogusMismatch

  datatype ValidationError = ValidationError(code: Code, key: Key, message: Message)

  type Check = Outcome<ValidationError>

  const ZAAKTYPE: string := "zaaktype"
  const INFORMATIEOBJECTTYPE: string := "informatieobjecttype"
  const CATALOGUS: string := "catalogus"
  const IDENTIFICATIE: string := "identificatie"
  const DEELZAAKTYPEN: string := "deelzaaktypen"
  const EINDE_GELDIGHEID: string := "datum_einde_geldigheid"

  /**
   Whether another zaaktype of the catalogus with this identificatie has a
   validity window overlapping [begin, end], excluding the row with the given
   id. The storage query is not part of this model; it is a parameter.
   */
  type OverlapQuery = (CatalogusId, string, Date, Option<Date>, nat) -> bool

  /** Whether a concept zaaktype with this (catalogus, identificatie) exists. */
  type ConceptQuery = (CatalogusId, string) -> bool

  // ---------------------------------------------------------------------------
  // Validity overlap

  /**
   ZaaktypeGeldigheidValidator: looks at the STORED window of the instance,
   asks the overlap query (excluding the instance itself), and reports an
   overlap on `einde_geldigheid` for a partial update, else on `begin_geldigheid`.
   */
  function ZaaktypeGeldigheid(instance: Entity, partial: bool, overlapping: OverlapQuery): (r: Check)
    ensures r.Fail? <==> overlapping(instance.catalogus, instance.identificatie,
                                     instance.begin, instance.end, instance.id)
    ensures r.Fail? ==> r.error.code == Overlap && r.error.message == GeldigheidOverlap
    ensures r.Fail? && partial ==> r.error.key == FieldKey("einde_geldigheid")
    ensures r.Fail? && !partial ==> r.error.key == FieldKey("begin_geldigheid")
  {
    if overlapping(instance.catalogus, instance.identificatie, instance.begin, instance.end, instance.id) then
      var field := if partial then "einde_geldigheid" else "begin_geldigheid";
      Fail(ValidationError(Overlap, FieldKey(field), GeldigheidOverlap))
    else
      Pass
  }

  /** The attributes a create request must carry for the double-concept check. */
  predicate HasIdentity(attrs: Attrs) {
    CatAt(attrs, CATALOGUS).Some? && IDENTIFICATIE in attrs && attrs[IDENTIFICATIE].Text?
  }

  /**
   ZaaktypeDoubleConceptValidator: on create only, refuses a second concept
   version of the same (catalogus, identificatie), reported on `concept`.
   */
  function ZaaktypeDoubleConcept(instance: Option<Entity>, attrs: Attrs, conceptExists: ConceptQuery): (r: Check)
    requires instance.None? ==> HasIdentity(attrs)
    ensures instance.Some? ==> r.Pass?
    ensures r.Fail? <==> instance.None? && conceptExists(attrs[CATALOGUS].id, attrs[IDENTIFICATIE].text)
    ensures r.Fail? ==> r.error == ValidationError(Overlap, FieldKey("concept"), DoubleConcept)
  {
    if instance.Some? then Pass
    else if conceptExists(attrs[CATALOGUS].id, attrs[IDENTIFICATIE].text) then
      Fail(ValidationError(Overlap, FieldKey("concept"), DoubleConcept))
    else Pass
  }

  // ---------------------------------------------------------------------------
  // Updating published objects

  /** A patch whose validated attributes are exactly the end-of-validity date. */
  predicate EndDateOnlyPatch(attrs: Attrs, partial: bool) {
    partial && attrs.Keys == {EINDE_GELDIGHEID}
  }

  /**
   ConceptUpdateValidator: an update of a published object needs the forced
   scope, except a patch that only sets the end-of-validity date. Creates
   always pass.
   */
  function ConceptUpdate(instance: Option<Entity>, attrs: Attrs, partial: bool, force: bool): (r: Check)
    ensures instance.None? ==> r.Pass?
    ensures EndDateOnlyPatch(attrs, partial) ==> r.Pass?
    ensures force ==> r.Pass?
    ensures r.Fail? <==> instance.Some? && !instance.value.concept && !force
                         && !EndDateOnlyPatch(attrs, partial)
    ensures r.Fail? ==> r.error == ValidationError(NonConceptObject, NonFieldErrors, ObjectNotConcept)
  {
    if instance.None? then Pass
    else if EndDateOnlyPatch(attrs, partial) then Pass
    else if !instance.value.concept && !force then
      Fail(ValidationError(NonConceptObject, NonFieldErrors, ObjectNotConcept))
    else Pass
  }

  /**
   ZaakTypeConceptValidator: both the zaaktype the stored instance points at
   and a zaaktype supplied in the attributes must be concept, unless forced.
   The stored one is checked first; there is no end-date exemption.
   */
  function ZaakTypeConcept(instance: Option<Instance>, attrs: Attrs, force: bool): (r: Check)
    requires instance.Some? ==> ZAAKTYPE in instance.value.refs
    ensures force ==> r.Pass?
    ensures r.Pass? <==>
              || force
              || (&& (instance.Some? ==> instance.value.refs[ZAAKTYPE].concept)
                  && (ObjAt(attrs, ZAAKTYPE).Some? ==> ObjAt(attrs, ZAAKTYPE).value.concept))
    ensures r.Fail? ==> r.error.code == NonConceptZaaktype && r.error.key == NonFieldErrors
    ensures r.Fail? ==> (r.error.message == LinkedToPublishedZaaktype
                         <==> instance.Some? && !instance.value.refs[ZAAKTYPE].concept)
    ensures r.Fail? ==> r.error.message in {LinkedToPublishedZaaktype, RelationToPublishedZaaktype}
  {
    if instance.Some? && !instance.value.refs[ZAAKTYPE].concept && !force then
      Fail(ValidationError(NonConceptZaaktype, NonFieldErrors, LinkedToPublishedZaaktype))
    else
      match ObjAt(attrs, ZAAKTYPE)
      case Some(z) =>
        if !z.concept && !force then
          Fail(ValidationError(NonConceptZaaktype, NonFieldErrors, RelationToPublishedZaaktype))
        else Pass
      case None => Pass
  }

  // ---------------------------------------------------------------------------
  // Many-to-many relations

  /** Every object the attributes supply for relation field `f` is a concept. */
  predicate SuppliesOnlyConcepts(attrs: Attrs, f: string) {
    AllConcept(ObjsAt(attrs, f))
  }

  /**
   M2MConceptCreateValidator: on create, every object supplied for a
   configured relation field must be a concept; the first offending field (in
   configuration order) is named. There is no forced bypass.
   */
  function M2MConceptCreate(instance: Option<Instance>, fields: seq<string>, attrs: Attrs): (r: Check)
    ensures instance.Some? ==> r.Pass?
    ensures r.Pass? <==> instance.Some? || forall j :: 0 <= j < |fields| ==> SuppliesOnlyConcepts(attrs, fields[j])
    ensures r.Fail? ==> exists j :: (
              && 0 <= j < |fields|
              && !SuppliesOnlyConcepts(attrs, fields[j])
              && (forall k :: 0 <= k < j ==> SuppliesOnlyConcepts(attrs, fields[k]))
              && r.error == ValidationError(NonConceptRelation, NonFieldErrors, CreateRelationToPublished(fields[j])))
  {
    if instance.Some? then Pass
    else
      match FirstViolation(fields, f => SuppliesOnlyConcepts(attrs, f), 0)
      case None => Pass
      case Some(j) =>
        Fail(ValidationError(NonConceptRelation, NonFieldErrors, CreateRelationToPublished(fields[j])))
  }

  /**
   The exemption of the M2M update check: a truthy end-of-validity date in a
   request body with exactly one key. Not tied to a partial update.
   */
  predicate ClosesValidityOnly(attrs: Attrs, requestDataSize: nat) {
    EINDE_GELDIGHEID in attrs && Truthy(attrs[EINDE_GELDIGHEID]) && requestDataSize == 1
  }

  /** The objects the stored instance is linked to through relation field `f`. */
  function LinkedAt(instance: Instance, f: string): seq<Entity> {
    if f in instance.links then instance.links[f] else []
  }

  /** Relation field `f` neither is linked to nor receives a published object. */
  predicate FieldUnlocked(instance: Instance, attrs: Attrs, f: string) {
    AllConcept(LinkedAt(instance, f)) && SuppliesOnlyConcepts(attrs, f)
  }

  /** The error for the first locked field: stored links are checked before supplied ones. */
  function LockedFieldError(instance: Instance, attrs: Attrs, f: string): (e: ValidationError)
    requires !FieldUnlocked(instance, attrs, f)
    ensures e.code == NonConceptRelation && e.key == NonFieldErrors
    ensures e.message == LinkedToPublished(f) <==> !AllConcept(LinkedAt(instance, f))
    ensures e.message == UpdateRelationToPublished(f) <==> AllConcept(LinkedAt(instance, f))
  {
    if !AllConcept(LinkedAt(instance, f)) then
      ValidationError(NonConceptRelation, NonFieldErrors, LinkedToPublished(f))
    else
      ValidationError(NonConceptRelation, NonFieldErrors, UpdateRelationToPublished(f))
  }

  /**
   M2MConceptUpdateValidator: on update (and outside the end-date exemption),
   for each configured field in order, refuses when the instance is already
   linked to a published object, then when the attributes supply one.
   */
  function M2MConceptUpdate(instance: Option<Instance>, fields: seq<string>, attrs: Attrs,
                            requestDataSize: nat): (r: Check)
    requires instance.Some? ==> forall f :: f in fields ==> f in instance.value.links
    ensures instance.None? ==> r.Pass?
    ensures ClosesValidityOnly(attrs, requestDataSize) ==> r.Pass?
    ensures r.Pass? <==> instance.None? || ClosesValidityOnly(attrs, requestDataSize)
                         || forall j :: 0 <= j < |fields| ==> FieldUnlocked(instance.value, attrs, fields[j])
    ensures r.Fail? ==> exists j :: (
              && 0 <= j < |fields|
              && !FieldUnlocked(instance.value, attrs, fields[j])
              && (forall k :: 0 <= k < j ==> FieldUnlocked(instance.value, attrs, fields[k]))
              && r.error == LockedFieldError(instance.value, attrs, fields[j]))
  {
    if instance.None? then Pass
    else if ClosesValidityOnly(attrs, requestDataSize) then Pass
    else
      var inst := instance.value;
      match FirstViolation(fields, f => FieldUnlocked(inst, attrs, f), 0)
      case None => Pass
      case Some(j) => Fail(LockedFieldError(inst, attrs, fields[j]))
  }

  // ---------------------------------------------------------------------------
  // Catalogus consistency

  /** `attrs.get(key) or instance.key`: the related object in force after the write. */
  function Resolved(instance: Option<Instance>, attrs: Attrs, key: string): (e: Entity)
    requires ObjAt(attrs, key).Some? || (instance.Some? && key in instance.value.refs)
    ensures ObjAt(attrs, key).Some? ==> e == attrs[key].obj
    ensures ObjAt(attrs, key).None? ==> e == instance.value.refs[key]
  {
    match ObjAt(attrs, key)
    case Some(o) => o
    case None => instance.value.refs[key]
  }

  /** Both sides of a zaak-informatieobjecttype link can be resolved. */
  predicate CanResolveLink(instance: Option<Instance>, attrs: Attrs) {
    && (ObjAt(attrs, ZAAKTYPE).Some? || (instance.Some? && ZAAKTYPE in instance.value.refs))
    && (ObjAt(attrs, INFORMATIEOBJECTTYPE).Some? || (instance.Some? && INFORMATIEOBJECTTYPE in instance.value.refs))
  }

  /**
   ZaakInformatieObjectTypeCatalogusValidator: the zaaktype and the
   informatieobjecttype of the link, each taken from the attributes or else
   from the stored link, must belong to the same catalogus.
   */
  function ZaakInformatieObjectTypeCatalogus(instance: Option<Instance>, attrs: Attrs): (r: Check)
    requires CanResolveLink(instance, attrs)
    ensures r.Fail? <==> Resolved(instance, attrs, ZAAKTYPE).catalogus
                         != Resolved(instance, attrs, INFORMATIEOBJECTTYPE).catalogus
    ensures r.Fail? ==> r.error == ValidationError(RelationsIncorrectCatalogus, NonFieldErrors, ZaaktypeCatalogusMismatch)
  {
    var zaaktype := Resolved(instance, attrs, ZAAKTYPE);
    var informatieobjecttype := Resolved(instance, attrs, INFORMATIEOBJECTTYPE);
    if zaaktype.catalogus != informatieobjecttype.catalogus then
      Fail(ValidationError(RelationsIncorrectCatalogus, NonFieldErrors, ZaaktypeCatalogusMismatch))
    else Pass
  }

  /** `attrs.get("deelzaaktypen") or <stored deelzaaktypen or []>`: an empty list falls back. */
  function EffectiveDeelzaaktypen(instance: Option<Instance>, attrs: Attrs): (s: seq<Entity>)
    ensures |ObjsAt(attrs, DEELZAAKTYPEN)| > 0 ==> s == ObjsAt(attrs, DEELZAAKTYPEN)
    ensures |ObjsAt(attrs, DEELZAAKTYPEN)| == 0 && instance.None? ==> s == []
    ensures |ObjsAt(attrs, DEELZAAKTYPEN)| == 0 && instance.Some? ==> s == LinkedAt(instance.value, DEELZAAKTYPEN)
  {
    var supplied := ObjsAt(attrs, DEELZAAKTYPEN);
    if |supplied| > 0 then supplied
    else if instance.Some? then LinkedAt(instance.value, DEELZAAKTYPEN)
    else []
  }

  /** `attrs.get("catalogus") or <stored catalogus or None>`. */
  function EffectiveCatalogus(instance: Option<Instance>, attrs: Attrs): (c: Option<CatalogusId>)
    ensures CatAt(attrs, CATALOGUS).Some? ==> c == CatAt(attrs, CATALOGUS)
    ensures CatAt(attrs, CATALOGUS).None? && instance.Some? ==> c == Some(instance.value.entity.catalogus)
    ensures c.None? <==> CatAt(attrs, CATALOGUS).None? && instance.None?
  {
    match CatAt(attrs, CATALOGUS)
    case Some(id) => Some(id)
    case None => if instance.Some? then Some(instance.value.entity.catalogus) else None
  }

  /** Every deelzaaktype belongs to catalogus `c`. */
  predicate AllInCatalogus(s: seq<Entity>, c: CatalogusId) {
    forall j :: 0 <= j < |s| ==> s[j].catalogus == c
  }

  /**
   DeelzaaktypeCatalogusValidator: all deelzaaktypen in force after the write
   must belong to the catalogus in force; with no catalogus the check is
   skipped. The error is reported under `deelzaaktypen`.
   */
  function DeelzaaktypeCatalogus(instance: Option<Instance>, attrs: Attrs): (r: Check)
    ensures EffectiveCatalogus(instance, attrs).None? ==> r.Pass?
    ensures r.Fail? <==> (
              && EffectiveCatalogus(instance, attrs).Some?
              && !AllInCatalogus(EffectiveDeelzaaktypen(instance, attrs), EffectiveCatalogus(instance, attrs).value))
    ensures r.Fail? ==> r.error == ValidationError(RelationsIncorrectCatalogus, FieldKey(DEELZAAKTYPEN),
                                                   DeelzaaktypeCatalogusMismatch)
  {
    var deelzaaktypen := EffectiveDeelzaaktypen(instance, attrs);
    match EffectiveCatalogus(instance, attrs)
    case None => Pass
    case Some(c) =>
      if FirstViolation(deelzaaktypen, (d: Entity) => d.catalogus == c, 0).Some? then
        Fail(ValidationError(RelationsIncorrectCatalogus, FieldKey(DEELZAAKTYPEN), DeelzaaktypeCatalogusMismatch))
      else Pass
  }

  // ---------------------------------------------------------------------------
  // Properties relating the validators

  /**
   Setting the end date to null in a patch is exempt for the object check but
   not for the M2M update check, which wants a truthy date: such a patch is
   refused exactly when some configured field is linked to a published object.
   */
  lemma NullEndDatePatchOnlyExemptForObjectCheck(entity: Entity, instance: Instance, fields: seq<string>,
                                                 force: bool, requestDataSize: nat)
    requires forall f :: f in fields ==> f in instance.links
    ensures ConceptUpdate(Some(entity), map[EINDE_GELDIGHEID := Day(None)], true, force).Pass?
    ensures M2MConceptUpdate(Some(instance), fields, map[EINDE_GELDIGHEID := Day(None)], requestDataSize).Pass?
            <==> forall j :: 0 <= j < |fields| ==> AllConcept(LinkedAt(instance, fields[j]))
  {
    var attrs := map[EINDE_GELDIGHEID := Day(None)];
    assert attrs.Keys == {EINDE_GELDIGHEID};
    forall f | true
      ensures SuppliesOnlyConcepts(attrs, f)
    {
      assert ObjsAt(attrs, f) == [];
    }
  }

  /**
   A full (non-partial) update whose body only carries an end date is exempt
   for the M2M update check but not for the object check, which still refuses
   it for every published instance without force.
   */
  lemma FullEndDateUpdateOnlyExemptForRelationCheck(entity: Entity, instance: Instance, fields: seq<string>,
                                                    d: Date, force: bool)
    requires forall f :: f in fields ==> f in instance.links
    ensures M2MConceptUpdate(Some(instance), fields, map[EINDE_GELDIGHEID := Day(Some(d))], 1).Pass?
    ensures ConceptUpdate(Some(entity), map[EINDE_GELDIGHEID := Day(Some(d))], false, force).Fail?
            <==> !entity.concept && !force
  {
  }

  /** Closing validity by patch passes both checks whatever the stored state. */
  lemma ClosingValidityPassesBoth(instance: Option<Instance>, fields: seq<string>, d: Date, force: bool)
    requires instance.Some? ==> forall f :: f in fields ==> f in instance.value.links
    ensures var attrs := map[EINDE_GELDIGHEID := Day(Some(d))];
            && ConceptUpdate(if instance.Some? then Some(instance.value.entity) else None, attrs, true, force).Pass?
            && M2MConceptUpdate(instance, fields, attrs, 1).Pass?
  {
    var attrs := map[EINDE_GELDIGHEID := Day(Some(d))];
    assert attrs.Keys == {EINDE_GELDIGHEID};
  }

  /**
   Re-pointing a link away from a published zaaktype is refused too: the
   stored zaaktype is checked whatever the attributes supply.
   */
  lemma RepointingAwayFromPublishedZaaktypeRefused(instance: Instance, attrs: Attrs)
    requires ZAAKTYPE in instance.refs && !instance.refs[ZAAKTYPE].concept
    ensures ZaakTypeConcept(Some(instance), attrs, false)
            == Fail(ValidationError(NonConceptZaaktype, NonFieldErrors, LinkedToPublishedZaaktype))
  {
  }

  /** The first index of `xs` failing `ok` is unique. */
  lemma FirstFailureUnique<T>(xs: seq<T>, ok: T -> bool, i: nat, j: nat)
    requires i < |xs| && j < |xs|
    requires !ok(xs[i]) && forall k :: 0 <= k < i ==> ok(xs[k])
    requires !ok(xs[j]) && forall k :: 0 <= k < j ==> ok(xs[k])
    ensures i == j
  {
  }

  /** An omitted relation field behaves exactly like one supplied as an empty list. */
  lemma AbsentRelationFieldIsEmpty(instance: Option<Instance>, fields: seq<string>,
                                                      attrs: Attrs, f: string)
    requires f !in attrs
    ensures M2MConceptCreate(instance, fields, attrs) == M2MConceptCreate(instance, fields, attrs[f := Objs([])])
  {
    var attrs' := attrs[f := Objs([])];
    forall g | true
      ensures SuppliesOnlyConcepts(attrs, g) == SuppliesOnlyConcepts(attrs', g)
    {
      assert ObjsAt(attrs, g) == ObjsAt(attrs', g);
    }
    var r, r' := M2MConceptCreate(instance, fields, attrs), M2MConceptCreate(instance, fields, attrs');
    if r.Fail? && r'.Fail? {
      var i :| && 0 <= i < |fields|
               && !SuppliesOnlyConcepts(attrs, fields[i])
               && (forall k :: 0 <= k < i ==> SuppliesOnlyConcepts(attrs, fields[k]))
               && r.error == ValidationError(NonConceptRelation, NonFieldErrors, CreateRelationToPublished(fields[i]));
      var j :| && 0 <= j < |fields|
               && !SuppliesOnlyConcepts(attrs', fields[j])
               && (forall k :: 0 <= k < j ==> SuppliesOnlyConcepts(attrs', fields[k]))
               && r'.error == ValidationError(NonConceptRelation, NonFieldErrors, CreateRelationToPublished(fields[j]));
      FirstFailureUnique(fields, g => SuppliesOnlyConcepts(attrs, g), i, j);
    }
  }

  /** An empty `deelzaaktypen` list falls back to the stored ones, like an omitted one. */
  lemma EmptyDeelzaaktypenFallsBack(instance: Option<Instance>, attrs: Attrs)
    requires DEELZAAKTYPEN !in attrs
    ensures DeelzaaktypeCatalogus(instance, attrs[DEELZAAKTYPEN := Objs([])])
            == DeelzaaktypeCatalogus(instance, attrs)
  {
    var attrs' := attrs[DEELZAAKTYPEN := Objs([])];
    assert CatAt(attrs', CATALOGUS) == CatAt(attrs, CATALOGUS);
    assert EffectiveDeelzaaktypen(instance, attrs') == EffectiveDeelzaaktypen(instance, attrs);
  }

  /**
   A catalogus mismatch is refused whatever the draft state of either side:
   the verdict equals that of a create supplying both resolved sides, with
   any draft flags.
   */
  lemma CatalogusCheckIgnoresConceptState(instance: Option<Instance>, attrs: Attrs, cz: bool, cio: bool)
    requires CanResolveLink(instance, attrs)
    ensures var z := Resolved(instance, attrs, ZAAKTYPE);
            var io := Resolved(instance, attrs, INFORMATIEOBJECTTYPE);
            ZaakInformatieObjectTypeCatalogus(instance, attrs)
            == ZaakInformatieObjectTypeCatalogus(None, map[ZAAKTYPE := Obj(z.(concept := cz)),
                                                       INFORMATIEOBJECTTYPE := Obj(io.(concept := cio))])
  {
  }

  /**
   Whether the update is partial only moves the overlap error between the two
   validity fields; it never changes whether the validator fails.
   */
  lemma PartialOnlyMovesGeldigheidKey(instance: Entity, overlapping: OverlapQuery)
    ensures ZaaktypeGeldigheid(instance, true, overlapping).Fail?
            == ZaaktypeGeldigheid(instance, false, overlapping).Fail?
    ensures ZaaktypeGeldigheid(instance, true, overlapping).Fail?
            ==> ZaaktypeGeldigheid(instance, true, overlapping).error.key
                != ZaaktypeGeldigheid(instance, false, overlapping).error.key
  {
  }

  /**
   A patch that only closes the validity of a published zaaktype passes the
   object check, yet the overlap validator judges the STORED window: when that
   window overlaps another version the patch is refused, even if the requested
   end date would remove the overlap.
   */
  lemma EndDatePatchJudgedOnStoredWindow(instance: Entity, d: Date, overlapping: OverlapQuery)
    requires overlapping(instance.catalogus, instance.identificatie, instance.begin, instance.end, instance.id)
    requires !overlapping(instance.catalogus, instance.identificatie, instance.begin, Some(d), instance.id)
    ensures ConceptUpdate(Some(instance), map[EINDE_GELDIGHEID := Day(Some(d))], true, false).Pass?
    ensures ZaaktypeGeldigheid(instance, true, overlapping)
            == Fail(ValidationError(Overlap, FieldKey("einde_geldigheid"), GeldigheidOverlap))
  {
    assert map[EINDE_GELDIGHEID := Day(Some(d))].Keys == {EINDE_GELDIGHEID};
  }

  /**
   On create the double-concept verdict depends only on the catalogus and
   identificatie supplied: two requests agreeing on both get the same verdict.
   */
  lemma DoubleConceptDependsOnlyOnIdentity(attrs: Attrs, attrs': Attrs, conceptExists: ConceptQuery)
    requires HasIdentity(attrs) && HasIdentity(attrs')
    requires attrs[CATALOGUS] == attrs'[CATALOGUS] && attrs[IDENTIFICATIE] == attrs'[IDENTIFICATIE]
    ensures ZaaktypeDoubleConcept(None, attrs, conceptExists) == ZaaktypeDoubleConcept(None, attrs', conceptExists)
  {
  }

  /**
   On update the double-concept check never fires, whatever the attributes:
   an update that changes the identity to that of an existing concept passes.
   */
  lemma DoubleConceptSkippedOnUpdate(instance: Entity, attrs: Attrs, conceptExists: ConceptQuery)
    requires HasIdentity(attrs) && conceptExists(attrs[CATALOGUS].id, attrs[IDENTIFICATIE].text)
    ensures ZaaktypeDoubleConcept(Some(instance), attrs, conceptExists).Pass?
    ensures ZaaktypeDoubleConcept(None, attrs, conceptExists).Fail?
  {
  }
}
