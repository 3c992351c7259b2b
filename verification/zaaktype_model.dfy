/**
 Field rules of the ZaakType and ZaakObjectType models: the extension term
 that `save` clears or demands, the checks of `clean`, and the range and
 per-catalogus uniqueness of the zaaktype identificatie.
 */
module ZaakTypeModel {
  import opened Base

  /** A duration in whole days; None is a null field. */
  type Duration = Option<int>

  /** Python truthiness of a duration: null and zero days are false. */
  predicate IsSet(d: Duration) {
    d.Some? && d.value != 0
  }

  /** The ZaakType fields these rules read. `pk` and `catalogus` are None before the first save. */
  datatype ZaakTypeRecord = ZaakTypeRecord(
    pk: Option<nat>,
    catalogus: Option<CatalogusId>,
    identificatie: int,
    omschrijving: string,
    doorlooptijd: Duration,
    servicenorm: Duration,
    verlengingMogelijk: bool,
    verlengingstermijn: Duration)

  datatype ModelError =
    | VerlengingstermijnMissing   // the ValueError raised by save
    | ServicenormTooLong
    | OmschrijvingNotUnique
    | UnknownObjecttype
    | GeldigheidInvalid           // raised by the validity check of the mixin
    | IdentificatieOutOfRange
    | DuplicateIdentificatie

  // ---------------------------------------------------------------------------
  // save

  /** An extension term is stored exactly when extension is possible. */
  predicate VerlengingConsistent(z: ZaakTypeRecord) {
    if z.verlengingMogelijk then IsSet(z.verlengingstermijn) else z.verlengingstermijn.None?
  }

  /**
   ZaakType.save before writing: without extension the term is cleared; with
   extension a null or zero term is an error. Nothing else changes.
   */
  function Save(z: ZaakTypeRecord): (r: Result<ZaakTypeRecord, ModelError>)
    ensures !z.verlengingMogelijk ==> r.Ok? && r.value.verlengingstermijn.None?
    ensures z.verlengingMogelijk && !IsSet(z.verlengingstermijn) ==> r == Err(VerlengingstermijnMissing)
    ensures z.verlengingMogelijk && IsSet(z.verlengingstermijn) ==> r == Ok(z)
    ensures r.Ok? ==> VerlengingConsistent(r.value)
    ensures r.Ok? ==> r.value.(verlengingstermijn := z.verlengingstermijn) == z
  {
    if !z.verlengingMogelijk then Ok(z.(verlengingstermijn := None))
    else if !IsSet(z.verlengingstermijn) then Err(VerlengingstermijnMissing)
    else Ok(z)
  }

  /** Saving a consistent record changes nothing, so saving twice is saving once. */
  lemma SaveIdempotent(z: ZaakTypeRecord)
    requires Save(z).Ok?
    ensures Save(Save(z).value) == Save(z)
  {
  }

  /** A record is left as it is by save exactly when it is consistent. */
  lemma SaveFixesExactlyConsistent(z: ZaakTypeRecord)
    ensures Save(z) == Ok(z) <==> VerlengingConsistent(z)
  {
  }

  /** The table after an attempted save, and the error if it was refused. */
  datatype Stored = Stored(rows: map<nat, ZaakTypeRecord>, error: Option<ModelError>)

  /** Saving under storage key `key`: a refused save writes nothing. */
  function SaveRow(rows: map<nat, ZaakTypeRecord>, key: nat, z: ZaakTypeRecord): (r: Stored)
    ensures r.error.Some? <==> z.verlengingMogelijk && !IsSet(z.verlengingstermijn)
    ensures r.error.Some? ==> r.rows == rows
    ensures r.error.None? ==> r.rows.Keys == rows.Keys + {key} && VerlengingConsistent(r.rows[key])
    ensures r.error.None? ==> forall k :: k in rows && k != key ==> r.rows[k] == rows[k]
    ensures r.error.None? ==> Save(z).Ok? && r.rows[key] == Save(z).value
    ensures r.error.Some? ==> r.error.value == VerlengingstermijnMissing
  {
    match Save(z)
    case Ok(saved) => Stored(rows[key := saved], None)
    case Err(e) => Stored(rows, Some(e))
  }

  /**
   An accepted save stores the record as given, except that the extension
   term is cleared when extension is not possible.
   */
  lemma SaveRowStoresRecordUpToTerm(rows: map<nat, ZaakTypeRecord>, key: nat, z: ZaakTypeRecord)
    requires SaveRow(rows, key, z).error.None?
    ensures SaveRow(rows, key, z).rows[key].(verlengingstermijn := z.verlengingstermijn) == z
    ensures z.verlengingMogelijk ==> SaveRow(rows, key, z).rows[key] == z
    ensures !z.verlengingMogelijk ==> SaveRow(rows, key, z).rows[key].verlengingstermijn.None?
  {
  }

  // ---------------------------------------------------------------------------
  // clean

  /** Both durations are set and the service norm is longer than the lead time. */
  predicate ServicenormExceeds(z: ZaakTypeRecord) {
    IsSet(z.doorlooptijd) && IsSet(z.servicenorm) && z.servicenorm.value > z.doorlooptijd.value
  }

  /** Another stored zaaktype (other pk) of the same catalogus has this omschrijving. */
  predicate OmschrijvingTaken(z: ZaakTypeRecord, stored: seq<ZaakTypeRecord>) {
    z.catalogus.Some? && exists i :: 0 <= i < |stored| && Clashes(z, stored[i])
  }

  predicate Clashes(z: ZaakTypeRecord, other: ZaakTypeRecord) {
    other.catalogus == z.catalogus && other.omschrijving == z.omschrijving && other.pk != z.pk
  }

  /**
   ZaakType.clean: the service norm must not exceed the lead time, the
   omschrijving must be unique within the catalogus (skipped without a
   catalogus), and then the validity check of the mixin, given here as its
   verdict, must pass. The first failing rule is reported.
   */
  function Clean(z: ZaakTypeRecord, stored: seq<ZaakTypeRecord>, geldigheidValid: bool): (r: Outcome<ModelError>)
    ensures r == Fail(ServicenormTooLong) <==> ServicenormExceeds(z)
    ensures r == Fail(OmschrijvingNotUnique) <==> !ServicenormExceeds(z) && OmschrijvingTaken(z, stored)
    ensures r == Fail(GeldigheidInvalid) <==>
              !ServicenormExceeds(z) && !OmschrijvingTaken(z, stored) && !geldigheidValid
    ensures r.Pass? <==> !ServicenormExceeds(z) && !OmschrijvingTaken(z, stored) && geldigheidValid
  {
    if ServicenormExceeds(z) then Fail(ServicenormTooLong)
    else if z.catalogus.Some? && FirstViolation(stored, (o: ZaakTypeRecord) => !Clashes(z, o), 0).Some? then
      Fail(OmschrijvingNotUnique)
    else if !geldigheidValid then Fail(GeldigheidInvalid)
    else Pass
  }

  /** Within a catalogus no two stored zaaktypen share an omschrijving. */
  predicate OmschrijvingUnique(rows: seq<ZaakTypeRecord>) {
    forall i, j :: 0 <= i < j < |rows| && rows[i].catalogus.Some? && rows[i].catalogus == rows[j].catalogus
      ==> rows[i].omschrijving != rows[j].omschrijving
  }

  /** Adding a new zaaktype that passed clean keeps omschrijvingen unique. */
  lemma CleanInsertKeepsOmschrijvingUnique(stored: seq<ZaakTypeRecord>, z: ZaakTypeRecord,
                                                             geldigheidValid: bool)
    requires OmschrijvingUnique(stored)
    requires forall i :: 0 <= i < |stored| ==> stored[i].pk != z.pk
    requires z.catalogus.Some?
    requires Clean(z, stored, geldigheidValid).Pass?
    ensures OmschrijvingUnique(stored + [z])
  {
    var rows := stored + [z];
    forall i, j | 0 <= i < j < |rows| && rows[i].catalogus.Some? && rows[i].catalogus == rows[j].catalogus
      ensures rows[i].omschrijving != rows[j].omschrijving
    {
      if j == |stored| {
        assert rows[i] == stored[i] && rows[j] == z;
      } else {
        assert rows[i] == stored[i] && rows[j] == stored[j];
      }
    }
  }

  /** Replacing a stored zaaktype by an updated version that passed clean keeps omschrijvingen unique. */
  lemma CleanUpdateKeepsOmschrijvingUnique(stored: seq<ZaakTypeRecord>, k: nat, z: ZaakTypeRecord,
                                                             geldigheidValid: bool)
    requires OmschrijvingUnique(stored)
    requires k < |stored| && z.pk.Some? && stored[k].pk == z.pk
    requires forall i :: 0 <= i < |stored| && i != k ==> stored[i].pk != z.pk
    requires z.catalogus.Some?
    requires Clean(z, stored, geldigheidValid).Pass?
    ensures OmschrijvingUnique(stored[k := z])
  {
    var rows := stored[k := z];
    forall i, j | 0 <= i < j < |rows| && rows[i].catalogus.Some? && rows[i].catalogus == rows[j].catalogus
      ensures rows[i].omschrijving != rows[j].omschrijving
    {
      if i == k {
        assert rows[i] == z && rows[j] == stored[j];
      } else if j == k {
        assert rows[j] == z && rows[i] == stored[i];
      } else {
        assert rows[i] == stored[i] && rows[j] == stored[j];
      }
    }
  }

  // ---------------------------------------------------------------------------
  // ZaakObjectType.clean

  datatype JaNee = Ja | Nee

  datatype ZaakObjectTypeRecord = ZaakObjectTypeRecord(objecttype: string, anderObjecttype: JaNee)

  /**
   ZaakObjectType.clean: with ander objecttype 'N' the objecttype must be one
   of the known object types (`known`); with 'J' any text is accepted. Then
   the validity check of the mixin, given as its verdict, must pass.
   */
  function CleanObjectType(o: ZaakObjectTypeRecord, known: set<string>, geldigheidValid: bool)
    : (r: Outcome<ModelError>)
    ensures r == Fail(UnknownObjecttype) <==> o.anderObjecttype.Nee? && o.objecttype !in known
    ensures r.Pass? <==> (o.anderObjecttype.Ja? || o.objecttype in known) && geldigheidValid
    ensures r.Fail? ==> r.error in {UnknownObjecttype, GeldigheidInvalid}
  {
    if o.anderObjecttype.Nee? && o.objecttype !in known then Fail(UnknownObjecttype)
    else if !geldigheidValid then Fail(GeldigheidInvalid)
    else Pass
  }

  /** With ander objecttype 'J' the verdict does not depend on the objecttype text. */
  lemma OtherObjecttypeAcceptsAnyText(o: ZaakObjectTypeRecord, text: string, known: set<string>,
                                       geldigheidValid: bool)
    requires o.anderObjecttype.Ja?
    ensures CleanObjectType(o.(objecttype := text), known, geldigheidValid)
            == CleanObjectType(o, known, geldigheidValid)
  {
  }

  // ---------------------------------------------------------------------------
  // identificatie

  /** The identificatie is a non-negative integer of at most five digits. */
  const MaxIdentificatie: int := 99999

  predicate IdentificatieInRange(n: int) {
    0 <= n <= MaxIdentificatie
  }

  predicate SameIdentity(a: ZaakTypeRecord, b: ZaakTypeRecord) {
    a.catalogus == b.catalogus && a.identificatie == b.identificatie
  }

  /** Within a catalogus no two zaaktypen share an identificatie. */
  predicate IdentificatieUnique(rows: seq<ZaakTypeRecord>) {
    forall i, j :: 0 <= i < j < |rows| ==> !SameIdentity(rows[i], rows[j])
  }

  /**
   Storing a new zaaktype: an out-of-range identificatie is refused, and so
   is one already used within the same catalogus. On success the row is added
   at the end and the other rows are untouched.
   */
  function Insert(rows: seq<ZaakTypeRecord>, z: ZaakTypeRecord): (r: Result<seq<ZaakTypeRecord>, ModelError>)
    ensures r == Err(IdentificatieOutOfRange) <==> !IdentificatieInRange(z.identificatie)
    ensures r.Ok? <==> IdentificatieInRange(z.identificatie) && forall i :: 0 <= i < |rows| ==> !SameIdentity(rows[i], z)
    ensures r.Ok? ==> r.value == rows + [z]
    ensures r.Err? ==> r.error in {IdentificatieOutOfRange, DuplicateIdentificatie}
  {
    if !IdentificatieInRange(z.identificatie) then Err(IdentificatieOutOfRange)
    else if FirstViolation(rows, (o: ZaakTypeRecord) => !SameIdentity(o, z), 0).Some? then Err(DuplicateIdentificatie)
    else Ok(rows + [z])
  }

  /** Every successful insert keeps identificatie unique per catalogus and in range. */
  lemma InsertKeepsIdentificatieUnique(rows: seq<ZaakTypeRecord>, z: ZaakTypeRecord)
    requires IdentificatieUnique(rows)
    requires forall i :: 0 <= i < |rows| ==> IdentificatieInRange(rows[i].identificatie)
    requires Insert(rows, z).Ok?
    ensures IdentificatieUnique(Insert(rows, z).value)
    ensures forall i :: 0 <= i < |rows| + 1 ==> IdentificatieInRange(Insert(rows, z).value[i].identificatie)
  {
    var s := rows + [z];
    forall i, j | 0 <= i < j < |s|
      ensures !SameIdentity(s[i], s[j])
    {
      if j == |rows| {
        assert s[i] == rows[i] && s[j] == z;
      } else {
        assert s[i] == rows[i] && s[j] == rows[j];
      }
    }
  }
}
