/**
 The informatieobjecttype view set: the links a new informatieobjecttype
 inherits on creation, and the scope table. Creating an informatieobjecttype
 copies every existing zaak-informatieobjecttype link whose informatieobjecttype
 has the same omschrijving and whose zaaktype is valid on the new type's
 begin date, re-pointing the copy at the new type.
 */
module InformatieObjectTypeViews {
  import opened Base
  import opened Validators

  /** The fields of a link besides its identity and its two ends. */
  datatype LinkDetails = LinkDetails(volgnummer: int, richting: string, statustype: Option<nat>)

  /**
   A zaak-informatieobjecttype link. `pk` stands for both the storage id and
   the uuid, which the storage assigns to a new row.
   */
  datatype Link = Link(pk: nat, zaaktype: Entity, informatieobjecttype: Entity, details: LinkDetails)

  /**
   The date condition of the link query, as its two alternatives: the
   zaaktype began on or before `date` and either ends on or after it or has
   no end.
   */
  predicate ZaaktypeValidOn(zaaktype: Entity, date: Date) {
    || (zaaktype.begin <= date && zaaktype.end.Some? && zaaktype.end.value >= date)
    || (zaaktype.begin <= date && zaaktype.end.None?)
  }

  /** The validity window of a zaaktype, with an inclusive end, contains `date`. */
  lemma ValidOnIsInclusiveWindow(zaaktype: Entity, date: Date)
    ensures ZaaktypeValidOn(zaaktype, date)
            <==> zaaktype.begin <= date && (zaaktype.end.None? || date <= zaaktype.end.value)
  {
  }

  /** The link query: same omschrijving, and the zaaktype valid on the new type's begin date. */
  predicate Selects(link: Link, created: Entity) {
    link.informatieobjecttype.omschrijving == created.omschrijving
    && ZaaktypeValidOn(link.zaaktype, created.begin)
  }

  /** The stored links the query returns, in storage order. */
  function Selected(links: seq<Link>, created: Entity): (r: seq<Link>)
    ensures forall x :: multiset(r)[x] == if Selects(x, created) then multiset(links)[x] else 0
    ensures forall j :: 0 <= j < |r| ==> Selects(r[j], created)
    ensures |r| <= |links|
  {
    if links == [] then []
    else
      assert links == [links[0]] + links[1..];
      (if Selects(links[0], created) then [links[0]] else []) + Selected(links[1..], created)
  }

  /** The query's verdict does not depend on the draft flag of any object involved. */
  lemma SelectionIgnoresConcept(link: Link, created: Entity, cz: bool, ci: bool, cc: bool)
    ensures Selects(link, created)
            == Selects(link.(zaaktype := link.zaaktype.(concept := cz),
                             informatieobjecttype := link.informatieobjecttype.(concept := ci)),
                       created.(concept := cc))
  {
  }

  /** The copy of `link` for the new informatieobjecttype, stored under `pk`. */
  function CopyLink(link: Link, created: Entity, pk: nat): Link {
    Link(pk, link.zaaktype, created, link.details)
  }

  /** The copies of `selected`, in order, stored under consecutive keys from `pk`. */
  function Copies(selected: seq<Link>, created: Entity, pk: nat): (r: seq<Link>)
    ensures |r| == |selected|
    ensures forall j :: 0 <= j < |r| ==> r[j] == CopyLink(selected[j], created, pk + j)
    decreases |selected|
  {
    if selected == [] then []
    else [CopyLink(selected[0], created, pk)] + Copies(selected[1..], created, pk + 1)
  }

  predicate PksDistinct(links: seq<Link>) {
    forall i, j :: 0 <= i < j < |links| ==> links[i].pk != links[j].pk
  }

  /**
   perform_create as intended, after the new informatieobjecttype `created`
   is saved: one new link per selected link, in order, with the selected
   link's zaaktype and details (statustype included), pointing at `created`.
   Storage assigns consecutive keys from `nextPk`. Existing links are left as
   they are. `PerformCreateAsWritten` below is the code as it stands.
   */
  method PerformCreate(links: seq<Link>, created: Entity, nextPk: nat) returns (result: seq<Link>)
    ensures result == links + Copies(Selected(links, created), created, nextPk)
    ensures |result| == |links| + |Selected(links, created)|
    ensures result[..|links|] == links
    ensures forall j :: |links| <= j < |result| ==>
              && result[j].zaaktype == Selected(links, created)[j - |links|].zaaktype
              && result[j].details == Selected(links, created)[j - |links|].details
              && result[j].informatieobjecttype == created
              && result[j].pk == nextPk + (j - |links|)
    ensures PksDistinct(links) && (forall j :: 0 <= j < |links| ==> links[j].pk < nextPk)
            ==> PksDistinct(result)
  {
    var associated := Selected(links, created);
    var copies := CopyAll(associated, created, nextPk);
    result := links + copies;
    CopyTable(links, associated, created, nextPk);
  }

  /** The copy loop: one copy per selected link, in order, under consecutive keys. */
  method CopyAll(selected: seq<Link>, created: Entity, nextPk: nat) returns (copies: seq<Link>)
    ensures copies == Copies(selected, created, nextPk)
  {
    copies := [];
    var k := 0;
    while k < |selected|
      invariant 0 <= k <= |selected|
      invariant copies == Copies(selected[..k], created, nextPk)
    {
      CopiesSnoc(selected[..k + 1], created, nextPk);
      assert selected[..k + 1][..k] == selected[..k];
      copies := copies + [CopyLink(selected[k], created, nextPk + k)];
      k := k + 1;
    }
    assert selected[..k] == selected;
  }

  /** The table `links + Copies(selected, ...)`: the old rows, then one copy per selected link. */
  lemma CopyTable(links: seq<Link>, selected: seq<Link>, created: Entity, nextPk: nat)
    ensures var t := links + Copies(selected, created, nextPk);
            && |t| == |links| + |selected|
            && t[..|links|] == links
            && (forall j :: |links| <= j < |t| ==>
                  && t[j].zaaktype == selected[j - |links|].zaaktype
                  && t[j].details == selected[j - |links|].details
                  && t[j].informatieobjecttype == created
                  && t[j].pk == nextPk + (j - |links|))
            && (PksDistinct(links) && (forall j :: 0 <= j < |links| ==> links[j].pk < nextPk)
                ==> PksDistinct(t))
  {
    var t := links + Copies(selected, created, nextPk);
    assert t[..|links|] == links;
    if PksDistinct(links) && (forall j :: 0 <= j < |links| ==> links[j].pk < nextPk) {
      FreshPksKeepDistinct(links, t, nextPk);
    }
  }

  /** Copying one more link appends its copy, under the next key. */
  lemma CopiesSnoc(selected: seq<Link>, created: Entity, pk: nat)
    requires |selected| > 0
    ensures Copies(selected, created, pk)
            == Copies(selected[..|selected| - 1], created, pk)
               + [CopyLink(selected[|selected| - 1], created, pk + |selected| - 1)]
  {
    var front := Copies(selected[..|selected| - 1], created, pk);
    var expected := front + [CopyLink(selected[|selected| - 1], created, pk + |selected| - 1)];
    forall j | 0 <= j < |selected|
      ensures Copies(selected, created, pk)[j] == expected[j]
    {
      if j < |selected| - 1 {
        assert expected[j] == front[j];
      }
    }
  }

  /** Some link in `links` refers to a statustype. */
  predicate HasStatustypeLink(links: seq<Link>) {
    exists j :: 0 <= j < |links| && links[j].details.statustype.Some?
  }

  /** Why the copy loop as written fails. */
  datatype CreateError =
    | StatustypeNotAnInstance   // a foreign key handed to `create` as a bare id

  /**
   perform_create as written: each copy is built from `model_to_dict` of the
   stored link, which gives the statustype foreign key as its id, and storage
   refuses an id where a foreign key expects an object. So the first selected
   link with a statustype aborts the copy loop, and the atomic block rolls the
   whole create back. Only when no selected link has a statustype does the
   create go through, with the same table the intended copy gives.
   */
  function PerformCreateAsWritten(links: seq<Link>, created: Entity, nextPk: nat)
    : (r: Result<seq<Link>, CreateError>)
    ensures r.Err? <==> HasStatustypeLink(Selected(links, created))
    ensures r.Err? ==> r.error == StatustypeNotAnInstance
    ensures r.Ok? ==> && |r.value| == |links| + |Selected(links, created)|
                      && r.value[..|links|] == links
                      && forall j :: |links| <= j < |r.value| ==> r.value[j].details.statustype.None?
    ensures r.Ok? ==> r.value == links + Copies(Selected(links, created), created, nextPk)
  {
    var associated := Selected(links, created);
    match FirstViolation(associated, (l: Link) => l.details.statustype.None?, 0)
    case Some(j) =>
      assert associated[j].details.statustype.Some?;
      assert HasStatustypeLink(associated);
      Err(StatustypeNotAnInstance)
    case None =>
      Ok(links + Copies(associated, created, nextPk))
  }

  /**
   A single stored link that the query selects and that has a statustype: the
   intended copy keeps its statustype, the create as written is rolled back.
   */
  lemma StatustypeLinkRollsBackCreate(link: Link, created: Entity, nextPk: nat)
    requires Selects(link, created) && link.details.statustype.Some?
    ensures Selected([link], created) == [link]
    ensures Copies([link], created, nextPk)[0].details == link.details
    ensures PerformCreateAsWritten([link], created, nextPk) == Err(StatustypeNotAnInstance)
  {
    assert [link][1..] == [];
    assert Selected([link], created)[0].details.statustype.Some?;
  }

  /** Appending rows keyed `nextPk`, `nextPk + 1`, ... above every existing key keeps keys distinct. */
  lemma FreshPksKeepDistinct(links: seq<Link>, result: seq<Link>, nextPk: nat)
    requires |links| <= |result| && result[..|links|] == links
    requires forall j :: |links| <= j < |result| ==> result[j].pk == nextPk + (j - |links|)
    requires PksDistinct(links) && forall j :: 0 <= j < |links| ==> links[j].pk < nextPk
    ensures PksDistinct(result)
  {
    forall i, j | 0 <= i < j < |result|
      ensures result[i].pk != result[j].pk
    {
      if j < |links| {
        assert result[i] == links[i] && result[j] == links[j];
      } else if i < |links| {
        assert result[i] == links[i];
      }
    }
  }

  /** `required_scopes` of the informatieobjecttype view set. */
  const RequiredScopes: ScopeTable := map[
    List := {CatalogiRead},
    Retrieve := {CatalogiRead},
    Create := {CatalogiWrite},
    Update := {CatalogiWrite, CatalogiForcedWrite},
    PartialUpdate := {CatalogiWrite, CatalogiForcedWrite},
    Destroy := {CatalogiWrite, CatalogiForcedDelete},
    Action.Publish := {CatalogiWrite}
  ]

  /** The relation fields the informatieobjecttype view set guards with the M2M concept rules. */
  const ConceptRelatedFields: seq<string> := ["besluittypen", "zaaktypen"]

  /**
   With this field list, an update of an informatieobjecttype (outside the
   end-date exemption) passes the M2M update check exactly when neither its
   besluittypen nor its zaaktypen are, or become, linked to a published
   object; the besluittypen are checked first.
   */
  lemma UpdateLockedByPublishedRelation(inst: Instance, attrs: Attrs, n: nat)
    requires forall f :: f in ConceptRelatedFields ==> f in inst.links
    requires !ClosesValidityOnly(attrs, n)
    ensures M2MConceptUpdate(Some(inst), ConceptRelatedFields, attrs, n).Pass?
            <==> FieldUnlocked(inst, attrs, "besluittypen") && FieldUnlocked(inst, attrs, "zaaktypen")
    ensures !FieldUnlocked(inst, attrs, "besluittypen")
            ==> M2MConceptUpdate(Some(inst), ConceptRelatedFields, attrs, n)
                == Fail(LockedFieldError(inst, attrs, "besluittypen"))
  {
    assert ConceptRelatedFields[0] == "besluittypen" && ConceptRelatedFields[1] == "zaaktypen";
  }

  /** An informatieobjecttype linked to a published zaaktype cannot be updated without the exemption. */
  lemma UpdateOfTypeLinkedToPublishedZaaktypeRefused(inst: Instance, attrs: Attrs, n: nat, k: nat)
    requires forall f :: f in ConceptRelatedFields ==> f in inst.links
    requires k < |inst.links["zaaktypen"]| && !inst.links["zaaktypen"][k].concept
    requires !ClosesValidityOnly(attrs, n)
    ensures M2MConceptUpdate(Some(inst), ConceptRelatedFields, attrs, n).Fail?
  {
    assert ConceptRelatedFields[1] == "zaaktypen";
    assert !AllConcept(LinkedAt(inst, "zaaktypen"));
  }

  /**
   Updates accept the write or the forced-write scope, destroy the write or
   the forced-delete scope, and create and publish the write scope only.
   */
  lemma InformatieObjectTypeScopeTable()
    ensures forall a :: a in RequiredScopes && CatalogiForcedWrite in RequiredScopes[a] <==> a in {Update, PartialUpdate}
    ensures forall a :: a in RequiredScopes && CatalogiForcedDelete in RequiredScopes[a] <==> a == Destroy
    ensures forall a :: a in RequiredScopes && RequiredScopes[a] == {CatalogiWrite} <==> a in {Create, Action.Publish}
    ensures forall a :: a in RequiredScopes && a !in {List, Retrieve} ==> CatalogiWrite in RequiredScopes[a]
  {
  }
}
