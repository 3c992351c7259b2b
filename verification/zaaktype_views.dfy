/**
 The zaaktype view set: the `publish` action and the scope table. Publishing
 flips the draft flag of a zaaktype, but only once every besluittype and
 informatieobjecttype related to it has been published itself.
 */
module ZaakTypeViews {
  import opened Base
  import opened Validators

  /**
   What the publish action leaves in storage. A refusal is a permission-denied
   outcome, not a validation error, and leaves the stored zaaktype as it was.
   */
  datatype PublishOutcome =
    | Published(stored: Entity)
    | PermissionDenied(stored: Entity)

  /**
   The publish action. `besluittypen` and `informatieobjecttypen` are the
   objects related to the zaaktype; they are checked in that order, each
   group item by item, before anything is written.
   */
  method Publish(zaaktype: Entity, besluittypen: seq<Entity>, informatieobjecttypen: seq<Entity>)
    returns (r: PublishOutcome)
    ensures r.Published? <==> AllPublished(besluittypen) && AllPublished(informatieobjecttypen)
    ensures r.PermissionDenied? ==> r.stored == zaaktype
    ensures r.Published? ==> !r.stored.concept && r.stored.(concept := zaaktype.concept) == zaaktype
    ensures besluittypen == [] && informatieobjecttypen == [] ==> r.Published?
  {
    var groups := [besluittypen, informatieobjecttypen];
    var g := 0;
    while g < |groups|
      invariant 0 <= g <= |groups|
      invariant forall h :: 0 <= h < g ==> AllPublished(groups[h])
    {
      var types := groups[g];
      var i := 0;
      while i < |types|
        invariant 0 <= i <= |types|
        invariant forall j :: 0 <= j < i ==> !types[j].concept
      {
        if types[i].concept {
          return PermissionDenied(zaaktype);
        }
        i := i + 1;
      }
      g := g + 1;
    }
    assert AllPublished(groups[0]) && AllPublished(groups[1]);
    return Published(zaaktype.(concept := false));
  }

  /**
   Publishing does not look at the zaaktype's own draft flag: an already
   published zaaktype whose relations are all published is published again
   without any change.
   */
  method PublishAgain(zaaktype: Entity, besluittypen: seq<Entity>, informatieobjecttypen: seq<Entity>)
    returns (r: PublishOutcome)
    requires !zaaktype.concept
    requires AllPublished(besluittypen) && AllPublished(informatieobjecttypen)
    ensures r == Published(zaaktype)
  {
    r := Publish(zaaktype, besluittypen, informatieobjecttypen);
  }

  /** `required_scopes` of the zaaktype view set. */
  const RequiredScopes: ScopeTable := map[
    List := {ZaaktypesRead},
    Retrieve := {ZaaktypesRead},
    Create := {ZaaktypesWrite},
    Destroy := {ZaaktypesWrite},
    Action.Publish := {ZaaktypesWrite}
  ]

  /** The relation field the zaaktype view set guards with the M2M concept rules. */
  const ConceptRelatedFields: seq<string> := ["besluittype_set"]

  /**
   With this field list, a zaaktype create passes the M2M create check exactly
   when every besluittype it supplies is a concept, and a published one is
   reported against `besluittype_set`.
   */
  lemma CreateWithPublishedBesluittypeRefused(attrs: Attrs)
    ensures M2MConceptCreate(None, ConceptRelatedFields, attrs).Pass?
            <==> AllConcept(ObjsAt(attrs, "besluittype_set"))
    ensures !AllConcept(ObjsAt(attrs, "besluittype_set"))
            ==> M2MConceptCreate(None, ConceptRelatedFields, attrs)
                == Fail(ValidationError(NonConceptRelation, NonFieldErrors, CreateRelationToPublished("besluittype_set")))
  {
    assert ConceptRelatedFields[0] == "besluittype_set";
  }

  /**
   Publish, create and destroy need the zaaktypes write scope, list and
   retrieve the read scope; the view set has no update actions at all.
   */
  lemma ZaakTypeScopeTable()
    ensures forall a :: a in RequiredScopes ==>
              (RequiredScopes[a] == {ZaaktypesWrite} <==> a in {Create, Destroy, Action.Publish})
    ensures forall a :: a in RequiredScopes ==>
              (RequiredScopes[a] == {ZaaktypesRead} <==> a in {List, Retrieve})
    ensures Update !in RequiredScopes && PartialUpdate !in RequiredScopes
  {
  }
}
