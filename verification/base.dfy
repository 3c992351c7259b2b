/**
 Shared vocabulary of the catalogue model: failure-carrying datatypes, the
 snapshot of a catalogue type as the concept rules see it, the validated
 request attributes, and the permission scopes named by the view sets.
 */
module Base {

  datatype Option<+T> = None | Some(value: T)

  /** Pass, or the single error a validator raises. */
  datatype Outcome<+E> = Pass | Fail(error: E)

  datatype Result<+T, +E> = Ok(value: T) | Err(error: E)

  /** A calendar date, as its day number; only the order of dates matters here. */
  type Date = int

  /**
   The storage id of a catalogus. Storage ids start at 1, so an id is never
   0: the source's truthiness test on a catalogus id (`if self.catalogus_id:`)
   is the same as "a catalogus is set".
   */
  type CatalogusId = n: nat | 0 < n witness 1

  /**
   A catalogue type (zaaktype, besluittype, informatieobjecttype, ...) as the
   rules see it: storage id, owning catalogus, the draft ("concept") flag,
   identity, description and validity window. `end == None` is an open window.
   */
  datatype Entity = Entity(
    id: nat,
    catalogus: CatalogusId,
    concept: bool,
    identificatie: string,
    omschrijving: string,
    begin: Date,
    end: Option<Date>)

  /**
   The stored instance a serializer validates against: the object itself, its
   foreign keys by field name (`zaaktype`, `informatieobjecttype`) and its
   many-to-many relations by field name (`besluittype_set`, `deelzaaktypen`, ...).
   */
  datatype Instance = Instance(
    entity: Entity,
    refs: map<string, Entity>,
    links: map<string, seq<Entity>>)

  /**
   A validated attribute value, already resolved by the serializer: a related
   object, a list of related objects, a date or null, a catalogus, a text, or
   any other value of which only its truthiness matters.
   */
  datatype Value =
    | Obj(obj: Entity)
    | Objs(objs: seq<Entity>)
    | Day(day: Option<Date>)
    | Cat(id: CatalogusId)
    | Text(text: string)
    | Other(truthy: bool)

  /** The validated attributes of a request, keyed by model field name. */
  type Attrs = map<string, Value>

  /** Python truthiness of a value: empty lists, null and "" are false. */
  predicate Truthy(v: Value) {
    match v
    case Obj(_) => true
    case Objs(s) => |s| > 0
    case Day(d) => d.Some?
    case Cat(_) => true
    case Text(t) => t != ""
    case Other(b) => b
  }

  /** `attrs.get(key)` when it yields a related object; None otherwise. */
  function ObjAt(attrs: Attrs, key: string): (r: Option<Entity>)
    ensures r.Some? <==> key in attrs && attrs[key].Obj?
    ensures r.Some? ==> attrs[key] == Obj(r.value)
  {
    if key in attrs && attrs[key].Obj? then Some(attrs[key].obj) else None
  }

  /** `attrs.get(key, [])` for a list of related objects; absent reads as empty. */
  function ObjsAt(attrs: Attrs, key: string): (r: seq<Entity>)
    ensures key !in attrs ==> r == []
    ensures key in attrs && attrs[key].Objs? ==> r == attrs[key].objs
  {
    if key in attrs && attrs[key].Objs? then attrs[key].objs else []
  }

  /** `attrs.get(key)` when it yields a catalogus; None otherwise. */
  function CatAt(attrs: Attrs, key: string): (r: Option<CatalogusId>)
    ensures r.Some? <==> key in attrs && attrs[key].Cat?
    ensures r.Some? ==> attrs[key] == Cat(r.value)
  {
    if key in attrs && attrs[key].Cat? then Some(attrs[key].id) else None
  }

  /** Every object in the list is still a draft. */
  predicate AllConcept(s: seq<Entity>) {
    forall j :: 0 <= j < |s| ==> s[j].concept
  }

  /** Every object in the list is published. */
  predicate AllPublished(s: seq<Entity>) {
    forall j :: 0 <= j < |s| ==> !s[j].concept
  }

  /**
   Index of the first element at or after `from` that fails `ok`: the
   "raise on the first offending item" loop every validator uses.
   */
  function FirstViolation<T>(xs: seq<T>, ok: T -> bool, from: nat): (r: Option<nat>)
    requires from <= |xs|
    ensures r.None? <==> forall j :: from <= j < |xs| ==> ok(xs[j])
    ensures r.Some? ==> from <= r.value < |xs| && !ok(xs[r.value])
    ensures r.Some? ==> forall j :: from <= j < r.value ==> ok(xs[j])
    decreases |xs| - from
  {
    if from == |xs| then None
    else if !ok(xs[from]) then Some(from)
    else FirstViolation(xs, ok, from + 1)
  }

  /** OAuth scopes the view sets name in their `required_scopes` tables. */
  datatype Scope =
    | ZaaktypesRead
    | ZaaktypesWrite
    | CatalogiRead
    | CatalogiWrite
    | CatalogiForcedWrite
    | CatalogiForcedDelete

  /** View-set actions. */
  datatype Action = List | Retrieve | Create | Update | PartialUpdate | Destroy | Publish

  /** Action to the scopes its table entry names (joined with `|` in the source). */
  type ScopeTable = map<Action, set<Scope>>
}
