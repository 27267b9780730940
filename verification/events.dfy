/** The webhook event gate: `new SoldoEvent($data, $fingerprint,
    $fingerprintOrder, $internalToken)` either yields a verified event or
    raises, with no partial state. The schema validator, the fingerprint
    builder and the event-type getter are not part of this model; they are
    passed in as functions. */
module Events {
  import opened Failures
  import opened PhpValues
  import opened PhpStrings
  import opened Kinds
  import opened AttributeStore
  import Resources

  const EventTypeCard: string := "Card"
  const EventTypeTransaction: string := "Transaction"
  const EventTypeEmployee: string := "Employee"

  /** `SoldoEvent::types()`. */
  function Types(): (ts: seq<string>)
    ensures |ts| == 3
  {
    [EventTypeCard, EventTypeTransaction, EventTypeEmployee]
  }

  /** The validation rules handed to the schema validator. */
  const Rules: seq<(string, string)> := [("event_type", "required"), ("event_name", "required"), ("data", "array")]

  /** The code the gate calls but that is not part of this model:
      `validateRawData($data, $rules)`, `$resource->buildFingerprint($order,
      $token)` and `$resource->getEventType()`. */
  datatype Collaborators = Collaborators(
    validateRawData: (Value, seq<(string, string)>) -> bool,
    buildFingerprint: (Value, seq<string>, string) -> string,
    getEventType: Value -> Option<string>)

  /** `$data[$key]` of the payload; a missing key (or a payload that is not
      an array) reads as null. */
  function Field(data: Value, key: string): Value
  {
    if !data.Arr? then Null
    else match Lookup(data.entries, key)
      case Some(v) => v
      case None => Null
  }

  /** Loose `==` between a payload value and a word of letters, as PHP 8
      evaluates it: a string compares as a string, `true` equals any
      non-empty word, and an int, null, false or an array equals none. */
  predicate LooseEqualsWord(v: Value, word: string)
    requires |word| >= 1 && forall c :: c in word ==> 'A' <= c <= 'Z' || 'a' <= c <= 'z'
  {
    match v
    case Str(s) => s == word
    case Bool(b) => b
    case _ => false
  }

  /** `in_array($type, self::types())`, with loose comparison. */
  predicate InTypes(t: Value)
    ensures InTypes(t) <==> (t.Str? && t.s in Types()) || t == Bool(true)
  {
    LooseEqualsWord(t, EventTypeCard) || LooseEqualsWord(t, EventTypeTransaction) ||
    LooseEqualsWord(t, EventTypeEmployee)
  }

  /** The class `'\Soldo\Resources\' . $type` names: the event type as a
      string (`true` reads as "1"). */
  function ClassNameOf(t: Value): (name: string)
    requires InTypes(t)
    ensures t.Str? ==> name == t.s
  {
    if t.Str? then t.s else "1"
  }

  /** What a verified event holds: the rebuilt resource and its event type. */
  datatype Verified = Verified(resource: Value, eventType: Option<string>)

  /** The constructor's checks, in order: the schema, the event type, the
      resource class, the resource built from `data`, and the fingerprint
      computed over the comma-split field order. */
  function Verify(reg: Registry, c: Collaborators, data: Value, fingerprint: string,
                  fingerprintOrder: string, internalToken: string): (r: Result<Verified>)
    ensures r.Ok? ==> c.validateRawData(data, Rules) && InTypes(Field(data, "event_type"))
    ensures r.Ok? ==>
              (r.value.resource.Res? && r.value.resource.kind == ClassNameOf(Field(data, "event_type")) &&
               r.value.resource.kind in reg)
    ensures r.Ok? ==> fingerprint == c.buildFingerprint(r.value.resource, Explode(fingerprintOrder), internalToken)
    ensures r.Ok? ==> r.value.eventType == c.getEventType(r.value.resource)
    ensures r.Err? && r.error.InvalidEvent? ==>
              r.error.message in {"Invalid webhook data", "Event type not supported", "Cannot verify the given fingerprint"}
  {
    if !c.validateRawData(data, Rules) then Err(InvalidEvent("Invalid webhook data"))
    else
      var t := Field(data, "event_type");
      if !InTypes(t) then Err(InvalidEvent("Event type not supported"))
      else
        var className := ClassNameOf(t);
        if className !in reg then Err(InvalidClassName(className))
        else match Construct(reg, className, Field(data, "data"))
          case Err(e) => Err(e)
          case Ok(resource) =>
            var order := Explode(fingerprintOrder);
            if fingerprint != c.buildFingerprint(resource, order, internalToken) then
              Err(InvalidEvent("Cannot verify the given fingerprint"))
            else Ok(Verified(resource, c.getEventType(resource)))
  }

  /** A verified webhook event. */
  class SoldoEvent {
    /** `private $resource`. */
    const resource: Resources.Resource
    /** `private $type`. */
    const eventType: Option<string>
    /** What the gate verified when the event was built. */
    ghost const verified: Verified

    /** The event still holds what the gate verified: its resource has not
        been changed since. */
    ghost predicate Valid()
      reads this, resource
    {
      resource.Valid() && resource.Snapshot() == verified.resource && Typed()
    }

    /** The stored type is the one the gate verified. Both fields are
        constant, so this holds for the event's whole life, whatever is
        later done to its resource. */
    ghost predicate Typed()
      reads this
    {
      eventType == verified.eventType
    }

    constructor (resource: Resources.Resource, eventType: Option<string>, ghost verified: Verified)
      requires resource.Valid() && resource.Snapshot() == verified.resource && eventType == verified.eventType
      ensures this.resource == resource && this.eventType == eventType && this.verified == verified
      ensures Valid() && Typed()
    {
      this.resource := resource;
      this.eventType := eventType;
      this.verified := verified;
    }

    /** `new SoldoEvent(...)`: the event, or the exception that refused it. */
    static method Receive(reg: Registry, c: Collaborators, data: Value, fingerprint: string,
                          fingerprintOrder: string, internalToken: string) returns (r: Result<SoldoEvent>)
      ensures r.Err? ==> Verify(reg, c, data, fingerprint, fingerprintOrder, internalToken) == Err(r.error)
      ensures r.Ok? ==> fresh(r.value) && fresh(r.value.resource) && r.value.Valid() && r.value.Typed()
      ensures r.Ok? ==> Verify(reg, c, data, fingerprint, fingerprintOrder, internalToken) == Ok(r.value.verified)
    {
      if !c.validateRawData(data, Rules) {
        return Err(InvalidEvent("Invalid webhook data"));
      }
      var t := Field(data, "event_type");
      if !InTypes(t) {
        return Err(InvalidEvent("Event type not supported"));
      }
      var className := ClassNameOf(t);
      if className !in reg {
        return Err(InvalidClassName(className));
      }
      var built := Resources.Resource.Create(reg, className, Field(data, "data"));
      if built.Err? {
        return Err(built.error);
      }
      var resource := built.value;
      var order := Explode(fingerprintOrder);
      if fingerprint != c.buildFingerprint(resource.Snapshot(), order, internalToken) {
        return Err(InvalidEvent("Cannot verify the given fingerprint"));
      }
      var eventType := c.getEventType(resource.Snapshot());
      var event := new SoldoEvent(resource, eventType, Verified(resource.Snapshot(), eventType));
      return Ok(event);
    }

    /** `type()`: the event type the verified resource reported. */
    function Type(): (t: Option<string>)
      reads this
      requires Typed()
      ensures t == verified.eventType
    {
      eventType
    }

    /** `get()`: the event's own resource object. While nothing has changed
        it since, it still holds what the gate rebuilt and checked. */
    function Get(): (r: Resources.Resource)
      reads this, resource
      ensures r == resource
      ensures Valid() ==> r.Valid() && r.Snapshot() == verified.resource
    {
      resource
    }
  }

  /** `$event->get()->name = $value; $event->type();`: changing the event's
      resource through `get()` leaves `type()` callable and its answer
      unchanged. */
  method TypeAfterChange(e: SoldoEvent, name: string, value: Value) returns (t: Option<string>)
    requires e.Typed() && e.resource.Valid()
    modifies e.resource
    ensures t == e.verified.eventType
  {
    var res := e.Get();
    var _ := res.Set(name, value);
    t := e.Type();
  }

  // ---------------------------------------------------------------------

  /** The supported types are exactly Card, Transaction and Employee, in
      that order; a string passes the type check exactly when it is one of
      them. */
  lemma TypesAreClosed(s: string)
    ensures Types() == ["Card", "Transaction", "Employee"]
    ensures InTypes(Str(s)) <==> s in Types()
  {
  }

  /** Data the validator refuses is rejected before anything else is
      looked at. */
  lemma InvalidDataFirst(reg: Registry, c: Collaborators, data: Value, fingerprint: string,
                         fingerprintOrder: string, internalToken: string)
    requires !c.validateRawData(data, Rules)
    ensures Verify(reg, c, data, fingerprint, fingerprintOrder, internalToken) == Err(InvalidEvent("Invalid webhook data"))
  {
  }

  /** An unsupported event type is rejected whatever the registry, the
      fingerprint builder and the fingerprint: no resource is built. */
  lemma UnsupportedTypeRejected(reg: Registry, reg': Registry, c: Collaborators, c': Collaborators,
                                data: Value, fingerprint: string, fingerprint': string,
                                fingerprintOrder: string, internalToken: string)
    requires c.validateRawData(data, Rules) && c'.validateRawData(data, Rules)
    requires !InTypes(Field(data, "event_type"))
    ensures Verify(reg, c, data, fingerprint, fingerprintOrder, internalToken) == Err(InvalidEvent("Event type not supported"))
    ensures Verify(reg, c, data, fingerprint, fingerprintOrder, internalToken) ==
            Verify(reg', c', data, fingerprint', fingerprintOrder, internalToken)
  {
  }

  /** The event is accepted exactly when the data validates, the type is
      supported and registered, the resource builds from `data`, and the
      claimed fingerprint equals the one recomputed over that resource and
      the split order; it then holds that resource, of the named kind, and
      the type the resource reports rather than the raw `event_type`. */
  lemma VerifySucceeds(reg: Registry, c: Collaborators, data: Value, fingerprint: string,
                       fingerprintOrder: string, internalToken: string)
    ensures var r := Verify(reg, c, data, fingerprint, fingerprintOrder, internalToken);
            var t := Field(data, "event_type");
            r.Ok? <==>
              c.validateRawData(data, Rules) && InTypes(t) && ClassNameOf(t) in reg &&
              Construct(reg, ClassNameOf(t), Field(data, "data")).Ok? &&
              fingerprint == c.buildFingerprint(Construct(reg, ClassNameOf(t), Field(data, "data")).value,
                                                Explode(fingerprintOrder), internalToken)
    ensures var r := Verify(reg, c, data, fingerprint, fingerprintOrder, internalToken);
            var t := Field(data, "event_type");
            r.Ok? ==>
              r.value.resource == Construct(reg, ClassNameOf(t), Field(data, "data")).value &&
              r.value.resource.Res? && r.value.resource.kind == ClassNameOf(t) &&
              r.value.eventType == c.getEventType(r.value.resource)
  {
  }

  /** A fingerprint that differs from the recomputed one is refused, after
      the resource has been built. */
  lemma WrongFingerprintRejected(reg: Registry, c: Collaborators, data: Value, fingerprint: string,
                                 fingerprintOrder: string, internalToken: string)
    requires c.validateRawData(data, Rules) && InTypes(Field(data, "event_type"))
    requires ClassNameOf(Field(data, "event_type")) in reg
    requires Construct(reg, ClassNameOf(Field(data, "event_type")), Field(data, "data")).Ok?
    requires fingerprint != c.buildFingerprint(
               Construct(reg, ClassNameOf(Field(data, "event_type")), Field(data, "data")).value,
               Explode(fingerprintOrder), internalToken)
    ensures Verify(reg, c, data, fingerprint, fingerprintOrder, internalToken) ==
            Err(InvalidEvent("Cannot verify the given fingerprint"))
  {
  }

  /** The field order handed to the fingerprint builder is the claimed
      order cut at each ',': comma-free names that join back to the claimed
      string, in order, and the only such split. */
  lemma FingerprintOrderIsSplit(fingerprintOrder: string, names: seq<string>)
    ensures Implode(Explode(fingerprintOrder)) == fingerprintOrder
    ensures (|names| >= 1 && (forall i :: 0 <= i < |names| ==> ',' !in names[i]) &&
             Implode(names) == fingerprintOrder) ==> names == Explode(fingerprintOrder)
  {
    ImplodeExplode(fingerprintOrder);
    if |names| >= 1 && (forall i :: 0 <= i < |names| ==> ',' !in names[i]) && Implode(names) == fingerprintOrder {
      ExplodeImplode(names);
    }
  }

  /** A type that is not supported, such as "Company", is refused even when
      that class is registered. */
  lemma CompanyEventRejected(reg: Registry, c: Collaborators, data: Value, fingerprint: string,
                             fingerprintOrder: string, internalToken: string)
    requires c.validateRawData(data, Rules) && Field(data, "event_type") == Str("Company")
    ensures Verify(reg, c, data, fingerprint, fingerprintOrder, internalToken) == Err(InvalidEvent("Event type not supported"))
  {
  }
}
