/** The Event record, the request body that creates or updates it, and the
    truthy-or-keep merge that an update applies to the five content fields. */
module Records {

  datatype Option<T> = None | Some(value: T)

  /** Record identifiers, as handed out by the repository. */
  type Id = nat

  /** A text or date field as it arrives in a request body or sits on a stored
      record; `None` is a field that is absent (`undefined`). Dates are opaque. */
  type Value = Option<string>

  /** JavaScript truthiness restricted to these values: present and not empty. */
  predicate Truthy(v: Value)
  {
    v.Some? && v.value != ""
  }

  /** The five content fields a request body may carry. */
  datatype Body = Body(title: Value, status: Value, description: Value, dateStart: Value, dateEnd: Value)

  datatype Event = Event(
    id: Id,
    title: Value,
    status: Value,
    description: Value,
    dateStart: Value,
    dateEnd: Value,
    imageUrl: Value,
    imageId: Value)

  /** Names of the content fields, so that properties can be stated once for all five. */
  datatype Field = Title | Status | Description | DateStart | DateEnd

  function Supplied(body: Body, f: Field): Value
  {
    match f
    case Title => body.title
    case Status => body.status
    case Description => body.description
    case DateStart => body.dateStart
    case DateEnd => body.dateEnd
  }

  function Stored(e: Event, f: Field): Value
  {
    match f
    case Title => e.title
    case Status => e.status
    case Description => e.description
    case DateStart => e.dateStart
    case DateEnd => e.dateEnd
  }

  /** The content fields of a record, in the shape of a request body. */
  function Content(e: Event): Body
  {
    Body(e.title, e.status, e.description, e.dateStart, e.dateEnd)
  }

  /** The asset fields are both set or both unset. */
  predicate Paired(e: Event)
  {
    e.imageUrl.Some? <==> e.imageId.Some?
  }

  /** A new document built from the body: the content fields come from the
      body, the asset fields start unset. */
  function NewRecord(id: Id, body: Body): Event
  {
    Event(id, body.title, body.status, body.description, body.dateStart, body.dateEnd, None, None)
  }

  /** The supplied value when it is truthy, else the current one. */
  function MergeField(supplied: Value, current: Value): Value
  {
    if Truthy(supplied) then supplied else current
  }

  /** The five field assignments an update makes on the loaded record. */
  function MergeFields(e: Event, body: Body): (r: Event)
    ensures forall f :: Stored(r, f) == (if Truthy(Supplied(body, f)) then Supplied(body, f) else Stored(e, f))
    ensures r.id == e.id && r.imageUrl == e.imageUrl && r.imageId == e.imageId
    ensures Paired(e) ==> Paired(r)
  {
    e.(title := MergeField(body.title, e.title),
       status := MergeField(body.status, e.status),
       description := MergeField(body.description, e.description),
       dateStart := MergeField(body.dateStart, e.dateStart),
       dateEnd := MergeField(body.dateEnd, e.dateEnd))
  }

  /** A body in which no field is truthy carries no change. */
  ghost predicate NothingSupplied(body: Body)
  {
    forall f :: !Truthy(Supplied(body, f))
  }

  /** Updating with no truthy field leaves the record as it was. */
  lemma MergeNothingIsIdentity(e: Event, body: Body)
    requires NothingSupplied(body)
    ensures MergeFields(e, body) == e
  {
    assert !Truthy(Supplied(body, Title)) && !Truthy(Supplied(body, Status));
    assert !Truthy(Supplied(body, Description));
    assert !Truthy(Supplied(body, DateStart)) && !Truthy(Supplied(body, DateEnd));
  }

  /** Applying the same body twice is the same as applying it once. */
  lemma MergeIdempotent(e: Event, body: Body)
    ensures MergeFields(MergeFields(e, body), body) == MergeFields(e, body)
  {
  }

  /** Sending back the record's own contents changes nothing. */
  lemma MergeOwnContentIsIdentity(e: Event)
    ensures MergeFields(e, Content(e)) == e
  {
  }

  /** The coarse rule at work: no body can clear a field that holds a truthy
      value, since an empty or absent supplied value keeps the stored one. */
  lemma MergeCannotClear(e: Event, body: Body, f: Field)
    requires Truthy(Stored(e, f))
    ensures Truthy(Stored(MergeFields(e, body), f))
  {
  }
}
