/**
 * The DynamoDB Streams records the handler receives, and the reading of the
 * user's `name`, `email` and `confirmed` out of a record's `NewImage`.
 */
module StreamRecords {
  import opened Wrappers

  /** One typed attribute value of a DynamoDB image (`{S: …}`, `{N: …}`, `{BOOL: …}`, …). */
  datatype AttributeValue =
    | S(s: string)
    | N(n: string)
    | BOOL(b: bool)
    | NULL
    | Other  // L, M, B, SS, NS, BS: none of them has an `S` or `BOOL` member

  /** A `NewImage`: attribute name to typed value. */
  type Image = map<string, AttributeValue>

  /** The `dynamodb` member of a stream record; `newImage` is absent for REMOVE records. */
  datatype StreamData = StreamData(newImage: Option<Image>)

  datatype StreamRecord = StreamRecord(eventName: string, dynamodb: Option<StreamData>)

  /** The Lambda event; `records` is `None` when the event has no `Records` member. */
  datatype Event = Event(records: Option<seq<StreamRecord>>)

  /** What the handler can catch: a TypeError from reading a member of `undefined`, or a rejected send. */
  datatype JsError =
    | TypeError(property: string)
    | SendFailed(message: string)

  /**
   * `err.message`, with V8's wording for a member read on `undefined`: it
   * names the member that was read. A rejected send passes its own message on.
   */
  function Message(e: JsError): (r: string)
    ensures e.TypeError? ==> "Cannot read properties of undefined" <= r
    ensures e.TypeError? ==> |e.property| + 2 <= |r| && r[|r| - |e.property| - 2..|r| - 2] == e.property
    ensures e.SendFailed? ==> r == e.message
  {
    match e
    case TypeError(p) => "Cannot read properties of undefined (reading '" + p + "')"
    case SendFailed(m) => m
  }

  /** The three values the handler reads; `None` stands for JavaScript's `undefined`. */
  datatype User = User(name: Option<string>, email: Option<string>, confirmed: Option<bool>)

  /** `attr.S`: the string of an `S` attribute, `undefined` for any other type. */
  function StringMember(a: AttributeValue): (r: Option<string>)
    ensures r.Some? <==> a.S?
  {
    if a.S? then Some(a.s) else None
  }

  /** `attr.BOOL`: the flag of a `BOOL` attribute, `undefined` for any other type. */
  function BoolMember(a: AttributeValue): (r: Option<bool>)
    ensures r.Some? <==> a.BOOL?
  {
    if a.BOOL? then Some(a.b) else None
  }

  /** The image fields the handler needs are all present (whatever their types). */
  predicate WellShaped(r: StreamRecord) {
    r.dynamodb.Some? && r.dynamodb.value.newImage.Some?
    && "name" in r.dynamodb.value.newImage.value
    && "email" in r.dynamodb.value.newImage.value
    && "confirmed" in r.dynamodb.value.newImage.value
  }

  /**
   * Reads `NewImage.name.S`, `NewImage.email.S` and `NewImage.confirmed.BOOL`
   * in that order; the first member read on `undefined` throws.
   */
  function ReadUser(r: StreamRecord): (u: Result<User, JsError>)
    ensures u.Ok? <==> WellShaped(r)
    ensures u.Ok? ==>
      var image := r.dynamodb.value.newImage.value;
      u.value == User(StringMember(image["name"]), StringMember(image["email"]), BoolMember(image["confirmed"]))
    ensures r.dynamodb.None? ==> u == Err(TypeError("NewImage"))
    ensures r.dynamodb.Some? && r.dynamodb.value.newImage.None? ==> u == Err(TypeError("name"))
    ensures r.dynamodb.Some? && r.dynamodb.value.newImage.Some? ==>
      var image := r.dynamodb.value.newImage.value;
      ("name" !in image || "email" !in image ==> u == Err(TypeError("S")))
      && ("name" in image && "email" in image && "confirmed" !in image ==> u == Err(TypeError("BOOL")))
  {
    match r.dynamodb
    case None => Err(TypeError("NewImage"))
    case Some(data) =>
      match data.newImage
      case None => Err(TypeError("name"))
      case Some(image) =>
        if "name" !in image then Err(TypeError("S"))
        else if "email" !in image then Err(TypeError("S"))
        else if "confirmed" !in image then Err(TypeError("BOOL"))
        else Ok(User(StringMember(image["name"]), StringMember(image["email"]), BoolMember(image["confirmed"])))
  }
}
