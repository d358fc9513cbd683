/** The JavaScript and BSON values that the harvest state is made of, with the
    parts of JavaScript semantics the protocol depends on: truthiness, the
    moment wrapper around dates, and how the document store serialises a value. */
module Values {

  datatype Option<+T> = None | Some(value: T)

  /** A field value of the state document, or of the object readState returns. */
  datatype Value =
    | Undefined
    | Null
    | Text(s: string)
    | Date(millis: nat)          // a JavaScript Date, as the store keeps it
    | Moment(at: Option<nat>)    // a moment object; `None` is an invalid moment
    | Object(tag: nat)           // any other object: an ObjectId, a resumption token, an error

  /** JavaScript truthiness: `if (v)`, `v && ...`. */
  predicate Truthy(v: Value) {
    match v
    case Undefined => false
    case Null => false
    case Text(s) => s != ""
    case _ => true
  }

  /** `moment(v)` for a value read back from the store. */
  function ToMoment(v: Value): (r: Value)
    ensures r.Moment?
    ensures v.Date? ==> r.at == Some(v.millis)
    ensures v.Moment? ==> r == v
  {
    match v
    case Date(t) => Moment(Some(t))
    case Moment(a) => Moment(a)
    case _ => Moment(None)
  }

  /** What the reconciler may be handed as its cut-line: a moment, or nothing. */
  predicate IsCutLine(ts: Value) {
    ts == Undefined || ts.Moment?
  }

  /** The instant a cut-line stands for; `None` when there is none or it is invalid. */
  function CutLine(ts: Value): Option<nat>
    requires IsCutLine(ts)
  {
    if ts.Moment? then ts.at else None
  }

  /** `m.isAfter(t)`: an invalid moment is after nothing. */
  predicate IsAfter(m: Value, t: nat)
    requires m.Moment?
  {
    m.at.Some? && m.at.value > t
  }

  /** A value as the document store writes it: with the driver's default of
      not ignoring undefined fields, `undefined` is stored as `null`. */
  function Stored(v: Value): (r: Value)
    ensures r != Undefined
    ensures v != Undefined ==> r == v
  {
    if v == Undefined then Null else v
  }
}
