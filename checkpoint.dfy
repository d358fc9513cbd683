/** The harvest-state checkpoint: the single document of the `state`
    collection, how readState presents it, and how writeState's `$set`
    upsert changes it. */
module Checkpoint {
  import opened Values
  import Statuses

  /** A document, or the object readState returns: field name to value. */
  type Doc = map<string, Value>

  /** `findOne({}) || {}`: the stored document, or an empty object when there is none. */
  function StoredDoc(stored: Option<Doc>): Doc {
    if stored.Some? then stored.value else map[]
  }

  /** formatDoc: every entry of the document except `_id`, values untouched. */
  function FormatDoc(doc: Doc): (r: Doc)
    ensures "_id" !in r
    ensures forall k :: k in r <==> k in doc && k != "_id"
    ensures forall k :: k in r ==> r[k] == doc[k]
  {
    doc - {"_id"}
  }

  /** The `timestamp` field of readState's result: the stored timestamp
      wrapped in a moment when it is truthy, `undefined` otherwise. */
  function TimestampOf(doc: Doc): (r: Value)
    ensures IsCutLine(r)
    ensures r == Undefined <==> !("timestamp" in doc && Truthy(doc["timestamp"]))
    ensures "timestamp" in doc && doc["timestamp"].Date? ==> r == Moment(Some(doc["timestamp"].millis))
  {
    if "timestamp" in doc && Truthy(doc["timestamp"]) then ToMoment(doc["timestamp"]) else Undefined
  }

  /** readState with the given status default:
      `{status: default, ...formatDoc(), timestamp: ...}`. */
  function ReadWith(statusDefault: Value, stored: Option<Doc>): (r: Doc)
    ensures "_id" !in r
    ensures "timestamp" in r && r["timestamp"] == TimestampOf(StoredDoc(stored))
    ensures "status" in r
    ensures r["status"] == if "status" in StoredDoc(stored) then StoredDoc(stored)["status"] else statusDefault
    ensures forall k :: k != "status" && k != "timestamp" ==> (k in r <==> k in StoredDoc(stored) && k != "_id")
    ensures forall k :: k in r && k != "status" && k != "timestamp" ==> r[k] == StoredDoc(stored)[k]
  {
    var doc := StoredDoc(stored);
    map["status" := statusDefault] + FormatDoc(doc) + map["timestamp" := TimestampOf(doc)]
  }

  /** readState as written: the default is `statuses.pendingHarvest`, a key
      the enum does not have, so the default status is `undefined`. */
  function ReadAsWritten(stored: Option<Doc>): (r: Doc)
    ensures "status" in r && "timestamp" in r
  {
    ReadWith(Statuses.Member("pendingHarvest"), stored)
  }

  /** readState as intended: an absent status defaults to `harvestPending`. */
  function Read(stored: Option<Doc>): (r: Doc)
    ensures "status" in r && "timestamp" in r
    ensures IsCutLine(r["timestamp"])
  {
    ReadWith(Statuses.Member("harvestPending"), stored)
  }

  /** The `$set` operand of writeState: `{...state, timestamp: now}`, as the
      store serialises it. */
  function CommitFields(state: Doc, now: nat): (r: Doc)
    ensures r.Keys == state.Keys + {"timestamp"}
    ensures r["timestamp"] == Date(now)
    ensures forall k :: k in state && k != "timestamp" ==> r[k] == Stored(state[k])
  {
    (map k | k in state :: Stored(state[k]))["timestamp" := Date(now)]
  }

  /** `updateOne({}, {$set: fields}, {upsert: true})` on the state collection.
      With no document, one is inserted with the fields and a new `_id`
      (unless the fields give one). With a document, the fields overwrite
      their keys and every other key stays. Changing the immutable `_id` of an
      existing document is refused: `None`. */
  function Upsert(stored: Option<Doc>, fields: Doc, newId: nat): (r: Option<Doc>)
    ensures r.None? <==> stored.Some? && "_id" in fields && "_id" in stored.value && fields["_id"] != stored.value["_id"]
    ensures r.Some? && (stored.None? || "_id" in stored.value) ==> "_id" in r.value
    ensures r.Some? ==> forall k :: k in fields ==> k in r.value && r.value[k] == fields[k]
    ensures r.Some? ==> forall k :: k in StoredDoc(stored) && k !in fields ==> k in r.value && r.value[k] == StoredDoc(stored)[k]
    ensures r.Some? ==> forall k :: k in r.value ==> k in fields || k in StoredDoc(stored) || k == "_id"
  {
    match stored
    case None =>
      Some(if "_id" in fields then fields else fields["_id" := Object(newId)])
    case Some(doc) =>
      if "_id" in fields && "_id" in doc && fields["_id"] != doc["_id"] then None
      else Some(doc + fields)
  }

  /** The commit time of the stored checkpoint, when it holds a date. */
  function CommittedAt(stored: Option<Doc>): Option<nat> {
    if stored.Some? && "timestamp" in stored.value && stored.value["timestamp"].Date?
    then Some(stored.value["timestamp"].millis)
    else None
  }

  /** A stored document has an `_id`, and was not committed in the future. */
  ghost predicate Consistent(stored: Option<Doc>, now: nat) {
    stored.Some? ==> "_id" in stored.value && (CommittedAt(stored).Some? ==> CommittedAt(stored).value <= now)
  }

  /** Reading back a committed write: the cut-line is the commit time, every
      written field (other than `_id` and `timestamp`) reads back as stored,
      every earlier field the write did not mention survives, and the status
      is the written one, else the earlier one, else the default. */
  lemma WriteThenRead(stored: Option<Doc>, state: Doc, now: nat, newId: nat)
    requires Upsert(stored, CommitFields(state, now), newId).Some?
    ensures var r := Read(Upsert(stored, CommitFields(state, now), newId));
      && r["timestamp"] == Moment(Some(now))
      && CutLine(r["timestamp"]) == Some(now)
      && (forall k :: k in state && k != "_id" && k != "timestamp" ==> k in r && r[k] == Stored(state[k]))
      && (forall k :: k in StoredDoc(stored) && k !in state && k != "_id" && k != "timestamp" ==> k in r && r[k] == StoredDoc(stored)[k])
      && r["status"] == (if "status" in state then Stored(state["status"])
                         else if "status" in StoredDoc(stored) then StoredDoc(stored)["status"]
                         else Text("harvestPending"))
  {
  }

  /** A committed write leaves a consistent document, committed at the write's time. */
  lemma CommitIsConsistent(stored: Option<Doc>, state: Doc, before: nat, now: nat, newId: nat)
    requires Consistent(stored, before) && before <= now
    requires Upsert(stored, CommitFields(state, now), newId).Some?
    ensures Consistent(Upsert(stored, CommitFields(state, now), newId), now)
    ensures CommittedAt(Upsert(stored, CommitFields(state, now), newId)) == Some(now)
  {
  }

  /** Without a stored document, or without a status in it, the status of
      readState's result is `harvestPending`. */
  lemma ReadDefaultsToPending(stored: Option<Doc>)
    requires "status" !in StoredDoc(stored)
    ensures Read(stored)["status"] == Text("harvestPending")
  {
  }

  /** The defect as written: reading with no stored document yields no status. */
  lemma ReadAsWrittenHasNoStatus()
    ensures ReadAsWritten(None)["status"] == Undefined
    ensures Read(None)["status"] != ReadAsWritten(None)["status"]
  {
  }

  /** The correction changes the status default and nothing else. */
  lemma ReadAgreesExceptStatus(stored: Option<Doc>)
    ensures Read(stored).Keys == ReadAsWritten(stored).Keys
    ensures forall k :: k in Read(stored) && k != "status" ==> Read(stored)[k] == ReadAsWritten(stored)[k]
    ensures "status" in StoredDoc(stored) ==> Read(stored) == ReadAsWritten(stored)
  {
  }
}
