# Harvest commons: the state-gated queue commit protocol

This project models the checkpoint-and-queue reconciliation core of the Melinda
record-harvest commons (`src/index.js`). A harvester calls `writeState(state,
records)`. That call does three things in order:

1. It stages the records on the broker queue `records-temp`. All of them carry
   one shared stage timestamp.
2. It upserts the harvest state document with `$set`, stamped with the commit
   time.
3. If records were given, it drains `records-temp`. A message goes on to the
   `records` queue only when the committed timestamp is strictly after the
   message's timestamp; otherwise it is dropped.

`handleQueues()` runs the same drain against whatever timestamp is stored. It
is the crash-recovery entry point. `readState()` returns the stored document
without `_id`, with a status default and with the timestamp wrapped in a
moment.

The two external systems and the clock are plain values here:

- the broker is two sequences of messages, `temp` (`records-temp`) and `ready`
  (`records`);
- the MongoDB `state` collection is an optional map from field names to values;
- time is a natural number of milliseconds that never decreases.

Files:

- `values.dfy` (module `Values`): the JavaScript and BSON values of a state
  document. It covers truthiness, `moment(...)` and `isAfter`, and how `undefined`
  is stored.
- `statuses.dfy` (module `Statuses`): the exported `statuses` enum.
- `checkpoint.dfy` (module `Checkpoint`): `formatDoc`, `readState` and the
  `$set` upsert of `writeState`, as pure functions over maps, with the
  write-then-read lemmas.
- `queues.dfy` (module `Queues`): messages, the routing rule, and the functions
  `Forwarded` (what a drain pass sends to `records`) and `Staged` (what
  `queueRecords` sends to `records-temp`), with their lemmas.
- `commons.dfy` (module `HarvestCommons`): the class `Commons`. Its fields are
  the two queues, the state document and the clock. Its methods are
  `sendMessage`, `channel.get`, `channel.ack`, `readState`,
  `handleTemporaryRecords`, `queueRecords`, `writeState` and `handleQueues`,
  written as `while` loops where the source recurses. Each method's `ensures`
  ties the new state to the specification functions above.

Points of the code worth knowing, which the model keeps:

- The write is a `$set` merge, not a full replace. Fields of an earlier state
  that a later `writeState` does not mention survive.
- The checkpoint timestamp is always the commit time. An explicit timestamp in
  `state` is overwritten.
- `queueRecords` is called even for an empty record list; it then stages
  nothing. Reconciliation runs when `records.length > 0`, even if staging
  stopped early at a falsy element.
- The drain stops at the first empty `get`. It does not stop at a queue depth
  captured beforehand.

## Model

| member | source | states |
|---|---|---|
| `Values.ToMoment` | src/index.js:55 | `moment(v)` of a stored value is a moment; a stored date becomes the moment at the same instant, a moment stays itself |
| `Values.Stored` | src/index.js:76-81 | the store never holds `undefined`: it becomes `null`, every other value is stored unchanged |
| `Statuses.Member` | src/index.js:34-39 | `statuses[key]` is the name itself for the four status keys and `undefined` for any key that is neither a status nor inherited from `Object.prototype`, such as `pendingHarvest` |
| `Checkpoint.FormatDoc` | src/index.js:58-62 | formatDoc keeps every entry of the document except `_id`, with its value unchanged, and adds nothing |
| `Checkpoint.TimestampOf` | src/index.js:55 | the returned timestamp is `undefined` exactly when the stored one is missing or falsy; a stored date comes back as the moment at that instant; the result is always a valid reconciler cut-line argument |
| `Checkpoint.ReadWith` | src/index.js:46-63 | the result has no `_id`; it has `timestamp` as above; its `status` is the stored status, else the default; every other stored key is present with its stored value and no other key is |
| `Checkpoint.ReadAsWritten` | src/index.js:52-56 | readState exactly as written, with the `statuses.pendingHarvest` default; the result always has `status` and `timestamp` keys |
| `Checkpoint.Read` | src/index.js:52-56 | readState with the intended `harvestPending` default; its `timestamp` is always a moment or `undefined` |
| `Checkpoint.CommitFields` | src/index.js:76-78 | the `$set` operand has the keys of `state` plus `timestamp`; `timestamp` is the commit date, overriding any in `state`; every other value is stored as given |
| `Checkpoint.Upsert` | src/index.js:81 | the upsert fails exactly when it would change the `_id` of an existing document; otherwise every set field takes its new value, every other stored field keeps its value, no other key appears, and an inserted document gets an `_id` |
| `Checkpoint.WriteThenRead` | src/index.js:74-81 | after a committed write, readState's cut-line is the commit time, every written field reads back as stored, untouched earlier fields survive (`$set` merge), and the status is the written one, else the earlier one, else `harvestPending` |
| `Checkpoint.CommitIsConsistent` | src/index.js:74-81 | a committed write leaves a document with an `_id`, committed at the write time, which is never in the future |
| `Checkpoint.ReadDefaultsToPending` | src/index.js:52-54 | with no stored status (or no document), the corrected readState reports `harvestPending` |
| `Checkpoint.ReadAsWrittenHasNoStatus` | src/index.js:53 | as written, readState on an empty collection returns status `undefined`, unlike the corrected read |
| `Checkpoint.ReadAgreesExceptStatus` | src/index.js:52-56 | the correction changes only the status default: same keys, same values elsewhere, identical when a status is stored |
| `Queues.Routes` | src/index.js:127-129 | a message is forwarded if and only if a valid cut-line exists and is strictly after the message time; a message stamped at the cut-line is discarded |
| `Queues.Forwarded` | src/index.js:122-140 | a pass never forwards more messages than it drains |
| `Queues.RepublishedAll` | src/index.js:130 | republishing gives one message per input, in order, each with the same content and no timestamp property |
| `Queues.StagedSpec` | src/index.js:94-103 | staging appends the records in input order, each with its content and the one shared stamp; it stops only at the end or at the first falsy record; with no falsy record every record is staged |
| `Queues.ForwardedSplit` | src/index.js:122-140 | a pass interrupted after some messages and resumed with the same cut-line forwards the same messages in the same order as one whole pass |
| `Queues.ForwardedMembers` | src/index.js:129-132 | a message reaches `records` if and only if some drained message passed the routing rule and carries its content |
| `Queues.NoneRoutedForwardsNothing` | src/index.js:134-136 | when no drained message passes the routing rule, the pass forwards nothing |
| `Queues.AllRoutedForwardsAll` | src/index.js:129-132 | when every drained message passes the routing rule, all are forwarded with their content, in order |
| `Queues.NoCutLineForwardsNothing` | src/index.js:127-136 | with no cut-line (or an invalid one) every message is discarded and `records` gets nothing |
| `Queues.BatchForwardedIffBeforeCut` | src/index.js:72-86 | the records staged by one writeState share one stamp, so a pass forwards the whole batch when the stamp is before the cut-line and none of it otherwise |
| `HarvestCommons.Commons.constructor` | src/index.js:41-44 | the factory attaches to the broker and store in whatever state they are in: any backlog on either queue, any consistent stored document or none |
| `HarvestCommons.Commons.SendMessage` | src/index.js:142-148 | a publish appends the message to the named queue and changes nothing else |
| `HarvestCommons.Commons.Get` | src/index.js:123 | `get` returns nothing exactly when `records-temp` is empty, and its head message otherwise |
| `HarvestCommons.Commons.Ack` | src/index.js:131 | an ack removes the head message of `records-temp` and changes nothing else |
| `HarvestCommons.Commons.ReadState` | src/index.js:46-56 | readState returns the corrected read of the current state document |
| `HarvestCommons.Commons.HandleTemporaryRecords` | src/index.js:122-140 | after a pass `records-temp` is empty; `records` is its old contents followed by exactly the forwarded messages, in order; `forwardedMessageCount` is the number forwarded; the two counts add up to the number drained; the store and clock are untouched |
| `HarvestCommons.Commons.QueueRecords` | src/index.js:94-104 | `records-temp` becomes its old contents followed by the staged records, and nothing else changes |
| `HarvestCommons.Commons.WriteState` | src/index.js:65-105 | stage with the start time, then commit at a time no earlier; a store refusal leaves the staged records and the old document; a commit stores the `$set` upsert stamped with the commit time and, when records were given, drains `records-temp` against that time; checkpoint times never go backwards |
| `HarvestCommons.Commons.HandleQueues` | src/index.js:107-120 | the recovery pass drains `records-temp` against the stored timestamp with the reconciler's effect on both queues, leaves the store as it was, and returns nothing (its counts are only logged) |
| `HarvestCommons.HandleQueuesTwice` | src/index.js:107-120 | running handleQueues twice leaves both queues, the store and the clock exactly as one run does |
| `HarvestCommons.EmptyPass` | src/index.js:110-116 | the pass handleQueues runs over an empty `records-temp` logs zero forwarded and zero discarded messages and changes nothing |
| `HarvestCommons.FirstCommit` | src/index.js:65-105 | a first writeState into empty queues forwards the whole batch, with its content and in order, when the commit time is strictly after the stage time, and forwards none of it when both fall in the same millisecond |

## Findings

| source | as written | input that shows it | evidently intended | confidence | as-written member | corrected member |
|---|---|---|---|---|---|---|
| src/index.js:53 | `status: statuses.pendingHarvest`, a key the enum (lines 34-39) does not have, so the default status is `undefined` | readState with no state document, or with one that has no `status` field | default to `statuses.harvestPending`, so an unset status reads as `harvestPending` | high; not executed | `Checkpoint.ReadAsWrittenHasNoStatus` | `Checkpoint.ReadDefaultsToPending` |

The as-written read is `Checkpoint.ReadAsWritten`; the corrected one is `Checkpoint.Read`, which the rest of the model uses. `handleQueues`
reads only the `timestamp` field, which the correction does not change
(`Checkpoint.ReadAgreesExceptStatus`).

## Left out

- Connection plumbing is not modelled: `getMongoClient`, `amqpConnect`, `createConfirmChannel`, `assertQueue` and `close`. Both queues are taken to exist. `totalMessageCount` only feeds debug output.
- Broker and store I/O failures are not modelled: connection errors, publish rejections from the confirm callback, ack failures. The only failure modelled is the store refusing to change an existing document's `_id`. Resources left open on a failure path are not modelled either.
- Concurrency is not modelled: concurrent callers, and messages arriving on `records-temp` during a pass. Time does not advance during a pass or during the store write.
- A crash mid-pass is not modelled as a state. `Queues.ForwardedSplit` covers only a pass stopped between two messages and resumed with the same cut-line. A crash after the publish to `records` (src/index.js:130) and before the ack (src/index.js:131) leaves the message on `records-temp`; the resumed pass then forwards it a second time. The model does not capture that duplicate.
- Statuses.Member: property lookups that JavaScript resolves through `Object.prototype` (`statuses['toString']`, `statuses['constructor']`) are not modelled; every key outside the four statuses reads as `undefined`.
- `record.toObject()`, `JSON.stringify` and `Buffer` are not modelled. A record is given as its serialised content.
- `moment` parsing is not modelled. A stored `timestamp` that is a non-empty string or an object becomes an invalid moment, which is after nothing. Real `moment` would parse an ISO string into a valid moment. Numbers and booleans are not modelled as field values.
- BSON serialisation of non-plain values, such as a moment inside `state`, is not modelled. The field order of documents and the store's key validation (`$`-prefixed or dotted keys) are not modelled.
- Debug logging and the commented-out `getRecords` block (src/index.js:150-186) are left out.
- The relational store backend is not part of this model: it is not in `src/index.js`.
