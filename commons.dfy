/** The state-gated queue commit protocol: stage records on `records-temp`,
    commit the checkpoint, then drain `records-temp`, forwarding to `records`
    only what the committed checkpoint covers. The broker's two queues, the
    state document and the clock are the fields of one object. */
module HarvestCommons {
  import opened Values
  import opened Queues
  import Checkpoint

  /** The result of one reconciliation pass. */
  datatype Tally = Tally(discardedMessageCount: nat, forwardedMessageCount: nat)

  /** How writeState ends: committed, or refused by the store (before any reconciliation). */
  datatype Outcome = Committed | StoreError

  class Commons {
    var temp: seq<Message>             // the `records-temp` queue, head first
    var ready: seq<Message>            // the `records` queue
    var store: Option<Checkpoint.Doc>  // the single document of the `state` collection
    var clock: nat                     // what `moment()` reads, in milliseconds

    ghost predicate Valid()
      reads this
    {
      Checkpoint.Consistent(store, clock)
    }

    /** Attach to a broker and a store in whatever state they are in: a
        backlog on either queue, a stored document or none. */
    constructor (temp0: seq<Message>, ready0: seq<Message>, store0: Option<Checkpoint.Doc>, now: nat)
      requires Checkpoint.Consistent(store0, now)
      ensures Valid()
      ensures temp == temp0 && ready == ready0 && store == store0 && clock == now
    {
      temp, ready, store, clock := temp0, ready0, store0, now;
    }

    /** sendMessage: a confirmed, persistent publish appends to the named queue. */
    method SendMessage(queue: Queue, m: Message)
      modifies this
      ensures queue == Records ==> ready == old(ready) + [m] && temp == old(temp)
      ensures queue == RecordsTemp ==> temp == old(temp) + [m] && ready == old(ready)
      ensures store == old(store) && clock == old(clock)
    {
      match queue
      case Records => ready := ready + [m];
      case RecordsTemp => temp := temp + [m];
    }

    /** `channel.get('records-temp')`: the head message, or nothing when the queue is empty. */
    method Get() returns (m: Option<Message>)
      ensures m.None? <==> temp == []
      ensures m.Some? ==> temp != [] && m.value == temp[0]
    {
      m := if temp == [] then None else Some(temp[0]);
    }

    /** `channel.ack(message)` for the head message: it leaves the queue. */
    method Ack()
      requires temp != []
      modifies this
      ensures temp == old(temp)[1..]
      ensures ready == old(ready) && store == old(store) && clock == old(clock)
    {
      temp := temp[1..];
    }

    /** readState, on the current state document. */
    method ReadState() returns (state: Checkpoint.Doc)
      ensures state == Checkpoint.Read(store)
    {
      state := Checkpoint.Read(store);
    }

    /** handleTemporaryRecords: drain `records-temp` one message at a time,
        forwarding a message to `records` when the cut-line is strictly after
        its timestamp and discarding it otherwise; every message is acked. */
    method HandleTemporaryRecords(timestamp: Value) returns (tally: Tally)
      requires IsCutLine(timestamp)
      modifies this
      ensures temp == []
      ensures ready == old(ready) + Forwarded(timestamp, old(temp), clock)
      ensures tally.forwardedMessageCount == |Forwarded(timestamp, old(temp), clock)|
      ensures tally.forwardedMessageCount + tally.discardedMessageCount == |old(temp)|
      ensures store == old(store) && clock == old(clock)
    {
      var forwarded, discarded := 0, 0;
      var message := Get();
      while message.Some?
        invariant message.None? <==> temp == []
        invariant message.Some? ==> temp != [] && message.value == temp[0]
        invariant old(ready) + Forwarded(timestamp, old(temp), clock) == ready + Forwarded(timestamp, temp, clock)
        invariant forwarded + |Forwarded(timestamp, temp, clock)| == |Forwarded(timestamp, old(temp), clock)|
        invariant forwarded + discarded + |temp| == |old(temp)|
        invariant store == old(store) && clock == old(clock)
        decreases |temp|
      {
        var m := message.value;
        if Routes(timestamp, m, clock) {
          SendMessage(Records, Republished(m));
          Ack();
          forwarded := forwarded + 1;
        } else {
          Ack();
          discarded := discarded + 1;
        }
        message := Get();
      }
      tally := Tally(discarded, forwarded);
    }

    /** queueRecords: send each record to `records-temp` in order, all with the
        one stage timestamp, until the records run out or one is falsy. */
    method QueueRecords(records: seq<Record>, timestamp: nat)
      modifies this
      ensures temp == old(temp) + Staged(records, timestamp)
      ensures ready == old(ready) && store == old(store) && clock == old(clock)
    {
      var rest := records;
      while rest != [] && rest[0].Record?
        invariant old(temp) + Staged(records, timestamp) == temp + Staged(rest, timestamp)
        invariant ready == old(ready) && store == old(store) && clock == old(clock)
        decreases |rest|
      {
        SendMessage(RecordsTemp, Message(rest[0].content, Some(timestamp)));
        rest := rest[1..];
      }
    }

    /** writeState: stage the records with the time at the start of the call,
        let `elapsed` milliseconds pass while staging, `$set`-upsert the state
        with the commit time, and reconcile with the commit time as cut-line
        when records were given. A store refusal ends the call after staging. */
    method WriteState(state: Checkpoint.Doc, records: seq<Record>, elapsed: nat, newId: nat) returns (outcome: Outcome)
      requires Valid()
      modifies this
      ensures Valid()
      ensures clock == old(clock) + elapsed
      ensures outcome == StoreError <==> Checkpoint.Upsert(old(store), Checkpoint.CommitFields(state, clock), newId).None?
      ensures outcome == StoreError ==>
        temp == old(temp) + Staged(records, old(clock)) && ready == old(ready) && store == old(store)
      ensures outcome == Committed ==>
        store == Checkpoint.Upsert(old(store), Checkpoint.CommitFields(state, clock), newId)
      ensures outcome == Committed && |records| > 0 ==>
        temp == [] && ready == old(ready) + Forwarded(Moment(Some(clock)), old(temp) + Staged(records, old(clock)), clock)
      ensures outcome == Committed && |records| == 0 ==>
        temp == old(temp) && ready == old(ready)
      ensures outcome == Committed ==> Checkpoint.CommittedAt(store) == Some(clock)
      ensures old(Checkpoint.CommittedAt(store)).Some? ==> old(Checkpoint.CommittedAt(store)).value <= clock
    {
      var stageTime := clock;
      QueueRecords(records, stageTime);
      clock := clock + elapsed;
      var timestamp := clock;
      var written := Checkpoint.Upsert(store, Checkpoint.CommitFields(state, timestamp), newId);
      if written.None? {
        return StoreError;
      }
      Checkpoint.CommitIsConsistent(store, state, stageTime, timestamp, newId);
      store := written;
      if |records| > 0 {
        var tally := HandleTemporaryRecords(Moment(Some(timestamp)));
      }
      return Committed;
    }

    /** handleQueues: the crash-recovery entry point; reconcile `records-temp`
        against whatever checkpoint is currently stored. The pass's counts are
        only logged, so nothing is returned. */
    method HandleQueues()
      requires Valid()
      modifies this
      ensures Valid()
      ensures temp == []
      ensures ready == old(ready) + Forwarded(Checkpoint.Read(old(store))["timestamp"], old(temp), clock)
      ensures store == old(store) && clock == old(clock)
    {
      var state := ReadState();
      var tally := HandleTemporaryRecords(state["timestamp"]);
    }
  }

  /** Running handleQueues again after a pass is a no-op: two passes leave
      both queues and the store exactly as one pass does. */
  method HandleQueuesTwice(c: Commons)
    requires c.Valid()
    modifies c
    ensures c.Valid()
    ensures c.temp == [] && c.ready == old(c.ready) + Forwarded(Checkpoint.Read(old(c.store))["timestamp"], old(c.temp), c.clock)
    ensures c.store == old(c.store) && c.clock == old(c.clock)
  {
    c.HandleQueues();
    c.HandleQueues();
  }

  /** The pass handleQueues runs, over an empty `records-temp` (as after an
      earlier pass): both of the counts it logs are zero and nothing changes. */
  method EmptyPass(c: Commons) returns (tally: Tally)
    requires c.Valid() && c.temp == []
    modifies c
    ensures tally == Tally(0, 0)
    ensures c.temp == [] && c.ready == old(c.ready) && c.store == old(c.store) && c.clock == old(c.clock)
  {
    var state := c.ReadState();
    tally := c.HandleTemporaryRecords(state["timestamp"]);
  }

  /** A writeState with a fresh batch, into empty queues, with no stored
      checkpoint: the whole batch reaches `records` when the commit time is
      strictly after the stage time, and none of it otherwise. */
  method FirstCommit(c: Commons, state: Checkpoint.Doc, records: seq<Record>, elapsed: nat, newId: nat) returns (outcome: Outcome)
    requires c.Valid() && c.temp == [] && c.ready == [] && c.store == None
    requires forall i :: 0 <= i < |records| ==> records[i].Record?
    modifies c
    ensures outcome == Committed
    ensures c.temp == []
    ensures |c.ready| == if elapsed > 0 then |records| else 0
    ensures elapsed > 0 ==> forall i :: 0 <= i < |records| ==> c.ready[i] == Message(records[i].content, None)
  {
    var stamp := c.clock;
    outcome := c.WriteState(state, records, elapsed, newId);
    StagedSpec(records, stamp);
    assert [] + Staged(records, stamp) == Staged(records, stamp);
    BatchForwardedIffBeforeCut(c.clock, records, stamp, c.clock);
  }
}
