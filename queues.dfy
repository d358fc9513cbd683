/** The two broker queues and what a reconciliation pass and a staging run do
    to them, as functions of the queue contents: the routing rule, the
    messages a pass forwards, and the messages a staging run appends. */
module Queues {
  import opened Values

  /** The serialised record a message carries (its JSON text). */
  type Content = string

  /** An element of the records array handed to writeState; `Missing` is a
      falsy element, which ends staging. */
  datatype Record = Missing | Record(content: Content)

  /** A broker message: its content and its `timestamp` property, if it has one. */
  datatype Message = Message(content: Content, timestamp: Option<nat>)

  /** `records` is the ready queue, `records-temp` the staging queue. */
  datatype Queue = Records | RecordsTemp

  /** `moment(message.properties.timestamp)`: a message without a timestamp
      is read as the current time. */
  function MessageTime(m: Message, now: nat): nat {
    match m.timestamp
    case Some(t) => t
    case None => now
  }

  /** The message sent to `records` for a forwarded one: same content, no timestamp. */
  function Republished(m: Message): Message {
    Message(m.content, None)
  }

  /** The routing rule `timestamp && timestamp.isAfter(messageTimestamp)`:
      forward exactly when there is a cut-line strictly after the message.
      A message stamped at the cut-line itself is discarded. */
  function Routes(ts: Value, m: Message, now: nat): (r: bool)
    requires IsCutLine(ts)
    ensures r <==> CutLine(ts).Some? && MessageTime(m, now) < CutLine(ts).value
    ensures CutLine(ts) == Some(MessageTime(m, now)) ==> !r
  {
    Truthy(ts) && IsAfter(ts, MessageTime(m, now))
  }

  /** The messages one pass over `msgs` sends to `records`, in drain order. */
  function Forwarded(ts: Value, msgs: seq<Message>, now: nat): (r: seq<Message>)
    requires IsCutLine(ts)
    ensures |r| <= |msgs|
    decreases |msgs|
  {
    if msgs == [] then []
    else (if Routes(ts, msgs[0], now) then [Republished(msgs[0])] else []) + Forwarded(ts, msgs[1..], now)
  }

  /** Every message of `msgs` as republished to `records`: one for one, in
      order, with the same content and no timestamp property. */
  function RepublishedAll(msgs: seq<Message>): (r: seq<Message>)
    ensures |r| == |msgs|
    ensures forall i :: 0 <= i < |msgs| ==> r[i].content == msgs[i].content && r[i].timestamp.None?
  {
    seq(|msgs|, i requires 0 <= i < |msgs| => Republished(msgs[i]))
  }

  /** The messages queueRecords sends to `records-temp`: each record in
      order, all with the one stage timestamp, up to the first falsy element. */
  function Staged(records: seq<Record>, stamp: nat): seq<Message>
    decreases |records|
  {
    if records == [] || records[0].Missing? then []
    else [Message(records[0].content, Some(stamp))] + Staged(records[1..], stamp)
  }

  /** Staging appends a prefix of the records, each record's content with the
      shared stamp, and stops only at the end or at a falsy element. */
  lemma {:induction false} StagedSpec(records: seq<Record>, stamp: nat)
    ensures |Staged(records, stamp)| <= |records|
    ensures forall i :: 0 <= i < |Staged(records, stamp)| ==>
      records[i].Record? && Staged(records, stamp)[i] == Message(records[i].content, Some(stamp))
    ensures |Staged(records, stamp)| < |records| ==> records[|Staged(records, stamp)|].Missing?
    ensures (forall i :: 0 <= i < |records| ==> records[i].Record?) ==> |Staged(records, stamp)| == |records|
  {
    if records != [] && records[0].Record? {
      StagedSpec(records[1..], stamp);
      var s := Staged(records, stamp);
      var t := Staged(records[1..], stamp);
      assert s == [Message(records[0].content, Some(stamp))] + t;
      forall i | 0 <= i < |s|
        ensures records[i].Record? && s[i] == Message(records[i].content, Some(stamp))
      {
        if i > 0 {
          assert s[i] == t[i - 1] && records[1..][i - 1] == records[i];
        }
      }
      if |s| < |records| {
        assert records[1..][|t|] == records[|s|];
      }
    }
  }

  /** A pass interrupted after the messages `a` and resumed over `b` with the
      same cut-line forwards what one uninterrupted pass over `a + b` does. */
  lemma {:induction false} ForwardedSplit(ts: Value, a: seq<Message>, b: seq<Message>, now: nat)
    requires IsCutLine(ts)
    ensures Forwarded(ts, a + b, now) == Forwarded(ts, a, now) + Forwarded(ts, b, now)
    decreases |a|
  {
    if a == [] {
      assert a + b == b;
    } else {
      var head := if Routes(ts, a[0], now) then [Republished(a[0])] else [];
      assert (a + b)[0] == a[0];
      assert (a + b)[1..] == a[1..] + b;
      ForwardedSplit(ts, a[1..], b, now);
      calc {
        Forwarded(ts, a + b, now);
        head + Forwarded(ts, a[1..] + b, now);
        head + (Forwarded(ts, a[1..], now) + Forwarded(ts, b, now));
        (head + Forwarded(ts, a[1..], now)) + Forwarded(ts, b, now);
        Forwarded(ts, a, now) + Forwarded(ts, b, now);
      }
    }
  }

  /** A message reaches `records` exactly when some drained message passes the
      routing rule and carries its content. */
  lemma {:induction false} ForwardedMembers(ts: Value, msgs: seq<Message>, now: nat, x: Message)
    requires IsCutLine(ts)
    ensures x in Forwarded(ts, msgs, now) <==>
      exists i :: 0 <= i < |msgs| && Routes(ts, msgs[i], now) && x == Republished(msgs[i])
    decreases |msgs|
  {
    if msgs != [] {
      var tail := msgs[1..];
      ForwardedMembers(ts, tail, now, x);
      if x in Forwarded(ts, tail, now) {
        var j :| 0 <= j < |tail| && Routes(ts, tail[j], now) && x == Republished(tail[j]);
        assert tail[j] == msgs[j + 1];
      }
      if exists i :: 0 <= i < |msgs| && Routes(ts, msgs[i], now) && x == Republished(msgs[i]) {
        var i :| 0 <= i < |msgs| && Routes(ts, msgs[i], now) && x == Republished(msgs[i]);
        if i > 0 {
          assert tail[i - 1] == msgs[i];
        }
      }
    }
  }

  /** When no drained message passes the routing rule, nothing is forwarded. */
  lemma {:induction false} NoneRoutedForwardsNothing(ts: Value, msgs: seq<Message>, now: nat)
    requires IsCutLine(ts)
    requires forall i :: 0 <= i < |msgs| ==> !Routes(ts, msgs[i], now)
    ensures Forwarded(ts, msgs, now) == []
    decreases |msgs|
  {
    if msgs != [] {
      assert forall i :: 0 <= i < |msgs[1..]| ==> msgs[1..][i] == msgs[i + 1];
      NoneRoutedForwardsNothing(ts, msgs[1..], now);
    }
  }

  /** When every drained message passes the routing rule, all are forwarded, in order. */
  lemma {:induction false} AllRoutedForwardsAll(ts: Value, msgs: seq<Message>, now: nat)
    requires IsCutLine(ts)
    requires forall i :: 0 <= i < |msgs| ==> Routes(ts, msgs[i], now)
    ensures Forwarded(ts, msgs, now) == RepublishedAll(msgs)
    decreases |msgs|
  {
    if msgs != [] {
      assert forall i :: 0 <= i < |msgs[1..]| ==> msgs[1..][i] == msgs[i + 1];
      AllRoutedForwardsAll(ts, msgs[1..], now);
      assert RepublishedAll(msgs) == [Republished(msgs[0])] + RepublishedAll(msgs[1..]);
    }
  }

  /** No cut-line (no stored checkpoint, no timestamp in it, or an invalid
      one): a pass forwards nothing and discards every message. */
  lemma {:induction false} NoCutLineForwardsNothing(ts: Value, msgs: seq<Message>, now: nat)
    requires IsCutLine(ts) && CutLine(ts).None?
    ensures Forwarded(ts, msgs, now) == []
  {
    NoneRoutedForwardsNothing(ts, msgs, now);
  }

  /** The records one writeState call stages share one stamp, so a pass with
      cut-line `cut` forwards all of them when the stamp is before the cut,
      and none of them otherwise. */
  lemma {:induction false} BatchForwardedIffBeforeCut(cut: nat, records: seq<Record>, stamp: nat, now: nat)
    ensures Forwarded(Moment(Some(cut)), Staged(records, stamp), now) ==
      if stamp < cut then RepublishedAll(Staged(records, stamp)) else []
  {
    var ts, msgs := Moment(Some(cut)), Staged(records, stamp);
    StagedSpec(records, stamp);
    assert forall i :: 0 <= i < |msgs| ==> MessageTime(msgs[i], now) == stamp;
    if stamp < cut {
      AllRoutedForwardsAll(ts, msgs, now);
    } else {
      NoneRoutedForwardsNothing(ts, msgs, now);
    }
  }
}
