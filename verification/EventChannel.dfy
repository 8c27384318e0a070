/** internal/events/broker.go: one subscriber's channel, and what it may rely on. */
module EventChannel {
  import opened Wrappers

  const SUBSCRIBER_BUFFER_SIZE := 64

  type Event = string

  // ----- one channel -----

  /** A buffered channel with its history: what was published while it was subscribed, what was
      taken out of it, and whether a publish ever found it full. */
  datatype View = View(buffer: seq<Event>, closed: bool, published: seq<Event>, received: seq<Event>, wasFull: bool)

  const FRESH := View([], false, [], [], false)

  datatype ChannelOp = Send(event: Event) | Receive | Close

  /** A send that would block is dropped; a receive from an empty channel gets nothing; sending
      on a closed channel or closing it again is a panic in Go, represented by None. */
  function Apply(v: View, op: ChannelOp): Option<View> {
    match op
    case Send(event) =>
      if v.closed then None
      else if |v.buffer| < SUBSCRIBER_BUFFER_SIZE then
        Some(v.(buffer := v.buffer + [event], published := v.published + [event]))
      else Some(v.(published := v.published + [event], wasFull := true))
    case Receive =>
      if v.buffer == [] then Some(v)
      else Some(v.(buffer := v.buffer[1..], received := v.received + [v.buffer[0]]))
    case Close => if v.closed then None else Some(v.(closed := true))
  }

  function Run(ops: seq<ChannelOp>): Option<View> {
    if ops == [] then Some(FRESH)
    else match Run(ops[..|ops| - 1])
         case None => None
         case Some(v) => Apply(v, ops[|ops| - 1])
  }

  predicate Subsequence(a: seq<Event>, b: seq<Event>) {
    if a == [] then true
    else if b == [] then false
    else
      var (m, n) := (|a| - 1, |b| - 1);
      (a[m] == b[n] && Subsequence(a[..m], b[..n])) || Subsequence(a, b[..n])
  }

  predicate Faithful(v: View) {
    && |v.buffer| <= SUBSCRIBER_BUFFER_SIZE
    && Subsequence(v.received + v.buffer, v.published)
    && (!v.wasFull ==> v.received + v.buffer == v.published)
  }

  lemma SubsequenceAppend(a: seq<Event>, b: seq<Event>, e: Event)
    requires Subsequence(a, b)
    ensures Subsequence(a, b + [e])
    ensures Subsequence(a + [e], b + [e])
  {
    assert (b + [e])[..|b|] == b;
    assert (a + [e])[..|a|] == a;
  }

  lemma SendKeepsFaithful(v: View, event: Event)
    requires Faithful(v) && !v.closed
    ensures Faithful(Apply(v, Send(event)).value)
  {
    SubsequenceAppend(v.received + v.buffer, v.published, event);
    assert v.received + (v.buffer + [event]) == v.received + v.buffer + [event];
  }

  lemma ReceiveKeepsFaithful(v: View)
    requires Faithful(v)
    ensures Faithful(Apply(v, Receive).value)
  {
    if v.buffer != [] {
      assert v.received + [v.buffer[0]] + v.buffer[1..] == v.received + v.buffer;
    }
  }

  lemma ApplyKeepsFaithful(v: View, op: ChannelOp)
    requires Faithful(v) && Apply(v, op).Some?
    ensures Faithful(Apply(v, op).value)
  {
    match op {
      case Send(event) => SendKeepsFaithful(v, event);
      case Receive => ReceiveKeepsFaithful(v);
      case Close =>
    }
  }

  /** After any sequence of sends, receives and closes: what was received followed by what is
      buffered is a subsequence of what was published, in order and without duplication, and all
      of it if no publish found the buffer full. */
  lemma {:induction false} DeliveryIsFaithful(ops: seq<ChannelOp>)
    ensures Run(ops).Some? ==> Faithful(Run(ops).value)
  {
    if ops != [] {
      var front := ops[..|ops| - 1];
      DeliveryIsFaithful(front);
      if Run(ops).Some? {
        ApplyKeepsFaithful(Run(front).value, ops[|ops| - 1]);
      }
    }
  }

  lemma RunSnoc(ops: seq<ChannelOp>, op: ChannelOp)
    requires Run(ops).Some?
    ensures Run(ops + [op]) == Apply(Run(ops).value, op)
  {
    assert (ops + [op])[..|ops|] == ops;
  }

  /** Some send of the run came when exactly 64 events were buffered. */
  ghost predicate MetFullBuffer(ops: seq<ChannelOp>) {
    exists i :: 0 <= i < |ops| && ops[i].Send? && FullAt(ops, i)
  }

  predicate FullAt(ops: seq<ChannelOp>, i: nat)
    requires i <= |ops|
  {
    Run(ops[..i]).Some? && |Run(ops[..i]).value.buffer| == 64
  }

  lemma MetFullLast(ops: seq<ChannelOp>)
    requires ops != []
    ensures var n := |ops| - 1; MetFullBuffer(ops) <==> MetFullBuffer(ops[..n]) || (ops[n].Send? && FullAt(ops, n))
  {
    var n := |ops| - 1;
    if MetFullBuffer(ops) {
      var i :| 0 <= i < |ops| && ops[i].Send? && FullAt(ops, i);
      if i < n {
        assert ops[..n][..i] == ops[..i] && ops[..n][i] == ops[i];
        assert FullAt(ops[..n], i);
      }
    }
    if MetFullBuffer(ops[..n]) {
      var i :| 0 <= i < n && ops[..n][i].Send? && FullAt(ops[..n], i);
      assert ops[..n][..i] == ops[..i];
      assert FullAt(ops, i);
    }
  }

  /** Nothing is dropped without a full buffer. */
  lemma {:induction false} DropsMeanFull(ops: seq<ChannelOp>)
    requires Run(ops).Some?
    ensures Run(ops).value.wasFull <==> MetFullBuffer(ops)
    ensures |Run(ops).value.buffer| <= 64
  {
    if ops != [] {
      var n := |ops| - 1;
      DropsMeanFull(ops[..n]);
      var v := Run(ops[..n]).value;
      MetFullLast(ops);
    }
  }

  function Sends(ops: seq<ChannelOp>): seq<Event> {
    if ops == [] then []
    else Sends(ops[..|ops| - 1]) + match ops[|ops| - 1] case Send(event) => [event] case _ => []
  }

  function Receipts(ops: seq<ChannelOp>): nat {
    if ops == [] then 0
    else Receipts(ops[..|ops| - 1]) + if ops[|ops| - 1].Receive? then 1 else 0
  }

  /** What was published is what was sent, in order. */
  lemma {:induction false} PublishedIsSent(ops: seq<ChannelOp>)
    requires Run(ops).Some?
    ensures Run(ops).value.published == Sends(ops)
    ensures |Run(ops).value.received| <= Receipts(ops)
  {
    if ops != [] {
      PublishedIsSent(ops[..|ops| - 1]);
    }
  }

  /** A reader that keeps fewer than 64 events behind at every send misses nothing. */
  ghost predicate KeepsUp(ops: seq<ChannelOp>) {
    forall i | 0 <= i < |ops| && ops[i].Send? :: BehindAt(ops, i) < 64
  }

  /** How many of the events sent before step `i` had not been received by then. */
  function BehindAt(ops: seq<ChannelOp>, i: nat): int
    requires i <= |ops|
  {
    match Run(ops[..i])
    case Some(v) => |Sends(ops[..i])| - |v.received|
    case None => 0
  }

  lemma {:induction false} KeepingUpMissesNothing(ops: seq<ChannelOp>)
    requires Run(ops).Some? && KeepsUp(ops)
    ensures var v := Run(ops).value; !v.wasFull && v.received + v.buffer == Sends(ops)
  {
    if ops != [] {
      var n := |ops| - 1;
      forall i | 0 <= i < n && ops[..n][i].Send? ensures BehindAt(ops[..n], i) < 64 {
        assert ops[..n][..i] == ops[..i] && ops[i].Send?;
        assert BehindAt(ops, i) < 64;
      }
      KeepingUpMissesNothing(ops[..n]);
      var v := Run(ops[..n]).value;
      if ops[n].Send? {
        assert BehindAt(ops, n) == |Sends(ops[..n])| - |v.received| == |v.buffer|;
      }
      assert v.buffer != [] ==> v.received + [v.buffer[0]] + v.buffer[1..] == v.received + v.buffer;
      assert forall e :: v.received + (v.buffer + [e]) == v.received + v.buffer + [e];
    }
  }

  class Channel {
    var buffer: seq<Event>
    var closed: bool
    ghost var published: seq<Event>
    ghost var received: seq<Event>
    ghost var wasFull: bool

    ghost function State(): View
      reads this
    {
      View(buffer, closed, published, received, wasFull)
    }

    constructor ()
      ensures State() == FRESH
    {
      buffer, closed := [], false;
      published, received, wasFull := [], [], false;
    }

    /** The non-blocking send of Publish's select statement. */
    method TrySend(event: Event)
      requires !closed
      modifies this
      ensures Apply(old(State()), Send(event)) == Some(State())
      ensures buffer == old(buffer) + if |old(buffer)| < 64 then [event] else []
      ensures received == old(received) && published == old(published) + [event] && !closed
      ensures Faithful(old(State())) ==> Faithful(State())
    {
      if Faithful(State()) { SendKeepsFaithful(State(), event); }
      published := published + [event];
      if |buffer| < SUBSCRIBER_BUFFER_SIZE {
        buffer := buffer + [event];
      } else {
        wasFull := true;
      }
    }

    method TryReceive() returns (event: Option<Event>)
      modifies this
      ensures Apply(old(State()), Receive) == Some(State())
      ensures event == if old(buffer) == [] then None else Some(old(buffer)[0])
      ensures old(buffer) == (if event.Some? then [event.value] else []) + buffer
      ensures received == old(received) + if event.Some? then [event.value] else []
      ensures published == old(published)
    {
      if buffer == [] {
        return None;
      }
      event := Some(buffer[0]);
      received := received + [buffer[0]];
      buffer := buffer[1..];
    }

    method CloseOnce()
      requires !closed
      modifies this
      ensures Apply(old(State()), Close) == Some(State())
      ensures closed && buffer == old(buffer) && received == old(received) && published == old(published)
    {
      closed := true;
    }
  }
}
