/** internal/events/broker.go: the in-process event hub. Publishing takes the lock shared, so publishes
    overlap and each visits the channels in its own order; subscribing and unsubscribing take it alone. */
module EventBroker {
  import opened EventChannel
  import opened Ordering
  import opened Wrappers

  /** Every channel ever made, by subscriber id; the ids registered; every event published, in the order
      in which the publishes began, with the publishes that were then in progress; those in progress now,
      each with the ids it has visited; and for each channel when it joined, which publishes it was
      offered, in order, and all that was done to it. */
  datatype State = State(channels: map<nat, View>, registered: set<nat>, nextId: nat,
                         log: seq<Event>, meanwhile: seq<set<nat>>, publishes: map<nat, set<nat>>,
                         joined: map<nat, nat>, offers: map<nat, seq<nat>>,
                         traces: map<nat, seq<ChannelOp>>)

  const NO_SUBSCRIBERS := State(map[], {}, 0, [], [], map[], map[], map[], map[])

  /** A publish is known by its position in the log. */
  datatype Action =
    | Subscribe
    | Unsubscribe(id: nat)
    | Begin(event: Event)
    | Offer(call: nat, id: nat)
    | End(call: nat)
    | Take(id: nat)

  /** `Panic` is Go's panic on a send to, or a second close of, a closed channel. */
  datatype Outcome = Impossible | Panic | Next(state: State)

  function Traced(s: State, id: nat, op: ChannelOp): map<nat, seq<ChannelOp>> {
    s.traces[id := (if id in s.traces then s.traces[id] else []) + [op]]
  }

  function Step(s: State, a: Action): Outcome {
    match a
    case Subscribe =>
      if s.publishes != map[] then Impossible
      else
        var id := s.nextId;
        Next(s.(channels := s.channels[id := FRESH], registered := s.registered + {id}, nextId := id + 1,
                joined := s.joined[id := |s.log|], offers := s.offers[id := []], traces := s.traces[id := []]))
    case Unsubscribe(id) =>
      if s.publishes != map[] || id !in s.channels then Impossible
      else if id !in s.registered then Next(s)
      else
        (match Apply(s.channels[id], Close)
         case None => Panic
         case Some(v) => Next(s.(channels := s.channels[id := v], registered := s.registered - {id},
                                 traces := Traced(s, id, Close))))
    case Begin(event) =>
      Next(s.(log := s.log + [event], meanwhile := s.meanwhile + [s.publishes.Keys],
              publishes := s.publishes[|s.log| := {}]))
    case Offer(call, id) =>
      if call !in s.publishes || call >= |s.log| || id !in s.registered || id in s.publishes[call]
         || id !in s.channels || id !in s.offers then Impossible
      else
        (match Apply(s.channels[id], Send(s.log[call]))
         case None => Panic
         case Some(v) => Next(s.(channels := s.channels[id := v], offers := s.offers[id := s.offers[id] + [call]],
                                 publishes := s.publishes[call := s.publishes[call] + {id}],
                                 traces := Traced(s, id, Send(s.log[call])))))
    case End(call) =>
      if call !in s.publishes || s.publishes[call] != s.registered then Impossible
      else Next(s.(publishes := s.publishes - {call}))
    case Take(id) =>
      if id !in s.channels then Impossible
      else
        (match Apply(s.channels[id], Receive)
         case None => Panic
         case Some(v) => Next(s.(channels := s.channels[id := v], traces := Traced(s, id, Receive))))
  }

  function Run(actions: seq<Action>): Outcome {
    if actions == [] then Next(NO_SUBSCRIBERS)
    else match Run(actions[..|actions| - 1])
         case Next(s) => Step(s, actions[|actions| - 1])
         case other => other
  }

  // ----- what every step keeps -----

  /** The events of these publishes. */
  function Events(log: seq<Event>, calls: seq<nat>): (r: seq<Event>)
    requires forall i | 0 <= i < |calls| :: calls[i] < |log|
    ensures |r| == |calls| && forall i | 0 <= i < |r| :: r[i] == log[calls[i]]
  {
    seq(|calls|, i requires 0 <= i < |calls| => log[calls[i]])
  }

  /** Of two publishes offered in the order opposite to that in which they began, the earlier one was
      still in progress when the later one began. */
  ghost predicate InOrder(calls: seq<nat>, meanwhile: seq<set<nat>>)
    requires forall i | 0 <= i < |calls| :: calls[i] < |meanwhile|
  {
    forall i, j | 0 <= i < j < |calls| :: calls[i] < calls[j] || calls[j] in meanwhile[calls[i]]
  }

  /** A channel was offered each publish since it joined at most once, and what it passed on of them. */
  ghost predicate Offered(s: State, id: nat)
    requires |s.meanwhile| == |s.log|
  {
    && id in s.channels && id in s.offers && id in s.joined && id < s.nextId
    && s.joined[id] <= |s.log|
    && (forall i | 0 <= i < |s.offers[id]| :: s.joined[id] <= s.offers[id][i] < |s.log|)
    && (forall i, j | 0 <= i < j < |s.offers[id]| :: s.offers[id][i] != s.offers[id][j])
    && InOrder(s.offers[id], s.meanwhile)
    && s.channels[id].published == Events(s.log, s.offers[id])
    && Faithful(s.channels[id])
    && id in s.traces && EventChannel.Run(s.traces[id]) == Some(s.channels[id])
  }

  /** A registered channel is open, and lacks only the publishes that have yet to visit it. */
  ghost predicate UpToDate(s: State, id: nat)
    requires id in s.channels && id in s.offers && id in s.joined
  {
    && !s.channels[id].closed
    && (forall call | s.joined[id] <= call < |s.log| ::
          call in s.offers[id] || (call in s.publishes && id !in s.publishes[call]))
    && (forall call | call in s.publishes ::
          s.joined[id] <= call && (id in s.publishes[call] <==> call in s.offers[id]))
  }

  /** A publish in progress has been so since it began. */
  ghost predicate Overlapping(s: State) {
    && |s.meanwhile| == |s.log|
    && (forall call | call in s.publishes :: call < |s.log| && s.publishes[call] <= s.registered)
    && (forall call, later | call in s.publishes && call < later < |s.log| :: call in s.meanwhile[later])
  }

  ghost predicate Invariant(s: State) {
    && Overlapping(s)
    && (forall id | id in s.channels :: Offered(s, id))
    && (forall id | id in s.registered :: id in s.channels && UpToDate(s, id))
  }

  lemma SubscribeKeeps(s: State)
    requires Invariant(s) && Step(s, Subscribe).Next?
    ensures Invariant(Step(s, Subscribe).state)
  {
    var s' := Step(s, Subscribe).state;
    forall id | id in s'.channels ensures Offered(s', id) {
      if id in s.channels { assert Offered(s, id); }
    }
    forall id | id in s'.registered ensures UpToDate(s', id) {
      if id in s.registered { assert UpToDate(s, id) && Offered(s, id); }
    }
  }

  /** A channel whose history is left alone, or merely closed. */
  lemma OfferedStill(s: State, s': State, id: nat)
    requires |s.meanwhile| == |s.log| && s'.log == s.log && s'.meanwhile == s.meanwhile && s'.nextId == s.nextId
    requires Offered(s, id) && id in s'.channels && s'.offers == s.offers && s'.joined == s.joined
    requires s'.channels[id] == s.channels[id] || s'.channels[id] == s.channels[id].(closed := true)
    requires id in s'.traces && EventChannel.Run(s'.traces[id]) == Some(s'.channels[id])
    ensures Offered(s', id)
  {
  }

  lemma UpToDateStill(s: State, s': State, id: nat)
    requires id in s.channels && id in s.offers && id in s.joined && UpToDate(s, id)
    requires s'.log == s.log && s'.offers == s.offers && s'.joined == s.joined && s'.publishes == s.publishes
    requires id in s'.channels && !s'.channels[id].closed
    ensures UpToDate(s', id)
  {
  }

  function Unsubscribed(s: State, id: nat): State
    requires id in s.channels
  {
    s.(channels := s.channels[id := s.channels[id].(closed := true)], registered := s.registered - {id},
        traces := Traced(s, id, Close))
  }

  lemma UnsubscribedIsAccurate(s: State, id: nat)
    requires Invariant(s) && id in s.registered && id in s.channels
    ensures Invariant(Unsubscribed(s, id)) || s.publishes != map[]
  {
    if s.publishes == map[] {
      var s' := Unsubscribed(s, id);
      assert Offered(s, id) && UpToDate(s, id);
      EventChannel.RunSnoc(s.traces[id], Close);
      forall other | other in s'.channels ensures Offered(s', other) {
        OfferedStill(s, s', other);
      }
      forall other | other in s'.registered ensures UpToDate(s', other) {
        UpToDateStill(s, s', other);
      }
    }
  }

  lemma UnsubscribeKeeps(s: State, id: nat)
    requires Invariant(s)
    ensures Step(s, Unsubscribe(id)) != Panic
    ensures Step(s, Unsubscribe(id)).Next? ==> Invariant(Step(s, Unsubscribe(id)).state)
  {
    if id in s.registered {
      assert UpToDate(s, id);
      UnsubscribedIsAccurate(s, id);
    }
  }

  lemma OfferedWithMore(s: State, s': State, id: nat, event: Event, among: set<nat>)
    requires |s.meanwhile| == |s.log| && s'.log == s.log + [event] && s'.meanwhile == s.meanwhile + [among]
    requires Offered(s, id) && s'.channels == s.channels && s'.offers == s.offers && s'.joined == s.joined
    requires s'.nextId == s.nextId && s'.traces == s.traces
    ensures Offered(s', id)
  {
    EventsOfLonger(s.log, s.offers[id], event);
    InOrderOfLonger(s.offers[id], s.meanwhile, among);
  }

  lemma EventsOfLonger(log: seq<Event>, calls: seq<nat>, event: Event)
    requires forall i | 0 <= i < |calls| :: calls[i] < |log|
    ensures Events(log + [event], calls) == Events(log, calls)
  {
  }

  lemma InOrderOfLonger(calls: seq<nat>, meanwhile: seq<set<nat>>, among: set<nat>)
    requires forall i | 0 <= i < |calls| :: calls[i] < |meanwhile|
    requires InOrder(calls, meanwhile)
    ensures InOrder(calls, meanwhile + [among])
  {
  }

  lemma BeginKeeps(s: State, event: Event)
    requires Invariant(s)
    ensures Invariant(Step(s, Begin(event)).state)
  {
    var s' := Step(s, Begin(event)).state;
    forall id | id in s'.channels ensures Offered(s', id) {
      OfferedWithMore(s, s', id, event, s.publishes.Keys);
    }
    forall id | id in s'.registered ensures UpToDate(s', id) {
      UpToDateWithMore(s, event, id);
    }
    assert Overlapping(s');
  }

  lemma UpToDateWithMore(s: State, event: Event, id: nat)
    requires Overlapping(s) && id in s.registered && id in s.channels && Offered(s, id) && UpToDate(s, id)
    ensures UpToDate(Step(s, Begin(event)).state, id)
  {
    assert forall i | 0 <= i < |s.offers[id]| :: s.offers[id][i] != |s.log|;
  }

  lemma TakeKeeps(s: State, id: nat)
    requires Invariant(s)
    ensures Step(s, Take(id)) != Panic
    ensures Step(s, Take(id)).Next? ==> Invariant(Step(s, Take(id)).state)
  {
    if id in s.channels {
      var s' := Step(s, Take(id)).state;
      assert Offered(s, id);
      ReceiveKeepsFaithful(s.channels[id]);
      EventChannel.RunSnoc(s.traces[id], Receive);
      forall other | other in s'.channels ensures Offered(s', other) {
        if other != id { OfferedStill(s, s', other); }
      }
      forall other | other in s'.registered ensures UpToDate(s', other) {
        assert UpToDate(s, other);
        UpToDateStill(s, s', other);
      }
    }
  }

  lemma EndKeeps(s: State, call: nat)
    requires Invariant(s) && Step(s, End(call)).Next?
    ensures Invariant(Step(s, End(call)).state)
  {
    var s' := Step(s, End(call)).state;
    forall id | id in s'.channels ensures Offered(s', id) {
      OfferedStill(s, s', id);
    }
    forall id | id in s'.registered ensures UpToDate(s', id) {
      assert UpToDate(s, id);
    }
  }

  /** The newly offered publish comes after all the channel was offered; those of them that began later
      still had it in progress. */
  lemma InOrderWithOneMore(calls: seq<nat>, call: nat, meanwhile: seq<set<nat>>)
    requires forall i | 0 <= i < |calls| :: calls[i] < |meanwhile|
    requires InOrder(calls, meanwhile) && call < |meanwhile| && call !in calls
    requires forall later | call < later < |meanwhile| :: call in meanwhile[later]
    ensures InOrder(calls + [call], meanwhile)
  {
    var more := calls + [call];
    forall i, j | 0 <= i < j < |more| ensures more[i] < more[j] || more[j] in meanwhile[more[i]] {
      if j == |calls| { assert more[i] == calls[i] && calls[i] in calls; }
    }
  }

  lemma OfferExtends(s: State, call: nat, id: nat)
    requires Overlapping(s) && Step(s, Offer(call, id)).Next? && Offered(s, id) && UpToDate(s, id)
    ensures Offered(Step(s, Offer(call, id)).state, id)
  {
    SendKeepsFaithful(s.channels[id], s.log[call]);
    InOrderWithOneMore(s.offers[id], call, s.meanwhile);
    OneMoreEvent(s.log, s.offers[id], call, s.joined[id]);
    var v' := Apply(s.channels[id], Send(s.log[call])).value;
    assert v'.published == s.channels[id].published + [s.log[call]];
    EventChannel.RunSnoc(s.traces[id], Send(s.log[call]));
  }

  lemma OneMoreEvent(log: seq<Event>, calls: seq<nat>, call: nat, from: nat)
    requires forall i | 0 <= i < |calls| :: from <= calls[i] < |log|
    requires forall i, j | 0 <= i < j < |calls| :: calls[i] != calls[j]
    requires from <= call < |log| && call !in calls
    ensures forall i | 0 <= i <= |calls| :: from <= (calls + [call])[i] < |log|
    ensures forall i, j | 0 <= i < j <= |calls| :: (calls + [call])[i] != (calls + [call])[j]
    ensures Events(log, calls + [call]) == Events(log, calls) + [log[call]]
  {
    assert forall i | 0 <= i < |calls| :: calls[i] in calls;
  }

  lemma OfferUpdates(s: State, call: nat, id: nat, other: nat)
    requires Overlapping(s) && Step(s, Offer(call, id)).Next? && other in s.registered
    requires other in s.channels && other in s.offers && other in s.joined && UpToDate(s, other)
    ensures UpToDate(Step(s, Offer(call, id)).state, other)
  {
    if other == id {
      assert forall c :: c in s.offers[id] + [call] <==> c in s.offers[id] || c == call;
    }
  }

  lemma OfferedElsewhere(s: State, call: nat, id: nat, other: nat)
    requires Overlapping(s) && Step(s, Offer(call, id)).Next? && other != id && Offered(s, other)
    ensures Offered(Step(s, Offer(call, id)).state, other)
  {
  }

  lemma OfferKeeps(s: State, call: nat, id: nat)
    requires Invariant(s)
    ensures Step(s, Offer(call, id)) != Panic
    ensures Step(s, Offer(call, id)).Next? ==> Invariant(Step(s, Offer(call, id)).state)
  {
    if id in s.registered { assert UpToDate(s, id); }
    if Step(s, Offer(call, id)).Next? {
      var s' := Step(s, Offer(call, id)).state;
      forall other | other in s'.channels ensures Offered(s', other) {
        if other == id { OfferExtends(s, call, id); } else { OfferedElsewhere(s, call, id, other); }
      }
      forall other | other in s'.registered ensures UpToDate(s', other) {
        OfferUpdates(s, call, id, other);
      }
    }
  }

  lemma StepKeepsInvariant(s: State, a: Action)
    requires Invariant(s)
    ensures Step(s, a) != Panic
    ensures Step(s, a).Next? ==> Invariant(Step(s, a).state)
  {
    match a {
      case Subscribe => if Step(s, a).Next? { SubscribeKeeps(s); }
      case Unsubscribe(id) => UnsubscribeKeeps(s, id);
      case Begin(event) => BeginKeeps(s, event);
      case Offer(call, id) => OfferKeeps(s, call, id);
      case End(call) => if Step(s, a).Next? { EndKeeps(s, call); }
      case Take(id) => TakeKeeps(s, id);
    }
  }

  /** No interleaving sends to a closed channel or closes one twice, and all reach an accurate state. */
  lemma {:induction false} NothingPanics(actions: seq<Action>)
    ensures Run(actions) != Panic
    ensures Run(actions).Next? ==> Invariant(Run(actions).state)
  {
    if actions != [] {
      NothingPanics(actions[..|actions| - 1]);
      if Run(actions[..|actions| - 1]).Next? {
        StepKeepsInvariant(Run(actions[..|actions| - 1]).state, actions[|actions| - 1]);
      }
    }
  }

  // ----- what a subscriber may rely on -----

  /** These are the positions from `from` up to `to`, each once. */
  ghost predicate Covers(calls: seq<nat>, from: nat, to: nat) {
    && from <= to
    && (forall call :: call in calls <==> from <= call < to)
    && (forall i, j | 0 <= i < j < |calls| :: calls[i] != calls[j])
  }

  /** Positions that cover the log from `from` on list its events, in some order. */
  lemma {:induction false} CoveringListsAll(log: seq<Event>, calls: seq<nat>, from: nat)
    requires Covers(calls, from, |log|) && forall i | 0 <= i < |calls| :: calls[i] < |log|
    ensures multiset(Events(log, calls)) == multiset(log[from..])
  {
    if from == |log| {
      NothingBetween(calls, from);
    } else {
      var last := |log| - 1;
      assert last in calls;
      var k :| 0 <= k < |calls| && calls[k] == last;
      WithoutLast(calls, from, |log|, k);
      EventsWithoutLast(log, calls, k);
      CoveringListsAll(log[..last], calls[..k] + calls[k + 1..], from);
      LastApart(log, from);
    }
  }

  lemma LastApart(log: seq<Event>, from: nat)
    requires from < |log|
    ensures var last := |log| - 1; multiset(log[from..]) == multiset(log[..last][from..]) + multiset{log[last]}
  {
    assert log[from..] == log[..|log| - 1][from..] + [log[|log| - 1]];
  }

  lemma NothingBetween(calls: seq<nat>, from: nat)
    requires forall c | c in calls :: from <= c < from
    ensures calls == []
  {
    FirstIsMember(calls);
  }

  lemma EventsWithoutLast(log: seq<Event>, calls: seq<nat>, k: nat)
    requires log != [] && forall i | 0 <= i < |calls| :: calls[i] < |log|
    requires k < |calls| && calls[k] == |log| - 1
    requires forall i | 0 <= i < |calls| && i != k :: calls[i] < |log| - 1
    ensures var rest := calls[..k] + calls[k + 1..]; forall i | 0 <= i < |rest| :: rest[i] < |log| - 1
    ensures multiset(Events(log, calls)) ==
            multiset(Events(log[..|log| - 1], calls[..k] + calls[k + 1..])) + multiset{log[|log| - 1]}
  {
    var rest, events := calls[..k] + calls[k + 1..], Events(log, calls);
    assert forall i | 0 <= i < |rest| :: rest[i] == calls[if i < k then i else i + 1];
    WithoutOne(events, k);
    assert events[..k] + events[k + 1..] == Events(log[..|log| - 1], rest);
    assert events[k] in multiset(events);
  }

  lemma WithoutLast(calls: seq<nat>, from: nat, to: nat, k: nat)
    requires Covers(calls, from, to) && from < to && k < |calls| && calls[k] == to - 1
    ensures Covers(calls[..k] + calls[k + 1..], from, to - 1)
    ensures forall i | 0 <= i < |calls| && i != k :: calls[i] < to - 1
  {
    var rest := calls[..k] + calls[k + 1..];
    assert forall i | 0 <= i < |rest| :: rest[i] == calls[if i < k then i else i + 1];
    forall i | 0 <= i < |calls| && i != k ensures calls[i] < to - 1 {
      assert calls[i] in calls;
    }
    forall call | from <= call < to - 1 ensures call in rest {
      assert call in calls;
      var i :| 0 <= i < |calls| && calls[i] == call;
      assert rest[if i < k then i else i - 1] == call;
    }
    forall call | call in rest ensures from <= call < to - 1 {
      var i :| 0 <= i < |rest| && rest[i] == call;
      assert calls[if i < k then i else i + 1] in calls;
    }
  }

  lemma OffersCover(s: State, id: nat)
    requires Invariant(s) && s.publishes == map[] && id in s.registered
    ensures id in s.channels && Offered(s, id)
    ensures Covers(s.offers[id], s.joined[id], |s.log|)
  {
    assert Offered(s, id) && UpToDate(s, id);
  }

  /** With no publish in progress a registered channel was offered exactly the events published since it
      joined, each once, in an order of its own; what was received and buffered is in that order a part of
      them, and all of them unless an offer came when exactly 64 were buffered. A reader that was fewer
      than 64 events behind at every offer missed nothing. */
  lemma SubscriberIsOfferedAll(actions: seq<Action>, id: nat)
    requires Run(actions).Next? && Run(actions).state.publishes == map[] && id in Run(actions).state.registered
    ensures var s := Run(actions).state;
            && id in s.channels && id in s.joined && s.joined[id] <= |s.log|
            && var v := s.channels[id];
               && multiset(v.published) == multiset(s.log[s.joined[id]..])
               && |v.buffer| <= SUBSCRIBER_BUFFER_SIZE
               && Subsequence(v.received + v.buffer, v.published)
               && id in s.traces && v.published == Sends(s.traces[id])
               && (!MetFullBuffer(s.traces[id]) || KeepsUp(s.traces[id]) ==> v.received + v.buffer == v.published)
  {
    NothingPanics(actions);
    var s := Run(actions).state;
    assert Offered(s, id);
    DropsMeanFull(s.traces[id]);
    PublishedIsSent(s.traces[id]);
    if KeepsUp(s.traces[id]) { KeepingUpMissesNothing(s.traces[id]); }
    OffersCover(s, id);
    CoveringListsAll(s.log, s.offers[id], s.joined[id]);
  }

  /** Two publishes that do not overlap reach every channel in the order in which they were made. */
  lemma SeparatePublishesKeepOrder(actions: seq<Action>, id: nat, i: nat, j: nat)
    requires Run(actions).Next? && id in Run(actions).state.channels && id in Run(actions).state.offers
    requires i < j < |Run(actions).state.offers[id]|
    ensures var s := Run(actions).state;
            var earlier, later := s.offers[id][i], s.offers[id][j];
            earlier < |s.meanwhile| && (earlier < later || later in s.meanwhile[earlier])
  {
    NothingPanics(actions);
    assert Offered(Run(actions).state, id);
  }

  lemma {:induction false} IncreasingCover(calls: seq<nat>, from: nat, to: nat)
    requires Covers(calls, from, to)
    requires forall i, j | 0 <= i < j < |calls| :: calls[i] < calls[j]
    ensures |calls| == to - from && forall i | 0 <= i < |calls| :: calls[i] == from + i
  {
    if from == to {
      NothingBetween(calls, from);
    } else {
      assert to - 1 in calls;
      var k :| 0 <= k < |calls| && calls[k] == to - 1;
      assert calls[|calls| - 1] in calls && calls[k] <= calls[|calls| - 1];
      WithoutLast(calls, from, to, k);
      assert calls[..k] + calls[k + 1..] == calls[..k];
      IncreasingCover(calls[..k], from, to - 1);
    }
  }

  lemma OrderedOffersAreTheLog(log: seq<Event>, calls: seq<nat>, meanwhile: seq<set<nat>>, from: nat)
    requires Covers(calls, from, |log|) && |meanwhile| == |log|
    requires forall i | 0 <= i < |calls| :: from <= calls[i] < |log|
    requires InOrder(calls, meanwhile) && forall call | from <= call < |log| :: meanwhile[call] == {}
    ensures Events(log, calls) == log[from..]
  {
    assert forall i, j | 0 <= i < j < |calls| :: calls[i] < calls[j];
    IncreasingCover(calls, from, |log|);
  }

  /** If no publish since a channel joined overlapped another, it was offered the log itself: so all
      subscribers see one order. */
  lemma SeparatePublishesGiveTheLog(actions: seq<Action>, id: nat)
    requires Run(actions).Next? && Run(actions).state.publishes == map[] && id in Run(actions).state.registered
    requires var s := Run(actions).state;
             id in s.joined && forall call | s.joined[id] <= call < |s.meanwhile| :: s.meanwhile[call] == {}
    ensures var s := Run(actions).state;
            id in s.channels && s.joined[id] <= |s.log| && s.channels[id].published == s.log[s.joined[id]..]
  {
    NothingPanics(actions);
    var s := Run(actions).state;
    OffersCover(s, id);
    OrderedOffersAreTheLog(s.log, s.offers[id], s.meanwhile, s.joined[id]);
  }

  lemma RunSnoc(actions: seq<Action>, a: Action)
    requires Run(actions).Next?
    ensures Run(actions + [a]) == Step(Run(actions).state, a)
  {
    assert (actions + [a])[..|actions|] == actions;
  }

  ghost predicate Reaches(history: seq<Action>, s: State) {
    Run(history) == Next(s)
  }

  lemma RegisteredIsOpen(history: seq<Action>, s: State, id: nat)
    requires Reaches(history, s) && id in s.registered
    ensures id in s.channels && id in s.offers && !s.channels[id].closed
  {
    NothingPanics(history);
    assert Offered(s, id) && UpToDate(s, id);
  }

  ghost predicate CanOffer(s: State, call: nat, id: nat) {
    && call in s.publishes && call < |s.log| && id in s.registered && id !in s.publishes[call]
    && id in s.channels && id in s.offers && !s.channels[id].closed
  }

  lemma OfferGoesThrough(actions: seq<Action>, call: nat, id: nat)
    requires Run(actions).Next? && CanOffer(Run(actions).state, call, id)
    ensures Run(actions + [Offer(call, id)]).Next?
    ensures var s, t := Run(actions).state, Run(actions + [Offer(call, id)]).state;
            && t.log == s.log && id in t.channels
            && t.channels[id].published == s.channels[id].published + [s.log[call]]
            && (forall c, o | CanOffer(s, c, o) && (c != call || o != id) :: CanOffer(t, c, o))
            && (forall o | o in s.channels && o != id :: o in t.channels && t.channels[o] == s.channels[o])
  {
    RunSnoc(actions, Offer(call, id));
  }

  lemma BeginOpens(s: State, event: Event, id: nat)
    requires id in s.registered && id in s.channels && id in s.offers && !s.channels[id].closed
    ensures Step(s, Begin(event)).Next?
    ensures var t := Step(s, Begin(event)).state;
            && t.log == s.log + [event] && t.channels == s.channels
            && t.registered == s.registered && t.offers == s.offers
            && CanOffer(t, |s.log|, id)
            && forall call | CanOffer(s, call, id) :: CanOffer(t, call, id)
  {
  }

  lemma BothBegin(actions: seq<Action>, id: nat, e: Event, f: Event)
    requires Run(actions).Next? && id in Run(actions).state.registered
    ensures Run(actions + [Begin(e)] + [Begin(f)]).Next?
    ensures var s, t := Run(actions).state, Run(actions + [Begin(e)] + [Begin(f)]).state;
            && t.log == s.log + [e, f] && t.channels == s.channels && id in s.channels
            && CanOffer(t, |s.log|, id) && CanOffer(t, |s.log| + 1, id)
  {
    var s := Run(actions).state;
    RegisteredIsOpen(actions, s, id);
    BeginOpens(s, e, id);
    BeginOpens(Step(s, Begin(e)).state, f, id);
    RunSnoc(actions, Begin(e));
    RunSnoc(actions + [Begin(e)], Begin(f));
    assert s.log + [e] + [f] == s.log + [e, f];
  }

  /** Without that there need be no common order: in any reachable state two publishes may begin that
      overlap and reach any two subscribers in opposite orders. */
  lemma OverlapCanSwapOrder(actions: seq<Action>, i: nat, j: nat, e: Event, f: Event)
    requires Run(actions).Next? && {i, j} <= Run(actions).state.registered && i != j
    ensures var s := Run(actions).state;
            var n := |s.log|;
            var swapped := actions + [Begin(e)] + [Begin(f)]
                           + [Offer(n, i)] + [Offer(n + 1, i)] + [Offer(n + 1, j)] + [Offer(n, j)];
            && Run(swapped).Next?
            && var t := Run(swapped).state;
               && t.log == s.log + [e, f]
               && i in s.channels && j in s.channels && i in t.channels && j in t.channels
               && t.channels[i].published == s.channels[i].published + [e, f]
               && t.channels[j].published == s.channels[j].published + [f, e]
  {
    BothBegin(actions, i, e, f);
    BothBegin(actions, j, e, f);
    var s, n := Run(actions).state, |Run(actions).state.log|;
    var begun := actions + [Begin(e)] + [Begin(f)];
    OfferTwo(begun, n, n + 1, i, j);
    OfferTwo(begun + [Offer(n, i)] + [Offer(n + 1, i)], n + 1, n, j, i);
  }

  /** Two publishes visit one channel in turn, and leave another as it was. */
  lemma OfferTwo(actions: seq<Action>, first: nat, second: nat, id: nat, other: nat)
    requires Run(actions).Next? && id != other && first != second
    requires CanOffer(Run(actions).state, first, id) && CanOffer(Run(actions).state, second, id)
    requires other in Run(actions).state.channels
    ensures Run(actions + [Offer(first, id)] + [Offer(second, id)]).Next?
    ensures var s, t := Run(actions).state, Run(actions + [Offer(first, id)] + [Offer(second, id)]).state;
            && t.log == s.log && id in t.channels && other in t.channels
            && t.channels[id].published == s.channels[id].published + [s.log[first], s.log[second]]
            && t.channels[other] == s.channels[other]
            && forall c | CanOffer(s, c, other) :: CanOffer(t, c, other)
  {
    OfferGoesThrough(actions, first, id);
    OfferGoesThrough(actions + [Offer(first, id)], second, id);
    var s := Run(actions).state;
    assert s.channels[id].published + [s.log[first]] + [s.log[second]]
        == s.channels[id].published + [s.log[first], s.log[second]];
  }

  // ----- the hub itself -----

  lemma ReachesNext(history: seq<Action>, s: State, a: Action)
    requires Reaches(history, s) && Step(s, a).Next?
    ensures Reaches(history + [a], Step(s, a).state)
  {
    RunSnoc(history, a);
  }

  lemma NextIdIsNew(history: seq<Action>, s: State)
    requires Reaches(history, s)
    ensures s.nextId !in s.channels && s.nextId !in s.registered
  {
    NothingPanics(history);
    assert s.nextId in s.channels ==> Offered(s, s.nextId);
  }

  /** The hub making one call at a time. `history` records its steps and `at` the state they reach, so
      that every call is a path of the protocol above and what holds there holds after it. */
  class Broker {
    var subscribers: map<nat, Channel>
    var nextId: nat
    ghost var history: seq<Action>
    ghost var at: State

    /** The registered channels are those of `at`, each registered once. */
    ghost predicate Registered()
      reads this`subscribers, this`nextId, this`at, subscribers.Values
    {
      && at.registered == subscribers.Keys && at.nextId == nextId
      && (forall id | id in subscribers :: id in at.channels && at.channels[id] == subscribers[id].State())
      && (forall i, j | i in subscribers && j in subscribers && i != j :: subscribers[i] != subscribers[j])
    }

    ghost predicate Valid()
      reads this, subscribers.Values
    {
      Registered() && Reaches(history, at) && at.publishes == map[] && OneAtATime()
    }

    /** No publish of this hub has overlapped another. */
    ghost predicate OneAtATime()
      reads this`at
    {
      forall call | 0 <= call < |at.meanwhile| :: at.meanwhile[call] == {}
    }

    constructor ()
      ensures Valid() && subscribers == map[]
    {
      subscribers, nextId := map[], 0;
      history, at := [], NO_SUBSCRIBERS;
    }

    ghost method Note(a: Action)
      requires Reaches(history, at) && Step(at, a).Next?
      modifies this`history, this`at
      ensures Reaches(history, at) && at == Step(old(at), a).state
    {
      ReachesNext(history, at, a);
      history, at := history + [a], Step(at, a).state;
    }

    /** With one call at a time, what a subscriber has been given so far, received or still buffered, is in
        order a part of what was published since it joined, and all of it if it never fell behind. */
    lemma SubscriberSeesTheLog(id: nat)
      requires Valid() && id in subscribers
      ensures id in at.joined && at.joined[id] <= |at.log|
      ensures var v := subscribers[id].State();
              && |v.buffer| <= SUBSCRIBER_BUFFER_SIZE
              && Subsequence(v.received + v.buffer, at.log[at.joined[id]..])
              && id in at.traces && Sends(at.traces[id]) == at.log[at.joined[id]..]
              && (!MetFullBuffer(at.traces[id]) || KeepsUp(at.traces[id]) ==>
                    v.received + v.buffer == at.log[at.joined[id]..])
    {
      NothingPanics(history);
      SubscriberIsOfferedAll(history, id);
      OffersCover(at, id);
      SeparatePublishesGiveTheLog(history, id);
    }

    method Subscribe() returns (id: nat, ch: Channel)
      requires Valid()
      modifies this
      ensures Valid() && fresh(ch) && ch.State() == FRESH
      ensures id == old(nextId) && id !in old(subscribers) && subscribers == old(subscribers)[id := ch]
      ensures Next(at) == Step(old(at), Action.Subscribe)
    {
      NextIdIsNew(history, at);
      id := nextId;
      nextId := nextId + 1;
      ch := new Channel();
      subscribers := subscribers[id := ch];
      Note(Action.Subscribe);
    }

    /** The closure that Subscribe returns, with the id and channel it captured. Calling it again
        does nothing. */
    method Unsubscribe(id: nat, ch: Channel)
      requires Valid() && id in at.channels
      requires id in subscribers ==> subscribers[id] == ch
      modifies this`subscribers, this`history, this`at, ch
      ensures Valid() && subscribers == old(subscribers) - {id}
      ensures Next(at) == Step(old(at), Action.Unsubscribe(id))
      ensures id in old(subscribers) ==> Apply(old(ch.State()), Close) == Some(ch.State()) && ch.closed
      ensures id !in old(subscribers) ==> ch.State() == old(ch.State())
    {
      if id in subscribers {
        RegisteredIsOpen(history, at, id);
        Note(Action.Unsubscribe(id));
        subscribers := subscribers - {id};
        ch.CloseOnce();
      } else {
        Note(Action.Unsubscribe(id));
        assert subscribers == subscribers - {id};
      }
    }

    /** A subscriber takes the oldest event out of its channel, while it is registered or later, when
        what is left in a closed channel can still be drained. */
    method Receive(ch: Channel) returns (event: Option<Event>)
      requires Valid()
      modifies ch, this`history, this`at
      ensures Valid()
      ensures Apply(old(ch.State()), ChannelOp.Receive) == Some(ch.State())
      ensures event == if old(ch.buffer) == [] then None else Some(old(ch.buffer)[0])
      ensures forall id | id in subscribers && subscribers[id] == ch :: Next(at) == Step(old(at), Take(id))
      ensures ch !in subscribers.Values ==> at == old(at)
    {
      NoteTake(ch);
      event := ch.TryReceive();
    }

    ghost method NoteTake(ch: Channel)
      requires Valid()
      modifies this`history, this`at
      ensures Reaches(history, at) && at.publishes == map[] && OneAtATime()
      ensures forall id | id in subscribers && subscribers[id] == ch :: Next(at) == Step(old(at), Take(id))
      ensures ch !in subscribers.Values ==> at == old(at)
    {
      if id :| id in subscribers && subscribers[id] == ch {
        Note(Take(id));
      }
    }

    /** What each channel was, and for those no longer in `rest` that it was sent the event. */
    ghost predicate Sent(before: map<nat, View>, rest: set<nat>, event: Event)
      reads this`subscribers, subscribers.Values
    {
      && before.Keys == subscribers.Keys && rest <= subscribers.Keys
      && (forall id | id in rest :: subscribers[id].State() == before[id])
      && (forall id | id in subscribers && id !in rest ::
            Apply(before[id], Send(event)) == Some(subscribers[id].State()))
    }

    /** The publish `call` of `event` is in progress alone, with `rest` still to visit. */
    ghost predicate Visiting(call: nat, rest: set<nat>, event: Event)
      reads this
    {
      && Reaches(history, at) && call < |at.log| && at.log[call] == event
      && at.publishes == map[call := subscribers.Keys - rest] && OneAtATime()
    }

    /** One publish from beginning to end: every registered channel is visited once, in any order. */
    method Publish(event: Event)
      requires Valid()
      modifies this`history, this`at, subscribers.Values
      ensures Valid() && at.log == old(at.log) + [event]
      ensures forall id | id in subscribers ::
                Apply(old(subscribers[id].State()), Send(event)) == Some(subscribers[id].State())
      ensures forall id | id in subscribers ::
                subscribers[id].buffer ==
                old(subscribers[id].buffer) + if |old(subscribers[id].buffer)| < 64 then [event] else []
    {
      ghost var before := map id | id in subscribers :: subscribers[id].State();
      ghost var call := NoteBegin(event);
      VisitAll(event, before, call);
      SentIsBuffered(before, event);
      NoteEnd(call, event);
    }

    lemma SentIsBuffered(before: map<nat, View>, event: Event)
      requires Sent(before, {}, event)
      ensures forall id | id in subscribers ::
                subscribers[id].buffer == before[id].buffer + if |before[id].buffer| < 64 then [event] else []
    {
    }

    ghost method NoteBegin(event: Event) returns (call: nat)
      requires Valid()
      modifies this`history, this`at
      ensures Registered() && Visiting(call, subscribers.Keys, event) && at.log == old(at.log) + [event]
    {
      call := |at.log|;
      Note(Begin(event));
      assert subscribers.Keys - subscribers.Keys == {};
    }

    ghost method NoteOffer(event: Event, call: nat, rest: set<nat>, id: nat)
      requires Registered() && Visiting(call, rest, event) && id in rest && id in subscribers && !subscribers[id].closed
      modifies this`history, this`at
      ensures Visiting(call, rest - {id}, event) && at.log == old(at.log)
      ensures at.registered == old(at.registered) && at.nextId == old(at.nextId)
      ensures id in old(at.channels) && Apply(old(at.channels[id]), Send(event)).Some?
      ensures at.channels == old(at.channels)[id := Apply(old(at.channels[id]), Send(event)).value]
    {
      RegisteredIsOpen(history, at, id);
      Note(Offer(call, id));
      assert subscribers.Keys - (rest - {id}) == subscribers.Keys - rest + {id};
    }

    ghost method NoteEnd(call: nat, event: Event)
      requires Registered() && Visiting(call, {}, event)
      modifies this`history, this`at
      ensures Valid() && at.log == old(at.log)
    {
      assert subscribers.Keys - {} == at.registered;
      Note(End(call));
    }

    method VisitAll(event: Event, ghost before: map<nat, View>, ghost call: nat)
      requires Registered() && Visiting(call, subscribers.Keys, event) && Sent(before, subscribers.Keys, event)
      modifies this`history, this`at, subscribers.Values
      ensures Registered() && Visiting(call, {}, event) && Sent(before, {}, event) && at.log == old(at.log)
    {
      var rest := subscribers.Keys;
      while rest != {}
        invariant Registered() && Visiting(call, rest, event) && Sent(before, rest, event) && at.log == old(at.log)
      {
        var id :| id in rest;
        Visit(event, before, call, rest, id);
        rest := rest - {id};
      }
    }

    /** The body of the loop: one non-blocking send. */
    method Visit(event: Event, ghost before: map<nat, View>, ghost call: nat, ghost rest: set<nat>, id: nat)
      requires Registered() && Visiting(call, rest, event) && Sent(before, rest, event)
      requires id in rest && id in subscribers
      modifies this`history, this`at, subscribers[id]
      ensures Registered() && Visiting(call, rest - {id}, event) && Sent(before, rest - {id}, event)
      ensures at.log == old(at.log)
    {
      RegisteredIsOpen(history, at, id);
      NoteOffer(event, call, rest, id);
      subscribers[id].TrySend(event);
    }
  }
}
