/** The server-sent-event broker: SSESubscribe, SSEUnsubscribe and ssePublish in
    internal/whatsapp/sse.go, as a state machine over lock sections and channel operations. */
module SseBroker {
  import opened Common

  const CAPACITY: nat := 64

  /** A subscriber's channel. `accepted` lists, by publication number, the events put into it;
      `missed` those skipped because it was full; `received` what its reader has taken out.
      It was registered when `from` events had been published, and deregistered at `until`. */
  datatype Channel<E> = Channel(
    buffer: seq<E>,
    closed: bool,
    received: seq<E>,
    accepted: seq<nat>,
    missed: set<nat>,
    from: nat,
    until: Option<nat>)

  /** `sending` maps each publication in progress, whose publisher holds the read lock, to the
      subscribers its loop has yet to visit. */
  datatype State<E> = State(
    published: seq<E>,
    subscribers: set<nat>,
    channels: map<nat, Channel<E>>,
    sending: map<nat, set<nat>>,
    panicked: bool)

  datatype Step<E> =
    | Subscribe(ch: nat)
    | Deregister(ch: nat)          // the locked delete of SSEUnsubscribe
    | Close(ch: nat)               // and its close, after the lock
    | Publish(event: E)            // ssePublish takes the read lock
    | Send(i: nat, ch: nat)        // one round of its loop
    | EndPublish(i: nat)
    | Receive(ch: nat)

  /** The write lock needs the read lock free. Each channel is unsubscribed once, by the handler
      that made it. With `serial`, publications do not overlap. */
  predicate Enabled<E>(s: State<E>, step: Step<E>, serial: bool) {
    match step
    case Subscribe(ch) => s.sending == map[] && ch !in s.channels
    case Deregister(ch) => s.sending == map[] && ch in s.channels && s.channels[ch].until.None?
    case Close(ch) => ch in s.channels && s.channels[ch].until.Some? && !s.channels[ch].closed
    case Publish(_) => serial ==> s.sending == map[]
    case Send(i, ch) => i in s.sending && ch in s.sending[i] && ch in s.channels
    case EndPublish(i) => i in s.sending && s.sending[i] == {}
    case Receive(ch) => ch in s.channels && s.channels[ch].buffer != []
  }

  /** The non-blocking send of event number `i`. */
  function Offer<E>(c: Channel<E>, i: nat, event: E): Channel<E> {
    if |c.buffer| < CAPACITY then c.(buffer := c.buffer + [event], accepted := c.accepted + [i])
    else c.(missed := c.missed + {i})
  }

  function Apply<E>(s: State<E>, step: Step<E>): State<E>
    requires Enabled(s, step, false)
  {
    match step
    case Subscribe(ch) =>
      s.(subscribers := s.subscribers + {ch},
         channels := s.channels[ch := Channel([], false, [], [], {}, |s.published|, None)])
    case Deregister(ch) =>
      s.(subscribers := s.subscribers - {ch},
         channels := s.channels[ch := s.channels[ch].(until := Some(|s.published|))])
    case Close(ch) => s.(channels := s.channels[ch := s.channels[ch].(closed := true)])
    case Publish(event) =>
      s.(published := s.published + [event], sending := s.sending[|s.published| := s.subscribers])
    case Send(i, ch) =>
      var t := s.(sending := s.sending[i := s.sending[i] - {ch}]);
      if s.channels[ch].closed || i >= |s.published| then t.(panicked := true)
      else t.(channels := s.channels[ch := Offer(s.channels[ch], i, s.published[i])])
    case EndPublish(i) => s.(sending := s.sending - {i})
    case Receive(ch) =>
      var c := s.channels[ch];
      s.(channels := s.channels[ch := c.(buffer := c.buffer[1..], received := c.received + [c.buffer[0]])])
  }

  function Init<E>(): State<E> {
    State([], {}, map[], map[], false)
  }

  function Exec<E>(steps: seq<Step<E>>, serial: bool): Option<State<E>> {
    if steps == [] then Some(Init())
    else
      match Exec(steps[..|steps| - 1], serial)
      case None => None
      case Some(s) =>
        if Enabled(s, steps[|steps| - 1], serial) then Some(Apply(s, steps[|steps| - 1])) else None
  }

  // ---------------------------------------------------------------- the invariant

  /** Publication `i` has yet to offer its event to `ch`. */
  ghost predicate Pending(sending: map<nat, set<nat>>, i: nat, ch: nat) {
    i in sending && ch in sending[i]
  }

  /** The events numbered by `accepted`. */
  function Events<E>(published: seq<E>, accepted: seq<nat>): seq<E>
    requires forall k :: 0 <= k < |accepted| ==> accepted[k] < |published|
  {
    seq(|accepted|, k requires 0 <= k < |accepted| => published[accepted[k]])
  }

  /** How far the channel's subscription reaches. */
  function Reach<E>(c: Channel<E>, published: nat): nat {
    match c.until case None => published case Some(n) => n
  }

  ghost predicate ContentsOk<E>(c: Channel<E>, published: seq<E>) {
    && |c.buffer| <= CAPACITY
    && c.from <= Reach(c, |published|) <= |published|
    && (forall k :: 0 <= k < |c.accepted| ==> c.from <= c.accepted[k] < Reach(c, |published|))
    && c.received + c.buffer == Events(published, c.accepted)
  }

  /** Every event published during the subscription was put in the channel once, or missed, or is
      still to be offered. */
  ghost predicate AccountedFor<E>(c: Channel<E>, published: nat, sending: map<nat, set<nat>>, ch: nat) {
    && Distinct(c.accepted)
    && (forall i :: i in c.accepted ==> i !in c.missed && !Pending(sending, i, ch))
    && (forall i :: i in c.missed ==> c.from <= i < Reach(c, published) && !Pending(sending, i, ch))
    && (forall i: nat :: c.from <= i < Reach(c, published) ==> i in c.accepted || i in c.missed || Pending(sending, i, ch))
  }

  ghost predicate LockOk<E>(s: State<E>) {
    && !s.panicked
    && (forall ch :: ch in s.subscribers <==> ch in s.channels && s.channels[ch].until.None?)
    && (forall ch :: ch in s.channels && s.channels[ch].closed ==> s.channels[ch].until.Some?)
    && (forall i :: i in s.sending ==> i < |s.published| && s.sending[i] <= s.subscribers)
    && (forall i, ch :: Pending(s.sending, i, ch) ==> ch in s.channels && s.channels[ch].from <= i)
  }

  ghost predicate ChannelsOk<E>(s: State<E>) {
    forall ch :: ch in s.channels ==>
      ContentsOk(s.channels[ch], s.published) && AccountedFor(s.channels[ch], |s.published|, s.sending, ch)
  }

  ghost predicate Inv<E>(s: State<E>) {
    LockOk(s) && ChannelsOk(s)
  }

  lemma StepKeepsLock<E>(s: State<E>, step: Step<E>)
    requires Inv(s) && Enabled(s, step, false)
    ensures LockOk(Apply(s, step))
  {
    var t := Apply(s, step);
    match step
    case Subscribe(_) =>
    case Deregister(_) =>
    case Close(_) =>
    case Publish(_) =>
      forall i, ch | Pending(t.sending, i, ch) ensures ch in t.channels && t.channels[ch].from <= i {
        if i == |s.published| {
          assert ContentsOk(s.channels[ch], s.published);
        } else {
          assert Pending(s.sending, i, ch);
        }
      }
    case Send(i, ch) =>
      SendKeepsLock(s, i, ch);
    case EndPublish(i) =>
      EndLeavesPending(s.sending, i);
    case Receive(_) =>
  }

  /** The read lock keeps every channel of a publication's loop subscribed, hence open. */
  lemma SendKeepsLock<E>(s: State<E>, i: nat, ch: nat)
    requires LockOk(s) && Enabled(s, Send(i, ch), false)
    ensures LockOk(Apply(s, Send(i, ch)))
  {
    var t := Apply(s, Send(i, ch));
    assert ch in s.subscribers;
    assert s.channels[ch].until.None? && !s.channels[ch].closed;
    SendLeavesPending(s.sending, i, ch);
    assert t.sending == s.sending[i := s.sending[i] - {ch}];
    assert t.channels == s.channels[ch := Offer(s.channels[ch], i, s.published[i])];
    assert t.channels.Keys == s.channels.Keys;
    assert forall j :: j in t.sending ==> t.sending[j] <= s.sending[j];
    forall j, d | Pending(t.sending, j, d) ensures d in t.channels && t.channels[d].from <= j {
      assert Pending(s.sending, j, d);
    }
  }

  lemma SendLeavesPending(sending: map<nat, set<nat>>, i: nat, ch: nat)
    requires i in sending
    ensures forall j, d :: Pending(sending[i := sending[i] - {ch}], j, d) <==> Pending(sending, j, d) && !(j == i && d == ch)
  {
  }

  lemma EndLeavesPending(sending: map<nat, set<nat>>, i: nat)
    requires i in sending && sending[i] == {}
    ensures forall j, d :: Pending(sending - {i}, j, d) <==> Pending(sending, j, d)
  {
  }

  lemma EventsAppend<E>(published: seq<E>, accepted: seq<nat>, i: nat)
    requires (forall k :: 0 <= k < |accepted| ==> accepted[k] < |published|) && i < |published|
    ensures Events(published, accepted + [i]) == Events(published, accepted) + [published[i]]
  {
  }

  lemma EventsOfLonger<E>(published: seq<E>, e: E, accepted: seq<nat>)
    requires forall k :: 0 <= k < |accepted| ==> accepted[k] < |published|
    ensures Events(published + [e], accepted) == Events(published, accepted)
  {
  }

  ghost predicate ChannelOk<E>(c: Channel<E>, published: seq<E>, sending: map<nat, set<nat>>, ch: nat) {
    ContentsOk(c, published) && AccountedFor(c, |published|, sending, ch)
  }

  /** The offered event moves from pending to accepted, or to missed. */
  lemma OfferKeeps<E>(c: Channel<E>, published: seq<E>, sending: map<nat, set<nat>>, ch: nat, i: nat)
    requires ChannelOk(c, published, sending, ch)
    requires Pending(sending, i, ch) && c.from <= i < |published| && c.until.None?
    ensures ChannelOk(Offer(c, i, published[i]), published, sending[i := sending[i] - {ch}], ch)
  {
    var after, sending' := Offer(c, i, published[i]), sending[i := sending[i] - {ch}];
    SendLeavesPending(sending, i, ch);
    assert i !in c.accepted && i !in c.missed;
    EventsAppend(published, c.accepted, i);
    assert c.received + (c.buffer + [published[i]]) == (c.received + c.buffer) + [published[i]];
    forall j: nat | c.from <= j < Reach(c, |published|)
      ensures j in after.accepted || j in after.missed || Pending(sending', j, ch)
    {
      if j == i && |c.buffer| < CAPACITY {
        assert after.accepted[|c.accepted|] == i;
      }
      if j in c.accepted && |c.buffer| < CAPACITY {
        assert j in c.accepted + [i];
      }
    }
  }

  lemma SamePending<E>(c: Channel<E>, published: seq<E>, before: map<nat, set<nat>>, after: map<nat, set<nat>>, ch: nat)
    requires ChannelOk(c, published, before, ch)
    requires forall i :: Pending(after, i, ch) <==> Pending(before, i, ch)
    ensures ChannelOk(c, published, after, ch)
  {
  }

  /** A new publication is pending for the channels still subscribed, and out of reach of the others. */
  lemma PublishKeeps<E>(c: Channel<E>, published: seq<E>, e: E, sending: map<nat, set<nat>>, subscribers: set<nat>, ch: nat)
    requires ChannelOk(c, published, sending, ch) && (ch in subscribers <==> c.until.None?)
    requires forall i :: i in sending ==> i < |published|
    ensures ChannelOk(c, published + [e], sending[|published| := subscribers], ch)
  {
    var after := sending[|published| := subscribers];
    EventsOfLonger(published, e, c.accepted);
    assert forall i :: i != |published| ==> (Pending(after, i, ch) <==> Pending(sending, i, ch));
    assert |published| !in c.accepted;
    assert ch in subscribers ==> Pending(after, |published|, ch);
  }

  lemma StepKeepsChannels<E>(s: State<E>, step: Step<E>)
    requires Inv(s) && Enabled(s, step, false)
    ensures ChannelsOk(Apply(s, step))
  {
    var t := Apply(s, step);
    forall ch | ch in t.channels ensures ChannelOk(t.channels[ch], t.published, t.sending, ch) {
      if ch in s.channels {
        assert ChannelOk(s.channels[ch], s.published, s.sending, ch);
        StepKeepsChannel(s, step, ch);
      }
    }
  }

  lemma StepKeepsChannel<E>(s: State<E>, step: Step<E>, ch: nat)
    requires LockOk(s) && Enabled(s, step, false) && ch in s.channels
    requires ChannelOk(s.channels[ch], s.published, s.sending, ch)
    ensures var t := Apply(s, step); ch in t.channels && ChannelOk(t.channels[ch], t.published, t.sending, ch)
  {
    var c := s.channels[ch];
    match step
    case Subscribe(_) =>
    case Deregister(_) =>
    case Close(_) =>
    case Publish(e) =>
      PublishKeeps(c, s.published, e, s.sending, s.subscribers, ch);
    case Send(i, d) =>
      assert Pending(s.sending, i, d);
      SendLeavesPending(s.sending, i, d);
      if d == ch {
        OfferKeeps(c, s.published, s.sending, ch, i);
      } else {
        SamePending(c, s.published, s.sending, s.sending[i := s.sending[i] - {d}], ch);
      }
    case EndPublish(i) =>
      EndLeavesPending(s.sending, i);
      SamePending(c, s.published, s.sending, s.sending - {i}, ch);
    case Receive(d) =>
      if d == ch {
        assert c.received + [c.buffer[0]] + c.buffer[1..] == c.received + c.buffer;
      }
  }

  lemma {:induction false} ReachableInv<E>(steps: seq<Step<E>>, serial: bool)
    requires Exec(steps, serial).Some?
    ensures Inv(Exec(steps, serial).value)
  {
    if steps != [] {
      var before := Exec(steps[..|steps| - 1], serial).value;
      ReachableInv(steps[..|steps| - 1], serial);
      StepKeepsLock(before, steps[|steps| - 1]);
      StepKeepsChannels(before, steps[|steps| - 1]);
    }
  }

  // ---------------------------------------------------------------- every run

  /** In every interleaving no event is ever sent on a closed channel, and what a subscriber has
      received or can still receive is made of events published during its subscription, none twice;
      each of those is accounted for: put in its channel, missed, or still to be offered. */
  lemma EveryRunSafe<E>(steps: seq<Step<E>>, serial: bool, ch: nat)
    requires Exec(steps, serial).Some?
    ensures var s := Exec(steps, serial).value;
            && !s.panicked
            && (ch in s.channels ==>
                  ContentsOk(s.channels[ch], s.published)
                  && AccountedFor(s.channels[ch], |s.published|, s.sending, ch))
  {
    ReachableInv(steps, serial);
  }

  /** The run's first `k` steps leave channel `ch` with 64 unread events. */
  ghost predicate FullAfter<E>(steps: seq<Step<E>>, serial: bool, k: nat, ch: nat)
    requires k <= |steps|
  {
    match Exec(steps[..k], serial)
    case None => false
    case Some(s) => ch in s.channels && |s.channels[ch].buffer| == 64
  }

  /** Step `k` of the run is the send of event `i` to `ch`, and finds the channel full. */
  ghost predicate SentWhenFull<E>(steps: seq<Step<E>>, serial: bool, k: nat, ch: nat, i: nat) {
    k < |steps| && steps[k] == Send(i, ch) && FullAfter(steps, serial, k, ch)
  }

  ghost predicate Missed<E>(s: State<E>, ch: nat, i: nat) {
    ch in s.channels && i in s.channels[ch].missed
  }

  lemma MissedStep<E>(s: State<E>, step: Step<E>, ch: nat, i: nat)
    requires Inv(s) && Enabled(s, step, false)
    ensures Missed(Apply(s, step), ch, i) <==>
            Missed(s, ch, i) || (step == Send(i, ch) && |s.channels[ch].buffer| == CAPACITY)
  {
    match step
    case Subscribe(_) =>
    case Deregister(_) =>
    case Close(_) =>
    case Publish(_) =>
    case Send(_, d) =>
      assert d in s.channels && |s.channels[d].buffer| <= CAPACITY;
      SendKeepsLock(s, step.i, d);
    case EndPublish(_) =>
    case Receive(_) =>
  }

  lemma EarlierSends<E>(steps: seq<Step<E>>, serial: bool, ch: nat, i: nat)
    requires steps != []
    ensures var n := |steps| - 1;
            (exists k :: SentWhenFull(steps, serial, k, ch, i)) <==>
            SentWhenFull(steps, serial, n, ch, i) || exists k :: SentWhenFull(steps[..n], serial, k, ch, i)
  {
    var n := |steps| - 1;
    forall k: nat | k < n ensures SentWhenFull(steps, serial, k, ch, i) == SentWhenFull(steps[..n], serial, k, ch, i) {
      assert steps[..n][..k] == steps[..k];
    }
  }

  /** In every run a subscriber has missed exactly the events whose send to it found 64 unread. */
  lemma {:induction false} MissedExactlyWhenFull<E>(steps: seq<Step<E>>, serial: bool, ch: nat, i: nat)
    requires Exec(steps, serial).Some?
    ensures Missed(Exec(steps, serial).value, ch, i) <==> exists k :: SentWhenFull(steps, serial, k, ch, i)
  {
    if steps != [] {
      var n := |steps| - 1;
      var pre, before := steps[..n], Exec(steps[..n], serial).value;
      ReachableInv(pre, serial);
      MissedStep(before, steps[n], ch, i);
      MissedExactlyWhenFull(pre, serial, ch, i);
      EarlierSends(steps, serial, ch, i);
      assert SentWhenFull(steps, serial, n, ch, i) <==>
             steps[n] == Send(i, ch) && |before.channels[ch].buffer| == CAPACITY;
    }
  }

  ghost predicate Ascending(s: seq<nat>) {
    forall i, j :: 0 <= i < j < |s| ==> s[i] < s[j]
  }

  /** With serialised publications only the newest one is in progress, and each channel's numbers
      ascend and stay below it while it is pending. */
  ghost predicate Serial<E>(s: State<E>) {
    && (forall i :: i in s.sending ==> i == |s.published| - 1)
    && (forall ch :: ch in s.channels ==> Ascending(s.channels[ch].accepted))
  }

  lemma AscendingAppend(s: seq<nat>, i: nat)
    requires Ascending(s) && i !in s && forall k :: 0 <= k < |s| ==> s[k] <= i
    ensures Ascending(s + [i])
  {
    assert forall k :: 0 <= k < |s| ==> s[k] in s;
  }

  lemma StepKeepsSerial<E>(s: State<E>, step: Step<E>)
    requires Inv(s) && Serial(s) && Enabled(s, step, true)
    ensures Serial(Apply(s, step))
  {
    if step.Send? {
      var c := s.channels[step.ch];
      assert Pending(s.sending, step.i, step.ch);
      assert ContentsOk(c, s.published) && AccountedFor(c, |s.published|, s.sending, step.ch);
      AscendingAppend(c.accepted, step.i);
    }
  }

  lemma {:induction false} SerialRun<E>(steps: seq<Step<E>>)
    requires Exec(steps, true).Some?
    ensures Serial(Exec(steps, true).value)
  {
    if steps != [] {
      ReachableInv(steps[..|steps| - 1], true);
      SerialRun(steps[..|steps| - 1]);
      StepKeepsSerial(Exec(steps[..|steps| - 1], true).value, steps[|steps| - 1]);
    }
  }

  /** With serialised publications each subscriber sees an in-order subsequence of what was published
      while it was subscribed. */
  lemma SubscriberSeesSubsequence<E>(steps: seq<Step<E>>, ch: nat)
    requires Exec(steps, true).Some? && ch in Exec(steps, true).value.channels
    ensures var s := Exec(steps, true).value;
            var c := s.channels[ch];
            && Ascending(c.accepted)
            && Reach(c, |s.published|) <= |s.published|
            && (forall k :: 0 <= k < |c.accepted| ==> c.from <= c.accepted[k] < Reach(c, |s.published|))
            && |c.received| <= |c.accepted|
            && forall k :: 0 <= k < |c.received| ==> c.received[k] == s.published[c.accepted[k]]
  {
    SerialRun(steps);
    ReachableInv(steps, true);
    var s := Exec(steps, true).value;
    var c := s.channels[ch];
    assert ContentsOk(c, s.published);
    forall k | 0 <= k < |c.received| ensures c.received[k] == s.published[c.accepted[k]] {
      assert (c.received + c.buffer)[k] == c.received[k];
    }
  }

  /** Ascending numbers that fill an interval are the interval. */
  lemma {:induction false} AscendingInterval(s: seq<nat>, lo: nat, hi: nat)
    requires Ascending(s) && lo <= hi && forall i: nat :: i in s <==> lo <= i < hi
    ensures |s| == hi - lo && forall k :: 0 <= k < |s| ==> s[k] == lo + k
  {
    assert s != [] ==> s[0] in s;
    if lo < hi {
      var n := |s| - 1;
      assert hi - 1 in s;
      var j :| 0 <= j < |s| && s[j] == hi - 1;
      assert s[n] in s;
      forall i: nat ensures i in s[..n] <==> lo <= i < hi - 1 {
        assert i in s <==> i in s[..n] || i == s[n];
      }
      AscendingInterval(s[..n], lo, hi - 1);
    }
  }

  lemma AllAccepted<E>(c: Channel<E>, published: seq<E>, sending: map<nat, set<nat>>, ch: nat)
    requires ChannelOk(c, published, sending, ch) && Ascending(c.accepted)
    requires c.missed == {} && forall i :: !Pending(sending, i, ch)
    ensures c.received + c.buffer == published[c.from..Reach(c, |published|)]
  {
    AscendingInterval(c.accepted, c.from, Reach(c, |published|));
  }

  /** With serialised publications, a subscriber that missed nothing has been handed, in order, exactly
      the events published during its subscription, once none is being published. */
  lemma NothingMissedAllSeen<E>(steps: seq<Step<E>>, ch: nat)
    requires Exec(steps, true).Some? && ch in Exec(steps, true).value.channels
    requires Exec(steps, true).value.sending == map[] && Exec(steps, true).value.channels[ch].missed == {}
    ensures var s := Exec(steps, true).value;
            var c := s.channels[ch];
            && c.from <= Reach(c, |s.published|) <= |s.published|
            && c.received + c.buffer == s.published[c.from..Reach(c, |s.published|)]
  {
    SerialRun(steps);
    ReachableInv(steps, true);
    var s := Exec(steps, true).value;
    var c := s.channels[ch];
    assert ChannelOk(c, s.published, s.sending, ch);
    AllAccepted(c, s.published, s.sending, ch);
  }
}
