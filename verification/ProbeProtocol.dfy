/** The probe protocol over the shared waiter map: NotifyProbeReceipt and probe in
    internal/whatsapp/activitytracker.go. Each step is one critical section, channel operation or
    return from a call; any number of probes and receipt handlers interleave. */
module ProbeProtocol {
  import opened Common

  /** Where one probe is. The three "…ing" phases have left the select or the send, and still have
      to delete their entry from the waiter map. */
  datatype Phase =
    | Sending | Waiting | SendFailing | TimingOut | Cancelling
    | Received(rtt: int) | SendFailed | TimedOut | Cancelled

  predicate Ended(p: Phase) {
    p.Received? || p.SendFailed? || p.TimedOut? || p.Cancelled?
  }

  /** A probe's channel of capacity one, with counts of the sends that were accepted and dropped. */
  datatype Channel = Channel(buffer: Option<int>, accepted: nat, dropped: nat)

  /** `inFlight` counts, per probe, the receipt handlers that removed its waiter and have yet to send. */
  datatype State<!Id(==)> = State(
    waiters: set<Id>,
    phases: map<Id, Phase>,
    channels: map<Id, Channel>,
    inFlight: multiset<Id>)

  datatype Step<Id> =
    | Begin(id: Id)              // register the waiter
    | SendOk(id: Id)
    | SendError(id: Id)
    | Receipt(id: Id)            // NotifyProbeReceipt's critical section
    | Deliver(id: Id, rtt: int)  // its non-blocking send
    | Receive(id: Id)            // the three arms of probe's select
    | Timeout(id: Id)
    | Cancel(id: Id)
    | Remove(id: Id)             // the delete after a send error, a timeout or a cancellation

  predicate InPhase<Id>(s: State<Id>, id: Id, p: Phase) {
    id in s.phases && s.phases[id] == p
  }

  predicate Enabled<Id>(s: State<Id>, step: Step<Id>) {
    match step
    case Begin(id) => id !in s.phases && id !in s.channels
    case SendOk(id) => InPhase(s, id, Sending)
    case SendError(id) => InPhase(s, id, Sending)
    case Receipt(_) => true
    case Deliver(id, _) => s.inFlight[id] > 0 && id in s.channels
    case Receive(id) => InPhase(s, id, Waiting) && id in s.channels && s.channels[id].buffer.Some?
    case Timeout(id) => InPhase(s, id, Waiting)
    case Cancel(id) => InPhase(s, id, Waiting)
    case Remove(id) => InPhase(s, id, SendFailing) || InPhase(s, id, TimingOut) || InPhase(s, id, Cancelling)
  }

  function Apply<Id>(s: State<Id>, step: Step<Id>): State<Id>
    requires Enabled(s, step)
  {
    match step
    case Begin(id) =>
      s.(waiters := s.waiters + {id},
         phases := s.phases[id := Sending],
         channels := s.channels[id := Channel(None, 0, 0)])
    case SendOk(id) => s.(phases := s.phases[id := Waiting])
    case SendError(id) => s.(phases := s.phases[id := SendFailing])
    case Receipt(id) =>
      if id in s.waiters then s.(waiters := s.waiters - {id}, inFlight := s.inFlight + multiset{id}) else s
    case Deliver(id, rtt) =>
      var ch := s.channels[id];
      var after := if ch.buffer.None? then Channel(Some(rtt), ch.accepted + 1, ch.dropped)
                   else ch.(dropped := ch.dropped + 1);
      s.(inFlight := s.inFlight - multiset{id}, channels := s.channels[id := after])
    case Receive(id) =>
      var ch := s.channels[id];
      s.(phases := s.phases[id := Received(ch.buffer.value)],
         channels := s.channels[id := ch.(buffer := None)])
    case Timeout(id) => s.(phases := s.phases[id := TimingOut])
    case Cancel(id) => s.(phases := s.phases[id := Cancelling])
    case Remove(id) =>
      var p := s.phases[id];
      s.(waiters := s.waiters - {id},
         phases := s.phases[id := if p.SendFailing? then SendFailed else if p.TimingOut? then TimedOut else Cancelled])
  }

  function Init<Id>(): State<Id> {
    State({}, map[], map[], multiset{})
  }

  /** The state after a run, or None when some step was not enabled. */
  function Exec<Id>(steps: seq<Step<Id>>): Option<State<Id>> {
    if steps == [] then Some(Init())
    else
      match Exec(steps[..|steps| - 1])
      case None => None
      case Some(s) => if Enabled(s, steps[|steps| - 1]) then Some(Apply(s, steps[|steps| - 1])) else None
  }

  // ---------------------------------------------------------------- the invariant

  /** One probe's part of the invariant. A receipt is a token: it is in the waiter map, or in the
      hands of one handler, or spent on the channel, and there is at most one. */
  ghost predicate ProbeOk(waiting: bool, p: Phase, ch: Channel, inFlight: nat) {
    && ch.dropped == 0
    && (if waiting then 1 else 0) + inFlight + ch.accepted <= 1
    && (waiting ==> !Ended(p))
    && (!waiting && !Ended(p) ==> inFlight + ch.accepted == 1)
    && (p.Received? ==> ch.accepted == 1 && ch.buffer.None?)
    && (!p.Received? ==> (ch.buffer.Some? <==> ch.accepted == 1))
  }

  ghost predicate Inv<Id(!new)>(s: State<Id>) {
    && s.channels.Keys == s.phases.Keys
    && (forall id :: id in s.waiters || id in s.inFlight ==> id in s.phases)
    && (forall id :: id in s.phases ==> ProbeOk(id in s.waiters, s.phases[id], s.channels[id], s.inFlight[id]))
  }

  ghost predicate OkAt<Id>(s: State<Id>, id: Id) {
    id in s.phases && id in s.channels && ProbeOk(id in s.waiters, s.phases[id], s.channels[id], s.inFlight[id])
  }

  lemma StepKeepsOwn<Id(!new)>(s: State<Id>, step: Step<Id>)
    requires Inv(s) && Enabled(s, step)
    ensures step.id in Apply(s, step).phases ==> OkAt(Apply(s, step), step.id)
  {
    if step.id in s.phases {
      assert OkAt(s, step.id);
    }
  }

  lemma StepKeepsInv<Id(!new)>(s: State<Id>, step: Step<Id>)
    requires Inv(s) && Enabled(s, step)
    ensures Inv(Apply(s, step))
  {
    var t := Apply(s, step);
    StepKeepsOwn(s, step);
    StepLeavesOthers(s, step);
    forall id | id in t.phases ensures OkAt(t, id) {
      if id != step.id {
        assert OkAt(s, id);
      }
    }
  }

  lemma StepLeavesOthers<Id(!new)>(s: State<Id>, step: Step<Id>)
    requires Inv(s) && Enabled(s, step)
    ensures var t := Apply(s, step);
            && t.channels.Keys == t.phases.Keys && s.phases.Keys <= t.phases.Keys <= s.phases.Keys + {step.id}
            && forall id :: id != step.id ==>
                 && (id in t.waiters <==> id in s.waiters) && t.inFlight[id] == s.inFlight[id]
                 && (id in s.phases ==> t.phases[id] == s.phases[id] && t.channels[id] == s.channels[id])
  {
  }

  lemma {:induction false} ReachableInv<Id(!new)>(steps: seq<Step<Id>>)
    requires Exec(steps).Some?
    ensures Inv(Exec(steps).value)
  {
    if steps != [] {
      var before := steps[..|steps| - 1];
      ReachableInv(before);
      StepKeepsInv(Exec(before).value, steps[|steps| - 1]);
    }
  }

  // ---------------------------------------------------------------- safety over every run

  function Sends<Id(==)>(steps: seq<Step<Id>>, id: Id): nat {
    if steps == [] then 0
    else
      var last := steps[|steps| - 1];
      Sends(steps[..|steps| - 1], id) + (if last.Deliver? && last.id == id then 1 else 0)
  }

  /** Sends accepted or dropped by `id`'s channel. */
  function Attempts<Id>(s: State<Id>, id: Id): nat {
    if id in s.channels then s.channels[id].accepted + s.channels[id].dropped else 0
  }

  lemma StepAttempts<Id(!new)>(s: State<Id>, step: Step<Id>, id: Id)
    requires Enabled(s, step)
    ensures Attempts(Apply(s, step), id) == Attempts(s, id) + (if step.Deliver? && step.id == id then 1 else 0)
  {
  }

  lemma {:induction false} SendsCounted<Id(!new)>(steps: seq<Step<Id>>, id: Id)
    requires Exec(steps).Some?
    ensures Sends(steps, id) == Attempts(Exec(steps).value, id)
  {
    if steps != [] {
      var before := steps[..|steps| - 1];
      SendsCounted(before, id);
      StepAttempts(Exec(before).value, steps[|steps| - 1], id);
    }
  }

  /** In every interleaving: each probe's channel is sent at most one value and none is dropped; an
      ended probe is out of the waiter map; and a probe still waiting whose receipt was taken and
      whose handler has sent can always receive, so no wake-up is lost. */
  lemma EveryRunSafe<Id(!new)>(steps: seq<Step<Id>>, id: Id)
    requires Exec(steps).Some? && id in Exec(steps).value.phases
    ensures var s := Exec(steps).value;
            && Sends(steps, id) <= 1
            && id in s.channels && s.channels[id].dropped == 0
            && (Ended(s.phases[id]) ==> id !in s.waiters)
            && (InPhase(s, id, Waiting) && id !in s.waiters && s.inFlight[id] == 0 ==> Enabled(s, Receive(id)))
  {
    ReachableInv(steps);
    SendsCounted(steps, id);
    var s := Exec(steps).value;
    assert ProbeOk(id in s.waiters, s.phases[id], s.channels[id], s.inFlight[id]);
  }

  /** When every probe has ended the waiter map is empty: nothing leaks. */
  lemma AllEndedNoWaiters<Id(!new)>(steps: seq<Step<Id>>)
    requires Exec(steps).Some?
    requires forall id :: id in Exec(steps).value.phases ==> Ended(Exec(steps).value.phases[id])
    ensures Exec(steps).value.waiters == {}
  {
    ReachableInv(steps);
    var s := Exec(steps).value;
    forall id ensures id !in s.waiters {
      if id in s.phases {
        assert ProbeOk(id in s.waiters, s.phases[id], s.channels[id], s.inFlight[id]);
      }
    }
  }

  ghost predicate Delivered<Id>(steps: seq<Step<Id>>, id: Id, rtt: int) {
    exists i :: 0 <= i < |steps| && steps[i] == Deliver(id, rtt)
  }

  ghost predicate ReceiptTaken<Id>(steps: seq<Step<Id>>, id: Id) {
    exists i :: 0 <= i < |steps| && steps[i] == Receipt(id)
  }

  /** A probe reports a round-trip time only if that very value was sent to it, after a receipt
      carrying its ID was handled. */
  lemma {:induction false} ReceivedWasDelivered<Id(!new)>(steps: seq<Step<Id>>, id: Id)
    requires Exec(steps).Some?
    ensures var s := Exec(steps).value;
            && (id in s.inFlight ==> ReceiptTaken(steps, id))
            && (id in s.channels && s.channels[id].buffer.Some? ==>
                  ReceiptTaken(steps, id) && Delivered(steps, id, s.channels[id].buffer.value))
            && (id in s.phases && s.phases[id].Received? ==>
                  ReceiptTaken(steps, id) && Delivered(steps, id, s.phases[id].rtt))
  {
    if steps != [] {
      var n := |steps| - 1;
      var before := steps[..n];
      ReceivedWasDelivered(before, id);
      ReachableInv(before);
      PrefixFacts(steps, id);
      if steps[n].Receipt? && steps[n].id == id {
        assert steps[n] == Receipt(id);
      }
      if steps[n].Deliver? && steps[n].id == id {
        assert steps[n] == Deliver(id, steps[n].rtt);
      }
    }
  }

  lemma PrefixFacts<Id(!new)>(steps: seq<Step<Id>>, id: Id)
    requires steps != []
    ensures var before := steps[..|steps| - 1];
            && (ReceiptTaken(before, id) ==> ReceiptTaken(steps, id))
            && forall rtt :: Delivered(before, id, rtt) ==> Delivered(steps, id, rtt)
  {
    var before := steps[..|steps| - 1];
    assert forall i :: 0 <= i < |before| ==> before[i] == steps[i];
  }

  lemma EndedStays<Id(!new)>(s: State<Id>, step: Step<Id>, id: Id)
    requires Enabled(s, step) && id in s.phases && Ended(s.phases[id])
    ensures InPhase(Apply(s, step), id, s.phases[id])
  {
  }

  /** A probe ends once: no later step of any kind, late and duplicate receipts included, changes
      how it ended. */
  lemma {:induction false} EndsOnce<Id(!new)>(steps: seq<Step<Id>>, more: seq<Step<Id>>, id: Id)
    requires Exec(steps).Some? && Exec(steps + more).Some?
    requires id in Exec(steps).value.phases && Ended(Exec(steps).value.phases[id])
    ensures InPhase(Exec(steps + more).value, id, Exec(steps).value.phases[id])
  {
    if more == [] {
      assert steps + more == steps;
    } else {
      var n := |more| - 1;
      assert (steps + more)[..|steps + more| - 1] == steps + more[..n];
      EndsOnce(steps, more[..n], id);
      EndedStays(Exec(steps + more[..n]).value, more[n], id);
    }
  }

  ghost predicate Happened<Id>(steps: seq<Step<Id>>, step: Step<Id>) {
    exists i :: 0 <= i < |steps| && steps[i] == step
  }

  lemma HappenedBefore<Id>(steps: seq<Step<Id>>, step: Step<Id>)
    requires steps != []
    ensures Happened(steps, step) <==> Happened(steps[..|steps| - 1], step) || steps[|steps| - 1] == step
  {
    if Happened(steps[..|steps| - 1], step) {
      var i :| 0 <= i < |steps| - 1 && steps[..|steps| - 1][i] == step;
      assert steps[i] == step;
    }
  }

  /** How a probe ended says what happened to it: a failed send, the timeout or the cancellation. */
  lemma {:induction false} EndedForItsReason<Id(!new)>(steps: seq<Step<Id>>, id: Id)
    requires Exec(steps).Some? && id in Exec(steps).value.phases
    ensures var p := Exec(steps).value.phases[id];
            && (p == SendFailed || p == SendFailing ==> Happened(steps, SendError(id)))
            && (p == TimedOut || p == TimingOut ==> Happened(steps, Timeout(id)))
            && (p == Cancelled || p == Cancelling ==> Happened(steps, Cancel(id)))
  {
    if steps != [] {
      var before := steps[..|steps| - 1];
      HappenedBefore(steps, SendError(id));
      HappenedBefore(steps, Timeout(id));
      HappenedBefore(steps, Cancel(id));
      if id in Exec(before).value.phases {
        EndedForItsReason(before, id);
      }
    }
  }
}
