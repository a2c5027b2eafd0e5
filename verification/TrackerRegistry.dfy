/** The registry of activity trackers and their sessions: StartTracker, StopTracker,
    StopAllTrackers and StartTrackersBulk in internal/whatsapp/activitytracker.go. */
module TrackerRegistry {
  import opened Common

  // ---------------------------------------------------------------- every interleaving

  /** `live` is atTrackers, by JID; `stopping` the sessions of removed trackers whose close is still
      to be issued (that happens outside the lock); `closed` the closes issued. */
  datatype State<!K(==), !S(==)> = State(
    live: map<K, S>,
    created: set<S>,
    stopping: multiset<S>,
    closed: multiset<S>)

  datatype Step<K, S> =
    | Start(key: K, answer: Option<S>)  // None: the session could not be created
    | StopOne(key: K)
    | StopAll
    | Close(session: S)

  /** A new session has an ID of its own. */
  predicate Enabled<K, S>(s: State<K, S>, step: Step<K, S>) {
    match step
    case Start(_, answer) => answer.None? || answer.value !in s.created
    case StopOne(_) => true
    case StopAll => true
    case Close(session) => session in s.stopping
  }

  ghost function Sessions<K, S>(live: map<K, S>): set<S> {
    live.Values
  }

  ghost function Apply<K, S>(s: State<K, S>, step: Step<K, S>): State<K, S> {
    match step
    case Start(key, answer) =>
      if key in s.live || answer.None? then s
      else s.(live := s.live[key := answer.value], created := s.created + {answer.value})
    case StopOne(key) =>
      if key !in s.live then s
      else s.(live := s.live - {key}, stopping := s.stopping + multiset{s.live[key]})
    case StopAll => s.(live := map[], stopping := s.stopping + multiset(Sessions(s.live)))
    case Close(session) =>
      s.(stopping := s.stopping - multiset{session}, closed := s.closed + multiset{session})
  }

  function Init<K, S>(): State<K, S> {
    State(map[], {}, multiset{}, multiset{})
  }

  ghost function Exec<K, S>(steps: seq<Step<K, S>>): Option<State<K, S>> {
    if steps == [] then Some(Init())
    else
      match Exec(steps[..|steps| - 1])
      case None => None
      case Some(s) => if Enabled(s, steps[|steps| - 1]) then Some(Apply(s, steps[|steps| - 1])) else None
  }

  /** No two trackers share a session. */
  ghost predicate Separate<K, S>(live: map<K, S>) {
    forall k, l :: k in live && l in live && live[k] == live[l] ==> k == l
  }

  /** Each created session is at exactly one place: live, removed and to be closed, or closed. */
  ghost predicate Inv<K, S(!new)>(s: State<K, S>) {
    && Separate(s.live)
    && forall x {:trigger x in s.created} ::
         (if x in Sessions(s.live) then 1 else 0) + s.stopping[x] + s.closed[x] == if x in s.created then 1 else 0
  }

  lemma SessionsOf<K, S>(live: map<K, S>, key: K, session: S)
    ensures key !in live ==> Sessions(live[key := session]) == Sessions(live) + {session}
    ensures key in live && Separate(live) ==> Sessions(live - {key}) == Sessions(live) - {live[key]}
  {
    if key !in live {
      assert live[key := session][key] == session;
      forall x | x in Sessions(live) ensures x in Sessions(live[key := session]) {
        var k :| k in live && live[k] == x;
        assert live[key := session][k] == x;
      }
    } else if Separate(live) {
      forall x | x in Sessions(live) - {live[key]} ensures x in Sessions(live - {key}) {
        var k :| k in live && live[k] == x;
        assert k in live - {key} && (live - {key})[k] == x;
      }
    }
  }

  lemma StartKeepsInv<K, S(!new)>(s: State<K, S>, key: K, answer: Option<S>)
    requires Inv(s) && Enabled(s, Start(key, answer))
    ensures Inv(Apply(s, Start(key, answer)))
  {
    if key !in s.live && answer.Some? {
      SessionsOf(s.live, key, answer.value);
      assert answer.value !in s.created;
    }
  }

  lemma StopOneKeepsInv<K, S(!new)>(s: State<K, S>, key: K)
    requires Inv(s)
    ensures Inv(Apply(s, StopOne(key)))
  {
    if key in s.live {
      var t := Apply(s, StopOne(key));
      SessionsOf(s.live, key, s.live[key]);
      assert s.live[key] in Sessions(s.live);
      assert forall x {:trigger x in t.created} :: t.stopping[x] == s.stopping[x] + if x == s.live[key] then 1 else 0;
    }
  }

  lemma StopAllKeepsInv<K, S(!new)>(s: State<K, S>)
    requires Inv(s)
    ensures Inv(Apply(s, StopAll))
  {
  }

  lemma CloseKeepsInv<K, S(!new)>(s: State<K, S>, session: S)
    requires Inv(s) && Enabled(s, Close(session))
    ensures Inv(Apply(s, Close(session)))
  {
  }

  lemma StepKeepsInv<K, S(!new)>(s: State<K, S>, step: Step<K, S>)
    requires Inv(s) && Enabled(s, step)
    ensures Inv(Apply(s, step))
  {
    match step
    case Start(key, answer) => StartKeepsInv(s, key, answer);
    case StopOne(key) => StopOneKeepsInv(s, key);
    case StopAll => StopAllKeepsInv(s);
    case Close(session) => CloseKeepsInv(s, session);
  }

  lemma {:induction false} ReachableInv<K, S(!new)>(steps: seq<Step<K, S>>)
    requires Exec(steps).Some?
    ensures Inv(Exec(steps).value)
  {
    if steps != [] {
      ReachableInv(steps[..|steps| - 1]);
      StepKeepsInv(Exec(steps[..|steps| - 1]).value, steps[|steps| - 1]);
    }
  }

  /** In every run: a session is closed at most once and never while its tracker is live; once the
      pending closes are issued, the closed sessions are exactly those of the removed trackers. */
  lemma SessionsClosedOnce<K, S(!new)>(steps: seq<Step<K, S>>, x: S)
    requires Exec(steps).Some?
    ensures var s := Exec(steps).value;
            && s.closed[x] <= 1
            && (x in Sessions(s.live) ==> x in s.created && s.closed[x] == 0 && s.stopping[x] == 0)
            && (s.stopping == multiset{} ==> (s.closed[x] == 1 <==> x in s.created && x !in Sessions(s.live)))
  {
    ReachableInv(steps);
    var s := Exec(steps).value;
    assert x in s.created || x !in s.created;
  }

  // ---------------------------------------------------------------- the operations themselves

  datatype Tracker = Tracker(sessionID: string, probeMethod: string)

  /** Errors are compared by their text, as isAlreadyTracking does. */
  type Error = string

  const ALREADY: string := "already tracking"

  function AlreadyError(key: string): Error { "already tracking " + key }
  function CreateError(cause: string): Error { "failed to create session: " + cause }

  predicate IsAlreadyTracking(err: Option<Error>) {
    err.Some? && |err.value| > 16 && err.value[..16] == ALREADY
  }

  /** The text test tells the two errors of StartTracker apart. */
  lemma ErrorsToldApart(key: string, cause: string)
    ensures IsAlreadyTracking(Some(AlreadyError(key)))
    ensures !IsAlreadyTracking(Some(CreateError(cause))) && !IsAlreadyTracking(None)
  {
    var err := AlreadyError(key);
    assert "already tracking " == ALREADY + " ";
    assert err[..16] == ALREADY;
    var refused := CreateError(cause);
    assert refused[..16][0] == refused[0] == 'f' && ALREADY[0] == 'a';
  }

  /** What createActivitySession answers. */
  datatype Creation = Created(sessionID: string) | Refused(cause: string)

  datatype Result = Started | Skipped | Failed

  function MethodFor(probeMethod: string): string {
    if probeMethod != "delete" && probeMethod != "reaction" then "delete" else probeMethod
  }

  /** The sessions of the trackers with the given keys. */
  ghost function SessionsIn<K>(order: seq<K>, trackers: map<K, Tracker>): seq<string> {
    if order == [] then []
    else
      var key := order[|order| - 1];
      SessionsIn(order[..|order| - 1], trackers) + (if key in trackers then [trackers[key].sessionID] else [])
  }

  lemma SessionsAppend<K>(order: seq<K>, key: K, trackers: map<K, Tracker>)
    requires key in trackers
    ensures SessionsIn(order + [key], trackers) == SessionsIn(order, trackers) + [trackers[key].sessionID]
  {
    assert (order + [key])[..|order|] == order;
  }

  /** `start` is split into the trackers whose keys `order` lists and those `left`. */
  ghost predicate Splits<K(!new)>(order: seq<K>, left: map<K, Tracker>, start: map<K, Tracker>) {
    && Distinct(order) && (forall k :: k in order ==> k in start && k !in left)
    && (forall k :: k in start <==> k in order || k in left)
    && (forall k :: k in left ==> k in start && left[k] == start[k])
  }

  lemma SplitsStep<K(!new)>(order: seq<K>, left: map<K, Tracker>, start: map<K, Tracker>, key: K)
    requires Splits(order, left, start) && key in left
    ensures Splits(order + [key], left - {key}, start)
  {
  }

  /** A session was created for `jid` at one of the first `n` places. */
  ghost predicate StartedBefore(jids: seq<string>, answers: seq<Creation>, n: nat, jid: string) {
    exists j :: 0 <= j < n && j < |jids| && j < |answers| && jids[j] == jid && answers[j].Created?
  }

  /** The JID at place `i` is not tracked when its turn comes, and its session is created … */
  ghost predicate Starts(known: set<string>, jids: seq<string>, answers: seq<Creation>, i: nat) {
    i < |jids| && i < |answers| && jids[i] !in known && !StartedBefore(jids, answers, i, jids[i]) && answers[i].Created?
  }

  /** … or cannot be. */
  ghost predicate Fails(known: set<string>, jids: seq<string>, answers: seq<Creation>, i: nat) {
    i < |jids| && i < |answers| && jids[i] !in known && !StartedBefore(jids, answers, i, jids[i]) && answers[i].Refused?
  }

  ghost function CountStarts(known: set<string>, jids: seq<string>, answers: seq<Creation>, n: nat): nat {
    if n == 0 then 0
    else CountStarts(known, jids, answers, n - 1) + (if Starts(known, jids, answers, n - 1) then 1 else 0)
  }

  ghost function CountFails(known: set<string>, jids: seq<string>, answers: seq<Creation>, n: nat): nat {
    if n == 0 then 0
    else CountFails(known, jids, answers, n - 1) + (if Fails(known, jids, answers, n - 1) then 1 else 0)
  }

  lemma StartedStep(jids: seq<string>, answers: seq<Creation>, n: nat)
    requires n < |jids| == |answers|
    ensures forall jid :: StartedBefore(jids, answers, n + 1, jid) <==>
                          StartedBefore(jids, answers, n, jid) || (jid == jids[n] && answers[n].Created?)
  {
    if answers[n].Created? {
      assert jids[n] == jids[n] && StartedBefore(jids, answers, n + 1, jids[n]);
    }
    forall jid | StartedBefore(jids, answers, n, jid) ensures StartedBefore(jids, answers, n + 1, jid) {
      var j :| 0 <= j < n && jids[j] == jid && answers[j].Created?;
      assert jids[j] == jid && answers[j].Created?;
    }
  }

  /** Tracked are the JIDs known before and those started so far. */
  ghost predicate Tracks(trackers: map<string, Tracker>, known: set<string>, jids: seq<string>, answers: seq<Creation>, n: nat) {
    forall jid :: jid in trackers <==> jid in known || StartedBefore(jids, answers, n, jid)
  }

  lemma TracksStep(trackers: map<string, Tracker>, known: set<string>, jids: seq<string>, answers: seq<Creation>, n: nat,
                   probeMethod: string)
    requires n < |jids| == |answers| && Tracks(trackers, known, jids, answers, n)
    ensures Tracks(AddOne(trackers, jids[n], TrackerFor(answers[n], probeMethod)), known, jids, answers, n + 1)
    ensures Starts(known, jids, answers, n) <==> jids[n] !in trackers && answers[n].Created?
    ensures Fails(known, jids, answers, n) <==> jids[n] !in trackers && answers[n].Refused?
  {
    StartedStep(jids, answers, n);
  }

  /** What holds after the first `n` JIDs of a bulk start. */
  ghost predicate Bulk(before: map<string, Tracker>, now: map<string, Tracker>, jids: seq<string>, answers: seq<Creation>,
                       probeMethod: string, n: nat, started: nat, failed: nat)
  {
    && n <= |jids| == |answers|
    && now == AddAll(before, jids[..n], TrackersFor(answers, probeMethod)[..n])
    && |now| == |before| + started
    && started == CountStarts(before.Keys, jids, answers, n) && failed == CountFails(before.Keys, jids, answers, n)
    && Tracks(now, before.Keys, jids, answers, n)
  }

  lemma BulkStep(before: map<string, Tracker>, now: map<string, Tracker>, jids: seq<string>, answers: seq<Creation>,
                 probeMethod: string, n: nat, started: nat, failed: nat)
    requires Bulk(before, now, jids, answers, probeMethod, n, started, failed) && n < |jids|
    ensures Bulk(before, AddOne(now, jids[n], TrackerFor(answers[n], probeMethod)), jids, answers, probeMethod, n + 1,
                 started + (if jids[n] !in now && answers[n].Created? then 1 else 0),
                 failed + (if jids[n] !in now && answers[n].Refused? then 1 else 0))
  {
    AddAllStep(before, jids, TrackersFor(answers, probeMethod), n);
    TracksStep(now, before.Keys, jids, answers, n, probeMethod);
  }

  lemma BulkEnd(before: map<string, Tracker>, now: map<string, Tracker>, jids: seq<string>, answers: seq<Creation>,
                probeMethod: string, started: nat, failed: nat)
    requires Bulk(before, now, jids, answers, probeMethod, |jids|, started, failed)
    ensures now == AddAll(before, jids, TrackersFor(answers, probeMethod))
  {
    assert jids[..|jids|] == jids;
    assert TrackersFor(answers, probeMethod)[..|jids|] == TrackersFor(answers, probeMethod);
  }

  /** "delete" unless "reaction" was asked for. */
  lemma MethodForMeaning(probeMethod: string)
    ensures MethodFor(probeMethod) == "reaction" <==> probeMethod == "reaction"
    ensures MethodFor(probeMethod) == "delete" <==> probeMethod != "reaction"
  {
    assert |"delete"| != |"reaction"|;
  }

  class Registry {
    var trackers: map<string, Tracker>
    var closed: seq<string>   // sessions closed, in order

    constructor ()
      ensures trackers == map[] && closed == []
    {
      trackers, closed := map[], [];
    }

    method StartTracker(jid: string, probeMethod: string, answer: Creation)
      returns (session: string, err: Option<Error>)
      modifies this`trackers
      ensures jid in old(trackers) ==> err == Some("already tracking " + jid) && trackers == old(trackers)
      ensures jid !in old(trackers) && answer.Refused? ==> err == Some("failed to create session: " + answer.cause) && trackers == old(trackers)
      ensures jid !in old(trackers) && answer.Created? ==>
                && err == None && session == answer.sessionID
                && trackers == old(trackers)[jid := Tracker(answer.sessionID, MethodFor(probeMethod))]
    {
      if jid in trackers {
        return "", Some(AlreadyError(jid));
      }
      if answer.Refused? {
        return "", Some(CreateError(answer.cause));
      }
      trackers := trackers[jid := Tracker(answer.sessionID, MethodFor(probeMethod))];
      return answer.sessionID, None;
    }

    method StopTracker(jid: string) returns (err: Option<Error>)
      modifies this
      ensures err.None? <==> jid in old(trackers)
      ensures trackers == old(trackers) - {jid}
      ensures closed == old(closed) + if jid in old(trackers) then [old(trackers)[jid].sessionID] else []
    {
      if jid !in trackers {
        return Some("not tracking " + jid);
      }
      var t := trackers[jid];
      trackers := trackers - {jid};
      closed := closed + [t.sessionID];
      return None;
    }

    /** Removes every tracker, and closes the session of each exactly once. */
    method StopAllTrackers()
      modifies this
      ensures trackers == map[]
      ensures exists order: seq<string> ::
                && Distinct(order) && (forall k :: k in order <==> k in old(trackers))
                && closed == old(closed) + SessionsIn(order, old(trackers))
    {
      var removed := trackers;
      trackers := map[];
      ghost var order := CloseSessions(removed);
      assert Splits(order, map[], removed);
    }

    /** The loop over the removed trackers; `order` is the order in which Go happens to visit them. */
    method CloseSessions(removed: map<string, Tracker>) returns (ghost order: seq<string>)
      modifies this`closed
      ensures Splits(order, map[], removed)
      ensures closed == old(closed) + SessionsIn(order, removed)
    {
      var left := removed;
      order := [];
      while left != map[]
        invariant Splits(order, left, removed)
        invariant closed == old(closed) + SessionsIn(order, removed)
        decreases |left|
      {
        var key :| key in left;
        SessionsAppend(order, key, removed);
        SplitsStep(order, left, removed, key);
        Assoc(old(closed), SessionsIn(order, removed), [left[key].sessionID]);
        closed := closed + [left[key].sessionID];
        left := left - {key};
        order := order + [key];
      }
    }

    /** One JID of a bulk start, and which of the three counters it goes to. */
    method StartOne(jid: string, probeMethod: string, answer: Creation) returns (result: Result)
      modifies this`trackers
      ensures result == if jid in old(trackers) then Skipped else if answer.Created? then Started else Failed
      ensures trackers == AddOne(old(trackers), jid, TrackerFor(answer, probeMethod))
    {
      var _, err := StartTracker(jid, probeMethod, answer);
      ErrorsToldApart(jid, if answer.Refused? then answer.cause else "");
      if err.None? {
        return Started;
      } else if IsAlreadyTracking(err) {
        return Skipped;
      } else {
        return Failed;
      }
    }

    /** Every JID is counted once, as started, skipped or failed; the map grows by `started`. */
    method StartTrackersBulk(jids: seq<string>, probeMethod: string, answers: seq<Creation>)
      returns (started: nat, skipped: nat, failed: nat)
      requires |jids| == |answers|
      modifies this`trackers
      ensures started + skipped + failed == |jids|
      ensures |trackers| == |old(trackers)| + started
      ensures started == CountStarts(old(trackers).Keys, jids, answers, |jids|)
      ensures failed == CountFails(old(trackers).Keys, jids, answers, |jids|)
      ensures trackers == AddAll(old(trackers), jids, TrackersFor(answers, probeMethod))
    {
      started, skipped, failed := 0, 0, 0;
      ghost var before := trackers;
      for i := 0 to |jids|
        invariant started + skipped + failed == i
        invariant Bulk(before, trackers, jids, answers, probeMethod, i, started, failed)
      {
        BulkStep(before, trackers, jids, answers, probeMethod, i, started, failed);
        var result := StartOne(jids[i], probeMethod, answers[i]);
        match result {
          case Started => started := started + 1;
          case Skipped => skipped := skipped + 1;
          case Failed => failed := failed + 1;
        }
      }
      BulkEnd(before, trackers, jids, answers, probeMethod, started, failed);
    }
  }

  // ---------------------------------------------------------------- what a bulk start leaves

  /** The tracker a created session gives. */
  function TrackerFor(answer: Creation, probeMethod: string): Option<Tracker> {
    match answer
    case Created(sessionID) => Some(Tracker(sessionID, MethodFor(probeMethod)))
    case Refused(_) => None
  }

  function TrackersFor(answers: seq<Creation>, probeMethod: string): seq<Option<Tracker>> {
    seq(|answers|, i requires 0 <= i < |answers| => TrackerFor(answers[i], probeMethod))
  }

  function AddOne<K, V>(m: map<K, V>, key: K, offer: Option<V>): map<K, V> {
    if key in m || offer.None? then m else m[key := offer.value]
  }

  function AddAll<K, V>(m: map<K, V>, keys: seq<K>, offers: seq<Option<V>>): map<K, V>
    requires |keys| == |offers|
  {
    if keys == [] then m
    else AddOne(AddAll(m, keys[..|keys| - 1], offers[..|keys| - 1]), keys[|keys| - 1], offers[|keys| - 1])
  }

  lemma AddAllStep<K, V>(m: map<K, V>, keys: seq<K>, offers: seq<Option<V>>, i: nat)
    requires |keys| == |offers| && i < |keys|
    ensures AddAll(m, keys[..i + 1], offers[..i + 1]) == AddOne(AddAll(m, keys[..i], offers[..i]), keys[i], offers[i])
  {
    assert keys[..i + 1][..i] == keys[..i] && offers[..i + 1][..i] == offers[..i];
  }

  ghost predicate FirstOffer<K, V>(keys: seq<K>, offers: seq<Option<V>>, key: K, v: V)
    requires |keys| == |offers|
  {
    exists i :: 0 <= i < |keys| && keys[i] == key && offers[i] == Some(v)
      && forall j :: 0 <= j < i && keys[j] == key ==> offers[j].None?
  }

  ghost predicate NoOffer<K, V>(keys: seq<K>, offers: seq<Option<V>>, key: K)
    requires |keys| == |offers|
  {
    forall i :: 0 <= i < |keys| && keys[i] == key ==> offers[i].None?
  }

  /** A bulk start keeps every tracker there was, and adds for each other JID the tracker of the
      first session that could be created for it, if any. */
  lemma {:induction false} BulkStartAdds<K, V>(m: map<K, V>, keys: seq<K>, offers: seq<Option<V>>, key: K)
    requires |keys| == |offers|
    ensures var after := AddAll(m, keys, offers);
            && (key in m ==> key in after && after[key] == m[key])
            && (key !in m && key in after ==> FirstOffer(keys, offers, key, after[key]))
            && (key !in m && key !in after ==> NoOffer(keys, offers, key))
  {
    if keys != [] {
      var n := |keys| - 1;
      BulkStartAdds(m, keys[..n], offers[..n], key);
      var before, after := AddAll(m, keys[..n], offers[..n]), AddAll(m, keys, offers);
      assert forall i :: 0 <= i < n ==> keys[..n][i] == keys[i] && offers[..n][i] == offers[i];
      if key !in m && key in before {
        var i :| 0 <= i < n && keys[..n][i] == key && offers[..n][i] == Some(before[key])
          && forall j :: 0 <= j < i && keys[..n][j] == key ==> offers[..n][j].None?;
        assert keys[i] == key && offers[i] == Some(after[key]);
      } else if key !in m && key in after {
        assert keys[n] == key && offers[n] == Some(after[key]);
      }
    }
  }
}
