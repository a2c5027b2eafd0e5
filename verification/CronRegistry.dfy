/** The table of registered schedules: registerCron, unregisterCron and the tick loop's
    completion step in internal/api/cronmanager.go. */
module CronRegistry {
  import opened Common
  import opened CronSearch

  datatype Entry = Entry(
    name: string,
    expr: string,
    timeoutSec: int,
    nextRunAt: Option<int>,
    prevRunAt: Option<int>,
    stopCh: nat)

  /** A run time, when there is one, is a whole minute that matches the entry's own expression,
      strictly after the last completed run. */
  ghost predicate WellTimed(e: Entry, offset: int) {
    && ParseSchedule(e.expr).Some?
    && (e.nextRunAt.Some? ==>
          && WholeMinute(e.nextRunAt.value)
          && HoldsAt(Matcher(ParseSchedule(e.expr).value), e.nextRunAt.value, offset)
          && (e.prevRunAt.Some? ==> e.nextRunAt.value > e.prevRunAt.value))
  }

  lemma NextIsWellTimed(e: Entry, from: int, offset: int)
    requires e.nextRunAt == NextOf(e.expr, from, offset)
    requires ParseSchedule(e.expr).Some?
    requires e.prevRunAt.Some? ==> e.prevRunAt.value <= from
    ensures WellTimed(e, offset)
  {
    NextIsFirst(e.expr, from, offset);
  }

  ghost predicate AllWellTimed(schedules: map<string, Entry>, offset: int) {
    forall id {:trigger WellTimed(schedules[id], offset)} :: id in schedules ==> WellTimed(schedules[id], offset)
  }

  /** The table without `id`, and the stop channel that goes with the removed entry. */
  function Without(schedules: map<string, Entry>, id: string): map<string, Entry> {
    schedules - {id}
  }

  function Replaced(schedules: map<string, Entry>, id: string): set<nat> {
    if id in schedules then {schedules[id].stopCh} else {}
  }

  /** Each stop channel ever made is closed, or belongs to exactly one entry; never both.
      Closing a closed channel is a run-time panic in Go. */
  ghost predicate ChannelsOk(schedules: map<string, Entry>, made: nat, closed: set<nat>) {
    && (forall id :: id in schedules ==> schedules[id].stopCh < made && schedules[id].stopCh !in closed)
    && (forall id, other :: id in schedules && other in schedules && id != other
                            ==> schedules[id].stopCh != schedules[other].stopCh)
    && (forall ch :: ch in closed ==> ch < made)
    && (forall ch :: 0 <= ch < made && ch !in closed ==> exists id :: Owns(schedules, id, ch))
  }

  ghost predicate Owns(schedules: map<string, Entry>, id: string, ch: nat) {
    id in schedules && schedules[id].stopCh == ch
  }

  lemma RemoveKeepsChannels(schedules: map<string, Entry>, made: nat, closed: set<nat>, id: string)
    requires ChannelsOk(schedules, made, closed)
    ensures ChannelsOk(Without(schedules, id), made, closed + Replaced(schedules, id))
  {
    var after, closedAfter := Without(schedules, id), closed + Replaced(schedules, id);
    forall ch | 0 <= ch < made && ch !in closedAfter ensures exists i :: Owns(after, i, ch) {
      var i :| Owns(schedules, i, ch);
      assert Owns(after, i, ch);
    }
  }

  lemma RemoveKeepsTimes(schedules: map<string, Entry>, offset: int, id: string)
    requires AllWellTimed(schedules, offset)
    ensures AllWellTimed(Without(schedules, id), offset)
  {
    forall i | i in Without(schedules, id) ensures WellTimed(Without(schedules, id)[i], offset) {
      assert WellTimed(schedules[i], offset);
    }
  }

  lemma AddKeepsChannels(schedules: map<string, Entry>, made: nat, closed: set<nat>, id: string, e: Entry)
    requires ChannelsOk(schedules, made, closed) && id !in schedules && e.stopCh == made
    ensures ChannelsOk(schedules[id := e], made + 1, closed)
  {
    var after := schedules[id := e];
    forall ch | 0 <= ch < made + 1 && ch !in closed ensures exists i :: Owns(after, i, ch) {
      if ch == made {
        assert Owns(after, id, ch);
      } else {
        var i :| Owns(schedules, i, ch);
        assert Owns(after, i, ch);
      }
    }
  }

  lemma UpdateKeepsChannels(schedules: map<string, Entry>, made: nat, closed: set<nat>, id: string, e: Entry)
    requires ChannelsOk(schedules, made, closed) && Owns(schedules, id, e.stopCh)
    ensures ChannelsOk(schedules[id := e], made, closed)
  {
    var after := schedules[id := e];
    forall ch | 0 <= ch < made && ch !in closed ensures exists i :: Owns(after, i, ch) {
      var i :| Owns(schedules, i, ch);
      assert Owns(after, i, ch);
    }
  }

  class Registry {
    const offset: int
    var schedules: map<string, Entry>
    var made: nat          // stop channels made so far, numbered 0, 1, 2, …
    var closed: set<nat>   // stop channels closed so far

    ghost predicate Valid()
      reads this
    {
      && ChannelsOk(schedules, made, closed)
      && AllWellTimed(schedules, offset)
    }

    constructor (offset: int)
      ensures Valid() && this.offset == offset && schedules == map[] && made == 0 && closed == {}
    {
      this.offset := offset;
      schedules, made, closed := map[], 0, {};
    }

    method Close(ch: nat)
      requires ch !in closed
      modifies this`closed
      ensures closed == old(closed) + {ch}
    {
      closed := closed + {ch};
    }

    method Unregister(id: string)
      requires Valid()
      modifies this
      ensures Valid() && made == old(made)
      ensures schedules == Without(old(schedules), id)
      ensures closed == old(closed) + Replaced(old(schedules), id)
    {
      RemoveKeepsChannels(schedules, made, closed, id);
      RemoveKeepsTimes(schedules, offset, id);
      if id in schedules {
        Close(schedules[id].stopCh);
        schedules := Without(schedules, id);
      } else {
        assert Without(schedules, id) == schedules && Replaced(schedules, id) == {};
      }
    }

    /** An empty, malformed or never-matching expression only removes the old entry. */
    method Register(id: string, name: string, expr: string, timeoutSec: int, now: int)
      requires Valid()
      modifies this
      ensures Valid()
      ensures closed == old(closed) + Replaced(old(schedules), id)
      ensures var next := NextOf(expr, now, offset);
              if expr == "" || next.None? then
                schedules == Without(old(schedules), id) && made == old(made)
              else
                && made == old(made) + 1
                && schedules == Without(old(schedules), id)[id := Entry(name, expr, timeoutSec, next, None, old(made))]
    {
      Unregister(id);
      if expr == "" {
        return;
      }
      var next := NextCronTime(expr, now, offset);
      if next.None? {
        return;
      }
      Add(id, Entry(name, expr, timeoutSec, next, None, made), now);
    }

    method Add(id: string, entry: Entry, now: int)
      requires Valid() && id !in schedules && entry.stopCh == made && entry.prevRunAt.None?
      requires entry.nextRunAt == NextOf(entry.expr, now, offset) && entry.nextRunAt.Some?
      modifies this
      ensures Valid() && closed == old(closed) && made == old(made) + 1
      ensures schedules == old(schedules)[id := entry]
    {
      NextIsWellTimed(entry, now, offset);
      AddKeepsChannels(schedules, made, closed, id, entry);
      schedules := schedules[id := entry];
      made := made + 1;
    }

    /** What the tick loop does when a script run ends: `ended` is the clock at PrevRunAt,
        `now` the later reading nextCronTime starts from. A script unregistered meanwhile stays so. */
    method RunEnded(id: string, ended: int, now: int)
      requires Valid() && ended <= now
      modifies this`schedules
      ensures Valid()
      ensures schedules == if id !in old(schedules) then old(schedules) else
                old(schedules)[id := old(schedules)[id].(
                  prevRunAt := Some(ended), nextRunAt := NextOf(old(schedules)[id].expr, now, offset))]
    {
      if id in schedules {
        var e := schedules[id];
        assert WellTimed(e, offset);
        var next := NextCronTime(e.expr, now, offset);
        e := e.(prevRunAt := Some(ended), nextRunAt := next);
        NextIsWellTimed(e, now, offset);
        UpdateKeepsChannels(schedules, made, closed, id, e);
        schedules := schedules[id := e];
      }
    }
  }

  /** The tick loop starts an entry's script when its run time is set and has passed. */
  predicate Due(e: Entry, now: int) {
    e.nextRunAt.Some? && now > e.nextRunAt.value
  }

  /** No run is early: a due script's matching minute has passed, it follows the previous run,
      and once its run ends it is not due again before the clock passes another matching minute. */
  lemma DueMeansMatched(e: Entry, now: int, ended: int, again: int, offset: int)
    requires WellTimed(e, offset) && Due(e, now) && now <= ended <= again
    ensures var after := e.(prevRunAt := Some(ended), nextRunAt := NextOf(e.expr, again, offset));
            var p := Matcher(ParseSchedule(e.expr).value);
            && HoldsAt(p, e.nextRunAt.value, offset)
            && e.nextRunAt.value < now
            && (e.prevRunAt.Some? ==> e.prevRunAt.value < e.nextRunAt.value)
            && !Due(after, again)
            && (forall later :: Due(after, later) ==>
                  exists x :: again < x < later && WholeMinute(x) && HoldsAt(p, x, offset))
  {
    NextIsFirst(e.expr, again, offset);
  }

  /** No run is missed: an entry whose run time was computed at `from` is due as soon as the clock has
      passed any minute of the next 366 days that matches its expression. */
  lemma MatchedMeansDue(e: Entry, from: int, x: int, now: int, offset: int)
    requires ParseSchedule(e.expr).Some? && e.nextRunAt == NextOf(e.expr, from, offset)
    requires x % 60_000_000_000 == 0 && from < x < now && x <= from + 366 * 86_400_000_000_000
    requires HoldsAt(Matcher(ParseSchedule(e.expr).value), x, offset)
    ensures Due(e, now)
  {
    NextIsFirst(e.expr, from, offset);
    assert WholeMinute(x);
  }
}
