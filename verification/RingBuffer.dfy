/** The in-memory log ring: ringBuf.push and ringBuf.snapshot in internal/whatsapp/capturelog.go. */
module RingBuffer {
  import opened Common

  const SIZE: nat := 2000

  datatype LogEntry = LogEntry(seqNo: nat, time: int, moduleName: string, level: string, message: string)

  /** Empty filters accept every entry. */
  predicate Accepts(moduleName: string, level: string, e: LogEntry) {
    (moduleName == "" || e.moduleName == moduleName) && (level == "" || e.level == level)
  }

  ghost predicate Decides(accept: LogEntry -> bool, moduleName: string, level: string) {
    forall e {:trigger Accepts(moduleName, level, e)} :: accept(e) == Accepts(moduleName, level, e)
  }

  function Limited<T>(s: seq<T>, limit: int): seq<T> {
    if limit > 0 then Last(s, limit) else s
  }

  /** What a snapshot shows of everything ever pushed. */
  function SnapshotOf(pushed: seq<LogEntry>, moduleName: string, level: string, limit: int): seq<LogEntry> {
    Limited(Filter(Last(pushed, SIZE), e => Accepts(moduleName, level, e)), limit)
  }

  class Ring {
    var entries: array<LogEntry>
    var head: nat   // next write position
    var count: nat  // number of valid entries
    ghost var pushed: seq<LogEntry>  // every entry ever pushed, oldest first

    ghost predicate Valid()
      reads this, entries
    {
      && entries.Length == 2000
      && head == |pushed| % 2000
      && count == (if |pushed| < 2000 then |pushed| else 2000)
      && forall k :: |pushed| - count <= k < |pushed| ==> entries[k % 2000] == pushed[k]
    }

    constructor (blank: LogEntry)
      ensures Valid() && fresh(entries) && pushed == []
    {
      entries := new LogEntry[2000](_ => blank);
      head, count, pushed := 0, 0, [];
    }

    /** Only the slot of the entry 2000 pushes back, if there is one, is overwritten. */
    method Push(e: LogEntry)
      requires Valid()
      modifies this`head, this`count, this`pushed, entries
      ensures Valid() && pushed == old(pushed) + [e]
      ensures forall k :: 0 <= k < 2000 && k != |old(pushed)| % 2000 ==> entries[k] == old(entries[k])
    {
      SlotsDiffer(|pushed|, count);
      entries[head] := e;
      head := (head + 1) % 2000;
      if count < 2000 {
        count := count + 1;
      }
      pushed := pushed + [e];
    }

    /** Where the oldest kept entry is. */
    method Start() returns (start: nat)
      requires Valid()
      ensures start == (|pushed| - count) % 2000
    {
      StartSlot(|pushed|, count);
      start := (head + 2000 - count) % 2000;
    }

    method EntryAt(start: nat, i: nat) returns (e: LogEntry)
      requires Valid() && i < count && start == (|pushed| - count) % 2000
      ensures |Last(pushed, SIZE)| == count && e == Last(pushed, SIZE)[i]
    {
      StepSlot(|pushed| - count, i);
      e := entries[(start + i) % 2000];
    }

    method Collect(moduleName: string, level: string, ghost accept: LogEntry -> bool) returns (out: seq<LogEntry>)
      requires Valid() && Decides(accept, moduleName, level)
      ensures out == Filter(Last(pushed, SIZE), accept)
    {
      ghost var recent := Last(pushed, SIZE);
      var start := Start();
      out := [];
      for i := 0 to count
        invariant out == Filter(recent[..i], accept)
      {
        var e := EntryAt(start, i);
        FilterNext(recent, i, accept);
        var keep := Keeps(e, moduleName, level, accept);
        if !keep {
          continue;
        }
        out := out + [e];
      }
      assert recent[..count] == recent;
    }

    /** The last `limit` (all, if `limit` is not positive) of the accepted entries among the last
        2000 pushed, in push order. */
    method Snapshot(moduleName: string, level: string, limit: int) returns (out: seq<LogEntry>)
      requires Valid()
      ensures out == SnapshotOf(pushed, moduleName, level, limit)
    {
      out := Collect(moduleName, level, e => Accepts(moduleName, level, e));
      if limit > 0 && |out| > limit {
        out := out[|out| - limit..];
      }
    }
  }

  /** The two filter tests. */
  method Keeps(e: LogEntry, moduleName: string, level: string, ghost accept: LogEntry -> bool) returns (keep: bool)
    requires Decides(accept, moduleName, level)
    ensures keep == accept(e)
  {
    assert accept(e) == Accepts(moduleName, level, e);
    if moduleName != "" && e.moduleName != moduleName {
      return false;
    }
    if level != "" && e.level != level {
      return false;
    }
    return true;
  }

  lemma FilterNext<T>(s: seq<T>, i: nat, p: T -> bool)
    requires i < |s|
    ensures Filter(s[..i + 1], p) == if p(s[i]) then Filter(s[..i], p) + [s[i]] else Filter(s[..i], p)
  {
    FilterAppend(s[..i], [s[i]], p);
    assert s[..i + 1] == s[..i] + [s[i]];
    assert [s[i]][1..] == [];
  }

  /** The slot about to be written is not that of any entry kept. */
  lemma SlotsDiffer(n: nat, count: nat)
    requires count == (if n < 2000 then n else 2000)
    ensures (n + 1) % 2000 == (n % 2000 + 1) % 2000
    ensures forall k :: n - count < k < n && n - k < 2000 && k >= 0 ==> k % 2000 != n % 2000
  {
    forall k | n - count < k < n && n - k < 2000 && k >= 0 ensures k % 2000 != n % 2000 {
      assert n == 2000 * (n / 2000) + n % 2000 && k == 2000 * (k / 2000) + k % 2000;
    }
  }

  lemma StartSlot(n: nat, count: nat)
    requires count == (if n < 2000 then n else 2000)
    ensures (n % 2000 + 2000 - count) % 2000 == (n - count) % 2000
  {
  }

  lemma StepSlot(first: nat, i: nat)
    ensures (first % 2000 + i) % 2000 == (first + i) % 2000
  {
  }

  /** The entry is of the module and level asked for, where "" asks for any. */
  ghost predicate Wanted(e: LogEntry, moduleName: string, level: string) {
    (moduleName == "" || moduleName == e.moduleName) && (level == "" || level == e.level)
  }

  /** Where the entries from `from` on that pass a filter are. */
  lemma {:induction false} FilterPlaces<T>(s: seq<T>, p: T -> bool, from: nat) returns (places: seq<nat>)
    requires from <= |s|
    ensures |places| == |Filter(s[from..], p)|
    ensures forall i, j :: 0 <= i < j < |places| ==> places[i] < places[j]
    ensures forall k: nat :: k in places <==> from <= k < |s| && p(s[k])
    ensures forall i :: 0 <= i < |places| ==> from <= places[i] < |s| && Filter(s[from..], p)[i] == s[places[i]]
    decreases |s| - from
  {
    if from == |s| {
      places := [];
    } else {
      places := FilterPlaces(s, p, from + 1);
      assert s[from..][0] == s[from] && s[from..][1..] == s[from + 1..];
      if p(s[from]) {
        places := [from] + places;
      }
    }
  }

  lemma ShownPlaces<T>(pushed: seq<T>, p: T -> bool, limit: int) returns (places: seq<nat>)
    ensures forall i, j :: 0 <= i < j < |places| ==> places[i] < places[j]
    ensures forall k: nat :: k in places <==> k < |pushed| && |pushed| <= k + 2000 && p(pushed[k])
    ensures ShowsPlaces(Limited(Filter(Last(pushed, SIZE), p), limit), pushed, places, limit)
  {
    var from := if |pushed| <= 2000 then 0 else |pushed| - 2000;
    assert Last(pushed, SIZE) == pushed[from..];
    places := FilterPlaces(pushed, p, from);
  }

  /** `out` is what is pushed at `places`; with a positive limit, the last of it. */
  ghost predicate ShowsPlaces<T>(out: seq<T>, pushed: seq<T>, places: seq<nat>, limit: int) {
    && |out| == (if 0 < limit < |places| then limit else |places|)
    && forall i :: 0 <= i < |out| ==>
         var place := places[|places| - |out| + i]; place < |pushed| && out[i] == pushed[place]
  }

  /** A snapshot shows, in the order they were pushed, exactly the wanted entries among the last 2000, or
      with a positive limit the last of those; `places` are their positions. */
  lemma SnapshotMeaning(pushed: seq<LogEntry>, moduleName: string, level: string, limit: int) returns (places: seq<nat>)
    ensures forall i, j :: 0 <= i < j < |places| ==> places[i] < places[j]
    ensures forall k: nat :: k in places <==> k < |pushed| && |pushed| <= k + 2000 && Wanted(pushed[k], moduleName, level)
    ensures ShowsPlaces(SnapshotOf(pushed, moduleName, level, limit), pushed, places, limit)
  {
    var p := (e: LogEntry) => Accepts(moduleName, level, e);
    places := ShownPlaces(pushed, p, limit);
    assert forall e :: p(e) == Wanted(e, moduleName, level);
  }
}
