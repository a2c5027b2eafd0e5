/** Per-member message counts of a group: internal/api/groupoverview.go, the msgMap loops. */
module GroupStats {
  import opened Common
  import opened Identity

  /** One row of the sender query; sender JIDs are distinct, being a GROUP BY key. */
  datatype SenderStat = SenderStat(senderJID: string, msgCount: int, mediaCount: int)

  predicate DistinctSenders(rows: seq<SenderStat>) {
    forall i, j :: 0 <= i < j < |rows| ==> rows[i].senderJID != rows[j].senderJID
  }

  datatype MsgStat = MsgStat(msgCount: int, mediaCount: int)

  function Plus(a: MsgStat, b: MsgStat): MsgStat {
    MsgStat(a.msgCount + b.msgCount, a.mediaCount + b.mediaCount)
  }

  const NONE := MsgStat(0, 0)

  type StatMap = map<string, MsgStat>

  /** Go's zero value for a missing key. */
  function Get<K>(m: map<K, MsgStat>, k: K): MsgStat {
    if k in m then m[k] else NONE
  }

  /** A lookup; a missing key is None. */
  function Entry<K>(m: map<K, MsgStat>, k: K): Option<MsgStat> {
    if k in m then Some(m[k]) else None
  }

  /** Adding counts, where None is "no count at all". */
  function Combine(a: Option<MsgStat>, b: Option<MsgStat>): Option<MsgStat> {
    if a.None? then b else if b.None? then a else Some(Plus(a.value, b.value))
  }

  // ---------------------------------------------------------------- device suffixes

  /** "123:15@lid" → "123@lid": drop everything from the first colon up to the at sign after it. */
  function StripDevice(jid: string): string {
    var colon, at := IndexOf(jid, ':'), IndexOf(jid, '@');
    if 0 < colon < at < |jid| then jid[..colon] + jid[at..] else jid
  }

  lemma AtAfterPrefix(pre: string, rest: string)
    requires '@' !in pre && ':' !in pre && rest != "" && rest[0] == '@'
    ensures IndexOf(pre + rest, '@') == |pre| && IndexOf(pre + rest, ':') > |pre|
  {
    var s := pre + rest;
    assert s[..|pre|] == pre && s[|pre|] == '@';
    IndexOfIs(s, '@', |pre|);
    IndexOfFirst(s, ':');
    var c := IndexOf(s, ':');
    assert forall k :: 0 <= k < |pre| ==> s[k] == pre[k] && pre[k] in pre;
  }

  lemma BeforeColon(jid: string)
    requires IndexOf(jid, ':') < IndexOf(jid, '@')
    ensures var pre := jid[..IndexOf(jid, ':')]; '@' !in pre && ':' !in pre
  {
    var colon, at := IndexOf(jid, ':'), IndexOf(jid, '@');
    IndexOfFirst(jid, ':');
    IndexOfFirst(jid, '@');
    assert jid[..at][..colon] == jid[..colon];
  }

  /** Stripping twice strips no more than stripping once. */
  lemma StripIdempotent(jid: string)
    ensures StripDevice(StripDevice(jid)) == StripDevice(jid)
  {
    var colon, at := IndexOf(jid, ':'), IndexOf(jid, '@');
    if 0 < colon < at < |jid| {
      BeforeColon(jid);
      IndexOfFirst(jid, '@');
      AtAfterPrefix(jid[..colon], jid[at..]);
    }
  }

  predicate DeviceFree(jid: string) { StripDevice(jid) == jid }

  function WithDevice(user: string, device: string, server: string): string {
    user + (":" + (device + ("@" + server)))
  }

  ghost predicate ProperUser(user: string) {
    user != "" && ':' !in user && '@' !in user
  }

  /** A JID with a device suffix loses exactly that suffix … */
  lemma StripsDevice(user: string, device: string, server: string)
    requires ProperUser(user) && '@' !in device
    ensures StripDevice(WithDevice(user, device, server)) == user + ("@" + server)
  {
    var jid := WithDevice(user, device, server);
    var before := user + ":" + device;
    assert jid == before + ("@" + server);
    assert jid[|user|] == ':' && jid[..|user|] == user;
    IndexOfIs(jid, ':', |user|);
    assert jid[|before|] == '@' && jid[..|before|] == before;
    assert forall c :: c in before <==> c in user || c == ':' || c in device;
    IndexOfIs(jid, '@', |before|);
    assert jid[|before|..] == "@" + server;
  }

  /** … and any other JID is left as it is. */
  lemma StripsOnlyDevices(jid: string) returns (user: string, device: string, server: string)
    requires StripDevice(jid) != jid
    ensures ProperUser(user) && '@' !in device && jid == WithDevice(user, device, server)
  {
    var colon, at := IndexOf(jid, ':'), IndexOf(jid, '@');
    BeforeColon(jid);
    IndexOfFirst(jid, ':');
    IndexOfFirst(jid, '@');
    user, device, server := jid[..colon], jid[colon + 1..at], jid[at + 1..];
    Between(jid[..at], colon);
    CutTwice(jid, colon, at);
  }

  lemma Between<T>(s: seq<T>, i: nat)
    requires i < |s|
    ensures forall x :: x in s[i + 1..] ==> x in s
  {
  }

  lemma CutTwice<T>(s: seq<T>, i: nat, j: nat)
    requires i < j < |s|
    ensures s == s[..i] + ([s[i]] + (s[i + 1..j] + ([s[j]] + s[j + 1..])))
    ensures s[i + 1..j] == s[..j][i + 1..]
  {
  }

  lemma PlainIsDeviceFree(jid: string)
    requires ':' !in jid
    ensures DeviceFree(jid)
  {
  }

  // ---------------------------------------------------------------- the first loop

  /** A row with its device-stripped sender. */
  datatype Sent<K> = Sent(sender: K, key: K, stat: MsgStat)

  function Keyed(rows: seq<SenderStat>): seq<Sent<string>> {
    seq(|rows|, i requires 0 <= i < |rows| =>
      Sent(rows[i].senderJID, StripDevice(rows[i].senderJID), MsgStat(rows[i].msgCount, rows[i].mediaCount)))
  }

  /** `k` is the unstripped sender of some row. */
  ghost predicate IsAlias<K>(sent: seq<Sent<K>>, k: K) {
    exists i :: 0 <= i < |sent| && sent[i].sender == k && sent[i].key != k
  }

  /** What the rows of one query satisfy: senders differ, and a stripped sender is not itself unstripped. */
  ghost predicate SentOk<K>(sent: seq<Sent<K>>) {
    && (forall i, j :: 0 <= i < j < |sent| ==> sent[i].sender != sent[j].sender)
    && (forall i, j :: 0 <= i < |sent| && 0 <= j < |sent| && sent[i].key == sent[j].sender
                       ==> sent[j].key == sent[j].sender)
  }

  lemma KeyedIsOk(rows: seq<SenderStat>)
    requires DistinctSenders(rows)
    ensures SentOk(Keyed(rows))
    ensures forall k :: DeviceFree(k) ==> !IsAlias(Keyed(rows), k)
  {
    forall i, j | 0 <= i < |rows| && 0 <= j < |rows| && Keyed(rows)[i].key == Keyed(rows)[j].sender
      ensures Keyed(rows)[j].key == Keyed(rows)[j].sender
    {
      StripIdempotent(rows[i].senderJID);
    }
  }

  /** The sum over the rows whose device-stripped sender is `k`. */
  function SumFor<K(==)>(sent: seq<Sent<K>>, k: K): Option<MsgStat> {
    if sent == [] then None
    else
      var before := SumFor(sent[..|sent| - 1], k);
      if sent[|sent| - 1].key == k then Combine(before, Some(sent[|sent| - 1].stat)) else before
  }

  /** The map after the first loop: a stripped sender has the sum over its rows, … */
  ghost predicate HoldsSums<K(!new)>(m: map<K, MsgStat>, sent: seq<Sent<K>>) {
    forall k :: !IsAlias(sent, k) ==> Entry(m, k) == SumFor(sent, k)
  }

  /** … and an unstripped sender keeps the running sum as it stood after its own row. */
  ghost predicate HoldsSnapshots<K>(m: map<K, MsgStat>, sent: seq<Sent<K>>) {
    forall i :: 0 <= i < |sent| && sent[i].key != sent[i].sender ==>
      Entry(m, sent[i].sender) == SumFor(sent[..i + 1], sent[i].key)
  }

  method CountSenders(rows: seq<SenderStat>) returns (msgMap: StatMap)
    requires DistinctSenders(rows)
    ensures HoldsSums(msgMap, Keyed(rows)) && HoldsSnapshots(msgMap, Keyed(rows))
  {
    msgMap := map[];
    ghost var sent := Keyed(rows);
    KeyedIsOk(rows);
    for i := 0 to |rows|
      invariant HoldsSums(msgMap, sent[..i]) && HoldsSnapshots(msgMap, sent[..i])
    {
      var s := rows[i];
      var key := StripDevice(s.senderJID);
      ghost var before := msgMap;
      msgMap := msgMap[key := Plus(Get(msgMap, key), MsgStat(s.msgCount, s.mediaCount))];
      if key != s.senderJID {
        msgMap := msgMap[s.senderJID := msgMap[key]];
      }
      SumsKept(before, msgMap, sent, i);
      SnapshotsKept(before, msgMap, sent, i);
    }
    assert sent[..|rows|] == sent;
  }

  ghost predicate IsRowStep<K>(before: map<K, MsgStat>, after: map<K, MsgStat>, s: Sent<K>) {
    var sum := Plus(Get(before, s.key), s.stat);
    after == (if s.key != s.sender then before[s.key := sum][s.sender := sum] else before[s.key := sum])
  }

  lemma SumsKept<K(!new)>(before: map<K, MsgStat>, after: map<K, MsgStat>, sent: seq<Sent<K>>, i: nat)
    requires i < |sent| && SentOk(sent) && HoldsSums(before, sent[..i]) && IsRowStep(before, after, sent[i])
    ensures HoldsSums(after, sent[..i + 1])
  {
    var old', new' := sent[..i], sent[..i + 1];
    assert new'[..i] == old' && new'[i] == sent[i];
    assert forall j :: 0 <= j < i ==> new'[j] == old'[j] == sent[j];
    forall k | !IsAlias(new', k) ensures Entry(after, k) == SumFor(new', k) {
      assert !IsAlias(old', k);
      assert new'[i].sender == k ==> new'[i].key == k;
    }
  }

  lemma SnapshotsKept<K(!new)>(before: map<K, MsgStat>, after: map<K, MsgStat>, sent: seq<Sent<K>>, i: nat)
    requires i < |sent| && SentOk(sent) && IsRowStep(before, after, sent[i])
    requires HoldsSums(before, sent[..i]) && HoldsSnapshots(before, sent[..i])
    ensures HoldsSnapshots(after, sent[..i + 1])
  {
    var old', new' := sent[..i], sent[..i + 1];
    assert new'[..i] == old' && new'[..i + 1] == new';
    forall j | 0 <= j <= i && new'[j].key != new'[j].sender
      ensures Entry(after, new'[j].sender) == SumFor(new'[..j + 1], new'[j].key)
    {
      if j < i {
        assert old'[j] == sent[j] == new'[j] && old'[..j + 1] == new'[..j + 1];
      } else {
        assert !IsAlias(old', sent[i].key);
      }
    }
  }

  // ---------------------------------------------------------------- the alias loop

  /** One iteration of the loop over the LID map. */
  function AliasStep<K>(m: map<K, MsgStat>, lid: K, pn: K): map<K, MsgStat> {
    if lid in m && pn in m then
      var both := Plus(m[lid], m[pn]);
      m[lid := both][pn := both]
    else if lid in m then m[pn := m[lid]]
    else if pn in m then m[lid := m[pn]]
    else m
  }

  function AliasAll<K>(m: map<K, MsgStat>, pairs: seq<MappingOf<K>>): map<K, MsgStat> {
    if pairs == [] then m else AliasStep(AliasAll(m, pairs[..|pairs| - 1]), pairs[|pairs| - 1].lid, pairs[|pairs| - 1].pn)
  }

  /** The loop over the LID map; `pairs` is the order in which Go happens to iterate. */
  method AddAliases(msgMap: StatMap, pairs: seq<Mapping>) returns (out: StatMap)
    ensures out == AliasAll(msgMap, pairs)
  {
    out := msgMap;
    for i := 0 to |pairs|
      invariant out == AliasAll(msgMap, pairs[..i])
    {
      var p := pairs[i];
      assert pairs[..i + 1][..i] == pairs[..i];
      var hasLID, hasPN := p.lid in out, p.pn in out;
      if hasLID && hasPN {
        var merged := Plus(out[p.lid], out[p.pn]);
        out := out[p.lid := merged];
        out := out[p.pn := merged];
      } else if hasLID {
        out := out[p.pn := out[p.lid]];
      } else if hasPN {
        out := out[p.lid := out[p.pn]];
      }
    }
    assert pairs[..|pairs|] == pairs;
  }

  ghost predicate DistinctLids<K>(pairs: seq<MappingOf<K>>) {
    forall i, j :: 0 <= i < j < |pairs| ==> pairs[i].lid != pairs[j].lid
  }

  ghost predicate DistinctPns<K>(pairs: seq<MappingOf<K>>) {
    forall i, j :: 0 <= i < j < |pairs| ==> pairs[i].pn != pairs[j].pn
  }

  ghost predicate Touched<K>(pairs: seq<MappingOf<K>>, k: K) {
    exists i :: 0 <= i < |pairs| && (pairs[i].lid == k || pairs[i].pn == k)
  }

  /** Both keys of a pair end with the sum of what either key had. */
  ghost predicate HoldsBoth<K>(base: map<K, MsgStat>, m: map<K, MsgStat>, lid: K, pn: K) {
    Entry(m, lid) == Entry(m, pn) == Combine(Entry(base, lid), Entry(base, pn))
  }

  ghost predicate SameAt<K>(a: map<K, MsgStat>, b: map<K, MsgStat>, k: K) {
    Entry(a, k) == Entry(b, k)
  }

  lemma StepHoldsBoth<K>(base: map<K, MsgStat>, m: map<K, MsgStat>, lid: K, pn: K)
    requires lid != pn && SameAt(m, base, lid) && SameAt(m, base, pn)
    ensures HoldsBoth(base, AliasStep(m, lid, pn), lid, pn)
  {
  }

  lemma StepLeaves<K>(m: map<K, MsgStat>, lid: K, pn: K, k: K)
    requires k != lid && k != pn
    ensures SameAt(AliasStep(m, lid, pn), m, k)
  {
  }

  lemma StepKeepsBoth<K>(base: map<K, MsgStat>, m: map<K, MsgStat>, p: K, q: K, lid: K, pn: K)
    requires HoldsBoth(base, m, lid, pn) && lid != p && lid != q && pn != p && pn != q
    ensures HoldsBoth(base, AliasStep(m, p, q), lid, pn)
  {
    StepLeaves(m, p, q, lid);
    StepLeaves(m, p, q, pn);
  }

  /** No two of the keys that the loop writes are the same. */
  ghost predicate Separate<K>(pairs: seq<MappingOf<K>>) {
    && DistinctLids(pairs) && DistinctPns(pairs)
    && forall i, j :: 0 <= i < |pairs| && 0 <= j < |pairs| ==> pairs[i].lid != pairs[j].pn
  }

  /** A LID is never a number, so distinct LIDs with distinct numbers are separate. */
  lemma PairsAreSeparate(pairs: seq<Mapping>)
    requires AllWellFormed(pairs) && DistinctLids(pairs) && DistinctPns(pairs)
    ensures Separate(pairs)
  {
    forall i, j | 0 <= i < |pairs| && 0 <= j < |pairs| ensures pairs[i].lid != pairs[j].pn {
      assert WellFormed(pairs[i]) && WellFormed(pairs[j]);
      PnIsNotLid(pairs[j].pn);
    }
  }

  lemma AliasAllStep<K>(base: map<K, MsgStat>, pairs: seq<MappingOf<K>>)
    requires pairs != []
    ensures var p := pairs[|pairs| - 1];
            AliasAll(base, pairs) == AliasStep(AliasAll(base, pairs[..|pairs| - 1]), p.lid, p.pn)
  {
  }

  lemma {:induction false} AliasesLeave<K>(base: map<K, MsgStat>, pairs: seq<MappingOf<K>>, k: K)
    requires !Touched(pairs, k)
    ensures SameAt(AliasAll(base, pairs), base, k)
  {
    if pairs != [] {
      var n := |pairs| - 1;
      assert pairs[n].lid != k && pairs[n].pn != k;
      AliasesLeave(base, pairs[..n], k);
      StepLeaves(AliasAll(base, pairs[..n]), pairs[n].lid, pairs[n].pn, k);
    }
  }

  /** Each pair of the loop ends with the combined counts under both keys, whatever the order. */
  lemma {:induction false} AliasesCombine<K>(base: map<K, MsgStat>, pairs: seq<MappingOf<K>>, i: nat)
    requires Separate(pairs) && i < |pairs|
    ensures HoldsBoth(base, AliasAll(base, pairs), pairs[i].lid, pairs[i].pn)
  {
    var n := |pairs| - 1;
    var p, m := pairs[n], AliasAll(base, pairs[..n]);
    AliasAllStep(base, pairs);
    if i < n {
      AliasesCombine(base, pairs[..n], i);
      StepKeepsBoth(base, m, p.lid, p.pn, pairs[i].lid, pairs[i].pn);
    } else {
      AliasesLeave(base, pairs[..n], p.lid);
      AliasesLeave(base, pairs[..n], p.pn);
      StepHoldsBoth(base, m, p.lid, p.pn);
    }
  }

  // ---------------------------------------------------------------- agreement with the per-record normalisation

  /** The sum over the rows whose stripped sender normalises to the identity `c`. */
  function SumForIdentity<K(==)>(sent: seq<Sent<K>>, c: K, norm: K -> K): Option<MsgStat> {
    if sent == [] then None
    else
      var before := SumForIdentity(sent[..|sent| - 1], c, norm);
      if norm(sent[|sent| - 1].key) == c then Combine(before, Some(sent[|sent| - 1].stat)) else before
  }

  /** Looking up `k` finds the counts of everything its identity sent. */
  ghost predicate HoldsIdentitySum<K>(out: map<K, MsgStat>, sent: seq<Sent<K>>, norm: K -> K, k: K) {
    Entry(out, k) == SumForIdentity(sent, norm(k), norm)
  }

  /** `c` is the identity of exactly the JIDs `a` and `b`. */
  ghost predicate IdentityOf<K(!new)>(c: K, norm: K -> K, a: K, b: K) {
    forall jid :: norm(jid) == c <==> jid == a || jid == b
  }

  lemma {:induction false} IdentitySum<K(!new)>(sent: seq<Sent<K>>, c: K, norm: K -> K, a: K, b: K)
    requires IdentityOf(c, norm, a, b)
    ensures SumForIdentity(sent, c, norm) == if a == b then SumFor(sent, a) else Combine(SumFor(sent, a), SumFor(sent, b))
  {
    if sent != [] {
      IdentitySum(sent[..|sent| - 1], c, norm, a, b);
      assert norm(sent[|sent| - 1].key) == c <==> sent[|sent| - 1].key == a || sent[|sent| - 1].key == b;
    }
  }

  lemma IdentityOfPair(pairs: seq<Mapping>, i: nat)
    requires AllWellFormed(pairs) && DistinctLids(pairs) && DistinctPns(pairs) && i < |pairs|
    ensures IdentityOf(pairs[i].pn, Normalizer(MapOf(pairs)), pairs[i].lid, pairs[i].pn)
  {
    var p, m := pairs[i], MapOf(pairs);
    assert WellFormed(p);
    PnIsNotLid(p.pn);
    MapOfLookup(pairs, p.lid);
    forall jid ensures NormalizeLIDJID(jid, m) == p.pn <==> jid == p.lid || jid == p.pn {
      MapOfLookup(pairs, jid);
      if jid in m {
        var j :| LastFor(pairs, j, jid) && pairs[j].pn == m[jid];
        assert WellFormed(pairs[j]);
      }
    }
  }

  lemma IdentityOfUntouched(pairs: seq<Mapping>, k: string)
    requires AllWellFormed(pairs) && !Touched(pairs, k)
    ensures IdentityOf(k, Normalizer(MapOf(pairs)), k, k)
  {
    forall jid ensures NormalizeLIDJID(jid, MapOf(pairs)) == k <==> jid == k {
      MapOfLookup(pairs, jid);
    }
  }

  /** No JID of the LID map is an unstripped sender: those have a device suffix, LIDs and numbers do not. */
  ghost predicate NoPairIsAlias<K>(pairs: seq<MappingOf<K>>, sent: seq<Sent<K>>) {
    forall i :: 0 <= i < |pairs| ==> !IsAlias(sent, pairs[i].lid) && !IsAlias(sent, pairs[i].pn)
  }

  lemma PairSumIsIdentitySum<K(!new)>(base: map<K, MsgStat>, out: map<K, MsgStat>, sent: seq<Sent<K>>, norm: K -> K, lid: K, pn: K)
    requires lid != pn && IdentityOf(pn, norm, lid, pn) && HoldsBoth(base, out, lid, pn)
    requires HoldsSums(base, sent) && !IsAlias(sent, lid) && !IsAlias(sent, pn)
    ensures HoldsIdentitySum(out, sent, norm, lid) && HoldsIdentitySum(out, sent, norm, pn)
  {
    IdentitySum(sent, pn, norm, lid, pn);
    assert norm(lid) == pn && norm(pn) == pn;
  }

  lemma LoneSumIsIdentitySum<K(!new)>(base: map<K, MsgStat>, out: map<K, MsgStat>, sent: seq<Sent<K>>, norm: K -> K, k: K)
    requires IdentityOf(k, norm, k, k) && SameAt(out, base, k)
    requires HoldsSums(base, sent) && !IsAlias(sent, k)
    ensures HoldsIdentitySum(out, sent, norm, k)
  {
    IdentitySum(sent, k, norm, k, k);
    assert norm(k) == k;
  }

  /** `norm` sends both JIDs of each pair to the pair's number, and leaves every other JID alone. */
  ghost predicate NormalizesPairs<K(!new)>(norm: K -> K, pairs: seq<MappingOf<K>>) {
    && (forall i :: 0 <= i < |pairs| ==> IdentityOf(pairs[i].pn, norm, pairs[i].lid, pairs[i].pn))
    && (forall k :: !Touched(pairs, k) ==> IdentityOf(k, norm, k, k))
  }

  lemma MapNormalizesPairs(pairs: seq<Mapping>)
    requires AllWellFormed(pairs) && DistinctLids(pairs) && DistinctPns(pairs)
    ensures NormalizesPairs(Normalizer(MapOf(pairs)), pairs)
  {
    forall i | 0 <= i < |pairs|
      ensures IdentityOf(pairs[i].pn, Normalizer(MapOf(pairs)), pairs[i].lid, pairs[i].pn)
    {
      IdentityOfPair(pairs, i);
    }
    forall k | !Touched(pairs, k) ensures IdentityOf(k, Normalizer(MapOf(pairs)), k, k) {
      IdentityOfUntouched(pairs, k);
    }
  }

  lemma AliasedSumIsIdentitySum<K(!new)>(
    base: map<K, MsgStat>, sent: seq<Sent<K>>, pairs: seq<MappingOf<K>>, norm: K -> K, k: K)
    requires Separate(pairs) && NormalizesPairs(norm, pairs)
    requires NoPairIsAlias(pairs, sent) && !IsAlias(sent, k) && HoldsSums(base, sent)
    ensures HoldsIdentitySum(AliasAll(base, pairs), sent, norm, k)
  {
    var out := AliasAll(base, pairs);
    if Touched(pairs, k) {
      var i :| 0 <= i < |pairs| && (pairs[i].lid == k || pairs[i].pn == k);
      AliasesCombine(base, pairs, i);
      PairSumIsIdentitySum(base, out, sent, norm, pairs[i].lid, pairs[i].pn);
    } else {
      AliasesLeave(base, pairs, k);
      LoneSumIsIdentitySum(base, out, sent, norm, k);
    }
  }

  ghost predicate AllDeviceFree(pairs: seq<Mapping>) {
    forall i :: 0 <= i < |pairs| ==> DeviceFree(pairs[i].lid) && DeviceFree(pairs[i].pn)
  }

  /** Both loops over the query's rows give every device-free JID, LID or number, the total of its
      identity: the same totals whatever order Go iterates the LID map in. */
  lemma GroupStatsAreIdentitySums(base: StatMap, rows: seq<SenderStat>, pairs: seq<Mapping>, k: string)
    requires DistinctSenders(rows)
    requires AllWellFormed(pairs) && DistinctLids(pairs) && DistinctPns(pairs) && AllDeviceFree(pairs)
    requires HoldsSums(base, Keyed(rows)) && DeviceFree(k)
    ensures HoldsIdentitySum(AliasAll(base, pairs), Keyed(rows), Normalizer(MapOf(pairs)), k)
  {
    KeyedIsOk(rows);
    PairsAreSeparate(pairs);
    MapNormalizesPairs(pairs);
    AliasedSumIsIdentitySum(base, Keyed(rows), pairs, Normalizer(MapOf(pairs)), k);
  }

  // ---------------------------------------------------------------- rows by user, device and server

  /** A row of the sender query whose JID is given in its parts. */
  datatype DeviceRow = DeviceRow(user: string, device: Option<string>, server: string, msgCount: int, mediaCount: int)

  function SenderOf(r: DeviceRow): string {
    match r.device
    case None => r.user + ("@" + r.server)
    case Some(device) => WithDevice(r.user, device, r.server)
  }

  function QueryRows(rs: seq<DeviceRow>): seq<SenderStat> {
    seq(|rs|, i requires 0 <= i < |rs| => SenderStat(SenderOf(rs[i]), rs[i].msgCount, rs[i].mediaCount))
  }

  ghost predicate ProperRow(r: DeviceRow) {
    ProperUser(r.user) && (r.device.Some? ==> '@' !in r.device.value)
  }

  /** The messages and media of all devices of the accounts `a` and `b`; None if neither has a row. */
  function Totals(rs: seq<DeviceRow>, a: string, b: string): Option<MsgStat> {
    if rs == [] then None
    else
      var r := rs[|rs| - 1];
      var account := r.user + ("@" + r.server);
      match Totals(rs[..|rs| - 1], a, b)
      case None => if account == a || account == b then Some(MsgStat(r.msgCount, r.mediaCount)) else None
      case Some(t) =>
        Some(if account == a || account == b then MsgStat(t.msgCount + r.msgCount, t.mediaCount + r.mediaCount) else t)
  }

  lemma KeyOfRow(r: DeviceRow)
    requires ProperRow(r)
    ensures StripDevice(SenderOf(r)) == r.user + ("@" + r.server)
  {
    match r.device
    case None =>
      AtAfterPrefix(r.user, "@" + r.server);
    case Some(device) =>
      StripsDevice(r.user, device, r.server);
  }

  lemma AddToTotal(t: Option<MsgStat>, x: Option<MsgStat>, y: Option<MsgStat>, stat: MsgStat)
    requires t == Combine(x, y)
    ensures var more := Some(if t.None? then stat else MsgStat(t.value.msgCount + stat.msgCount, t.value.mediaCount + stat.mediaCount));
            more == Combine(Combine(x, Some(stat)), y) == Combine(x, Combine(y, Some(stat)))
  {
  }

  /** `sent` has the rows' accounts and counts. */
  ghost predicate Represents(sent: seq<Sent<string>>, rs: seq<DeviceRow>) {
    |sent| == |rs| &&
    forall i :: 0 <= i < |rs| ==>
      sent[i].key == rs[i].user + ("@" + rs[i].server) && sent[i].stat == MsgStat(rs[i].msgCount, rs[i].mediaCount)
  }

  lemma {:induction false} TotalsAreSums(sent: seq<Sent<string>>, rs: seq<DeviceRow>, a: string, b: string)
    requires Represents(sent, rs)
    ensures Totals(rs, a, b) == if a == b then SumFor(sent, a) else Combine(SumFor(sent, a), SumFor(sent, b))
  {
    if rs != [] {
      var n := |rs| - 1;
      TotalsAreSums(sent[..n], rs[..n], a, b);
      AddToTotal(Totals(rs[..n], a, b), SumFor(sent[..n], a), if a == b then None else SumFor(sent[..n], b), sent[n].stat);
    }
  }

  lemma KeyedRepresents(rs: seq<DeviceRow>)
    requires forall i :: 0 <= i < |rs| ==> ProperRow(rs[i])
    ensures Represents(Keyed(QueryRows(rs)), rs)
  {
    forall i | 0 <= i < |rs| ensures Keyed(QueryRows(rs))[i].key == rs[i].user + ("@" + rs[i].server) {
      KeyOfRow(rs[i]);
    }
  }

  ghost predicate PlainPairs(pairs: seq<Mapping>) {
    forall i :: 0 <= i < |pairs| ==> ':' !in pairs[i].lid && ':' !in pairs[i].pn
  }

  /** What looking up the JID `k` finds: the totals of its pair's two accounts, or its own. */
  ghost predicate ShowsTotals(msgMap: StatMap, rs: seq<DeviceRow>, pairs: seq<Mapping>, k: string) {
    && (forall i :: 0 <= i < |pairs| && (k == pairs[i].lid || k == pairs[i].pn) ==>
          Entry(msgMap, k) == Totals(rs, pairs[i].lid, pairs[i].pn))
    && ((forall i :: 0 <= i < |pairs| ==> k != pairs[i].lid && k != pairs[i].pn) ==> Entry(msgMap, k) == Totals(rs, k, k))
  }

  lemma LookupShowsTotals(base: StatMap, rs: seq<DeviceRow>, pairs: seq<Mapping>, k: string)
    requires forall i :: 0 <= i < |rs| ==> ProperRow(rs[i])
    requires DistinctSenders(QueryRows(rs)) && HoldsSums(base, Keyed(QueryRows(rs)))
    requires AllWellFormed(pairs) && DistinctLids(pairs) && DistinctPns(pairs) && PlainPairs(pairs)
    requires ':' !in k
    ensures ShowsTotals(AliasAll(base, pairs), rs, pairs, k)
  {
    KeyedIsOk(QueryRows(rs));
    PairsAreSeparate(pairs);
    PlainIsDeviceFree(k);
    forall i | 0 <= i < |pairs| && (k == pairs[i].lid || k == pairs[i].pn)
      ensures Entry(AliasAll(base, pairs), k) == Totals(rs, pairs[i].lid, pairs[i].pn)
    {
      PairShowsTotals(base, rs, pairs, i);
    }
    if !Touched(pairs, k) {
      AliasesLeave(base, pairs, k);
      KeyedRepresents(rs);
      TotalsAreSums(Keyed(QueryRows(rs)), rs, k, k);
    }
  }

  lemma PairShowsTotals(base: StatMap, rs: seq<DeviceRow>, pairs: seq<Mapping>, i: nat)
    requires forall r :: 0 <= r < |rs| ==> ProperRow(rs[r])
    requires HoldsSums(base, Keyed(QueryRows(rs))) && Separate(pairs) && PlainPairs(pairs) && i < |pairs|
    requires forall jid :: DeviceFree(jid) ==> !IsAlias(Keyed(QueryRows(rs)), jid)
    ensures var out, sum := AliasAll(base, pairs), Totals(rs, pairs[i].lid, pairs[i].pn);
            Entry(out, pairs[i].lid) == sum && Entry(out, pairs[i].pn) == sum
  {
    AliasesCombine(base, pairs, i);
    PlainIsDeviceFree(pairs[i].lid);
    PlainIsDeviceFree(pairs[i].pn);
    KeyedRepresents(rs);
    TotalsAreSums(Keyed(QueryRows(rs)), rs, pairs[i].lid, pairs[i].pn);
  }

  /** Both loops, over rows given in parts: every JID without a device shows the messages and media of
      all devices of its account and, if the LID map pairs it, of the account it is paired with. */
  method MemberStats(rs: seq<DeviceRow>, pairs: seq<Mapping>) returns (msgMap: StatMap)
    requires forall i :: 0 <= i < |rs| ==> ProperRow(rs[i])
    requires DistinctSenders(QueryRows(rs))
    requires AllWellFormed(pairs) && DistinctLids(pairs) && DistinctPns(pairs) && PlainPairs(pairs)
    ensures forall k :: ':' !in k ==> ShowsTotals(msgMap, rs, pairs, k)
  {
    var base := CountSenders(QueryRows(rs));
    msgMap := AddAliases(base, pairs);
    forall k: string | ':' !in k ensures ShowsTotals(msgMap, rs, pairs, k) {
      LookupShowsTotals(base, rs, pairs, k);
    }
  }

  // ---------------------------------------------------------------- why numbers must be distinct

  lemma {:induction false} FirstPairKeepsItsOwn(base: StatMap, pairs: seq<Mapping>, i: nat)
    requires AllWellFormed(pairs) && DistinctLids(pairs) && i < |pairs|
    requires pairs[i].lid in base && pairs[i].pn !in base
    requires forall j :: 0 <= j < i ==> pairs[j].pn != pairs[i].pn
    ensures pairs[i].lid in AliasAll(base, pairs) && AliasAll(base, pairs)[pairs[i].lid] == base[pairs[i].lid]
    decreases |pairs|
  {
    var n := |pairs| - 1;
    assert WellFormed(pairs[n]) && WellFormed(pairs[i]);
    PnIsNotLid(pairs[n].pn);
    if i < n {
      FirstPairKeepsItsOwn(base, pairs[..n], i);
    } else {
      EarlierPairsLeave(base, pairs[..n], pairs[i].lid, pairs[i].pn);
    }
  }

  lemma {:induction false} EarlierPairsLeave(base: StatMap, pairs: seq<Mapping>, lid: string, pn: string)
    requires AllWellFormed(pairs) && HasSuffix(lid, LID_SERVER) && HasSuffix(pn, PN_SERVER)
    requires lid in base && pn !in base
    requires forall j :: 0 <= j < |pairs| ==> pairs[j].lid != lid && pairs[j].pn != pn
    ensures var m := AliasAll(base, pairs); lid in m && m[lid] == base[lid] && pn !in m
  {
    if pairs != [] {
      var n := |pairs| - 1;
      EarlierPairsLeave(base, pairs[..n], lid, pn);
      assert WellFormed(pairs[n]);
      PnIsNotLid(pairs[n].pn);
      PnIsNotLid(pn);
    }
  }

  /** `base` is what the first loop makes of the query's rows. */
  ghost predicate Counted(base: StatMap, rows: seq<SenderStat>) {
    DistinctSenders(rows) && HoldsSums(base, Keyed(rows)) && HoldsSnapshots(base, Keyed(rows))
  }

  /** Whatever rows the query returns, every device-free JID shows the total of its identity. */
  ghost predicate AlwaysIdentitySums(pairs: seq<Mapping>) {
    forall rows, base, k ::
      Counted(base, rows) && DeviceFree(k)
      ==> HoldsIdentitySum(AliasAll(base, pairs), Keyed(rows), Normalizer(MapOf(pairs)), k)
  }

  lemma DistinctNumbersSum(pairs: seq<Mapping>)
    requires AllWellFormed(pairs) && DistinctLids(pairs) && AllDeviceFree(pairs) && DistinctPns(pairs)
    ensures AlwaysIdentitySums(pairs)
  {
    forall rows, base, k | Counted(base, rows) && DeviceFree(k)
      ensures HoldsIdentitySum(AliasAll(base, pairs), Keyed(rows), Normalizer(MapOf(pairs)), k)
    {
      GroupStatsAreIdentitySums(base, rows, pairs, k);
    }
  }

  lemma Falsifies(pairs: seq<Mapping>, rows: seq<SenderStat>, base: StatMap, k: string)
    requires Counted(base, rows) && DeviceFree(k)
    requires !HoldsIdentitySum(AliasAll(base, pairs), Keyed(rows), Normalizer(MapOf(pairs)), k)
    ensures !AlwaysIdentitySums(pairs)
  {
  }

  lemma SharedNumberFails(pairs: seq<Mapping>, i: nat, j: nat)
    requires AllWellFormed(pairs) && DistinctLids(pairs) && AllDeviceFree(pairs)
    requires i < j < |pairs| && pairs[i].pn == pairs[j].pn
    requires forall k :: 0 <= k < i ==> pairs[k].pn != pairs[i].pn
    ensures !AlwaysIdentitySums(pairs)
  {
    var a, b := pairs[i].lid, pairs[j].lid;
    var base := map[a := ONE, b := ONE];
    OneMessageEachCounted(base, a, b);
    SharedNumberLosesCounts(base, pairs, i, j);
    Falsifies(pairs, OneMessageEach(a, b), base, a);
  }

  /** The two loops give every device-free JID the total of its identity, for all rows of the query,
      exactly when no two LIDs share a number. */
  lemma IdentitySumsIff(pairs: seq<Mapping>)
    requires AllWellFormed(pairs) && DistinctLids(pairs) && AllDeviceFree(pairs)
    ensures AlwaysIdentitySums(pairs) <==> DistinctPns(pairs)
  {
    if DistinctPns(pairs) {
      DistinctNumbersSum(pairs);
    } else {
      var i, j :| 0 <= i < j < |pairs| && pairs[i].pn == pairs[j].pn;
      var first := FirstWithNumber(pairs, i);
      SharedNumberFails(pairs, first, j);
    }
  }

  lemma {:induction false} FirstWithNumber(pairs: seq<Mapping>, i: nat) returns (first: nat)
    requires i < |pairs|
    ensures first <= i && pairs[first].pn == pairs[i].pn
    ensures forall k :: 0 <= k < first ==> pairs[k].pn != pairs[i].pn
  {
    first := i;
    if k :| 0 <= k < i && pairs[k].pn == pairs[i].pn {
      first := FirstWithNumber(pairs, k);
    }
  }

  const ONE := MsgStat(1, 0)

  function OneMessageEach(a: string, b: string): seq<SenderStat> {
    [SenderStat(a, 1, 0), SenderStat(b, 1, 0)]
  }

  /** Two LIDs of one number, each with one message: the LID that the loop over the map visits first
      still shows one message, though the two sent two. */
  lemma SharedNumberLosesCounts(base: StatMap, pairs: seq<Mapping>, i: nat, j: nat)
    requires AllWellFormed(pairs) && DistinctLids(pairs) && AllDeviceFree(pairs)
    requires i < j < |pairs| && pairs[i].pn == pairs[j].pn
    requires forall k :: 0 <= k < i ==> pairs[k].pn != pairs[i].pn
    requires Counted(base, OneMessageEach(pairs[i].lid, pairs[j].lid))
    ensures var norm := Normalizer(MapOf(pairs));
            && Entry(AliasAll(base, pairs), pairs[i].lid) == Some(MsgStat(1, 0))
            && norm(pairs[i].lid) == norm(pairs[j].lid) == pairs[i].pn
            && SumForIdentity(Keyed(OneMessageEach(pairs[i].lid, pairs[j].lid)), pairs[i].pn, norm) == Some(MsgStat(2, 0))
  {
    var a, b := pairs[i].lid, pairs[j].lid;
    OneMessageEachMap(base, a, b);
    assert WellFormed(pairs[i]) && WellFormed(pairs[j]);
    PnIsNotLid(pairs[i].pn);
    FirstPairKeepsItsOwn(base, pairs, i);
    LookupOfPair(pairs, i);
    LookupOfPair(pairs, j);
    TwoOfOneIdentity(Keyed(OneMessageEach(a, b)), pairs[i].pn, Normalizer(MapOf(pairs)));
  }

  lemma LookupOfPair(pairs: seq<Mapping>, i: nat)
    requires AllWellFormed(pairs) && DistinctLids(pairs) && i < |pairs|
    ensures Normalizer(MapOf(pairs))(pairs[i].lid) == pairs[i].pn
  {
    assert WellFormed(pairs[i]);
    MapOfLookup(pairs, pairs[i].lid);
  }

  lemma SumForTwo(sent: seq<Sent<string>>, k: string)
    requires |sent| == 2 && sent[0].key != sent[1].key
    ensures SumFor(sent, k) ==
            if k == sent[0].key then Some(sent[0].stat) else if k == sent[1].key then Some(sent[1].stat) else None
  {
    assert sent[..1][..0] == [] && sent[..1][0] == sent[0];
    assert SumFor(sent[..1], k) == if k == sent[0].key then Some(sent[0].stat) else None;
  }

  lemma OneMessageEachCounted(base: StatMap, a: string, b: string)
    requires DeviceFree(a) && DeviceFree(b) && a != b && base == map[a := ONE, b := ONE]
    ensures Counted(base, OneMessageEach(a, b))
  {
    var sent := Keyed(OneMessageEach(a, b));
    forall k ensures Entry(base, k) == SumFor(sent, k) {
      SumForTwo(sent, k);
    }
  }

  lemma SameEverywhere(base: StatMap, sent: seq<Sent<string>>, k: string)
    requires HoldsSums(base, sent) && forall i :: 0 <= i < |sent| ==> sent[i].key == sent[i].sender
    ensures Entry(base, k) == SumFor(sent, k)
  {
    assert !IsAlias(sent, k);
  }

  lemma OneMessageEachMap(base: StatMap, a: string, b: string)
    requires DeviceFree(a) && DeviceFree(b) && a != b && Counted(base, OneMessageEach(a, b))
    ensures base == map[a := ONE, b := ONE]
  {
    var sent := Keyed(OneMessageEach(a, b));
    forall k ensures (k in base <==> k == a || k == b) && (k in base ==> base[k] == ONE) {
      SumForTwo(sent, k);
      SameEverywhere(base, sent, k);
    }
  }

  lemma TwoOfOneIdentity(sent: seq<Sent<string>>, c: string, norm: string -> string)
    requires |sent| == 2 && norm(sent[0].key) == c && norm(sent[1].key) == c
    ensures SumForIdentity(sent, c, norm) == Some(Plus(sent[0].stat, sent[1].stat))
  {
    assert sent[..1][..0] == [] && sent[..1][0] == sent[0];
    assert SumForIdentity(sent[..1], c, norm) == Some(sent[0].stat);
  }
}
