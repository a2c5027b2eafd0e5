/** LID → phone-number identity: loadLIDMap, normalizeLIDJID and runLIDMigration in
    internal/api/lidmigration.go. */
module Identity {
  import opened Common

  const LID_SERVER: string := "@lid"
  const PN_SERVER: string := "@s.whatsapp.net"

  /** A row of whatsmeow_lid_map: user parts only. */
  datatype LidRow = LidRow(lidUser: string, pnUser: string)

  /** A mapping between full JIDs. (Lemmas that only compare JIDs are generic in their type `K`.) */
  datatype MappingOf<K> = Mapping(lid: K, pn: K)
  type Mapping = MappingOf<string>

  /** The parts of an event the migration and the chat list look at; a missing JSON field is None.
      `content` says that the event passes the chat list's type and content filters. */
  datatype Event = Event(sender: Option<string>, chat: Option<string>, created: string, content: bool)

  // ---------------------------------------------------------------- mappings

  ghost predicate WellFormed(m: Mapping) {
    HasSuffix(m.lid, LID_SERVER) && HasSuffix(m.pn, PN_SERVER)
  }

  ghost predicate AllWellFormed(ms: seq<Mapping>) {
    forall i :: 0 <= i < |ms| ==> WellFormed(ms[i])
  }

  /** No LID is given two phone numbers. */
  ghost predicate Functional(ms: seq<Mapping>) {
    forall i, j :: 0 <= i < |ms| && 0 <= j < |ms| && ms[i].lid == ms[j].lid ==> ms[i].pn == ms[j].pn
  }

  /** The full-JID mappings of the table; rows with an empty user are skipped. */
  function Mappings(rows: seq<LidRow>): (ms: seq<Mapping>)
    ensures AllWellFormed(ms)
  {
    if rows == [] then []
    else
      var r := rows[|rows| - 1];
      var ms := Mappings(rows[..|rows| - 1]);
      if r.lidUser != "" && r.pnUser != "" then ms + [Mapping(r.lidUser + LID_SERVER, r.pnUser + PN_SERVER)] else ms
  }

  /** The map filled by storing the mappings one after the other: the last one for a LID wins. */
  function MapOf(ms: seq<Mapping>): map<string, string> {
    if ms == [] then map[] else MapOf(ms[..|ms| - 1])[ms[|ms| - 1].lid := ms[|ms| - 1].pn]
  }

  lemma MapOfAppend(ms: seq<Mapping>, m: Mapping)
    ensures MapOf(ms + [m]) == MapOf(ms)[m.lid := m.pn]
  {
    assert (ms + [m])[..|ms|] == ms;
  }

  ghost predicate FirstFor(ms: seq<Mapping>, i: int, lid: string) {
    0 <= i < |ms| && ms[i].lid == lid && forall j :: 0 <= j < i ==> ms[j].lid != lid
  }

  ghost predicate LastFor(ms: seq<Mapping>, i: int, lid: string) {
    0 <= i < |ms| && ms[i].lid == lid && forall j :: i < j < |ms| ==> ms[j].lid != lid
  }

  ghost predicate Unmapped(ms: seq<Mapping>, jid: string) {
    forall j :: 0 <= j < |ms| ==> ms[j].lid != jid
  }

  /** For every LID, the first and the last mapping give the same number (no LID has two numbers, say). */
  ghost predicate FirstIsLast(ms: seq<Mapping>) {
    forall i, j, lid :: FirstFor(ms, i, lid) && LastFor(ms, j, lid) ==> ms[i].pn == ms[j].pn
  }

  lemma {:induction false} MapOfLookup(ms: seq<Mapping>, k: string)
    ensures k !in MapOf(ms) <==> Unmapped(ms, k)
    ensures k in MapOf(ms) ==> exists i :: LastFor(ms, i, k) && ms[i].pn == MapOf(ms)[k]
  {
    if ms != [] {
      var n := |ms| - 1;
      MapOfLookup(ms[..n], k);
      assert forall j :: 0 <= j < n ==> ms[j] == ms[..n][j];
      if ms[n].lid == k {
        assert LastFor(ms, n, k) && MapOf(ms)[k] == ms[n].pn;
      } else if k in MapOf(ms) {
        var i :| LastFor(ms[..n], i, k) && ms[..n][i].pn == MapOf(ms)[k];
        assert LastFor(ms, i, k);
      }
    }
  }

  /** Row `r` maps the LID `lid`: both of its users are there, and the LID is its own. */
  ghost predicate RowFor(rows: seq<LidRow>, r: int, lid: string) {
    0 <= r < |rows| && rows[r].lidUser != "" && rows[r].pnUser != "" && lid == rows[r].lidUser + "@lid"
  }

  ghost predicate LastRowFor(rows: seq<LidRow>, r: int, lid: string) {
    RowFor(rows, r, lid) && forall later :: r < later < |rows| ==> !RowFor(rows, later, lid)
  }

  /** `m` maps `lid` exactly if a row does, and then to the number of its last row. */
  ghost predicate MapsAsRows(m: map<string, string>, rows: seq<LidRow>, lid: string) {
    && (lid in m <==> exists r :: RowFor(rows, r, lid))
    && (forall r :: LastRowFor(rows, r, lid) ==> lid in m && m[lid] == rows[r].pnUser + "@s.whatsapp.net")
  }

  lemma SameRow(rows: seq<LidRow>, r: int, lid: string)
    requires rows != [] && r != |rows| - 1
    ensures RowFor(rows, r, lid) == RowFor(rows[..|rows| - 1], r, lid)
  {
  }

  lemma RowsStep(rows: seq<LidRow>, lid: string)
    requires rows != []
    ensures var n := |rows| - 1;
            && ((exists r :: RowFor(rows, r, lid)) <==> RowFor(rows, n, lid) || exists r :: RowFor(rows[..n], r, lid))
            && (forall r :: LastRowFor(rows, r, lid) ==>
                  if RowFor(rows, n, lid) then r == n else LastRowFor(rows[..n], r, lid) && rows[..n][r] == rows[r])
  {
    var n := |rows| - 1;
    forall r | r != n ensures RowFor(rows, r, lid) == RowFor(rows[..n], r, lid) {
      SameRow(rows, r, lid);
    }
  }

  /** `after` is `before` with the mapping of row `r` stored, if it is for `lid`. */
  ghost predicate Stored(before: map<string, string>, after: map<string, string>, r: LidRow, isFor: bool, lid: string) {
    if isFor then lid in after && after[lid] == r.pnUser + "@s.whatsapp.net"
    else (lid in after <==> lid in before) && (lid in after ==> after[lid] == before[lid])
  }

  lemma StoreStep(rows: seq<LidRow>, lid: string)
    requires rows != []
    ensures var n := |rows| - 1;
            Stored(MapOf(Mappings(rows[..n])), MapOf(Mappings(rows)), rows[n], RowFor(rows, n, lid), lid)
  {
    var n := |rows| - 1;
    if rows[n].lidUser != "" && rows[n].pnUser != "" {
      MapOfAppend(Mappings(rows[..n]), Mapping(rows[n].lidUser + LID_SERVER, rows[n].pnUser + PN_SERVER));
    }
  }

  lemma MapsStep(before: map<string, string>, after: map<string, string>, rows: seq<LidRow>, lid: string)
    requires rows != [] && MapsAsRows(before, rows[..|rows| - 1], lid)
    requires Stored(before, after, rows[|rows| - 1], RowFor(rows, |rows| - 1, lid), lid)
    ensures MapsAsRows(after, rows, lid)
  {
    RowsStep(rows, lid);
  }

  lemma {:induction false} MapOfRows(rows: seq<LidRow>, lid: string)
    ensures MapsAsRows(MapOf(Mappings(rows)), rows, lid)
  {
    if rows != [] {
      var front := rows[..|rows| - 1];
      MapOfRows(front, lid);
      StoreStep(rows, lid);
      MapsStep(MapOf(Mappings(front)), MapOf(Mappings(rows)), rows, lid);
    }
  }

  method LoadLIDMap(rows: seq<LidRow>) returns (m: map<string, string>)
    ensures m == MapOf(Mappings(rows))
    ensures forall lid :: MapsAsRows(m, rows, lid)
  {
    m := map[];
    for i := 0 to |rows|
      invariant m == MapOf(Mappings(rows[..i]))
    {
      var r := rows[i];
      assert rows[..i + 1][..i] == rows[..i];
      if r.lidUser != "" && r.pnUser != "" {
        var mapping := Mapping(r.lidUser + LID_SERVER, r.pnUser + PN_SERVER);
        m := m[mapping.lid := mapping.pn];
        MapOfAppend(Mappings(rows[..i]), mapping);
      }
    }
    assert rows[..|rows|] == rows;
    forall lid ensures MapsAsRows(m, rows, lid) {
      MapOfRows(rows, lid);
    }
  }

  // ---------------------------------------------------------------- one JID

  function NormalizeLIDJID(jid: string, lidMap: map<string, string>): string {
    if HasSuffix(jid, LID_SERVER) && jid in lidMap then lidMap[jid] else jid
  }

  /** Every key is a LID JID and every value a phone-number JID. */
  ghost predicate IsLidMap(m: map<string, string>) {
    forall k :: k in m ==> HasSuffix(k, LID_SERVER) && HasSuffix(m[k], PN_SERVER)
  }

  lemma PnIsNotLid(jid: string)
    requires HasSuffix(jid, PN_SERVER)
    ensures !HasSuffix(jid, LID_SERVER)
  {
    var last := jid[|jid| - 1];
    assert jid[|jid| - 15..][14] == last;
    assert jid[|jid| - 4..][3] == last;
  }

  lemma MapOfIsLidMap(ms: seq<Mapping>)
    requires AllWellFormed(ms)
    ensures IsLidMap(MapOf(ms))
  {
    forall k | k in MapOf(ms) ensures HasSuffix(k, LID_SERVER) && HasSuffix(MapOf(ms)[k], PN_SERVER) {
      MapOfLookup(ms, k);
      var i :| LastFor(ms, i, k) && ms[i].pn == MapOf(ms)[k];
      assert WellFormed(ms[i]);
    }
  }

  /** A normalised JID is never a mapped LID, so normalising again changes nothing. */
  lemma NormalizeIsCanonical(jid: string, m: map<string, string>)
    requires IsLidMap(m)
    ensures NormalizeLIDJID(jid, m) !in m
    ensures NormalizeLIDJID(NormalizeLIDJID(jid, m), m) == NormalizeLIDJID(jid, m)
  {
    if jid in m {
      PnIsNotLid(m[jid]);
    }
  }

  // ---------------------------------------------------------------- the migration, event by event

  function Normalizer(m: map<string, string>): string -> string {
    jid => NormalizeLIDJID(jid, m)
  }

  function NormalizeField(v: Option<string>, norm: string -> string): Option<string> {
    match v case None => None case Some(jid) => Some(norm(jid))
  }

  /** The simple per-record normalisation that the migration has to agree with. */
  function NormalizeEvent(e: Event, norm: string -> string): Event {
    e.(sender := NormalizeField(e.sender, norm), chat := NormalizeField(e.chat, norm))
  }

  function NormalizeAll(events: seq<Event>, norm: string -> string): seq<Event> {
    seq(|events|, i requires 0 <= i < |events| => NormalizeEvent(events[i], norm))
  }

  function Replace(v: Option<string>, m: Mapping): Option<string> {
    if v == Some(m.lid) then Some(m.pn) else v
  }

  /** Which of a mapping's two UPDATE statements succeed. */
  datatype Outcome = Outcome(senderOk: bool, chatOk: bool)

  const BOTH_OK := Outcome(true, true)

  function UpdateEvent(e: Event, m: Mapping, o: Outcome): Event {
    e.(sender := if o.senderOk then Replace(e.sender, m) else e.sender,
       chat := if o.chatOk then Replace(e.chat, m) else e.chat)
  }

  function MigrateEvent(e: Event, ms: seq<Mapping>, os: seq<Outcome>): Event
    requires |ms| == |os|
  {
    if ms == [] then e else UpdateEvent(MigrateEvent(e, ms[..|ms| - 1], os[..|ms| - 1]), ms[|ms| - 1], os[|ms| - 1])
  }

  ghost predicate AllOk(os: seq<Outcome>) {
    forall i :: 0 <= i < |os| ==> os[i] == BOTH_OK
  }

  /** The sequence of replacements sends a field to the number of the first mapping for it,
      because a phone-number JID is never a LID that a later mapping could rewrite. */
  lemma {:induction false} MigratedField(e: Event, ms: seq<Mapping>, os: seq<Outcome>)
    requires AllWellFormed(ms) && |ms| == |os| && AllOk(os)
    ensures MigratedTo(e.sender, MigrateEvent(e, ms, os).sender, ms)
    ensures MigratedTo(e.chat, MigrateEvent(e, ms, os).chat, ms)
    ensures MigrateEvent(e, ms, os).created == e.created && MigrateEvent(e, ms, os).content == e.content
  {
    if ms != [] {
      var n := |ms| - 1;
      MigratedField(e, ms[..n], os[..n]);
      var before := MigrateEvent(e, ms[..n], os[..n]);
      assert WellFormed(ms[n]) && os[n] == BOTH_OK;
      MigratedStep(e.sender, before.sender, ms);
      MigratedStep(e.chat, before.chat, ms);
    }
  }

  ghost predicate MigratedTo(v: Option<string>, w: Option<string>, ms: seq<Mapping>) {
    match v
    case None => w.None?
    case Some(jid) =>
      w.Some? &&
      ((Unmapped(ms, jid) && w == v) || exists i :: FirstFor(ms, i, jid) && w.value == ms[i].pn)
  }

  lemma MigratedStep(v: Option<string>, w: Option<string>, ms: seq<Mapping>)
    requires AllWellFormed(ms) && ms != []
    requires MigratedTo(v, w, ms[..|ms| - 1])
    ensures MigratedTo(v, Replace(w, ms[|ms| - 1]), ms)
  {
    var n := |ms| - 1;
    if v.Some? {
      if Unmapped(ms[..n], v.value) && w == v {
        assert forall j :: 0 <= j < n ==> ms[j] == ms[..n][j];
        if ms[n].lid == v.value {
          assert FirstFor(ms, n, v.value);
        }
      } else {
        var i :| FirstFor(ms[..n], i, v.value) && w.value == ms[..n][i].pn;
        assert forall j :: 0 <= j < n ==> ms[j] == ms[..n][j];
        assert FirstFor(ms, i, v.value);
        assert WellFormed(ms[i]) && WellFormed(ms[n]);
        PnIsNotLid(ms[i].pn);
      }
    }
  }

  lemma FieldAgrees(v: Option<string>, w: Option<string>, ms: seq<Mapping>)
    requires AllWellFormed(ms) && FirstIsLast(ms) && MigratedTo(v, w, ms)
    ensures w == NormalizeField(v, Normalizer(MapOf(ms)))
  {
    if v.Some? {
      var jid := v.value;
      MapOfLookup(ms, jid);
      if jid in MapOf(ms) {
        var last :| LastFor(ms, last, jid) && ms[last].pn == MapOf(ms)[jid];
        var first :| FirstFor(ms, first, jid) && w.value == ms[first].pn;
        assert WellFormed(ms[last]);
      }
    }
  }

  lemma MigrationNormalizes(e: Event, ms: seq<Mapping>, os: seq<Outcome>)
    requires AllWellFormed(ms) && |ms| == |os| && AllOk(os) && FirstIsLast(ms)
    ensures MigrateEvent(e, ms, os) == NormalizeEvent(e, Normalizer(MapOf(ms)))
  {
    MigratedField(e, ms, os);
    FieldAgrees(e.sender, MigrateEvent(e, ms, os).sender, ms);
    FieldAgrees(e.chat, MigrateEvent(e, ms, os).chat, ms);
  }

  lemma AgreementNeedsFirstIsLast(ms: seq<Mapping>, os: seq<Outcome>, i: int, j: int, lid: string)
    requires AllWellFormed(ms) && |ms| == |os| && AllOk(os)
    requires AgreesOn(Event(Some(lid), None, "", false), ms, os)
    requires FirstFor(ms, i, lid) && LastFor(ms, j, lid)
    ensures ms[i].pn == ms[j].pn
  {
    var e := Event(Some(lid), None, "", false);
    MigratedField(e, ms, os);
    var first :| FirstFor(ms, first, lid) && MigrateEvent(e, ms, os).sender == Some(ms[first].pn);
    assert first == i;
    MapOfLookup(ms, lid);
    var last :| LastFor(ms, last, lid) && ms[last].pn == MapOf(ms)[lid];
    assert last == j;
    assert WellFormed(ms[i]);
  }

  ghost predicate AgreesOn(e: Event, ms: seq<Mapping>, os: seq<Outcome>)
    requires |ms| == |os|
  {
    MigrateEvent(e, ms, os) == NormalizeEvent(e, Normalizer(MapOf(ms)))
  }

  /** Migrating by successive updates agrees with normalising each event by the map used at read
      time, on every event, exactly when each LID's first and last mapping agree: the updates
      apply the first mapping for a LID, the map keeps the last. */
  lemma MigrationNormalizesIff(ms: seq<Mapping>, os: seq<Outcome>)
    requires AllWellFormed(ms) && |ms| == |os| && AllOk(os)
    ensures (forall e :: AgreesOn(e, ms, os)) <==> FirstIsLast(ms)
  {
    if FirstIsLast(ms) {
      forall e ensures AgreesOn(e, ms, os) {
        MigrationNormalizes(e, ms, os);
      }
    }
    if forall e :: AgreesOn(e, ms, os) {
      forall i, j, lid | FirstFor(ms, i, lid) && LastFor(ms, j, lid) ensures ms[i].pn == ms[j].pn {
        assert AgreesOn(Event(Some(lid), None, "", false), ms, os);
        AgreementNeedsFirstIsLast(ms, os, i, j, lid);
      }
    }
  }

  /** The read-time map does not depend on the order the mappings are read in, or on repeats. */
  lemma MapOfOrderIndependent(ms: seq<Mapping>, other: seq<Mapping>)
    requires Functional(ms) && (forall m :: m in ms <==> m in other)
    ensures MapOf(ms) == MapOf(other) && FirstIsLast(ms) && FirstIsLast(other)
  {
    forall i, j | 0 <= i < |other| && 0 <= j < |other| && other[i].lid == other[j].lid
      ensures other[i].pn == other[j].pn
    {
      assert other[i] in ms && other[j] in ms;
    }
    forall k ensures k in MapOf(ms) <==> k in MapOf(other)
      ensures k in MapOf(ms) ==> MapOf(ms)[k] == MapOf(other)[k]
    {
      MapOfLookup(ms, k);
      MapOfLookup(other, k);
      if k in MapOf(ms) {
        var i :| LastFor(ms, i, k) && ms[i].pn == MapOf(ms)[k];
        assert ms[i] in other;
      }
      if k in MapOf(other) {
        var i :| LastFor(other, i, k) && other[i].pn == MapOf(other)[k];
        assert other[i] in ms;
      }
    }
  }

  /** The migrated table does not depend on the order in which the mappings are read, nor on repeats. */
  lemma {:induction false} MigrationOrderIndependent(
    events: seq<Event>, ms: seq<Mapping>, os: seq<Outcome>, other: seq<Mapping>, otherOs: seq<Outcome>)
    requires AllWellFormed(ms) && AllWellFormed(other) && Functional(ms) && (forall m :: m in ms <==> m in other)
    requires |ms| == |os| && AllOk(os) && |other| == |otherOs| && AllOk(otherOs)
    ensures MigrateAll(events, ms, os) == MigrateAll(events, other, otherOs)
  {
    MapOfOrderIndependent(ms, other);
    forall i | 0 <= i < |events|
      ensures MigrateEvent(events[i], ms, os) == MigrateEvent(events[i], other, otherOs)
    {
      MigrationNormalizes(events[i], ms, os);
      MigrationNormalizes(events[i], other, otherOs);
    }
  }

  /** A partly failed run loses nothing: normalising what it left gives the full normalisation. */
  lemma {:induction false} PartialRunThenNormalize(e: Event, ms: seq<Mapping>, os: seq<Outcome>, all: seq<Mapping>)
    requires AllWellFormed(all) && Functional(all) && ms <= all && |ms| == |os|
    ensures NormalizeEvent(MigrateEvent(e, ms, os), Normalizer(MapOf(all))) == NormalizeEvent(e, Normalizer(MapOf(all)))
  {
    if ms != [] {
      var n := |ms| - 1;
      PartialRunThenNormalize(e, ms[..n], os[..n], all);
      var before := MigrateEvent(e, ms[..n], os[..n]);
      assert ms[n] == all[n] && WellFormed(all[n]);
      ReplaceThenNormalize(before.sender, n, all);
      ReplaceThenNormalize(before.chat, n, all);
    }
  }

  lemma ReplaceThenNormalize(v: Option<string>, n: nat, all: seq<Mapping>)
    requires AllWellFormed(all) && Functional(all) && n < |all|
    ensures NormalizeField(Replace(v, all[n]), Normalizer(MapOf(all))) == NormalizeField(v, Normalizer(MapOf(all)))
  {
    if v == Some(all[n].lid) {
      MapOfLookup(all, all[n].lid);
      assert WellFormed(all[n]);
      MapOfIsLidMap(all);
      NormalizeIsCanonical(all[n].lid, MapOf(all));
    }
  }

  // ---------------------------------------------------------------- the migration, on the table

  /** 1 when an UPDATE with this mapping rewrites the field, else 0. */
  function Hit(v: Option<string>, lid: string): nat {
    if v == Some(lid) then 1 else 0
  }

  function SenderHits(events: seq<Event>, lid: string): nat {
    if events == [] then 0 else SenderHits(events[..|events| - 1], lid) + Hit(events[|events| - 1].sender, lid)
  }

  function ChatHits(events: seq<Event>, lid: string): nat {
    if events == [] then 0 else ChatHits(events[..|events| - 1], lid) + Hit(events[|events| - 1].chat, lid)
  }

  function MigrateAll(events: seq<Event>, ms: seq<Mapping>, os: seq<Outcome>): seq<Event>
    requires |ms| == |os|
  {
    seq(|events|, i requires 0 <= i < |events| => MigrateEvent(events[i], ms, os))
  }

  class EventTable {
    var events: seq<Event>

    constructor (events: seq<Event>)
      ensures this.events == events
    {
      this.events := events;
    }

    /** UPDATE events SET Sender = pn WHERE Sender = lid; returns the rows affected. */
    method UpdateSender(m: Mapping) returns (affected: nat)
      modifies this
      ensures |events| == |old(events)|
      ensures forall i :: 0 <= i < |events| ==> events[i] == UpdateEvent(old(events)[i], m, Outcome(true, false))
      ensures affected == SenderHits(old(events), m.lid)
    {
      affected := 0;
      for i := 0 to |events|
        invariant |events| == |old(events)|
        invariant forall k :: 0 <= k < i ==> events[k] == UpdateEvent(old(events)[k], m, Outcome(true, false))
        invariant forall k :: i <= k < |events| ==> events[k] == old(events)[k]
        invariant affected == SenderHits(old(events)[..i], m.lid)
      {
        assert old(events)[..i + 1][..i] == old(events)[..i];
        if events[i].sender == Some(m.lid) {
          events := events[i := events[i].(sender := Some(m.pn))];
          affected := affected + 1;
        }
      }
      assert old(events)[..|events|] == old(events);
    }

    /** UPDATE events SET Chat = pn WHERE Chat = lid; returns the rows affected. */
    method UpdateChat(m: Mapping) returns (affected: nat)
      modifies this
      ensures |events| == |old(events)|
      ensures forall i :: 0 <= i < |events| ==> events[i] == UpdateEvent(old(events)[i], m, Outcome(false, true))
      ensures affected == ChatHits(old(events), m.lid)
    {
      affected := 0;
      for i := 0 to |events|
        invariant |events| == |old(events)|
        invariant forall k :: 0 <= k < i ==> events[k] == UpdateEvent(old(events)[k], m, Outcome(false, true))
        invariant forall k :: i <= k < |events| ==> events[k] == old(events)[k]
        invariant affected == ChatHits(old(events)[..i], m.lid)
      {
        assert old(events)[..i + 1][..i] == old(events)[..i];
        if events[i].chat == Some(m.lid) {
          events := events[i := events[i].(chat := Some(m.pn))];
          affected := affected + 1;
        }
      }
      assert old(events)[..|events|] == old(events);
    }
  }

  /** Fields rewritten by a run: a failed statement rewrites nothing and counts nothing. */
  function Rewritten(events: seq<Event>, ms: seq<Mapping>, os: seq<Outcome>): nat
    requires |ms| == |os|
  {
    if ms == [] then 0
    else
      var n := |ms| - 1;
      var before := MigrateAll(events, ms[..n], os[..n]);
      Rewritten(events, ms[..n], os[..n])
      + (if os[n].senderOk then SenderHits(before, ms[n].lid) else 0)
      + (if os[n].chatOk then ChatHits(before, ms[n].lid) else 0)
  }

  lemma {:induction false} ChatHitsKept(events: seq<Event>, others: seq<Event>, lid: string)
    requires |events| == |others| && forall i :: 0 <= i < |events| ==> events[i].chat == others[i].chat
    ensures ChatHits(events, lid) == ChatHits(others, lid)
  {
    if events != [] {
      ChatHitsKept(events[..|events| - 1], others[..|events| - 1], lid);
    }
  }

  /** runLIDMigration over the mappings read from the table; `os` says which statements succeed. */
  method RunLIDMigration(table: EventTable, rows: seq<LidRow>, os: seq<Outcome>) returns (updated: nat)
    requires |os| == |Mappings(rows)|
    modifies table
    ensures table.events == MigrateAll(old(table.events), Mappings(rows), os)
    ensures updated == Rewritten(old(table.events), Mappings(rows), os)
  {
    var ms := Mappings(rows);
    ghost var start := table.events;
    updated := 0;
    for n := 0 to |ms|
      invariant table.events == MigrateAll(start, ms[..n], os[..n])
      invariant updated == Rewritten(start, ms[..n], os[..n])
    {
      ghost var before := table.events;
      assert ms[..n + 1][..n] == ms[..n] && os[..n + 1][..n] == os[..n];
      if os[n].senderOk {
        var affected := table.UpdateSender(ms[n]);
        updated := updated + affected;
      }
      ChatHitsKept(before, table.events, ms[n].lid);
      if os[n].chatOk {
        var affected := table.UpdateChat(ms[n]);
        updated := updated + affected;
      }
      assert forall i :: 0 <= i < |start| ==>
        MigrateEvent(start[i], ms[..n + 1], os[..n + 1]) == UpdateEvent(before[i], ms[n], os[n]);
    }
    assert ms[..|ms|] == ms && os[..|ms|] == os;
  }

  function Mapped(v: Option<string>, m: map<string, string>): nat {
    if v.Some? && v.value in m then 1 else 0
  }

  /** The sender and chat fields of the table that hold a mapped LID. */
  function MappedFields(events: seq<Event>, m: map<string, string>): nat {
    if events == [] then 0
    else
      var e := events[|events| - 1];
      MappedFields(events[..|events| - 1], m) + Mapped(e.sender, m) + Mapped(e.chat, m)
  }

  lemma {:induction false} OneMappingCounted(events: seq<Event>, ms: seq<Mapping>, os: seq<Outcome>, m: Mapping)
    requires AllWellFormed(ms) && WellFormed(m) && |ms| == |os| && AllOk(os)
    ensures var before := MigrateAll(events, ms, os);
            MappedFields(events, MapOf(ms)) + SenderHits(before, m.lid) + ChatHits(before, m.lid)
            == MappedFields(events, MapOf(ms)[m.lid := m.pn])
  {
    if events != [] {
      var n := |events| - 1;
      OneMappingCounted(events[..n], ms, os, m);
      var e := events[n];
      MigratedField(e, ms, os);
      FieldCounted(e.sender, MigrateEvent(e, ms, os).sender, ms, m);
      FieldCounted(e.chat, MigrateEvent(e, ms, os).chat, ms, m);
      assert MigrateAll(events, ms, os)[..n] == MigrateAll(events[..n], ms, os);
    }
  }

  lemma FieldCounted(v: Option<string>, w: Option<string>, ms: seq<Mapping>, m: Mapping)
    requires AllWellFormed(ms) && WellFormed(m) && MigratedTo(v, w, ms)
    ensures Mapped(v, MapOf(ms)) + Hit(w, m.lid) == Mapped(v, MapOf(ms)[m.lid := m.pn])
  {
    if v.Some? {
      MapOfLookup(ms, v.value);
      if !Unmapped(ms, v.value) {
        var i :| FirstFor(ms, i, v.value) && w.value == ms[i].pn;
        assert WellFormed(ms[i]);
        PnIsNotLid(ms[i].pn);
      }
    }
  }

  /** The count a run without failures reports is the number of fields that held a mapped LID:
      no field is rewritten twice, and none is missed. */
  lemma {:induction false} UpdatedCountIsMappedFields(events: seq<Event>, ms: seq<Mapping>, os: seq<Outcome>)
    requires AllWellFormed(ms) && |ms| == |os| && AllOk(os)
    ensures Rewritten(events, ms, os) == MappedFields(events, MapOf(ms))
  {
    if ms == [] {
      NothingMapped(events);
    } else {
      var n := |ms| - 1;
      UpdatedCountIsMappedFields(events, ms[..n], os[..n]);
      assert os[n] == BOTH_OK && WellFormed(ms[n]);
      OneMappingCounted(events, ms[..n], os[..n], ms[n]);
    }
  }

  lemma {:induction false} NothingMapped(events: seq<Event>)
    ensures MappedFields(events, map[]) == 0
  {
    if events != [] {
      NothingMapped(events[..|events| - 1]);
    }
  }

  /** A run without failures normalises every event of the table, and leaves no mapped LID. */
  lemma MigratedTableIsNormalized(events: seq<Event>, ms: seq<Mapping>, os: seq<Outcome>)
    requires AllWellFormed(ms) && Functional(ms) && |ms| == |os| && AllOk(os)
    ensures MigrateAll(events, ms, os) == NormalizeAll(events, Normalizer(MapOf(ms)))
    ensures forall i :: 0 <= i < |events| ==>
              var e := MigrateAll(events, ms, os)[i];
              && (e.sender.Some? ==> e.sender.value !in MapOf(ms))
              && (e.chat.Some? ==> e.chat.value !in MapOf(ms))
  {
    MapOfIsLidMap(ms);
    forall i | 0 <= i < |events|
      ensures MigrateAll(events, ms, os)[i] == NormalizeAll(events, Normalizer(MapOf(ms)))[i]
      ensures var e := NormalizeEvent(events[i], Normalizer(MapOf(ms)));
              && (e.sender.Some? ==> e.sender.value !in MapOf(ms))
              && (e.chat.Some? ==> e.chat.value !in MapOf(ms))
    {
      MigrationNormalizes(events[i], ms, os);
      if events[i].sender.Some? {
        NormalizeIsCanonical(events[i].sender.value, MapOf(ms));
      }
      if events[i].chat.Some? {
        NormalizeIsCanonical(events[i].chat.value, MapOf(ms));
      }
    }
  }

  /** The table's primary key: no two rows have the same LID user. */
  ghost predicate DistinctLidUsers(rows: seq<LidRow>) {
    forall r, q :: 0 <= r < q < |rows| ==> rows[r].lidUser != rows[q].lidUser
  }

  /** `w` is what the migration makes of the field `v`: a row's LID becomes that row's number, and
      anything else stays. */
  ghost predicate MigratedByRows(v: Option<string>, w: Option<string>, rows: seq<LidRow>) {
    && (forall r :: v.Some? && RowFor(rows, r, v.value) ==> w == Some(rows[r].pnUser + "@s.whatsapp.net"))
    && ((v.None? || forall r :: !RowFor(rows, r, v.value)) ==> w == v)
  }

  ghost predicate EventMigratedByRows(e: Event, f: Event, rows: seq<LidRow>) {
    && MigratedByRows(e.sender, f.sender, rows) && MigratedByRows(e.chat, f.chat, rows)
    && f.created == e.created && f.content == e.content
  }

  lemma {:induction false} MappingOfRow(rows: seq<LidRow>, i: nat) returns (r: nat)
    requires i < |Mappings(rows)|
    ensures RowFor(rows, r, Mappings(rows)[i].lid)
  {
    var n := |rows| - 1;
    if i < |Mappings(rows[..n])| {
      r := MappingOfRow(rows[..n], i);
    } else {
      r := n;
    }
  }

  lemma DistinctRowsAgree(rows: seq<LidRow>, r: int, q: int, lid: string)
    requires DistinctLidUsers(rows) && RowFor(rows, r, lid) && RowFor(rows, q, lid)
    ensures r == q
  {
    var a, b := rows[r].lidUser, rows[q].lidUser;
    assert lid[..|lid| - 4] == a && lid[..|lid| - 4] == b;
  }

  lemma {:induction false} DistinctRowsAreFunctional(rows: seq<LidRow>)
    requires DistinctLidUsers(rows)
    ensures forall i, j :: 0 <= i < j < |Mappings(rows)| ==> Mappings(rows)[i].lid != Mappings(rows)[j].lid
  {
    if rows != [] {
      var n := |rows| - 1;
      DistinctRowsAreFunctional(rows[..n]);
      var ms := Mappings(rows[..n]);
      forall i | 0 <= i < |ms| && |Mappings(rows)| > |ms| ensures ms[i].lid != Mappings(rows)[|ms|].lid {
        var r := MappingOfRow(rows[..n], i);
        SameRow(rows, r, ms[i].lid);
        if ms[i].lid == Mappings(rows)[|ms|].lid {
          DistinctRowsAgree(rows, r, n, ms[i].lid);
        }
      }
    }
  }

  lemma NormalizedByRows(v: Option<string>, rows: seq<LidRow>)
    requires DistinctLidUsers(rows)
    ensures MigratedByRows(v, NormalizeField(v, Normalizer(MapOf(Mappings(rows)))), rows)
  {
    if v.Some? {
      MapOfRows(rows, v.value);
      forall r | RowFor(rows, r, v.value)
        ensures NormalizeField(v, Normalizer(MapOf(Mappings(rows)))) == Some(rows[r].pnUser + "@s.whatsapp.net")
      {
        forall later | r < later < |rows| ensures !RowFor(rows, later, v.value) {
          if RowFor(rows, later, v.value) {
            DistinctRowsAgree(rows, r, later, v.value);
          }
        }
        assert LastRowFor(rows, r, v.value);
      }
    }
  }

  /** What a run without failures does to each event, in terms of the rows of whatsmeow_lid_map. */
  lemma MigratedTableByRows(events: seq<Event>, rows: seq<LidRow>, os: seq<Outcome>)
    requires DistinctLidUsers(rows) && |os| == |Mappings(rows)| && AllOk(os)
    ensures forall i :: 0 <= i < |events| ==> EventMigratedByRows(events[i], MigrateAll(events, Mappings(rows), os)[i], rows)
  {
    DistinctRowsAreFunctional(rows);
    MigratedTableIsNormalized(events, Mappings(rows), os);
    forall i | 0 <= i < |events|
      ensures EventMigratedByRows(events[i], MigrateAll(events, Mappings(rows), os)[i], rows)
    {
      NormalizedByRows(events[i].sender, rows);
      NormalizedByRows(events[i].chat, rows);
    }
  }

  /** The migration when no statement fails. */
  method MigrateWithoutFailures(table: EventTable, rows: seq<LidRow>)
    requires DistinctLidUsers(rows)
    modifies table
    ensures |table.events| == |old(table.events)|
    ensures forall i :: 0 <= i < |table.events| ==> EventMigratedByRows(old(table.events)[i], table.events[i], rows)
  {
    var os := seq(|Mappings(rows)|, i => BOTH_OK);
    MigratedTableByRows(table.events, rows, os);
    var _ := RunLIDMigration(table, rows, os);
  }

  /** Whatever statements fail in one run, a later run without failures completes the migration. */
  lemma {:induction false} RetryCompletes(events: seq<Event>, ms: seq<Mapping>, failing: seq<Outcome>, os: seq<Outcome>)
    requires AllWellFormed(ms) && Functional(ms) && |ms| == |os| == |failing| && AllOk(os)
    ensures MigrateAll(MigrateAll(events, ms, failing), ms, os) == NormalizeAll(events, Normalizer(MapOf(ms)))
  {
    MigratedTableIsNormalized(MigrateAll(events, ms, failing), ms, os);
    forall i | 0 <= i < |events|
      ensures NormalizeEvent(MigrateEvent(events[i], ms, failing), Normalizer(MapOf(ms))) == NormalizeEvent(events[i], Normalizer(MapOf(ms)))
    {
      PartialRunThenNormalize(events[i], ms, failing, ms);
    }
  }
}
