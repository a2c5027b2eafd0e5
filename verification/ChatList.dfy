/** The chat list with its read-time LID merge: getConversationChats in internal/api/conversation.go. */
module ChatList {
  import opened Common
  import opened Identity

  // ---------------------------------------------------------------- the SQL grouping

  /** A row of the list. (Lemmas that only compare chats are generic in their type `K`.) */
  datatype RowOf<K> = ChatRow(chat: K, msgCount: nat, lastMsg: string)
  type ChatRow = RowOf<string>

  predicate InChat(e: Event, chat: string) {
    e.content && e.chat == Some(chat)
  }

  /** COUNT(*) of one group. */
  function CountIn(events: seq<Event>, chat: string): nat {
    if events == [] then 0
    else CountIn(events[..|events| - 1], chat) + (if InChat(events[|events| - 1], chat) then 1 else 0)
  }

  /** MAX(created) of one group. */
  ghost predicate IsLastIn(last: string, events: seq<Event>, chat: string) {
    && (exists i :: 0 <= i < |events| && InChat(events[i], chat) && events[i].created == last)
    && (forall i :: 0 <= i < |events| && InChat(events[i], chat) ==> AtMost(events[i].created, last))
  }

  ghost predicate HasRow<K>(rows: seq<RowOf<K>>, chat: K) {
    exists i :: 0 <= i < |rows| && rows[i].chat == chat
  }

  ghost predicate DistinctChats<K>(rows: seq<RowOf<K>>) {
    forall i, j :: 0 <= i < j < |rows| ==> rows[i].chat != rows[j].chat
  }

  /** The result of the query when LIMIT does not truncate it: one row per chat, in some order. */
  ghost predicate IsGrouping(rows: seq<ChatRow>, events: seq<Event>) {
    && DistinctChats(rows)
    && (forall i :: 0 <= i < |events| && events[i].content && events[i].chat.Some?
                    ==> HasRow(rows, events[i].chat.value))
    && (forall i :: 0 <= i < |rows| ==> IsGroup(rows[i], events))
  }

  ghost predicate IsGroup(r: ChatRow, events: seq<Event>) {
    r.msgCount == CountIn(events, r.chat) && IsLastIn(r.lastMsg, events, r.chat)
  }

  /** ORDER BY last_msg DESC. */
  ghost predicate NewestFirst<K>(rows: seq<RowOf<K>>) {
    forall i, j :: 0 <= i < j < |rows| ==> AtMost(rows[j].lastMsg, rows[i].lastMsg)
  }

  // ---------------------------------------------------------------- the merge

  function FindChat<K(==)>(rows: seq<RowOf<K>>, chat: K): (i: nat)
    ensures i <= |rows|
    ensures i < |rows| ==> rows[i].chat == chat
    ensures forall k :: 0 <= k < i ==> rows[k].chat != chat
  {
    if rows == [] || rows[0].chat == chat then 0 else 1 + FindChat(rows[1..], chat)
  }

  lemma FindChatIs<K>(rows: seq<RowOf<K>>, chat: K, i: nat)
    requires DistinctChats(rows) && i < |rows| && rows[i].chat == chat
    ensures FindChat(rows, chat) == i
  {
  }

  function Later(a: string, b: string): string {
    if Before(a, b) then b else a
  }

  /** Fold one more row into the merged rows, under its canonical chat. */
  function AddRow<K(==)>(merged: seq<RowOf<K>>, canonical: K, r: RowOf<K>): seq<RowOf<K>> {
    var i := FindChat(merged, canonical);
    if i < |merged| then
      var m := merged[i];
      merged[i := ChatRow(canonical, m.msgCount + r.msgCount, Later(m.lastMsg, r.lastMsg))]
    else
      merged + [ChatRow(canonical, r.msgCount, r.lastMsg)]
  }

  function Merged<K(==)>(rows: seq<RowOf<K>>, norm: K -> K): seq<RowOf<K>> {
    if rows == [] then []
    else
      var r := rows[|rows| - 1];
      AddRow(Merged(rows[..|rows| - 1], norm), norm(r.chat), r)
  }

  lemma AddRowChats<K>(merged: seq<RowOf<K>>, k: K, r: RowOf<K>)
    requires DistinctChats(merged)
    ensures var after := AddRow(merged, k, r);
            && DistinctChats(after)
            && |merged| <= |after| <= |merged| + 1
            && (forall j :: 0 <= j < |merged| ==> after[j].chat == merged[j].chat)
            && (|after| > |merged| ==> after[|merged|].chat == k)
            && HasRow(after, k)
  {
    assert AddRow(merged, k, r)[FindChat(merged, k)].chat == k;
  }

  /** The rows getConversationChats answers with: an empty LID map leaves the query's rows as they are. */
  function Read(rows: seq<ChatRow>, lidMap: map<string, string>): seq<ChatRow> {
    if lidMap == map[] then rows else Merged(rows, Normalizer(lidMap))
  }

  /** The rows that the map `seen` and the list `order` stand for. */
  ghost predicate Represents<K>(seen: map<K, RowOf<K>>, order: seq<K>, merged: seq<RowOf<K>>) {
    && |order| == |merged| && DistinctChats(merged)
    && (forall i :: 0 <= i < |order| ==> order[i] == merged[i].chat && order[i] in seen && seen[order[i]] == merged[i])
    && (forall k :: k in seen ==> exists i :: 0 <= i < |order| && order[i] == k)
  }

  lemma UpdateKeepsRepresents<K>(
    seen: map<K, RowOf<K>>, order: seq<K>, merged: seq<RowOf<K>>, k: K, r: RowOf<K>, m: RowOf<K>)
    requires Represents(seen, order, merged) && k in seen
    requires m == ChatRow(k, seen[k].msgCount + r.msgCount, Later(seen[k].lastMsg, r.lastMsg))
    ensures Represents(seen[k := m], order, AddRow(merged, k, r))
  {
    var at :| 0 <= at < |order| && order[at] == k;
    FindChatIs(merged, k, at);
    assert AddRow(merged, k, r) == merged[at := m];
  }

  lemma NewKeepsRepresents<K>(
    seen: map<K, RowOf<K>>, order: seq<K>, merged: seq<RowOf<K>>, k: K, r: RowOf<K>)
    requires Represents(seen, order, merged) && k !in seen
    ensures Represents(seen[k := ChatRow(k, r.msgCount, r.lastMsg)], order + [k], AddRow(merged, k, r))
  {
    var order' := order + [k];
    assert order'[|order|] == k;
    forall x | x in seen ensures exists i :: 0 <= i < |order'| && order'[i] == x {
      var i :| 0 <= i < |order| && order[i] == x;
      assert order'[i] == x;
    }
  }

  /** One iteration of the merge: add to the chat's entry, or make one and remember its place. */
  method SeeRow<K(==)>(seen: map<K, RowOf<K>>, order: seq<K>, r: RowOf<K>, canonical: K,
                ghost merged: seq<RowOf<K>>)
    returns (seen': map<K, RowOf<K>>, order': seq<K>)
    requires Represents(seen, order, merged)
    ensures Represents(seen', order', AddRow(merged, canonical, r))
  {
    if canonical in seen {
      var prev := seen[canonical];
      var last := prev.lastMsg;
      if Before(last, r.lastMsg) {
        last := r.lastMsg;
      }
      var m := ChatRow(canonical, prev.msgCount + r.msgCount, last);
      UpdateKeepsRepresents(seen, order, merged, canonical, r, m);
      seen' := seen[canonical := m];
      order' := order;
    } else {
      NewKeepsRepresents(seen, order, merged, canonical, r);
      seen' := seen[canonical := ChatRow(canonical, r.msgCount, r.lastMsg)];
      order' := order + [canonical];
    }
  }

  /** The merge of getConversationChats: `seen` and `order` are filled row by row, then `rows` rebuilt. */
  method MergeChats(rows: seq<ChatRow>, lidMap: map<string, string>) returns (out: seq<ChatRow>)
    ensures out == Read(rows, lidMap)
  {
    if lidMap == map[] {
      return rows;
    }
    ghost var norm := Normalizer(lidMap);
    var seen: map<string, ChatRow> := map[];
    var order: seq<string> := [];
    for i := 0 to |rows|
      invariant Represents(seen, order, Merged(rows[..i], norm))
    {
      assert rows[..i + 1][..i] == rows[..i];
      var canonical := NormalizeLIDJID(rows[i].chat, lidMap);
      seen, order := SeeRow(seen, order, rows[i], canonical, Merged(rows[..i], norm));
    }
    assert rows[..|rows|] == rows;
    out := Rebuild(seen, order, Merged(rows, norm));
  }

  method Rebuild<K(==)>(seen: map<K, RowOf<K>>, order: seq<K>, ghost merged: seq<RowOf<K>>) returns (out: seq<RowOf<K>>)
    requires Represents(seen, order, merged)
    ensures out == merged
  {
    out := [];
    for i := 0 to |order|
      invariant out == merged[..i]
    {
      out := out + [seen[order[i]]];
    }
  }

  // ---------------------------------------------------------------- what the merge returns

  function Total<K>(rows: seq<RowOf<K>>): nat {
    if rows == [] then 0 else Total(rows[..|rows| - 1]) + rows[|rows| - 1].msgCount
  }

  lemma {:induction false} TotalUpdate<K>(rows: seq<RowOf<K>>, i: nat, r: RowOf<K>)
    requires i < |rows|
    ensures Total(rows[i := r]) == Total(rows) - rows[i].msgCount + r.msgCount
  {
    var n := |rows| - 1;
    if i < n {
      TotalUpdate(rows[..n], i, r);
      assert rows[i := r][..n] == rows[..n][i := r];
    } else {
      assert rows[i := r][..n] == rows[..n];
    }
  }

  lemma TotalAddRow<K>(merged: seq<RowOf<K>>, canonical: K, r: RowOf<K>)
    ensures Total(AddRow(merged, canonical, r)) == Total(merged) + r.msgCount
  {
    var i := FindChat(merged, canonical);
    if i < |merged| {
      TotalUpdate(merged, i, AddRow(merged, canonical, r)[i]);
    } else {
      assert AddRow(merged, canonical, r)[..|merged|] == merged;
    }
  }

  /** Merging loses and invents no message: chats come out distinct and canonical, and counts add up. */
  lemma {:induction false} MergeConserves<K(!new)>(rows: seq<RowOf<K>>, norm: K -> K)
    requires forall jid :: norm(norm(jid)) == norm(jid)
    ensures DistinctChats(Merged(rows, norm))
    ensures forall i :: 0 <= i < |Merged(rows, norm)| ==> norm(Merged(rows, norm)[i].chat) == Merged(rows, norm)[i].chat
    ensures Total(Merged(rows, norm)) == Total(rows)
  {
    if rows != [] {
      var n := |rows| - 1;
      MergeConserves(rows[..n], norm);
      var before, k := Merged(rows[..n], norm), norm(rows[n].chat);
      TotalAddRow(before, k, rows[n]);
      AddRowChats(before, k, rows[n]);
      forall i | 0 <= i < |Merged(rows, norm)|
        ensures norm(Merged(rows, norm)[i].chat) == Merged(rows, norm)[i].chat
      {
        if i < |before| {
          assert norm(before[i].chat) == before[i].chat;
        } else {
          assert norm(k) == k;
        }
      }
    }
  }

  /** Rows sorted newest first stay so: a chat's first row already carries its latest message. */
  lemma {:induction false} MergeKeepsOrder<K>(rows: seq<RowOf<K>>, norm: K -> K)
    requires NewestFirst(rows)
    ensures NewestFirst(Merged(rows, norm))
    ensures rows != [] ==> forall i :: 0 <= i < |Merged(rows, norm)| ==>
              AtMost(rows[|rows| - 1].lastMsg, Merged(rows, norm)[i].lastMsg)
  {
    if rows != [] {
      var n := |rows| - 1;
      var r, before := rows[n], Merged(rows[..n], norm);
      MergeKeepsOrder(rows[..n], norm);
      forall i | 0 <= i < |before| ensures AtMost(r.lastMsg, before[i].lastMsg) {
        assert n > 0;
        AtMostTransitive(r.lastMsg, rows[n - 1].lastMsg, before[i].lastMsg);
      }
      BeforeTotal(r.lastMsg, r.lastMsg);
    }
  }

  /** What getConversationChats answers with: canonical chats and all the messages, newest chat first. */
  lemma ReadIsCanonical(rows: seq<ChatRow>, lidMap: map<string, string>)
    requires IsLidMap(lidMap) && DistinctChats(rows) && NewestFirst(rows)
    ensures var out := Read(rows, lidMap);
            && DistinctChats(out) && Total(out) == Total(rows) && NewestFirst(out)
            && forall i :: 0 <= i < |out| ==> out[i].chat !in lidMap
  {
    var norm := Normalizer(lidMap);
    forall jid ensures norm(norm(jid)) == norm(jid) && norm(jid) !in lidMap {
      NormalizeIsCanonical(jid, lidMap);
    }
    MergeConserves(rows, norm);
    MergeKeepsOrder(rows, norm);
    var out := Merged(rows, norm);
    forall i | 0 <= i < |out| ensures out[i].chat !in lidMap {
      assert norm(out[i].chat) == out[i].chat;
    }
  }

  // ---------------------------------------------------------------- merging after = migrating before

  /** Messages of the rows that normalise to `k`. */
  function CountOfRows<K(==)>(rows: seq<RowOf<K>>, k: K, norm: K -> K): nat {
    if rows == [] then 0
    else
      var r := rows[|rows| - 1];
      CountOfRows(rows[..|rows| - 1], k, norm) + (if norm(r.chat) == k then r.msgCount else 0)
  }

  ghost predicate IsLastOfRows<K>(last: string, rows: seq<RowOf<K>>, k: K, norm: K -> K) {
    && (exists i :: 0 <= i < |rows| && norm(rows[i].chat) == k && rows[i].lastMsg == last)
    && (forall i :: 0 <= i < |rows| && norm(rows[i].chat) == k ==> AtMost(rows[i].lastMsg, last))
  }

  /** `r` merges exactly the rows that normalise to its chat. */
  ghost predicate MergesRows<K>(r: RowOf<K>, rows: seq<RowOf<K>>, norm: K -> K) {
    r.msgCount == CountOfRows(rows, r.chat, norm) && IsLastOfRows(r.lastMsg, rows, r.chat, norm)
  }

  lemma {:induction false} NoRowsNoCount<K>(rows: seq<RowOf<K>>, k: K, norm: K -> K)
    requires forall i :: 0 <= i < |rows| ==> norm(rows[i].chat) != k
    ensures CountOfRows(rows, k, norm) == 0
  {
    if rows != [] {
      NoRowsNoCount(rows[..|rows| - 1], k, norm);
    }
  }

  lemma IsLastExtend<K>(last: string, rows: seq<RowOf<K>>, k: K, norm: K -> K)
    requires rows != []
    requires var n := |rows| - 1;
             IsLastOfRows(last, rows[..n], k, norm)
             || (forall i :: 0 <= i < n ==> norm(rows[i].chat) != k)
    ensures var n := |rows| - 1;
            norm(rows[n].chat) == k ==>
              IsLastOfRows(if IsLastOfRows(last, rows[..n], k, norm) then Later(last, rows[n].lastMsg) else rows[n].lastMsg,
                           rows, k, norm)
    ensures var n := |rows| - 1;
            norm(rows[n].chat) != k && IsLastOfRows(last, rows[..n], k, norm) ==> IsLastOfRows(last, rows, k, norm)
  {
    var n := |rows| - 1;
    assert forall i :: 0 <= i < n ==> rows[i] == rows[..n][i];
    BeforeTotal(rows[n].lastMsg, rows[n].lastMsg);
    BeforeTotal(last, rows[n].lastMsg);
    if IsLastOfRows(last, rows[..n], k, norm) {
      var w :| 0 <= w < n && norm(rows[..n][w].chat) == k && rows[..n][w].lastMsg == last;
      assert rows[w].lastMsg == last;
      if Before(last, rows[n].lastMsg) {
        forall i | 0 <= i < n && norm(rows[i].chat) == k ensures AtMost(rows[i].lastMsg, rows[n].lastMsg) {
          AtMostTransitive(rows[i].lastMsg, last, rows[n].lastMsg);
        }
      }
    }
  }

  lemma {:induction false} MergedRows<K>(rows: seq<RowOf<K>>, norm: K -> K)
    ensures DistinctChats(Merged(rows, norm))
    ensures forall i :: 0 <= i < |rows| ==> HasRow(Merged(rows, norm), norm(rows[i].chat))
    ensures forall i :: 0 <= i < |Merged(rows, norm)| ==> MergesRows(Merged(rows, norm)[i], rows, norm)
  {
    if rows != [] {
      var n := |rows| - 1;
      MergedRows(rows[..n], norm);
      var before, after, k := Merged(rows[..n], norm), Merged(rows, norm), norm(rows[n].chat);
      AddRowChats(before, k, rows[n]);
      assert forall i :: 0 <= i < n ==> rows[i] == rows[..n][i];
      forall i | 0 <= i < |rows| ensures HasRow(after, norm(rows[i].chat)) {
        if i < n {
          var j :| 0 <= j < |before| && before[j].chat == norm(rows[..n][i].chat);
          assert after[j].chat == before[j].chat;
        }
      }
      forall j | 0 <= j < |after| ensures MergesRows(after[j], rows, norm) {
        MergedRowStep(rows, norm, j);
      }
    }
  }

  lemma MergedRowStep<K>(rows: seq<RowOf<K>>, norm: K -> K, j: nat)
    requires rows != [] && j < |Merged(rows, norm)|
    requires var before := Merged(rows[..|rows| - 1], norm);
             && DistinctChats(before)
             && (forall i :: 0 <= i < |rows| - 1 ==> HasRow(before, norm(rows[i].chat)))
             && (forall i :: 0 <= i < |before| ==> MergesRows(before[i], rows[..|rows| - 1], norm))
    ensures MergesRows(Merged(rows, norm)[j], rows, norm)
  {
    var n := |rows| - 1;
    var before, after, k := Merged(rows[..n], norm), Merged(rows, norm), norm(rows[n].chat);
    if j < |before| {
      assert MergesRows(before[j], rows[..n], norm);
      IsLastExtend(before[j].lastMsg, rows, after[j].chat, norm);
    } else {
      forall i | 0 <= i < n ensures norm(rows[i].chat) != k {
        assert HasRow(before, norm(rows[i].chat));
      }
      NoRowsNoCount(rows[..n], k, norm);
      IsLastExtend(rows[n].lastMsg, rows, k, norm);
      if IsLastOfRows(rows[n].lastMsg, rows[..n], k, norm) {
        assert false;
      }
    }
  }

  /** Sum, over the rows normalising to `k`, of the events in each row's own chat. */
  function CountByRows(rows: seq<ChatRow>, events: seq<Event>, k: string, norm: string -> string): nat {
    if rows == [] then 0
    else
      var r := rows[|rows| - 1];
      CountByRows(rows[..|rows| - 1], events, k, norm)
      + (if norm(r.chat) == k then CountIn(events, r.chat) else 0)
  }

  lemma {:induction false} CountByRowsStep(rows: seq<ChatRow>, events: seq<Event>, k: string, norm: string -> string)
    requires DistinctChats(rows) && events != []
    ensures var n := |events| - 1; var e := events[n];
            CountByRows(rows, events, k, norm) == CountByRows(rows, events[..n], k, norm)
              + (if e.content && e.chat.Some? && HasRow(rows, e.chat.value) && norm(e.chat.value) == k
                 then 1 else 0)
  {
    if rows != [] {
      var n := |rows| - 1;
      CountByRowsStep(rows[..n], events, k, norm);
      var e := events[|events| - 1];
      if e.chat.Some? {
        var c := e.chat.value;
        assert HasRow(rows, c) <==> HasRow(rows[..n], c) || rows[n].chat == c by {
          if HasRow(rows[..n], c) {
            var i :| 0 <= i < n && rows[..n][i].chat == c;
            assert rows[i].chat == c;
          }
          if HasRow(rows, c) && rows[n].chat != c {
            var i :| 0 <= i < |rows| && rows[i].chat == c;
            assert rows[..n][i].chat == c;
          }
        }
      }
    }
  }

  lemma {:induction false} CountByNoRows(rows: seq<ChatRow>, k: string, norm: string -> string)
    ensures CountByRows(rows, [], k, norm) == 0
  {
    if rows != [] {
      CountByNoRows(rows[..|rows| - 1], k, norm);
    }
  }

  lemma {:induction false} CountAfterMigration(rows: seq<ChatRow>, events: seq<Event>, k: string, norm: string -> string)
    requires DistinctChats(rows)
    requires forall i :: 0 <= i < |events| && events[i].content && events[i].chat.Some? ==> HasRow(rows, events[i].chat.value)
    ensures CountIn(NormalizeAll(events, norm), k) == CountByRows(rows, events, k, norm)
  {
    if events == [] {
      CountByNoRows(rows, k, norm);
    } else {
      var n := |events| - 1;
      CountAfterMigration(rows, events[..n], k, norm);
      CountByRowsStep(rows, events, k, norm);
      assert NormalizeAll(events, norm)[..n] == NormalizeAll(events[..n], norm);
    }
  }

  lemma {:induction false} CountsOfGroups(rows: seq<ChatRow>, events: seq<Event>, k: string, norm: string -> string)
    requires forall i :: 0 <= i < |rows| ==> IsGroup(rows[i], events)
    ensures CountOfRows(rows, k, norm) == CountByRows(rows, events, k, norm)
  {
    if rows != [] {
      assert IsGroup(rows[|rows| - 1], events);
      CountsOfGroups(rows[..|rows| - 1], events, k, norm);
    }
  }

  lemma LastAfterMigration(last: string, rows: seq<ChatRow>, events: seq<Event>, k: string, norm: string -> string)
    requires IsGrouping(rows, events) && IsLastOfRows(last, rows, k, norm)
    ensures IsLastIn(last, NormalizeAll(events, norm), k)
  {
    var after := NormalizeAll(events, norm);
    var i :| 0 <= i < |rows| && norm(rows[i].chat) == k && rows[i].lastMsg == last;
    assert IsGroup(rows[i], events);
    var w :| 0 <= w < |events| && InChat(events[w], rows[i].chat) && events[w].created == last;
    assert InChat(after[w], k) && after[w].created == last;
    forall j | 0 <= j < |after| && InChat(after[j], k) ensures AtMost(after[j].created, last) {
      assert HasRow(rows, events[j].chat.value);
      var r :| 0 <= r < |rows| && rows[r].chat == events[j].chat.value;
      assert IsGroup(rows[r], events) && InChat(events[j], rows[r].chat);
      AtMostTransitive(events[j].created, rows[r].lastMsg, last);
    }
  }

  /** Reading with the merge equals migrating first and then grouping: if `rows` groups the stored
      events, the answered rows group the migrated events. */
  lemma ReadIsGroupingOfMigrated(rows: seq<ChatRow>, events: seq<Event>, m: map<string, string>)
    requires IsGrouping(rows, events)
    ensures IsGrouping(Read(rows, m), NormalizeAll(events, Normalizer(m)))
  {
    if m == map[] {
      assert NormalizeAll(events, Normalizer(m)) == events;
    } else {
      MergedIsGroupingOfMigrated(rows, events, Normalizer(m));
    }
  }

  lemma MergedIsGroupingOfMigrated(rows: seq<ChatRow>, events: seq<Event>, norm: string -> string)
    requires IsGrouping(rows, events)
    ensures IsGrouping(Merged(rows, norm), NormalizeAll(events, norm))
  {
    MergedRows(rows, norm);
    var out, after := Merged(rows, norm), NormalizeAll(events, norm);
    forall i | 0 <= i < |out| ensures IsGroup(out[i], after) {
      assert MergesRows(out[i], rows, norm);
      CountAfterMigration(rows, events, out[i].chat, norm);
      CountsOfGroups(rows, events, out[i].chat, norm);
      LastAfterMigration(out[i].lastMsg, rows, events, out[i].chat, norm);
    }
    forall i | 0 <= i < |after| && after[i].content && after[i].chat.Some?
      ensures HasRow(out, after[i].chat.value)
    {
      assert HasRow(rows, events[i].chat.value);
      var r :| 0 <= r < |rows| && rows[r].chat == events[i].chat.value;
      assert HasRow(out, norm(rows[r].chat));
    }
  }

  /** A grouping is determined by the events up to order, so both readings list the same rows. */
  lemma GroupingUnique(rows: seq<ChatRow>, other: seq<ChatRow>, events: seq<Event>)
    requires IsGrouping(rows, events) && IsGrouping(other, events)
    ensures forall r :: r in rows ==> r in other
  {
    forall r | r in rows ensures r in other {
      var i :| 0 <= i < |rows| && rows[i] == r;
      assert IsGroup(rows[i], events);
      var w :| 0 <= w < |events| && InChat(events[w], r.chat) && events[w].created == r.lastMsg;
      assert HasRow(other, events[w].chat.value);
      var j :| 0 <= j < |other| && other[j].chat == r.chat;
      assert IsGroup(other[j], events);
      var v :| 0 <= v < |events| && InChat(events[v], r.chat) && events[v].created == other[j].lastMsg;
      BeforeTotal(r.lastMsg, other[j].lastMsg);
      assert other[j] == r;
    }
  }

  lemma NormalizeAllTwice(events: seq<Event>, m: map<string, string>)
    requires IsLidMap(m)
    ensures var once := NormalizeAll(events, Normalizer(m)); NormalizeAll(once, Normalizer(m)) == once
  {
    var norm := Normalizer(m);
    forall i | 0 <= i < |events|
      ensures NormalizeEvent(NormalizeEvent(events[i], norm), norm) == NormalizeEvent(events[i], norm)
    {
      if events[i].sender.Some? {
        NormalizeIsCanonical(events[i].sender.value, m);
      }
      if events[i].chat.Some? {
        NormalizeIsCanonical(events[i].chat.value, m);
      }
    }
  }

  /** The chat list answered before the migration, the one answered after it, and the plain grouping
      of the migrated table have the same rows. */
  lemma {:induction false} ChatListUnchangedByMigration(
    stored: seq<Event>, before: seq<ChatRow>, migrated: seq<ChatRow>, ms: seq<Mapping>, os: seq<Outcome>)
    requires AllWellFormed(ms) && Functional(ms) && |ms| == |os| && AllOk(os)
    requires IsGrouping(before, stored) && IsGrouping(migrated, MigrateAll(stored, ms, os))
    ensures forall r :: r in Read(before, MapOf(ms)) <==> r in migrated
    ensures forall r :: r in Read(migrated, MapOf(ms)) <==> r in migrated
  {
    var table := MigrateAll(stored, ms, os);
    MigratedTableIsNormalized(stored, ms, os);
    MapOfIsLidMap(ms);
    NormalizeAllTwice(stored, MapOf(ms));
    ReadIsGroupingOfMigrated(before, stored, MapOf(ms));
    ReadIsGroupingOfMigrated(migrated, table, MapOf(ms));
    GroupingUnique(Read(before, MapOf(ms)), migrated, table);
    GroupingUnique(migrated, Read(before, MapOf(ms)), table);
    GroupingUnique(Read(migrated, MapOf(ms)), migrated, table);
    GroupingUnique(migrated, Read(migrated, MapOf(ms)), table);
  }
}
