/** The contact graph: getOrCreate, addEdge, the event loop, and the filter and trim of
    getNetworkGraph in internal/api/network.go. */
module NetworkGraph {
  import opened Common

  datatype NodeType = SelfNode | ContactNode | GroupNode | BroadcastNode

  /** (Lemmas that only compare JIDs are generic in their type `K`, and in the type `J` of edge keys.) */
  datatype Node<K> = Node(id: K, nodeType: NodeType, msgCount: nat)

  datatype Edge<K> = Edge(source: K, target: K, weight: nat, sent: nat, received: nat)

  // ---------------------------------------------------------------- from stored events to links

  /** The parsed fields of a stored event; rows that do not parse are None. */
  datatype Msg = Msg(chat: string, sender: string, isFromMe: bool)

  datatype Direction = Both | SentOnly | ReceivedOnly

  function ChatType(chat: string): NodeType {
    if HasSuffix(chat, "@g.us") then GroupNode
    else if HasSuffix(chat, "@broadcast") then BroadcastNode
    else ContactNode
  }

  /** What an event that passes the filters says: its chat, and the group member who sent it. */
  datatype Talk<K> = Talk(chat: K, chatType: NodeType, member: Option<K>, isFromMe: bool)

  function TalkOf(row: Option<Msg>, self: string, direction: Direction, includeGroups: bool): Option<Talk<string>> {
    match row
    case None => None
    case Some(m) =>
      if m.chat == "" then None
      else if direction == SentOnly && !m.isFromMe then None
      else if direction == ReceivedOnly && m.isFromMe then None
      else if ChatType(m.chat) == GroupNode && !includeGroups then None
      else
        var member := if ChatType(m.chat) == GroupNode && m.sender != "" && m.sender != self then Some(m.sender) else None;
        Some(Talk(m.chat, ChatType(m.chat), member, m.isFromMe))
  }

  function Talks(rows: seq<Option<Msg>>, self: string, direction: Direction, includeGroups: bool): seq<Talk<string>> {
    if rows == [] then []
    else
      var before := Talks(rows[..|rows| - 1], self, direction, includeGroups);
      match TalkOf(rows[|rows| - 1], self, direction, includeGroups)
      case None => before
      case Some(t) => before + [t]
  }

  /** A directed message: from → to. */
  datatype Link<K> = Link(from: K, to: K, isFromMe: bool)

  function LinksOfTalk<K>(self: K, t: Talk<K>): seq<Link<K>> {
    (match t.member case Some(m) => [Link(m, t.chat, false)] case None => []) + [Link(self, t.chat, t.isFromMe)]
  }

  function LinksOf<K>(self: K, talks: seq<Talk<K>>): seq<Link<K>> {
    if talks == [] then [] else LinksOf(self, talks[..|talks| - 1]) + LinksOfTalk(self, talks[|talks| - 1])
  }

  // ---------------------------------------------------------------- nodes

  function CountChat<K(==)>(talks: seq<Talk<K>>, k: K): nat {
    if talks == [] then 0
    else CountChat(talks[..|talks| - 1], k) + (if talks[|talks| - 1].chat == k then 1 else 0)
  }

  function CountMember<K(==)>(talks: seq<Talk<K>>, k: K): nat {
    if talks == [] then 0
    else CountMember(talks[..|talks| - 1], k) + (if talks[|talks| - 1].member == Some(k) then 1 else 0)
  }

  /** Of these, the ones the device sent. */
  function CountChatSent<K(==)>(talks: seq<Talk<K>>, k: K): nat {
    if talks == [] then 0
    else
      var t := talks[|talks| - 1];
      CountChatSent(talks[..|talks| - 1], k) + (if t.chat == k && t.isFromMe then 1 else 0)
  }

  /** The type of `k` where it first appears: as a chat, or as a group member. */
  function FirstType<K(==)>(talks: seq<Talk<K>>, k: K): Option<NodeType> {
    if talks == [] then None
    else
      var t := talks[|talks| - 1];
      match FirstType(talks[..|talks| - 1], k)
      case Some(nodeType) => Some(nodeType)
      case None => if t.chat == k then Some(t.chatType) else if t.member == Some(k) then Some(ContactNode) else None
  }

  /** A node counts the events in which it is the chat or the sending member, and has the type of its
      first one; only `self` has the self type. A JID without a node is in no event. */
  ghost predicate NodeCounts<K>(nodes: map<K, Node<K>>, self: K, talks: seq<Talk<K>>, k: K) {
    if k in nodes then
      && nodes[k].id == k && (nodes[k].nodeType == SelfNode <==> k == self)
      && nodes[k].msgCount == CountChat(talks, k) + CountMember(talks, k)
      && (k != self ==> FirstType(talks, k) == Some(nodes[k].nodeType))
    else
      CountChat(talks, k) == 0 && CountMember(talks, k) == 0 && FirstType(talks, k) == None
  }

  /** All nodes do, and `self` has one even without events. */
  ghost predicate NodesCount<K(!new)>(nodes: map<K, Node<K>>, self: K, talks: seq<Talk<K>>) {
    self in nodes && forall k :: NodeCounts(nodes, self, talks, k)
  }

  /** getOrCreate, and the increment that follows it. */
  function Bump<K>(nodes: map<K, Node<K>>, id: K, nodeType: NodeType): map<K, Node<K>> {
    var n := if id in nodes then nodes[id] else Node(id, nodeType, 0);
    nodes[id := n.(msgCount := n.msgCount + 1)]
  }

  function BumpTalk<K>(nodes: map<K, Node<K>>, t: Talk<K>): map<K, Node<K>> {
    var afterChat := Bump(nodes, t.chat, t.chatType);
    match t.member case None => afterChat case Some(m) => Bump(afterChat, m, ContactNode)
  }

  lemma CountsAppend<K>(talks: seq<Talk<K>>, t: Talk<K>, k: K)
    ensures var after := talks + [t];
            && CountChat(after, k) == CountChat(talks, k) + (if t.chat == k then 1 else 0)
            && CountChatSent(after, k) == CountChatSent(talks, k) + (if t.chat == k && t.isFromMe then 1 else 0)
            && CountMember(after, k) == CountMember(talks, k) + (if t.member == Some(k) then 1 else 0)
            && FirstType(after, k) ==
               (if FirstType(talks, k).Some? then FirstType(talks, k)
                else if t.chat == k then Some(t.chatType) else if t.member == Some(k) then Some(ContactNode) else None)
  {
    assert (talks + [t])[..|talks|] == talks;
  }

  lemma BumpNodeCounts<K>(nodes: map<K, Node<K>>, self: K, talks: seq<Talk<K>>, t: Talk<K>, k: K)
    requires NodeCounts(nodes, self, talks, k) && self in nodes && t.chatType != SelfNode
    ensures NodeCounts(BumpTalk(nodes, t), self, talks + [t], k)
  {
    CountsAppend(talks, t, k);
  }

  lemma BumpTalkCounts<K(!new)>(nodes: map<K, Node<K>>, self: K, talks: seq<Talk<K>>, t: Talk<K>)
    requires NodesCount(nodes, self, talks) && t.chatType != SelfNode
    ensures NodesCount(BumpTalk(nodes, t), self, talks + [t])
  {
    forall k ensures NodeCounts(BumpTalk(nodes, t), self, talks + [t], k) {
      BumpNodeCounts(nodes, self, talks, t, k);
    }
  }

  lemma NodesAre<K(!new)>(nodes: map<K, Node<K>>, self: K, talks: seq<Talk<K>>)
    requires NodesCount(nodes, self, talks)
    ensures self in nodes && forall k :: k in nodes ==> nodes[k].id == k && (nodes[k].nodeType == SelfNode <==> k == self)
  {
    forall k | k in nodes ensures nodes[k].id == k && (nodes[k].nodeType == SelfNode <==> k == self) {
      assert NodeCounts(nodes, self, talks, k);
    }
  }

  // ---------------------------------------------------------------- edges

  /** Links put on edge `j`. */
  function CountLinks<K, J(==)>(links: seq<Link<K>>, keyOf: Link<K> -> J, j: J): nat {
    if links == [] then 0
    else CountLinks(links[..|links| - 1], keyOf, j) + (if keyOf(links[|links| - 1]) == j then 1 else 0)
  }

  function CountSent<K, J(==)>(links: seq<Link<K>>, keyOf: Link<K> -> J, j: J): nat {
    if links == [] then 0
    else
      var l := links[|links| - 1];
      CountSent(links[..|links| - 1], keyOf, j) + (if keyOf(l) == j && l.isFromMe then 1 else 0)
  }

  /** addEdge */
  function AddEdge<K, J>(edges: map<J, Edge<K>>, l: Link<K>, j: J, ends: (K, K)): map<J, Edge<K>> {
    var e := if j in edges then edges[j] else Edge(ends.0, ends.1, 0, 0, 0);
    edges[j := if l.isFromMe then e.(weight := e.weight + 1, sent := e.sent + 1)
               else e.(weight := e.weight + 1, received := e.received + 1)]
  }

  /** Each edge counts the links with its key, split into sent and received. */
  ghost predicate EdgesCount<K(!new), J(!new)>(
    edges: map<J, Edge<K>>, links: seq<Link<K>>, keyOf: Link<K> -> J)
  {
    && (forall j :: j in edges ==>
          && edges[j].weight == CountLinks(links, keyOf, j) > 0
          && edges[j].sent == CountSent(links, keyOf, j)
          && edges[j].weight == edges[j].sent + edges[j].received)
    && (forall j :: j !in edges ==> CountLinks(links, keyOf, j) == 0 && CountSent(links, keyOf, j) == 0)
  }

  lemma AddEdgeCounts<K(!new), J(!new)>(
    edges: map<J, Edge<K>>, links: seq<Link<K>>, keyOf: Link<K> -> J, l: Link<K>, ends: (K, K))
    requires EdgesCount(edges, links, keyOf)
    ensures EdgesCount(AddEdge(edges, l, keyOf(l), ends), links + [l], keyOf)
  {
    var after := links + [l];
    assert after[..|links|] == links;
    forall j
      ensures CountLinks(after, keyOf, j) == CountLinks(links, keyOf, j) + (if keyOf(l) == j then 1 else 0)
      ensures CountSent(after, keyOf, j) == CountSent(links, keyOf, j) + (if keyOf(l) == j && l.isFromMe then 1 else 0)
    {
    }
  }

  /** The edges after adding all of `links`. */
  function EdgesFrom<K, J>(links: seq<Link<K>>, keyOf: Link<K> -> J, endsOf: Link<K> -> (K, K)): map<J, Edge<K>> {
    if links == [] then map[]
    else
      var l := links[|links| - 1];
      AddEdge(EdgesFrom(links[..|links| - 1], keyOf, endsOf), l, keyOf(l), endsOf(l))
  }

  /** Every edge weighs the links of its key, and splits into sent and received. */
  lemma {:induction false} EdgesFromCount<K(!new), J(!new)>(
    links: seq<Link<K>>, keyOf: Link<K> -> J, endsOf: Link<K> -> (K, K))
    ensures EdgesCount(EdgesFrom(links, keyOf, endsOf), links, keyOf)
  {
    if links != [] {
      var n := |links| - 1;
      EdgesFromCount(links[..n], keyOf, endsOf);
      AddEdgeCounts(EdgesFrom(links[..n], keyOf, endsOf), links[..n], keyOf, links[n], endsOf(links[n]));
      assert links[..n] + [links[n]] == links;
    }
  }

  predicate SameEnds<K(==)>(l: Link<K>, m: Link<K>) {
    (l.from == m.from && l.to == m.to) || (l.from == m.to && l.to == m.from)
  }

  predicate PlainEnds<K>(l: Link<K>, plain: K -> bool) { plain(l.from) && plain(l.to) }

  /** `endsOf` is the unordered pair of a link's JIDs, and on plain JIDs the key determines it. */
  ghost predicate KeysTellEnds<K(!new), J>(keyOf: Link<K> -> J, endsOf: Link<K> -> (K, K), plain: K -> bool) {
    && (forall l: Link<K> :: endsOf(l) == (l.from, l.to) || endsOf(l) == (l.to, l.from))
    && (forall l: Link<K>, m: Link<K> :: SameEnds(l, m) ==> endsOf(l) == endsOf(m) && keyOf(l) == keyOf(m))
    && (forall l: Link<K>, m: Link<K> :: PlainEnds(l, plain) && PlainEnds(m, plain) && keyOf(l) == keyOf(m)
                                         ==> SameEnds(l, m))
  }

  ghost predicate AllPlain<K>(links: seq<Link<K>>, plain: K -> bool) {
    forall i :: 0 <= i < |links| ==> PlainEnds(links[i], plain)
  }

  predicate Touches<K(==)>(e: Edge<K>, self: K) { e.source == self || e.target == self }

  // ---------------------------------------------------------------- sums over edges

  ghost function SumOver<J>(s: set<J>, f: J -> int): int {
    if s == {} then 0
    else
      var x :| x in s;
      f(x) + SumOver(s - {x}, f)
  }

  lemma {:induction false} SumOverSplit<J>(s: set<J>, f: J -> int, x: J)
    requires x in s
    ensures SumOver(s, f) == f(x) + SumOver(s - {x}, f)
  {
    var y :| y in s && SumOver(s, f) == f(y) + SumOver(s - {y}, f);
    if y != x {
      SumOverSplit(s - {y}, f, x);
      SumOverSplit(s - {x}, f, y);
      assert s - {y} - {x} == s - {x} - {y};
    }
  }

  lemma {:induction false} SumOverSame<J>(s: set<J>, f: J -> int, g: J -> int)
    requires forall x :: x in s ==> f(x) == g(x)
    ensures SumOver(s, f) == SumOver(s, g)
  {
    if s != {} {
      var x :| x in s;
      SumOverSplit(s, f, x);
      SumOverSplit(s, g, x);
      SumOverSame(s - {x}, f, g);
    }
  }

  // ---------------------------------------------------------------- conservation at self

  lemma {:induction false} EdgeEnds<K(!new), J(!new)>(
    links: seq<Link<K>>, keyOf: Link<K> -> J, endsOf: Link<K> -> (K, K), plain: K -> bool, l: Link<K>)
    requires KeysTellEnds(keyOf, endsOf, plain) && AllPlain(links, plain) && PlainEnds(l, plain)
    ensures var edges := EdgesFrom(links, keyOf, endsOf);
            keyOf(l) in edges ==> (edges[keyOf(l)].source, edges[keyOf(l)].target) == endsOf(l)
  {
    if links != [] {
      EdgeEnds(links[..|links| - 1], keyOf, endsOf, plain, l);
    }
  }

  ghost function WeightAt<K, J>(edges: map<J, Edge<K>>, self: K): J -> int {
    j => if j in edges && Touches(edges[j], self) then edges[j].weight else 0
  }

  /** The total weight of the edges at `self`. */
  ghost function SumAt<K, J>(edges: map<J, Edge<K>>, self: K): int {
    SumOver(edges.Keys, WeightAt(edges, self))
  }

  predicate LinkTouches<K(==)>(l: Link<K>, self: K) { l.from == self || l.to == self }

  function CountTouching<K(==)>(links: seq<Link<K>>, self: K): nat {
    if links == [] then 0
    else CountTouching(links[..|links| - 1], self) + (if LinkTouches(links[|links| - 1], self) then 1 else 0)
  }

  /** Adding a link raises the total at `self` by one if the edge it goes to touches `self`. */
  lemma SumAtStep<K, J>(edges: map<J, Edge<K>>, l: Link<K>, j: J, ends: (K, K), self: K)
    requires j in edges ==> (edges[j].source, edges[j].target) == ends
    ensures SumAt(AddEdge(edges, l, j, ends), self)
            == SumAt(edges, self) + (if ends.0 == self || ends.1 == self then 1 else 0)
  {
    var after := AddEdge(edges, l, j, ends);
    var f, g := WeightAt(edges, self), WeightAt(after, self);
    SumOverSplit(after.Keys, g, j);
    SumOverSame(edges.Keys - {j}, f, g);
    assert after.Keys - {j} == edges.Keys - {j};
    if j in edges {
      SumOverSplit(edges.Keys, f, j);
    } else {
      assert edges.Keys - {j} == edges.Keys;
    }
  }

  lemma {:induction false} SumAtCountsLinks<K(!new), J(!new)>(
    links: seq<Link<K>>, keyOf: Link<K> -> J, endsOf: Link<K> -> (K, K), plain: K -> bool, self: K)
    requires KeysTellEnds(keyOf, endsOf, plain) && AllPlain(links, plain)
    ensures SumAt(EdgesFrom(links, keyOf, endsOf), self) == CountTouching(links, self)
  {
    if links != [] {
      var n := |links| - 1;
      SumAtCountsLinks(links[..n], keyOf, endsOf, plain, self);
      EdgeEnds(links[..n], keyOf, endsOf, plain, links[n]);
      SumAtStep(EdgesFrom(links[..n], keyOf, endsOf), links[n], keyOf(links[n]), endsOf(links[n]), self);
    }
  }

  /** What the event loop guarantees of its talks, when `self` is not a group. */
  ghost predicate TalksOk<K>(talks: seq<Talk<K>>, self: K) {
    forall i :: 0 <= i < |talks| ==>
      && talks[i].member != Some(self) && talks[i].chatType != SelfNode
      && (talks[i].member.Some? ==> talks[i].chatType == GroupNode && talks[i].chat != self)
  }

  lemma {:induction false} OneTouchPerTalk<K>(self: K, talks: seq<Talk<K>>)
    requires TalksOk(talks, self)
    ensures CountTouching(LinksOf(self, talks), self) == |talks|
  {
    if talks != [] {
      var n := |talks| - 1;
      OneTouchPerTalk(self, talks[..n]);
      var before, t := LinksOf(self, talks[..n]), talks[n];
      match t.member
      case None =>
        TouchingAppend(before, Link(self, t.chat, t.isFromMe), self);
        assert LinksOf(self, talks) == before + [Link(self, t.chat, t.isFromMe)];
      case Some(m) =>
        TouchingAppend(before, Link(m, t.chat, false), self);
        TouchingAppend(before + [Link(m, t.chat, false)], Link(self, t.chat, t.isFromMe), self);
        assert LinksOf(self, talks) == before + [Link(m, t.chat, false)] + [Link(self, t.chat, t.isFromMe)];
    }
  }

  lemma TouchingAppend<K>(links: seq<Link<K>>, l: Link<K>, self: K)
    ensures CountTouching(links + [l], self) == CountTouching(links, self) + (if LinkTouches(l, self) then 1 else 0)
  {
    assert (links + [l])[..|links|] == links;
  }

  // ---------------------------------------------------------------- a group's own edge

  lemma LinksAppend<K, J>(links: seq<Link<K>>, l: Link<K>, keyOf: Link<K> -> J, j: J)
    ensures CountLinks(links + [l], keyOf, j) == CountLinks(links, keyOf, j) + (if keyOf(l) == j then 1 else 0)
    ensures CountSent(links + [l], keyOf, j) == CountSent(links, keyOf, j) + (if keyOf(l) == j && l.isFromMe then 1 else 0)
  {
    assert (links + [l])[..|links|] == links;
  }

  ghost predicate TalksPlain<K>(talks: seq<Talk<K>>, self: K, plain: K -> bool) {
    plain(self) && forall i :: 0 <= i < |talks| ==>
      plain(talks[i].chat) && (talks[i].member.Some? ==> plain(talks[i].member.value))
  }

  lemma SelfLinkKey<K(!new), J(!new)>(
    keyOf: Link<K> -> J, endsOf: Link<K> -> (K, K), plain: K -> bool, self: K, chat: K, fromMe: bool, k: K)
    requires KeysTellEnds(keyOf, endsOf, plain) && plain(self) && plain(chat) && plain(k)
    ensures keyOf(Link(self, chat, fromMe)) == keyOf(Link(self, k, false)) <==> chat == k
  {
    var l, m := Link(self, chat, fromMe), Link(self, k, false);
    assert PlainEnds(l, plain) && PlainEnds(m, plain);
    assert keyOf(l) == keyOf(m) <==> SameEnds(l, m);
  }

  lemma MemberLinkKey<K(!new), J(!new)>(
    keyOf: Link<K> -> J, endsOf: Link<K> -> (K, K), plain: K -> bool, self: K, member: K, chat: K, k: K)
    requires KeysTellEnds(keyOf, endsOf, plain) && plain(self) && plain(chat) && plain(k) && plain(member)
    requires member != self && chat != self
    ensures keyOf(Link(member, chat, false)) != keyOf(Link(self, k, false))
  {
    var l, m := Link(member, chat, false), Link(self, k, false);
    assert PlainEnds(l, plain) && PlainEnds(m, plain) && !SameEnds(l, m);
  }

  lemma TalkLinksCount<K, J>(before: seq<Link<K>>, self: K, t: Talk<K>, keyOf: Link<K> -> J, j: J)
    ensures CountLinks(before + LinksOfTalk(self, t), keyOf, j)
            == CountLinks(before, keyOf, j)
               + (if t.member.Some? && keyOf(Link(t.member.value, t.chat, false)) == j then 1 else 0)
               + (if keyOf(Link(self, t.chat, t.isFromMe)) == j then 1 else 0)
    ensures CountSent(before + LinksOfTalk(self, t), keyOf, j)
            == CountSent(before, keyOf, j) + (if keyOf(Link(self, t.chat, t.isFromMe)) == j && t.isFromMe then 1 else 0)
  {
    var own := Link(self, t.chat, t.isFromMe);
    match t.member
    case None =>
      LinksAppend(before, own, keyOf, j);
      assert before + LinksOfTalk(self, t) == before + [own];
    case Some(m) =>
      var l := Link(m, t.chat, false);
      LinksAppend(before, l, keyOf, j);
      LinksAppend(before + [l], own, keyOf, j);
      assert before + LinksOfTalk(self, t) == before + [l] + [own];
  }

  /** The edge between `self` and a chat weighs the events of that chat, and has sent those the device sent. */
  lemma {:induction false} SelfEdgeCountsChat<K(!new), J(!new)>(
    self: K, talks: seq<Talk<K>>, keyOf: Link<K> -> J, endsOf: Link<K> -> (K, K), plain: K -> bool, k: K)
    requires KeysTellEnds(keyOf, endsOf, plain) && TalksOk(talks, self) && TalksPlain(talks, self, plain) && plain(k)
    ensures CountLinks(LinksOf(self, talks), keyOf, keyOf(Link(self, k, false))) == CountChat(talks, k)
    ensures CountSent(LinksOf(self, talks), keyOf, keyOf(Link(self, k, false))) == CountChatSent(talks, k)
  {
    if talks != [] {
      var n := |talks| - 1;
      var t := talks[n];
      SelfEdgeCountsChat(self, talks[..n], keyOf, endsOf, plain, k);
      TalkLinksCount(LinksOf(self, talks[..n]), self, t, keyOf, keyOf(Link(self, k, false)));
      SelfLinkKey(keyOf, endsOf, plain, self, t.chat, t.isFromMe, k);
      if t.member.Some? {
        MemberLinkKey(keyOf, endsOf, plain, self, t.member.value, t.chat, k);
      }
    }
  }

  lemma {:induction false} PlainLinks<K>(self: K, talks: seq<Talk<K>>, plain: K -> bool)
    requires TalksPlain(talks, self, plain)
    ensures AllPlain(LinksOf(self, talks), plain)
  {
    if talks != [] {
      PlainLinks(self, talks[..|talks| - 1], plain);
    }
  }

  // ---------------------------------------------------------------- JIDs as strings

  /** addEdge puts the two JIDs in lexicographic order … */
  function EndsOf(l: Link<string>): (string, string) {
    if Before(l.to, l.from) then (l.to, l.from) else (l.from, l.to)
  }

  /** … and joins them with a bar. */
  function KeyOf(l: Link<string>): string {
    EndsOf(l).0 + "|" + EndsOf(l).1
  }

  predicate NoBar(jid: string) { '|' !in jid }

  lemma BarSplits(a: string, b: string, c: string, d: string)
    requires NoBar(a) && NoBar(c) && a + "|" + b == c + "|" + d
    ensures a == c && b == d
  {
    var s := a + "|" + b;
    assert s[..|a|] == a && s[|a|] == '|' && s[|a| + 1..] == b;
    assert s[..|c|] == c && s[|c|] == '|' && s[|c| + 1..] == d;
    IndexOfIs(s, '|', |a|);
    IndexOfIs(s, '|', |c|);
  }

  lemma EndsSymmetric(l: Link<string>, m: Link<string>)
    requires SameEnds(l, m)
    ensures EndsOf(l) == EndsOf(m)
  {
    BeforeTotal(l.from, l.to);
  }

  /** For JIDs without a bar, an edge key stands for one unordered pair of JIDs. */
  lemma StringKeysTellEnds(keyOf: Link<string> -> string, endsOf: Link<string> -> (string, string), plain: string -> bool)
    requires forall l :: keyOf(l) == KeyOf(l) && endsOf(l) == EndsOf(l)
    requires forall jid :: plain(jid) == NoBar(jid)
    ensures KeysTellEnds(keyOf, endsOf, plain)
  {
    forall l: Link<string>, m: Link<string> | SameEnds(l, m) ensures endsOf(l) == endsOf(m) && keyOf(l) == keyOf(m) {
      EndsSymmetric(l, m);
    }
    forall l: Link<string>, m: Link<string> | PlainEnds(l, plain) && PlainEnds(m, plain) && keyOf(l) == keyOf(m)
      ensures SameEnds(l, m)
    {
      BarSplits(EndsOf(l).0, EndsOf(l).1, EndsOf(m).0, EndsOf(m).1);
    }
  }

  // ---------------------------------------------------------------- the event loop

  lemma TalksAppend(rows: seq<Option<Msg>>, i: nat, self: string, direction: Direction, includeGroups: bool)
    requires i < |rows|
    ensures Talks(rows[..i + 1], self, direction, includeGroups)
            == Talks(rows[..i], self, direction, includeGroups)
               + (match TalkOf(rows[i], self, direction, includeGroups) case None => [] case Some(t) => [t])
  {
    assert rows[..i + 1][..i] == rows[..i];
  }

  lemma EdgesAppend<K, J>(links: seq<Link<K>>, l: Link<K>, keyOf: Link<K> -> J, endsOf: Link<K> -> (K, K))
    ensures EdgesFrom(links + [l], keyOf, endsOf)
            == AddEdge(EdgesFrom(links, keyOf, endsOf), l, keyOf(l), endsOf(l))
  {
    assert (links + [l])[..|links|] == links;
  }

  lemma LinksOfAppend<K>(self: K, talks: seq<Talk<K>>, t: Talk<K>)
    ensures LinksOf(self, talks + [t])
            == (match t.member case Some(m) => LinksOf(self, talks) + [Link(m, t.chat, false)] case None => LinksOf(self, talks))
               + [Link(self, t.chat, t.isFromMe)]
  {
    assert (talks + [t])[..|talks|] == talks;
  }

  /** The body of the loop for an event that passes the filters. */
  method AddTalk(nodes: map<string, Node<string>>, edges: map<string, Edge<string>>, self: string, t: Talk<string>,
                 ghost talks: seq<Talk<string>>, ghost keyOf: Link<string> -> string,
                 ghost endsOf: Link<string> -> (string, string))
    returns (nodes': map<string, Node<string>>, edges': map<string, Edge<string>>)
    requires NodesCount(nodes, self, talks) && t.chatType != SelfNode
    requires edges == EdgesFrom(LinksOf(self, talks), keyOf, endsOf)
    requires forall l {:trigger KeyOf(l)} :: keyOf(l) == KeyOf(l) && endsOf(l) == EndsOf(l)
    ensures NodesCount(nodes', self, talks + [t])
    ensures edges' == EdgesFrom(LinksOf(self, talks + [t]), keyOf, endsOf)
  {
    BumpTalkCounts(nodes, self, talks, t);
    LinksOfAppend(self, talks, t);
    nodes' := Bump(nodes, t.chat, t.chatType);
    edges' := edges;
    ghost var links := LinksOf(self, talks);
    if t.member.Some? {
      nodes' := Bump(nodes', t.member.value, ContactNode);
      var l := Link(t.member.value, t.chat, false);
      EdgesAppend(links, l, keyOf, endsOf);
      edges' := AddEdge(edges', l, KeyOf(l), EndsOf(l));
      links := links + [l];
    }
    var own := Link(self, t.chat, t.isFromMe);
    EdgesAppend(links, own, keyOf, endsOf);
    edges' := AddEdge(edges', own, KeyOf(own), EndsOf(own));
  }

  method BuildGraph(rows: seq<Option<Msg>>, self: string, direction: Direction, includeGroups: bool,
                    ghost keyOf: Link<string> -> string, ghost endsOf: Link<string> -> (string, string))
    returns (nodes: map<string, Node<string>>, edges: map<string, Edge<string>>)
    requires forall l {:trigger KeyOf(l)} :: keyOf(l) == KeyOf(l) && endsOf(l) == EndsOf(l)
    ensures NodesCount(nodes, self, Talks(rows, self, direction, includeGroups))
    ensures edges == EdgesFrom(LinksOf(self, Talks(rows, self, direction, includeGroups)), keyOf, endsOf)
  {
    nodes := map[self := Node(self, SelfNode, 0)];
    edges := map[];
    for i := 0 to |rows|
      invariant NodesCount(nodes, self, Talks(rows[..i], self, direction, includeGroups))
      invariant edges == EdgesFrom(LinksOf(self, Talks(rows[..i], self, direction, includeGroups)), keyOf, endsOf)
    {
      ghost var talks := Talks(rows[..i], self, direction, includeGroups);
      TalksAppend(rows, i, self, direction, includeGroups);
      var talk := TalkOf(rows[i], self, direction, includeGroups);
      match talk {
        case None => assert talks + [] == talks;
        case Some(t) => nodes, edges := AddTalk(nodes, edges, self, t, talks, keyOf, endsOf);
      }
    }
    assert rows[..|rows|] == rows;
  }

  // ---------------------------------------------------------------- conservation over every event table

  lemma {:induction false} TalksAreOk(rows: seq<Option<Msg>>, self: string, direction: Direction, includeGroups: bool)
    requires ChatType(self) != GroupNode
    ensures TalksOk(Talks(rows, self, direction, includeGroups), self)
  {
    if rows != [] {
      TalksAreOk(rows[..|rows| - 1], self, direction, includeGroups);
    }
  }

  /** When the device is not a group and JIDs hold no bar: the weights of the edges at self add up to
      the number of events that passed the filters, every edge's weight is sent plus received, and a
      group that never appears as a sender weighs on its edge to self what its node counts. */
  lemma GraphConserves(
    rows: seq<Option<Msg>>, self: string, direction: Direction, includeGroups: bool,
    keyOf: Link<string> -> string, endsOf: Link<string> -> (string, string), plain: string -> bool,
    nodes: map<string, Node<string>>, group: string)
    requires forall l :: keyOf(l) == KeyOf(l) && endsOf(l) == EndsOf(l)
    requires forall jid :: plain(jid) == NoBar(jid)
    requires ChatType(self) != GroupNode
    requires TalksPlain(Talks(rows, self, direction, includeGroups), self, plain)
    requires NodesCount(nodes, self, Talks(rows, self, direction, includeGroups))
    requires group in nodes && plain(group) && CountMember(Talks(rows, self, direction, includeGroups), group) == 0
    ensures var talks := Talks(rows, self, direction, includeGroups);
            var edges := EdgesFrom(LinksOf(self, talks), keyOf, endsOf);
            && SumAt(edges, self) == |talks|
            && EdgesCount(edges, LinksOf(self, talks), keyOf)
            && nodes[group].msgCount
               == (if keyOf(Link(self, group, false)) in edges then edges[keyOf(Link(self, group, false))].weight else 0)
  {
    var talks := Talks(rows, self, direction, includeGroups);
    var links := LinksOf(self, talks);
    StringKeysTellEnds(keyOf, endsOf, plain);
    TalksAreOk(rows, self, direction, includeGroups);
    PlainLinks(self, talks, plain);
    SumAtCountsLinks(links, keyOf, endsOf, plain, self);
    OneTouchPerTalk(self, talks);
    EdgesFromCount(links, keyOf, endsOf);
    SelfEdgeCountsChat(self, talks, keyOf, endsOf, plain, group);
    assert NodeCounts(nodes, self, talks, group);
  }

  // ---------------------------------------------------------------- filter and trim

  predicate Passes<K>(n: Node<K>, minMsgs: int) {
    n.nodeType == SelfNode || n.msgCount >= minMsgs
  }

  /** A result of sort.Slice with the source's comparison on the nodes that pass the filter: self
      first, then by falling message count, ties in any order. */
  ghost predicate IsRanking<K(!new)>(sorted: seq<Node<K>>, nodes: map<K, Node<K>>, minMsgs: int) {
    && (forall i, j :: 0 <= i < j < |sorted| ==>
          && sorted[i].id != sorted[j].id && sorted[j].nodeType != SelfNode
          && (sorted[i].nodeType == SelfNode || sorted[i].msgCount >= sorted[j].msgCount))
    && (forall n :: n in sorted <==> n.id in nodes && nodes[n.id] == n && Passes(n, minMsgs))
  }

  /** The trim to the top nodes, and the edges that both ends of are left. */
  method Trim<K(==), J(==)>(sorted: seq<Node<K>>, edges: map<J, Edge<K>>)
    returns (nodes: seq<Node<K>>, keptEdges: map<J, Edge<K>>)
    ensures nodes == sorted[..if |sorted| > 100 then 100 else |sorted|]
    ensures forall j :: j in keptEdges <==>
              j in edges && (exists n :: n in nodes && n.id == edges[j].source)
              && (exists n :: n in nodes && n.id == edges[j].target)
    ensures forall j :: j in keptEdges ==> keptEdges[j] == edges[j]
  {
    nodes := sorted;
    if |nodes| > 100 {
      nodes := nodes[..100];
    }
    var kept: set<K> := {};
    for i := 0 to |nodes|
      invariant forall k :: k in kept <==> exists n :: n in nodes[..i] && n.id == k
    {
      assert nodes[..i + 1] == nodes[..i] + [nodes[i]];
      kept := kept + {nodes[i].id};
    }
    assert nodes[..|nodes|] == nodes;
    keptEdges := KeepEdges(edges, kept);
  }

  method KeepEdges<K(==), J(==)>(edges: map<J, Edge<K>>, kept: set<K>) returns (keptEdges: map<J, Edge<K>>)
    ensures keptEdges == map j | j in edges && edges[j].source in kept && edges[j].target in kept :: edges[j]
  {
    keptEdges := map[];
    var left := edges.Keys;
    while left != {}
      invariant left <= edges.Keys
      invariant keptEdges == map j | j in edges && j !in left && edges[j].source in kept && edges[j].target in kept :: edges[j]
      decreases left
    {
      var j :| j in left;
      if edges[j].source in kept && edges[j].target in kept {
        keptEdges := keptEdges[j := edges[j]];
      }
      left := left - {j};
    }
  }

  /** However ties are broken: the trimmed graph has self, has at most 100 nodes, and has dropped no
      node heavier than one it kept other than self. */
  lemma TrimKeepsHeaviest<K(!new)>(
    nodes: map<K, Node<K>>, self: K, talks: seq<Talk<K>>, sorted: seq<Node<K>>, minMsgs: int)
    requires NodesCount(nodes, self, talks) && IsRanking(sorted, nodes, minMsgs)
    ensures var kept := sorted[..if |sorted| > 100 then 100 else |sorted|];
            && nodes[self] in kept && |kept| <= 100
            && (forall n :: n in kept ==> n.id in nodes && nodes[n.id] == n && (n.id == self || n.msgCount >= minMsgs))
            && (forall k :: k in nodes && nodes[k] !in kept ==>
                  nodes[k].msgCount < minMsgs
                  || (|kept| == 100 && forall n :: n in kept && n.id != self ==> nodes[k].msgCount <= n.msgCount))
  {
    var kept := sorted[..if |sorted| > 100 then 100 else |sorted|];
    NodesAre(nodes, self, talks);
    assert nodes[self] in sorted;
    var s :| 0 <= s < |sorted| && sorted[s] == nodes[self];
    assert kept[0] == sorted[0];
    assert s == 0;
    assert forall i :: 0 <= i < |kept| ==> kept[i] == sorted[i] && kept[i] in kept;
    forall k | k in nodes && nodes[k] !in kept
      ensures nodes[k].msgCount < minMsgs
              || (|kept| == 100 && forall n :: n in kept && n.id != self ==> nodes[k].msgCount <= n.msgCount)
    {
      if nodes[k].msgCount >= minMsgs {
        assert nodes[k] in sorted;
        var d :| 0 <= d < |sorted| && sorted[d] == nodes[k];
        assert d >= |kept|;
        forall n | n in kept && n.id != self ensures nodes[k].msgCount <= n.msgCount {
          var i :| 0 <= i < |kept| && kept[i] == n;
          assert sorted[i] == n && n in sorted;
        }
      }
    }
  }

  // ---------------------------------------------------------------- in terms of the stored events

  /** The event is shown: it has a chat, of the direction asked for, and groups only if asked for. */
  predicate Shown(m: Msg, direction: Direction, includeGroups: bool) {
    && m.chat != ""
    && (direction == Both || m.isFromMe == (direction == SentOnly))
    && (includeGroups || !HasSuffix(m.chat, "@g.us"))
  }

  function ToChat(direction: Direction, includeGroups: bool, k: string): Msg -> bool {
    m => Shown(m, direction, includeGroups) && m.chat == k
  }

  function SentToChat(direction: Direction, includeGroups: bool, k: string): Msg -> bool {
    m => Shown(m, direction, includeGroups) && m.chat == k && m.isFromMe
  }

  /** Sent to a group by `k`, who is not the device. */
  function ByMember(direction: Direction, includeGroups: bool, self: string, k: string): Msg -> bool {
    m => Shown(m, direction, includeGroups) && HasSuffix(m.chat, "@g.us") && m.sender == k && k != "" && k != self
  }

  function Any(direction: Direction, includeGroups: bool): Msg -> bool {
    m => Shown(m, direction, includeGroups)
  }

  function CountRows(rows: seq<Option<Msg>>, p: Msg -> bool): nat {
    if rows == [] then 0
    else
      var last := rows[|rows| - 1];
      CountRows(rows[..|rows| - 1], p) + (if last.Some? && p(last.value) then 1 else 0)
  }

  lemma TalkSays(row: Option<Msg>, self: string, direction: Direction, includeGroups: bool, k: string)
    ensures var talk := TalkOf(row, self, direction, includeGroups);
            && (talk.Some? <==> row.Some? && Any(direction, includeGroups)(row.value))
            && (talk.Some? && talk.value.chat == k <==> row.Some? && ToChat(direction, includeGroups, k)(row.value))
            && (talk.Some? && talk.value.chat == k && talk.value.isFromMe
                <==> row.Some? && SentToChat(direction, includeGroups, k)(row.value))
            && (talk.Some? && talk.value.member == Some(k)
                <==> row.Some? && ByMember(direction, includeGroups, self, k)(row.value))
  {
  }

  lemma TalksLast(rows: seq<Option<Msg>>, self: string, direction: Direction, includeGroups: bool)
    requires rows != []
    ensures var before := Talks(rows[..|rows| - 1], self, direction, includeGroups);
            Talks(rows, self, direction, includeGroups)
            == match TalkOf(rows[|rows| - 1], self, direction, includeGroups) case None => before case Some(t) => before + [t]
  {
  }

  lemma CountRowsLast(rows: seq<Option<Msg>>, p: Msg -> bool)
    requires rows != []
    ensures CountRows(rows, p)
            == CountRows(rows[..|rows| - 1], p) + (if rows[|rows| - 1].Some? && p(rows[|rows| - 1].value) then 1 else 0)
  {
  }

  lemma {:induction false} TalksCountRows(rows: seq<Option<Msg>>, self: string, direction: Direction, includeGroups: bool, k: string)
    ensures var talks := Talks(rows, self, direction, includeGroups);
            && |talks| == CountRows(rows, Any(direction, includeGroups))
            && CountChat(talks, k) == CountRows(rows, ToChat(direction, includeGroups, k))
            && CountChatSent(talks, k) == CountRows(rows, SentToChat(direction, includeGroups, k))
            && CountMember(talks, k) == CountRows(rows, ByMember(direction, includeGroups, self, k))
  {
    if rows != [] {
      var before := Talks(rows[..|rows| - 1], self, direction, includeGroups);
      var last := rows[|rows| - 1];
      var talk := TalkOf(last, self, direction, includeGroups);
      TalksCountRows(rows[..|rows| - 1], self, direction, includeGroups, k);
      TalksLast(rows, self, direction, includeGroups);
      TalkSays(last, self, direction, includeGroups, k);
      CountRowsLast(rows, Any(direction, includeGroups));
      CountRowsLast(rows, ToChat(direction, includeGroups, k));
      CountRowsLast(rows, SentToChat(direction, includeGroups, k));
      CountRowsLast(rows, ByMember(direction, includeGroups, self, k));
      if talk.Some? {
        CountsAppend(before, talk.value, k);
      }
    }
  }

  /** Sent events and received ones make up all of them. */
  lemma {:induction false} DirectionsAddUp(rows: seq<Option<Msg>>, self: string, includeGroups: bool)
    ensures |Talks(rows, self, SentOnly, includeGroups)| + |Talks(rows, self, ReceivedOnly, includeGroups)|
            == |Talks(rows, self, Both, includeGroups)|
  {
    if rows != [] {
      DirectionsAddUp(rows[..|rows| - 1], self, includeGroups);
    }
  }

  lemma {:induction false} FirstTypeMeaning(rows: seq<Option<Msg>>, self: string, direction: Direction, includeGroups: bool, k: string)
    ensures match FirstType(Talks(rows, self, direction, includeGroups), k)
            case None => true
            case Some(SelfNode) => false
            case Some(GroupNode) => HasSuffix(k, "@g.us") && includeGroups
            case Some(BroadcastNode) => HasSuffix(k, "@broadcast") && !HasSuffix(k, "@g.us")
            case Some(ContactNode) =>
              (!HasSuffix(k, "@g.us") && !HasSuffix(k, "@broadcast"))
              || CountMember(Talks(rows, self, direction, includeGroups), k) > 0
  {
    if rows != [] {
      FirstTypeMeaning(rows[..|rows| - 1], self, direction, includeGroups, k);
    }
  }

  lemma {:induction false} NoMembersWithoutGroups(rows: seq<Option<Msg>>, self: string, direction: Direction, k: string)
    ensures CountMember(Talks(rows, self, direction, false), k) == 0
  {
    if rows != [] {
      NoMembersWithoutGroups(rows[..|rows| - 1], self, direction, k);
    }
  }

  /** What each node of the graph says of the stored events: how many shown ones have it as chat or as group
      sender, and what it is. Without groups no node is one. */
  lemma NodesSay(rows: seq<Option<Msg>>, self: string, direction: Direction, includeGroups: bool,
                 nodes: map<string, Node<string>>, k: string)
    requires NodesCount(nodes, self, Talks(rows, self, direction, includeGroups)) && k in nodes
    ensures nodes[k].msgCount == CountRows(rows, ToChat(direction, includeGroups, k))
                                 + CountRows(rows, ByMember(direction, includeGroups, self, k))
    ensures nodes[k].nodeType == SelfNode <==> k == self
    ensures nodes[k].nodeType == GroupNode ==> HasSuffix(k, "@g.us") && includeGroups
    ensures nodes[k].nodeType == BroadcastNode ==> HasSuffix(k, "@broadcast")
    ensures nodes[k].nodeType == ContactNode ==>
              (!HasSuffix(k, "@g.us") && !HasSuffix(k, "@broadcast"))
              || CountRows(rows, ByMember(direction, includeGroups, self, k)) > 0
    ensures !includeGroups && HasSuffix(k, "@g.us") ==> k == self
  {
    assert NodeCounts(nodes, self, Talks(rows, self, direction, includeGroups), k);
    TalksCountRows(rows, self, direction, includeGroups, k);
    FirstTypeMeaning(rows, self, direction, includeGroups, k);
    if !includeGroups {
      NoMembersWithoutGroups(rows, self, direction, k);
    }
  }

  /** What the edge between the device and a chat says: its weight is the shown events of the chat, its two
      parts those sent and those received. So a graph of sent events has received nothing there, and one of
      received events has sent nothing. */
  lemma SelfEdgesSay(rows: seq<Option<Msg>>, self: string, direction: Direction, includeGroups: bool,
                     keyOf: Link<string> -> string, endsOf: Link<string> -> (string, string), plain: string -> bool, k: string)
    requires forall l :: keyOf(l) == KeyOf(l) && endsOf(l) == EndsOf(l)
    requires forall jid :: plain(jid) == NoBar(jid)
    requires ChatType(self) != GroupNode && plain(k)
    requires TalksPlain(Talks(rows, self, direction, includeGroups), self, plain)
    ensures var edges, j := EdgesFrom(LinksOf(self, Talks(rows, self, direction, includeGroups)), keyOf, endsOf), keyOf(Link(self, k, false));
            && (j in edges <==> CountRows(rows, ToChat(direction, includeGroups, k)) > 0)
            && (j in edges ==>
                  && edges[j].weight == CountRows(rows, ToChat(direction, includeGroups, k))
                  && edges[j].sent == CountRows(rows, SentToChat(direction, includeGroups, k))
                  && edges[j].received == edges[j].weight - edges[j].sent
                  && (direction == SentOnly ==> edges[j].received == 0)
                  && (direction == ReceivedOnly ==> edges[j].sent == 0))
  {
    var talks := Talks(rows, self, direction, includeGroups);
    StringKeysTellEnds(keyOf, endsOf, plain);
    TalksAreOk(rows, self, direction, includeGroups);
    EdgesFromCount(LinksOf(self, talks), keyOf, endsOf);
    SelfEdgeCountsChat(self, talks, keyOf, endsOf, plain, k);
    TalksCountRows(rows, self, direction, includeGroups, k);
    OneDirection(rows, direction, includeGroups, k);
  }

  lemma {:induction false} OneDirection(rows: seq<Option<Msg>>, direction: Direction, includeGroups: bool, k: string)
    ensures direction == SentOnly ==>
              CountRows(rows, SentToChat(direction, includeGroups, k)) == CountRows(rows, ToChat(direction, includeGroups, k))
    ensures direction == ReceivedOnly ==> CountRows(rows, SentToChat(direction, includeGroups, k)) == 0
  {
    if rows != [] {
      OneDirection(rows[..|rows| - 1], direction, includeGroups, k);
    }
  }

  ghost predicate InOrder(edges: map<string, Edge<string>>) {
    forall j :: j in edges ==> j == edges[j].source + "|" + edges[j].target && AtMost(edges[j].source, edges[j].target)
  }

  lemma AddInOrder(edges: map<string, Edge<string>>, l: Link<string>)
    requires InOrder(edges)
    ensures InOrder(AddEdge(edges, l, KeyOf(l), EndsOf(l)))
  {
    BeforeTotal(l.from, l.to);
    var after := AddEdge(edges, l, KeyOf(l), EndsOf(l));
    forall j | j in after ensures j == after[j].source + "|" + after[j].target && AtMost(after[j].source, after[j].target) {
      if j == KeyOf(l) && j !in edges {
        assert (after[j].source, after[j].target) == EndsOf(l);
      }
    }
  }

  /** Every edge has its two ends in order, and is stored under them joined by a bar. */
  lemma {:induction false} EdgesInOrder(links: seq<Link<string>>, keyOf: Link<string> -> string, endsOf: Link<string> -> (string, string))
    requires forall l {:trigger KeyOf(l)} :: keyOf(l) == KeyOf(l) && endsOf(l) == EndsOf(l)
    ensures InOrder(EdgesFrom(links, keyOf, endsOf))
  {
    if links != [] {
      EdgesInOrder(links[..|links| - 1], keyOf, endsOf);
      AddInOrder(EdgesFrom(links[..|links| - 1], keyOf, endsOf), links[|links| - 1]);
    }
  }
}
