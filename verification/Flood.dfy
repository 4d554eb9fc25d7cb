/**
 Flooded announcements with sequence numbers: onion keys, capabilities and reputation reports all
 follow one protocol. A node keeps the newest item per topic, forwards an item to all its peers but
 the sender when it is newer than what it has, and drops it otherwise.
 */
module Flood {
  import opened Graphs
  import opened Words

  type Id = nat

  const MAX_TABLE_ENTRIES: nat := 16_384
  const MAX_FUTURE_MS: nat := 60_000

  /** What is announced: who announces it, and about what. Onion keys and capabilities have one
      topic per node; a reputation report is about the observed node. */
  datatype Topic = Topic(owner: Id, about: Id)
  datatype Item = Item(seqno: nat, value: nat)
  type Table = map<Topic, Item>

  /** Newer than what the node holds, and not its own. */
  predicate Newer(self: Id, owner: Id, held: Option<Item>, item: Item) {
    owner != self && (held.Some? ==> held.value.seqno < item.seqno)
  }

  predicate Accepts(self: Id, table: Table, topic: Topic, item: Item) {
    Newer(self, topic.owner, if topic in table then Some(table[topic]) else None, item)
  }

  predicate Fresh(now: nat, validFrom: nat, maxAge: nat) {
    now <= validFrom + maxAge && validFrom <= now + MAX_FUTURE_MS
  }

  /** An item is fresh from one minute before the time it is valid from until it is too old, and never
      again after. */
  lemma FreshSpan(validFrom: nat, maxAge: nat, now: nat, later: nat)
    requires now <= later
    ensures now < validFrom ==> (Fresh(now, validFrom, maxAge) <==> validFrom - now <= 60_000)
    ensures now >= validFrom ==> (Fresh(now, validFrom, maxAge) <==> now - validFrom <= maxAge)
    ensures now >= validFrom && !Fresh(now, validFrom, maxAge) ==> !Fresh(later, validFrom, maxAge)
  {
  }

  // ---------------------------------------------------------------- one node's table

  predicate Evictable(self: Id, peers: set<Id>, topic: Topic) {
    topic.owner !in peers && topic.owner != self
  }

  /** The table after recording: at the cap, a new topic replaces an entry of some stranger, and is
      not recorded when there is none. */
  ghost predicate Recorded(self: Id, peers: set<Id>, table: Table, topic: Topic, item: Item, table': Table) {
    if topic in table || |table| < MAX_TABLE_ENTRIES then table' == table[topic := item]
    else if exists v | v in table :: Evictable(self, peers, v) then
      exists v | v in table :: Evictable(self, peers, v) && table' == (table - {v})[topic := item]
    else table' == table
  }

  /** Recording never costs a peer, or the node itself, its entry; a known topic is always replaced,
      and at most one stranger gives way. */
  lemma RecordSpares(self: Id, peers: set<Id>, table: Table, topic: Topic, item: Item, table': Table, x: Topic)
    requires Recorded(self, peers, table, topic, item, table') && x in table
    ensures (x.owner in peers || x.owner == self) && x != topic ==> x in table' && table'[x] == table[x]
    ensures topic in table ==> table' == table[topic := item]
    ensures |table'| >= |table| && (topic in table' || |table| >= 16_384)
  {
    if topic !in table && |table| >= MAX_TABLE_ENTRIES && exists v | v in table :: Evictable(self, peers, v) {
      var v :| v in table && Evictable(self, peers, v) && table' == (table - {v})[topic := item];
      assert (table - {v}).Keys == table.Keys - {v};
      assert table'.Keys == table.Keys - {v} + {topic};
    } else if table' != table {
      assert table'.Keys == table.Keys + {topic};
      Graphs.SubsetSize(table.Keys, table'.Keys);
    }
  }

  /** The table of onion keys, or of capabilities, of one node. */
  class AnnounceTable {
    const self: Id
    const maxAge: nat
    var peers: set<Id>
    var table: Table
    var ownSeq: nat

    constructor (self: Id, maxAge: nat, peers: set<Id>)
      ensures this.self == self && this.maxAge == maxAge && this.peers == peers && table == map[] && ownSeq == 0
    {
      this.self, this.maxAge, this.peers, table, ownSeq := self, maxAge, peers, map[], 0;
    }

    /** Announces a new value of our own to every peer, under the next sequence number. */
    method Broadcast(value: nat) returns (item: Item, sendTo: set<Id>)
      modifies this`table, this`ownSeq
      ensures item == Item(old(ownSeq) + 1, value) && ownSeq == item.seqno && sendTo == peers
      ensures table == old(table)[Topic(self, 0) := item]
    {
      ownSeq := ownSeq + 1;
      item := Item(ownSeq, value);
      table := table[Topic(self, 0) := item];
      sendTo := peers;
    }

    method Record(topic: Topic, item: Item)
      modifies this`table
      ensures Recorded(self, peers, old(table), topic, item, table)
    {
      if topic !in table && |table| >= MAX_TABLE_ENTRIES {
        if v :| v in table && Evictable(self, peers, v) {
          table := table - {v};
        } else {
          return;
        }
      }
      table := table[topic := item];
    }

    /** `authentic` is the outcome of the signature check. */
    method Handle(from: Id, origin: Id, item: Item, authentic: bool, validFrom: nat, now: nat) returns (sendTo: set<Id>)
      modifies this`table
      ensures var accepted := authentic && Fresh(now, validFrom, maxAge) && Accepts(self, old(table), Topic(origin, 0), item);
              && sendTo == (if accepted then peers - {from} else {})
              && (if accepted then Recorded(self, peers, old(table), Topic(origin, 0), item, table)
                  else table == old(table))
    {
      sendTo := {};
      if origin == self || !authentic {
        return;
      }
      var age := if now >= validFrom then now - validFrom else 0;
      if age > maxAge || validFrom > now + MAX_FUTURE_MS {
        return;
      }
      var topic := Topic(origin, 0);
      if topic in table && !(item.seqno > table[topic].seqno) {
        return;
      }
      Record(topic, item);
      sendTo := peers - {from};
    }
  }

  // ---------------------------------------------------------------- reputation reports

  type Reports = map<Id, map<Id, Item>>

  /** All reports by topic: who reports, about whom. */
  function Flat(reports: Reports): Table {
    map a, o | a in reports && o in reports[a] :: Topic(o, a) := reports[a][o]
  }

  lemma FlatHas(reports: Reports, x: Topic)
    ensures x in Flat(reports) <==> x.about in reports && x.owner in reports[x.about]
    ensures x in Flat(reports) ==> Flat(reports)[x] == reports[x.about][x.owner]
  {
    if x.about in reports && x.owner in reports[x.about] {
      assert Topic(x.owner, x.about) in Flat(reports);
    }
  }

  predicate Observed(table: Table, about: Id) {
    exists x | x in table :: x.about == about
  }

  function WithoutReports(table: Table, about: Id): Table {
    map x | x in table && x.about != about :: table[x]
  }

  predicate Droppable(self: Id, peers: set<Id>, about: Id) {
    about !in peers && about != self
  }

  /** At the cap, a report about a node not observed yet replaces all reports about some stranger,
      and is not recorded when there is none; otherwise exactly the one report changes. */
  ghost predicate ReportRecorded(self: Id, peers: set<Id>, table: Table, t: Topic, item: Item, table': Table) {
    if |table| < MAX_TABLE_ENTRIES || Observed(table, t.about) then table' == table[t := item]
    else if exists x | x in table :: Droppable(self, peers, x.about) then
      exists x | x in table :: Droppable(self, peers, x.about) && table' == WithoutReports(table, x.about)[t := item]
    else table' == table
  }

  /** Recording a report never costs another report about a peer or about the node itself. */
  lemma ReportSpares(self: Id, peers: set<Id>, table: Table, t: Topic, item: Item, table': Table, x: Topic)
    requires ReportRecorded(self, peers, table, t, item, table') && x in table
    ensures (x.about in peers || x.about == self) && x != t ==> x in table' && table'[x] == table[x]
    ensures (exists y | y in table :: y.about == t.about) || |table| < 16_384 ==> t in table' && table'[t] == item
  {
  }

  /** The reputation reports of one node, per observed node and per observer. */
  class ReputationTable {
    const self: Id
    const maxAge: nat
    var peers: set<Id>
    var reports: Reports

    /** There is a report about every node that is kept. */
    ghost predicate Valid() reads this {
      forall a | a in reports :: reports[a] != map[]
    }

    constructor (self: Id, maxAge: nat, peers: set<Id>)
      ensures Valid() && this.self == self && this.maxAge == maxAge && this.peers == peers && reports == map[]
    {
      this.self, this.maxAge, this.peers, reports := self, maxAge, peers, map[];
    }

    /** How many reports there are, added up over the nodes observed. */
    method Total() returns (total: nat)
      ensures total == |Flat(reports)|
    {
      hide Flat;
      total := 0;
      var todo := reports.Keys;
      ghost var done: set<Id> := {};
      NothingCounted(reports);
      while todo != {}
        invariant todo !! done && todo + done == reports.Keys
        invariant total == |TopicsAbout(reports, done)|
        decreases todo
      {
        var a :| a in todo;
        CountedFurther(reports, done, a);
        todo, done := todo - {a}, done + {a};
        total := total + |reports[a]|;
      }
      AllCounted(reports);
    }

    method Record(t: Topic, item: Item)
      requires Valid()
      modifies this`reports
      ensures Valid() && ReportRecorded(self, peers, old(Flat(reports)), t, item, Flat(reports))
    {
      hide Flat, Observed, WithoutReports;
      var total := Total();
      ObservedIff(reports, t.about);
      ghost var before := Flat(reports);
      if total >= MAX_TABLE_ENTRIES && t.about !in reports {
        if v :| v in reports && v !in peers && v != self {
          StrangerObserved(reports, v);
          RecordFlat(reports - {v}, t, item);
          RemoveFlat(reports, v);
          ghost var x :| x in before && x.about == v;
          assert Droppable(self, peers, x.about);
          assert Flat(reports - {v})[t := item] == WithoutReports(before, x.about)[t := item];
          reports := reports - {v};
        } else {
          NoStranger(self, peers, reports);
          return;
        }
      } else {
        RecordFlat(reports, t, item);
      }
      var bucket := if t.about in reports then reports[t.about] else map[];
      assert t.owner in bucket[t.owner := item];
      reports := reports[t.about := bucket[t.owner := item]];
    }

    /** Announces our own view of a peer, under the next sequence number. */
    method Report(about: Id, item: Item) returns (sendTo: set<Id>)
      requires Valid()
      modifies this`reports
      ensures Valid() && ReportRecorded(self, peers, old(Flat(reports)), Topic(self, about), item, Flat(reports))
      ensures sendTo == peers
    {
      Record(Topic(self, about), item);
      sendTo := peers;
    }

    /** Accepts and forwards by the same rule as every other announcement; a report of a node about
        itself is dropped. */
    method Handle(from: Id, t: Topic, item: Item, authentic: bool, validFrom: nat, now: nat) returns (sendTo: set<Id>)
      requires Valid()
      modifies this`reports
      ensures Valid()
      ensures var accepted := && t.owner != t.about && authentic && Fresh(now, validFrom, maxAge)
                              && Accepts(self, old(Flat(reports)), t, item);
              && sendTo == (if accepted then peers - {from} else {})
              && (if accepted then ReportRecorded(self, peers, old(Flat(reports)), t, item, Flat(reports))
                  else reports == old(reports))
    {
      hide Flat, ReportRecorded;
      sendTo := {};
      if t.owner == t.about || t.owner == self || !authentic {
        return;
      }
      var age := if now >= validFrom then now - validFrom else 0;
      if age > maxAge || validFrom > now + MAX_FUTURE_MS {
        return;
      }
      FlatHas(reports, t);
      if t.about in reports && t.owner in reports[t.about] && !(item.seqno > reports[t.about][t.owner].seqno) {
        return;
      }
      Record(t, item);
      sendTo := peers - {from};
    }
  }

  function TopicsAbout(reports: Reports, abouts: set<Id>): set<Topic> {
    set a, o | a in abouts && a in reports && o in reports[a] :: Topic(o, a)
  }

  lemma NothingCounted(reports: Reports)
    ensures TopicsAbout(reports, {}) == {}
  {
  }

  lemma AllCounted(reports: Reports)
    ensures |TopicsAbout(reports, reports.Keys)| == |Flat(reports)|
  {
    forall x ensures x in TopicsAbout(reports, reports.Keys) <==> x in Flat(reports).Keys {
      FlatHas(reports, x);
      assert Topic(x.owner, x.about) == x;
    }
    assert TopicsAbout(reports, reports.Keys) == Flat(reports).Keys;
  }

  lemma {:induction false} OnTopic(owners: set<Id>, a: Id)
    ensures |set o | o in owners :: Topic(o, a)| == |owners|
  {
    var image := set o | o in owners :: Topic(o, a);
    if owners == {} {
      assert image == {};
    } else {
      var x :| x in owners;
      OnTopic(owners - {x}, a);
      var rest := set o | o in owners - {x} :: Topic(o, a);
      assert image == rest + {Topic(x, a)} && Topic(x, a) !in rest;
    }
  }

  lemma CountedFurther(reports: Reports, done: set<Id>, a: Id)
    requires a in reports && a !in done
    ensures |TopicsAbout(reports, done + {a})| == |TopicsAbout(reports, done)| + |reports[a]|
  {
    var more := set o | o in reports[a].Keys :: Topic(o, a);
    OnTopic(reports[a].Keys, a);
    var before := TopicsAbout(reports, done);
    assert TopicsAbout(reports, done + {a}) == before + more;
    assert before !! more;
    assert |reports[a].Keys| == |reports[a]|;
  }

  lemma ObservedIff(reports: Reports, about: Id)
    requires forall a | a in reports :: reports[a] != map[]
    ensures Observed(Flat(reports), about) <==> about in reports
  {
    if about in reports {
      var o :| o in reports[about];
      FlatHas(reports, Topic(o, about));
    }
    forall x | x in Flat(reports) ensures x.about in reports {
      FlatHas(reports, x);
    }
  }

  lemma StrangerObserved(reports: Reports, v: Id)
    requires v in reports && forall a | a in reports :: reports[a] != map[]
    ensures exists x | x in Flat(reports) :: x.about == v
  {
    ObservedIff(reports, v);
  }

  lemma NoStranger(self: Id, peers: set<Id>, reports: Reports)
    requires forall v | v in reports :: v in peers || v == self
    ensures !exists x | x in Flat(reports) :: Droppable(self, peers, x.about)
  {
    forall x | x in Flat(reports) ensures x.about in reports {
      FlatHas(reports, x);
    }
  }

  lemma RecordFlat(reports: Reports, t: Topic, item: Item)
    ensures var bucket := if t.about in reports then reports[t.about] else map[];
            Flat(reports[t.about := bucket[t.owner := item]]) == Flat(reports)[t := item]
  {
    var bucket := if t.about in reports then reports[t.about] else map[];
    var after := reports[t.about := bucket[t.owner := item]];
    forall x ensures x in Flat(after) <==> x in Flat(reports)[t := item] {
      FlatHas(after, x);
      FlatHas(reports, x);
    }
    forall x | x in Flat(after) ensures Flat(after)[x] == Flat(reports)[t := item][x] {
      FlatHas(after, x);
      FlatHas(reports, x);
    }
  }

  lemma RemoveFlat(reports: Reports, v: Id)
    ensures Flat(reports - {v}) == WithoutReports(Flat(reports), v)
  {
    forall x ensures x in Flat(reports - {v}) <==> x in WithoutReports(Flat(reports), v) {
      FlatHas(reports - {v}, x);
      FlatHas(reports, x);
    }
    forall x | x in Flat(reports - {v}) ensures Flat(reports - {v})[x] == WithoutReports(Flat(reports), v)[x] {
      FlatHas(reports - {v}, x);
      FlatHas(reports, x);
    }
  }

  // ---------------------------------------------------------------- a network

  type Network = Graph<Id>

  datatype Msg = Msg(src: Id, dst: Id, item: Item)

  datatype Acceptance = Acceptance(node: Id, seqno: nat)

  /** The network as far as one topic goes; tables are keyed by topic, so below their cap topics do
      not touch each other. `issued` and `accepted` record what was ever announced and accepted. */
  datatype Net = Net(held: map<Id, Item>, flight: multiset<Msg>, issued: set<Item>, accepted: seq<Acceptance>)

  datatype Step = Publish(item: Item) | Deliver(msg: Msg)

  function SendAll(src: Id, dsts: set<Id>, item: Item): multiset<Msg> {
    multiset(set w | w in dsts :: Msg(src, w, item))
  }

  /** An owner numbers its announcements upwards, and only a message in flight is delivered. */
  ghost predicate Enabled(n: Net, step: Step) {
    match step
    case Publish(item) => forall i | i in n.issued :: i.seqno < item.seqno
    case Deliver(m) => m in n.flight
  }

  function Held(n: Net, u: Id): Option<Item> {
    if u in n.held then Some(n.held[u]) else None
  }

  /** A flood: whose topic it is, and which items each node finds fresh by its own clock. */
  datatype Flow = Flow(owner: Id, timely: (Id, Item) -> bool)

  predicate Takes(fl: Flow, n: Net, m: Msg) {
    fl.timely(m.dst, m.item) && Newer(m.dst, fl.owner, Held(n, m.dst), m.item)
  }

  /** One step of the flood of a topic owned by `fl.owner`; `peers(u)` are the peers of `u`. */
  function Next(g: Network, fl: Flow, n: Net, step: Step): Net {
    match step
    case Publish(item) =>
      n.(held := n.held[fl.owner := item],
         flight := n.flight + SendAll(fl.owner, g.Peers(fl.owner), item),
         issued := n.issued + {item})
    case Deliver(m) =>
      var u := m.dst;
      if Takes(fl, n, m) then
        n.(held := n.held[u := m.item],
           flight := n.flight - multiset{m} + SendAll(u, g.Peers(u) - {m.src}, m.item),
           accepted := n.accepted + [Acceptance(u, m.item.seqno)])
      else n.(flight := n.flight - multiset{m})
  }

  predicate AtLeast(n: Net, u: Id, seqno: nat) {
    u in n.held && n.held[u].seqno >= seqno
  }

  // ---------------------------------------------------------------- the invariant

  ghost predicate MsgOk(g: Network, n: Net, m: Msg) {
    m.dst in g.Peers(m.src) && m.item in n.issued && AtLeast(n, m.src, m.item.seqno)
  }

  /** Across an edge a neighbour that finds the item fresh is as new, or the item is on its way. */
  ghost predicate EdgeOk(fl: Flow, n: Net, u: Id, w: Id)
    requires u in n.held
  {
    fl.timely(w, n.held[u]) ==> AtLeast(n, w, n.held[u].seqno) || Msg(u, w, n.held[u]) in n.flight
  }

  /** Nothing issued is newer than what its owner holds, a number names one item, and only issued
      items are held. */
  ghost predicate IssuedOk(fl: Flow, n: Net) {
    && (forall i | i in n.issued :: AtLeast(n, fl.owner, i.seqno))
    && (forall i, j | i in n.issued && j in n.issued && i.seqno == j.seqno :: i == j)
    && (forall u | u in n.held :: n.held[u] in n.issued)
  }

  ghost predicate FlightOk(g: Network, n: Net) {
    forall m | m in n.flight :: MsgOk(g, n, m)
  }

  ghost predicate EdgesOk(g: Network, fl: Flow, n: Net) {
    forall u, w | u in n.held && w in g.Peers(u) :: EdgeOk(fl, n, u, w)
  }

  ghost predicate Inv(g: Network, fl: Flow, n: Net) {
    IssuedOk(fl, n) && FlightOk(g, n) && EdgesOk(g, fl, n)
  }

  lemma SentTo(src: Id, dsts: set<Id>, item: Item, m: Msg)
    ensures m in SendAll(src, dsts, item) <==> m.src == src && m.dst in dsts && m.item == item
  {
    var s := set w | w in dsts :: Msg(src, w, item);
    assert m in SendAll(src, dsts, item) <==> m in s;
    if m.src == src && m.dst in dsts && m.item == item {
      assert m == Msg(src, m.dst, item);
    }
  }

  lemma PublishKeepsFlight(g: Network, fl: Flow, n: Net, item: Item)
    requires FlightOk(g, n) && Enabled(n, Publish(item))
    requires forall u | u in n.held :: n.held[u] in n.issued
    ensures FlightOk(g, Next(g, fl, n, Publish(item)))
  {
    hide SendAll;
    var n' := Next(g, fl, n, Publish(item));
    forall m | m in n'.flight ensures MsgOk(g, n', m) {
      SentTo(fl.owner, g.Peers(fl.owner), item, m);
      assert m in n.flight ==> MsgOk(g, n, m);
    }
  }

  lemma PublishKeepsEdges(g: Network, fl: Flow, n: Net, item: Item)
    requires EdgesOk(g, fl, n) && Enabled(n, Publish(item))
    requires forall u | u in n.held :: n.held[u] in n.issued
    ensures EdgesOk(g, fl, Next(g, fl, n, Publish(item)))
  {
    hide SendAll;
    var n' := Next(g, fl, n, Publish(item));
    forall u, w | u in n'.held && w in g.Peers(u) ensures EdgeOk(fl, n', u, w) {
      SentTo(fl.owner, g.Peers(fl.owner), item, Msg(u, w, item));
      assert u != fl.owner ==> EdgeOk(fl, n, u, w);
    }
  }

  lemma PublishKeepsInv(g: Network, fl: Flow, n: Net, item: Item)
    requires Inv(g, fl, n) && Enabled(n, Publish(item))
    ensures Inv(g, fl, Next(g, fl, n, Publish(item)))
  {
    hide FlightOk, EdgesOk, SendAll;
    PublishKeepsFlight(g, fl, n, item);
    PublishKeepsEdges(g, fl, n, item);
  }

  /** Whether it is newer or not, after delivery of a fresh item the receiver is as new. */
  lemma ReceiverCatchesUp(g: Network, fl: Flow, n: Net, m: Msg)
    requires IssuedOk(fl, n) && m.item in n.issued && fl.timely(m.dst, m.item)
    ensures AtLeast(Next(g, fl, n, Deliver(m)), m.dst, m.item.seqno)
  {
  }

  lemma DeliverKeepsEdges(g: Network, fl: Flow, n: Net, m: Msg)
    requires g.Valid() && EdgesOk(g, fl, n) && MsgOk(g, n, m)
    requires fl.timely(m.dst, m.item) ==> AtLeast(Next(g, fl, n, Deliver(m)), m.dst, m.item.seqno)
    ensures EdgesOk(g, fl, Next(g, fl, n, Deliver(m)))
  {
    hide SendAll;
    var n' := Next(g, fl, n, Deliver(m));
    assert m.src != m.dst && m.src in g.Peers(m.dst);
    hide Graph.Valid, Graph.Peers;
    forall u, w | u in n'.held && w in g.Peers(u) ensures EdgeOk(fl, n', u, w) {
      if u == m.dst && Takes(fl, n, m) {
        SentTo(u, g.Peers(u) - {m.src}, m.item, Msg(u, w, m.item));
      } else {
        assert EdgeOk(fl, n, u, w);
        var x := Msg(u, w, n.held[u]);
        assert x in n.flight && x != m ==> x in n'.flight;
      }
    }
  }

  lemma DeliverKeepsFlight(g: Network, fl: Flow, n: Net, m: Msg)
    requires FlightOk(g, n) && MsgOk(g, n, m)
    ensures FlightOk(g, Next(g, fl, n, Deliver(m)))
  {
    hide SendAll, Graph.Peers;
    var n' := Next(g, fl, n, Deliver(m));
    forall x | x in n'.flight ensures MsgOk(g, n', x) {
      SentTo(m.dst, g.Peers(m.dst) - {m.src}, m.item, x);
      assert x in n.flight ==> MsgOk(g, n, x);
    }
  }

  lemma DeliverKeepsInv(g: Network, fl: Flow, n: Net, m: Msg)
    requires g.Valid() && Inv(g, fl, n) && m in n.flight
    ensures Inv(g, fl, Next(g, fl, n, Deliver(m)))
  {
    assert MsgOk(g, n, m);
    hide FlightOk, EdgesOk, SendAll;
    if fl.timely(m.dst, m.item) {
      ReceiverCatchesUp(g, fl, n, m);
    }
    DeliverKeepsFlight(g, fl, n, m);
    DeliverKeepsEdges(g, fl, n, m);
  }

  // ---------------------------------------------------------------- runs

  const START: Net := Net(map[], multiset{}, {}, [])

  /** A run from an empty network; `nets[i]` is the state before step `i`. */
  ghost predicate IsRun(g: Network, fl: Flow, nets: seq<Net>, steps: seq<Step>) {
    && |nets| == |steps| + 1 && nets[0] == START
    && forall i {:trigger steps[i]} | 0 <= i < |steps| :: Enabled(nets[i], steps[i]) && nets[i + 1] == Next(g, fl, nets[i], steps[i])
  }

  lemma {:induction false} RunKeepsInv(g: Network, fl: Flow, nets: seq<Net>, steps: seq<Step>, i: nat)
    requires g.Valid() && IsRun(g, fl, nets, steps) && i < |nets|
    ensures Inv(g, fl, nets[i])
  {
    if i > 0 {
      RunKeepsInv(g, fl, nets, steps, i - 1);
      assert Enabled(nets[i - 1], steps[i - 1]) && nets[i] == Next(g, fl, nets[i - 1], steps[i - 1]);
      hide Inv, Next, Graph.Valid, IsRun;
      match steps[i - 1]
      case Publish(item) => PublishKeepsInv(g, fl, nets[i - 1], item);
      case Deliver(m) => DeliverKeepsInv(g, fl, nets[i - 1], m);
    }
  }

  lemma StepOfRun(g: Network, fl: Flow, nets: seq<Net>, steps: seq<Step>, i: nat)
    requires g.Valid() && IsRun(g, fl, nets, steps) && i < |steps|
    ensures |nets| == |steps| + 1 && Inv(g, fl, nets[i]) && Enabled(nets[i], steps[i])
    ensures nets[i + 1] == Next(g, fl, nets[i], steps[i])
  {
    hide Next, Inv, Enabled, Graph.Valid;
    RunKeepsInv(g, fl, nets, steps, i);
  }

  lemma StepMonotone(g: Network, fl: Flow, n: Net, step: Step, u: Id, seqno: nat)
    requires Inv(g, fl, n) && Enabled(n, step) && AtLeast(n, u, seqno)
    ensures AtLeast(Next(g, fl, n, step), u, seqno)
  {
    hide FlightOk, EdgesOk, SendAll;
    assert n.held[u] in n.issued;
  }

  /** What a node holds only gets newer. */
  lemma {:induction false} HeldOnlyRises(g: Network, fl: Flow, nets: seq<Net>, steps: seq<Step>, i: nat, j: nat, u: Id, seqno: nat)
    requires g.Valid() && IsRun(g, fl, nets, steps) && i <= j < |nets|
    requires AtLeast(nets[i], u, seqno)
    ensures AtLeast(nets[j], u, seqno)
    decreases j - i
  {
    if i < j {
      HeldOnlyRises(g, fl, nets, steps, i, j - 1, u, seqno);
      StepOfRun(g, fl, nets, steps, j - 1);
      hide Inv, Next, Enabled, Graph.Valid, AtLeast, IsRun;
      StepMonotone(g, fl, nets[j - 1], steps[j - 1], u, seqno);
    }
  }

  /** Every acceptance on record is of an item the node still holds or has replaced, and no two
      are the same. */
  ghost predicate AcceptedOk(n: Net) {
    && (forall a | a in n.accepted :: AtLeast(n, a.node, a.seqno))
    && (forall j, k | 0 <= j < k < |n.accepted| :: n.accepted[j] != n.accepted[k])
  }

  lemma StepKeepsAccepted(g: Network, fl: Flow, n: Net, step: Step)
    requires Inv(g, fl, n) && Enabled(n, step) && AcceptedOk(n)
    ensures AcceptedOk(Next(g, fl, n, step))
  {
    var n' := Next(g, fl, n, step);
    hide Inv, Enabled, SendAll;
    forall a | a in n.accepted ensures AtLeast(n', a.node, a.seqno) {
      StepMonotone(g, fl, n, step, a.node, a.seqno);
    }
    if |n'.accepted| > |n.accepted| {
      var a := n'.accepted[|n.accepted|];
      assert !AtLeast(n, a.node, a.seqno) && a !in n.accepted;
    }
  }

  /** No node accepts, and so forwards, the same announcement twice. */
  lemma {:induction false} AcceptedAtMostOnce(g: Network, fl: Flow, nets: seq<Net>, steps: seq<Step>, i: nat)
    requires g.Valid() && IsRun(g, fl, nets, steps) && i < |nets|
    ensures AcceptedOk(nets[i])
  {
    if i > 0 {
      AcceptedAtMostOnce(g, fl, nets, steps, i - 1);
      StepOfRun(g, fl, nets, steps, i - 1);
      hide Inv, Enabled, Graph.Valid, AcceptedOk, Next, IsRun;
      StepKeepsAccepted(g, fl, nets[i - 1], steps[i - 1]);
    }
  }

  // ---------------------------------------------------------------- termination

  /** The pairs of a node and an issued item that the node is still behind. */
  ghost function Behind(g: Network, n: Net): set<(Id, Item)> {
    set u, i | u in g.adj.Keys && i in n.issued && !AtLeast(n, u, i.seqno) :: (u, i)
  }

  ghost function Work(g: Network, n: Net): nat {
    |Behind(g, n)| * (|g.adj| + 1) + |n.flight|
  }

  lemma {:induction false} SendAllSize(src: Id, dsts: set<Id>, item: Item)
    ensures |SendAll(src, dsts, item)| == |dsts|
  {
    var image := set w | w in dsts :: Msg(src, w, item);
    if dsts == {} {
      assert image == {};
    } else {
      var x :| x in dsts;
      SendAllSize(src, dsts - {x}, item);
      var rest := set w | w in dsts - {x} :: Msg(src, w, item);
      assert image == rest + {Msg(src, x, item)} && Msg(src, x, item) !in rest;
    }
  }

  lemma FewPeers(g: Network, u: Id, except: Id)
    requires g.Valid()
    ensures |g.Peers(u) - {except}| <= |g.adj|
  {
    g.PeersAreNodes(u);
    SubsetSize(g.Peers(u) - {except}, g.adj.Keys);
    assert |g.adj.Keys| == |g.adj|;
  }

  lemma AcceptanceShrinksBehind(g: Network, fl: Flow, n: Net, m: Msg)
    requires g.Valid() && Inv(g, fl, n) && m in n.flight && Takes(fl, n, m)
    ensures |Behind(g, Next(g, fl, n, Deliver(m)))| < |Behind(g, n)|
  {
    var n' := Next(g, fl, n, Deliver(m));
    assert MsgOk(g, n, m);
    assert m.src in g.Peers(m.dst);
    assert (m.dst, m.item) in Behind(g, n);
    forall p | p in Behind(g, n') ensures p in Behind(g, n) - {(m.dst, m.item)} {
      if AtLeast(n, p.0, p.1.seqno) {
        StepMonotone(g, fl, n, Deliver(m), p.0, p.1.seqno);
        assert false;
      }
    }
    SubsetSize(Behind(g, n'), Behind(g, n) - {(m.dst, m.item)});
  }

  /** Every delivery leaves less work, whichever message it is. */
  lemma DeliveryShrinksWork(g: Network, fl: Flow, n: Net, m: Msg)
    requires g.Valid() && Inv(g, fl, n) && m in n.flight
    ensures Work(g, Next(g, fl, n, Deliver(m))) < Work(g, n)
  {
    var n' := Next(g, fl, n, Deliver(m));
    var more := |g.adj| + 1;
    if Takes(fl, n, m) {
      AcceptanceShrinksBehind(g, fl, n, m);
      hide Behind, Inv, Graph.Valid, SendAll;
      FewPeers(g, m.dst, m.src);
      SendAllSize(m.dst, g.Peers(m.dst) - {m.src}, m.item);
      Product(|Behind(g, n')|, |Behind(g, n)|, more);
    } else {
      assert Behind(g, n') == Behind(g, n);
    }
  }

  lemma Product(a: nat, b: nat, k: nat)
    requires a < b
    ensures a * k + k <= b * k
  {
    assert (a + 1) * k <= b * k;
  }

  /** Every flood terminates: from any point of a run, with no new announcement, there are at most
      as many deliveries left as there is work. */
  lemma {:induction false} FloodTerminates(g: Network, fl: Flow, nets: seq<Net>, steps: seq<Step>, i: nat, j: nat)
    requires g.Valid() && IsRun(g, fl, nets, steps) && i <= j < |nets|
    requires forall k | i <= k < j :: steps[k].Deliver?
    ensures Work(g, nets[j]) + (j - i) <= Work(g, nets[i])
    decreases j - i
  {
    if i < j {
      FloodTerminates(g, fl, nets, steps, i, j - 1);
      StepOfRun(g, fl, nets, steps, j - 1);
      hide Inv, Next, Graph.Valid, Work, IsRun;
      DeliveryShrinksWork(g, fl, nets[j - 1], steps[j - 1].msg);
    }
  }

  // ---------------------------------------------------------------- quiescence

  /** The owner's item can reach `u`: along a path whose nodes all find it fresh. */
  ghost predicate Leads(g: Network, fl: Flow, path: seq<Id>, u: Id, item: Item) {
    && IsPath(g, path) && path[0] == fl.owner && path[|path| - 1] == u
    && forall k | 1 <= k < |path| :: fl.timely(path[k], item)
  }

  ghost predicate Fed(g: Network, fl: Flow, u: Id, item: Item) {
    exists path :: Leads(g, fl, path, u, item)
  }

  /** Whatever is held or on its way came along such a path. */
  ghost predicate FedOk(g: Network, fl: Flow, n: Net) {
    && (forall u | u in n.held :: Fed(g, fl, u, n.held[u]))
    && (forall m | m in n.flight :: Fed(g, fl, m.src, m.item))
  }

  lemma OwnerFed(g: Network, fl: Flow, item: Item)
    ensures Fed(g, fl, fl.owner, item)
  {
    assert Leads(g, fl, [fl.owner], fl.owner, item);
  }

  lemma FedFurther(g: Network, fl: Flow, u: Id, w: Id, item: Item)
    requires Fed(g, fl, u, item) && w in g.Peers(u) && fl.timely(w, item)
    ensures Fed(g, fl, w, item)
  {
    hide Graph.Peers;
    var path :| Leads(g, fl, path, u, item);
    assert Leads(g, fl, path + [w], w, item);
  }

  lemma StepKeepsFed(g: Network, fl: Flow, n: Net, step: Step)
    requires FlightOk(g, n) && Enabled(n, step) && FedOk(g, fl, n)
    ensures FedOk(g, fl, Next(g, fl, n, step))
  {
    hide Fed, SendAll;
    var n' := Next(g, fl, n, step);
    match step
    case Publish(item) =>
      OwnerFed(g, fl, item);
      forall x | x in n'.flight ensures Fed(g, fl, x.src, x.item) {
        SentTo(fl.owner, g.Peers(fl.owner), item, x);
      }
    case Deliver(m) =>
      assert MsgOk(g, n, m);
      if Takes(fl, n, m) {
        FedFurther(g, fl, m.src, m.dst, m.item);
      }
      forall x | x in n'.flight ensures Fed(g, fl, x.src, x.item) {
        SentTo(m.dst, g.Peers(m.dst) - {m.src}, m.item, x);
      }
  }

  lemma {:induction false} RunKeepsFed(g: Network, fl: Flow, nets: seq<Net>, steps: seq<Step>, i: nat)
    requires g.Valid() && IsRun(g, fl, nets, steps) && i < |nets|
    ensures FedOk(g, fl, nets[i])
  {
    if i > 0 {
      RunKeepsFed(g, fl, nets, steps, i - 1);
      StepOfRun(g, fl, nets, steps, i - 1);
      hide Enabled, Graph.Valid, FedOk, Next, IsRun, IssuedOk, EdgesOk, FlightOk;
      StepKeepsFed(g, fl, nets[i - 1], steps[i - 1]);
    }
  }

  lemma {:induction false} NewestAlongPath(g: Network, fl: Flow, n: Net, path: seq<Id>)
    requires Inv(g, fl, n) && n.flight == multiset{} && fl.owner in n.held
    requires path != [] && Leads(g, fl, path, path[|path| - 1], n.held[fl.owner])
    ensures Held(n, path[|path| - 1]) == Some(n.held[fl.owner])
    decreases |path|
  {
    if |path| > 1 {
      var k := |path| - 1;
      assert Leads(g, fl, path[..k], path[k - 1], n.held[fl.owner]);
      NewestAlongPath(g, fl, n, path[..k]);
      assert EdgeOk(fl, n, path[k - 1], path[k]);
      assert n.held[path[k]] in n.issued;
    }
  }

  /** When nothing is in flight, exactly the nodes that a path of nodes finding it fresh connects to
      the owner hold the owner's newest item, and nothing newer was ever announced. */
  lemma QuiescentMeansDelivered(g: Network, fl: Flow, nets: seq<Net>, steps: seq<Step>)
    requires g.Valid() && IsRun(g, fl, nets, steps)
    requires nets[|nets| - 1].flight == multiset{} && nets[|nets| - 1].issued != {}
    ensures var n := nets[|nets| - 1];
            && fl.owner in n.held && n.held[fl.owner] in n.issued
            && (forall i | i in n.issued :: i.seqno <= n.held[fl.owner].seqno)
            && forall u :: Held(n, u) == Some(n.held[fl.owner]) <==> Fed(g, fl, u, n.held[fl.owner])
  {
    RunKeepsInv(g, fl, nets, steps, |steps|);
    RunKeepsFed(g, fl, nets, steps, |steps|);
    var n := nets[|nets| - 1];
    var i :| i in n.issued;
    assert AtLeast(n, fl.owner, i.seqno);
    forall u ensures Held(n, u) == Some(n.held[fl.owner]) <==> Fed(g, fl, u, n.held[fl.owner]) {
      if Fed(g, fl, u, n.held[fl.owner]) {
        var path :| Leads(g, fl, path, u, n.held[fl.owner]);
        NewestAlongPath(g, fl, n, path);
      }
    }
  }

  /** In particular, where all clocks agree well enough, every node connected to the owner. */
  lemma AllConnectedHold(g: Network, fl: Flow, nets: seq<Net>, steps: seq<Step>, path: seq<Id>)
    requires g.Valid() && IsRun(g, fl, nets, steps)
    requires nets[|nets| - 1].flight == multiset{} && nets[|nets| - 1].issued != {}
    requires IsPath(g, path) && path[0] == fl.owner
    requires forall u, item :: fl.timely(u, item)
    ensures var n, u := nets[|nets| - 1], path[|path| - 1];
            fl.owner in n.held && Held(n, u) == Some(n.held[fl.owner])
  {
    hide Graph.Valid;
    var n, u := nets[|nets| - 1], path[|path| - 1];
    QuiescentMeansDelivered(g, fl, nets, steps);
    assert Leads(g, fl, path, u, n.held[fl.owner]);
  }
}
