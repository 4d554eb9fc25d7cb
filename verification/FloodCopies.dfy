/**
 What a node does with a later copy of an announcement it has accepted: drop it, or, if the entry is
 gone by then, accept and flood it once more. A full table evicts the entry of any stranger.
 */
module FloodCopies {
  import opened Words
  import opened Flood

  /** The two kinds of tables: announcements, with one topic per node, and reputation reports. */
  datatype Kind = Announcements | Reputation

  /** What happens to one node's table: an authentic and fresh announcement arrives, with the peers
      the node has then, or the node announces something itself. */
  datatype Event = Arrives(peers: set<Id>, topic: Topic, item: Item) | Own(peers: set<Id>, about: Id, item: Item)

  function TopicOf(kind: Kind, self: Id, e: Event): Topic {
    match e
    case Arrives(_, topic, _) => topic
    case Own(_, about, _) => Topic(self, if kind.Reputation? then about else 0)
  }

  /** Reports of a node about itself are refused. */
  predicate Welcome(kind: Kind, topic: Topic) {
    kind.Reputation? ==> topic.owner != topic.about
  }

  predicate TakenOver(kind: Kind, self: Id, table: Table, topic: Topic, item: Item) {
    Welcome(kind, topic) && Accepts(self, table, topic, item)
  }

  ghost predicate Stored(kind: Kind, self: Id, peers: set<Id>, table: Table, topic: Topic, item: Item, table': Table) {
    if kind.Reputation? then ReportRecorded(self, peers, table, topic, item, table')
    else Recorded(self, peers, table, topic, item, table')
  }

  ghost predicate Handled(kind: Kind, self: Id, table: Table, e: Event, table': Table) {
    var topic := TopicOf(kind, self, e);
    match e
    case Arrives(peers, _, item) =>
      if TakenOver(kind, self, table, topic, item) then Stored(kind, self, peers, table, topic, item, table') else table' == table
    case Own(peers, _, item) =>
      if kind.Reputation? then Stored(kind, self, peers, table, topic, item, table') else table' == table[topic := item]
  }

  ghost predicate HandledAt(kind: Kind, self: Id, tables: seq<Table>, events: seq<Event>, i: nat)
    requires i < |events| && |tables| == |events| + 1
  {
    Handled(kind, self, tables[i], events[i], tables[i + 1])
  }

  /** The tables of one history of the events; which strangers are evicted is open. */
  ghost predicate IsHistory(kind: Kind, self: Id, first: Table, tables: seq<Table>, events: seq<Event>) {
    && |tables| == |events| + 1 && tables[0] == first
    && forall i: nat | i < |events| :: HandledAt(kind, self, tables, events, i)
  }

  /** The entries that have to go together with that of `topic`. */
  predicate Together(kind: Kind, x: Topic, topic: Topic) {
    if kind.Reputation? then x.about == topic.about else x == topic
  }

  /** Whether the event leads to a record at all: own announcements always do, and others if welcome. */
  predicate Records(kind: Kind, self: Id, e: Event) {
    e.Arrives? ==> e.topic.owner != self && Welcome(kind, e.topic)
  }

  /** A new topic meets a full table, so that some entry of a stranger has to go. */
  predicate Crowds(kind: Kind, self: Id, topics: set<Topic>, e: Event) {
    && Records(kind, self, e) && (e.Own? ==> kind.Reputation?)
    && |topics| >= MAX_TABLE_ENTRIES && forall x | x in topics :: !Together(kind, x, TopicOf(kind, self, e))
  }

  predicate MayGo(kind: Kind, self: Id, peers: set<Id>, topic: Topic) {
    if kind.Reputation? then Droppable(self, peers, topic.about) else Evictable(self, peers, topic)
  }

  /** The entry of `topic` is among those that may have to go. */
  predicate Endangers(kind: Kind, self: Id, topic: Topic, table: Table, e: Event) {
    Crowds(kind, self, table.Keys, e) && MayGo(kind, self, e.peers, topic)
  }

  /** Whatever is evicted, after the events an announcement of `topic` is dropped. */
  ghost predicate AlwaysDropped(kind: Kind, self: Id, first: Table, events: seq<Event>, topic: Topic, item: Item) {
    forall tables | IsHistory(kind, self, first, tables, events) :: !TakenOver(kind, self, tables[|events|], topic, item)
  }

  ghost predicate EndangeredAt(kind: Kind, self: Id, first: Table, events: seq<Event>, topic: Topic, tables: seq<Table>, i: nat) {
    && IsHistory(kind, self, first, tables, events) && i < |events|
    && topic in tables[i] && Endangers(kind, self, topic, tables[i], events[i])
  }

  /** In some history the entry of `topic`, still there, is put at risk. */
  ghost predicate Endangered(kind: Kind, self: Id, first: Table, events: seq<Event>, topic: Topic) {
    exists tables: seq<Table>, i: nat :: EndangeredAt(kind, self, first, events, topic, tables, i)
  }

  /** The topic is another node's, and none of the events is about it. */
  predicate NotAbout(kind: Kind, events: seq<Event>, self: Id, topic: Topic) {
    && topic.owner != self && Welcome(kind, topic)
    && forall e | e in events && e.Arrives? :: e.topic != topic
  }

  lemma {:induction false} HistoryPrefix(kind: Kind, self: Id, first: Table, tables: seq<Table>, events: seq<Event>, i: nat)
    requires IsHistory(kind, self, first, tables, events) && i <= |events|
    ensures IsHistory(kind, self, first, tables[..i + 1], events[..i])
  {
    var ts, es := tables[..i + 1], events[..i];
    forall j: nat | j < |es| ensures HandledAt(kind, self, ts, es, j) {
      assert HandledAt(kind, self, tables, events, j);
    }
  }

  lemma HistoryExtends(kind: Kind, self: Id, first: Table, tables: seq<Table>, events: seq<Event>, e: Event, t: Table)
    requires IsHistory(kind, self, first, tables, events) && Handled(kind, self, tables[|events|], e, t)
    ensures IsHistory(kind, self, first, tables + [t], events + [e])
  {
    forall j: nat | j < |events| + 1 ensures HandledAt(kind, self, tables + [t], events + [e], j) {
      if j < |events| {
        assert HandledAt(kind, self, tables, events, j);
      }
    }
  }

  lemma SomethingStored(kind: Kind, self: Id, peers: set<Id>, table: Table, topic: Topic, item: Item) returns (t: Table)
    ensures Stored(kind, self, peers, table, topic, item, t)
  {
    t := table;
    if kind.Reputation? {
      if |table| < MAX_TABLE_ENTRIES || Observed(table, topic.about) {
        t := table[topic := item];
      } else if v :| v in table && Droppable(self, peers, v.about) {
        t := WithoutReports(table, v.about)[topic := item];
      }
    } else if topic in table || |table| < MAX_TABLE_ENTRIES {
      t := table[topic := item];
    } else if v :| v in table && Evictable(self, peers, v) {
      t := (table - {v})[topic := item];
    }
  }

  /** Every event can be handled. */
  lemma SomethingFollows(kind: Kind, self: Id, table: Table, e: Event) returns (t: Table)
    ensures Handled(kind, self, table, e, t)
  {
    hide Stored, TakenOver;
    var topic := TopicOf(kind, self, e);
    t := SomethingStored(kind, self, e.peers, table, topic, e.item);
    if e.Arrives? && !TakenOver(kind, self, table, topic, e.item) {
      t := table;
    } else if e.Own? && kind.Announcements? {
      t := table[topic := e.item];
    }
  }

  /** Without a risk, an entry stays as it is. */
  lemma EntryStays(kind: Kind, self: Id, table: Table, e: Event, table': Table, topic: Topic)
    requires Handled(kind, self, table, e, table') && topic in table && NotAbout(kind, [e], self, topic)
    requires !Endangers(kind, self, topic, table, e)
    ensures topic in table' && table'[topic] == table[topic]
  {
    assert e in [e];
  }

  lemma EntryStaysAway(kind: Kind, self: Id, table: Table, e: Event, table': Table, topic: Topic)
    requires Handled(kind, self, table, e, table') && topic !in table && NotAbout(kind, [e], self, topic)
    ensures topic !in table'
  {
    assert e in [e];
  }

  /** At risk, it may be the one to go. */
  lemma EntryMayGo(kind: Kind, self: Id, table: Table, e: Event, topic: Topic) returns (t: Table)
    requires topic in table && Endangers(kind, self, topic, table, e)
    ensures Handled(kind, self, table, e, t) && topic !in t
  {
    var arriving := TopicOf(kind, self, e);
    if kind.Reputation? {
      t := WithoutReports(table, topic.about)[arriving := e.item];
    } else {
      t := (table - {topic})[arriving := e.item];
    }
  }

  lemma {:induction false} StaysWhileSafe(kind: Kind, self: Id, first: Table, tables: seq<Table>, events: seq<Event>, topic: Topic)
    requires IsHistory(kind, self, first, tables, events) && topic in first && NotAbout(kind, events, self, topic)
    requires !Endangered(kind, self, first, events, topic)
    ensures topic in tables[|events|] && tables[|events|][topic] == first[topic]
    decreases |events|
  {
    hide Handled, Endangers, NotAbout;
    if events != [] {
      var k := |events| - 1;
      HistoryPrefix(kind, self, first, tables, events, k);
      NotAboutLess(kind, events, self, topic, k);
      forall ts: seq<Table>, i: nat | EndangeredAt(kind, self, first, events[..k], topic, ts, i) ensures false {
        RiskExtends(kind, self, first, events, topic, ts, i);
      }
      StaysWhileSafe(kind, self, first, tables[..k + 1], events[..k], topic);
      assert HandledAt(kind, self, tables, events, k);
      assert !EndangeredAt(kind, self, first, events, topic, tables, k);
      EntryStays(kind, self, tables[k], events[k], tables[k + 1], topic);
    }
  }

  lemma NotAboutLess(kind: Kind, events: seq<Event>, self: Id, topic: Topic, k: nat)
    requires NotAbout(kind, events, self, topic) && k < |events|
    ensures NotAbout(kind, events[..k], self, topic) && NotAbout(kind, [events[k]], self, topic)
  {
    assert events[k] in events;
    assert forall e | e in events[..k] :: e in events;
  }

  /** A risk in a shorter history is one in a longer one. */
  lemma RiskExtends(kind: Kind, self: Id, first: Table, events: seq<Event>, topic: Topic, ts: seq<Table>, i: nat)
    requires events != [] && EndangeredAt(kind, self, first, events[..|events| - 1], topic, ts, i)
    ensures Endangered(kind, self, first, events, topic)
  {
    hide Handled, Endangers;
    var k := |events| - 1;
    var t := SomethingFollows(kind, self, ts[k], events[k]);
    HistoryExtends(kind, self, first, ts, events[..k], events[k], t);
    assert events[..k] + [events[k]] == events;
    assert EndangeredAt(kind, self, first, events, topic, ts + [t], i);
  }

  /** Some history leaves the entry out once it was at risk. */
  lemma {:induction false} MayBeGone(kind: Kind, self: Id, first: Table, events: seq<Event>, topic: Topic, ts: seq<Table>, i: nat)
    returns (tables: seq<Table>)
    requires EndangeredAt(kind, self, first, events, topic, ts, i) && NotAbout(kind, events, self, topic)
    ensures IsHistory(kind, self, first, tables, events) && topic !in tables[|events|]
    decreases |events|
  {
    hide Handled, Endangers, NotAbout;
    var k := |events| - 1;
    NotAboutLess(kind, events, self, topic, k);
    HistoryPrefix(kind, self, first, ts, events, k);
    assert events[..k] + [events[k]] == events;
    if i == k {
      var t := EntryMayGo(kind, self, ts[k], events[k], topic);
      HistoryExtends(kind, self, first, ts[..k + 1], events[..k], events[k], t);
      tables := ts[..k + 1] + [t];
    } else {
      assert EndangeredAt(kind, self, first, events[..k], topic, ts[..k + 1], i);
      var before := MayBeGone(kind, self, first, events[..k], topic, ts[..k + 1], i);
      var t := SomethingFollows(kind, self, before[k], events[k]);
      EntryStaysAway(kind, self, before[k], events[k], t, topic);
      HistoryExtends(kind, self, first, before, events[..k], events[k], t);
      tables := before + [t];
    }
  }

  /** A node that holds an item drops the next copy of it, or of anything not newer, whichever
      strangers it evicts meanwhile, exactly when the entry is never put at risk: whenever a new
      topic meets a full table, the item's owner is a peer. */
  lemma HeldCopyDropped(kind: Kind, self: Id, first: Table, events: seq<Event>, topic: Topic, later: Item)
    requires topic in first && later.seqno <= first[topic].seqno && NotAbout(kind, events, self, topic)
    ensures AlwaysDropped(kind, self, first, events, topic, later) <==> !Endangered(kind, self, first, events, topic)
  {
    hide Handled, Endangers, IsHistory;
    if Endangered(kind, self, first, events, topic) {
      var ts: seq<Table>, i: nat :| EndangeredAt(kind, self, first, events, topic, ts, i);
      var tables := MayBeGone(kind, self, first, events, topic, ts, i);
      HistoryShape(kind, self, first, tables, events);
      assert TakenOver(kind, self, tables[|events|], topic, later);
    } else {
      forall tables | IsHistory(kind, self, first, tables, events)
        ensures |tables| == |events| + 1 && !TakenOver(kind, self, tables[|events|], topic, later)
      {
        HistoryShape(kind, self, first, tables, events);
        StaysWhileSafe(kind, self, first, tables, events, topic);
      }
    }
  }

  lemma HistoryShape(kind: Kind, self: Id, first: Table, tables: seq<Table>, events: seq<Event>)
    requires IsHistory(kind, self, first, tables, events)
    ensures |tables| == |events| + 1 && tables[0] == first
  {
  }

  /** Whether there is room for a topic, or can be made. */
  ghost predicate Recordable(kind: Kind, self: Id, peers: set<Id>, table: Table, topic: Topic) {
    || |table| < MAX_TABLE_ENTRIES
    || (exists x | x in table :: Together(kind, x, topic))
    || exists x | x in table :: MayGo(kind, self, peers, x)
  }

  lemma FirstCopy(kind: Kind, self: Id, peers: set<Id>, table: Table, topic: Topic, item: Item, table': Table)
    requires TakenOver(kind, self, table, topic, item) && Stored(kind, self, peers, table, topic, item, table')
    ensures if Recordable(kind, self, peers, table, topic) then topic in table' && table'[topic] == item
            else table' == table && topic !in table'
  {
  }

  lemma HistoryTail(kind: Kind, self: Id, first: Table, tables: seq<Table>, e: Event, events: seq<Event>)
    requires IsHistory(kind, self, first, tables, [e] + events)
    ensures |tables| == |events| + 2 && Handled(kind, self, first, e, tables[1])
    ensures IsHistory(kind, self, tables[1], tables[1..], events)
  {
    hide Handled;
    assert HandledAt(kind, self, tables, [e] + events, 0);
    var ts := tables[1..];
    forall j: nat | j < |events| ensures HandledAt(kind, self, ts, events, j) {
      assert HandledAt(kind, self, tables, [e] + events, j + 1);
    }
  }

  lemma HistoryPrepends(kind: Kind, self: Id, first: Table, e: Event, tables: seq<Table>, events: seq<Event>)
    requires |tables| > 0 && Handled(kind, self, first, e, tables[0]) && IsHistory(kind, self, tables[0], tables, events)
    ensures IsHistory(kind, self, first, [first] + tables, [e] + events)
  {
    hide Handled;
    var ts, es := [first] + tables, [e] + events;
    forall j: nat | j < |es| ensures HandledAt(kind, self, ts, es, j) {
      if j > 0 {
        assert HandledAt(kind, self, tables, events, j - 1);
      }
    }
  }

  /** Dropping after `e` and then `events` is dropping after `events` from every table that `e` may
      leave. */
  lemma DroppedFromEach(kind: Kind, self: Id, first: Table, e: Event, events: seq<Event>, topic: Topic, later: Item)
    ensures AlwaysDropped(kind, self, first, [e] + events, topic, later)
       <==> forall t | Handled(kind, self, first, e, t) :: AlwaysDropped(kind, self, t, events, topic, later)
  {
    hide Handled, TakenOver, IsHistory;
    var all := [e] + events;
    if AlwaysDropped(kind, self, first, all, topic, later) {
      forall t | Handled(kind, self, first, e, t) ensures AlwaysDropped(kind, self, t, events, topic, later) {
        forall tables | IsHistory(kind, self, t, tables, events)
          ensures |tables| == |events| + 1 && !TakenOver(kind, self, tables[|events|], topic, later)
        {
          HistoryShape(kind, self, t, tables, events);
          HistoryPrepends(kind, self, first, e, tables, events);
          assert ([first] + tables)[|all|] == tables[|events|];
        }
      }
    }
    if forall t | Handled(kind, self, first, e, t) :: AlwaysDropped(kind, self, t, events, topic, later) {
      forall tables | IsHistory(kind, self, first, tables, all)
        ensures |tables| == |all| + 1 && !TakenOver(kind, self, tables[|all|], topic, later)
      {
        HistoryTail(kind, self, first, tables, e, events);
        assert AlwaysDropped(kind, self, tables[1], events, topic, later);
        assert tables[1..][|events|] == tables[|all|];
      }
    }
  }

  lemma {:induction false} NeverThere(kind: Kind, self: Id, first: Table, tables: seq<Table>, events: seq<Event>, topic: Topic)
    requires IsHistory(kind, self, first, tables, events) && topic !in first && NotAbout(kind, events, self, topic)
    ensures topic !in tables[|events|]
    decreases |events|
  {
    hide Handled, NotAbout;
    if events != [] {
      var k := |events| - 1;
      HistoryPrefix(kind, self, first, tables, events, k);
      NotAboutLess(kind, events, self, topic, k);
      NeverThere(kind, self, first, tables[..k + 1], events[..k], topic);
      assert HandledAt(kind, self, tables, events, k);
      EntryStaysAway(kind, self, tables[k], events[k], tables[k + 1], topic);
    }
  }

  lemma {:induction false} SomeHistory(kind: Kind, self: Id, first: Table, events: seq<Event>) returns (tables: seq<Table>)
    ensures IsHistory(kind, self, first, tables, events)
  {
    hide Handled;
    if events == [] {
      tables := [first];
    } else {
      var k := |events| - 1;
      var before := SomeHistory(kind, self, first, events[..k]);
      var t := SomethingFollows(kind, self, before[k], events[k]);
      HistoryExtends(kind, self, first, before, events[..k], events[k], t);
      assert events[..k] + [events[k]] == events;
      tables := before + [t];
    }
  }

  /** Exactly when the next copy of an accepted announcement, or of anything not newer, is dropped
      and not flooded again, whichever strangers are evicted and however peers come and go: when
      the first copy could be recorded, and its entry is never put at risk in between. A copy after
      that one is judged in the same way from the last arrival before it. */
  lemma SecondCopyDropped(kind: Kind, self: Id, peers: set<Id>, table: Table, topic: Topic, item: Item, events: seq<Event>, later: Item)
    requires TakenOver(kind, self, table, topic, item) && later.seqno <= item.seqno && NotAbout(kind, events, self, topic)
    ensures AlwaysDropped(kind, self, table, [Arrives(peers, topic, item)] + events, topic, later)
       <==> Recordable(kind, self, peers, table, topic)
            && forall t | Stored(kind, self, peers, table, topic, item, t) :: !Endangered(kind, self, t, events, topic)
  {
    hide IsHistory, Stored, Recordable, Endangered, AlwaysDropped, TakenOver;
    var e := Arrives(peers, topic, item);
    DroppedFromEach(kind, self, table, e, events, topic, later);
    forall t | Handled(kind, self, table, e, t)
      ensures AlwaysDropped(kind, self, t, events, topic, later)
         <==> Recordable(kind, self, peers, table, topic) && !Endangered(kind, self, t, events, topic)
    {
      FirstCopy(kind, self, peers, table, topic, item, t);
      if Recordable(kind, self, peers, table, topic) {
        HeldCopyDropped(kind, self, t, events, topic, later);
      } else {
        AbsentCopyAccepted(kind, self, t, events, topic, later);
      }
    }
    var t := SomethingFollows(kind, self, table, e);
  }

  lemma AbsentCopyAccepted(kind: Kind, self: Id, first: Table, events: seq<Event>, topic: Topic, later: Item)
    requires topic !in first && NotAbout(kind, events, self, topic)
    ensures !AlwaysDropped(kind, self, first, events, topic, later)
  {
    hide Handled;
    var tables := SomeHistory(kind, self, first, events);
    NeverThere(kind, self, first, tables, events, topic);
    assert TakenOver(kind, self, tables[|events|], topic, later);
  }

  // with the peers unchanged, the condition needs no history

  function TopicsOf(kind: Kind, self: Id, events: seq<Event>): set<Topic> {
    if events == [] then {}
    else
      var e := events[|events| - 1];
      TopicsOf(kind, self, events[..|events| - 1]) + if Records(kind, self, e) then {TopicOf(kind, self, e)} else {}
  }

  /** Counting topics, some new one finds the table full. */
  ghost predicate Overflows(kind: Kind, self: Id, topics: set<Topic>, events: seq<Event>) {
    exists i: nat :: i < |events| && CrowdsAt(kind, self, topics, events, i)
  }

  predicate CrowdsAt(kind: Kind, self: Id, topics: set<Topic>, events: seq<Event>, i: nat)
    requires i < |events|
  {
    Crowds(kind, self, topics + TopicsOf(kind, self, events[..i]), events[i])
  }

  lemma StepKeys(kind: Kind, self: Id, table: Table, e: Event, table': Table)
    requires Handled(kind, self, table, e, table') && !Crowds(kind, self, table.Keys, e)
    ensures table'.Keys == table.Keys + TopicsOf(kind, self, [e])
  {
    assert [e][..0] == [];
  }

  /** Until the first overflow nothing is evicted, so all histories have the same topics. */
  lemma {:induction false} TopicsSoFar(kind: Kind, self: Id, first: Table, tables: seq<Table>, events: seq<Event>, i: nat)
    requires IsHistory(kind, self, first, tables, events) && i <= |events|
    requires forall j: nat | j < i :: !CrowdsAt(kind, self, first.Keys, events, j)
    ensures tables[i].Keys == first.Keys + TopicsOf(kind, self, events[..i])
  {
    hide Handled, Crowds;
    if i > 0 {
      TopicsSoFar(kind, self, first, tables, events, i - 1);
      assert HandledAt(kind, self, tables, events, i - 1);
      assert !CrowdsAt(kind, self, first.Keys, events, i - 1);
      StepKeys(kind, self, tables[i - 1], events[i - 1], tables[i]);
      assert events[..i][..i - 1] == events[..i - 1] && [events[i - 1]][..0] == [];
    }
  }

  lemma {:induction false} FirstOverflow(kind: Kind, self: Id, topics: set<Topic>, events: seq<Event>, i: nat) returns (k: nat)
    requires i < |events| && CrowdsAt(kind, self, topics, events, i)
    ensures k <= i && CrowdsAt(kind, self, topics, events, k)
    ensures forall j: nat | j < k :: !CrowdsAt(kind, self, topics, events, j)
    decreases i
  {
    hide CrowdsAt;
    if j: nat :| j < i && CrowdsAt(kind, self, topics, events, j) {
      k := FirstOverflow(kind, self, topics, events, j);
    } else {
      k := i;
    }
  }

  /** A node that holds an item, and whose peers do not change, drops the next copy of it exactly
      when the entry may not go, because the node it belongs to is a peer, or the topics that come up
      meanwhile do not overflow the table. */
  lemma HeldCopyDroppedIff(kind: Kind, self: Id, peers: set<Id>, first: Table, events: seq<Event>, topic: Topic, later: Item)
    requires topic in first && later.seqno <= first[topic].seqno && NotAbout(kind, events, self, topic)
    requires forall e | e in events :: e.peers == peers
    ensures AlwaysDropped(kind, self, first, events, topic, later)
       <==> !MayGo(kind, self, peers, topic) || !Overflows(kind, self, first.Keys, events)
  {
    hide IsHistory, Handled, Crowds, AlwaysDropped, TopicsOf;
    HeldCopyDropped(kind, self, first, events, topic, later);
    if Endangered(kind, self, first, events, topic) {
      var ts: seq<Table>, i: nat :| EndangeredAt(kind, self, first, events, topic, ts, i);
      RiskMeansOverflow(kind, self, first, events, topic, ts, i);
      HistoryShape(kind, self, first, ts, events);
      assert events[i] in events;
    }
    if MayGo(kind, self, peers, topic) && Overflows(kind, self, first.Keys, events) {
      var i: nat :| i < |events| && CrowdsAt(kind, self, first.Keys, events, i);
      var k := FirstOverflow(kind, self, first.Keys, events, i);
      var ts := SomeHistory(kind, self, first, events);
      HistoryShape(kind, self, first, ts, events);
      TopicsSoFar(kind, self, first, ts, events, k);
      assert topic in ts[k].Keys;
      assert events[k] in events;
      assert EndangeredAt(kind, self, first, events, topic, ts, k);
    }
  }

  lemma RiskMeansOverflow(kind: Kind, self: Id, first: Table, events: seq<Event>, topic: Topic, ts: seq<Table>, i: nat)
    requires EndangeredAt(kind, self, first, events, topic, ts, i)
    ensures Overflows(kind, self, first.Keys, events)
  {
    hide IsHistory, Handled, Crowds, TopicsOf;
    if j: nat :| j < i && CrowdsAt(kind, self, first.Keys, events, j) {
      assert Overflows(kind, self, first.Keys, events);
    } else {
      HistoryShape(kind, self, first, ts, events);
      TopicsSoFar(kind, self, first, ts, events, i);
      assert CrowdsAt(kind, self, first.Keys, events, i);
    }
  }
}
