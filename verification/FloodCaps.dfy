/**
 How far the tables of flooded announcements keep their caps. The node's own announcement is recorded
 without a look at the cap, and reports about a node already observed are never turned away.
 */
module FloodCaps {
  import opened Words
  import opened Graphs
  import opened Flood
  import opened FloodCopies

  // ---------------------------------------------------------------- announcements

  /** Entries of other nodes keep the cap. */
  ghost predicate OthersBounded(self: Id, table: Table) {
    |table.Keys - {Topic(self, 0)}| <= MAX_TABLE_ENTRIES
  }

  lemma SizeWithOwn(self: Id, table: Table)
    ensures |table| == |table.Keys - {Topic(self, 0)}| + if Topic(self, 0) in table then 1 else 0
  {
    assert |table| == |table.Keys|;
    if Topic(self, 0) !in table {
      assert table.Keys - {Topic(self, 0)} == table.Keys;
    }
  }

  lemma SizeOfUpdate(table: Table, topic: Topic, item: Item)
    ensures |table[topic := item]| == |table| + if topic in table then 0 else 1
  {
    assert table[topic := item].Keys == table.Keys + {topic};
    assert |table[topic := item]| == |table[topic := item].Keys| && |table| == |table.Keys|;
  }

  lemma SizeOfExchange(table: Table, v: Topic, topic: Topic, item: Item)
    requires v in table && topic !in table
    ensures |(table - {v})[topic := item]| == |table|
  {
    assert (table - {v}).Keys == table.Keys - {v};
    assert |(table - {v})| == |(table - {v}).Keys| == |table.Keys| - 1;
    SizeOfUpdate(table - {v}, topic, item);
  }

  lemma RecordedSize(self: Id, peers: set<Id>, table: Table, topic: Topic, item: Item, table': Table)
    requires Recorded(self, peers, table, topic, item, table') && topic.owner != self
    ensures |table'| == |table| + if topic !in table && |table| < MAX_TABLE_ENTRIES then 1 else 0
    ensures Topic(self, 0) in table' <==> Topic(self, 0) in table
  {
    SizeOfUpdate(table, topic, item);
    if topic !in table && |table| >= MAX_TABLE_ENTRIES && exists v | v in table :: Evictable(self, peers, v) {
      var v :| v in table && Evictable(self, peers, v) && table' == (table - {v})[topic := item];
      SizeOfExchange(table, v, topic, item);
    }
  }

  /** What a step does to the size: it passes the cap exactly when the node's own announcement is new
      and finds the table full. */
  lemma AnnouncementCap(self: Id, table: Table, e: Event, table': Table)
    requires Handled(Announcements, self, table, e, table') && OthersBounded(self, table)
    ensures OthersBounded(self, table') && |table'| <= MAX_TABLE_ENTRIES + 1
    ensures |table'| > MAX_TABLE_ENTRIES
       <==> |table| > MAX_TABLE_ENTRIES || (e.Own? && |table| == MAX_TABLE_ENTRIES && Topic(self, 0) !in table)
  {
    hide Recorded, ReportRecorded;
    SizeWithOwn(self, table);
    SizeWithOwn(self, table');
    var topic := TopicOf(Announcements, self, e);
    if e.Own? {
      SizeOfUpdate(table, topic, e.item);
    } else if TakenOver(Announcements, self, table, topic, e.item) {
      RecordedSize(self, e.peers, table, topic, e.item, table');
    }
  }

  /** Over every history a table of announcements holds at most one entry above its cap, the own one. */
  lemma {:induction false} AnnouncementsBounded(self: Id, tables: seq<Table>, events: seq<Event>, i: nat)
    requires IsHistory(Announcements, self, map[], tables, events) && i <= |events|
    ensures OthersBounded(self, tables[i]) && |tables[i]| <= MAX_TABLE_ENTRIES + 1
    ensures |tables[i]| > MAX_TABLE_ENTRIES ==> Topic(self, 0) in tables[i]
  {
    hide Handled, OthersBounded;
    if i == 0 {
      NothingBounded(self);
    } else {
      AnnouncementsBounded(self, tables, events, i - 1);
      assert HandledAt(Announcements, self, tables, events, i - 1);
      AnnouncementCap(self, tables[i - 1], events[i - 1], tables[i]);
    }
    BoundedSize(self, tables[i]);
  }

  lemma NothingBounded(self: Id)
    ensures OthersBounded(self, map[])
  {
    var none: Table := map[];
    assert none.Keys - {Topic(self, 0)} == {};
  }

  lemma BoundedSize(self: Id, table: Table)
    requires OthersBounded(self, table)
    ensures |table| <= MAX_TABLE_ENTRIES + 1
    ensures |table| > MAX_TABLE_ENTRIES ==> Topic(self, 0) in table
  {
    SizeWithOwn(self, table);
  }

  /** Histories that fill a table with `n` entries, all of them of others. */
  lemma {:induction false} Filled(kind: Kind, self: Id, n: nat) returns (tables: seq<Table>, events: seq<Event>)
    requires kind.Announcements? ==> n <= MAX_TABLE_ENTRIES
    ensures IsHistory(kind, self, map[], tables, events) && |tables[|events|]| == n
    ensures forall x | x in tables[|events|] :: self < x.owner <= self + n && x.about == if kind.Reputation? then self else 0
    decreases n
  {
    hide Handled;
    tables, events := [map[]], [];
    if n > 0 {
      tables, events := Filled(kind, self, n - 1);
      var table, topic, item := tables[|events|], Topic(self + n, if kind.Reputation? then self else 0), Item(0, 0);
      var e := Arrives({}, topic, item);
      OneMore(kind, self, table, topic, item);
      HistoryExtends(kind, self, map[], tables, events, e, table[topic := item]);
      tables, events := tables + [table[topic := item]], events + [e];
      SizeOfUpdate(table, topic, item);
    }
  }

  lemma OneMore(kind: Kind, self: Id, table: Table, topic: Topic, item: Item)
    requires topic.owner > self && topic !in table && topic.about == if kind.Reputation? then self else 0
    requires kind.Announcements? ==> |table| < MAX_TABLE_ENTRIES
    requires kind.Reputation? ==> forall x | x in table :: x.about == self
    ensures Handled(kind, self, table, Arrives({}, topic, item), table[topic := item])
  {
    if kind.Reputation? && |table| >= MAX_TABLE_ENTRIES {
      NotEmpty(table);
      var x :| x in table;
      assert Observed(table, topic.about);
    }
  }

  lemma NotEmpty(table: Table)
    requires |table| > 0
    ensures exists x :: x in table
  {
    assert |table.Keys| == |table|;
    assert table.Keys != {};
    var x :| x in table.Keys;
  }

  /** The cap is passed: a table full of others' entries takes the own one as well. */
  lemma OwnPassesCap(self: Id)
    ensures exists tables, events ::
      IsHistory(Announcements, self, map[], tables, events) && |tables[|events|]| == MAX_TABLE_ENTRIES + 1
  {
    hide Handled;
    var tables, events := Filled(Announcements, self, MAX_TABLE_ENTRIES);
    var table, e := tables[|events|], Own({}, 0, Item(0, 0));
    var after := table[Topic(self, 0) := e.item];
    OwnStored(self, table, e.item);
    HistoryExtends(Announcements, self, map[], tables, events, e, after);
    SizeOfUpdate(table, Topic(self, 0), e.item);
    assert (tables + [after])[|events + [e]|] == after;
  }

  lemma OwnStored(self: Id, table: Table, item: Item)
    ensures Handled(Announcements, self, table, Own({}, 0, item), table[Topic(self, 0) := item])
  {
  }

  // ---------------------------------------------------------------- reputation reports

  lemma WithoutShrinks(table: Table, about: Id)
    requires Observed(table, about)
    ensures |WithoutReports(table, about)| < |table|
  {
    var less, x := WithoutReports(table, about), (var x :| x in table && x.about == about; x);
    assert less.Keys <= table.Keys - {x};
    SubsetSize(less.Keys, table.Keys - {x});
    assert |less| == |less.Keys| && |table| == |table.Keys|;
  }

  /** Recording a report takes the table above its cap, or further above it, exactly when the table is
      full and the report is a new one about a node already observed. */
  lemma ReputationCap(self: Id, peers: set<Id>, table: Table, t: Topic, item: Item, table': Table)
    requires ReportRecorded(self, peers, table, t, item, table')
    ensures |table'| <= |table| + 1
    ensures |table'| > |table| && |table'| > MAX_TABLE_ENTRIES
       <==> |table| >= MAX_TABLE_ENTRIES && Observed(table, t.about) && t !in table
  {
    hide WithoutReports;
    SizeOfUpdate(table, t, item);
    if |table| >= MAX_TABLE_ENTRIES && !Observed(table, t.about) && exists x | x in table :: Droppable(self, peers, x.about) {
      var x :| x in table && Droppable(self, peers, x.about) && table' == WithoutReports(table, x.about)[t := item];
      assert Observed(table, x.about);
      WithoutShrinks(table, x.about);
      SizeOfUpdate(WithoutReports(table, x.about), t, item);
    }
  }

  /** So there is no bound at all: for every number there is a history with that many reports. */
  lemma ReputationUnbounded(self: Id, n: nat)
    ensures exists tables, events :: IsHistory(Reputation, self, map[], tables, events) && |tables[|events|]| == n
  {
    hide Handled;
    var tables, events := Filled(Reputation, self, n);
  }
}
