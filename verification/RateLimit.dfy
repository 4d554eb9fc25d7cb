/**
 The per-source limit on inbound Inits, a sliding window of accepted arrival times, and the
 exponential backoff of a sender's retransmits that is meant to stay below it. Times are
 milliseconds since the clock's own start.
 */
module RateLimit {
  import opened Words
  import Graphs
  import H = Handshake
  import S = Session

  type Id = H.Id

  const INIT_RATE_WINDOW: nat := 10_000
  const MAX_INITS_PER_WINDOW: nat := 4
  const MAX_INIT_RATE_LOG_ENTRIES: nat := 4_096

  type Log = map<Id, seq<nat>>

  /** The start of the window; a clock younger than the window falls back to `now`. */
  function Cutoff(now: nat): nat {
    if now >= INIT_RATE_WINDOW then now - INIT_RATE_WINDOW else now
  }

  function Retained(ts: seq<nat>, cutoff: nat): (r: seq<nat>)
    ensures |r| <= |ts|
  {
    if ts == [] then []
    else (if ts[0] >= cutoff then [ts[0]] else []) + Retained(ts[1..], cutoff)
  }

  function Entry(log: Log, source: Id): seq<nat> {
    if source in log then log[source] else []
  }

  predicate Stale(ts: seq<nat>, cutoff: nat) {
    forall t | t in ts :: t < cutoff
  }

  /** A new source finds the log full. */
  predicate Full(log: Log, source: Id) {
    source !in log && |log| >= MAX_INIT_RATE_LOG_ENTRIES
  }

  predicate NoRoom(log: Log, now: nat, source: Id) {
    Full(log, source) && forall v | v in log :: !Stale(log[v], Cutoff(now))
  }

  /** The log after making room: any one stale entry goes if it was full. */
  predicate RoomMade(log: Log, now: nat, source: Id, log': Log) {
    if Full(log, source) then exists v | v in log :: Stale(log[v], Cutoff(now)) && log' == log - {v}
    else log' == log
  }

  predicate Recorded(log: Log, now: nat, source: Id, log': Log, limited: bool) {
    var kept := Retained(Entry(log, source), Cutoff(now));
    && limited == (|kept| >= MAX_INITS_PER_WINDOW)
    && log' == log[source := if limited then kept else kept + [now]]
  }

  /** One call of the limiter. */
  ghost predicate Step(log: Log, now: nat, source: Id, log': Log, limited: bool) {
    if NoRoom(log, now, source) then limited && log' == log
    else exists mid :: RoomMade(log, now, source, mid) && Recorded(mid, now, source, log', limited)
  }

  class RateLimiter {
    var log: Log

    constructor ()
      ensures log == map[]
    {
      log := map[];
    }

    method RateLimited(now: nat, source: Id) returns (limited: bool)
      modifies this
      ensures Step(old(log), now, source, log, limited)
    {
      var cutoff := Cutoff(now);
      if source !in log && |log| >= MAX_INIT_RATE_LOG_ENTRIES {
        if v :| v in log && Stale(log[v], cutoff) {
          log := log - {v};
        } else {
          return true;
        }
      }
      ghost var mid := log;
      assert RoomMade(old(log), now, source, mid);
      var kept := Retained(Entry(log, source), cutoff);
      limited := |kept| >= MAX_INITS_PER_WINDOW;
      log := log[source := if limited then kept else kept + [now]];
      assert Recorded(mid, now, source, log, limited);
    }
  }

  // ---------------------------------------------------------------- runs

  datatype Call = Call(now: nat, source: Id)

  /** A run: the calls, the log before and after each, and the answers. */
  datatype Trace = Trace(calls: seq<Call>, logs: seq<Log>, limited: seq<bool>)

  /** The clock does not run backwards. */
  ghost predicate Clocked(t: Trace) {
    forall i, j | 0 <= i <= j < |t.calls| :: t.calls[i].now <= t.calls[j].now
  }

  ghost predicate StepAt(t: Trace, i: nat)
    requires i < |t.calls| == |t.limited| && |t.logs| == |t.calls| + 1
  {
    Step(t.logs[i], t.calls[i].now, t.calls[i].source, t.logs[i + 1], t.limited[i])
  }

  ghost predicate IsTrace(t: Trace, start: nat) {
    && |t.logs| == |t.calls| + 1 && |t.limited| == |t.calls|
    && t.logs[0] == map[]
    && (forall i | 0 <= i < |t.calls| :: start <= t.calls[i].now)
    && Clocked(t)
    && (forall i | 0 <= i < |t.calls| :: StepAt(t, i))
  }

  lemma TraceShape(t: Trace, start: nat)
    requires IsTrace(t, start)
    ensures |t.logs| == |t.calls| + 1 && |t.limited| == |t.calls| && Clocked(t)
    ensures t.logs[0] == map[]
  {
  }

  /** The indices below `n` of the accepted calls of one source, in order. */
  function AcceptedBy(t: Trace, source: Id, n: nat): (r: seq<nat>)
    requires n <= |t.calls| == |t.limited|
    ensures forall i | 0 <= i < |r| :: r[i] < n && t.calls[r[i]].source == source && !t.limited[r[i]]
    ensures forall i, j | 0 <= i < j < |r| :: r[i] < r[j]
  {
    if n == 0 then []
    else AcceptedBy(t, source, n - 1) + if t.calls[n - 1].source == source && !t.limited[n - 1] then [n - 1] else []
  }

  function Times(t: Trace, ids: seq<nat>): (r: seq<nat>)
    requires forall i | 0 <= i < |ids| :: ids[i] < |t.calls|
    ensures |r| == |ids|
  {
    seq(|ids|, i requires 0 <= i < |ids| => t.calls[ids[i]].now)
  }

  /** What the log must still know: every accepted time not older than the window. */
  function Horizon(now: nat): nat {
    if now >= INIT_RATE_WINDOW then now - INIT_RATE_WINDOW else 0
  }

  ghost predicate Sorted(ts: seq<nat>) {
    forall i, j | 0 <= i <= j < |ts| :: ts[i] <= ts[j]
  }

  /** `kept` is what is left of `ts` after dropping only times before `h`. */
  ghost predicate SuffixSince(kept: seq<nat>, ts: seq<nat>, h: nat) {
    && |kept| <= |ts|
    && kept == ts[|ts| - |kept|..]
    && forall i | 0 <= i < |ts| - |kept| :: ts[i] < h
  }

  /** Any five consecutive times span more than the window. */
  ghost predicate Spread(ts: seq<nat>) {
    forall i | 0 <= i < |ts| - MAX_INITS_PER_WINDOW :: ts[i] + INIT_RATE_WINDOW < ts[i + MAX_INITS_PER_WINDOW]
  }

  lemma {:induction false} RetainedAll(ts: seq<nat>, cutoff: nat)
    requires forall i | 0 <= i < |ts| :: ts[i] >= cutoff
    ensures Retained(ts, cutoff) == ts
  {
    if ts != [] {
      RetainedAll(ts[1..], cutoff);
    }
  }

  /** Of sorted times, the ones dropped are the first `k`. */
  lemma {:induction false} RetainedIsSuffix(ts: seq<nat>, cutoff: nat) returns (k: nat)
    requires Sorted(ts)
    ensures k <= |ts| && Retained(ts, cutoff) == ts[k..]
    ensures forall i | 0 <= i < k :: ts[i] < cutoff
  {
    if ts == [] || ts[0] >= cutoff {
      k := 0;
      RetainedAll(ts, cutoff);
    } else {
      var j := RetainedIsSuffix(ts[1..], cutoff);
      k := j + 1;
      assert ts[1..][j..] == ts[k..];
      forall i | 0 < i < k ensures ts[i] < cutoff {
        assert ts[i] == ts[1..][i - 1];
      }
    }
  }

  /** The part of the invariant about one source: its log entry lacks only times before `h`. */
  ghost predicate EntryOk(e: seq<nat>, ts: seq<nat>, h: nat, start: nat, now: nat) {
    && Sorted(ts) && Spread(ts)
    && (forall t | t in ts :: start <= t <= now)
    && SuffixSince(e, ts, h)
  }

  lemma RetainedKeeps(e: seq<nat>, ts: seq<nat>, h: nat, start: nat, last: nat, now: nat)
    requires EntryOk(e, ts, h, start, last) && start >= INIT_RATE_WINDOW - 1
    requires start <= now && last <= now && h <= Horizon(now)
    ensures SuffixSince(Retained(e, Cutoff(now)), ts, Horizon(now))
  {
    hide Spread, Retained;
    var k := |ts| - |e|;
    var j := RetainedIsSuffix(e, Cutoff(now));
    assert e[j..] == ts[k + j..];
    forall i | 0 <= i < k + j ensures ts[i] < Horizon(now) {
      if i >= k {
        assert e[i - k] == ts[i] && ts[i] in ts;
      }
    }
  }

  /** Accepting when fewer than four recent times are known keeps the times spread out. */
  lemma AcceptKeeps(kept: seq<nat>, ts: seq<nat>, start: nat, last: nat, now: nat)
    requires Sorted(ts) && Spread(ts) && (forall t | t in ts :: start <= t <= last) && start <= now && last <= now
    requires SuffixSince(kept, ts, Horizon(now)) && |kept| < MAX_INITS_PER_WINDOW
    ensures EntryOk(kept + [now], ts + [now], Horizon(now), start, now)
  {
    var all := ts + [now];
    var k := |ts| - |kept|;
    assert all[k..] == kept + [now];
    assert forall i | 0 <= i < |ts| :: ts[i] in ts;
    forall i | 0 <= i < |all| - MAX_INITS_PER_WINDOW
      ensures all[i] + INIT_RATE_WINDOW < all[i + MAX_INITS_PER_WINDOW]
    {
      if i + MAX_INITS_PER_WINDOW == |ts| {
        assert i < k && all[i] == ts[i];
      }
    }
  }

  /** Making room touches another source's entry only if it is stale altogether. */
  lemma EvictionKeeps(e: seq<nat>, e': seq<nat>, ts: seq<nat>, h: nat, start: nat, last: nat, now: nat)
    requires EntryOk(e, ts, h, start, last) && start >= INIT_RATE_WINDOW - 1
    requires start <= now && last <= now && h <= Horizon(now)
    requires e' == e || (e' == [] && Stale(e, Cutoff(now)))
    ensures EntryOk(e', ts, Horizon(now), start, now)
  {
    hide Spread;
    var k := |ts| - |e|;
    if e' != e {
      forall i | 0 <= i < |ts| ensures ts[i] < Horizon(now) {
        assert ts[i] in ts;
        if i >= k {
          assert e[i - k] == ts[i] && ts[i] in e;
        }
      }
    }
  }

  ghost predicate Inv(t: Trace, start: nat, n: nat)
    requires IsTrace(t, start) && n <= |t.calls|
  {
    var now := if n == 0 then start else t.calls[n - 1].now;
    && |t.logs[n]| <= MAX_INIT_RATE_LOG_ENTRIES
    && forall source :: EntryOk(Entry(t.logs[n], source), Times(t, AcceptedBy(t, source, n)), Horizon(now), start, now)
  }

  lemma AcceptedTimesGrow(t: Trace, source: Id, n: nat)
    requires n < |t.calls| == |t.limited|
    ensures Times(t, AcceptedBy(t, source, n + 1))
         == Times(t, AcceptedBy(t, source, n))
            + if t.calls[n].source == source && !t.limited[n] then [t.calls[n].now] else []
  {
  }

  lemma InsertSize(log: Log, key: Id, ts: seq<nat>)
    ensures |log[key := ts]| == |log| + if key in log then 0 else 1
  {
    assert log[key := ts].Keys == log.Keys + {key};
  }

  lemma RemoveSize(log: Log, key: Id)
    requires key in log
    ensures |log - {key}| == |log| - 1
  {
    assert (log - {key}).Keys == log.Keys - {key};
  }

  lemma StepKeepsSize(log: Log, now: nat, source: Id, log': Log, limited: bool)
    requires |log| <= MAX_INIT_RATE_LOG_ENTRIES && Step(log, now, source, log', limited)
    ensures |log'| <= MAX_INIT_RATE_LOG_ENTRIES
  {
    hide Stale, Retained, Cutoff, Entry;
    if !NoRoom(log, now, source) {
      var mid :| RoomMade(log, now, source, mid) && Recorded(mid, now, source, log', limited);
      assert log' == mid[source := log'[source]];
      InsertSize(mid, source, log'[source]);
      if Full(log, source) {
        var v :| v in log && Stale(log[v], Cutoff(now)) && mid == log - {v};
        RemoveSize(log, v);
      }
    }
  }

  /** What one call does to one entry. */
  lemma StepOnEntry(log: Log, now: nat, caller: Id, log': Log, limited: bool, source: Id)
    requires Step(log, now, caller, log', limited)
    ensures var e, e' := Entry(log, source), Entry(log', source);
            if NoRoom(log, now, caller) then limited && e' == e
            else if source == caller then
              var kept := Retained(e, Cutoff(now));
              limited == (|kept| >= MAX_INITS_PER_WINDOW) && e' == if limited then kept else kept + [now]
            else e' == e || (e' == [] && Stale(e, Cutoff(now)))
  {
    hide Stale, Retained, Cutoff;
    if !NoRoom(log, now, caller) {
      var mid :| RoomMade(log, now, caller, mid) && Recorded(mid, now, caller, log', limited);
    }
  }

  lemma StepKeepsEntry(t: Trace, start: nat, n: nat, source: Id)
    requires IsTrace(t, start) && start >= INIT_RATE_WINDOW - 1 && n < |t.calls| && Inv(t, start, n)
    ensures EntryOk(Entry(t.logs[n + 1], source), Times(t, AcceptedBy(t, source, n + 1)),
                    Horizon(t.calls[n].now), start, t.calls[n].now)
  {
    var log, log', now, caller := t.logs[n], t.logs[n + 1], t.calls[n].now, t.calls[n].source;
    var last := if n == 0 then start else t.calls[n - 1].now;
    var ts := Times(t, AcceptedBy(t, source, n));
    var e := Entry(log, source);
    assert EntryOk(e, ts, Horizon(last), start, last);
    AcceptedTimesGrow(t, source, n);
    assert ts + [] == ts;
    assert StepAt(t, n);
    StepOnEntry(log, now, caller, log', t.limited[n], source);
    hide EntryOk, AcceptedBy, Inv, Times, Retained, Cutoff, Step, NoRoom, Stale, Entry;
    if source != caller || NoRoom(log, now, caller) {
      EvictionKeeps(e, Entry(log', source), ts, Horizon(last), start, last, now);
    } else {
      EvictionKeeps(e, e, ts, Horizon(last), start, last, now);
      CallerStep(e, ts, start, now);
    }
  }

  lemma CallerStep(e: seq<nat>, ts: seq<nat>, start: nat, now: nat)
    requires EntryOk(e, ts, Horizon(now), start, now) && INIT_RATE_WINDOW - 1 <= start <= now
    ensures var kept := Retained(e, Cutoff(now));
            if |kept| < MAX_INITS_PER_WINDOW then EntryOk(kept + [now], ts + [now], Horizon(now), start, now)
            else EntryOk(kept, ts, Horizon(now), start, now)
  {
    hide Spread, Retained, Cutoff;
    var kept := Retained(e, Cutoff(now));
    RetainedKeeps(e, ts, Horizon(now), start, now, now);
    if |kept| < MAX_INITS_PER_WINDOW {
      AcceptKeeps(kept, ts, start, now, now);
    }
  }

  lemma InitiallyOk(t: Trace, start: nat, source: Id)
    requires IsTrace(t, start)
    ensures EntryOk(Entry(t.logs[0], source), Times(t, AcceptedBy(t, source, 0)), Horizon(start), start, start)
  {
    hide StepAt;
    var ts := Times(t, AcceptedBy(t, source, 0));
    assert Entry(t.logs[0], source) == ts[0..];
  }

  lemma {:induction false} TraceKeepsInv(t: Trace, start: nat, n: nat)
    requires IsTrace(t, start) && start >= INIT_RATE_WINDOW - 1 && n <= |t.calls|
    ensures Inv(t, start, n)
  {
    LogBounded(t, start, n);
    TraceShape(t, start);
    if n > 0 {
      TraceKeepsInv(t, start, n - 1);
    }
    hide IsTrace, EntryOk, Entry, Times, AcceptedBy, Horizon;
    var now := if n == 0 then start else t.calls[n - 1].now;
    forall source
      ensures EntryOk(Entry(t.logs[n], source), Times(t, AcceptedBy(t, source, n)), Horizon(now), start, now)
    {
      if n == 0 {
        InitiallyOk(t, start, source);
      } else {
        StepKeepsEntry(t, start, n - 1, source);
      }
    }
  }

  /** The log never outgrows its cap. */
  lemma {:induction false} LogBounded(t: Trace, start: nat, n: nat)
    requires IsTrace(t, start) && n <= |t.calls|
    ensures |t.logs[n]| <= MAX_INIT_RATE_LOG_ENTRIES
  {
    if n > 0 {
      LogBounded(t, start, n - 1);
      assert StepAt(t, n - 1);
      hide Step;
      StepKeepsSize(t.logs[n - 1], t.calls[n - 1].now, t.calls[n - 1].source, t.logs[n], t.limited[n - 1]);
    }
  }

  // ---------------------------------------------------------------- the limit

  /** The accepted calls of `source` at times in the closed interval of one window from `from`. */
  ghost function AcceptedIn(t: Trace, source: Id, from: nat): set<nat>
    requires |t.calls| == |t.limited|
  {
    set i: nat | 0 <= i < |t.calls| && t.calls[i].source == source && !t.limited[i]
                 && from <= t.calls[i].now <= from + INIT_RATE_WINDOW
  }

  lemma {:induction false} AcceptedByComplete(t: Trace, source: Id, n: nat, i: nat)
    requires i < n <= |t.calls| == |t.limited| && t.calls[i].source == source && !t.limited[i]
    ensures i in AcceptedBy(t, source, n)
  {
    if i < n - 1 {
      AcceptedByComplete(t, source, n - 1, i);
    }
  }

  /** A set of positions that lie within four consecutive ones has at most four elements. */
  lemma AtMostFour(ids: seq<nat>, s: set<nat>, lo: nat)
    requires forall i | i in s :: exists p | lo <= p < lo + 4 && p < |ids| :: ids[p] == i
    ensures |s| <= 4
  {
    var four := set p | lo <= p < lo + 4 && p < |ids| :: ids[p];
    var positions := {lo, lo + 1, lo + 2, lo + 3};
    assert s <= four;
    ImageNotLarger(ids, positions);
    var image := set p | p in positions && p < |ids| :: ids[p];
    assert four <= image;
    Graphs.SubsetSize(s, image);
  }

  lemma {:induction false} ImageNotLarger(ids: seq<nat>, ps: set<nat>)
    ensures |set p | p in ps && p < |ids| :: ids[p]| <= |ps|
  {
    var image := set p | p in ps && p < |ids| :: ids[p];
    if ps == {} {
      assert image == {};
    } else {
      var x :| x in ps;
      ImageNotLarger(ids, ps - {x});
      var rest := set p | p in ps - {x} && p < |ids| :: ids[p];
      if x < |ids| {
        assert image == rest + {ids[x]};
      } else {
        assert image == rest;
      }
    }
  }

  /** Spread-out times leave at most four in any closed window. */
  lemma SpreadBounds(t: Trace, source: Id, from: nat)
    requires |t.calls| == |t.limited|
    requires var ts := Times(t, AcceptedBy(t, source, |t.calls|)); Sorted(ts) && Spread(ts)
    ensures |AcceptedIn(t, source, from)| <= MAX_INITS_PER_WINDOW
  {
    var ids := AcceptedBy(t, source, |t.calls|);
    var ts := Times(t, ids);
    var s := AcceptedIn(t, source, from);
    var lo := FirstFrom(ts, from);
    assert lo + 4 < |ts| ==> ts[lo] + INIT_RATE_WINDOW < ts[lo + 4];
    forall i | i in s ensures exists p | lo <= p < lo + 4 && p < |ids| :: ids[p] == i {
      AcceptedByComplete(t, source, |t.calls|, i);
      var p :| 0 <= p < |ids| && ids[p] == i;
      assert ts[p] == t.calls[i].now;
      assert p >= lo;
    }
    AtMostFour(ids, s, lo);
  }

  /** The first position whose time is not before `from`. */
  ghost function FirstFrom(ts: seq<nat>, from: nat): (p: nat)
    ensures p <= |ts| && (p < |ts| ==> from <= ts[p]) && forall i | 0 <= i < p :: ts[i] < from
  {
    if ts == [] || ts[0] >= from then 0
    else
      var q := FirstFrom(ts[1..], from);
      assert forall i | 0 < i < q + 1 :: ts[i] == ts[1..][i - 1];
      q + 1
  }

  /** On a clock that starts no earlier than `start`, whatever sources call and whichever stale
      entries are evicted: no closed 10 s interval holds more than four accepted Inits of one
      source. */
  ghost predicate LimitHolds(start: nat) {
    forall t: Trace, source: Id, from: nat :: IsTrace(t, start) ==> |AcceptedIn(t, source, from)| <= MAX_INITS_PER_WINDOW
  }

  lemma LimitHoldsOnTrace(t: Trace, start: nat, source: Id, from: nat)
    requires IsTrace(t, start) && start >= INIT_RATE_WINDOW - 1
    ensures |AcceptedIn(t, source, from)| <= MAX_INITS_PER_WINDOW
  {
    TraceKeepsInv(t, start, |t.calls|);
    SpreadBounds(t, source, from);
  }

  function Repeat(x: nat, m: nat): (r: seq<nat>)
    ensures |r| == m
  {
    if m == 0 then [] else [x] + Repeat(x, m - 1)
  }

  lemma {:induction false} RepeatLaws(x: nat, m: nat, cutoff: nat)
    requires cutoff <= x
    ensures Retained(Repeat(x, m), cutoff) == Repeat(x, m)
    ensures Repeat(x, m) + [x] == Repeat(x, m + 1)
  {
    if m > 0 {
      RepeatLaws(x, m - 1, cutoff);
      assert Repeat(x, m)[1..] == Repeat(x, m - 1);
      assert Repeat(x, m) + [x] == [x] + (Repeat(x, m - 1) + [x]);
    }
  }

  /** On a younger clock the cutoff is `now` itself, which forgets every earlier Init: one at
      `start` and four a millisecond later are all accepted. */
  function YoungClockRun(start: nat): Trace {
    Trace([Call(start, 0)] + seq(4, _ => Call(start + 1, 0)),
          seq(6, i requires 0 <= i < 6 => YoungClockLog(start, i)),
          seq(5, _ => false))
  }

  function YoungClockLog(start: nat, i: nat): Log {
    if i == 0 then map[]
    else if i == 1 then map[0 := [start]]
    else map[0 := Repeat(start + 1, i - 1)]
  }

  lemma YoungClockStep(start: nat, i: nat)
    requires start < INIT_RATE_WINDOW - 1 && i < 5
    ensures Step(YoungClockLog(start, i), if i == 0 then start else start + 1, 0, YoungClockLog(start, i + 1), false)
  {
    var log, now := YoungClockLog(start, i), if i == 0 then start else start + 1;
    assert RoomMade(log, now, 0, log);
    if i == 1 {
      assert Retained([start], now) == [];
      assert [] + [now] == Repeat(now, 1);
    } else if i > 1 {
      RepeatLaws(now, i - 1, now);
    } else {
      assert Retained([], now) + [now] == [start];
    }
    assert Recorded(log, now, 0, YoungClockLog(start, i + 1), false);
  }

  lemma YoungClockFails(start: nat)
    requires start < INIT_RATE_WINDOW - 1
    ensures IsTrace(YoungClockRun(start), start)
    ensures |AcceptedIn(YoungClockRun(start), 0, start)| == 5
  {
    hide Step, YoungClockLog;
    var t := YoungClockRun(start);
    assert YoungClockLog(start, 0) == map[] by { EmptyLog(start); }
    forall i | 0 <= i < |t.calls| ensures StepAt(t, i) {
      YoungClockStep(start, i);
    }
    assert AcceptedIn(t, 0, start) == {0, 1, 2, 3, 4};
  }

  lemma EmptyLog(start: nat)
    ensures YoungClockLog(start, 0) == map[]
  {
  }

  /** Exactly when the limit holds. */
  lemma LimitHoldsIff(start: nat)
    ensures LimitHolds(start) <==> start >= INIT_RATE_WINDOW - 1
  {
    if start >= INIT_RATE_WINDOW - 1 {
      forall t: Trace, source: Id, from: nat | IsTrace(t, start)
        ensures |AcceptedIn(t, source, from)| <= MAX_INITS_PER_WINDOW
      {
        LimitHoldsOnTrace(t, start, source, from);
      }
    } else {
      YoungClockFails(start);
      assert |AcceptedIn(YoungClockRun(start), 0, start)| == 5;
    }
  }

  // ---------------------------------------------------------------- the sender's backoff

  /** When a pending session that is polled at `polls` and never answered resends its Init. */
  function ResendTimes(e: H.Sess, polls: seq<nat>): seq<nat>
    decreases |polls|
  {
    if polls == [] then []
    else if H.RetxDue(e, polls[0]) then [polls[0]] + ResendTimes(H.Resent(e, polls[0]), polls[1..])
    else ResendTimes(e, polls[1..])
  }

  /** All its Inits, the first one included. */
  function SendTimes(e: H.Sess, polls: seq<nat>): seq<nat> {
    [e.lastInitSent] + ResendTimes(e, polls)
  }

  lemma {:induction false} BackoffGaps(e: H.Sess, polls: seq<nat>, i: nat)
    requires !e.established && i + 1 < |SendTimes(e, polls)|
    ensures SendTimes(e, polls)[i + 1] >= SendTimes(e, polls)[i] + H.RetxInterval(e.retx + i)
    decreases |polls|
  {
    assert Pow2(5) == 32 by { assert Pow2(3) == 8; }
    if H.RetxDue(e, polls[0]) {
      var e' := H.Resent(e, polls[0]);
      assert SendTimes(e, polls) == [e.lastInitSent] + SendTimes(e', polls[1..]);
      if i > 0 {
        BackoffGaps(e', polls[1..], i - 1);
        assert H.RetxInterval(e'.retx + (i - 1)) == H.RetxInterval(e.retx + i);
      }
    } else {
      BackoffGaps(e, polls[1..], i);
    }
  }

  lemma IntervalValues()
    ensures H.RetxInterval(0) == 1000 && H.RetxInterval(1) == 2000 && H.RetxInterval(2) == 4000
    ensures H.RetxInterval(3) == 8000 && H.RetxInterval(4) == 16000
    ensures forall r: nat | r >= 5 :: H.RetxInterval(r) == 30_000
  {
    assert Pow2(1) == 2 && Pow2(2) == 4 && Pow2(3) == 8;
    assert Pow2(4) == 2 * Pow2(3) && Pow2(5) == 2 * Pow2(4);
  }

  lemma {:induction false} SendsRise(e: H.Sess, polls: seq<nat>, i: nat, j: nat)
    requires !e.established && i <= j < |SendTimes(e, polls)|
    ensures SendTimes(e, polls)[i] <= SendTimes(e, polls)[j]
    decreases j - i
  {
    if i < j {
      SendsRise(e, polls, i, j - 1);
      BackoffGaps(e, polls, j - 1);
    }
  }

  /** Any Init is at least 15 s later than the one sent four before it, or any earlier one. */
  lemma FiveInitsSpan(e: H.Sess, polls: seq<nat>, i: nat, j: nat)
    requires !e.established && i + 4 <= j < |SendTimes(e, polls)|
    ensures SendTimes(e, polls)[j] >= SendTimes(e, polls)[i] + 15_000
  {
    IntervalValues();
    BackoffGaps(e, polls, i);
    BackoffGaps(e, polls, i + 1);
    BackoffGaps(e, polls, i + 2);
    BackoffGaps(e, polls, i + 3);
    SendsRise(e, polls, i + 4, j);
  }

  /** A receiver's run in which the Inits of one source are those of one pending session: call `i`
      delivers Init number `number[i]`, each at most once, late by `delay` and at most `jitter` more. */
  ghost predicate Delivers(t: Trace, source: Id, sends: seq<nat>, number: map<nat, nat>, delay: nat, jitter: nat) {
    && (forall i: nat | i < |t.calls| && t.calls[i].source == source ::
          && i in number && number[i] < |sends|
          && sends[number[i]] + delay <= t.calls[i].now <= sends[number[i]] + delay + jitter)
    && (forall i, j | i in number && j in number && i != j :: number[i] != number[j])
  }

  lemma FiveDistinct(a: nat, b: nat, c: nat, d: nat, e: nat) returns (x: nat, y: nat)
    requires a != b && a != c && a != d && a != e && b != c && b != d && b != e && c != d && c != e && d != e
    ensures x in {a, b, c, d, e} && y in {a, b, c, d, e} && x + 4 <= y
  {
    x :| x in {a, b, c, d, e} && x <= a && x <= b && x <= c && x <= d && x <= e;
    y :| y in {a, b, c, d, e} && y >= a && y >= b && y >= c && y >= d && y >= e;
  }

  /** So the backoff stays under the receiver's limit: with less than 5 s of jitter and as long as
      the log has room, no Init of the session is ever refused. */
  lemma BackoffNeverLimited(t: Trace, start: nat, source: Id, e: H.Sess, polls: seq<nat>, number: map<nat, nat>,
                            delay: nat, jitter: nat, n: nat)
    requires IsTrace(t, start) && start >= INIT_RATE_WINDOW - 1 && jitter < 5_000
    requires !e.established && Delivers(t, source, SendTimes(e, polls), number, delay, jitter)
    requires n < |t.calls| && t.calls[n].source == source && !NoRoom(t.logs[n], t.calls[n].now, source)
    ensures !t.limited[n]
  {
    if t.limited[n] {
      var a, b, c, d := FourRecent(t, start, source, n);
      var x, y := FiveDistinct(number[a], number[b], number[c], number[d], number[n]);
      FiveInitsSpan(e, polls, x, y);
      assert false;
    }
  }

  /** No Init of any pending session is refused while there is room, if its delay varies by at most
      `jitter`. */
  ghost predicate BackoffSafe(jitter: nat) {
    forall t: Trace, start: nat, source: Id, e: H.Sess, polls: seq<nat>, number: map<nat, nat>, delay: nat, n: nat ::
      IsTrace(t, start) && !e.established && Delivers(t, source, SendTimes(e, polls), number, delay, jitter) ==>
        (&& start >= INIT_RATE_WINDOW - 1 && n < |t.calls| == |t.limited| && |t.logs| > n
         && t.calls[n].source == source && !NoRoom(t.logs[n], t.calls[n].now, source)) ==> !t.limited[n]
  }

  /** Inits sent at 10, 11, 13, 17 and 25 s of which the first is 5 s late, the second 4 s and the
      third 2 s: three arrive at 15 s, and the fifth finds four in its window. */
  function LateRun(): Trace {
    Trace([Call(15_000, 0), Call(15_000, 0), Call(15_000, 0), Call(17_000, 0), Call(25_000, 0)],
          [map[], map[0 := [15_000]], map[0 := [15_000, 15_000]], map[0 := [15_000, 15_000, 15_000]],
           map[0 := [15_000, 15_000, 15_000, 17_000]], map[0 := [15_000, 15_000, 15_000, 17_000]]],
          [false, false, false, false, true])
  }

  function LateSession(): H.Sess {
    H.Sess(S.State(Zeros(32), Zeros(32), Zeros(32), 0, S.Window(0, S.Empty()), None, None, None), false, 10_000, 0)
  }

  lemma AllRecent(log: Log, now: nat, log': Log, limited: bool)
    requires log.Keys <= {0} && forall i | 0 <= i < |Entry(log, 0)| :: Entry(log, 0)[i] >= Cutoff(now)
    requires limited == (|Entry(log, 0)| >= MAX_INITS_PER_WINDOW)
    requires log' == log[0 := if limited then Entry(log, 0) else Entry(log, 0) + [now]]
    ensures Step(log, now, 0, log', limited)
  {
    Graphs.SubsetSize(log.Keys, {0});
    RetainedAll(Entry(log, 0), Cutoff(now));
    assert RoomMade(log, now, 0, log);
    assert Recorded(log, now, 0, log', limited);
  }

  lemma LateTrace()
    ensures IsTrace(LateRun(), 10_000)
  {
    hide Step;
    var t := LateRun();
    assert [] + [15_000] == [15_000] && [15_000] + [15_000] == [15_000, 15_000];
    assert [15_000, 15_000] + [15_000] == [15_000, 15_000, 15_000];
    assert [15_000, 15_000, 15_000] + [17_000] == [15_000, 15_000, 15_000, 17_000];
    AllRecent(t.logs[0], 15_000, t.logs[1], false);
    AllRecent(t.logs[1], 15_000, t.logs[2], false);
    AllRecent(t.logs[2], 15_000, t.logs[3], false);
    AllRecent(t.logs[3], 17_000, t.logs[4], false);
    AllRecent(t.logs[4], 25_000, t.logs[5], true);
    forall i | 0 <= i < |t.calls| ensures StepAt(t, i) {
      assert i == 0 || i == 1 || i == 2 || i == 3 || i == 4;
    }
  }

  lemma LateSends()
    ensures SendTimes(LateSession(), [11_000, 13_000, 17_000, 25_000]) == [10_000, 11_000, 13_000, 17_000, 25_000]
  {
    hide S.Empty;
    IntervalValues();
    var e := LateSession();
    var polls := [11_000, 13_000, 17_000, 25_000];
    var e1 := H.Resent(e, 11_000);
    var e2 := H.Resent(e1, 13_000);
    var e3 := H.Resent(e2, 17_000);
    var e4 := H.Resent(e3, 25_000);
    assert polls[1..] == [13_000, 17_000, 25_000] && polls[1..][1..] == [17_000, 25_000];
    assert ResendTimes(e4, []) == [];
    assert [25_000][1..] == [];
    assert ResendTimes(e3, [25_000]) == [25_000];
    assert [17_000, 25_000][1..] == [25_000];
    assert ResendTimes(e2, [17_000, 25_000]) == [17_000, 25_000];
    assert [13_000, 17_000, 25_000][1..] == [17_000, 25_000];
    assert ResendTimes(e1, [13_000, 17_000, 25_000]) == [13_000, 17_000, 25_000];
    assert ResendTimes(e, polls) == polls;
  }

  /** Exactly how much jitter the backoff allows for. */
  lemma BackoffSafeIff(jitter: nat)
    ensures BackoffSafe(jitter) <==> jitter < 5_000
  {
    hide IsTrace, SendTimes, NoRoom;
    if jitter < 5_000 {
      forall t: Trace, start: nat, source: Id, e: H.Sess, polls: seq<nat>, number: map<nat, nat>, delay: nat, n: nat
        | IsTrace(t, start) && !e.established && Delivers(t, source, SendTimes(e, polls), number, delay, jitter)
          && start >= INIT_RATE_WINDOW - 1 && n < |t.calls| == |t.limited| && |t.logs| > n
          && t.calls[n].source == source && !NoRoom(t.logs[n], t.calls[n].now, source)
        ensures !t.limited[n]
      {
        BackoffNeverLimited(t, start, source, e, polls, number, delay, jitter, n);
      }
    } else {
      LateRefused(jitter);
    }
  }

  lemma LateRefused(jitter: nat)
    requires jitter >= 5_000
    ensures !BackoffSafe(jitter)
  {
    hide IsTrace, SendTimes;
    var t, e, polls := LateRun(), LateSession(), [11_000, 13_000, 17_000, 25_000];
    var number: map<nat, nat> := map[0 := 0, 1 := 1, 2 := 2, 3 := 3, 4 := 4];
    LateTrace();
    LateSends();
    assert Delivers(t, 0, SendTimes(e, polls), number, 0, jitter);
    assert !NoRoom(t.logs[4], t.calls[4].now, 0);
    assert t.limited[4];
  }

  /** A refusal with room in the log means that four accepted times are still in the window. */
  lemma RefusedWithRoom(t: Trace, start: nat, source: Id, n: nat)
    requires IsTrace(t, start) && start >= INIT_RATE_WINDOW - 1
    requires n < |t.calls| && t.calls[n].source == source && t.limited[n]
    requires !NoRoom(t.logs[n], t.calls[n].now, source)
    ensures var ts, kept := Times(t, AcceptedBy(t, source, n)), Retained(Entry(t.logs[n], source), Cutoff(t.calls[n].now));
            && SuffixSince(kept, ts, Horizon(t.calls[n].now))
            && MAX_INITS_PER_WINDOW <= |kept| <= |AcceptedBy(t, source, n)|
            && forall i | 0 <= i < |kept| :: kept[i] >= Cutoff(t.calls[n].now)
  {
    TraceKeepsInv(t, start, n);
    var now := t.calls[n].now;
    var last := if n == 0 then start else t.calls[n - 1].now;
    var ts, entry := Times(t, AcceptedBy(t, source, n)), Entry(t.logs[n], source);
    assert EntryOk(entry, ts, Horizon(last), start, last);
    assert StepAt(t, n);
    StepOnEntry(t.logs[n], now, source, t.logs[n + 1], true, source);
    hide EntryOk, Inv, AcceptedBy, Times, Retained;
    RetainedKeeps(entry, ts, Horizon(last), start, last, now);
    RetainedRecent(entry, Cutoff(now));
  }

  /** Call `i` is of `source` and within the window that ends at call `n`. */
  ghost predicate RecentCall(t: Trace, source: Id, i: nat, n: nat) {
    i < n < |t.calls| && t.calls[i].source == source && Cutoff(t.calls[n].now) <= t.calls[i].now <= t.calls[n].now
  }

  lemma RecentAt(t: Trace, ids: seq<nat>, source: Id, n: nat, kept: seq<nat>, p: nat)
    requires Clocked(t) && n < |t.calls|
    requires forall i | 0 <= i < |ids| :: ids[i] < n && t.calls[ids[i]].source == source
    requires SuffixSince(kept, Times(t, ids), Horizon(t.calls[n].now))
    requires p < |kept| && kept[p] >= Cutoff(t.calls[n].now)
    ensures RecentCall(t, source, ids[|ids| - |kept| + p], n)
  {
    hide Cutoff, Horizon;
    var ts := Times(t, ids);
    var q := |ts| - |kept| + p;
    assert ts[|ts| - |kept|..][p] == ts[q] == t.calls[ids[q]].now;
  }

  lemma RecentFrom(t: Trace, start: nat, source: Id, n: nat) returns (ids: seq<nat>, k: nat)
    requires IsTrace(t, start) && start >= INIT_RATE_WINDOW - 1
    requires n < |t.calls| && t.calls[n].source == source && t.limited[n]
    requires !NoRoom(t.logs[n], t.calls[n].now, source)
    ensures k + 4 <= |ids| && forall i, j | 0 <= i < j < |ids| :: ids[i] < ids[j]
    ensures forall q | k <= q < |ids| :: RecentCall(t, source, ids[q], n)
  {
    TraceShape(t, start);
    RefusedWithRoom(t, start, source, n);
    hide IsTrace, Retained, AcceptedBy, NoRoom, Entry, Cutoff, Horizon, SuffixSince, Times, Clocked, RecentCall;
    ids := AcceptedBy(t, source, n);
    var kept := Retained(Entry(t.logs[n], source), Cutoff(t.calls[n].now));
    k := |ids| - |kept|;
    forall q | k <= q < |ids| ensures RecentCall(t, source, ids[q], n) {
      RecentAt(t, ids, source, n, kept, q - k);
    }
  }

  lemma FourRecent(t: Trace, start: nat, source: Id, n: nat) returns (a: nat, b: nat, c: nat, d: nat)
    requires IsTrace(t, start) && start >= INIT_RATE_WINDOW - 1
    requires n < |t.calls| && t.calls[n].source == source && t.limited[n]
    requires !NoRoom(t.logs[n], t.calls[n].now, source)
    ensures a < b < c < d
    ensures RecentCall(t, source, a, n) && RecentCall(t, source, b, n) && RecentCall(t, source, c, n) && RecentCall(t, source, d, n)
  {
    var ids, k := RecentFrom(t, start, source, n);
    hide IsTrace, NoRoom, RecentCall;
    a, b, c, d := ids[k], ids[k + 1], ids[k + 2], ids[k + 3];
  }

  lemma {:induction false} RetainedRecent(ts: seq<nat>, cutoff: nat)
    ensures forall i | 0 <= i < |Retained(ts, cutoff)| :: Retained(ts, cutoff)[i] >= cutoff
  {
    if ts != [] {
      RetainedRecent(ts[1..], cutoff);
    }
  }
}
