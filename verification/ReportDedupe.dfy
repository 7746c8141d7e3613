/** The in-memory dedupe of reports: a window per signature, counted duplicates, and an eviction that must not show. */
module ReportDedupe {
  // Times are milliseconds passed in; signatures are strings.

  import opened Basics

  const WINDOW := 300000
  const CLEANUP_INTERVAL := WINDOW
  const SUMMARY_EVERY := 25

  datatype Entry = Entry(windowStartedAt: int, duplicateCount: nat)

  type Entries = map<string, Entry>

  datatype State = State(entries: Entries, lastCleanupAt: int)

  datatype Decision = Decision(log: bool, duplicatesSuppressed: Option<nat>)

  datatype Hit = Hit(key: string, now: int)

  // ---- One report ----

  predicate Expired(entry: Entry, now: int) { now - entry.windowStartedAt > WINDOW }

  function Pruned(s: State, now: int): State {
    if now - s.lastCleanupAt < CLEANUP_INTERVAL then s
    else State(map key | key in s.entries && !Expired(s.entries[key], now) :: s.entries[key], now)
  }

  predicate Fresh(entries: Entries, hit: Hit) { hit.key !in entries || Expired(entries[hit.key], hit.now) }

  /** The entries after a report and what is decided about it. */
  function Counted(entries: Entries, hit: Hit): (Entries, Decision) {
    if Fresh(entries, hit) then (entries[hit.key := Entry(hit.now, 0)], Decision(true, None))
    else
      var entry := entries[hit.key];
      var count := entry.duplicateCount + 1;
      (entries[hit.key := Entry(entry.windowStartedAt, count)],
       if count % SUMMARY_EVERY == 0 then Decision(true, Some(count)) else Decision(false, None))
  }

  function Step(s: State, hit: Hit): (State, Decision) {
    var pruned := Pruned(s, hit.now);
    var (entries, decision) := Counted(pruned.entries, hit);
    (State(entries, pruned.lastCleanupAt), decision)
  }

  const START := State(map[], 0)

  /** The entries while a sweep has `left` still to look at. */
  function Swept(entries: Entries, left: set<string>, now: int): Entries {
    map key | key in entries && (key in left || !Expired(entries[key], now)) :: entries[key]
  }

  lemma SweepBegins(entries: Entries)
    ensures forall now :: Swept(entries, entries.Keys, now) == entries
  {
  }

  lemma SweepStep(entries: Entries, left: set<string>, key: string, now: int)
    requires key in left && left <= entries.Keys
    ensures key in Swept(entries, left, now) && Swept(entries, left, now)[key] == entries[key]
    ensures Swept(entries, left - {key}, now) ==
      if Expired(entries[key], now) then Swept(entries, left, now) - {key} else Swept(entries, left, now)
  {
  }

  class Dedupe {
    var reportDedupe: Entries
    var lastCleanupAt: int

    constructor ()
      ensures Current() == START
    {
      reportDedupe, lastCleanupAt := map[], 0;
    }

    function Current(): State
      reads this
    {
      State(reportDedupe, lastCleanupAt)
    }

    method PruneDedupe(now: int)
      modifies this
      ensures Current() == Pruned(old(Current()), now)
    {
      if now - lastCleanupAt < CLEANUP_INTERVAL { return; }
      lastCleanupAt := now;
      var keys := reportDedupe.Keys;
      SweepBegins(reportDedupe);
      while keys != {}
        invariant keys <= old(reportDedupe).Keys && lastCleanupAt == now
        invariant reportDedupe == Swept(old(reportDedupe), keys, now)
        decreases |keys|
      {
        var key :| key in keys;
        SweepStep(old(reportDedupe), keys, key, now);
        if Expired(reportDedupe[key], now) { reportDedupe := reportDedupe - {key}; }
        keys := keys - {key};
      }
    }

    /** Decides whether to log a report, and counts it. */
    method ShouldLogReport(hit: Hit) returns (decision: Decision)
      modifies this
      ensures (Current(), decision) == Step(old(Current()), hit)
    {
      PruneDedupe(hit.now);
      if Fresh(reportDedupe, hit) {
        reportDedupe := reportDedupe[hit.key := Entry(hit.now, 0)];
        return Decision(true, None);
      }
      var current := reportDedupe[hit.key];
      current := current.(duplicateCount := current.duplicateCount + 1);
      reportDedupe := reportDedupe[hit.key := current];
      if current.duplicateCount % SUMMARY_EVERY == 0 { return Decision(true, Some(current.duplicateCount)); }
      return Decision(false, None);
    }
  }

  // ---- Runs ----

  function Decisions(s: State, hits: seq<Hit>): (r: seq<Decision>)
    ensures |r| == |hits|
    decreases |hits|
  {
    if hits == [] then []
    else
      var (next, decision) := Step(s, hits[0]);
      [decision] + Decisions(next, hits[1..])
  }

  /** The same without any eviction. */
  function KeptDecisions(entries: Entries, hits: seq<Hit>): (r: seq<Decision>)
    ensures |r| == |hits|
    decreases |hits|
  {
    if hits == [] then []
    else
      var (next, decision) := Counted(entries, hits[0]);
      [decision] + KeptDecisions(next, hits[1..])
  }

  ghost predicate Timely(hits: seq<Hit>, from: int) {
    && (forall i :: 0 <= i < |hits| ==> from <= hits[i].now)
    && (forall i, j :: 0 <= i < j < |hits| ==> hits[i].now <= hits[j].now)
  }

  /** Where the two maps differ, the entry that was evicted has expired. */
  ghost predicate SameButExpired(entries: Entries, kept: Entries, now: int) {
    && (forall k :: k in entries ==> k in kept && kept[k] == entries[k])
    && (forall k :: k in kept && k !in entries ==> Expired(kept[k], now))
  }

  lemma StepSame(s: State, kept: Entries, hit: Hit)
    requires SameButExpired(s.entries, kept, hit.now)
    ensures Step(s, hit).1 == Counted(kept, hit).1
    ensures SameButExpired(Step(s, hit).0.entries, Counted(kept, hit).0, hit.now)
  {
  }

  lemma {:induction false} RunSame(s: State, kept: Entries, hits: seq<Hit>, now: int)
    requires SameButExpired(s.entries, kept, now) && Timely(hits, now)
    ensures Decisions(s, hits) == KeptDecisions(kept, hits)
    decreases |hits|
  {
    if hits != [] {
      assert hits[0].now >= now;
      StepSame(s, kept, hits[0]);
      RunSame(Step(s, hits[0]).0, Counted(kept, hits[0]).0, hits[1..], hits[0].now);
    }
  }

  /** Eviction does not show: along times that never go back, every decision is as if nothing were ever evicted. */
  lemma EvictionInvisible(hits: seq<Hit>, from: int)
    requires Timely(hits, from)
    ensures Decisions(START, hits) == KeptDecisions(map[], hits)
  {
    RunSame(START, map[], hits, from);
  }

  // ---- Memory stays bounded ----

  function After(s: State, hits: seq<Hit>): State
    decreases |hits|
  {
    if hits == [] then s else After(Step(s, hits[0]).0, hits[1..])
  }

  /** No entry was older than a window when the map was last cleaned, and that was less than a window ago. */
  ghost predicate Young(s: State, now: int) {
    && now - s.lastCleanupAt < CLEANUP_INTERVAL
    && forall k :: k in s.entries ==> s.lastCleanupAt - s.entries[k].windowStartedAt <= WINDOW
  }

  lemma StepYoung(s: State, hit: Hit)
    requires hit.now >= s.lastCleanupAt
    requires forall k :: k in s.entries ==> s.lastCleanupAt - s.entries[k].windowStartedAt <= WINDOW
    ensures Young(Step(s, hit).0, hit.now) && Step(s, hit).0.lastCleanupAt <= hit.now
  {
  }

  lemma {:induction false} RunYoung(s: State, hits: seq<Hit>)
    requires Timely(hits, s.lastCleanupAt) && hits != []
    requires forall k :: k in s.entries ==> s.lastCleanupAt - s.entries[k].windowStartedAt <= WINDOW
    ensures Young(After(s, hits), hits[|hits| - 1].now)
    decreases |hits|
  {
    StepYoung(s, hits[0]);
    var next, rest := Step(s, hits[0]).0, hits[1..];
    if rest != [] {
      forall i | 0 <= i < |rest|
        ensures next.lastCleanupAt <= rest[i].now
      {
        assert hits[0].now <= hits[i + 1].now;
      }
      RunYoung(next, rest);
      assert rest[|rest| - 1] == hits[|hits| - 1];
    } else {
      assert After(next, rest) == next;
    }
  }

  /** After every report, each entry still held began less than two windows ago. */
  lemma EntriesYoung(hits: seq<Hit>, key: string)
    requires Timely(hits, 0) && hits != [] && key in After(START, hits).entries
    ensures hits[|hits| - 1].now - After(START, hits).entries[key].windowStartedAt < 2 * WINDOW
  {
    RunYoung(START, hits);
    hide After;
  }

  // ---- How much is logged ----

  /** How many of the hits are for `key`. */
  function HitsOf(hits: seq<Hit>, key: string): nat
    decreases |hits|
  {
    if hits == [] then 0 else (if hits[0].key == key then 1 else 0) + HitsOf(hits[1..], key)
  }

  /** How many hits for `key` are logged. */
  function Logged(hits: seq<Hit>, decisions: seq<Decision>, key: string): nat
    requires |hits| == |decisions|
    decreases |hits|
  {
    if hits == [] then 0
    else (if hits[0].key == key && decisions[0].log then 1 else 0) + Logged(hits[1..], decisions[1..], key)
  }

  /** One more duplicate crosses a multiple of the summary step or does not. */
  lemma Crossing(count: nat)
    ensures (count + 1) / SUMMARY_EVERY == count / SUMMARY_EVERY + if (count + 1) % SUMMARY_EVERY == 0 then 1 else 0
  {
  }

  lemma {:induction false} LoggedInWindow(entries: Entries, hits: seq<Hit>, key: string)
    requires key in entries
    requires forall i :: 0 <= i < |hits| && hits[i].key == key ==> !Expired(entries[key], hits[i].now)
    ensures Logged(hits, KeptDecisions(entries, hits), key)
            == (entries[key].duplicateCount + HitsOf(hits, key)) / SUMMARY_EVERY - entries[key].duplicateCount / SUMMARY_EVERY
    decreases |hits|
  {
    if hits != [] {
      var (next, decision) := Counted(entries, hits[0]);
      LoggedInWindow(next, hits[1..], key);
      if hits[0].key == key { Crossing(entries[key].duplicateCount); }
    }
  }

  /** From a hit that opens a window on, as long as the signature's hits stay within it. */
  lemma LoggedFromFresh(entries: Entries, hits: seq<Hit>)
    requires hits != [] && Fresh(entries, hits[0])
    requires forall i :: 0 <= i < |hits| && hits[i].key == hits[0].key ==> hits[i].now - hits[0].now <= WINDOW
    ensures Logged(hits, KeptDecisions(entries, hits), hits[0].key) == 1 + (HitsOf(hits, hits[0].key) - 1) / SUMMARY_EVERY
  {
    var (next, decision) := Counted(entries, hits[0]);
    LoggedInWindow(next, hits[1..], hits[0].key);
  }

  lemma RunUnfolds(s: State, hits: seq<Hit>)
    requires hits != []
    ensures Decisions(s, hits) == [Step(s, hits[0]).1] + Decisions(Step(s, hits[0]).0, hits[1..])
    ensures After(s, hits) == After(Step(s, hits[0]).0, hits[1..])
  {
    hide Step;
  }

  lemma SliceUnfolds<T>(items: seq<T>, x: T, rest: seq<T>, first: nat, end: nat)
    requires items == [x] + rest && first <= end <= |items| && end > 0
    ensures first == 0 ==> items[first..end] == [x] + rest[..end - 1] && items[..first] == []
    ensures first > 0 ==> items[first..end] == rest[first - 1..end - 1] && items[..first] == [x] + rest[..first - 1]
  {
    assert forall i :: 0 < i < |items| ==> items[i] == rest[i - 1];
    if first == 0 {
      assert items[0..end] == [x] + rest[..end - 1];
    } else {
      assert items[first..end] == rest[first - 1..end - 1];
      assert items[..first] == [x] + rest[..first - 1];
    }
  }

  /** The decisions of a run are those of its beginning, then those of the rest from where the beginning leaves off. */
  lemma {:induction false} DecisionsFrom(s: State, hits: seq<Hit>, first: nat, end: nat)
    requires first <= end <= |hits|
    ensures Decisions(s, hits)[first..end] == Decisions(After(s, hits[..first]), hits[first..end])
    decreases |hits|
  {
    hide *;
    if end == 0 {
      NothingDecided(s, hits);
    } else {
      var next, decision, rest := Step(s, hits[0]).0, Step(s, hits[0]).1, hits[1..];
      RunUnfolds(s, hits);
      SliceUnfolds(hits, hits[0], rest, first, end);
      SliceUnfolds(Decisions(s, hits), decision, Decisions(next, rest), first, end);
      if first == 0 {
        DecisionsFrom(next, rest, 0, end - 1);
        NothingDecided(next, rest);
        NothingDecided(s, hits);
        RunUnfolds(s, hits[0..end]);
        assert hits[0..end][0] == hits[0] && hits[0..end][1..] == rest[0..end - 1];
      } else {
        DecisionsFrom(next, rest, first - 1, end - 1);
        RunUnfolds(s, hits[..first]);
        assert hits[..first][0] == hits[0] && hits[..first][1..] == rest[..first - 1];
      }
      assert rest[0..end - 1] == rest[..end - 1] && Decisions(next, rest)[0..end - 1] == Decisions(next, rest)[..end - 1];
    }
  }

  lemma NothingDecided(s: State, hits: seq<Hit>)
    ensures After(s, hits[..0]) == s && hits[..0] == [] && hits[0..0] == []
    ensures Decisions(s, []) == [] && Decisions(s, hits)[0..0] == []
  {
  }

  /** Does the hit at `i` open a window of its signature, after the run so far? */
  predicate Opens(hits: seq<Hit>, i: nat)
    requires i < |hits|
  {
    Fresh(After(START, hits[..i]).entries, hits[i])
  }

  /** The hits that open a window are the ones logged without a count of duplicates. */
  lemma OpensIsLogged(hits: seq<Hit>, i: nat)
    requires i < |hits|
    ensures Opens(hits, i) <==> Decisions(START, hits)[i] == Decision(true, None)
  {
    DecisionsFrom(START, hits, i, i + 1);
    assert hits[i..i + 1] == [hits[i]];
    assert Decisions(START, hits)[i] == Decisions(START, hits)[i..i + 1][0];
  }

  /** Wherever in a run a hit opens a window of its signature, the `n` hits of that signature up to any point within the
  window, among any others, are logged exactly `1 + (n - 1) / 25` times. */
  lemma LoggedPerWindow(hits: seq<Hit>, first: nat, end: nat, from: int)
    requires Timely(hits, from) && first < end <= |hits| && Opens(hits, first)
    requires forall i :: first <= i < end && hits[i].key == hits[first].key ==> hits[i].now - hits[first].now <= WINDOW
    ensures Logged(hits[first..end], Decisions(START, hits)[first..end], hits[first].key)
            == 1 + (HitsOf(hits[first..end], hits[first].key) - 1) / SUMMARY_EVERY
  {
    hide Logged, HitsOf, Decisions, KeptDecisions, After, Fresh;
    var part, s := hits[first..end], After(START, hits[..first]);
    DecisionsFrom(START, hits, first, end);
    assert forall i :: 0 <= i < |part| ==> part[i] == hits[first + i];
    RunSame(s, s.entries, part, hits[first].now);
    LoggedFromFresh(s.entries, part);
  }

  // ---- Where windows open ----

  function KeptAfter(entries: Entries, hits: seq<Hit>): Entries
    decreases |hits|
  {
    if hits == [] then entries else KeptAfter(Counted(entries, hits[0]).0, hits[1..])
  }

  lemma {:induction false} AfterSame(s: State, kept: Entries, hits: seq<Hit>, now: int)
    requires SameButExpired(s.entries, kept, now) && Timely(hits, now)
    ensures SameButExpired(After(s, hits).entries, KeptAfter(kept, hits), if hits == [] then now else hits[|hits| - 1].now)
    decreases |hits|
  {
    if hits != [] {
      assert hits[0].now >= now;
      StepSame(s, kept, hits[0]);
      AfterSame(Step(s, hits[0]).0, Counted(kept, hits[0]).0, hits[1..], hits[0].now);
      hide Step, Counted, SameButExpired;
      assert hits[1..] != [] ==> hits[1..][|hits| - 2] == hits[|hits| - 1];
    }
  }

  /** A signature's window stays where it began while all its hits are within it. */
  lemma {:induction false} WindowKept(entries: Entries, hits: seq<Hit>, key: string)
    requires key in entries
    requires forall i :: 0 <= i < |hits| && hits[i].key == key ==> !Expired(entries[key], hits[i].now)
    ensures key in KeptAfter(entries, hits) && KeptAfter(entries, hits)[key].windowStartedAt == entries[key].windowStartedAt
    decreases |hits|
  {
    if hits != [] { WindowKept(Counted(entries, hits[0]).0, hits[1..], key); }
  }

  lemma {:induction false} NeverHit(entries: Entries, hits: seq<Hit>, key: string)
    requires key !in entries && forall i :: 0 <= i < |hits| ==> hits[i].key != key
    ensures key !in KeptAfter(entries, hits)
    decreases |hits|
  {
    if hits != [] { NeverHit(Counted(entries, hits[0]).0, hits[1..], key); }
  }

  lemma {:induction false} AfterThen(s: State, a: seq<Hit>, b: seq<Hit>)
    ensures After(s, a + b) == After(After(s, a), b)
    decreases |a|
  {
    hide Step;
    if a == [] { assert a + b == b; } else {
      assert (a + b)[1..] == a[1..] + b;
      AfterThen(Step(s, a[0]).0, a[1..], b);
    }
  }

  lemma SameFresh(entries: Entries, kept: Entries, now: int, hit: Hit)
    requires SameButExpired(entries, kept, now) && now <= hit.now
    ensures Fresh(entries, hit) <==> Fresh(kept, hit)
  {
  }

  /** A signature's first hit opens a window; then the next window opens at the first hit more than a window later. */
  lemma WindowsOpen(hits: seq<Hit>, next: nat, from: int)
    requires Timely(hits, from) && next < |hits|
    ensures (forall i :: 0 <= i < next ==> hits[i].key != hits[next].key) ==> Opens(hits, next)
    ensures forall first: nat ::
      && first < next && hits[first].key == hits[next].key && Opens(hits, first)
      && (forall i :: first <= i < next && hits[i].key == hits[next].key ==> hits[i].now - hits[first].now <= WINDOW)
      ==> (Opens(hits, next) <==> hits[next].now - hits[first].now > WINDOW)
  {
    var key := hits[next].key;
    if forall i :: 0 <= i < next ==> hits[i].key != key { FirstOpens(hits, next, from); }
    forall first: nat |
      && first < next && hits[first].key == key && Opens(hits, first)
      && (forall i :: first <= i < next && hits[i].key == key ==> hits[i].now - hits[first].now <= WINDOW)
      ensures Opens(hits, next) <==> hits[next].now - hits[first].now > WINDOW
    {
      NextOpens(hits, first, next, from);
    }
  }

  lemma FirstOpens(hits: seq<Hit>, next: nat, from: int)
    requires Timely(hits, from) && next < |hits| && forall i :: 0 <= i < next ==> hits[i].key != hits[next].key
    ensures Opens(hits, next)
  {
    var before := hits[..next];
    assert forall i :: 0 <= i < next ==> before[i] == hits[i];
    AfterSame(START, map[], before, from);
    NeverHit(map[], before, hits[next].key);
    SameFresh(After(START, before).entries, KeptAfter(map[], before), if before == [] then from else before[next - 1].now, hits[next]);
  }

  lemma NextOpens(hits: seq<Hit>, first: nat, next: nat, from: int)
    requires Timely(hits, from) && first < next < |hits| && hits[first].key == hits[next].key && Opens(hits, first)
    requires forall i :: first <= i < next && hits[i].key == hits[next].key ==> hits[i].now - hits[first].now <= WINDOW
    ensures Opens(hits, next) <==> hits[next].now - hits[first].now > WINDOW
  {
    var key, s, part := hits[next].key, After(START, hits[..first]), hits[first..next];
    assert forall i :: 0 <= i < |part| ==> part[i] == hits[first + i];
    assert hits[..next] == hits[..first] + part;
    AfterThen(START, hits[..first], part);
    AfterSame(s, s.entries, part, hits[first].now);
    var begun := Counted(s.entries, part[0]).0;
    WindowKept(begun, part[1..], key);
    SameFresh(After(s, part).entries, KeptAfter(s.entries, part), part[|part| - 1].now, hits[next]);
  }
}
