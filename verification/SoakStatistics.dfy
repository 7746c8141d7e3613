/** Soak statistics as values: what samples add up to, percentiles and maxima. */
module SoakStatistics {
  // Durations are reals; the rank of a percentile is computed with the machine's rounding, a function passed in.

  import opened Basics

  datatype Kind = FastRead | Read | DynamicPost

  datatype Sample = Sample(caseName: string, kind: Kind, ok: bool, unexpected4xx: bool, fiveXx: bool, duration: real)

  datatype Stats = Stats(count: nat, ok: nat, failed: nat, unexpected4xx: nat, fiveXx: nat, durations: seq<real>)

  const EMPTY := Stats(0, 0, 0, 0, 0, [])

  function One(b: bool): nat { if b then 1 else 0 }

  /** A group with one more sample. */
  function Record(g: Stats, s: Sample): Stats {
    Stats(g.count + 1, g.ok + One(s.ok), g.failed + One(!s.ok), g.unexpected4xx + One(s.unexpected4xx), g.fiveXx + One(s.fiveXx),
          g.durations + [s.duration])
  }

  datatype Accumulated = Accumulated(totals: Stats, byCase: map<string, Stats>, byKind: map<Kind, Stats>)

  function Created(cases: set<string>): (a: Accumulated)
    ensures forall k: Kind :: k in a.byKind
  {
    AllKinds();
    Accumulated(EMPTY, map c | c in cases :: EMPTY, map k | k in KINDS :: EMPTY)
  }

  const KINDS := {FastRead, Read, DynamicPost}

  lemma AllKinds()
    ensures forall k: Kind :: k in KINDS
  {
    forall k: Kind
      ensures k in KINDS
    {
      match k {
        case FastRead =>
        case Read =>
        case DynamicPost =>
      }
    }
  }

  function CaseStats(a: Accumulated, name: string): Stats { if name in a.byCase then a.byCase[name] else EMPTY }

  /** One more sample everywhere it counts. */
  function RecordSample(a: Accumulated, s: Sample): Accumulated
    requires s.kind in a.byKind
  {
    Accumulated(Record(a.totals, s),
                a.byCase[s.caseName := Record(CaseStats(a, s.caseName), s)],
                a.byKind[s.kind := Record(a.byKind[s.kind], s)])
  }

  function RecordAll(cases: set<string>, samples: seq<Sample>): (a: Accumulated)
    ensures forall k: Kind :: k in a.byKind
    decreases |samples|
  {
    if samples == [] then Created(cases)
    else RecordSample(RecordAll(cases, samples[..|samples| - 1]), samples[|samples| - 1])
  }

  // ---- The same all at once ----

  function OfKind(kind: Kind): Sample -> bool { (s: Sample) => s.kind == kind }

  function OfCase(name: string): Sample -> bool { (s: Sample) => s.caseName == name }

  function OfCases(names: seq<string>): Sample -> bool { (s: Sample) => s.caseName in names }

  function And(p: Sample -> bool, q: Sample -> bool): Sample -> bool { s => p(s) && q(s) }

  function IsOk(): Sample -> bool { (s: Sample) => s.ok }

  function IsFailed(): Sample -> bool { (s: Sample) => !s.ok }

  function IsUnexpected(): Sample -> bool { (s: Sample) => s.unexpected4xx }

  function IsFiveXx(): Sample -> bool { (s: Sample) => s.fiveXx }

  function CountIf(samples: seq<Sample>, p: Sample -> bool): nat
    decreases |samples|
  {
    if samples == [] then 0 else CountIf(samples[..|samples| - 1], p) + One(p(samples[|samples| - 1]))
  }

  function Select(samples: seq<Sample>, p: Sample -> bool): seq<Sample>
    decreases |samples|
  {
    if samples == [] then []
    else Select(samples[..|samples| - 1], p) + if p(samples[|samples| - 1]) then [samples[|samples| - 1]] else []
  }

  function Durations(samples: seq<Sample>): (r: seq<real>)
    ensures |r| == |samples|
    ensures forall i :: 0 <= i < |r| ==> r[i] == samples[i].duration
  {
    seq(|samples|, i requires 0 <= i < |samples| => samples[i].duration)
  }

  /** What a group of samples amounts to. */
  function BatchStats(samples: seq<Sample>): Stats {
    Stats(|samples|, CountIf(samples, IsOk()), CountIf(samples, IsFailed()), CountIf(samples, IsUnexpected()),
          CountIf(samples, IsFiveXx()), Durations(samples))
  }

  lemma BatchOneMore(samples: seq<Sample>, s: Sample)
    ensures BatchStats(samples + [s]) == Record(BatchStats(samples), s)
  {
    assert (samples + [s])[..|samples|] == samples;
  }

  lemma SelectOneMore(samples: seq<Sample>, s: Sample, p: Sample -> bool)
    ensures Select(samples + [s], p) == Select(samples, p) + if p(s) then [s] else []
  {
    assert (samples + [s])[..|samples|] == samples;
  }

  /** Recording samples one by one gives what the samples of each group amount to all at once. */
  lemma {:induction false} StreamingIsBatch(cases: set<string>, samples: seq<Sample>)
    ensures RecordAll(cases, samples).totals == BatchStats(samples)
    ensures forall k: Kind :: RecordAll(cases, samples).byKind[k] == BatchStats(Select(samples, OfKind(k)))
    ensures forall c :: c in RecordAll(cases, samples).byCase <==> c in cases || exists s :: s in samples && s.caseName == c
    ensures forall c :: CaseStats(RecordAll(cases, samples), c) == BatchStats(Select(samples, OfCase(c)))
    decreases |samples|
  {
    hide BatchStats, Record, Select;
    if samples == [] {
      NothingYet();
    } else {
      var front, last := samples[..|samples| - 1], samples[|samples| - 1];
      assert samples == front + [last];
      StreamingIsBatch(cases, front);
      BatchOneMore(front, last);
      forall k: Kind
        ensures RecordAll(cases, samples).byKind[k] == BatchStats(Select(samples, OfKind(k)))
      {
        SelectOneMore(front, last, OfKind(k));
        BatchOneMore(Select(front, OfKind(k)), last);
        assert Select(front, OfKind(k)) + [] == Select(front, OfKind(k));
      }
      forall c
        ensures CaseStats(RecordAll(cases, samples), c) == BatchStats(Select(samples, OfCase(c)))
      {
        SelectOneMore(front, last, OfCase(c));
        BatchOneMore(Select(front, OfCase(c)), last);
        assert Select(front, OfCase(c)) + [] == Select(front, OfCase(c));
      }
    }
  }

  lemma NothingYet()
    ensures BatchStats([]) == EMPTY
    ensures forall p: Sample -> bool :: Select([], p) == []
  {
  }

  // ---- Totals are sums ----

  lemma CountOneMore(samples: seq<Sample>, s: Sample, p: Sample -> bool)
    ensures CountIf(samples + [s], p) == CountIf(samples, p) + One(p(s))
  {
    assert (samples + [s])[..|samples|] == samples;
  }

  lemma AndMeans(p: Sample -> bool, q: Sample -> bool, s: Sample)
    ensures And(p, q)(s) <==> p(s) && q(s)
  {
  }

  lemma NoneCounted(p: Sample -> bool, q: Sample -> bool)
    ensures Select([], p) == [] && CountIf([], q) == 0
    ensures One(true) == 1 && One(false) == 0
  {
  }

  lemma {:induction false} CountSelect(samples: seq<Sample>, p: Sample -> bool, q: Sample -> bool)
    ensures CountIf(Select(samples, p), q) == CountIf(samples, And(p, q))
    decreases |samples|
  {
    hide *;
    NoneCounted(p, q);
    NoneCounted(p, And(p, q));
    if samples != [] {
      var front, last := samples[..|samples| - 1], samples[|samples| - 1];
      assert samples == front + [last];
      var kept := Select(front, p);
      CountSelect(front, p, q);
      SelectOneMore(front, last, p);
      CountOneMore(kept, last, q);
      CountOneMore(front, last, And(p, q));
      AndMeans(p, q, last);
      assert kept + [] == kept;
    }
  }

  /** Whatever is counted, the three kinds add up to the total. */
  lemma {:induction false} KindsAddUp(samples: seq<Sample>, q: Sample -> bool)
    ensures CountIf(samples, q) ==
      CountIf(Select(samples, OfKind(FastRead)), q) + CountIf(Select(samples, OfKind(Read)), q)
      + CountIf(Select(samples, OfKind(DynamicPost)), q)
    decreases |samples|
  {
    CountSelect(samples, OfKind(FastRead), q);
    CountSelect(samples, OfKind(Read), q);
    CountSelect(samples, OfKind(DynamicPost), q);
    CountThree(samples, q);
  }

  lemma {:induction false} CountThree(samples: seq<Sample>, q: Sample -> bool)
    ensures CountIf(samples, q) ==
      CountIf(samples, And(OfKind(FastRead), q)) + CountIf(samples, And(OfKind(Read), q))
      + CountIf(samples, And(OfKind(DynamicPost), q))
    decreases |samples|
  {
    if samples != [] { CountThree(samples[..|samples| - 1], q); }
  }

  function SumCases(names: seq<string>, samples: seq<Sample>, q: Sample -> bool): nat {
    if names == [] then 0 else CountIf(Select(samples, OfCase(names[0])), q) + SumCases(names[1..], samples, q)
  }

  /** Whatever is counted, the cases add up to the total. */
  lemma {:induction false} CasesAddUp(names: seq<string>, samples: seq<Sample>, q: Sample -> bool)
    requires forall i, j :: 0 <= i < j < |names| ==> names[i] != names[j]
    ensures SumCases(names, samples, q) == CountIf(samples, And(OfCases(names), q))
    ensures (forall s :: s in samples ==> s.caseName in names) ==> SumCases(names, samples, q) == CountIf(samples, q)
    decreases |names|
  {
    if names == [] {
      CountNone(samples, And(OfCases(names), q));
    } else {
      var name, rest := names[0], names[1..];
      assert names == [name] + rest;
      CasesAddUp(rest, samples, q);
      CountSelect(samples, OfCase(name), q);
      assert name !in rest;
      CountEither(samples, And(OfCase(name), q), And(OfCases(rest), q), And(OfCases(names), q));
    }
    CountSame(samples, And(OfCases(names), q), q);
  }

  lemma {:induction false} CountNone(samples: seq<Sample>, p: Sample -> bool)
    requires forall s :: !p(s)
    ensures CountIf(samples, p) == 0
    decreases |samples|
  {
    if samples != [] { CountNone(samples[..|samples| - 1], p); }
  }

  lemma {:induction false} CountEither(samples: seq<Sample>, p: Sample -> bool, q: Sample -> bool, r: Sample -> bool)
    requires forall s :: !(p(s) && q(s)) && (r(s) <==> p(s) || q(s))
    ensures CountIf(samples, r) == CountIf(samples, p) + CountIf(samples, q)
    decreases |samples|
  {
    if samples != [] { CountEither(samples[..|samples| - 1], p, q, r); }
  }

  lemma {:induction false} CountSame(samples: seq<Sample>, p: Sample -> bool, q: Sample -> bool)
    ensures (forall s :: s in samples ==> p(s) == q(s)) ==> CountIf(samples, p) == CountIf(samples, q)
    decreases |samples|
  {
    if samples != [] {
      assert samples[|samples| - 1] in samples;
      CountSame(samples[..|samples| - 1], p, q);
    }
  }

  /** Every sample is ok or failed. */
  lemma {:induction false} OkAndFailed(samples: seq<Sample>)
    ensures BatchStats(samples).ok + BatchStats(samples).failed == BatchStats(samples).count
    decreases |samples|
  {
    if samples != [] { OkAndFailed(samples[..|samples| - 1]); }
  }

  // ---- Percentiles ----

  ghost predicate Ascending(a: seq<real>) { forall i, j :: 0 <= i < j < |a| ==> a[i] <= a[j] }

  function Insert(x: real, a: seq<real>): (r: seq<real>)
    ensures multiset(r) == multiset(a) + multiset{x}
    decreases |a|
  {
    if a == [] then [x]
    else if a[0] < x then
      assert a == [a[0]] + a[1..];
      [a[0]] + Insert(x, a[1..])
    else [x] + a
  }

  function SortValues(a: seq<real>): (r: seq<real>)
    ensures multiset(r) == multiset(a) && |r| == |a|
    decreases |a|
  {
    if a == [] then []
    else
      assert a == [a[0]] + a[1..];
      var r := Insert(a[0], SortValues(a[1..]));
      assert |multiset(r)| == |multiset(a)|;
      r
  }

  lemma InsertHas(x: real, a: seq<real>, y: real)
    ensures y in Insert(x, a) ==> y == x || y in a
  {
    hide Insert;
    assert y in Insert(x, a) ==> y in multiset(a) + multiset{x};
  }

  lemma InsertStep(x: real, a: seq<real>)
    ensures Insert(x, a) == if a == [] then [x] else if a[0] < x then [a[0]] + Insert(x, a[1..]) else [x] + a
  {
  }

  lemma ConsAscending(x: real, a: seq<real>)
    requires Ascending(a) && forall y :: y in a ==> x <= y
    ensures Ascending([x] + a)
  {
    assert forall j :: 0 <= j < |a| ==> a[j] in a;
  }

  lemma RestAscending(a: seq<real>)
    requires Ascending(a) && a != []
    ensures Ascending(a[1..]) && (forall y :: y in a ==> a[0] <= y) && forall y :: y in a[1..] ==> a[0] <= y
  {
  }

  lemma {:induction false} InsertAscending(x: real, a: seq<real>)
    requires Ascending(a)
    ensures Ascending(Insert(x, a))
    decreases |a|
  {
    hide *;
    InsertStep(x, a);
    if a == [] {
      NoneAscending();
      ConsAscending(x, []);
      assert [x] + [] == [x];
    } else {
      RestAscending(a);
      if a[0] < x {
        InsertAscending(x, a[1..]);
        forall y | y in Insert(x, a[1..])
          ensures a[0] <= y
        {
          InsertHas(x, a[1..], y);
        }
        ConsAscending(a[0], Insert(x, a[1..]));
      } else {
        ConsAscending(x, a);
      }
    }
  }

  lemma NoneAscending()
    ensures Ascending([])
  {
  }

  lemma {:induction false} SortAscending(a: seq<real>)
    ensures Ascending(SortValues(a))
    decreases |a|
  {
    if a != [] {
      SortAscending(a[1..]);
      InsertAscending(a[0], SortValues(a[1..]));
    }
  }

  /** `Math.ceil(pct / 100 * n)` without rounding. */
  function RankOf(pct: nat, n: nat): nat { (pct * n + 99) / 100 }

  function Clamp(x: int, low: int, high: int): int { if x < low then low else if x > high then high else x }

  /** The nearest rank, at least one and at most the number of values. */
  function NearestRank(pct: nat, n: nat): int
    requires n > 0
  {
    Clamp(RankOf(pct, n), 1, n)
  }

  function Ceil(x: real): int { -(0.0 - x).Floor }

  /** The double nearest to `pct / 100`, for the two percentages that are asked for and one that is not. */
  const P95: real := 8556839292003942.0 / 9007199254740992.0
  const P99: real := 8917127262193582.0 / 9007199254740992.0
  const P55: real := 4953959590107546.0 / 9007199254740992.0

  function Grid(k: int): real { k as real / 128.0 }

  /** What rounding to a double keeps: order, every multiple of 1/128 below 2 to the 45th, and, from 32 to 64, all but
  half a unit in the last place. */
  ghost predicate IsRounding(round: real -> real) {
    && (forall x, y :: x <= y ==> round(x) <= round(y))
    && (forall k :: 0 <= k < 0x10_0000_0000_0000 ==> round(Grid(k)) == Grid(k))
    && (forall x :: 32.0 <= x < 64.0 ==> x - 1.0 / 281474976710656.0 <= round(x) <= x + 1.0 / 281474976710656.0)
  }

  /** The rank the code computes, with the rounded quotient and product. */
  function RoundedRank(fraction: real, n: nat, round: real -> real): int { Ceil(round(fraction * n as real)) }

  function Percentile(values: seq<real>, fraction: real, round: real -> real): Option<real> {
    if values == [] then None
    else
      var sorted := SortValues(values);
      var index := Clamp(RoundedRank(fraction, |sorted|, round) - 1, 0, |sorted| - 1);
      Some(sorted[index])
  }

  lemma ExactProduct(pct: nat, fraction: real, n: nat)
    requires (pct == 95 && fraction == P95) || (pct == 99 && fraction == P99)
    ensures fraction * n as real <= (pct * n) as real / 100.0 <= fraction * n as real + n as real / 18014398509481984.0
  {
    var x := n as real;
    assert (pct * n) as real == pct as real * x;
    if pct == 95 { assert P95 * x <= 95.0 * x / 100.0 <= P95 * x + x / 18014398509481984.0; }
    else { assert P99 * x <= 99.0 * x / 100.0 <= P99 * x + x / 18014398509481984.0; }
  }

  lemma CeilIs(x: real, m: int)
    requires m as real - 1.0 < x <= m as real
    ensures Ceil(x) == m
  {
  }

  /** A rounded product that is less than a hundredth's step off stays between the same whole numbers. */
  lemma RoundsWithin(round: real -> real, x: real, m: nat)
    requires IsRounding(round) && 0 < m <= 0x100_0000_0000
    requires m as real - 1.0 + 1.0 / 128.0 <= x <= m as real
    ensures Ceil(round(x)) == m
  {
    GridMeans(m);
    var low, high := Grid(128 * m - 127), Grid(128 * m);
    assert round(low) == low && round(high) == high;
    assert round(low) <= round(x) <= round(high);
    CeilIs(round(x), m);
  }

  lemma GridMeans(m: nat)
    ensures Grid(128 * m) == m as real && Grid(128 * m - 127) == m as real - 1.0 + 1.0 / 128.0
  {
  }

  lemma PastHundredth(m: nat, product: nat, x: real, n: nat)
    requires n <= 0x100_0000_0000 && product as int >= 100 * m - 99
    requires x >= product as real / 100.0 - n as real / 18014398509481984.0
    ensures x >= m as real - 1.0 + 1.0 / 128.0
  {
    assert product as real >= 100.0 * m as real - 99.0;
    assert n as real / 18014398509481984.0 <= 1.0 / 16384.0;
  }

  /** The doubles of the two percentages lie so little below them that the rounded rank is the exact one for any number of
  values that fits into memory. */
  lemma RankAgrees(pct: nat, fraction: real, n: nat, round: real -> real)
    requires IsRounding(round) && 0 < n <= 0x100_0000_0000
    requires (pct == 95 && fraction == P95) || (pct == 99 && fraction == P99)
    ensures RoundedRank(fraction, n, round) == RankOf(pct, n)
  {
    var x, m := fraction * n as real, RankOf(pct, n);
    ExactRank(pct, n);
    ExactProduct(pct, fraction, n);
    hide IsRounding, RankOf, Ceil;
    assert (pct * n) as real <= 100.0 * m as real;
    PastHundredth(m, pct * n, x, n);
    assert 0 < m <= n;
    RoundsWithin(round, x, m);
  }

  lemma ExactRank(pct: nat, n: nat)
    ensures 100 * RankOf(pct, n) >= pct * n > 100 * RankOf(pct, n) - 100
  {
  }

  function CountValues(values: seq<real>, p: real -> bool): nat {
    if values == [] then 0 else (if p(values[0]) then 1 else 0) + CountValues(values[1..], p)
  }

  function AtMost(v: real): real -> bool { x => x <= v }

  function Below(v: real): real -> bool { x => x < v }

  lemma {:induction false} CountPermuted(a: seq<real>, b: seq<real>, p: real -> bool)
    requires multiset(a) == multiset(b)
    ensures CountValues(a, p) == CountValues(b, p)
    decreases |a|
  {
    assert |multiset(a)| == |a| && |multiset(b)| == |b|;
    if a != [] {
      var x := a[0];
      assert x in multiset(b);
      var k :| 0 <= k < |b| && b[k] == x;
      assert a == [x] + a[1..] && b == b[..k] + [x] + b[k + 1..];
      Removed(a[1..], b[..k], x, b[k + 1..]);
      CountPermuted(a[1..], b[..k] + b[k + 1..], p);
      CountAround(b[..k], x, b[k + 1..], p);
    }
  }

  lemma Removed(rest: seq<real>, front: seq<real>, x: real, back: seq<real>)
    requires multiset([x] + rest) == multiset(front + [x] + back)
    ensures multiset(rest) == multiset(front + back)
  {
    assert multiset([x] + rest) - multiset{x} == multiset(rest);
    assert multiset(front + back) == multiset(front) + multiset(back);
    assert multiset(front + [x] + back) == multiset(front) + multiset{x} + multiset(back);
    assert multiset(front + [x] + back) - multiset{x} == multiset(front + back);
  }

  lemma {:induction false} CountAround(front: seq<real>, x: real, back: seq<real>, p: real -> bool)
    ensures CountValues(front + [x] + back, p) == CountValues(front + back, p) + (if p(x) then 1 else 0)
    decreases |front|
  {
    if front == [] {
      assert front + [x] + back == [x] + back && front + back == back;
    } else {
      assert (front + [x] + back)[1..] == front[1..] + [x] + back && (front + back)[1..] == front[1..] + back;
      CountAround(front[1..], x, back, p);
    }
  }

  lemma {:induction false} CountFirst(a: seq<real>, n: nat, p: real -> bool)
    requires n <= |a|
    ensures (forall i :: 0 <= i < n ==> p(a[i])) ==> CountValues(a, p) >= n
    ensures (forall i :: n <= i < |a| ==> !p(a[i])) ==> CountValues(a, p) <= n
    decreases |a|
  {
    if a != [] { CountFirst(a[1..], if n > 0 then n - 1 else 0, p); }
  }

  /** A percentile is one of the values: at least the code's rank of them are at most it, and fewer than that are below
  it. */
  lemma PercentileIsAtRank(values: seq<real>, fraction: real, round: real -> real)
    requires values != []
    ensures
      var rank := Clamp(RoundedRank(fraction, |values|, round), 1, |values|);
      && Percentile(values, fraction, round).Some?
      && var v := Percentile(values, fraction, round).value;
         v in values && CountValues(values, AtMost(v)) >= rank && CountValues(values, Below(v)) < rank
  {
    hide *;
    var sorted, rank := SortValues(values), Clamp(RoundedRank(fraction, |values|, round), 1, |values|);
    PercentileAt(values, fraction, round);
    var v := sorted[rank - 1];
    SortAscending(values);
    assert v in multiset(sorted) && (v in values <==> v in multiset(values));
    CountPermuted(sorted, values, AtMost(v));
    CountPermuted(sorted, values, Below(v));
    RankCounts(sorted, rank, v);
  }

  lemma PercentileAt(values: seq<real>, fraction: real, round: real -> real)
    requires values != []
    ensures
      var rank := Clamp(RoundedRank(fraction, |values|, round), 1, |values|);
      && 1 <= rank <= |values| && |SortValues(values)| == |values|
      && Percentile(values, fraction, round) == Some(SortValues(values)[rank - 1])
  {
    hide RoundedRank, SortValues;
  }

  /** The 95th and 99th percentiles, the only ones asked for, are at the exact nearest rank although the code rounds both
  the quotient and the product: at least that many values are at most it, and fewer are below it. */
  lemma PercentileIsNearestRank(values: seq<real>, pct: nat, fraction: real, round: real -> real)
    requires values != [] && |values| <= 0x100_0000_0000 && IsRounding(round)
    requires (pct == 95 && fraction == P95) || (pct == 99 && fraction == P99)
    ensures
      var rank := NearestRank(pct, |values|);
      && Percentile(values, fraction, round).Some?
      && var v := Percentile(values, fraction, round).value;
         v in values && CountValues(values, AtMost(v)) >= rank && CountValues(values, Below(v)) < rank
  {
    RankAgrees(pct, fraction, |values|, round);
    PercentileIsAtRank(values, fraction, round);
    hide Percentile, CountValues, RankOf, RoundedRank, IsRounding;
  }

  /** Other percentages may miss the exact rank: the 55th percentile of a hundred values is the fifty-sixth. */
  lemma RankMayMiss(round: real -> real)
    requires IsRounding(round)
    ensures RoundedRank(P55, 100, round) > RankOf(55, 100) == 55
  {
    var product := P55 * 100.0;
    assert product == 495395959010754600.0 / 9007199254740992.0;
    assert round(product) >= product - 1.0 / 281474976710656.0 > 55.0;
  }

  lemma RankCounts(sorted: seq<real>, rank: nat, v: real)
    requires Ascending(sorted) && 0 < rank <= |sorted| && v == sorted[rank - 1]
    ensures CountValues(sorted, AtMost(v)) >= rank && CountValues(sorted, Below(v)) < rank
  {
    hide CountValues;
    CountFirst(sorted, rank, AtMost(v));
    CountFirst(sorted, rank - 1, Below(v));
  }

  lemma CeilGrows(x: real, y: real)
    requires x <= y
    ensures Ceil(x) <= Ceil(y)
  {
  }

  lemma ProductGrows(p: real, q: real, x: real)
    requires p <= q && 0.0 <= x
    ensures p * x <= q * x
  {
    assert (q - p) * x >= 0.0;
  }

  lemma RoundGrows(round: real -> real, x: real, y: real)
    requires IsRounding(round) && x <= y
    ensures round(x) <= round(y)
  {
  }

  lemma RankIs(fraction: real, n: nat, round: real -> real)
    ensures RoundedRank(fraction, n, round) == Ceil(round(fraction * n as real))
  {
    hide Ceil;
  }

  lemma RankGrows(p: real, q: real, n: nat, round: real -> real)
    requires p <= q && IsRounding(round)
    ensures RoundedRank(p, n, round) <= RoundedRank(q, n, round)
  {
    hide *;
    var x, y := p * n as real, q * n as real;
    ProductGrows(p, q, n as real);
    RoundGrows(round, x, y);
    CeilGrows(round(x), round(y));
    RankIs(p, n, round);
    RankIs(q, n, round);
  }

  // ---- Maximum and summary ----

  method MaxValue(values: seq<real>) returns (max: Option<real>)
    ensures max.None? <==> values == []
    ensures max.Some? ==> max.value in values && forall v :: v in values ==> v <= max.value
  {
    if values == [] { return None; }
    var m := values[0];
    for index := 1 to |values|
      invariant m in values && forall i :: 0 <= i < index ==> values[i] <= m
    {
      if values[index] > m { m := values[index]; }
    }
    max := Some(m);
  }

  /** The percentiles are in order, and no percentile is above the maximum. */
  lemma PercentilesOrdered(values: seq<real>, p: real, q: real, max: real, round: real -> real)
    requires values != [] && p <= q && IsRounding(round) && max in values && forall v :: v in values ==> v <= max
    ensures Percentile(values, p, round).Some? && Percentile(values, q, round).Some?
    ensures Percentile(values, p, round).value <= Percentile(values, q, round).value <= max
  {
    hide *;
    var sorted, n := SortValues(values), |values|;
    SortAscending(values);
    RankGrows(p, q, n, round);
    PercentileAt(values, p, round);
    PercentileAt(values, q, round);
    ClampGrows(RoundedRank(p, n, round), RoundedRank(q, n, round), n);
    AscendingAt(sorted, Clamp(RoundedRank(p, n, round), 1, n) - 1, Clamp(RoundedRank(q, n, round), 1, n) - 1);
    PercentileIsAtRank(values, q, round);
  }

  lemma ClampGrows(x: int, y: int, n: int)
    requires x <= y && 1 <= n
    ensures Clamp(x, 1, n) <= Clamp(y, 1, n)
  {
  }

  lemma AscendingAt(a: seq<real>, i: int, j: int)
    requires Ascending(a) && 0 <= i <= j < |a|
    ensures a[i] <= a[j]
  {
  }

  datatype GroupSummary = GroupSummary(count: nat, ok: nat, failed: nat, unexpected4xx: nat, fiveXx: nat,
                                       p95: Option<real>, p99: Option<real>, max: Option<real>)

  /** The counts, and the percentiles and maximum of the durations, in order. `round` is the machine's rounding. */
  ghost predicate Summarizes(s: GroupSummary, g: Stats, round: real -> real) {
    && s.count == g.count && s.ok == g.ok && s.failed == g.failed && s.unexpected4xx == g.unexpected4xx && s.fiveXx == g.fiveXx
    && if g.durations == [] then s.p95 == None && s.p99 == None && s.max == None
       else
         && s.p95 == Percentile(g.durations, P95, round) && s.p99 == Percentile(g.durations, P99, round)
         && s.p95.Some? && s.p99.Some? && s.max.Some? && s.p95.value <= s.p99.value <= s.max.value
         && s.max.value in g.durations && forall v :: v in g.durations ==> v <= s.max.value
  }

  method SummarizeAccumulatedGroup(g: Stats, round: real -> real) returns (s: GroupSummary)
    requires IsRounding(round)
    ensures Summarizes(s, g, round)
  {
    var max := MaxValue(g.durations);
    if g.durations != [] { PercentilesOrdered(g.durations, P95, P99, max.value, round); }
    s := GroupSummary(g.count, g.ok, g.failed, g.unexpected4xx, g.fiveXx,
      Percentile(g.durations, P95, round), Percentile(g.durations, P99, round), max);
  }

  datatype Summary = Summary(totals: GroupSummary, byCase: map<string, GroupSummary>, byKind: map<Kind, GroupSummary>)

  ghost predicate SummarizesAll(s: Summary, a: Accumulated, round: real -> real) {
    && Summarizes(s.totals, a.totals, round)
    && s.byCase.Keys == a.byCase.Keys && (forall c :: c in a.byCase ==> Summarizes(s.byCase[c], a.byCase[c], round))
    && s.byKind.Keys == a.byKind.Keys && (forall k :: k in a.byKind ==> Summarizes(s.byKind[k], a.byKind[k], round))
  }

  method SummarizeGroups<T(==)>(groups: map<T, Stats>, round: real -> real) returns (r: map<T, GroupSummary>)
    requires IsRounding(round)
    ensures r.Keys == groups.Keys && forall k :: k in groups ==> Summarizes(r[k], groups[k], round)
  {
    hide Summarizes, IsRounding;
    r := map[];
    var left := groups.Keys;
    while left != {}
      invariant left <= groups.Keys && r.Keys == groups.Keys - left
      invariant forall k :: k in r ==> Summarizes(r[k], groups[k], round)
      decreases |left|
    {
      var k :| k in left;
      var group := SummarizeAccumulatedGroup(groups[k], round);
      r, left := r[k := group], left - {k};
    }
  }

  /** Summarizes every group of an accumulator. */
  method SummarizeAccumulated(a: Accumulated, round: real -> real) returns (s: Summary)
    requires IsRounding(round)
    ensures SummarizesAll(s, a, round)
  {
    hide Summarizes, IsRounding;
    var byCase := SummarizeGroups(a.byCase, round);
    var byKind := SummarizeGroups(a.byKind, round);
    var totals := SummarizeAccumulatedGroup(a.totals, round);
    s := Summary(totals, byCase, byKind);
  }

  /** A summary of the samples: of all, of each case that has any, and of each kind, as if each were counted apart. */
  ghost predicate SummaryOf(s: Summary, samples: seq<Sample>, round: real -> real) {
    && Summarizes(s.totals, BatchStats(samples), round)
    && (forall c :: c in s.byCase <==> exists x :: x in samples && x.caseName == c)
    && (forall c :: c in s.byCase ==> Summarizes(s.byCase[c], BatchStats(Select(samples, OfCase(c))), round))
    && (forall k: Kind :: k in s.byKind && Summarizes(s.byKind[k], BatchStats(Select(samples, OfKind(k))), round))
  }

  lemma SummaryIsBatch(s: Summary, cases: set<string>, samples: seq<Sample>, round: real -> real)
    requires SummarizesAll(s, RecordAll(cases, samples), round)
    requires forall c :: c in cases ==> exists x :: x in samples && x.caseName == c
    ensures SummaryOf(s, samples, round)
  {
    StreamingIsBatch(cases, samples);
    hide RecordAll, Summarizes, BatchStats, Select;
    var a := RecordAll(cases, samples);
    assert forall c :: c in a.byCase ==> CaseStats(a, c) == a.byCase[c];
  }
}
