/** The accumulator that counts soak samples in place: one group for everything, one per case, one per kind. */
module SoakAccumulator {
  import opened Basics
  import opened SoakStatistics

  class Group {
    var count: nat
    var ok: nat
    var failed: nat
    var unexpected4xx: nat
    var fiveXx: nat
    var durations: seq<real>

    constructor ()
      ensures View() == EMPTY
    {
      count, ok, failed, unexpected4xx, fiveXx, durations := 0, 0, 0, 0, 0, [];
    }

    function View(): Stats
      reads this
    {
      Stats(count, ok, failed, unexpected4xx, fiveXx, durations)
    }

    method RecordGroupSample(sample: Sample)
      modifies this
      ensures View() == Record(old(View()), sample)
    {
      count := count + 1;
      if sample.ok { ok := ok + 1; } else { failed := failed + 1; }
      if sample.unexpected4xx { unexpected4xx := unexpected4xx + 1; }
      if sample.fiveXx { fiveXx := fiveXx + 1; }
      durations := durations + [sample.duration];
    }
  }

  /** No two places share a group. */
  ghost predicate Separate(totals: Group, byCase: map<string, Group>, byKind: map<Kind, Group>) {
    && (forall k: Kind :: k in byKind)
    && (forall c :: c in byCase ==> byCase[c] != totals)
    && (forall k :: k in byKind ==> byKind[k] != totals)
    && (forall c, d :: c in byCase && d in byCase && c != d ==> byCase[c] != byCase[d])
    && (forall k, l :: k in byKind && l in byKind && k != l ==> byKind[k] != byKind[l])
    && (forall c, k :: c in byCase && k in byKind ==> byCase[c] != byKind[k])
  }

  ghost function GroupsOf(totals: Group, byCase: map<string, Group>, byKind: map<Kind, Group>): set<object> {
    {totals} + (set c | c in byCase :: byCase[c] as object) + (set k | k in byKind :: byKind[k] as object)
  }

  lemma SeparateMore(totals: Group, byCase: map<string, Group>, byKind: map<Kind, Group>, name: string, group: Group)
    requires Separate(totals, byCase, byKind) && group !in GroupsOf(totals, byCase, byKind)
    ensures Separate(totals, byCase[name := group], byKind)
  {
    assert forall c :: c in byCase ==> byCase[c] as object in GroupsOf(totals, byCase, byKind);
    assert forall k :: k in byKind ==> byKind[k] as object in GroupsOf(totals, byCase, byKind);
  }

  lemma GroupsMore(totals: Group, byCase: map<string, Group>, byKind: map<Kind, Group>, name: string, group: Group)
    ensures GroupsOf(totals, byCase[name := group], byKind) <= GroupsOf(totals, byCase, byKind) + {group as object}
  {
  }

  function Views<K>(groups: map<K, Group>): map<K, Stats>
    reads set k | k in groups :: groups[k]
  {
    map k | k in groups :: groups[k].View()
  }

  lemma ViewsMore<K>(groups: map<K, Group>, name: K, group: Group)
    ensures Views(groups[name := group]) == Views(groups)[name := group.View()]
  {
  }

  class Accumulator {
    var totals: Group
    var byCase: map<string, Group>
    var byKind: map<Kind, Group>

    ghost predicate Valid()
      reads this
    {
      Separate(totals, byCase, byKind)
    }

    ghost function Groups(): set<object>
      reads this
    {
      GroupsOf(totals, byCase, byKind)
    }

    function View(): Accumulated
      reads this, Groups()
    {
      Accumulated(totals.View(), Views(byCase), Views(byKind))
    }

    constructor (all: Group, kinds: map<Kind, Group>)
      requires kinds.Keys == KINDS && all.View() == EMPTY
      requires forall k :: k in kinds ==> kinds[k] != all && kinds[k].View() == EMPTY
      requires forall k, l :: k in kinds && l in kinds && k != l ==> kinds[k] != kinds[l]
      ensures Valid() && View() == Created({})
      ensures totals == all && byKind == kinds && byCase == map[]
    {
      totals, byCase, byKind := all, map[], kinds;
      new;
      AllKinds();
      assert View().byKind == Created({}).byKind;
    }

    method AddCases(cases: seq<string>)
      requires Valid() && View() == Created({})
      modifies this`byCase
      ensures Valid() && fresh(Groups() - old(Groups()))
      ensures View() == Created(ToSet(cases))
    {
      hide Valid, View, Created, CaseStats;
      NoNames(cases);
      for i := 0 to |cases|
        invariant Valid() && fresh(Groups() - old(Groups()))
        invariant View() == Created(ToSet(cases[..i]))
      {
        var group := EnsureCase(cases[i]);
        CreatedMore(cases, i);
      }
      assert cases[..|cases|] == cases;
    }

    lemma Holds()
      ensures totals in Groups()
      ensures forall c :: c in byCase ==> byCase[c] in Groups()
      ensures forall k :: k in byKind ==> byKind[k] in Groups()
      ensures Valid() ==> forall k: Kind :: k in byKind && k in View().byKind
    {
    }

    /** The group of a case, made if there is none yet. */
    method EnsureCase(name: string) returns (group: Group)
      requires Valid()
      modifies this`byCase
      ensures Valid() && fresh(Groups() - old(Groups()))
      ensures name in byCase && byCase[name] == group && totals == old(totals) && byKind == old(byKind)
      ensures View() == old(View()).(byCase := old(View()).byCase[name := CaseStats(old(View()), name)])
    {
      if name in byCase {
        group := byCase[name];
        assert View().byCase == old(View()).byCase[name := CaseStats(old(View()), name)];
      } else {
        group := AddCase(name);
      }
    }

    lemma ViewIs()
      ensures View() == Accumulated(totals.View(), Views(byCase), Views(byKind))
    {
      hide Views;
    }

    /** Every group is there already. */
    lemma NothingNew()
      ensures allocated(Groups())
    {
    }

    method AddCase(name: string) returns (group: Group)
      requires Valid() && name !in byCase
      modifies this`byCase
      ensures Valid() && fresh(group) && fresh(Groups() - old(Groups()))
      ensures byCase == old(byCase)[name := group] && totals == old(totals) && byKind == old(byKind)
      ensures View() == old(View()).(byCase := old(View()).byCase[name := EMPTY])
    {
      hide Separate, GroupsOf, Views, View;
      NothingNew();
      ViewIs();
      group := new Group();
      assert Views(byKind) == old(Views(byKind)) && Views(byCase) == old(Views(byCase)) && totals.View() == old(totals.View());
      SeparateMore(totals, byCase, byKind, name, group);
      GroupsMore(totals, byCase, byKind, name, group);
      ViewsMore(byCase, name, group);
      byCase := byCase[name := group];
      ViewIs();
    }

    method RecordTotals(sample: Sample)
      requires Valid()
      modifies totals
      ensures Valid() && Groups() == old(Groups())
      ensures View() == old(View()).(totals := Record(old(View()).totals, sample))
    {
      totals.RecordGroupSample(sample);
      assert View().byCase == old(View()).byCase && View().byKind == old(View()).byKind;
    }

    method RecordCase(name: string, sample: Sample)
      requires Valid() && name in byCase
      modifies byCase[name]
      ensures Valid() && Groups() == old(Groups())
      ensures View() == old(View()).(byCase := old(View()).byCase[name := Record(old(View()).byCase[name], sample)])
    {
      byCase[name].RecordGroupSample(sample);
      assert View().byCase == old(View()).byCase[name := Record(old(View()).byCase[name], sample)];
      assert View().byKind == old(View()).byKind;
    }

    method RecordKind(sample: Sample)
      requires Valid()
      modifies byKind[sample.kind]
      ensures Valid() && Groups() == old(Groups())
      ensures View() == old(View()).(byKind := old(View()).byKind[sample.kind := Record(old(View()).byKind[sample.kind], sample)])
    {
      byKind[sample.kind].RecordGroupSample(sample);
      assert View().byKind == old(View()).byKind[sample.kind := Record(old(View()).byKind[sample.kind], sample)];
      assert View().byCase == old(View()).byCase;
    }

    /** Counts a sample in the totals, under its case and under its kind. */
    method RecordSoakSample(sample: Sample)
      requires Valid()
      modifies this`byCase, Groups()
      ensures Valid() && fresh(Groups() - old(Groups()))
      ensures View() == RecordSample(old(View()), sample)
    {
      hide Valid, View, Record, RecordSample;
      Holds();
      RecordTotals(sample);
      var group := EnsureCase(sample.caseName);
      Holds();
      RecordCase(sample.caseName, sample);
      Holds();
      RecordKind(sample);
      RecordedThrice(old(View()), sample);
    }
  }

  lemma RecordedThrice(a: Accumulated, s: Sample)
    requires s.kind in a.byKind
    ensures
      var b := a.(totals := Record(a.totals, s));
      var c := b.(byCase := b.byCase[s.caseName := CaseStats(b, s.caseName)]);
      var d := c.(byCase := c.byCase[s.caseName := Record(c.byCase[s.caseName], s)]);
      d.(byKind := d.byKind[s.kind := Record(d.byKind[s.kind], s)]) == RecordSample(a, s)
  {
    hide Record;
  }

  lemma NoNames(cases: seq<string>)
    ensures ToSet(cases[..0]) == {}
  {
  }

  lemma CreatedMore(cases: seq<string>, i: nat)
    requires i < |cases|
    ensures Created(ToSet(cases[..i + 1])) ==
      Created(ToSet(cases[..i])).(byCase := Created(ToSet(cases[..i])).byCase[cases[i] := CaseStats(Created(ToSet(cases[..i])), cases[i])])
  {
    assert cases[..i + 1] == cases[..i] + [cases[i]];
    assert ToSet(cases[..i + 1]) == ToSet(cases[..i]) + {cases[i]};
  }

  method CreateSoakAccumulator(cases: seq<string>) returns (accumulator: Accumulator)
    ensures fresh(accumulator) && accumulator.Valid() && fresh(accumulator.Groups())
    ensures accumulator.View() == Created(ToSet(cases))
  {
    hide Created, CaseStats, ToSet;
    hide Accumulator.Valid, Accumulator.View;
    accumulator := NewAccumulator();
    accumulator.AddCases(cases);
  }

  method NewAccumulator() returns (accumulator: Accumulator)
    ensures fresh(accumulator) && accumulator.Valid() && fresh(accumulator.Groups())
    ensures accumulator.View() == Created({})
  {
    hide Created;
    hide Accumulator.Valid, Accumulator.View;
    var all := new Group();
    var kinds := NewKinds();
    accumulator := new Accumulator(all, kinds);
  }

  method NewKinds() returns (kinds: map<Kind, Group>)
    ensures kinds.Keys == KINDS
    ensures forall k :: k in kinds ==> fresh(kinds[k]) && kinds[k].View() == EMPTY
    ensures forall k, l :: k in kinds && l in kinds && k != l ==> kinds[k] != kinds[l]
  {
    var fast := new Group();
    var read := new Group();
    var dynamic := new Group();
    kinds := map[FastRead := fast, Read := read, DynamicPost := dynamic];
  }

  /** Recording every sample in turn leaves the accumulator holding what the samples amount to. */
  method RecordSamples(cases: seq<string>, samples: seq<Sample>) returns (accumulator: Accumulator)
    ensures fresh(accumulator) && accumulator.Valid()
    ensures accumulator.View() == RecordAll(ToSet(cases), samples)
  {
    hide RecordSample, Created, RecordAll, ToSet;
    hide Accumulator.Valid, Accumulator.View;
    accumulator := CreateSoakAccumulator(cases);
    RecordNone(cases);
    assert samples[..0] == [];
    for i := 0 to |samples|
      invariant fresh(accumulator) && accumulator.Valid() && fresh(accumulator.Groups())
      invariant accumulator.View() == RecordAll(ToSet(cases), samples[..i])
    {
      accumulator.RecordSoakSample(samples[i]);
      RecordMore(cases, samples, i);
    }
    assert samples[..|samples|] == samples;
  }

  /** The whole summary of a list of samples. A repeated case name makes one group. */
  method SummarizeSoak(samples: seq<Sample>, round: real -> real) returns (summary: Summary)
    requires IsRounding(round)
    ensures SummaryOf(summary, samples, round)
  {
    hide RecordAll, SummarizesAll, SummaryOf, IsRounding;
    var cases := seq(|samples|, i requires 0 <= i < |samples| => samples[i].caseName);
    var accumulator := RecordSamples(cases, samples);
    summary := SummarizeAccumulated(accumulator.View(), round);
    forall c | c in ToSet(cases)
      ensures exists x :: x in samples && x.caseName == c
    {
      var i :| 0 <= i < |cases| && cases[i] == c;
      assert samples[i] in samples;
    }
    SummaryIsBatch(summary, ToSet(cases), samples, round);
  }

  lemma RecordNone(cases: seq<string>)
    ensures RecordAll(ToSet(cases), []) == Created(ToSet(cases))
  {
  }

  lemma RecordMore(cases: seq<string>, samples: seq<Sample>, i: nat)
    requires i < |samples|
    ensures RecordAll(ToSet(cases), samples[..i + 1]) == RecordSample(RecordAll(ToSet(cases), samples[..i]), samples[i])
  {
    assert samples[..i + 1][..i] == samples[..i];
  }
}
