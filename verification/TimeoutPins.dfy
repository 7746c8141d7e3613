/** Deadlines derived from pinned file durations, and the pin reported for a file above the cost ceiling. */
module TimeoutPins {
  // Costs and pins are whole milliseconds; the factor is 1.5, so ceilings are taken of halves and thirds.

  import opened Basics

  const FILE_COST_CEILING := 120000
  const FLAT := 10000
  const FLAT_COVERAGE := 30000

  function Max(a: int, b: int): int { if a < b then b else a }

  /** `Math.ceil(pin * 1.5)`. */
  function Budget(pin: nat): nat { (3 * pin + 1) / 2 }

  /** The pins of the two lanes. A file's key is its path or, where the manifest must not spell it, its digest. */
  datatype Sections = Sections(product: map<string, nat>, tooling: map<string, nat>)

  predicate Holds(section: map<string, nat>, key: string) { key in section && section[key] > 0 }

  /** A section's pin of a file: the one under its path before the one under its digest; zero is no pin. */
  function Pinned(section: map<string, nat>, path: string, digestKey: string -> string): Option<nat> {
    if Holds(section, path) then Some(section[path])
    else if Holds(section, digestKey(path)) then Some(section[digestKey(path)])
    else None
  }

  /** The larger of two pins, as far as there are any. */
  function Larger(a: Option<nat>, b: Option<nat>): Option<nat> {
    if a.None? then b else if b.None? then a else Some(Max(a.value, b.value))
  }

  /** The pin of a file, whichever lane weighed it. */
  function PinOf(pins: Sections, path: string, digestKey: string -> string): Option<nat> {
    Larger(Pinned(pins.product, path, digestKey), Pinned(pins.tooling, path, digestKey))
  }

  function DeriveTestTimeout(pin: Option<nat>, flat: nat): nat {
    match pin
    case None => flat
    case Some(p) => Max(flat, Budget(p))
  }

  predicate PinCovers(pin: Option<nat>, cost: nat, flat: nat) { DeriveTestTimeout(pin, flat) >= cost }

  /** `Math.ceil(cost / 1.5)`. */
  function CoveringPin(cost: nat): nat { (2 * cost + 2) / 3 }

  datatype CostEntry = CostEntry(path: string, cost: nat)

  datatype Breach = Breach(path: string, cost: nat, budget: nat, coveringPin: nat)

  predicate Breaches(entry: CostEntry, pins: Sections, digestKey: string -> string, flat: nat) {
    entry.cost > FILE_COST_CEILING && !PinCovers(PinOf(pins, entry.path, digestKey), entry.cost, flat)
  }

  /** Costs too high for one file without a pin to explain them, listed as they came. */
  function CeilingBreaches(entries: seq<CostEntry>, pins: Sections, digestKey: string -> string, flat: nat): seq<Breach>
    decreases |entries|
  {
    if entries == [] then []
    else
      var e := entries[0];
      (if Breaches(e, pins, digestKey, flat)
       then [Breach(e.path, e.cost, DeriveTestTimeout(PinOf(pins, e.path, digestKey), flat), CoveringPin(e.cost))] else [])
      + CeilingBreaches(entries[1..], pins, digestKey, flat)
  }

  /** For a cost above both flat floors, a pin covers it exactly if its budget alone does, which needs more than two
  thirds of the cost less a millisecond. */
  lemma CoversExactly(cost: nat, flat: nat, pin: nat)
    requires cost > FILE_COST_CEILING && (flat == FLAT || flat == FLAT_COVERAGE)
    ensures PinCovers(Some(pin), cost, flat) <==> 3 * pin > 2 * (cost - 1)
  {
  }

  /** The reported pin covers the cost, and no pin two lower does. */
  lemma CoveringPinCovers(cost: nat, flat: nat, pin: nat)
    requires cost > FILE_COST_CEILING && (flat == FLAT || flat == FLAT_COVERAGE)
    ensures pin >= CoveringPin(cost) ==> PinCovers(Some(pin), cost, flat)
    ensures pin + 2 <= CoveringPin(cost) ==> !PinCovers(Some(pin), cost, flat)
  {
    CoversExactly(cost, flat, pin);
  }

  /** The reported pin is the smallest that covers the cost exactly if the cost is not two more than a multiple of
  three; then it is one too high. */
  lemma CoveringPinSmallest(cost: nat, flat: nat)
    requires cost > FILE_COST_CEILING && (flat == FLAT || flat == FLAT_COVERAGE)
    ensures (forall pin: nat :: PinCovers(Some(pin), cost, flat) ==> CoveringPin(cost) <= pin) <==> cost % 3 != 2
    ensures cost % 3 == 2 ==> PinCovers(Some(CoveringPin(cost) - 1), cost, flat)
  {
    var p := CoveringPin(cost);
    CoversExactly(cost, flat, p - 1);
    if cost % 3 != 2 {
      forall pin: nat | PinCovers(Some(pin), cost, flat)
        ensures p <= pin
      {
        CoversExactly(cost, flat, pin);
      }
    }
  }

  /** Every reported breach is a cost that no pin explains; every such cost is reported, with the budget its file has. */
  lemma {:induction false} BreachesExactly(entries: seq<CostEntry>, pins: Sections, digestKey: string -> string, flat: nat, breach: Breach)
    ensures breach in CeilingBreaches(entries, pins, digestKey, flat) <==>
      && breach.budget == DeriveTestTimeout(PinOf(pins, breach.path, digestKey), flat) && breach.coveringPin == CoveringPin(breach.cost)
      && exists e :: e in entries && e == CostEntry(breach.path, breach.cost) && Breaches(e, pins, digestKey, flat)
    ensures breach in CeilingBreaches(entries, pins, digestKey, flat) ==> breach.budget < breach.cost
    decreases |entries|
  {
    hide DeriveTestTimeout, PinOf, CoveringPin;
    if entries != [] {
      var e, rest := entries[0], entries[1..];
      assert entries == [e] + rest;
      BreachesExactly(rest, pins, digestKey, flat, breach);
    }
  }

  /** A pin among others covers what it covers alone. */
  lemma LargerCovers(a: nat, b: Option<nat>, cost: nat, flat: nat)
    requires PinCovers(Some(a), cost, flat)
    ensures PinCovers(Larger(Some(a), b), cost, flat) && PinCovers(Larger(b, Some(a)), cost, flat)
  {
  }

  /** Setting the reported pin under the path explains the breach, in either section; setting it under the digest does
  so exactly if that section has no pin under the path, which would be read first. */
  lemma BreachExplained(e: CostEntry, pins: Sections, digestKey: string -> string, flat: nat)
    requires (flat == FLAT || flat == FLAT_COVERAGE) && Breaches(e, pins, digestKey, flat)
    ensures
      var pin, digest := CoveringPin(e.cost), digestKey(e.path);
      && PinCovers(PinOf(pins.(product := pins.product[e.path := pin]), e.path, digestKey), e.cost, flat)
      && PinCovers(PinOf(pins.(tooling := pins.tooling[e.path := pin]), e.path, digestKey), e.cost, flat)
      && (PinCovers(PinOf(pins.(product := pins.product[digest := pin]), e.path, digestKey), e.cost, flat) <==>
            digest == e.path || !Holds(pins.product, e.path))
      && (PinCovers(PinOf(pins.(tooling := pins.tooling[digest := pin]), e.path, digestKey), e.cost, flat) <==>
            digest == e.path || !Holds(pins.tooling, e.path))
  {
    var pin := CoveringPin(e.cost);
    assert pin > 0;
    CoveringPinCovers(e.cost, flat, pin);
    LargerCovers(pin, Pinned(pins.product, e.path, digestKey), e.cost, flat);
    LargerCovers(pin, Pinned(pins.tooling, e.path, digestKey), e.cost, flat);
    hide PinCovers, Larger, CoveringPin;
  }
}
