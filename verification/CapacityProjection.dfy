/** The capacity gate: pilot measurements scaled to the corpus by ceiling division. */
module CapacityProjection {
  import opened Common
  import opened Text

  function Max(a: int, b: int): int { if a >= b then a else b }

  /** `(total * numerator + denominator - 1) // denominator`. */
  function CeilRatio(total: nat, numerator: nat, denominator: nat): nat
    requires denominator > 0
  {
    NatProduct(total, numerator);
    (total * numerator + denominator - 1) / denominator
  }

  lemma NatProduct(a: nat, b: nat)
    ensures a * b >= 0
  {
  }

  /** The least integer that is at least the exact ratio. */
  lemma CeilRatioIsLeast(total: nat, numerator: nat, denominator: nat, k: int)
    requires denominator > 0
    ensures CeilRatio(total, numerator, denominator) <= k <==> total * numerator <= k * denominator
  {
    var x, c := total * numerator, CeilRatio(total, numerator, denominator);
    NatProduct(total, numerator);
    assert x + denominator - 1 == c * denominator + (x + denominator - 1) % denominator;
    assert x <= c * denominator < x + denominator;
    if c <= k { Scaled(c, k, denominator); } else { Scaled(k + 1, c, denominator); }
  }

  lemma Scaled(a: int, b: int, d: nat)
    requires a <= b
    ensures a * d <= b * d
  {
  }

  // ---------- The family map ----------

  datatype InputError =
    | CorpusRequired | CapacityRequired | InputInvalid | HotFreeExceedsTotal | ColdBelowRequired
    | PilotInvalid | PilotExceedsCorpus

  function Sum(sizes: seq<nat>): nat {
    if sizes == [] then 0 else sizes[0] + Sum(sizes[1..])
  }

  function Sizes(families: seq<(string, nat)>): (sizes: seq<nat>)
    ensures |sizes| == |families|
  {
    if families == [] then [] else [families[0].1] + Sizes(families[1..])
  }

  ghost predicate NormalisedFamilies(raw: seq<(string, int)>, families: seq<(string, nat)>) {
    && |families| == |raw|
    && (forall i :: 0 <= i < |raw| ==> families[i] == (Strip(raw[i].0), raw[i].1) && families[i].0 != "")
    && (forall i, j :: 0 <= i < j < |raw| ==> families[i].0 != families[j].0)
  }

  /** The object's members in their own order; the report sorts them by name. */
  method ByteMap(raw: seq<(string, int)>) returns (r: Option<seq<(string, nat)>>)
    ensures r.Some? ==> raw != [] && NormalisedFamilies(raw, r.value) && exists i :: 0 <= i < |raw| && raw[i].1 > 0
    ensures r.None? ==>
              || raw == []
              || (exists i :: 0 <= i < |raw| && (Strip(raw[i].0) == "" || raw[i].1 < 0))
              || (exists i, j :: 0 <= i < j < |raw| && Strip(raw[i].0) == Strip(raw[j].0))
              || (forall i :: 0 <= i < |raw| ==> raw[i].1 <= 0)
  {
    if raw == [] { return None; }
    var families: seq<(string, nat)> := [];
    var names: set<string> := {};
    var positive := false;
    for i := 0 to |raw|
      invariant NormalisedFamilies(raw[..i], families)
      invariant names == set k | 0 <= k < i :: Strip(raw[k].0)
      invariant positive <==> exists k :: 0 <= k < i && raw[k].1 > 0
    {
      var name := Strip(raw[i].0);
      if name == "" { return None; }
      if name in names { return None; }
      if raw[i].1 < 0 { return None; }
      families := families + [(name, raw[i].1)];
      names := names + {name};
      positive := positive || raw[i].1 > 0;
    }
    assert raw[..|raw|] == raw;
    if !positive { return None; }
    return Some(families);
  }

  // ---------- The gate ----------

  datatype Corpus = Corpus(rawBytes: int, sourceIdentity: string)

  datatype Capacity = Capacity(
    hotFree: int, hotTotal: int, coldFree: int, coldRequiredFree: int, hotFloorPercent: real, hotReserve: int)

  datatype Pilot = Pilot(rawBytes: int, warmBytes: int, hotBytes: int, families: seq<(string, nat)>, rows: int,
                         receiptIdentity: string)

  datatype Projection = Projection(hot: nat, hotByFamily: seq<nat>, warm: nat, rows: nat)

  datatype Report =
    | Blocked(error: InputError) | PilotRequired | NoGo(projection: Projection) | Go(projection: Projection)

  predicate CapacityValid(c: Capacity) {
    c.hotFree > 0 && c.hotTotal > 0 && c.coldFree > 0 && c.coldRequiredFree >= 0
    && 0.0 <= c.hotFloorPercent < 100.0 && c.hotReserve >= 0
  }

  /** `families` is what ByteMap returned. */
  predicate PilotValid(p: Pilot) {
    p.rawBytes > 0 && p.warmBytes >= 0 && p.hotBytes > 0 && p.families != [] && p.rows > 0
    && Strip(p.receiptIdentity) != "" && Sum(Sizes(p.families)) == p.hotBytes
  }

  /** The truncated floating-point product of the total and the percentage; any rounding will do. */
  type FloorRule = (int, real) -> int

  function HotFloor(rule: FloorRule, c: Capacity): int { rule(c.hotTotal, c.hotFloorPercent) }

  function HotBudget(rule: FloorRule, c: Capacity): int {
    Max(0, c.hotFree - HotFloor(rule, c) - c.hotReserve)
  }

  function ColdBudget(c: Capacity): int { Max(0, c.coldFree - c.coldRequiredFree) }

  function Scale(corpusRaw: nat, sizes: seq<nat>, pilotRaw: nat): (scaled: seq<nat>)
    requires pilotRaw > 0
    ensures |scaled| == |sizes|
  {
    if sizes == [] then [] else [CeilRatio(corpusRaw, sizes[0], pilotRaw)] + Scale(corpusRaw, sizes[1..], pilotRaw)
  }

  function Evaluate(rule: FloorRule, corpus: Option<Corpus>, capacity: Option<Capacity>, pilot: Option<Pilot>): Report {
    if corpus.None? then Blocked(CorpusRequired)
    else if capacity.None? then Blocked(CapacityRequired)
    else
      var c, k := corpus.value, capacity.value;
      if c.rawBytes <= 0 || Strip(c.sourceIdentity) == "" || !CapacityValid(k) then Blocked(InputInvalid)
      else if k.hotFree > k.hotTotal then Blocked(HotFreeExceedsTotal)
      else if k.coldRequiredFree > k.coldFree then Blocked(ColdBelowRequired)
      else
        match pilot
        case None => PilotRequired
        case Some(p) =>
          if !PilotValid(p) then Blocked(PilotInvalid)
          else if p.rawBytes > c.rawBytes then Blocked(PilotExceedsCorpus)
          else
            var projection := Projection(
              CeilRatio(c.rawBytes, p.hotBytes, p.rawBytes),
              Scale(c.rawBytes, Sizes(p.families), p.rawBytes),
              CeilRatio(c.rawBytes, p.warmBytes, p.rawBytes),
              CeilRatio(c.rawBytes, p.rows, p.rawBytes));
            if projection.hot <= HotBudget(rule, k) && c.rawBytes + projection.warm <= ColdBudget(k)
            then Go(projection) else NoGo(projection)
  }

  // ---------- The parts against the whole ----------

  lemma {:induction false} FamilySums(total: nat, sizes: seq<nat>, denominator: nat)
    requires denominator > 0 && sizes != []
    ensures CeilRatio(total, Sum(sizes), denominator)
            <= Sum(Scale(total, sizes, denominator))
            <= CeilRatio(total, Sum(sizes), denominator) + |sizes| - 1
  {
    var head := sizes[0];
    if |sizes| == 1 {
      assert sizes[1..] == [] && Sum(sizes) == head;
      assert Scale(total, sizes, denominator)[1..] == [];
    } else {
      var rest := Sum(sizes[1..]);
      FamilySums(total, sizes[1..], denominator);
      assert Scale(total, sizes, denominator)[1..] == Scale(total, sizes[1..], denominator);
      CeilSplits(total, head, rest, denominator);
    }
  }

  /** Rounding two parts up separately costs at most one more than rounding their sum. */
  lemma CeilSplits(total: nat, a: nat, b: nat, d: nat)
    requires d > 0
    ensures CeilRatio(total, a + b, d)
            <= CeilRatio(total, a, d) + CeilRatio(total, b, d)
            <= CeilRatio(total, a + b, d) + 1
  {
    var x, y, z := CeilRatio(total, a, d), CeilRatio(total, b, d), CeilRatio(total, a + b, d);
    assert total * (a + b) == total * a + total * b;
    CeilRatioIsLeast(total, a, d, x);
    CeilRatioIsLeast(total, b, d, y);
    CeilRatioIsLeast(total, a + b, d, z);
    CeilRatioIsLeast(total, a, d, x - 1);
    CeilRatioIsLeast(total, b, d, y - 1);
    CeilRatioIsLeast(total, a + b, d, x + y);
    assert (x + y) * d == x * d + y * d;
    assert (x + y - 2) * d == (x - 1) * d + (y - 1) * d;
    if x + y - 2 >= z { Scaled(z, x + y - 2, d); }
  }

  /** The projected families add up to the projected total, plus less than one byte a family. */
  lemma ProjectionConserved(rule: FloorRule, corpus: Option<Corpus>, capacity: Option<Capacity>, pilot: Option<Pilot>)
    requires var r := Evaluate(rule, corpus, capacity, pilot); r.Go? || r.NoGo?
    ensures var p := Evaluate(rule, corpus, capacity, pilot).projection;
            p.hot <= Sum(p.hotByFamily) <= p.hot + |p.hotByFamily| - 1
  {
    FamilySums(corpus.value.rawBytes, Sizes(pilot.value.families), pilot.value.rawBytes);
  }

  /** GO exactly when everything validates and, after the projected import, the hot volume still
      covers floor plus reserve and the cold one its minimum; the budgets' clamping at zero never
      lets an import through. */
  lemma GoIffSpaceRemains(rule: FloorRule, corpus: Corpus, capacity: Capacity, pilot: Pilot)
    requires var r := Evaluate(rule, Some(corpus), Some(capacity), Some(pilot)); r.Go? || r.NoGo?
    ensures var r := Evaluate(rule, Some(corpus), Some(capacity), Some(pilot));
            r.Go? <==>
              && capacity.hotFree - r.projection.hot >= HotFloor(rule, capacity) + capacity.hotReserve
              && capacity.coldFree - corpus.rawBytes - r.projection.warm >= capacity.coldRequiredFree
  {
    CeilRatioIsLeast(corpus.rawBytes, pilot.hotBytes, pilot.rawBytes, 0);
    Positive(corpus.rawBytes, pilot.hotBytes);
  }

  lemma Positive(a: int, b: int)
    requires a > 0 && b > 0
    ensures a * b > 0
  {
  }

  /** GO is kept when the corpus shrinks, as long as it still contains the pilot. */
  lemma GoKeptForSmallerCorpus(rule: FloorRule, corpus: Corpus, smaller: Corpus, capacity: Capacity, pilot: Pilot)
    requires Evaluate(rule, Some(corpus), Some(capacity), Some(pilot)).Go?
    requires pilot.rawBytes <= smaller.rawBytes <= corpus.rawBytes && Strip(smaller.sourceIdentity) != ""
    ensures Evaluate(rule, Some(smaller), Some(capacity), Some(pilot)).Go?
  {
    CeilMonotone(smaller.rawBytes, corpus.rawBytes, pilot.hotBytes, pilot.rawBytes);
    CeilMonotone(smaller.rawBytes, corpus.rawBytes, pilot.warmBytes, pilot.rawBytes);
  }

  lemma CeilMonotone(a: nat, b: nat, numerator: nat, d: nat)
    requires a <= b && d > 0
    ensures CeilRatio(a, numerator, d) <= CeilRatio(b, numerator, d)
  {
    Scaled(a, b, numerator);
    CeilRatioIsLeast(b, numerator, d, CeilRatio(b, numerator, d));
    CeilRatioIsLeast(a, numerator, d, CeilRatio(b, numerator, d));
  }

  // ---------- The report from the inputs alone ----------

  /** What the gate demands of its three inputs. */
  predicate Acceptable(corpus: Corpus, capacity: Capacity, pilot: Pilot) {
    && corpus.rawBytes > 0 && Strip(corpus.sourceIdentity) != ""
    && capacity.hotFree > 0 && capacity.hotTotal >= capacity.hotFree
    && capacity.coldFree > 0 && 0 <= capacity.coldRequiredFree <= capacity.coldFree
    && 0.0 <= capacity.hotFloorPercent < 100.0 && capacity.hotReserve >= 0
    && 0 < pilot.rawBytes <= corpus.rawBytes && pilot.warmBytes >= 0 && pilot.rows > 0
    && Strip(pilot.receiptIdentity) != ""
    && pilot.families != [] && pilot.hotBytes > 0 && pilot.hotBytes == Sum(Sizes(pilot.families))
  }

  lemma {:induction false} SumsAndSizes(a: seq<(string, nat)>, b: seq<(string, nat)>)
    ensures Sum(Sizes(a + b)) == Sum(Sizes(a)) + Sum(Sizes(b))
    ensures |a| == 1 ==> Sum(Sizes(a)) == a[0].1
  {
    if a == [] {
      assert a + b == b;
    } else {
      assert (a + b)[1..] == a[1..] + b;
      SumsAndSizes(a[1..], b);
    }
  }

  /** A projection is made exactly for acceptable inputs; without a pilot, one is asked for. */
  lemma ProjectedIffAcceptable(rule: FloorRule, corpus: Corpus, capacity: Capacity, pilot: Pilot)
    ensures var r := Evaluate(rule, Some(corpus), Some(capacity), Some(pilot));
            (r.Go? || r.NoGo? <==> Acceptable(corpus, capacity, pilot)) && !r.PilotRequired?
    ensures Acceptable(corpus, capacity, pilot) ==>
              Evaluate(rule, Some(corpus), Some(capacity), None) == PilotRequired
  {
  }

  /** Every projected number is the least integer that is not below its exact ratio. */
  lemma ProjectionsAreLeast(rule: FloorRule, corpus: Corpus, capacity: Capacity, pilot: Pilot, k: int)
    requires Acceptable(corpus, capacity, pilot)
    ensures var r := Evaluate(rule, Some(corpus), Some(capacity), Some(pilot));
            && (r.Go? || r.NoGo?)
            && var p := r.projection;
               && (p.hot <= k <==> corpus.rawBytes * pilot.hotBytes <= k * pilot.rawBytes)
               && (p.warm <= k <==> corpus.rawBytes * pilot.warmBytes <= k * pilot.rawBytes)
               && (p.rows <= k <==> corpus.rawBytes * pilot.rows <= k * pilot.rawBytes)
               && |p.hotByFamily| == |pilot.families|
               && forall i :: 0 <= i < |pilot.families| ==>
                    (p.hotByFamily[i] <= k <==> corpus.rawBytes * pilot.families[i].1 <= k * pilot.rawBytes)
  {
    hide CeilRatio, Scale, Sizes, Sum;
    CeilRatioIsLeast(corpus.rawBytes, pilot.hotBytes, pilot.rawBytes, k);
    CeilRatioIsLeast(corpus.rawBytes, pilot.warmBytes, pilot.rawBytes, k);
    CeilRatioIsLeast(corpus.rawBytes, pilot.rows, pilot.rawBytes, k);
    SizesAre(pilot.families);
    forall i | 0 <= i < |pilot.families|
      ensures Scale(corpus.rawBytes, Sizes(pilot.families), pilot.rawBytes)[i] <= k <==>
                corpus.rawBytes * pilot.families[i].1 <= k * pilot.rawBytes
    {
      ScaleAt(corpus.rawBytes, Sizes(pilot.families), pilot.rawBytes, i);
      CeilRatioIsLeast(corpus.rawBytes, pilot.families[i].1, pilot.rawBytes, k);
    }
  }

  lemma {:induction false} SizesAre(families: seq<(string, nat)>)
    ensures |Sizes(families)| == |families| && forall i :: 0 <= i < |families| ==> Sizes(families)[i] == families[i].1
  {
    if families != [] { SizesAre(families[1..]); }
  }

  lemma {:induction false} ScaleAt(total: nat, sizes: seq<nat>, denominator: nat, i: nat)
    requires denominator > 0 && i < |sizes|
    ensures |Scale(total, sizes, denominator)| == |sizes|
    ensures Scale(total, sizes, denominator)[i] == CeilRatio(total, sizes[i], denominator)
  {
    if i > 0 { ScaleAt(total, sizes[1..], denominator, i - 1); }
  }

  /** GO exactly when the exact ratios fit: the hot data into what floor and reserve leave, and the
      corpus with its warm data into what the cold minimum leaves. */
  lemma GoFromInputs(rule: FloorRule, corpus: Corpus, capacity: Capacity, pilot: Pilot)
    requires Acceptable(corpus, capacity, pilot)
    ensures var floor := rule(capacity.hotTotal, capacity.hotFloorPercent);
            Evaluate(rule, Some(corpus), Some(capacity), Some(pilot)).Go? <==>
              && corpus.rawBytes * pilot.hotBytes
                 <= (capacity.hotFree - floor - capacity.hotReserve) * pilot.rawBytes
              && corpus.rawBytes * pilot.warmBytes
                 <= (capacity.coldFree - capacity.coldRequiredFree - corpus.rawBytes) * pilot.rawBytes
  {
    hide CeilRatio, Scale, Sizes, Sum;
    var floor := rule(capacity.hotTotal, capacity.hotFloorPercent);
    CeilRatioIsLeast(corpus.rawBytes, pilot.hotBytes, pilot.rawBytes, capacity.hotFree - floor - capacity.hotReserve);
    CeilRatioIsLeast(corpus.rawBytes, pilot.warmBytes, pilot.rawBytes,
                     capacity.coldFree - capacity.coldRequiredFree - corpus.rawBytes);
    CeilRatioIsLeast(corpus.rawBytes, pilot.hotBytes, pilot.rawBytes, 0);
    Positive(corpus.rawBytes, pilot.hotBytes);
  }
}
