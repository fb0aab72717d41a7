/** Sharing attention among the subsystems: a pattern for the focus, three adjustments, conservation. */
module Attention {

  datatype Subsystem = ConsciousnessCore | BrainSystem | EvolutionLoop | ToolSystem | ConversationSystem | EconomySystem

  type Shares = map<Subsystem, real>

  datatype Focus = SystemMonitoring | ChainProcessing | Exploration | Conversation | Reflection | ResourceManagement | FreeExploration | Unknown

  datatype Factors = Factors(mentalEnergy: real, curiosity: real, overallReadiness: real)
  datatype Situation = Situation(cortisol: real, activeChains: real)

  const MAX_SHARE := 0.7

  function Share(a: Shares, k: Subsystem): real {
    if k in a then a[k] else 0.0
  }

  /** `sum(a.values())` */
  function Total(a: Shares): real {
    Share(a, ConsciousnessCore) + Share(a, BrainSystem) + Share(a, EvolutionLoop)
    + Share(a, ToolSystem) + Share(a, ConversationSystem) + Share(a, EconomySystem)
  }

  function Min(x: real, y: real): real {
    if y < x then y else x
  }

  function Max(x: real, y: real): real {
    if y > x then y else x
  }

  function Pattern(focus: Focus): Shares {
    match focus
    case SystemMonitoring => map[EvolutionLoop := 0.4, BrainSystem := 0.3, ConsciousnessCore := 0.3]
    case ChainProcessing => map[BrainSystem := 0.6, ConsciousnessCore := 0.3, EvolutionLoop := 0.1]
    case Exploration => map[BrainSystem := 0.5, ConsciousnessCore := 0.3, ToolSystem := 0.2]
    case Conversation => map[BrainSystem := 0.5, ConversationSystem := 0.3, ConsciousnessCore := 0.2]
    case Reflection => map[ConsciousnessCore := 0.7, BrainSystem := 0.3]
    case ResourceManagement => map[EconomySystem := 0.5, BrainSystem := 0.3, ConsciousnessCore := 0.2]
    case FreeExploration => map[BrainSystem := 0.4, ConsciousnessCore := 0.4, EvolutionLoop := 0.2]
    case Unknown => map[ConsciousnessCore := 0.4, BrainSystem := 0.4, EvolutionLoop := 0.2]
  }

  function WithEnergy(a: Shares, energy: real): Shares {
    if BrainSystem !in a then a
    else if energy > 0.7 then a[BrainSystem := Min(0.8, a[BrainSystem] * 1.2)]
    else if energy < 0.4 then a[BrainSystem := a[BrainSystem] * 0.7]
    else a
  }

  function WithCuriosity(a: Shares, curiosity: real): Shares {
    if curiosity > 0.7 && ToolSystem in a then a[ToolSystem := Min(0.4, a[ToolSystem] * 1.3)] else a
  }

  function ScaledOthers(a: Shares, factor: real): Shares {
    map k | k in a :: if k == ConsciousnessCore then a[k] else a[k] * factor
  }

  function WithReadiness(a: Shares, readiness: real): Shares {
    if readiness < 0.5 then ScaledOthers(a[ConsciousnessCore := Max(0.5, Share(a, ConsciousnessCore) + 0.2)], 0.8) else a
  }

  function ForFactors(a: Shares, f: Factors): Shares {
    WithReadiness(WithCuriosity(WithEnergy(a, f.mentalEnergy), f.curiosity), f.overallReadiness)
  }

  function Normalised(a: Shares): Shares {
    if Total(a) > 0.0 then map k | k in a :: a[k] / Total(a) else a
  }

  function Demanded(a: Shares, s: Situation): Shares {
    var b := if s.cortisol > 0.6 then a[ConsciousnessCore := Min(Share(a, ConsciousnessCore) + 0.2, 0.8)] else a;
    if s.activeChains > 0.0 then b[BrainSystem := Max(Share(b, BrainSystem), 0.4)] else b
  }

  function ForSituation(a: Shares, s: Situation): Shares {
    Normalised(Demanded(a, s))
  }

  function Capped(a: Shares): Shares {
    map k | k in a :: Min(MAX_SHARE, a[k])
  }

  function Conserved(a: Shares): Shares {
    var c := Capped(a);
    if Total(c) < Total(a) then c[ConsciousnessCore := Share(c, ConsciousnessCore) + (Total(a) - Total(c))] else c
  }

  function Distributed(focus: Focus, f: Factors, s: Situation): Shares {
    Normalised(Conserved(ForSituation(ForFactors(Pattern(focus), f), s)))
  }

  /** The allocator object keeps the last result. */
  class AttentionAllocator {
    var currentAllocations: Shares

    constructor ()
      ensures currentAllocations == map[]
    {
      currentAllocations := map[];
    }

    method DistributeAttention(focus: Focus, f: Factors, s: Situation) returns (final: Shares)
      modifies this
      ensures final == currentAllocations == Distributed(focus, f, s)
    {
      var adjusted := AdjustForConsciousnessFactors(Pattern(focus), f);
      adjusted := AdjustForSystemState(adjusted, s);
      final := ApplyAttentionConservation(adjusted);
      var total := Total(final);
      if total > 0.0 {
        final := map k | k in final :: final[k] / total;
      }
      currentAllocations := final;
    }

    method AdjustForConsciousnessFactors(allocations: Shares, f: Factors) returns (adjusted: Shares)
      ensures adjusted == ForFactors(allocations, f)
    {
      adjusted := allocations;
      if f.mentalEnergy > 0.7 {
        if BrainSystem in adjusted {
          adjusted := adjusted[BrainSystem := Min(0.8, adjusted[BrainSystem] * 1.2)];
        }
      } else if f.mentalEnergy < 0.4 {
        if BrainSystem in adjusted {
          adjusted := adjusted[BrainSystem := adjusted[BrainSystem] * 0.7];
        }
      }
      if f.curiosity > 0.7 {
        if ToolSystem in adjusted {
          adjusted := adjusted[ToolSystem := Min(0.4, adjusted[ToolSystem] * 1.3)];
        }
      }
      if f.overallReadiness < 0.5 {
        adjusted := adjusted[ConsciousnessCore := Max(0.5, Share(adjusted, ConsciousnessCore) + 0.2)];
        adjusted := ReduceOthers(adjusted, 0.8);
      }
    }

    method ReduceOthers(allocations: Shares, factor: real) returns (adjusted: Shares)
      ensures adjusted == ScaledOthers(allocations, factor)
    {
      adjusted := allocations;
      var others := set k | k in allocations && k != ConsciousnessCore;
      while others != {}
        invariant adjusted.Keys == allocations.Keys && ConsciousnessCore !in others && others <= allocations.Keys
        invariant forall k | k in allocations :: adjusted[k] == if k == ConsciousnessCore || k in others then allocations[k] else allocations[k] * factor
        decreases others
      {
        var key :| key in others;
        adjusted := adjusted[key := adjusted[key] * factor];
        others := others - {key};
      }
      ghost var scaled := ScaledOthers(allocations, factor);
      assert adjusted.Keys == scaled.Keys;
      assert forall k | k in allocations :: adjusted[k] == scaled[k];
      assert adjusted == scaled;
    }

    method AdjustForSystemState(allocations: Shares, s: Situation) returns (adjusted: Shares)
      ensures adjusted == ForSituation(allocations, s)
    {
      adjusted := allocations;
      if s.cortisol > 0.6 {
        adjusted := adjusted[ConsciousnessCore := Min(Share(adjusted, ConsciousnessCore) + 0.2, 0.8)];
      }
      if s.activeChains > 0.0 {
        adjusted := adjusted[BrainSystem := Max(Share(adjusted, BrainSystem), 0.4)];
      }
      var total := Total(adjusted);
      if total > 0.0 {
        adjusted := map k | k in adjusted :: adjusted[k] / total;
      }
    }

    method ApplyAttentionConservation(allocations: Shares) returns (conserved: Shares)
      ensures conserved == Conserved(allocations)
    {
      conserved := map[];
      var todo := allocations.Keys;
      while todo != {}
        invariant todo <= allocations.Keys && conserved.Keys == allocations.Keys - todo
        invariant forall k | k in conserved :: conserved[k] == Min(MAX_SHARE, allocations[k])
        decreases todo
      {
        var subsystem :| subsystem in todo;
        conserved := conserved[subsystem := Min(MAX_SHARE, allocations[subsystem])];
        todo := todo - {subsystem};
      }
      assert conserved == Capped(allocations);
      var totalBefore, totalAfter := Total(allocations), Total(conserved);
      if totalAfter < totalBefore {
        conserved := conserved[ConsciousnessCore := Share(conserved, ConsciousnessCore) + (totalBefore - totalAfter)];
      }
    }
  }

  // ----- conservation -----

  /** Conservation keeps the total, and caps every subsystem but the core, which gets all that is cut off. */
  lemma ConservationKeepsTotal(a: Shares)
    ensures Total(Conserved(a)) == Total(a)
    ensures forall k | k != ConsciousnessCore :: Share(Conserved(a), k) == (if k in a then Min(MAX_SHARE, a[k]) else 0.0)
  {
  }

  /** So the cap holds for every subsystem, the core included, exactly when the core's share going in is
      within it: the core's own excess is handed straight back to it. */
  lemma CapHoldsExactly(a: Shares)
    requires Total(a) == 1.0 && forall k | k in a :: a[k] >= 0.0
    ensures (forall k | k in Conserved(a) :: Conserved(a)[k] <= MAX_SHARE) <==> Share(a, ConsciousnessCore) <= MAX_SHARE
  {
    ConservationKeepsTotal(a);
  }

  /** Conservation leaves shares alone exactly when no subsystem but the core is above the cap. */
  lemma ConservationIsIdleExactly(a: Shares)
    requires forall k | k in a :: a[k] >= 0.0
    ensures Conserved(a) == a <==> forall k | k in a && k != ConsciousnessCore :: a[k] <= MAX_SHARE
  {
  }

  // ----- normalising -----

  lemma QuotientBounds(x: real, t: real, c: real)
    requires t > 0.0
    ensures x / t <= c <==> x <= c * t
    ensures x / t >= c <==> x >= c * t
  {
  }

  lemma ShareOfNormalised(a: Shares, k: Subsystem)
    requires Total(a) > 0.0
    ensures Share(Normalised(a), k) == Share(a, k) / Total(a)
  {
  }

  lemma QuotientsAddUp(x0: real, x1: real, x2: real, x3: real, x4: real, x5: real, t: real)
    requires t > 0.0 && x0 + x1 + x2 + x3 + x4 + x5 == t
    ensures x0 / t + x1 / t + x2 / t + x3 / t + x4 / t + x5 / t == 1.0
  {
  }

  lemma NormalisedAddsUp(a: Shares)
    requires Total(a) > 0.0
    ensures Total(Normalised(a)) == 1.0
  {
    hide Normalised, Share;
    forall k
      ensures Share(Normalised(a), k) == Share(a, k) / Total(a)
    {
      ShareOfNormalised(a, k);
    }
    QuotientsAddUp(Share(a, ConsciousnessCore), Share(a, BrainSystem), Share(a, EvolutionLoop),
                   Share(a, ToolSystem), Share(a, ConversationSystem), Share(a, EconomySystem), Total(a));
  }

  lemma NormalisedTwice(a: Shares)
    requires Total(a) == 1.0
    ensures Normalised(a) == a
  {
  }

  // ----- what is demanded for each focus -----

  /** Reflecting without active chains, with little readiness or energy, or with stress and no high energy. */
  predicate CoreTakesOver(focus: Focus, f: Factors, s: Situation) {
    && focus == Reflection && s.activeChains <= 0.0
    && (f.overallReadiness < 0.5 || f.mentalEnergy < 0.4 || (s.cortisol > 0.6 && f.mentalEnergy <= 0.7))
  }

  function Demand(focus: Focus, f: Factors, s: Situation): Shares {
    Demanded(ForFactors(Pattern(focus), f), s)
  }

  ghost predicate Bounded(a: Shares, s: Situation) {
    && Total(a) > 0.0 && (forall k :: Share(a, k) >= 0.0)
    && (forall k | k != ConsciousnessCore :: Share(a, k) <= MAX_SHARE * Total(a))
    && (s.activeChains > 0.0 ==> 15.0 * Share(a, BrainSystem) >= 4.0 * Total(a))
  }

  lemma FactorsInNumbers(a: Shares, f: Factors)
    requires BrainSystem in a
    ensures var d, r := ForFactors(a, f), f.overallReadiness;
            && Share(d, BrainSystem) == Reduced(WithOwnEnergy(a[BrainSystem], f.mentalEnergy), r)
            && Share(d, ConsciousnessCore) == (if r < 0.5 then Max(0.5, Share(a, ConsciousnessCore) + 0.2) else Share(a, ConsciousnessCore))
            && Share(d, ToolSystem) == Reduced(if f.curiosity > 0.7 then Min(0.4, Share(a, ToolSystem) * 1.3) else Share(a, ToolSystem), r)
            && forall k | k in {EvolutionLoop, ConversationSystem, EconomySystem} :: Share(d, k) == Reduced(Share(a, k), r)
  {
  }

  /** What each subsystem demands, number by number. */
  lemma DemandInNumbers(focus: Focus, f: Factors, s: Situation)
    ensures var p, d, r := Pattern(focus), Demand(focus, f, s), f.overallReadiness;
            && Share(d, BrainSystem) == BrainDemand(Share(p, BrainSystem), f.mentalEnergy, r, s.activeChains)
            && Share(d, ConsciousnessCore) == CoreDemand(Share(p, ConsciousnessCore), r, s.cortisol)
            && Share(d, ToolSystem) == Reduced(if f.curiosity > 0.7 then Min(0.4, Share(p, ToolSystem) * 1.3) else Share(p, ToolSystem), r)
            && forall k | k in {EvolutionLoop, ConversationSystem, EconomySystem} :: Share(d, k) == Reduced(Share(p, k), r)
  {
    hide Min, Max, Reduced, WithOwnEnergy, ForFactors;
    assert BrainSystem in Pattern(focus);
    FactorsInNumbers(Pattern(focus), f);
  }

  function WithOwnEnergy(base: real, energy: real): real {
    if energy > 0.7 then Min(0.8, base * 1.2) else if energy < 0.4 then base * 0.7 else base
  }

  function Reduced(x: real, readiness: real): real {
    if readiness < 0.5 then x * 0.8 else x
  }

  function BrainDemand(base: real, energy: real, readiness: real, chains: real): real {
    var b := Reduced(WithOwnEnergy(base, energy), readiness);
    if chains > 0.0 then Max(b, 0.4) else b
  }

  function CoreDemand(base: real, readiness: real, cortisol: real): real {
    var c := if readiness < 0.5 then Max(0.5, base + 0.2) else base;
    if cortisol > 0.6 then Min(c + 0.2, 0.8) else c
  }

  lemma DemandIsBounded(focus: Focus, f: Factors, s: Situation)
    ensures Bounded(Demand(focus, f, s), s)
    ensures Share(Demand(focus, f, s), ConsciousnessCore) > MAX_SHARE * Total(Demand(focus, f, s)) <==> CoreTakesOver(focus, f, s)
  {
    hide Demand;
    DemandInNumbers(focus, f, s);
    var d := Demand(focus, f, s);
    assert Share(d, EvolutionLoop) == Reduced(Share(Pattern(focus), EvolutionLoop), f.overallReadiness);
    assert Share(d, ConversationSystem) == Reduced(Share(Pattern(focus), ConversationSystem), f.overallReadiness);
    assert Share(d, EconomySystem) == Reduced(Share(Pattern(focus), EconomySystem), f.overallReadiness);
    forall k
      ensures Share(d, k) >= 0.0 && (k != ConsciousnessCore ==> Share(d, k) <= MAX_SHARE * Total(d))
    {
      match k
      case ConsciousnessCore =>
      case BrainSystem =>
      case EvolutionLoop =>
      case ToolSystem =>
      case ConversationSystem =>
      case EconomySystem =>
    }
  }

  lemma NormalisedIsBounded(a: Shares, s: Situation)
    requires Bounded(a, s)
    ensures var n := Normalised(a);
            && Total(n) == 1.0 && (forall k | k in n :: n[k] >= 0.0) && (forall k | k in n && k != ConsciousnessCore :: n[k] <= MAX_SHARE)
            && (s.activeChains > 0.0 ==> 15.0 * Share(n, BrainSystem) >= 4.0)
            && (Share(n, ConsciousnessCore) > MAX_SHARE <==> Share(a, ConsciousnessCore) > MAX_SHARE * Total(a))
  {
    hide Normalised, Share, Total;
    NormalisedAddsUp(a);
    forall k
      ensures Share(Normalised(a), k) >= 0.0 && (k != ConsciousnessCore ==> Share(Normalised(a), k) <= MAX_SHARE)
    {
      ShareOfNormalised(a, k);
      QuotientBounds(Share(a, k), Total(a), 0.0);
      QuotientBounds(Share(a, k), Total(a), MAX_SHARE);
    }
    ShareOfNormalised(a, ConsciousnessCore);
    QuotientBounds(Share(a, ConsciousnessCore), Total(a), MAX_SHARE);
    ShareOfNormalised(a, BrainSystem);
    QuotientBounds(Share(a, BrainSystem), Total(a), 4.0 / 15.0);
    SharesAreValues(Normalised(a));
  }

  lemma SharesAreValues(a: Shares)
    ensures forall k | k in a :: Share(a, k) == a[k]
  {
  }

  lemma DemandKeepsKeys(focus: Focus, f: Factors, s: Situation)
    ensures Demand(focus, f, s).Keys == Pattern(focus).Keys
  {
  }

  /** For every focus and all inputs: the final shares go to the subsystems of the pattern, are non-negative
      and add up to 1; all but the core's are at most 0.7; with active chains the brain system has at least
      4/15; the core is above 0.7 exactly when it takes over, since conservation never changes anything. */
  lemma AttentionIsWellShared(focus: Focus, f: Factors, s: Situation)
    ensures var a := Distributed(focus, f, s);
            && a.Keys == Pattern(focus).Keys && Total(a) == 1.0 && (forall k | k in a :: a[k] >= 0.0)
            && (forall k | k in a && k != ConsciousnessCore :: a[k] <= MAX_SHARE)
            && (s.activeChains > 0.0 ==> 15.0 * Share(a, BrainSystem) >= 4.0)
            && (Share(a, ConsciousnessCore) > MAX_SHARE <==> CoreTakesOver(focus, f, s))
            && a == ForSituation(ForFactors(Pattern(focus), f), s)
  {
    hide Demanded, ForFactors, Pattern, Conserved, Total, Share, Bounded, CoreTakesOver;
    DemandIsBounded(focus, f, s);
    NormalisedIsBounded(Demand(focus, f, s), s);
    ConservationIsIdleExactly(Normalised(Demand(focus, f, s)));
    NormalisedTwice(Normalised(Demand(focus, f, s)));
    DemandKeepsKeys(focus, f, s);
  }

  /** Reflecting with little readiness and nothing else going on: the core ends up with 90 parts of 114, cap
      or no cap. */
  lemma ReflectionPassesTheCap()
    ensures var a := Distributed(Reflection, Factors(0.5, 0.5, 0.4), Situation(0.0, 0.0));
            Share(a, ConsciousnessCore) == 90.0 / 114.0 && Share(a, ConsciousnessCore) > MAX_SHARE
  {
    hide Distributed;
    var f, s := Factors(0.5, 0.5, 0.4), Situation(0.0, 0.0);
    var d := Demand(Reflection, f, s);
    AttentionIsWellShared(Reflection, f, s);
    DemandInNumbers(Reflection, f, s);
    assert Share(d, BrainSystem) == 0.24 && Share(d, ConsciousnessCore) == 0.9;
    assert Total(d) == 1.14;
    ShareOfNormalised(d, ConsciousnessCore);
  }
}
