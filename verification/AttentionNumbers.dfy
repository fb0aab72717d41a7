/** The final shares of attention as numbers: what each subsystem is given for each focus, and how the factors and the
    situation change it. */
module AttentionNumbers {
  import opened Attention

  /** What a subsystem starts from. */
  function Base(k: Subsystem, focus: Focus): real {
    match k
    case ConsciousnessCore =>
      (match focus
       case Reflection => 0.7
       case FreeExploration => 0.4
       case Unknown => 0.4
       case Conversation => 0.2
       case ResourceManagement => 0.2
       case _ => 0.3)
    case BrainSystem =>
      (match focus
       case ChainProcessing => 0.6
       case Exploration => 0.5
       case Conversation => 0.5
       case FreeExploration => 0.4
       case Unknown => 0.4
       case _ => 0.3)
    case EvolutionLoop =>
      if focus == SystemMonitoring then 0.4 else if focus == FreeExploration || focus == Unknown then 0.2
      else if focus == ChainProcessing then 0.1 else 0.0
    case ToolSystem => if focus == Exploration then 0.2 else 0.0
    case ConversationSystem => if focus == Conversation then 0.3 else 0.0
    case EconomySystem => if focus == ResourceManagement then 0.5 else 0.0
  }

  /** With little readiness all but the core get a fifth less. */
  function Damped(x: real, f: Factors): real {
    if f.overallReadiness < 0.5 then x - x / 5.0 else x
  }

  /** The core gets a fifth more of the whole, half at least, with little readiness, and with stress a fifth more again,
      up to four fifths. */
  function CoreWeight(focus: Focus, f: Factors, s: Situation): real {
    var base := Base(ConsciousnessCore, focus);
    var ready := if f.overallReadiness >= 0.5 then base else if base < 0.3 then 0.5 else base + 0.2;
    if s.cortisol <= 0.6 then ready else if ready > 0.6 then 0.8 else ready + 0.2
  }

  /** The brain gets a fifth more with much energy, up to four fifths, three tenths less with little; with active chains
      two fifths at least. */
  function BrainWeight(focus: Focus, f: Factors, s: Situation): real {
    var base := Base(BrainSystem, focus);
    var able := if f.mentalEnergy > 0.7 then (if base > 2.0 / 3.0 then 0.8 else base + base / 5.0)
                else if f.mentalEnergy < 0.4 then base - 3.0 * base / 10.0 else base;
    if s.activeChains > 0.0 && Damped(able, f) < 0.4 then 0.4 else Damped(able, f)
  }

  /** The tools get three tenths more with much curiosity, which never takes them to two fifths. */
  function ToolWeight(focus: Focus, f: Factors): real {
    var base := Base(ToolSystem, focus);
    Damped(if f.curiosity > 0.7 then base + 3.0 * base / 10.0 else base, f)
  }

  function Weight(k: Subsystem, focus: Focus, f: Factors, s: Situation): real {
    match k
    case ConsciousnessCore => CoreWeight(focus, f, s)
    case BrainSystem => BrainWeight(focus, f, s)
    case ToolSystem => ToolWeight(focus, f)
    case _ => Damped(Base(k, focus), f)
  }

  function AllWeights(focus: Focus, f: Factors, s: Situation): real {
    Weight(ConsciousnessCore, focus, f, s) + Weight(BrainSystem, focus, f, s) + Weight(EvolutionLoop, focus, f, s)
    + Weight(ToolSystem, focus, f, s) + Weight(ConversationSystem, focus, f, s) + Weight(EconomySystem, focus, f, s)
  }

  lemma BaseIsPattern(k: Subsystem, focus: Focus)
    ensures Share(Pattern(focus), k) == Base(k, focus)
  {
  }

  lemma DemandIsWeight(k: Subsystem, focus: Focus, f: Factors, s: Situation)
    ensures Share(Demand(focus, f, s), k) == Weight(k, focus, f, s)
  {
    hide Demand, Pattern;
    DemandInNumbers(focus, f, s);
    BaseIsPattern(k, focus);
  }

  lemma WeightsAddUp(focus: Focus, f: Factors, s: Situation)
    ensures Total(Demand(focus, f, s)) == AllWeights(focus, f, s) && AllWeights(focus, f, s) > 0.0
  {
    hide Demand, Share, Weight;
    DemandIsWeight(ConsciousnessCore, focus, f, s);
    DemandIsWeight(BrainSystem, focus, f, s);
    DemandIsWeight(EvolutionLoop, focus, f, s);
    DemandIsWeight(ToolSystem, focus, f, s);
    DemandIsWeight(ConversationSystem, focus, f, s);
    DemandIsWeight(EconomySystem, focus, f, s);
    DemandIsBounded(focus, f, s);
  }

  /** The final share of each subsystem is its weight over the sum of all, for every focus and all inputs. */
  lemma {:induction false} SharesInNumbers(k: Subsystem, focus: Focus, f: Factors, s: Situation)
    ensures AllWeights(focus, f, s) > 0.0
    ensures Share(Distributed(focus, f, s), k) == Weight(k, focus, f, s) / AllWeights(focus, f, s)
  {
    hide Distributed, Demand, Share, Weight, Total, AllWeights, CoreTakesOver;
    AttentionIsWellShared(focus, f, s);
    WeightsAddUp(focus, f, s);
    DemandIsWeight(k, focus, f, s);
    DemandIs(focus, f, s);
    ShareOfNormalised(Demand(focus, f, s), k);
  }

  lemma DemandIs(focus: Focus, f: Factors, s: Situation)
    ensures ForSituation(ForFactors(Pattern(focus), f), s) == Normalised(Demand(focus, f, s))
  {
  }
}
