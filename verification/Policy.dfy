/** Execution profiles: which catalog risk a profile runs, asks about or skips. */
module Policy {
  datatype Risk = Safe | Moderate | Aggressive | Critical

  datatype Profile = SafeProfile | Recommended | Competitive | Custom | Yolo

  datatype Decision = Auto | Prompt | Skip

  function Rank(risk: Risk): nat {
    match risk
    case Safe => 0
    case Moderate => 1
    case Aggressive => 2
    case Critical => 3
  }

  function MaximumRisk(profile: Profile): Risk {
    match profile
    case SafeProfile => Safe
    case Recommended => Moderate
    case Competitive => Aggressive
    case Yolo => Aggressive
    case Custom => Critical
  }

  /** Tier-1 baseline operations bypass the profile's risk ceiling. */
  function Decide(profile: Profile, tier: nat, risk: Risk): Decision {
    if tier == 1 then
      if profile.Custom? then Prompt else Auto
    else if Rank(risk) > Rank(MaximumRisk(profile)) then
      Skip
    else
      match profile
      case SafeProfile => if tier == 2 && risk.Safe? then Auto else Skip
      case Recommended => if tier == 2 then Prompt else Skip
      case Competitive => Prompt
      case Custom => Prompt
      case Yolo => Auto
  }

  /**
   * Who is asked: of the first tier the custom profile alone; beyond it the custom
   * profile always, the competitive one below critical, the recommended one for the
   * second tier up to moderate.
   */
  lemma PromptedExactly(profile: Profile, tier: nat, risk: Risk)
    ensures Decide(profile, tier, risk).Prompt? <==>
              || profile.Custom?
              || (tier != 1 && profile.Competitive? && !risk.Critical?)
              || (tier == 2 && profile.Recommended? && (risk.Safe? || risk.Moderate?))
  {
  }

  /** Who runs without asking: of the first tier all others; beyond it yolo below critical, and safe steps of the second tier. */
  lemma RunExactly(profile: Profile, tier: nat, risk: Risk)
    ensures Decide(profile, tier, risk).Auto? <==>
              || (tier == 1 && !profile.Custom?)
              || (profile.Yolo? && !risk.Critical?)
              || (tier == 2 && profile.SafeProfile? && risk.Safe?)
  {
  }

  /** Lowering the risk of an operation never makes a profile skip what it would have run or asked about. */
  lemma LowerRiskIsNeverSkippedFirst(profile: Profile, tier: nat, higher: Risk, lower: Risk)
    requires Rank(lower) <= Rank(higher) && !Decide(profile, tier, higher).Skip?
    ensures !Decide(profile, tier, lower).Skip?
  {
  }

  /** Outside tier 1, critical operations are only ever asked about, and only by the custom profile. */
  lemma CriticalIsOnlyAsked(profile: Profile, tier: nat)
    requires tier != 1
    ensures Decide(profile, tier, Critical) == if profile.Custom? then Prompt else Skip
  {
  }
}
