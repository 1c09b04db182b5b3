/** The 54-step schedule, reduced to what the engine and the guards consult. */
module Catalog {
  import opened Wrappers
  import opened Policy
  import opened Text

  type U8 = n: nat | n < 256 witness 0

  datatype Phase = One | Two | Three {
    function Number(): nat {
      match this
      case One => 1
      case Two => 2
      case Three => 3
    }
  }

  datatype StepId = StepId(phase: Phase, number: U8)

  datatype OrchestrationRole =
    | EngineStep
    | ArmSafeModeHandoff
    | ClearSafeBoot
    | ArmPhaseThreeHandoff
    | PersistFinalBenchmark

  datatype Step = Step(id: StepId, tier: nat, risk: Risk, checkOnly: bool, role: OrchestrationRole)

  const PHASE_ONE_BASELINE_BENCHMARK := StepId(One, 17)
  const PHASE_ONE_XMP_EXPO_CHECK := StepId(One, 2)
  const PHASE_ONE_RESIZABLE_BAR_CHECK := StepId(One, 9)
  const PHASE_ONE_SAFE_MODE_HANDOFF := StepId(One, 38)
  const PHASE_TWO_SAFE_BOOT_CLEAR := StepId(Two, 1)
  const PHASE_TWO_DRIVER_CLEANUP := StepId(Two, 2)
  const PHASE_TWO_PHASE_THREE_HANDOFF := StepId(Two, 3)
  const PHASE_THREE_DRIVER_INSTALL := StepId(Three, 1)
  const PHASE_THREE_FINAL_BENCHMARK := StepId(Three, 13)

  function RoleOf(id: StepId): OrchestrationRole {
    if id == PHASE_ONE_SAFE_MODE_HANDOFF then ArmSafeModeHandoff
    else if id == PHASE_TWO_SAFE_BOOT_CLEAR then ClearSafeBoot
    else if id == PHASE_TWO_PHASE_THREE_HANDOFF then ArmPhaseThreeHandoff
    else if id == PHASE_THREE_FINAL_BENCHMARK then PersistFinalBenchmark
    else EngineStep
  }

  function Row(phase: Phase, number: U8, tier: nat, risk: Risk, checkOnly: bool): Step {
    Step(StepId(phase, number), tier, risk, checkOnly, RoleOf(StepId(phase, number)))
  }

  function PhaseOneRows(): seq<Step> {
    [ Row(One, 1, 1, Safe, false), Row(One, 2, 1, Safe, true), Row(One, 3, 1, Safe, true),
      Row(One, 4, 1, Safe, true), Row(One, 5, 1, Safe, true), Row(One, 6, 1, Safe, true),
      Row(One, 7, 2, Safe, true), Row(One, 8, 2, Moderate, false), Row(One, 9, 2, Safe, true),
      Row(One, 10, 3, Safe, true), Row(One, 11, 3, Safe, true), Row(One, 12, 1, Safe, false),
      Row(One, 13, 2, Safe, true), Row(One, 14, 2, Safe, true), Row(One, 15, 3, Safe, true),
      Row(One, 16, 1, Safe, false), Row(One, 17, 1, Safe, true), Row(One, 18, 1, Safe, true),
      Row(One, 19, 1, Safe, true), Row(One, 20, 3, Safe, true), Row(One, 21, 2, Safe, true),
      Row(One, 22, 3, Safe, true), Row(One, 23, 2, Safe, true), Row(One, 24, 1, Safe, true),
      Row(One, 25, 2, Safe, true), Row(One, 26, 2, Safe, true), Row(One, 27, 2, Safe, true),
      Row(One, 28, 2, Safe, true), Row(One, 29, 2, Safe, true), Row(One, 30, 2, Moderate, false),
      Row(One, 31, 2, Safe, true), Row(One, 32, 2, Safe, true), Row(One, 33, 2, Safe, true),
      Row(One, 34, 2, Moderate, false), Row(One, 35, 2, Safe, true), Row(One, 36, 3, Safe, true),
      Row(One, 37, 3, Safe, true), Row(One, 38, 3, Critical, false) ]
  }

  function PhaseTwoRows(): seq<Step> {
    [ Row(Two, 1, 1, Moderate, false), Row(Two, 2, 1, Critical, false), Row(Two, 3, 1, Moderate, false) ]
  }

  function PhaseThreeRows(): seq<Step> {
    [ Row(Three, 1, 1, Moderate, false), Row(Three, 2, 2, Safe, true), Row(Three, 3, 3, Safe, true),
      Row(Three, 4, 3, Safe, false), Row(Three, 5, 1, Safe, true), Row(Three, 6, 2, Safe, true),
      Row(Three, 7, 2, Safe, true), Row(Three, 8, 2, Safe, true), Row(Three, 9, 3, Safe, true),
      Row(Three, 10, 3, Safe, true), Row(Three, 11, 2, Safe, true), Row(Three, 12, 1, Safe, true),
      Row(Three, 13, 1, Safe, true) ]
  }

  /** The rows of one phase, in schedule order. */
  function Rows(phase: Phase): seq<Step> {
    match phase
    case One => PhaseOneRows()
    case Two => PhaseTwoRows()
    case Three => PhaseThreeRows()
  }

  /** `P<phase>:<number>`, the stable identity of persisted progress files. */
  function ProgressKey(id: StepId): string {
    "P" + Decimal(id.phase.Number()) + ":" + Decimal(id.number)
  }

  /** The byte parser behind `str::parse::<u8>`: an optional plus sign and digits up to 255. */
  function ParseU8(s: string): Option<U8> {
    var digits := if s != [] && s[0] == '+' then s[1..] else s;
    if digits == [] || !AllDigits(digits) || DecimalValue(digits) > 255 then None
    else Some(DecimalValue(digits))
  }

  function FromProgressKey(value: string): Option<StepId> {
    if value == [] || value[0] != 'P' then None
    else
      var rest := value[1..];
      var colon := Find(rest, ':');
      if colon == |rest| then None
      else
        var phase := rest[..colon];
        var number := ParseU8(rest[colon + 1..]);
        if number.None? || number.value == 0 then None
        else if phase == "1" then Some(StepId(One, number.value))
        else if phase == "2" then Some(StepId(Two, number.value))
        else if phase == "3" then Some(StepId(Three, number.value))
        else None
  }

  lemma PhaseDigit(phase: Phase)
    ensures Decimal(phase.Number()) == [DigitChar(phase.Number())]
    ensures phase.One? ==> Decimal(1) == "1"
    ensures phase.Two? ==> Decimal(2) == "2"
    ensures phase.Three? ==> Decimal(3) == "3"
  {
  }

  lemma KeyParts(id: StepId)
    ensures ProgressKey(id)[0] == 'P'
    ensures Find(ProgressKey(id)[1..], ':') == 1
    ensures ProgressKey(id)[1..][..1] == Decimal(id.phase.Number())
    ensures ProgressKey(id)[1..][2..] == Decimal(id.number)
  {
    PhaseDigit(id.phase);
    var rest := ProgressKey(id)[1..];
    assert rest == Decimal(id.phase.Number()) + ":" + Decimal(id.number);
    assert rest[1] == ':' && rest[0] != ':';
  }

  /** Distinct catalog identities never share a progress key. */
  lemma ProgressKeyInjective(a: StepId, b: StepId)
    ensures ProgressKey(a) == ProgressKey(b) <==> a == b
  {
    if ProgressKey(a) == ProgressKey(b) {
      KeyParts(a);
      KeyParts(b);
      DecimalInjective(a.phase.Number(), b.phase.Number());
      DecimalInjective(a.number, b.number);
    }
  }

  lemma DecimalParses(n: U8)
    ensures ParseU8(Decimal(n)) == Some(n)
  {
    DecimalShape(n);
    assert Decimal(n)[0] in Decimal(n);
  }

  /** Printing then parsing is the identity exactly on the 1-based numbers. */
  lemma ProgressKeyRoundTrip(id: StepId)
    ensures FromProgressKey(ProgressKey(id)) == Some(id) <==> id.number > 0
    ensures id.number == 0 ==> FromProgressKey(ProgressKey(id)) == None
  {
    KeyParts(id);
    PhaseDigit(id.phase);
    DecimalParses(id.number);
    var rest := ProgressKey(id)[1..];
    var colon := Find(rest, ':');
    assert colon == 1 && rest[..colon] == Decimal(id.phase.Number()) && rest[colon + 1..] == Decimal(id.number);
  }

  /** Parsing then printing is the identity exactly when the number text is canonical. */
  lemma ParsedKeyPrintsBack(value: string)
    requires FromProgressKey(value).Some?
    ensures var number := value[1..][Find(value[1..], ':') + 1..];
            ProgressKey(FromProgressKey(value).value) == value <==> Canonical(number)
  {
    var id := FromProgressKey(value).value;
    var rest := value[1..];
    var colon := Find(rest, ':');
    var number := rest[colon + 1..];
    PhaseDigit(id.phase);
    KeyParts(id);
    assert rest[..colon] == Decimal(id.phase.Number());
    assert value == ['P'] + rest[..colon] + [':'] + number;
    if Canonical(number) {
      assert IsDigit(number[0]);
      CanonicalIsDecimal(number);
    }
    if ProgressKey(id) == value {
      assert number == Decimal(id.number);
      DecimalShape(id.number);
    }
  }

  lemma ZeroPaddedKeyIsAccepted()
    ensures FromProgressKey("P1:05") == Some(StepId(One, 5))
  {
    var rest := "1:05";
    assert "P1:05"[1..] == rest && rest[0] != ':' && rest[1] == ':';
    assert Find(rest, ':') == 1 && rest[..1] == "1" && rest[2..] == "05";
    assert "05"[..1] == "0" && "0"[..0] == "";
    assert DecimalValue("05") == DecimalValue("0") * 10 + 5;
  }

  lemma SignedKeyIsAccepted()
    ensures FromProgressKey("P1:+5") == Some(StepId(One, 5))
  {
    var rest := "1:+5";
    assert "P1:+5"[1..] == rest && rest[0] != ':' && rest[1] == ':';
    assert Find(rest, ':') == 1 && rest[..1] == "1" && rest[2..] == "+5" && "+5"[1..] == "5";
    assert "5"[..0] == "" && DecimalValue("5") == 5;
  }

  /** The persisted-key filter accepts spellings the printer never produces. */
  lemma NonCanonicalKeysAreAccepted()
    ensures FromProgressKey("P1:05") == Some(StepId(One, 5)) == FromProgressKey("P1:+5")
    ensures ProgressKey(StepId(One, 5)) == "P1:5"
  {
    ZeroPaddedKeyIsAccepted();
    SignedKeyIsAccepted();
  }
}
