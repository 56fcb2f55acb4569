/**
 * The submit handler of the start screen (`StartMenuViewController`): it reads
 * the five character fields and the difficulty selector once, and ends in
 * exactly one of three outcomes — a silent return while a field does not hold
 * an integer, one error alert when the values break a range rule, or one call
 * of the delegate's `startGame` with the validated configuration.
 */
module StartMenu {
  import opened Wrappers
  import opened IntParsing

  datatype DifficultyLevel = Easy | Medium | Hard

  /** The segments of the difficulty selector, in order, and the one selected initially. */
  const DifficultySegments: seq<string> := ["Easy", "Medium", "Hard"]
  const InitialSegmentIndex: int := 0

  /**
   * The `switch` on `selectedSegmentIndex`: segment 1 is medium, segment 2 is
   * hard, and every other index — segment 0, and also `noSegment` (-1) — is easy.
   */
  function DifficultyFromSegment(index: int): (level: DifficultyLevel)
    ensures level == Medium <==> index == 1
    ensures level == Hard <==> index == 2
    ensures level == Easy <==> index != 1 && index != 2
  {
    match index
    case 1 => Medium
    case 2 => Hard
    case _ => Easy
  }

  /** The title the selector shows for `level`. */
  function LevelTitle(level: DifficultyLevel): string {
    match level
    case Easy => "Easy"
    case Medium => "Medium"
    case Hard => "Hard"
  }

  /** The segment whose title names `level`. */
  function SegmentOf(level: DifficultyLevel): (index: nat)
    ensures index < |DifficultySegments|
    ensures DifficultySegments[index] == LevelTitle(level)
  {
    match level
    case Easy => 0
    case Medium => 1
    case Hard => 2
  }

  /**
   * Each segment of the selector picks a different level, the one its title
   * names; every level can be picked, and the screen starts on easy.
   */
  lemma SegmentsSelectEveryLevel(index: int, level: DifficultyLevel)
    ensures DifficultyFromSegment(SegmentOf(level)) == level
    ensures 0 <= index < |DifficultySegments| ==> SegmentOf(DifficultyFromSegment(index)) == index
    ensures 0 <= index < |DifficultySegments| ==> DifficultySegments[index] == LevelTitle(DifficultyFromSegment(index))
    ensures DifficultyFromSegment(InitialSegmentIndex) == Easy
  {
  }

  /** Swift's `ClosedRange<Int>`, the damage range handed to the delegate. */
  datatype ClosedRange = ClosedRange(lowerBound: int, upperBound: int) {

    predicate Contains(x: int) {
      lowerBound <= x <= upperBound
    }

    function Count(): int {
      upperBound - lowerBound + 1
    }
  }

  /** `lo...hi`: Swift traps unless `lo <= hi`, so that is what this demands. */
  function MakeClosedRange(lo: int, hi: int): (r: ClosedRange)
    requires lo <= hi
    ensures forall x :: r.Contains(x) <==> lo <= x <= hi
    ensures r.Count() >= 1
  {
    ClosedRange(lo, hi)
  }

  /** The limits the handler checks the characteristics against. */
  const MinStat: int := 1
  const MaxStat: int := 30
  const MinHealth: int := 0
  const MinDamage: int := 1

  /**
   * The range guard of the handler: all five rules must hold together. When
   * it holds, `lowerBound...upperBound` can be built and holds only positive
   * damage.
   */
  predicate CharacteristicsValid(attack: int, defense: int, health: int, lowerBound: int, upperBound: int): (valid: bool)
    ensures valid <==> 1 <= attack <= 30 && 1 <= defense <= 30 && 0 <= health && 1 <= lowerBound <= upperBound
    ensures valid ==> lowerBound <= upperBound && forall x :: ClosedRange(lowerBound, upperBound).Contains(x) ==> x >= 1
  {
    && MinStat <= attack <= MaxStat
    && MinStat <= defense <= MaxStat
    && health >= MinHealth
    && lowerBound >= MinDamage
    && upperBound >= lowerBound
  }

  /** The arguments of `StartMenuDelegate.startGame`. */
  datatype GameConfig = GameConfig(
    attack: int,
    defense: int,
    health: int,
    damage: ClosedRange,
    difficultyLevel: DifficultyLevel)
  {
    predicate Valid() {
      CharacteristicsValid(attack, defense, health, damage.lowerBound, damage.upperBound)
    }
  }

  /** The alert `showAlert` presents: a fixed title and the given message. */
  datatype Alert = Alert(title: string, message: string)

  const ErrorTitle: string := "Ошибка"
  const InvalidCharacteristicsMessage: string := "Некорректные характеристики"

  /** The alert of an out-of-range submission: `showAlert` with the fixed message. */
  function InvalidCharacteristicsAlert(): (a: Alert)
    ensures a.title == "Ошибка" && a.message == "Некорректные характеристики"
  {
    Alert(ErrorTitle, InvalidCharacteristicsMessage)
  }

  /** The single effect of one tap on the submit button. */
  datatype Outcome =
    | Incomplete                // silent return: a field does not hold an integer
    | Invalid(alert: Alert)     // one error alert, no delegate call
    | Start(config: GameConfig) // one `startGame` call, no alert

  predicate AllParsed(attack: Option<int>, defense: Option<int>, health: Option<int>,
                      lowerBound: Option<int>, upperBound: Option<int>) {
    attack.Some? && defense.Some? && health.Some? && lowerBound.Some? && upperBound.Some?
  }

  /**
   * The handler once every field has been converted: the parse guard first,
   * then the range guard, then the difficulty switch and the delegate call.
   */
  function Decide(attack: Option<int>, defense: Option<int>, health: Option<int>,
                  lowerBound: Option<int>, upperBound: Option<int>, segmentIndex: int): (o: Outcome)
    ensures o.Incomplete? <==> !AllParsed(attack, defense, health, lowerBound, upperBound)
    ensures o.Start? ==> o.config.Valid() && o.config.damage.Count() >= 1
  {
    if !AllParsed(attack, defense, health, lowerBound, upperBound) then
      Incomplete
    else if !CharacteristicsValid(attack.value, defense.value, health.value, lowerBound.value, upperBound.value) then
      Invalid(InvalidCharacteristicsAlert())
    else
      var damage := MakeClosedRange(lowerBound.value, upperBound.value);
      Start(GameConfig(attack.value, defense.value, health.value, damage, DifficultyFromSegment(segmentIndex)))
  }

  /** What the handler reads: the five field texts (nil when unset) and the selected segment. */
  datatype StartMenuForm = StartMenuForm(
    attackText: Option<string>,
    defenseText: Option<string>,
    healthText: Option<string>,
    lowerBoundText: Option<string>,
    upperBoundText: Option<string>,
    selectedSegmentIndex: int)

  /** `Int(field.text ?? "")`. */
  function ReadField(text: Option<string>): (n: Option<int>)
    ensures text.None? ==> n.None?
    ensures n.Some? ==> InIntRange(n.value)
  {
    ParseInt(text.GetOr(""))
  }

  /** `submitButtonTapped`. */
  function SubmitButtonTapped(form: StartMenuForm): (o: Outcome)
    ensures o.Start? ==> o.config.Valid() && InIntRange(o.config.health) && InIntRange(o.config.damage.upperBound)
  {
    Decide(ReadField(form.attackText), ReadField(form.defenseText), ReadField(form.healthText),
           ReadField(form.lowerBoundText), ReadField(form.upperBoundText), form.selectedSegmentIndex)
  }

  /**
   * A field that does not hold an integer makes the handler return silently —
   * no alert, no delegate call — whatever the other fields hold: the parse
   * guard comes before the range guard.
   */
  lemma UnparsedFieldIsSilent(attack: Option<int>, defense: Option<int>, health: Option<int>,
                              lowerBound: Option<int>, upperBound: Option<int>, segmentIndex: int)
    requires attack.None? || defense.None? || health.None? || lowerBound.None? || upperBound.None?
    ensures Decide(attack, defense, health, lowerBound, upperBound, segmentIndex) == Incomplete
  {
  }

  /** Parsed values that break a range rule give the one fixed alert and nothing else. */
  lemma OutOfRangeShowsAlert(attack: int, defense: int, health: int, lowerBound: int, upperBound: int, segmentIndex: int)
    requires !CharacteristicsValid(attack, defense, health, lowerBound, upperBound)
    ensures Decide(Some(attack), Some(defense), Some(health), Some(lowerBound), Some(upperBound), segmentIndex)
            == Invalid(Alert("Ошибка", "Некорректные характеристики"))
  {
  }

  /**
   * Valid parsed values reach the delegate unchanged, with the damage range
   * `lowerBound...upperBound` and the level of the selected segment.
   */
  lemma ValidValuesStartGame(attack: int, defense: int, health: int, lowerBound: int, upperBound: int, segmentIndex: int)
    requires CharacteristicsValid(attack, defense, health, lowerBound, upperBound)
    ensures Decide(Some(attack), Some(defense), Some(health), Some(lowerBound), Some(upperBound), segmentIndex)
            == Start(GameConfig(attack, defense, health, ClosedRange(lowerBound, upperBound), DifficultyFromSegment(segmentIndex)))
  {
  }

  /** The form whose fields hold `String(n)` of the given values. */
  function FormOf(attack: int, defense: int, health: int, lowerBound: int, upperBound: int, segmentIndex: int): StartMenuForm {
    StartMenuForm(Some(Render(attack)), Some(Render(defense)), Some(Render(health)),
                  Some(Render(lowerBound)), Some(Render(upperBound)), segmentIndex)
  }

  /** An empty or unset field, wherever it is, makes a tap do nothing. */
  lemma BlankFieldIsSilent(form: StartMenuForm)
    requires || form.attackText in {None, Some("")}
             || form.defenseText in {None, Some("")}
             || form.healthText in {None, Some("")}
             || form.lowerBoundText in {None, Some("")}
             || form.upperBoundText in {None, Some("")}
    ensures SubmitButtonTapped(form) == Incomplete
  {
  }

  /**
   * Typing valid characteristics into the fields starts the game with exactly
   * those values, for every selector index.
   */
  lemma TypedValidValuesStartGame(attack: int, defense: int, health: int, lowerBound: int, upperBound: int, segmentIndex: int)
    requires CharacteristicsValid(attack, defense, health, lowerBound, upperBound)
    requires InIntRange(health) && InIntRange(upperBound)
    ensures SubmitButtonTapped(FormOf(attack, defense, health, lowerBound, upperBound, segmentIndex))
            == Start(GameConfig(attack, defense, health, ClosedRange(lowerBound, upperBound), DifficultyFromSegment(segmentIndex)))
  {
    ParseRender(attack);
    ParseRender(defense);
    ParseRender(health);
    ParseRender(lowerBound);
    ParseRender(upperBound);
  }

  /** Typing integers that break a range rule shows the fixed alert. */
  lemma TypedOutOfRangeValuesShowAlert(attack: int, defense: int, health: int, lowerBound: int, upperBound: int, segmentIndex: int)
    requires !CharacteristicsValid(attack, defense, health, lowerBound, upperBound)
    requires InIntRange(attack) && InIntRange(defense) && InIntRange(health)
    requires InIntRange(lowerBound) && InIntRange(upperBound)
    ensures SubmitButtonTapped(FormOf(attack, defense, health, lowerBound, upperBound, segmentIndex))
            == Invalid(InvalidCharacteristicsAlert())
  {
    ParseRender(attack);
    ParseRender(defense);
    ParseRender(health);
    ParseRender(lowerBound);
    ParseRender(upperBound);
  }

  /**
   * A typed number too wide for `Int` reads as no number at all: the tap does
   * nothing, even though the value breaks no range rule the alert reports.
   */
  lemma TypedOverflowIsSilent(attack: int, defense: int, health: int, lowerBound: int, upperBound: int, segmentIndex: int)
    requires !(InIntRange(attack) && InIntRange(defense) && InIntRange(health) && InIntRange(lowerBound) && InIntRange(upperBound))
    ensures SubmitButtonTapped(FormOf(attack, defense, health, lowerBound, upperBound, segmentIndex)) == Incomplete
  {
    ParseRender(attack);
    ParseRender(defense);
    ParseRender(health);
    ParseRender(lowerBound);
    ParseRender(upperBound);
  }

  /** Attack 15, defense 10, health 100, damage 2 to 8, segment 1: the game starts on medium. */
  lemma MediumGameScenario()
    ensures SubmitButtonTapped(StartMenuForm(Some("15"), Some("10"), Some("100"), Some("2"), Some("8"), 1))
            == Start(GameConfig(15, 10, 100, ClosedRange(2, 8), Medium))
  {
    assert Render(15) == "15" && Render(10) == "10" && Render(100) == "100";
    assert Render(2) == "2" && Render(8) == "8";
    TypedValidValuesStartGame(15, 10, 100, 2, 8, 1);
  }

  /** An attack of 31 shows the alert. */
  lemma AttackTooHighScenario()
    ensures SubmitButtonTapped(StartMenuForm(Some("31"), Some("10"), Some("100"), Some("2"), Some("8"), 0))
            == Invalid(InvalidCharacteristicsAlert())
  {
  }

  /** A damage minimum above the maximum shows the alert. */
  lemma InvertedDamageScenario()
    ensures SubmitButtonTapped(StartMenuForm(Some("15"), Some("10"), Some("100"), Some("5"), Some("3"), 0))
            == Invalid(InvalidCharacteristicsAlert())
  {
  }
}
