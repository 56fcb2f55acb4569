# HeatAndHeal start screen — a Dafny model of the submit handler

HeatAndHeal's start screen (`StartMenuViewController`) lets the player type
the character's attack, defense, health and damage range into five text
fields, pick a difficulty on a three-segment selector, and tap "Start". The
only logic in it is the tap handler `submitButtonTapped`, which turns that
form state into exactly one of three outcomes:

- **Incomplete** — some field does not hold an integer (`Int(text ?? "")` is
  nil): the handler returns silently, with no alert and no delegate call.
- **Invalid** — every field holds an integer but a range rule fails
  (attack and defense in 1…30, health ≥ 0, damage minimum ≥ 1, damage
  maximum ≥ minimum): one alert titled "Ошибка" with the message
  "Некорректные характеристики" ("Invalid characteristics"), no delegate call.
- **Start** — the delegate's `startGame` is called once with the parsed
  attack, defense and health unchanged, the closed damage range
  `lowerBound...upperBound`, and the difficulty of the selected segment
  (1 → medium, 2 → hard, any other index → easy).

The handler is pure apart from its single effect, so the model is a set of
functions over values:

- `wrappers.dfy` — `Option`, Swift's `T?`, with `GetOr` for `??`.
- `int_parsing.dfy` — `IntParsing.ParseInt`, Swift's `Int(String)` in radix 10
  (optional sign, one or more ASCII digits, nil outside the 64-bit `Int`
  range), and `Render`, `String(Int)`, with the round trips between them.
- `start_menu.dfy` — `DifficultyLevel`, `ClosedRange`, the `GameConfig`
  payload of `startGame` with its validity predicate, the `Outcome` of a tap,
  `Decide` (the handler over already-converted fields) and
  `SubmitButtonTapped` (the handler over the raw field texts), and the lemmas
  that say which outcome happens when.

The three outcomes are the three constructors of `Outcome`, so a tap can never
both alert and start the game. Swift's `lo...hi` traps unless `lo <= hi`;
`MakeClosedRange` carries that as its precondition, and `Decide` verifying
proves the handler never reaches the trap.

The alert is in Russian: title "Ошибка" (Error), message
"Некорректные характеристики" (Invalid characteristics).

## Model

| member | source | states |
|---|---|---|
| `Wrappers.Option.GetOr` | HeatAndHeal/Controller/StartMenuViewController.swift:111-115 | `text ?? ""`: the wrapped text when there is one, otherwise the default |
| `IntParsing.ParseInt` | HeatAndHeal/Controller/StartMenuViewController.swift:111-115 | `Int(text)` is nil for the empty string; any integer it yields fits in 64-bit `Int`; an accepted text is a sign followed by at least one digit, or digits alone; a negative result comes only from a leading '-' |
| `IntParsing.ParseRender` | HeatAndHeal/Controller/StartMenuViewController.swift:111-115 | reading back the decimal text of any integer gives that integer when it fits in `Int` and nil when it does not |
| `IntParsing.RenderParse` | HeatAndHeal/Controller/StartMenuViewController.swift:111-115 | every canonical decimal literal (no '+', no leading zero, no "-0") that parses is exactly the decimal text of its value |
| `IntParsing.ParsePlusSign` | HeatAndHeal/Controller/StartMenuViewController.swift:111-115 | a leading '+' before the digits is accepted and does not change the value |
| `IntParsing.ParseLeadingZero` | HeatAndHeal/Controller/StartMenuViewController.swift:111-115 | leading zeros are accepted and do not change the value, with or without a leading '-'; "-0" reads as 0 |
| `StartMenu.ReadField` | HeatAndHeal/Controller/StartMenuViewController.swift:111 | an unset field (nil text) never yields a number; a number read always fits in `Int` |
| `StartMenu.DifficultyFromSegment` | HeatAndHeal/Controller/StartMenuViewController.swift:132-140 | the mapping is total: medium exactly for index 1, hard exactly for index 2, easy for every other index |
| `StartMenu.SegmentOf` | HeatAndHeal/Controller/StartMenuViewController.swift:22 | every level has a segment, and that segment's title ("Easy", "Medium", "Hard") names the level |
| `StartMenu.SegmentsSelectEveryLevel` | HeatAndHeal/Controller/StartMenuViewController.swift:21-26 | each of the three segments selects a different level, the one its title names; every level is selectable, and the initial segment 0 selects easy |
| `StartMenu.CharacteristicsValid` | HeatAndHeal/Controller/StartMenuViewController.swift:120-124 | the guard holds exactly when attack and defense are in 1...30, health is at least 0 and 1 <= lowerBound <= upperBound; then every damage value in the range is at least 1 |
| `StartMenu.InvalidCharacteristicsAlert` | HeatAndHeal/Controller/StartMenuViewController.swift:126 | the out-of-range alert has title "Ошибка" (set at line 146) and message "Некорректные характеристики" |
| `StartMenu.MakeClosedRange` | HeatAndHeal/Controller/StartMenuViewController.swift:130 | `lo...hi`, allowed only when `lo <= hi`, holds exactly the integers from `lo` to `hi` and is never empty |
| `StartMenu.Decide` | HeatAndHeal/Controller/StartMenuViewController.swift:110-143 | the tap is silent exactly when some field failed to parse; a started game always carries a configuration that satisfies every range rule and a non-empty damage range |
| `StartMenu.SubmitButtonTapped` | HeatAndHeal/Controller/StartMenuViewController.swift:110-143 | on the raw field texts, a started game carries a valid configuration whose health and damage maximum fit in `Int` |
| `StartMenu.UnparsedFieldIsSilent` | HeatAndHeal/Controller/StartMenuViewController.swift:111-118 | one unparsed field yields the silent return whatever the other fields hold, out-of-range ones included: the parse guard precedes the range guard |
| `StartMenu.OutOfRangeShowsAlert` | HeatAndHeal/Controller/StartMenuViewController.swift:120-128 | parsed values breaking any range rule yield exactly the alert "Ошибка" / "Некорректные характеристики" and no delegate call |
| `StartMenu.ValidValuesStartGame` | HeatAndHeal/Controller/StartMenuViewController.swift:130-142 | parsed values meeting every rule reach `startGame` unchanged, with damage `lowerBound...upperBound` and the level of the selected segment |
| `StartMenu.BlankFieldIsSilent` | HeatAndHeal/Controller/StartMenuViewController.swift:111-118 | an empty or unset text in any of the five fields makes the tap do nothing |
| `StartMenu.TypedValidValuesStartGame` | HeatAndHeal/Controller/StartMenuViewController.swift:110-143 | typing the decimal text of valid characteristics starts the game with exactly those values, for every selector index |
| `StartMenu.TypedOutOfRangeValuesShowAlert` | HeatAndHeal/Controller/StartMenuViewController.swift:110-128 | typing integers that fit in `Int` but break a range rule shows the fixed alert |
| `StartMenu.TypedOverflowIsSilent` | HeatAndHeal/Controller/StartMenuViewController.swift:111-118 | typing a number too wide for `Int` in any field makes the tap silent, not an alert |
| `StartMenu.MediumGameScenario` | HeatAndHeal/Controller/StartMenuViewController.swift:110-143 | "15", "10", "100", "2", "8" with segment 1 start a medium game with damage 2...8 |
| `StartMenu.AttackTooHighScenario` | HeatAndHeal/Controller/StartMenuViewController.swift:120-128 | an attack of "31" shows the alert |
| `StartMenu.InvertedDamageScenario` | HeatAndHeal/Controller/StartMenuViewController.swift:120-128 | a damage minimum "5" above the maximum "3" shows the alert |

## Left out

- `viewDidLoad` and `setupMenu`: view layout, fonts and colours, with no behaviour to state.
- `showAlert`'s construction of the `UIAlertController`, its "OK" action and its presentation: UIKit calls; the alert is modelled by its title and message only.
- `InputMenuItem`, `RangeInputMenuItem` and `ThemeColor` are not part of this model; each field is modelled by its text, an optional string.
- The `weak var delegate`: the model assumes a delegate is present; with a nil delegate the Start outcome produces no call.
- `IntParsing.ParseInt`: models `Int(String)` for radix 10 only, as the handler uses it; other radices and the standard library's internal scanning order are not modelled.
