# Aurafit progression model

A Dafny model of the game logic behind the Aurafit fitness app: the
progression store (user record, daily quest, message log), the workout
session controller, and the onboarding wizard. Every operation is a pure
function from state to state, and the properties the app relies on are proved
about those functions.

- `user_context.dfy` (`module UserContext`) is the progression store. It covers:
  - the seed state;
  - `addXP`: floor-division levelling with JavaScript's remainder, and one level-up notice per call;
  - `updateQuest`: progress capped at the target, completion recomputed on every call, and a 200 xp bonus on the edge into completion;
  - `markMessageRead`, and the unread counter the dashboard shows;
  - `updateUser`, a shallow merge of an optional-field patch.
- `workout.dfy` (`module Workout`) is the workout page:
  - the five-exercise plan, the rest countdown, `startWorkout`, `completeSet` with `nextExercise`, `skipRest` and `formatTime`;
  - the page's controls as a state machine gated exactly as the page enables them;
  - each action's calls into the store, as a list of effects that `ApplyEffects` runs against a `UserContext.Store`.
- `onboarding.dfy` (`module Onboarding`) is the six-step wizard:
  - the answer record with `handleInputChange`;
  - the multiselect toggle;
  - the 1–7 training-days stepper;
  - the per-step `canProceed` guard;
  - Next and Previous, with leaving the wizard modelled as a `finished` flag.
- `js_math.dfy` (`module JsMath`) holds `Math.floor(a / b)` and JavaScript's truncating `%`, with their division facts.
- `decimal.dfy` (`module Decimal`) holds `Number#toString` for integers below 1e21 in magnitude, `padStart`, and a digit parser that reads both back.
- `wrappers.dfy` (`module Wrappers`) holds `Option`.

Message ids come from `Date.now()` in the app. Here every user action gets one caller-supplied `id`, which is used for every message that action logs.

Quest completion is recomputed from the exercises on every report. So lowering a counter clears the flag, and reaching the targets again grants the bonus a second time (`UserContext.QuestBonusRefiresAfterDrop`). Progress also has no lower clamp: a negative report is stored as is.

## Model

| member | source | states |
|---|---|---|
| UserContext.GrantXp | src/contexts/UserContext.tsx:128-153 | after any grant the maximum is 1000 + 100 × the new level, even when no level was crossed; only level, xp and maxXp change |
| UserContext.GrantXpSplitsTotal | src/contexts/UserContext.tsx:130-132 | the levels gained are floor((xp + amount) / old maxXp) and the xp kept is the remainder by the OLD maximum: levels × maxXp + xp' = xp + amount with 0 ≤ xp' < old maxXp for a non-negative total; a negative total leaves xp' in (−maxXp, 0], congruent to it |
| UserContext.GrantXpNeverLowersLevel | src/contexts/UserContext.tsx:130-132 | for any positive maximum, xp ≥ 0 and amount ≥ 0, the level never drops and 0 ≤ xp' < old maxXp |
| UserContext.GrantXpKeepsInvariant | src/contexts/UserContext.tsx:130-150 | if 0 ≤ xp < maxXp ≤ 1000 + 100 × level, a non-negative grant gives 0 ≤ xp' < maxXp' ≤ 1000 + 100 × level' |
| UserContext.GrantXpCrossesOneLevelPerThreshold | src/contexts/UserContext.tsx:130-132 | a total of k × maxXp + rest, with 0 ≤ rest < maxXp, crosses exactly k levels and keeps rest as xp |
| UserContext.AddXp | src/contexts/UserContext.tsx:128-153 | the user becomes `GrantXp(user, amount)` and the quest is untouched; exactly one "LEVEL UP!" notice naming the new level is appended iff the level rose, and the log is unchanged otherwise; the invariant and a non-decreasing level survive |
| UserContext.AddXpLogsOneMessagePerCall | src/contexts/UserContext.tsx:134-144 | the log grows by one iff the level rose, so at most one notice per call however many levels are crossed |
| UserContext.SeedAddXp300 | src/contexts/UserContext.tsx:128-153 | from the seed user (level 12, 750 of 1000 xp), `addXP(300)` gives level 13, xp 50, maximum 2300 and the one notice "LV. 13" |
| UserContext.SeedUserInvariant | src/contexts/UserContext.tsx:46-56 | the seed user satisfies 0 ≤ xp < maxXp ≤ 1000 + 100 × level |
| UserContext.ApplyProgress | src/contexts/UserContext.tsx:94-101 | an exercise takes min(target, progress), with no lower clamp, and is completed iff progress ≥ target; its name and target are kept |
| UserContext.QuestAfter | src/contexts/UserContext.tsx:92-124 | exercises with the reported name take the capped progress and all others are unchanged; the quest flag becomes "every exercise completed"; the quest name is kept |
| UserContext.QuestAfterKeepsInvariant | src/contexts/UserContext.tsx:93-105 | whatever the progress, no counter ends above its target, each exercise flag agrees with its counter, and the quest flag is their conjunction |
| UserContext.QuestAfterIdempotent | src/contexts/UserContext.tsx:92-124 | reporting the same progress twice leaves the quest as reporting it once |
| UserContext.QuestAfterBelowTargetClearsCompletion | src/contexts/UserContext.tsx:97-105 | reporting less than an exercise's target makes the quest incomplete, even if it was complete |
| UserContext.UpdateQuest | src/contexts/UserContext.tsx:91-126 | the quest becomes `QuestAfter`; iff it is newly complete, the user gets `GrantXp(user, 200)` and the new log entries are, as a multiset, the completion notice plus a level-up notice iff the level rose; otherwise the user and log are unchanged; the old log is a prefix and the user invariant survives |
| UserContext.UpdateQuestNoBonusWhenCompleted | src/contexts/UserContext.tsx:107-118 | once the quest is complete, a report never changes the user or the log |
| UserContext.UpdateQuestBonusIff | src/contexts/UserContext.tsx:107-118 | the completion notice is among the new entries iff the quest went from incomplete to complete |
| UserContext.QuestAfterSeed | src/contexts/UserContext.tsx:58-66 | on the seed quest a report moves exactly the named counter, capped at 100, 100 or 50 |
| UserContext.QuestStepNoBonus | src/contexts/UserContext.tsx:91-126 | a report on the seed quest that leaves it incomplete, or finds it already complete, changes only the counter |
| UserContext.QuestStepBonus | src/contexts/UserContext.tsx:105-118 | a report that completes the seed quest, with the bonus fitting below the maximum, adds 200 xp at the same level, recomputes the maximum and logs only the completion notice |
| UserContext.SeedQuestScenario | src/contexts/UserContext.tsx:91-126 | from the seed, Push-ups 100, Squats 100 and then Burpees 50 complete the quest: xp 950, maximum 2200, one notice; a second Burpees 50 changes nothing |
| UserContext.QuestBonusRefiresAfterDrop | src/contexts/UserContext.tsx:97-124 | after completion, Burpees 10 clears the flag and Burpees 50 grants 200 xp again with a second completion notice |
| UserContext.SeedQuestInvariant | src/contexts/UserContext.tsx:58-66 | the seed quest satisfies the quest invariant |
| UserContext.MarkMessageRead | src/contexts/UserContext.tsx:155-159 | every message with the id becomes read; all other fields and all other messages are unchanged, and so are the log's length, the user and the quest |
| UserContext.MarkMessageReadIdempotent | src/contexts/UserContext.tsx:155-159 | marking the same id twice is marking it once |
| UserContext.UnreadCount | src/pages/Dashboard.tsx:9 | the unread count never exceeds the log's length |
| UserContext.UnreadCountPointwise | src/pages/Dashboard.tsx:9 | if read flags only turn on, the unread count does not rise, and it drops if some flag turned on |
| UserContext.MarkMessageReadUnreadCount | src/contexts/UserContext.tsx:155-159 | marking a message read never raises the dashboard's unread count, and lowers it when an unread message has that id |
| UserContext.UpdateUser | src/contexts/UserContext.tsx:87-89 | each field given in the patch takes the patch's value and each absent field keeps the old one; the quest and log are untouched |
| UserContext.UpdateUserEmpty | src/contexts/UserContext.tsx:87-89 | an empty patch changes nothing |
| UserContext.UpdateUserCompose | src/contexts/UserContext.tsx:87-89 | two merges in a row equal one merge with the overlaid patch, so repeating a patch is idempotent |
| UserContext.ProfilePatchKeepsInvariant | src/contexts/UserContext.tsx:87-89 | a patch that leaves level, xp and maxXp alone keeps the user invariant |
| Workout.StartWorkout | src/pages/Workout.tsx:62-65 | the session becomes started, nothing else changes, and a single grant of 50 xp is made |
| Workout.Tick | src/pages/Workout.tsx:48-57 | one countdown second: a rest time of at most 1 ends the rest at 0, and a rest time above 1 drops by one with the rest going on; the rest time never goes negative and nothing else changes |
| Workout.SkipRest | src/pages/Workout.tsx:99-102 | the rest ends at 0 and nothing else changes |
| Workout.RestEndsAfterRestTimeTicks | src/pages/Workout.tsx:46-60 | from a rest of r > 0 seconds, k < r ticks leave it resting with r − k, and exactly r ticks end it as `skipRest` would |
| Workout.CompleteSet | src/pages/Workout.tsx:67-97 | appends set id exercise × 3 + set and grants 25 xp; before the last set it rests for the exercise's rest time and advances the set; after the last set it moves to the next exercise at set 1 (+75 xp) or finishes the workout (+200 xp); the calls are exactly: one `addXP(25)`, then one `updateQuest("Push-ups", reps)` iff the exercise is PUSH-UPS, then on the last set one `addXP(75)` or `addXP(200)`, in that order |
| Workout.TwoDigitField | src/pages/Workout.tsx:107 | `toString().padStart(2, '0')` gives at least two digits that read back as the number, exactly two below 100, with no padding zero from 10 on |
| Workout.FormatTime | src/pages/Workout.tsx:104-108 | "MM:SS" whose fields read back as minutes and seconds with seconds < 60 and minutes × 60 + seconds = the input; five characters below 6000 seconds, and no leading zero from 600 seconds on |
| Workout.InitialInv | src/pages/Workout.tsx:34-41 | the initial session satisfies the session invariant and has earned nothing |
| Workout.ApplyKeepsInv | src/pages/Workout.tsx:62-102 | every enabled control keeps the invariant: exercise index in the plan, set in 1..3, rest time ≥ 0 and positive iff resting, and recorded set ids exactly 1..k. The xp it grants equals the growth of 50 (if started) + 25 per set + 75 per finished exercise + 200 (if complete) |
| Workout.RunKeepsInv | src/pages/Workout.tsx:62-102 | the same invariant and xp accounting over any sequence of enabled controls |
| Workout.ReachableBounds | src/pages/Workout.tsx:67-97 | in every reachable state the index and set stay inside the plan, the rest time is non-negative, and the recorded set ids are 1, 2, …, k, strictly increasing |
| Workout.FullSessionXp | src/pages/Workout.tsx:62-97 | a session that reaches completion has recorded 15 sets and made grants summing to 50 + 25 × 15 + 75 × 4 + 200 = 925 xp, quest bonus excluded |
| Workout.ApplyEffect | src/pages/Workout.tsx:64-95 | one store call keeps the user invariant and the quest invariant; the level never drops, the log only grows, and an xp grant leaves the quest alone |
| Workout.ApplyEffects | src/pages/Workout.tsx:64-95 | the same for the whole list of calls one action makes, run in order |
| JsMath.FloorDiv | src/contexts/UserContext.tsx:131 | `Math.floor(a / b)` for b > 0 is the q with q × b ≤ a < q × b + b |
| JsMath.Rem | src/contexts/UserContext.tsx:132 | JavaScript's `%` for b > 0: in [0, b) for a ≥ 0, in (−b, 0] for a < 0, and always congruent to a modulo b |
| JsMath.DivUnique | src/contexts/UserContext.tsx:131-132 | any split a = q × b + r with 0 ≤ r < b gives the floor quotient q, and for a ≥ 0 the remainder r |
| JsMath.FloorDivRem | src/pages/Workout.tsx:105-106 | for a ≥ 0, floor quotient × b + remainder = a |
| Decimal.NatToString | src/pages/Workout.tsx:107 | the rendering of a natural is non-empty digits with no leading zero, one digit exactly below 10 |
| Decimal.ParseNatToString | src/pages/Workout.tsx:107 | parsing the rendering of n gives n |
| Decimal.IntToString | src/contexts/UserContext.tsx:140 | the rendering starts with '-' iff the integer is negative, and the rest is digits |
| Decimal.ParseIntToString | src/contexts/UserContext.tsx:140 | parsing the rendering of i gives i |
| Decimal.PadStart | src/pages/Workout.tsx:107 | `padStart` makes the string max(length, width) long, ends with the original and fills the front |
| Decimal.ParsePaddedNat | src/pages/Workout.tsx:107 | zero-padding a rendered natural keeps it all digits and keeps its value |
| Onboarding.SetField | src/pages/Onboarding.tsx:128-130 | `handleInputChange`: the named field reads back the new value and every other field reads back its old value |
| Onboarding.SetFieldGetIdentity | src/pages/Onboarding.tsx:128-130 | writing back a field's current value changes nothing |
| Onboarding.SetFieldLastWriteWins | src/pages/Onboarding.tsx:128-130 | of two writes to the same field, the later one wins |
| Onboarding.Remove | src/pages/Onboarding.tsx:136 | the filter removes every occurrence of the value and keeps all other items with their multiplicities |
| Onboarding.RemoveAppend | src/pages/Onboarding.tsx:136 | the filter distributes over concatenation, so kept items keep their order |
| Onboarding.RemoveAbsent | src/pages/Onboarding.tsx:136 | filtering out an absent value returns the list unchanged |
| Onboarding.ToggleItem | src/pages/Onboarding.tsx:132-139 | a selected value is removed everywhere, an unselected one is appended at the end; the value is selected afterwards iff it was not before; a removal is `Remove`, so the kept items stay in order |
| Onboarding.ToggleTwiceRestores | src/pages/Onboarding.tsx:132-139 | toggling an unselected value twice restores the list exactly |
| Onboarding.MultiSelect | src/pages/Onboarding.tsx:132-139 | `handleMultiSelect` toggles the value in the named list field and leaves every other field unchanged |
| Onboarding.StepDown | src/pages/Onboarding.tsx:267 | the minus button sets the days to max(1, days − 1) and changes nothing else |
| Onboarding.StepUp | src/pages/Onboarding.tsx:276 | the plus button sets the days to min(7, days + 1) and changes nothing else |
| Onboarding.StepperStaysInRange | src/pages/Onboarding.tsx:264-281 | from 1..7 both buttons stay in 1..7, each moves by one except at its end, and minus undoes plus below 7 |
| Onboarding.CanProceedIffAnswered | src/pages/Onboarding.tsx:146-161 | the per-kind guard enables Next exactly when every field the step shows is answered: text non-empty, list non-empty, number positive, and all four biometric fields on the form |
| Onboarding.Next | src/pages/Onboarding.tsx:113-120 | `handleNext` advances one step before the last, and on the last step leaves the wizard without moving; the answers are kept |
| Onboarding.Previous | src/pages/Onboarding.tsx:122-126 | `handlePrevious` goes back one step and is a no-op on the first step |
| Onboarding.PreviousUndoesNext | src/pages/Onboarding.tsx:113-126 | Previous after Next from any step but the last returns to the original state |
| Onboarding.StartInv | src/pages/Onboarding.tsx:20-32 | the wizard starts at step 0 with 3 training days, inside the invariant |
| Onboarding.DispatchKeepsInv | src/pages/Onboarding.tsx:113-139 | every enabled control keeps the step in 0..5 and the days in 1..7; the wizard is left only from the last step with age, gender, height and weight filled in |
| Onboarding.NumberStepAlwaysProceeds | src/pages/Onboarding.tsx:155 | on the number step Next is never disabled, since the stepper keeps the days at least 1 |
| Onboarding.Run | src/pages/Onboarding.tsx:319-349 | replaying any sequence of enabled controls keeps the invariant |
| Onboarding.ReachableInv | src/pages/Onboarding.tsx:113-126 | from the start every reachable state has step in 0..5 and days in 1..7 |

## Left out

- Rendering is not modelled: JSX, animations, styling, icons and routing. Leaving onboarding (`navigate('/')`) is the `finished` flag.
- Message creation timestamps and `Date.now()` ids are left out. Ids are a parameter, one per user action. Timestamps are dropped, and so is their `toLocaleDateString` display.
- React state semantics are left out: updater functions, batching, side effects issued inside updaters, and StrictMode double invocation. Each operation is plain sequential composition.
- UserContext.UpdateQuest: does not state the order of the completion and level-up notices inside one bonus, only which notices are added. The app's order depends on when React runs the queued updaters.
- UserContext.AddXp: requires maxXp > 0, and so do UserContext.GrantXp and UserContext.UpdateQuest. With a zero maximum JavaScript gives a level of ±Infinity (or NaN for a zero total) and an xp of NaN, which integers cannot represent; a negative maximum is excluded too. Neither is reachable: the maximum starts at 1000, is reset to 1000 + 100 × level after every grant, no caller passes a negative amount, and `updateUser` has no caller.
- Workout.FormatTime: is a method, so other contracts cannot refer to it. Its domain is natural numbers, since the page only formats non-negative rest times.
- The `setInterval`/`clearInterval` lifecycle of the countdown is left out. Only the per-second update (`Workout.Tick`) is modelled, and only while resting with time left.
- The reps input's `parseInt(reps) || 0` is abstracted to `Option<int>`. `None` is the empty input that disables the button; non-numeric text is the caller's `Some(0)`.
- JavaScript numbers are modelled as unbounded integers. This is exact for every value the app reaches, all far below 2^53: grants are 25, 50, 75 and 200, and the level rises by about one per thousand xp. Rounding above 2^53 is not modelled, and neither is `Number#toString`'s exponent form from 1e21, which `Decimal.IntToString` does not produce.
- Floating-point display values are left out: the dashboard xp percentage, the workout progress bar and the onboarding progress bar.
- Fixed labels that are not derived from state are not compared with the model, e.g. the completion screen's "+500".
- src/pages/Progress.tsx, the mock charts, is not part of this model.
- The inbox's subject-filter counts are left out; only the unread count (`UserContext.UnreadCount`) is modelled.
- The onboarding voice-input stub is left out; it only flips a display flag.
- The `useUser` provider guard is left out.
- Onboarding.SetField: requires the value to have the field's type. The page only ever passes text to text fields, lists to list fields and numbers to the day count; JavaScript would store any value.
- Onboarding option lists (goal, experience, equipment and gender values) are not modelled. Any string can be toggled or selected, which includes every option the page offers.
