/**
 * The workout session controller: a fixed five-exercise plan walked set by
 * set, with a rest countdown between sets. Each user action yields the next
 * session state and the list of calls it makes into the progression store
 * (xp grants and quest progress), which `ApplyEffects` runs against a store.
 */
module Workout {
  import opened Wrappers
  import opened Decimal
  import JsMath
  import UserContext

  datatype Exercise = Exercise(name: string, sets: nat, reps: string, weight: Option<string>, restTime: nat)

  /** Today's plan, in order. */
  const Plan: seq<Exercise> := [
    Exercise("BENCH PRESS", 3, "8-10", Some("60kg"), 90),
    Exercise("INCLINE DUMBBELL PRESS", 3, "10-12", Some("25kg"), 75),
    Exercise("PUSH-UPS", 3, "12-15", None, 60),
    Exercise("DIPS", 3, "8-12", None, 75),
    Exercise("TRICEP PUSHDOWNS", 3, "12-15", Some("30kg"), 60)
  ]

  /** Set ids are `exercise index * 3 + set number`, whatever the exercise's own set count. */
  const SetIdStride: nat := 3

  const StartXp: nat := 50
  const SetXp: nat := 25
  const ExerciseXp: nat := 75
  const FinishXp: nat := 200

  /** The plan entry whose reps are forwarded, and the quest exercise they are reported against. */
  const QuestTrackedExercise: string := "PUSH-UPS"
  const QuestExerciseName: string := "Push-ups"

  /**
   * The page's state. `reps` is the reps input: `None` while it is empty,
   * otherwise `parseInt(input) || 0`.
   */
  datatype Session = Session(
    currentExercise: int,
    currentSet: int,
    isResting: bool,
    restTime: int,
    started: bool,
    completedSets: seq<int>,
    complete: bool,
    reps: Option<int>)

  const Initial: Session := Session(0, 1, false, 0, false, [], false, None)

  /** A call into the progression store. */
  datatype Effect = EarnXp(amount: nat) | ReportQuest(exercise: string, progress: int)

  datatype Transition = Transition(session: Session, effects: seq<Effect>)

  /** The total experience granted by a list of calls. */
  function XpOf(es: seq<Effect>): nat {
    if |es| == 0 then 0 else (if es[0].EarnXp? then es[0].amount else 0) + XpOf(es[1..])
  }

  lemma {:induction false} XpOfAppend(a: seq<Effect>, b: seq<Effect>)
    ensures XpOf(a + b) == XpOf(a) + XpOf(b)
  {
    if |a| == 0 {
      assert a + b == b;
    } else {
      assert (a + b)[1..] == a[1..] + b;
      XpOfAppend(a[1..], b);
    }
  }

  // ---------------------------------------------------------------------------
  // Operations

  /** `startWorkout`: the session begins and 50 xp are granted. */
  function StartWorkout(w: Session): (t: Transition)
    requires !w.started
    ensures t.session.started
    ensures t.session == w.(started := true)
    ensures XpOf(t.effects) == StartXp && |t.effects| == 1
  {
    Transition(w.(started := true), [EarnXp(StartXp)])
  }

  /** One second of the rest countdown, run only while resting with time left. */
  function Tick(w: Session): (r: Session)
    requires w.isResting && w.restTime > 0
    ensures 0 <= r.restTime < w.restTime
    ensures r.isResting <==> r.restTime > 0
    ensures r.isResting ==> r.restTime == w.restTime - 1
    ensures w.restTime > 1 ==> r.isResting && r.restTime == w.restTime - 1
    ensures r == w.(restTime := r.restTime, isResting := r.isResting)
  {
    if w.restTime <= 1 then w.(isResting := false, restTime := 0) else w.(restTime := w.restTime - 1)
  }

  /** `skipRest`: the rest ends at once; nothing else changes. */
  function SkipRest(w: Session): (r: Session)
    ensures !r.isResting && r.restTime == 0
    ensures r == w.(isResting := false, restTime := 0)
  {
    w.(isResting := false, restTime := 0)
  }

  /** `n` countdown ticks; the timer stops once the rest is over. */
  function Ticks(w: Session, n: nat): Session
    decreases n
  {
    if n == 0 || !(w.isResting && w.restTime > 0) then w else Ticks(Tick(w), n - 1)
  }

  /**
   * Starting a rest of r > 0 seconds, the first k < r ticks leave it resting
   * with r - k seconds, and exactly r ticks end it as `skipRest` would.
   */
  lemma {:induction false} RestEndsAfterRestTimeTicks(w: Session, k: nat)
    requires w.isResting && w.restTime > 0
    requires k <= w.restTime
    ensures k < w.restTime ==> Ticks(w, k) == w.(restTime := w.restTime - k)
    ensures k == w.restTime ==> Ticks(w, k) == SkipRest(w)
    decreases k
  {
    if k > 0 {
      var w' := Tick(w);
      if w.restTime == 1 {
        assert Ticks(w', 0) == w';
      } else {
        RestEndsAfterRestTimeTicks(w', k - 1);
      }
    }
  }

  /** The UI's guard for the complete-set button: started, not finished, not resting, reps entered. */
  predicate CanCompleteSet(w: Session) {
    && w.started && !w.complete && !w.isResting && w.reps.Some?
    && 0 <= w.currentExercise < |Plan|
  }

  /**
   * `completeSet`: record the set id, grant 25 xp, forward the reps when the
   * exercise is the push-up one, then rest before the next set, move to the
   * next exercise (75 xp) or finish the workout (200 xp).
   */
  function CompleteSet(w: Session): (t: Transition)
    requires CanCompleteSet(w)
    ensures t.session.completedSets == w.completedSets + [w.currentExercise * SetIdStride + w.currentSet]
    ensures t.session.reps.None? && t.session.started
    ensures |t.effects| >= 1 && t.effects[0] == EarnXp(SetXp)
    ensures w.currentSet < Plan[w.currentExercise].sets ==>
      && t.session.isResting && t.session.restTime == Plan[w.currentExercise].restTime
      && t.session.currentExercise == w.currentExercise && t.session.currentSet == w.currentSet + 1
      && !t.session.complete && XpOf(t.effects) == SetXp
    ensures w.currentSet >= Plan[w.currentExercise].sets && w.currentExercise < |Plan| - 1 ==>
      && !t.session.isResting && t.session.restTime == w.restTime
      && t.session.currentExercise == w.currentExercise + 1 && t.session.currentSet == 1
      && !t.session.complete && XpOf(t.effects) == SetXp + ExerciseXp
    ensures w.currentSet >= Plan[w.currentExercise].sets && w.currentExercise == |Plan| - 1 ==>
      && !t.session.isResting && t.session.restTime == w.restTime
      && t.session.currentExercise == w.currentExercise && t.session.currentSet == w.currentSet
      && t.session.complete && XpOf(t.effects) == SetXp + FinishXp
    ensures (exists i :: 0 <= i < |t.effects| && t.effects[i].ReportQuest?) <==>
      Plan[w.currentExercise].name == QuestTrackedExercise
    ensures forall i :: 0 <= i < |t.effects| && t.effects[i].ReportQuest? ==>
      t.effects[i] == ReportQuest(QuestExerciseName, w.reps.value)
    ensures |t.effects| == 1 + (if Plan[w.currentExercise].name == QuestTrackedExercise then 1 else 0)
      + (if w.currentSet >= Plan[w.currentExercise].sets then 1 else 0)
    ensures Plan[w.currentExercise].name == QuestTrackedExercise ==>
      t.effects[1] == ReportQuest(QuestExerciseName, w.reps.value)
    ensures w.currentSet >= Plan[w.currentExercise].sets ==>
      t.effects[|t.effects| - 1] == EarnXp(if w.currentExercise < |Plan| - 1 then ExerciseXp else FinishXp)
  {
    var ex := Plan[w.currentExercise];
    var setId := w.currentExercise * SetIdStride + w.currentSet;
    var quest := if ex.name == QuestTrackedExercise then [ReportQuest(QuestExerciseName, w.reps.value)] else [];
    var recorded := w.(completedSets := w.completedSets + [setId], reps := None);
    if w.currentSet < ex.sets then
      var effects := [EarnXp(SetXp)] + quest;
      XpOfAppend([EarnXp(SetXp)], quest);
      Transition(recorded.(isResting := true, restTime := ex.restTime, currentSet := w.currentSet + 1), effects)
    else if w.currentExercise < |Plan| - 1 then
      var effects := [EarnXp(SetXp)] + quest + [EarnXp(ExerciseXp)];
      XpOfAppend([EarnXp(SetXp)], quest);
      XpOfAppend([EarnXp(SetXp)] + quest, [EarnXp(ExerciseXp)]);
      Transition(recorded.(currentExercise := w.currentExercise + 1, currentSet := 1), effects)
    else
      var effects := [EarnXp(SetXp)] + quest + [EarnXp(FinishXp)];
      XpOfAppend([EarnXp(SetXp)], quest);
      XpOfAppend([EarnXp(SetXp)] + quest, [EarnXp(FinishXp)]);
      Transition(recorded.(complete := true), effects)
  }

  /** `n.toString().padStart(2, '0')`: at least two digits that read back as `n`, padded only below 10. */
  function TwoDigitField(n: nat): (f: string)
    ensures |f| >= 2 && AllDigits(f) && ParseDigits(f) == n
    ensures n < 100 ==> |f| == 2
    ensures n >= 10 ==> f[0] != '0'
  {
    ParsePaddedNat(n, 2);
    if n < 100 then
      NatToStringBelow100(n);
      PadStart(NatToString(n), 2, '0')
    else
      PadStart(NatToString(n), 2, '0')
  }

  /** `m:s` for a two-character `s`; the colon and both fields can be read back off the end. */
  function JoinClock(m: string, s: string): (r: string)
    requires |s| == 2 && AllDigits(m) && AllDigits(s)
    ensures |r| == |m| + 3 && r[|r| - 3] == ':'
    ensures r[..|r| - 3] == m && r[|r| - 2..] == s
  {
    var r := m + ":" + s;
    assert r[..|r| - 3] == m;
    assert r[|r| - 2..] == s;
    r
  }

  /** `formatTime`: minutes and seconds, each padded to two digits, e.g. 90 is "01:30". */
  method FormatTime(seconds: nat) returns (r: string)
    ensures |r| >= 5 && r[|r| - 3] == ':'
    ensures AllDigits(r[..|r| - 3]) && AllDigits(r[|r| - 2..])
    ensures ParseDigits(r[|r| - 2..]) < 60
    ensures ParseDigits(r[..|r| - 3]) * 60 + ParseDigits(r[|r| - 2..]) == seconds
    ensures seconds < 6000 ==> |r| == 5
    ensures seconds >= 600 ==> r[0] != '0'
  {
    var mins := JsMath.FloorDiv(seconds, 60);
    var secs := JsMath.Rem(seconds, 60);
    JsMath.FloorDivRem(seconds, 60);
    var m := TwoDigitField(mins);
    var s := TwoDigitField(secs);
    r := JoinClock(m, s);
  }

  // ---------------------------------------------------------------------------
  // The session as a state machine driven by the page's controls

  datatype Action =
    | Begin                       // the initiate-training button
    | TypeReps(value: Option<int>) // editing the reps input
    | Complete                    // the complete-set button
    | TimerTick                   // one second of the rest interval
    | Skip                        // the skip-rest button

  /** Which controls the page renders enabled in a given state. */
  predicate Enabled(w: Session, a: Action) {
    match a
    case Begin => !w.started
    case TypeReps(_) => w.started && !w.complete && !w.isResting
    case Complete => CanCompleteSet(w)
    case TimerTick => w.isResting && w.restTime > 0
    case Skip => w.started && !w.complete && w.isResting
  }

  function Apply(w: Session, a: Action): Transition
    requires Enabled(w, a)
  {
    match a
    case Begin => StartWorkout(w)
    case TypeReps(v) => Transition(w.(reps := v), [])
    case Complete => CompleteSet(w)
    case TimerTick => Transition(Tick(w), [])
    case Skip => Transition(SkipRest(w), [])
  }

  /** [1, 2, ..., k]. */
  function Counting(k: nat): (r: seq<int>)
    ensures |r| == k
    ensures forall i :: 0 <= i < k ==> r[i] == i + 1
  {
    seq(k, i => i + 1)
  }

  /** The number of sets recorded so far, read off the position in the plan. */
  function SetsDone(w: Session): int {
    w.currentExercise * SetIdStride + w.currentSet - (if w.complete then 0 else 1)
  }

  /** What holds in every state the page can reach. */
  predicate Inv(w: Session) {
    && 0 <= w.currentExercise < |Plan|
    && 1 <= w.currentSet <= Plan[w.currentExercise].sets
    && 0 <= w.restTime
    && (w.isResting <==> w.restTime > 0)
    && 0 <= SetsDone(w)
    && w.completedSets == Counting(SetsDone(w))
    && (!w.started ==> w.currentExercise == 0 && w.currentSet == 1 && !w.isResting && !w.complete)
    && (w.complete ==> w.currentExercise == |Plan| - 1 && w.currentSet == Plan[|Plan| - 1].sets && !w.isResting)
  }

  /** The experience a session in this state has granted so far. */
  function Earned(w: Session): nat
    requires 0 <= w.currentExercise
  {
    (if w.started then StartXp else 0) + SetXp * |w.completedSets| + ExerciseXp * w.currentExercise
    + (if w.complete then FinishXp else 0)
  }

  lemma InitialInv()
    ensures Inv(Initial) && Earned(Initial) == 0
  {
  }

  /** Every enabled control keeps the invariant, and the xp it grants is exactly the growth of `Earned`. */
  lemma ApplyKeepsInv(w: Session, a: Action)
    requires Inv(w) && Enabled(w, a)
    ensures Inv(Apply(w, a).session)
    ensures XpOf(Apply(w, a).effects) + Earned(w) == Earned(Apply(w, a).session)
  {
    var t := Apply(w, a);
    if a.Complete? {
      var k := SetsDone(w);
      assert Counting(k) + [k + 1] == Counting(k + 1);
    }
  }

  /** Replays a sequence of controls; `None` if one of them is disabled when it comes. */
  function Run(w: Session, acts: seq<Action>): Option<Transition>
    decreases |acts|
  {
    if |acts| == 0 then Some(Transition(w, []))
    else if !Enabled(w, acts[0]) then None
    else
      var t := Apply(w, acts[0]);
      match Run(t.session, acts[1..])
      case None => None
      case Some(rest) => Some(Transition(rest.session, t.effects + rest.effects))
  }

  lemma {:induction false} RunKeepsInv(w: Session, acts: seq<Action>)
    requires Inv(w) && Run(w, acts).Some?
    ensures Inv(Run(w, acts).value.session)
    ensures XpOf(Run(w, acts).value.effects) + Earned(w) == Earned(Run(w, acts).value.session)
    decreases |acts|
  {
    if |acts| > 0 {
      var t := Apply(w, acts[0]);
      ApplyKeepsInv(w, acts[0]);
      RunKeepsInv(t.session, acts[1..]);
      XpOfAppend(t.effects, Run(t.session, acts[1..]).value.effects);
    }
  }

  /**
   * In every reachable state the exercise index and set number stay inside
   * the plan and the recorded set ids are exactly 1, 2, ..., k.
   */
  lemma ReachableBounds(acts: seq<Action>)
    requires Run(Initial, acts).Some?
    ensures var w := Run(Initial, acts).value.session;
      && 0 <= w.currentExercise < |Plan|
      && 1 <= w.currentSet <= Plan[w.currentExercise].sets
      && w.restTime >= 0
      && (forall i :: 0 <= i < |w.completedSets| ==> w.completedSets[i] == i + 1)
      && (forall i, j :: 0 <= i < j < |w.completedSets| ==> w.completedSets[i] < w.completedSets[j])
  {
    InitialInv();
    RunKeepsInv(Initial, acts);
  }

  /**
   * A session that reaches the completion screen has sent xp grants summing
   * to 50 + 25 * 15 + 75 * 4 + 200 = 925, not counting any quest bonus.
   */
  lemma FullSessionXp(acts: seq<Action>)
    requires Run(Initial, acts).Some? && Run(Initial, acts).value.session.complete
    ensures XpOf(Run(Initial, acts).value.effects) == 925
    ensures |Run(Initial, acts).value.session.completedSets| == 15
  {
    InitialInv();
    RunKeepsInv(Initial, acts);
  }

  // ---------------------------------------------------------------------------
  // Running the calls against the progression store

  /** One call into the store. */
  function ApplyEffect(st: UserContext.Store, e: Effect, id: string): (r: UserContext.Store)
    requires UserContext.UserInvariant(st.user)
    ensures UserContext.UserInvariant(r.user)
    ensures r.user.level >= st.user.level
    ensures UserContext.QuestInvariant(st.quest) ==> UserContext.QuestInvariant(r.quest)
    ensures e.EarnXp? ==> r.quest == st.quest
    ensures |st.messages| <= |r.messages| && r.messages[..|st.messages|] == st.messages
  {
    match e
    case EarnXp(amount) => UserContext.AddXp(st, amount, id)
    case ReportQuest(name, progress) =>
      var r := UserContext.UpdateQuest(st, name, progress, id);
      if UserContext.QuestInvariant(st.quest) then
        UserContext.QuestAfterKeepsInvariant(st.quest, name, progress);
        r
      else
        r
  }

  /**
   * Runs one action's calls in order; every message they log takes the
   * action's `id`. The user invariant and the quest invariant
   * survive, the level never drops, the log only grows, and calls that are
   * all xp grants leave the quest alone.
   */
  function ApplyEffects(st: UserContext.Store, es: seq<Effect>, id: string): (r: UserContext.Store)
    requires UserContext.UserInvariant(st.user)
    ensures UserContext.UserInvariant(r.user)
    ensures r.user.level >= st.user.level
    ensures UserContext.QuestInvariant(st.quest) ==> UserContext.QuestInvariant(r.quest)
    ensures (forall i :: 0 <= i < |es| ==> es[i].EarnXp?) ==> r.quest == st.quest
    ensures |st.messages| <= |r.messages| && r.messages[..|st.messages|] == st.messages
    decreases |es|
  {
    if |es| == 0 then st
    else
      var st' := ApplyEffect(st, es[0], id);
      var r := ApplyEffects(st', es[1..], id);
      assert r.messages[..|st.messages|] == r.messages[..|st'.messages|][..|st.messages|];
      r
  }
}
