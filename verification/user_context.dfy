/**
 * The progression store: the user record, the daily quest and the message
 * log, with the four operations the screens call (`addXP`, `updateQuest`,
 * `markMessageRead`, `updateUser`) written as functions from store to store.
 * Message ids are supplied by the caller; creation timestamps are not kept.
 */
module UserContext {
  import opened Wrappers
  import opened Decimal
  import JsMath

  datatype User = User(
    level: int,
    xp: int,
    maxXp: int,
    strength: int,
    endurance: int,
    constitution: int,
    name: string,
    title: string,
    classification: string)

  datatype QuestExercise = QuestExercise(name: string, current: int, target: int, completed: bool)

  datatype DailyQuest = DailyQuest(name: string, exercises: seq<QuestExercise>, completed: bool)

  datatype Message = Message(id: string, from: string, subject: string, content: string, read: bool)

  datatype Store = Store(user: User, quest: DailyQuest, messages: seq<Message>)

  const SystemSender: string := "The System"
  const LevelUpSubject: string := "LEVEL UP!"
  const QuestCompletedSubject: string := "DAILY QUEST COMPLETED"
  const QuestBonusXp: nat := 200

  /** The experience needed for the next level, recomputed after every grant. */
  function MaxXpFor(level: int): int {
    1000 + level * 100
  }

  const SeedUser: User :=
    User(12, 750, 1000, 45, 38, 55, "WARRIOR", "Beginner's Strength", "Unspecialized")

  const SeedQuest: DailyQuest :=
    DailyQuest("PATH TO POWER", [
      QuestExercise("Push-ups", 0, 100, false),
      QuestExercise("Squats", 0, 100, false),
      QuestExercise("Burpees", 0, 50, false)
    ], false)

  const WelcomeSubject: string := "WELCOME TO THE SYSTEM"
  const WelcomeContent: string :=
    "You have been selected to participate in the ultimate fitness journey. Your transformation begins now."
  const LevelUpAchievedSubject: string := "LEVEL UP ACHIEVED"
  const LevelUpAchievedContent: string :=
    "Congratulations! You have reached Level 12. Your dedication has been noted. Continue your ascension."
  const LevelUpContentPrefix: string := "You have defeated your past self and grown stronger. You have reached LV. "
  const QuestCompletedContent: string :=
    "Excellent work! You have completed today's quest and earned 200 XP bonus. Your power grows."

  const SeedMessages: seq<Message> := [
    Message("1", SystemSender, WelcomeSubject, WelcomeContent, false),
    Message("2", SystemSender, LevelUpAchievedSubject, LevelUpAchievedContent, false)
  ]

  /** The state every session starts from. */
  const Seed: Store := Store(SeedUser, SeedQuest, SeedMessages)

  /** The unread level-up notice; its text ends with the new level in decimal. */
  function LevelUpMessage(id: string, level: int): Message {
    Message(id, SystemSender, LevelUpSubject, LevelUpContentPrefix + IntToString(level) + ".", false)
  }

  /** The unread notice logged when the daily quest is completed. */
  function QuestCompletedMessage(id: string): Message {
    Message(id, SystemSender, QuestCompletedSubject, QuestCompletedContent, false)
  }

  // ---------------------------------------------------------------------------
  // addXP

  /**
   * The user-record half of `addXP`: the new total is split by the maximum
   * in force BEFORE the call (floor quotient into levels, JavaScript remainder
   * into xp), and the maximum is then recomputed from the new level whether
   * or not a level was crossed.
   */
  function GrantXp(u: User, amount: int): (r: User)
    requires u.maxXp > 0
    ensures r.maxXp == MaxXpFor(r.level)
    ensures r == u.(level := r.level, xp := r.xp, maxXp := r.maxXp)
  {
    var newXp := u.xp + amount;
    var newLevel := u.level + JsMath.FloorDiv(newXp, u.maxXp);
    u.(level := newLevel, xp := JsMath.Rem(newXp, u.maxXp), maxXp := MaxXpFor(newLevel))
  }

  /**
   * How `GrantXp` splits the new total: the levels gained are its floor
   * quotient by the old maximum, and the xp left is the remainder, which is
   * in [0, maxXp) for a non-negative total and in (-maxXp, 0] otherwise.
   */
  lemma {:induction false} GrantXpSplitsTotal(u: User, amount: int)
    requires u.maxXp > 0
    ensures var r := GrantXp(u, amount);
      (r.level - u.level) * u.maxXp <= u.xp + amount < (r.level - u.level) * u.maxXp + u.maxXp
    ensures var r := GrantXp(u, amount); u.xp + amount >= 0 ==>
      (r.level - u.level) * u.maxXp + r.xp == u.xp + amount && 0 <= r.xp < u.maxXp
    ensures var r := GrantXp(u, amount); u.xp + amount < 0 ==>
      -u.maxXp < r.xp <= 0 && (u.xp + amount - r.xp) % u.maxXp == 0
  {
    var newXp := u.xp + amount;
    var r := GrantXp(u, amount);
    assert r.level - u.level == JsMath.FloorDiv(newXp, u.maxXp);
    assert r.xp == JsMath.Rem(newXp, u.maxXp);
    if newXp >= 0 {
      JsMath.FloorDivRem(newXp, u.maxXp);
    }
  }

  /** The shape of a user record that `addXP` keeps: 0 <= xp < maxXp <= the formula's maximum. */
  predicate UserInvariant(u: User) {
    0 <= u.xp < u.maxXp <= MaxXpFor(u.level)
  }

  lemma SeedUserInvariant()
    ensures UserInvariant(SeedUser)
  {
  }

  /**
   * From a non-negative xp and any positive maximum, a non-negative grant
   * never lowers the level and leaves xp in [0, old maxXp).
   */
  lemma {:induction false} GrantXpNeverLowersLevel(u: User, amount: int)
    requires u.maxXp > 0 && u.xp >= 0 && amount >= 0
    ensures GrantXp(u, amount).level >= u.level
    ensures 0 <= GrantXp(u, amount).xp < u.maxXp
  {
    var r := GrantXp(u, amount);
    GrantXpSplitsTotal(u, amount);
    JsMath.ScaleBounds(r.level - u.level, u.maxXp);
  }

  /**
   * From a maximum no larger than the formula's, a non-negative grant keeps
   * xp below the new maximum too, and so keeps the invariant.
   */
  lemma {:induction false} GrantXpKeepsInvariant(u: User, amount: int)
    requires UserInvariant(u) && amount >= 0
    ensures UserInvariant(GrantXp(u, amount))
  {
    var r := GrantXp(u, amount);
    GrantXpNeverLowersLevel(u, amount);
    assert MaxXpFor(u.level) <= MaxXpFor(r.level);
  }

  /** `addXP(amount)`: grant the experience and, if the level rose, log one level-up message. */
  function AddXp(s: Store, amount: int, id: string): (r: Store)
    requires s.user.maxXp > 0
    ensures r.user == GrantXp(s.user, amount)
    ensures r.quest == s.quest
    ensures r.user.level > s.user.level ==> r.messages == s.messages + [LevelUpMessage(id, r.user.level)]
    ensures r.user.level <= s.user.level ==> r.messages == s.messages
    ensures UserInvariant(s.user) && amount >= 0 ==> UserInvariant(r.user) && r.user.level >= s.user.level
    ensures |s.messages| <= |r.messages| && r.messages[..|s.messages|] == s.messages
  {
    var u := GrantXp(s.user, amount);
    var r := if u.level > s.user.level then Store(u, s.quest, s.messages + [LevelUpMessage(id, u.level)]) else s.(user := u);
    if UserInvariant(s.user) && amount >= 0 then
      GrantXpNeverLowersLevel(s.user, amount);
      GrantXpKeepsInvariant(s.user, amount);
      r
    else
      r
  }

  /**
   * One level per full threshold: if the new total is k thresholds plus a
   * remainder below the threshold, exactly k levels are crossed and the
   * remainder is kept.
   */
  lemma {:induction false} GrantXpCrossesOneLevelPerThreshold(u: User, amount: int, k: int, rest: int)
    requires u.maxXp > 0
    requires k >= 0 && 0 <= rest < u.maxXp && u.xp + amount == k * u.maxXp + rest
    ensures GrantXp(u, amount).level == u.level + k
    ensures GrantXp(u, amount).xp == rest
  {
    JsMath.DivUnique(u.xp + amount, u.maxXp, k, rest);
  }

  /** At most one level-up message per call, however many levels are crossed. */
  lemma AddXpLogsOneMessagePerCall(s: Store, amount: int, id: string)
    requires s.user.maxXp > 0
    ensures |AddXp(s, amount, id).messages| == |s.messages| + (if AddXp(s, amount, id).user.level > s.user.level then 1 else 0)
    ensures |AddXp(s, amount, id).messages| <= |s.messages| + 1
  {
  }

  /** The seed user at level 12 with 750 of 1000 xp, given 300: level 13, 50 xp, maximum 2300, one message. */
  lemma SeedAddXp300(id: string)
    ensures AddXp(Seed, 300, id).user.level == 13
    ensures AddXp(Seed, 300, id).user.xp == 50
    ensures AddXp(Seed, 300, id).user.maxXp == 2300
    ensures AddXp(Seed, 300, id).messages == SeedMessages + [LevelUpMessage(id, 13)]
  {
    GrantXpCrossesOneLevelPerThreshold(SeedUser, 300, 1, 50);
  }

  // ---------------------------------------------------------------------------
  // updateQuest

  function Min(a: int, b: int): int {
    if a <= b then a else b
  }

  /** One exercise after a progress report: capped at the target from above only. */
  function ApplyProgress(e: QuestExercise, progress: int): (r: QuestExercise)
    ensures r.name == e.name && r.target == e.target
    ensures r.current <= e.target
    ensures progress <= e.target ==> r.current == progress
    ensures progress >= e.target ==> r.current == e.target
    ensures r.completed <==> progress >= e.target
  {
    var current := Min(e.target, progress);
    e.(current := current, completed := current >= e.target)
  }

  predicate AllCompleted(es: seq<QuestExercise>) {
    forall i :: 0 <= i < |es| ==> es[i].completed
  }

  /**
   * The quest half of `updateQuest`: every exercise with the given name takes
   * the progress, the others are left as they are, and the quest's flag is
   * recomputed from the new exercises (so it can fall back to false).
   */
  function QuestAfter(q: DailyQuest, name: string, progress: int): (r: DailyQuest)
    ensures r.name == q.name && |r.exercises| == |q.exercises|
    ensures forall i :: 0 <= i < |q.exercises| && q.exercises[i].name == name ==>
      r.exercises[i] == ApplyProgress(q.exercises[i], progress)
    ensures forall i :: 0 <= i < |q.exercises| && q.exercises[i].name != name ==>
      r.exercises[i] == q.exercises[i]
    ensures r.completed <==> forall i :: 0 <= i < |r.exercises| ==> r.exercises[i].completed
  {
    var es := q.exercises;
    var exercises := seq(|es|, i requires 0 <= i < |es| =>
      if es[i].name == name then ApplyProgress(es[i], progress) else es[i]);
    q.(exercises := exercises, completed := AllCompleted(exercises))
  }

  /** The level-up notice a grant that took `u` to `v` logs: one if the level rose, none otherwise. */
  function LevelUpLog(u: User, v: User, id: string): multiset<Message> {
    if v.level > u.level then multiset{LevelUpMessage(id, v.level)} else multiset{}
  }

  /**
   * `updateQuest(name, progress)`: the quest is replaced by `QuestAfter`; the
   * bonus is granted exactly when the recomputed flag is true and the
   * previous one was false, and then consists of 200 xp through `addXP` and
   * the completion notice. The order of that notice and a level-up notice is
   * left open.
   */
  function UpdateQuest(s: Store, name: string, progress: int, id: string): (r: Store)
    requires s.user.maxXp > 0
    ensures r.quest == QuestAfter(s.quest, name, progress)
    ensures |s.messages| <= |r.messages| && r.messages[..|s.messages|] == s.messages
    ensures r.quest.completed && !s.quest.completed ==>
      && r.user == GrantXp(s.user, QuestBonusXp)
      && multiset(r.messages[|s.messages|..]) == multiset{QuestCompletedMessage(id)} + LevelUpLog(s.user, r.user, id)
    ensures !(r.quest.completed && !s.quest.completed) ==> r.user == s.user && r.messages == s.messages
    ensures UserInvariant(s.user) ==> UserInvariant(r.user) && r.user.level >= s.user.level
  {
    var quest := QuestAfter(s.quest, name, progress);
    if quest.completed && !s.quest.completed then
      var logged := Store(s.user, quest, s.messages + [QuestCompletedMessage(id)]);
      var r := AddXp(logged, QuestBonusXp, id);
      var added := if r.user.level > s.user.level then [LevelUpMessage(id, r.user.level)] else [];
      assert r.messages == s.messages + ([QuestCompletedMessage(id)] + added);
      assert r.messages[|s.messages|..] == [QuestCompletedMessage(id)] + added;
      r
    else
      s.(quest := quest)
  }

  /** Each exercise's flag agrees with its counters, no counter is above its target, and the quest flag is the conjunction. */
  predicate QuestInvariant(q: DailyQuest) {
    && (forall i :: 0 <= i < |q.exercises| ==>
          q.exercises[i].current <= q.exercises[i].target
          && (q.exercises[i].completed <==> q.exercises[i].current >= q.exercises[i].target))
    && (q.completed <==> AllCompleted(q.exercises))
  }

  lemma SeedQuestInvariant()
    ensures QuestInvariant(SeedQuest)
  {
    assert !SeedQuest.exercises[0].completed;
  }

  /** However large the reported progress, no counter ends above its target and the flags stay consistent. */
  lemma QuestAfterKeepsInvariant(q: DailyQuest, name: string, progress: int)
    requires QuestInvariant(q)
    ensures QuestInvariant(QuestAfter(q, name, progress))
  {
    var es := q.exercises;
    var rs := QuestAfter(q, name, progress).exercises;
    forall i | 0 <= i < |rs|
      ensures rs[i].current <= rs[i].target && (rs[i].completed <==> rs[i].current >= rs[i].target)
    {
      if es[i].name == name {
        assert rs[i] == ApplyProgress(es[i], progress);
      } else {
        assert rs[i] == es[i];
      }
    }
  }

  /** Reporting the same progress twice is the same as reporting it once. */
  lemma QuestAfterIdempotent(q: DailyQuest, name: string, progress: int)
    ensures QuestAfter(QuestAfter(q, name, progress), name, progress) == QuestAfter(q, name, progress)
  {
    var q1 := QuestAfter(q, name, progress);
    var q2 := QuestAfter(q1, name, progress);
    forall i | 0 <= i < |q.exercises|
      ensures q2.exercises[i] == q1.exercises[i]
    {
      if q.exercises[i].name == name {
        assert q1.exercises[i] == ApplyProgress(q.exercises[i], progress);
        assert q2.exercises[i] == ApplyProgress(q1.exercises[i], progress);
      }
    }
    assert q2.exercises == q1.exercises;
  }

  /** Completion is not sticky: reporting less than the target of a named exercise clears the quest flag. */
  lemma QuestAfterBelowTargetClearsCompletion(q: DailyQuest, name: string, progress: int, i: int)
    requires 0 <= i < |q.exercises| && q.exercises[i].name == name
    requires progress < q.exercises[i].target
    ensures !QuestAfter(q, name, progress).completed
  {
    var r := QuestAfter(q, name, progress);
    assert !r.exercises[i].completed;
  }

  /** Once the quest is complete, further reports never grant the bonus again. */
  lemma UpdateQuestNoBonusWhenCompleted(s: Store, name: string, progress: int, id: string)
    requires s.user.maxXp > 0 && s.quest.completed
    ensures UpdateQuest(s, name, progress, id).user == s.user
    ensures UpdateQuest(s, name, progress, id).messages == s.messages
  {
  }

  /** The bonus is granted exactly when the call makes the quest complete. */
  lemma UpdateQuestBonusIff(s: Store, name: string, progress: int, id: string)
    requires s.user.maxXp > 0
    ensures var r := UpdateQuest(s, name, progress, id);
      (r.quest.completed && !s.quest.completed) <==> QuestCompletedMessage(id) in r.messages[|s.messages|..]
  {
    var r := UpdateQuest(s, name, progress, id);
    if r.quest.completed && !s.quest.completed {
      var logged := s.messages + [QuestCompletedMessage(id)];
      assert r.messages[..|logged|] == logged;
      assert r.messages[|s.messages|] == logged[|s.messages|];
      assert r.messages[|s.messages|..][0] == QuestCompletedMessage(id);
    } else {
      assert r.messages[|s.messages|..] == [];
    }
  }

  /** The seed quest with the three counters set to the given values (each at most its target). */
  function SeedQuestAt(pushUps: int, squats: int, burpees: int): DailyQuest {
    DailyQuest("PATH TO POWER", [
      QuestExercise("Push-ups", pushUps, 100, pushUps >= 100),
      QuestExercise("Squats", squats, 100, squats >= 100),
      QuestExercise("Burpees", burpees, 50, burpees >= 50)
    ], pushUps >= 100 && squats >= 100 && burpees >= 50)
  }

  /** A report against the seed quest changes exactly the named counter, capped at its target. */
  lemma QuestAfterSeed(p: int, q: int, b: int, name: string, v: int)
    requires p <= 100 && q <= 100 && b <= 50
    ensures QuestAfter(SeedQuestAt(p, q, b), name, v) == SeedQuestAt(
      if name == "Push-ups" then Min(100, v) else p,
      if name == "Squats" then Min(100, v) else q,
      if name == "Burpees" then Min(50, v) else b)
  {
    var r := QuestAfter(SeedQuestAt(p, q, b), name, v);
    var t := SeedQuestAt(
      if name == "Push-ups" then Min(100, v) else p,
      if name == "Squats" then Min(100, v) else q,
      if name == "Burpees" then Min(50, v) else b);
    assert r.exercises == t.exercises;
    assert AllCompleted(t.exercises) <==> t.completed by {
      if t.completed {
        assert forall i :: 0 <= i < 3 ==> t.exercises[i].completed;
      } else if t.exercises[0].current < 100 {
        assert !t.exercises[0].completed;
      } else if t.exercises[1].current < 100 {
        assert !t.exercises[1].completed;
      } else {
        assert !t.exercises[2].completed;
      }
    }
  }

  /** A report that leaves the seed quest incomplete, or finds it already complete, only moves the counter. */
  lemma QuestStepNoBonus(s: Store, p: int, q: int, b: int, name: string, v: int, id: string)
    requires s.user.maxXp > 0 && s.quest == SeedQuestAt(p, q, b)
    requires p <= 100 && q <= 100 && b <= 50
    requires !(Min(100, if name == "Push-ups" then v else p) >= 100
            && Min(100, if name == "Squats" then v else q) >= 100
            && Min(50, if name == "Burpees" then v else b) >= 50) || s.quest.completed
    ensures UpdateQuest(s, name, v, id) == s.(quest := SeedQuestAt(
      if name == "Push-ups" then Min(100, v) else p,
      if name == "Squats" then Min(100, v) else q,
      if name == "Burpees" then Min(50, v) else b))
  {
    QuestAfterSeed(p, q, b, name, v);
  }

  /**
   * A report that completes the seed quest, when the bonus stays below the
   * current maximum: 200 xp are added in place, the maximum is recomputed
   * from the unchanged level, and only the completion notice is logged.
   */
  lemma QuestStepBonus(s: Store, p: int, q: int, b: int, name: string, v: int, id: string)
    requires s.user.maxXp > 0 && 0 <= s.user.xp && s.user.xp + QuestBonusXp < s.user.maxXp
    requires s.quest == SeedQuestAt(p, q, b) && !s.quest.completed
    requires p <= 100 && q <= 100 && b <= 50
    requires Min(100, if name == "Push-ups" then v else p) >= 100
          && Min(100, if name == "Squats" then v else q) >= 100
          && Min(50, if name == "Burpees" then v else b) >= 50
    ensures UpdateQuest(s, name, v, id) ==
      Store(s.user.(xp := s.user.xp + QuestBonusXp, maxXp := MaxXpFor(s.user.level)),
            SeedQuestAt(100, 100, 50), s.messages + [QuestCompletedMessage(id)])
  {
    QuestAfterSeed(p, q, b, name, v);
    assert QuestAfter(s.quest, name, v) == SeedQuestAt(100, 100, 50);
    GrantXpCrossesOneLevelPerThreshold(s.user, QuestBonusXp, 0, s.user.xp + QuestBonusXp);
  }

  /** The seed store after the quest has been completed once: 200 xp granted, one message logged. */
  function SeedQuestDone(id: string): Store {
    Store(SeedUser.(xp := 950, maxXp := 2200), SeedQuestAt(100, 100, 50), SeedMessages + [QuestCompletedMessage(id)])
  }

  /**
   * From the seed: Push-ups to 100, Squats to 100, then Burpees to 50 twice.
   * The first Burpees report completes the quest and grants 200 xp with one
   * message; repeating it changes nothing.
   */
  lemma SeedQuestScenario(id: string)
    ensures UpdateQuest(Seed, "Push-ups", 100, id) == Seed.(quest := SeedQuestAt(100, 0, 0))
    ensures UpdateQuest(Seed.(quest := SeedQuestAt(100, 0, 0)), "Squats", 100, id) == Seed.(quest := SeedQuestAt(100, 100, 0))
    ensures UpdateQuest(Seed.(quest := SeedQuestAt(100, 100, 0)), "Burpees", 50, id) == SeedQuestDone(id)
    ensures UpdateQuest(SeedQuestDone(id), "Burpees", 50, id) == SeedQuestDone(id)
  {
    assert Seed.quest == SeedQuestAt(0, 0, 0);
    QuestStepNoBonus(Seed, 0, 0, 0, "Push-ups", 100, id);
    QuestStepNoBonus(Seed.(quest := SeedQuestAt(100, 0, 0)), 100, 0, 0, "Squats", 100, id);
    QuestStepBonus(Seed.(quest := SeedQuestAt(100, 100, 0)), 100, 100, 0, "Burpees", 50, id);
    QuestStepNoBonus(SeedQuestDone(id), 100, 100, 50, "Burpees", 50, id);
  }

  /**
   * Because completion is recomputed, lowering and then restoring a counter
   * grants the bonus a second time: after the quest is done, Burpees to 10
   * clears the flag and Burpees back to 50 grants another 200 xp and logs a
   * second completion message.
   */
  lemma QuestBonusRefiresAfterDrop(id: string, id2: string)
    ensures UpdateQuest(SeedQuestDone(id), "Burpees", 10, id2) == SeedQuestDone(id).(quest := SeedQuestAt(100, 100, 10))
    ensures UpdateQuest(SeedQuestDone(id).(quest := SeedQuestAt(100, 100, 10)), "Burpees", 50, id2) ==
      Store(SeedUser.(xp := 1150, maxXp := 2200), SeedQuestAt(100, 100, 50),
            SeedMessages + [QuestCompletedMessage(id), QuestCompletedMessage(id2)])
  {
    QuestStepNoBonus(SeedQuestDone(id), 100, 100, 50, "Burpees", 10, id2);
    QuestStepBonus(SeedQuestDone(id).(quest := SeedQuestAt(100, 100, 10)), 100, 100, 10, "Burpees", 50, id2);
  }

  // ---------------------------------------------------------------------------
  // markMessageRead and the unread counter of the dashboard and inbox

  /** `markMessageRead(id)`: every message with the id becomes read; nothing else changes. */
  function MarkMessageRead(s: Store, id: string): (r: Store)
    ensures r.user == s.user && r.quest == s.quest
    ensures |r.messages| == |s.messages|
    ensures forall i :: 0 <= i < |s.messages| ==>
      r.messages[i].read == (s.messages[i].read || s.messages[i].id == id)
      && r.messages[i].(read := s.messages[i].read) == s.messages[i]
  {
    var ms := s.messages;
    s.(messages := seq(|ms|, i requires 0 <= i < |ms| => if ms[i].id == id then ms[i].(read := true) else ms[i]))
  }

  /** The number of unread messages, as the dashboard badge and inbox header show it. */
  function UnreadCount(ms: seq<Message>): (n: nat)
    ensures n <= |ms|
  {
    if |ms| == 0 then 0 else (if ms[0].read then 0 else 1) + UnreadCount(ms[1..])
  }

  lemma MarkMessageReadIdempotent(s: Store, id: string)
    ensures MarkMessageRead(MarkMessageRead(s, id), id) == MarkMessageRead(s, id)
  {
    var r1 := MarkMessageRead(s, id);
    var r2 := MarkMessageRead(r1, id);
    assert r2.messages == r1.messages;
  }

  /** If every message read in `a` is read in `b` (same length), `b` has no more unread; strictly fewer if some flag flipped. */
  lemma {:induction false} UnreadCountPointwise(a: seq<Message>, b: seq<Message>)
    requires |a| == |b|
    requires forall i :: 0 <= i < |a| ==> a[i].read ==> b[i].read
    ensures UnreadCount(b) <= UnreadCount(a)
    ensures (exists i :: 0 <= i < |a| && !a[i].read && b[i].read) ==> UnreadCount(b) < UnreadCount(a)
  {
    if |a| > 0 {
      UnreadCountPointwise(a[1..], b[1..]);
      if exists i :: 0 <= i < |a| && !a[i].read && b[i].read {
        var i :| 0 <= i < |a| && !a[i].read && b[i].read;
        if i > 0 {
          assert !a[1..][i - 1].read && b[1..][i - 1].read;
        }
      }
    }
  }

  /** Marking a message read never raises the unread count, and lowers it when an unread message has that id. */
  lemma MarkMessageReadUnreadCount(s: Store, id: string)
    ensures UnreadCount(MarkMessageRead(s, id).messages) <= UnreadCount(s.messages)
    ensures (exists i :: 0 <= i < |s.messages| && s.messages[i].id == id && !s.messages[i].read) ==>
      UnreadCount(MarkMessageRead(s, id).messages) < UnreadCount(s.messages)
  {
    var r := MarkMessageRead(s, id);
    UnreadCountPointwise(s.messages, r.messages);
    if exists i :: 0 <= i < |s.messages| && s.messages[i].id == id && !s.messages[i].read {
      var i :| 0 <= i < |s.messages| && s.messages[i].id == id && !s.messages[i].read;
      assert !s.messages[i].read && r.messages[i].read;
    }
  }

  // ---------------------------------------------------------------------------
  // updateUser

  /** A `Partial<UserStats>`: each field either given or absent. */
  datatype UserPatch = UserPatch(
    level: Option<int>,
    xp: Option<int>,
    maxXp: Option<int>,
    strength: Option<int>,
    endurance: Option<int>,
    constitution: Option<int>,
    name: Option<string>,
    title: Option<string>,
    classification: Option<string>)

  const EmptyPatch: UserPatch := UserPatch(None, None, None, None, None, None, None, None, None)

  /** `updateUser(patch)`: the shallow merge `{ ...prev, ...patch }` on the user record only. */
  function UpdateUser(s: Store, p: UserPatch): (r: Store)
    ensures r.quest == s.quest && r.messages == s.messages
    ensures p.level.Some? ==> r.user.level == p.level.value
    ensures p.level.None? ==> r.user.level == s.user.level
    ensures p.xp.Some? ==> r.user.xp == p.xp.value
    ensures p.xp.None? ==> r.user.xp == s.user.xp
    ensures p.maxXp.Some? ==> r.user.maxXp == p.maxXp.value
    ensures p.maxXp.None? ==> r.user.maxXp == s.user.maxXp
    ensures p.strength.Some? ==> r.user.strength == p.strength.value
    ensures p.strength.None? ==> r.user.strength == s.user.strength
    ensures p.endurance.Some? ==> r.user.endurance == p.endurance.value
    ensures p.endurance.None? ==> r.user.endurance == s.user.endurance
    ensures p.constitution.Some? ==> r.user.constitution == p.constitution.value
    ensures p.constitution.None? ==> r.user.constitution == s.user.constitution
    ensures p.name.Some? ==> r.user.name == p.name.value
    ensures p.name.None? ==> r.user.name == s.user.name
    ensures p.title.Some? ==> r.user.title == p.title.value
    ensures p.title.None? ==> r.user.title == s.user.title
    ensures p.classification.Some? ==> r.user.classification == p.classification.value
    ensures p.classification.None? ==> r.user.classification == s.user.classification
  {
    var u := s.user;
    s.(user := User(
      p.level.GetOr(u.level),
      p.xp.GetOr(u.xp),
      p.maxXp.GetOr(u.maxXp),
      p.strength.GetOr(u.strength),
      p.endurance.GetOr(u.endurance),
      p.constitution.GetOr(u.constitution),
      p.name.GetOr(u.name),
      p.title.GetOr(u.title),
      p.classification.GetOr(u.classification)))
  }

  function Later<T>(a: Option<T>, b: Option<T>): Option<T> {
    if b.Some? then b else a
  }

  /** The patch equivalent to applying `a` and then `b`: `{ ...a, ...b }`. */
  function Overlay(a: UserPatch, b: UserPatch): UserPatch {
    UserPatch(
      Later(a.level, b.level),
      Later(a.xp, b.xp),
      Later(a.maxXp, b.maxXp),
      Later(a.strength, b.strength),
      Later(a.endurance, b.endurance),
      Later(a.constitution, b.constitution),
      Later(a.name, b.name),
      Later(a.title, b.title),
      Later(a.classification, b.classification))
  }

  /** An empty patch changes nothing. */
  lemma UpdateUserEmpty(s: Store)
    ensures UpdateUser(s, EmptyPatch) == s
  {
  }

  /** Two merges in a row are one merge with the overlaid patch, so a repeated patch is idempotent. */
  lemma UpdateUserCompose(s: Store, a: UserPatch, b: UserPatch)
    ensures UpdateUser(UpdateUser(s, a), b) == UpdateUser(s, Overlay(a, b))
    ensures UpdateUser(UpdateUser(s, a), a) == UpdateUser(s, a)
  {
  }

  /** A patch of profile fields only (no level, xp or maxXp) keeps the experience invariant. */
  lemma ProfilePatchKeepsInvariant(s: Store, p: UserPatch)
    requires UserInvariant(s.user)
    requires p.level.None? && p.xp.None? && p.maxXp.None?
    ensures UserInvariant(UpdateUser(s, p).user)
  {
  }
}
