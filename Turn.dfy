/** One turn of the chat route once the model's reply is in hand
    (src/app/api/chat/route.ts:125-235): the three tags are looked up and
    parsed, the log records they call for are built, XP, level and streak
    are advanced, the badge rules run, and the response and the profile
    write are assembled. The clock is a parameter: `today` and `yesterday`
    are the two date strings the route reads from it. */
module Turn {
  import opened Wrappers
  import opened JsText
  import opened Tags
  import opened Leveling
  import opened Badges

  /** The player's profile as the route holds it once the stored record's
      missing fields have been given their defaults. */
  datatype Profile = Profile(
    recordId: Option<string>,
    level: int,
    totalXP: int,
    currentStreak: int,
    lastActive: string,
    badges: seq<string>)

  /** A record the route asks the database to create. */
  datatype LogRecord =
    | WorkoutLog(userId: string, date: string, workoutType: string, details: string, duration: int, xpEarned: int)
    | NutritionLog(userId: string, date: string, meal: string, description: string, calories: int, xpEarned: int)
    | GoalLog(userId: string, goalType: string, description: string, status: string, xpReward: int)

  /** The profile part of the response. */
  datatype ProfileView = ProfileView(level: int, totalXP: int, currentStreak: int, badges: seq<string>)

  /** The fields of the profile update sent for an existing record. */
  datatype ProfileWrite = ProfileWrite(
    recordId: string,
    level: int,
    totalXP: int,
    currentStreak: int,
    lastActive: string,
    badges: seq<string>)

  /** The response body, the records to create and the profile update. */
  datatype TurnResult = TurnResult(
    message: string,
    xpGained: int,
    levelUp: bool,
    newAchievement: Option<Achievement>,
    profile: ProfileView,
    logs: seq<LogRecord>,
    write: Option<ProfileWrite>)

  // ---------------------------------------------------------------------
  // XP
  // ---------------------------------------------------------------------

  /** `Math.min(currentStreak * 5, 25)`. */
  function StreakBonus(streak: int): (b: int)
    ensures b <= 25 && b <= streak * 5 && (b == 25 || b == streak * 5)
    ensures streak >= 0 ==> b >= 0
  {
    if streak * 5 < 25 then streak * 5 else 25
  }

  /** The XP a turn earns: 50 for a workout, 20 for a meal, 25 for a goal,
      and the streak bonus on top only when one of them was logged. */
  function XPGained(workout: bool, meal: bool, goal: bool, streak: int): (xp: int)
    ensures !(workout || meal || goal) ==> xp == 0
    ensures streak >= 0 ==> (xp == 0 <==> !(workout || meal || goal))
    ensures streak >= 0 ==> 0 <= xp <= 120
    ensures streak >= 0 && workout ==> xp >= 50
  {
    var base := (if workout then 50 else 0) + (if meal then 20 else 0) + (if goal then 25 else 0);
    if base > 0 then base + StreakBonus(streak) else 0
  }

  /** The route's running sum for `xpGained`. */
  method ComputeXPGained(workout: bool, meal: bool, goal: bool, streak: int) returns (xp: int)
    ensures xp == XPGained(workout, meal, goal, streak)
  {
    var streakBonus := if streak * 5 < 25 then streak * 5 else 25;
    xp := 0;
    if workout { xp := xp + 50; }
    if meal { xp := xp + 20; }
    if goal { xp := xp + 25; }
    if xp > 0 { xp := xp + streakBonus; }
  }

  /** The new streak: a turn that earns XP extends a streak last active on
      `yesterday` and restarts any other at 1; a turn that earns nothing
      keeps it as it was. */
  function NewStreak(xpGained: int, lastActive: string, yesterday: string, streak: int): (s: int)
    ensures xpGained <= 0 ==> s == streak
    ensures xpGained > 0 ==> s == 1 || s == streak + 1
    ensures xpGained > 0 && streak >= 0 ==> s >= 1
    ensures xpGained > 0 && lastActive == yesterday ==> s == streak + 1
    ensures xpGained > 0 && lastActive != yesterday ==> s == 1
  {
    if xpGained > 0 then
      if lastActive == yesterday then streak + 1 else 1
    else streak
  }

  // ---------------------------------------------------------------------
  // Log records
  // ---------------------------------------------------------------------

  /** `data.key ?? fallback` on a dictionary `parseTag` returned. */
  function Lookup(data: map<string, string>, key: string, fallback: string): (v: string)
    ensures key in data ==> v == data[key]
    ensures key !in data ==> v == fallback
  {
    if key in data then data[key] else fallback
  }

  /** `substring(0, 300)`. */
  function Prefix300(s: string): (p: string)
    ensures |p| <= 300 && p <= s
    ensures |s| <= 300 ==> p == s
    ensures |s| > 300 ==> |p| == 300
  {
    if |s| <= 300 then s else s[..300]
  }

  /** The records a turn asks for, in the order workout, meal, goal, each
      present exactly when its tag was parsed. */
  function LogRecords(userId: string, today: string, clean: string,
                      workout: Option<map<string, string>>,
                      meal: Option<map<string, string>>,
                      goal: Option<map<string, string>>): (logs: seq<LogRecord>)
    ensures |logs| == (if workout.Some? then 1 else 0) + (if meal.Some? then 1 else 0) + (if goal.Some? then 1 else 0)
    ensures workout.Some? ==> logs[0].WorkoutLog?
    ensures meal.Some? ==> logs[if workout.Some? then 1 else 0].NutritionLog?
    ensures goal.Some? ==> logs[|logs| - 1].GoalLog?
    ensures forall i :: 0 <= i < |logs| ==> logs[i].userId == userId
    ensures forall i :: 0 <= i < |logs| && logs[i].WorkoutLog? ==>
      workout.Some? && logs[i].date == today && logs[i].xpEarned == 50 && |logs[i].details| <= 300
    ensures forall i :: 0 <= i < |logs| && logs[i].NutritionLog? ==>
      meal.Some? && logs[i].date == today && logs[i].xpEarned == 20 && |logs[i].description| <= 300
    ensures forall i :: 0 <= i < |logs| && logs[i].GoalLog? ==>
      goal.Some? && logs[i].status == "active" && logs[i].xpReward == 25
  {
    var w, m, g := WorkoutLogs(userId, today, clean, workout), MealLogs(userId, today, clean, meal), GoalLogs(userId, goal);
    ConcatOfThree(w, m, g);
    w + m + g
  }

  /** Where the records of a three-part concatenation come from. */
  lemma ConcatOfThree(w: seq<LogRecord>, m: seq<LogRecord>, g: seq<LogRecord>)
    ensures forall i :: 0 <= i < |w + m + g| ==> (w + m + g)[i] in w || (w + m + g)[i] in m || (w + m + g)[i] in g
    ensures w != [] ==> (w + m + g)[0] == w[0]
    ensures m != [] ==> (w + m + g)[|w|] == m[0]
    ensures g != [] ==> (w + m + g)[|w + m + g| - 1] == g[|g| - 1]
  {
    forall i | 0 <= i < |w + m + g| ensures (w + m + g)[i] in w || (w + m + g)[i] in m || (w + m + g)[i] in g {
      if i < |w| {
        assert (w + m + g)[i] == w[i];
      } else if i < |w| + |m| {
        assert (w + m + g)[i] == m[i - |w|];
      } else {
        assert (w + m + g)[i] == g[i - |w| - |m|];
      }
    }
  }

  /** The workout record, if a workout tag was parsed. */
  function WorkoutLogs(userId: string, today: string, clean: string, workout: Option<map<string, string>>): (logs: seq<LogRecord>)
    ensures |logs| == if workout.Some? then 1 else 0
    ensures forall r :: r in logs ==>
      r.WorkoutLog? && r.userId == userId && r.date == today && r.xpEarned == 50 && |r.details| <= 300
  {
    match workout
    case Some(d) => [WorkoutLog(userId, today, Lookup(d, "type", "general"), Prefix300(clean),
                                ParseIntOrZero(Lookup(d, "duration", "0")), 50)]
    case None => []
  }

  /** The nutrition record, if a meal tag was parsed. */
  function MealLogs(userId: string, today: string, clean: string, meal: Option<map<string, string>>): (logs: seq<LogRecord>)
    ensures |logs| == if meal.Some? then 1 else 0
    ensures forall r :: r in logs ==>
      r.NutritionLog? && r.userId == userId && r.date == today && r.xpEarned == 20 && |r.description| <= 300
  {
    match meal
    case Some(d) => [NutritionLog(userId, today, Lookup(d, "type", "general"), Prefix300(clean),
                                  ParseIntOrZero(Lookup(d, "calories", "0")), 20)]
    case None => []
  }

  /** The goal record, if a goal tag was parsed. */
  function GoalLogs(userId: string, goal: Option<map<string, string>>): (logs: seq<LogRecord>)
    ensures |logs| == if goal.Some? then 1 else 0
    ensures forall r :: r in logs ==> r.GoalLog? && r.userId == userId && r.status == "active" && r.xpReward == 25
  {
    match goal
    case Some(d) => [GoalLog(userId, Lookup(d, "type", "general"), Lookup(d, "description", ""), "active", 25)]
    case None => []
  }

  lemma DurationLogged(userId: string, today: string, clean: string, d: map<string, string>, minutes: nat, unit: string)
    requires "duration" in d && d["duration"] == Decimal(minutes) + unit
    requires unit == [] || !IsDigit(unit[0])
    ensures LogRecords(userId, today, clean, Some(d), None, None)[0].duration == minutes
  {
    ParseDecimal(minutes, unit);
  }

  /** The three `logPromises.push` calls. */
  method BuildLogs(userId: string, today: string, clean: string,
                   workoutData: Option<map<string, string>>,
                   mealData: Option<map<string, string>>,
                   goalData: Option<map<string, string>>) returns (logs: seq<LogRecord>)
    ensures logs == LogRecords(userId, today, clean, workoutData, mealData, goalData)
  {
    logs := [];
    if workoutData.Some? {
      var d := workoutData.value;
      logs := logs + [WorkoutLog(userId, today, Lookup(d, "type", "general"), Prefix300(clean),
                                 ParseIntOrZero(Lookup(d, "duration", "0")), 50)];
    }
    assert logs == WorkoutLogs(userId, today, clean, workoutData);
    if mealData.Some? {
      var d := mealData.value;
      logs := logs + [NutritionLog(userId, today, Lookup(d, "type", "general"), Prefix300(clean),
                                   ParseIntOrZero(Lookup(d, "calories", "0")), 20)];
    }
    assert logs == WorkoutLogs(userId, today, clean, workoutData) + MealLogs(userId, today, clean, mealData);
    if goalData.Some? {
      var d := goalData.value;
      logs := logs + [GoalLog(userId, Lookup(d, "type", "general"), Lookup(d, "description", ""), "active", 25)];
    }
    assert logs == WorkoutLogs(userId, today, clean, workoutData) + MealLogs(userId, today, clean, mealData)
                   + GoalLogs(userId, goalData);
  }

  // ---------------------------------------------------------------------
  // The turn
  // ---------------------------------------------------------------------

  /** Which of the three tags the reply carries. */
  function FactsOf(reply: string, streak: int, level: int): Facts {
    Facts(TagBody(reply, Workout).Some?, TagBody(reply, Meal).Some?, TagBody(reply, Goal).Some?, streak, level)
  }

  /** The rest of `POST` after the model has replied. */
  method ProcessTurn(p: Profile, userId: string, reply: string, today: string, yesterday: string)
    returns (r: TurnResult)
    ensures r.message == CleanMessage(reply)
    ensures r.logs == LogRecords(userId, today, r.message, ParsedTag(TagBody(reply, Workout)),
                                 ParsedTag(TagBody(reply, Meal)), ParsedTag(TagBody(reply, Goal)))
    ensures r.xpGained == XPGained(TagBody(reply, Workout).Some?, TagBody(reply, Meal).Some?,
                                   TagBody(reply, Goal).Some?, p.currentStreak)
    ensures r.profile.totalXP == p.totalXP + r.xpGained
    ensures p.currentStreak >= 0 ==> p.totalXP <= r.profile.totalXP <= p.totalXP + 120
    ensures InBand(r.profile.totalXP, r.profile.level)
    ensures r.levelUp <==> r.profile.level > p.level
    ensures r.profile.currentStreak == NewStreak(r.xpGained, p.lastActive, yesterday, p.currentStreak)
    ensures var newly := Fired(Rules(FactsOf(reply, r.profile.currentStreak, r.profile.level)), p.badges);
      && r.profile.badges == p.badges + newly
      && r.newAchievement == PickAchievement(newly)
    ensures r.write.Some? <==> p.recordId.Some?
    ensures r.write.Some? ==> r.write.value == ProfileWrite(p.recordId.value, r.profile.level, r.profile.totalXP,
                                                              r.profile.currentStreak, today, r.profile.badges)
  {
    var workout, meal, goal := TagBody(reply, Workout), TagBody(reply, Meal), TagBody(reply, Goal);
    var workoutData := ParseTag(workout);
    var mealData := ParseTag(meal);
    var goalData := ParseTag(goal);
    var clean := CleanMessage(reply);
    var logs := BuildLogs(userId, today, clean, workoutData, mealData, goalData);

    var xpGained := ComputeXPGained(workoutData.Some?, mealData.Some?, goalData.Some?, p.currentStreak);
    var newXP := p.totalXP + xpGained;
    var newLevel := GetLevel(newXP);
    var levelUp := newLevel > p.level;
    var newStreak := NewStreak(xpGained, p.lastActive, yesterday, p.currentStreak);

    var facts := Facts(workoutData.Some?, mealData.Some?, goalData.Some?, newStreak, newLevel);
    var allBadges, newBadges := ApplyBadgeRules(p.badges, facts);

    var write := if p.recordId.Some? then
      Some(ProfileWrite(p.recordId.value, newLevel, newXP, newStreak, today, allBadges))
    else None;
    r := TurnResult(clean, xpGained, levelUp, PickAchievement(newBadges),
                    ProfileView(newLevel, newXP, newStreak, allBadges), logs, write);
  }

  /** The profile the next turn reads once this turn's update is stored. */
  function Stored(w: ProfileWrite): Profile {
    Profile(Some(w.recordId), w.level, w.totalXP, w.currentStreak, w.lastActive, w.badges)
  }

  // ---------------------------------------------------------------------
  // Scenarios
  // ---------------------------------------------------------------------

  /** A new player's first workout: 50 XP, still level 1, no level-up, and
      the First Rep badge with its icon. */
  method FirstWorkout(userId: string, reply: string, today: string, yesterday: string)
    returns (r: TurnResult)
    requires TagBody(reply, Workout).Some? && TagBody(reply, Meal).None? && TagBody(reply, Goal).None?
    ensures r.xpGained == 50 && r.profile.totalXP == 50
    ensures r.profile.level == 1 && !r.levelUp && r.profile.currentStreak == 1
    ensures r.profile.badges == ["First Rep"]
    ensures r.newAchievement == Some(Achievement("First Rep", "\U{1F4AA}"))
    ensures r.write.None?
  {
    r := ProcessTurn(Profile(None, 1, 0, 0, "", []), userId, reply, today, yesterday);
    BandUnique(50, r.profile.level, 1);
    FirstRepAlone(FactsOf(reply, 1, 1));
  }

  /** A two-day streak extended by a workout reaches three days and
      unlocks On Fire. */
  method StreakOnFire(userId: string, reply: string, today: string, yesterday: string)
    returns (r: TurnResult)
    requires TagBody(reply, Workout).Some? && TagBody(reply, Meal).None? && TagBody(reply, Goal).None?
    ensures r.xpGained == 60 && r.profile.currentStreak == 3
    ensures r.profile.badges == ["First Rep", "On Fire"]
    ensures r.newAchievement == Some(Achievement("On Fire", "\U{1F525}"))
  {
    r := ProcessTurn(Profile(None, 1, 0, 2, yesterday, ["First Rep"]), userId, reply, today, yesterday);
    BandUnique(60, r.profile.level, 1);
    OnFireAlone(FactsOf(reply, 3, 1));
  }

  /** A second earning turn on the same day finds `lastActive` equal to
      today, not yesterday, and so restarts the streak at 1. */
  method SameDayTwice(p: Profile, userId: string, reply1: string, reply2: string, today: string, yesterday: string)
    returns (r1: TurnResult, r2: TurnResult)
    requires p.recordId.Some? && p.currentStreak >= 0 && today != yesterday
    requires TagBody(reply2, Workout).Some?
    ensures r2.profile.currentStreak == 1
  {
    r1 := ProcessTurn(p, userId, reply1, today, yesterday);
    r2 := ProcessTurn(Stored(r1.write.value), userId, reply2, today, yesterday);
  }

  /** Workouts on two consecutive days after a day with activity extend the
      stored streak by two. */
  method ConsecutiveDays(p: Profile, userId: string, reply1: string, reply2: string,
                         day0: string, day1: string, day2: string)
    returns (r1: TurnResult, r2: TurnResult)
    requires p.recordId.Some? && p.currentStreak >= 0 && p.lastActive == day0
    requires TagBody(reply1, Workout).Some? && TagBody(reply2, Workout).Some?
    ensures r1.profile.currentStreak == p.currentStreak + 1
    ensures r2.profile.currentStreak == p.currentStreak + 2
  {
    r1 := ProcessTurn(p, userId, reply1, day1, day0);
    r2 := ProcessTurn(Stored(r1.write.value), userId, reply2, day2, day1);
  }

  /** Replaying the same reply on the stored result awards no badge twice. */
  method NoBadgeTwice(p: Profile, userId: string, reply: string, today: string, yesterday: string)
    returns (r1: TurnResult, r2: TurnResult)
    requires p.recordId.Some?
    ensures |p.badges| <= |r1.profile.badges| <= |r2.profile.badges|
    ensures forall b :: b in r1.profile.badges[|p.badges|..] ==> b !in r2.profile.badges[|r1.profile.badges|..]
  {
    r1 := ProcessTurn(p, userId, reply, today, yesterday);
    r2 := ProcessTurn(Stored(r1.write.value), userId, reply, today, yesterday);
    var q := Stored(r1.write.value);
    var newly2 := r2.profile.badges[|q.badges|..];
    assert r2.profile.badges == q.badges + newly2;
    forall b | b in r1.profile.badges[|p.badges|..] ensures b !in newly2 {
      var f2 := FactsOf(reply, r2.profile.currentStreak, r2.profile.level);
      FiredMember(Rules(f2), q.badges, b);
    }
  }
}
