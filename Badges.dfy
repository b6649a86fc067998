/** The badge step of the chat route (src/app/api/chat/route.ts:192-209) and
    the icon table its achievement uses (route.ts:7-16, 226-229). Eight
    rules are checked in a fixed order; each one whose condition holds and
    whose badge the player does not yet hold appends that badge both to the
    full list and to the list of badges new on this turn. */
module Badges {
  import opened Wrappers

  /** What the rules look at once the turn's tags, streak and level are known. */
  datatype Facts = Facts(workout: bool, meal: bool, goal: bool, streak: int, level: int)

  /** One `checkBadge` call: a badge name and whether its condition holds. */
  datatype Rule = Rule(name: string, holds: bool)

  /** The badges, in the order the route checks them. */
  const BadgeNames: seq<string> :=
    ["First Rep", "Fuel Up", "Goal Setter", "On Fire",
     "Week Warrior", "Iron Will", "Level 5", "Level 10"]

  /** The eight `checkBadge` calls for the given facts. */
  function Rules(f: Facts): (rs: seq<Rule>)
    ensures |rs| == |BadgeNames| && forall j :: 0 <= j < |rs| ==> rs[j].name == BadgeNames[j]
  {
    [ Rule("First Rep", f.workout),
      Rule("Fuel Up", f.meal),
      Rule("Goal Setter", f.goal),
      Rule("On Fire", f.streak >= 3),
      Rule("Week Warrior", f.streak >= 7),
      Rule("Iron Will", f.streak >= 30),
      Rule("Level 5", f.level >= 5),
      Rule("Level 10", f.level >= 10) ]
  }

  /** The badges that checking `rs` in order appends to a player holding
      `held`; a badge appended counts as held for the later rules. */
  function Fired(rs: seq<Rule>, held: seq<string>): seq<string>
    decreases |rs|
  {
    if rs == [] then []
    else if rs[0].holds && rs[0].name !in held then [rs[0].name] + Fired(rs[1..], held + [rs[0].name])
    else Fired(rs[1..], held)
  }

  /** The `checkBadge` sequence, with `allBadges` and `newBadges` as the
      two lists it pushes onto. */
  method ApplyBadgeRules(held: seq<string>, f: Facts) returns (all: seq<string>, newly: seq<string>)
    ensures all == held + newly
    ensures newly == Fired(Rules(f), held)
  {
    var rules := Rules(f);
    all := held;
    newly := [];
    for i := 0 to |rules|
      invariant all == held + newly
      invariant newly + Fired(rules[i..], all) == Fired(rules, held)
    {
      var r := rules[i];
      FiredStep(rules, i, all);
      if r.holds && r.name !in all {
        var rest := Fired(rules[i + 1..], all + [r.name]);
        assert newly + ([r.name] + rest) == (newly + [r.name]) + rest;
        all := all + [r.name];
        newly := newly + [r.name];
      }
    }
  }

  /** One rule checked: `Fired` on a suffix of the rules, unfolded once. */
  lemma FiredStep(rs: seq<Rule>, i: nat, held: seq<string>)
    requires i < |rs|
    ensures Fired(rs[i..], held) ==
      if rs[i].holds && rs[i].name !in held then [rs[i].name] + Fired(rs[i + 1..], held + [rs[i].name])
      else Fired(rs[i + 1..], held)
  {
    assert rs[i..][1..] == rs[i + 1..];
  }

  /** A badge is new exactly when some rule for it holds and the player did
      not already hold it. */
  lemma {:induction false} FiredMember(rs: seq<Rule>, held: seq<string>, n: string)
    ensures n in Fired(rs, held) <==> n !in held && exists j :: 0 <= j < |rs| && rs[j].holds && rs[j].name == n
    decreases |rs|
  {
    if rs != [] {
      var r := rs[0];
      if r.holds && r.name !in held {
        FiredMember(rs[1..], held + [r.name], n);
      } else {
        FiredMember(rs[1..], held, n);
      }
      if exists j :: 0 <= j < |rs| && rs[j].holds && rs[j].name == n {
        var j :| 0 <= j < |rs| && rs[j].holds && rs[j].name == n;
        if j > 0 {
          assert rs[1..][j - 1] == rs[j];
        }
      }
      forall j | 0 <= j < |rs| - 1 && rs[1..][j].holds && rs[1..][j].name == n
        ensures exists i :: 0 <= i < |rs| && rs[i].holds && rs[i].name == n
      {
        assert rs[j + 1] == rs[1..][j];
      }
    }
  }

  /** No badge is appended twice. */
  lemma {:induction false} FiredDistinct(rs: seq<Rule>, held: seq<string>)
    ensures forall i, j :: 0 <= i < j < |Fired(rs, held)| ==> Fired(rs, held)[i] != Fired(rs, held)[j]
    decreases |rs|
  {
    if rs != [] {
      var r := rs[0];
      if r.holds && r.name !in held {
        var rest := Fired(rs[1..], held + [r.name]);
        FiredDistinct(rs[1..], held + [r.name]);
        FiredMember(rs[1..], held + [r.name], r.name);
        assert r.name !in rest;
      } else {
        FiredDistinct(rs[1..], held);
      }
    }
  }

  /** Checking the same rules again on the list they produced adds nothing. */
  lemma FiredIdempotent(rs: seq<Rule>, held: seq<string>)
    ensures Fired(rs, held + Fired(rs, held)) == []
  {
    var once := Fired(rs, held);
    var twice := Fired(rs, held + once);
    if twice != [] {
      var n := twice[0];
      FiredMember(rs, held + once, n);
      FiredMember(rs, held, n);
      assert false;
    }
  }

  /** The new badges come in the order of the rules: between two of them
      stands no holding rule for a badge the player lacks. */
  lemma {:induction false} FiredHead(rs: seq<Rule>, held: seq<string>, j: nat)
    requires j < |rs| && rs[j].holds && rs[j].name !in held
    requires forall i :: 0 <= i < j ==> !rs[i].holds || rs[i].name in held
    ensures Fired(rs, held) != [] && Fired(rs, held)[0] == rs[j].name
    decreases j
  {
    if j > 0 {
      FiredHead(rs[1..], held, j - 1);
    }
  }

  /** No rule that holds for a badge the player lacks: nothing is new. */
  lemma FiredNone(rs: seq<Rule>, held: seq<string>)
    requires forall i :: 0 <= i < |rs| ==> !rs[i].holds || rs[i].name in held
    ensures Fired(rs, held) == []
  {
    var fired := Fired(rs, held);
    if fired != [] {
      FiredMember(rs, held, fired[0]);
      assert false;
    }
  }

  /** When exactly one rule can award a badge the player lacks, that badge
      is the only new one. */
  lemma {:induction false} FiredSingle(rs: seq<Rule>, held: seq<string>, j: nat)
    requires j < |rs| && rs[j].holds && rs[j].name !in held
    requires forall i :: 0 <= i < |rs| && i != j ==> !rs[i].holds || rs[i].name in held
    ensures Fired(rs, held) == [rs[j].name]
    decreases j
  {
    assert forall i :: 0 <= i < |rs| - 1 ==> rs[1..][i] == rs[i + 1];
    if j == 0 {
      FiredNone(rs[1..], held + [rs[0].name]);
    } else {
      FiredSingle(rs[1..], held, j - 1);
    }
  }

  /** A first workout, below level 5 and without a three-day streak, earns
      First Rep and nothing else. */
  lemma FirstRepAlone(f: Facts)
    requires f.workout && !f.meal && !f.goal && f.streak < 3 && f.level < 5
    ensures Fired(Rules(f), []) == ["First Rep"]
  {
    FiredSingle(Rules(f), [], 0);
  }

  /** A workout that brings a First Rep holder's streak to three, four, five
      or six days earns On Fire and nothing else. */
  lemma OnFireAlone(f: Facts)
    requires f.workout && !f.meal && !f.goal && 3 <= f.streak < 7 && f.level < 5
    ensures Fired(Rules(f), ["First Rep"]) == ["On Fire"]
  {
    FiredSingle(Rules(f), ["First Rep"], 3);
  }

  const DefaultIcon: string := "\U{1F3C6}"

  /** `BADGE_ICONS`. */
  const BadgeIcons: map<string, string> := map[
    "First Rep" := "\U{1F4AA}",
    "Fuel Up" := "\U{1F957}",
    "Goal Setter" := "\U{1F3AF}",
    "On Fire" := "\U{1F525}",
    "Week Warrior" := "\U{26A1}",
    "Iron Will" := "\U{1F9BE}",
    "Level 5" := "\U{2B50}",
    "Level 10" := "\U{1F31F}"
  ]

  /** `BADGE_ICONS[name] ?? '🏆'`. */
  function IconOf(name: string): string {
    if name in BadgeIcons then BadgeIcons[name] else DefaultIcon
  }

  /** Every badge a rule can award has its own icon, none of them the
      fallback trophy. */
  lemma IconsCoverBadges()
    ensures forall j :: 0 <= j < |BadgeNames| ==> BadgeNames[j] in BadgeIcons && IconOf(BadgeNames[j]) != DefaultIcon
    ensures forall i, j :: 0 <= i < j < |BadgeNames| ==> IconOf(BadgeNames[i]) != IconOf(BadgeNames[j])
  {
  }

  /** The achievement shown for a turn: the first new badge and its icon. */
  datatype Achievement = Achievement(name: string, icon: string)

  function PickAchievement(newly: seq<string>): (a: Option<Achievement>)
    ensures a.Some? <==> newly != []
    ensures a.Some? ==> a.value.name == newly[0] && a.value.icon == IconOf(newly[0])
  {
    if |newly| > 0 then Some(Achievement(newly[0], IconOf(newly[0]))) else None
  }

  /** The achievement shown is the badge of the first rule, in the route's
      order, that holds for a badge the player lacks, with that badge's own
      icon, never the fallback trophy. */
  lemma AchievementFirstRule(f: Facts, held: seq<string>, j: nat)
    requires j < |Rules(f)| && Rules(f)[j].holds && Rules(f)[j].name !in held
    requires forall i :: 0 <= i < j ==> !Rules(f)[i].holds || Rules(f)[i].name in held
    ensures PickAchievement(Fired(Rules(f), held)) == Some(Achievement(BadgeNames[j], IconOf(BadgeNames[j])))
    ensures IconOf(BadgeNames[j]) != DefaultIcon
  {
    FiredHead(Rules(f), held, j);
    IconsCoverBadges();
  }

  /** When no rule holds for a badge the player lacks, there is no achievement. */
  lemma AchievementNone(f: Facts, held: seq<string>)
    requires forall i :: 0 <= i < |Rules(f)| ==> !Rules(f)[i].holds || Rules(f)[i].name in held
    ensures PickAchievement(Fired(Rules(f), held)) == None
  {
    FiredNone(Rules(f), held);
  }
}
