# FitBot turn logic in Dafny

FitBot is a chat-based fitness coach. Every user message goes to a language
model. The model's reply may end with up to three data tags:
`[WORKOUT: type=…, duration=…]`, `[MEAL: type=…, calories=…]` and
`[GOAL: type=…, description=…]`. The chat route turns the reply into one
game turn:

- it finds the first tag of each kind and parses its `key=value` pairs;
- it strips every tag from the text shown to the user;
- it asks for one log record per tag;
- it awards XP, with a streak bonus;
- it climbs the level ladder and advances or resets the daily streak;
- it runs eight badge rules in a fixed order;
- it reports the first newly earned badge as the achievement.

A display helper computes how far, in percent, the player has climbed
towards the next level.

The project models that logic. File by file:

- `Wrappers.dfy`: `Option`.
- `JsText.dfy`: the JavaScript string built-ins the route relies on.
  - `trim` with JavaScript's whitespace set.
  - `split`/`join` on one character.
  - `parseInt(x) || 0` on decimal text.
  - The ASCII case folding of a regular expression without the `u` flag.
- `Tags.dfy`: the two regular expressions, written out as scans.
  - `/\[KIND:\s*([^\]]+)\]/i` gives the leftmost match and its group.
  - `/\[(WORKOUT|MEAL|GOAL)[^\]]*\]/gi` is a single left-to-right replace.
  - `parseTag` is a method filling a map in a loop, proved against the
    function `TagMap`.
- `Leveling.dfy`: `getLevel`, a `while` loop proved against the band
  predicate `InBand`, which is built on the ladder `Cum(n) = 25 n (n + 3)`.
- `Progress.dfy`: `getLevelProgress`, a loop plus a clamped division,
  computed exactly over reals.
- `Badges.dfy`: the `checkBadge` sequence, as a loop proved against the
  function `Fired`. It also holds the icon table and the achievement pick.
- `Turn.dfy`: the rest of `POST` once the reply is in hand, as the method
  `ProcessTurn`, plus a few multi-turn scenarios.

The profile loaded from the database and the two date strings `today` and
`yesterday` are inputs. The response, the records to create and the
profile update are outputs.

Points where the code behaves differently from a quick reading of it:

- Each kind uses its first *match*, which need not be the first text
  starting `[WORKOUT:`. A tag with nothing after its colon is no match, and
  the search goes on to a later one (`Tags.TagBodySkipsEmpty`).
- A second earning turn on the same day sees `lastActive == today`, not
  yesterday, so it restarts the streak at 1 (`Turn.SameDayTwice`).
- With no stored profile record, nothing is written, and the next turn
  starts from the defaults again (`ProcessTurn`'s `write` clause).
- Stripping is a single pass. Removing a span can bring two halves of text
  together into a new span, and that span is not removed.

## Model

| member | source | states |
|---|---|---|
| Leveling.GetLevel | src/app/api/chat/route.ts:18-25 | the level returned is the band of `xp`: at least 1, below the next rung `Cum(level)`, and at or above `Cum(level - 1)` unless it is level 1 (which also takes negative totals) |
| Leveling.BandUnique | src/app/api/chat/route.ts:18-25 | every total lies in exactly one band, so the level for a total is unique |
| Leveling.BandMonotone | src/app/api/chat/route.ts:18-25 | more XP never gives a lower level |
| Leveling.CumIncreasing | src/app/api/chat/route.ts:20-21 | the rungs rise strictly |
| Leveling.CumMonotone | src/app/api/chat/route.ts:20-21 | the rungs never fall |
| Leveling.CumClosedForm | src/app/api/chat/route.ts:20-21 | the rung after n steps of 100, 150, 200, … is 25 n (n + 3) |
| Leveling.BandExamples | src/app/api/chat/route.ts:18-25 | totals 0 and 99 are level 1 only, 100 and 249 level 2 only, 250 level 3 only |
| Progress.GetLevelProgress | src/lib/n8n.ts:17-26 | the loop's threshold is `Cum(level - 1)` (0 for level ≤ 1), and the result is that of `ProgressOf` |
| Progress.ProgressOf | src/lib/n8n.ts:23-25 | the result never exceeds 100; it has no finite value exactly when the step is 0 (level -1) and the numerator is not positive |
| Progress.ProgressRatio | src/lib/n8n.ts:23-25 | when the clamp does not fire, result × step = 100 × (totalXP − threshold); when it fires, the share had reached 1 |
| Progress.ProgressInBand | src/lib/n8n.ts:17-25 | for a non-negative total and the level `getLevel` gives it, the result lies in [0, 100) |
| Progress.ProgressLevelOne | src/lib/n8n.ts:23-25 | on level 1 the result is min(totalXP, 100) |
| Progress.ProgressAboveBand | src/lib/n8n.ts:23-25 | a stored level above the one the total earns gives a negative result (no lower clamp) |
| Tags.Keyword | src/app/api/chat/route.ts:126-128 | each keyword is upper-case ASCII and at least four letters long |
| Tags.FirstMatchFrom | src/app/api/chat/route.ts:126-128 | the position found matches the tag expression, and no earlier position from the start does; none means no position matches |
| Tags.GroupHere | src/app/api/chat/route.ts:126 | the group is nonempty, ends at the first `]`, is preceded only by whitespace, and starts with a non-space unless it is one character |
| Tags.TagBodyShift | src/app/api/chat/route.ts:126-128 | when nothing before a point matches, the tag found is the one found after it |
| Tags.TagBodyAfterPlain | src/app/api/chat/route.ts:126-128 | text without `[` before a tag does not change the tag found |
| Tags.TagBodyUnclosed | src/app/api/chat/route.ts:126-128 | text without `]` yields no tag of any kind |
| Tags.TagHere | src/app/api/chat/route.ts:126 | `[`, the keyword in any case, `:`, whitespace, then a body without `]` closed by `]` matches here, and the group is the body |
| Tags.TagBodyOf | src/app/api/chat/route.ts:126-128 | a well-formed tag after text without `[` gives exactly its body |
| Tags.TagBodySkipsEmpty | src/app/api/chat/route.ts:126-128 | a tag with nothing after the colon is no match, and the search continues after it |
| Tags.TagBodyExamples | src/app/api/chat/route.ts:126 | `[WORKOUT:]` gives no match; `[WORKOUT: ]` gives the body `" "` |
| Tags.TagBodyCaseExample | src/app/api/chat/route.ts:126 | `[workout:  run]` matches the workout expression with body `run` |
| Tags.SpanKind | src/app/api/chat/route.ts:133 | the keyword after a leading `[` is reported exactly when it is there, in any letter case |
| Tags.CloseAfter | src/app/api/chat/route.ts:133 | a span closes at the first `]` after its keyword, and exists exactly when there is one |
| Tags.StripDropsSpan | src/app/api/chat/route.ts:133 | a whole span goes, whatever lies between keyword and `]`, with or without a colon |
| Tags.StripKeepsPlain | src/app/api/chat/route.ts:133 | text without `[` is kept as it is |
| Tags.StripTagAfterPlain | src/app/api/chat/route.ts:133 | a span after plain text is removed and the text before it is kept |
| Tags.StripUnclosed | src/app/api/chat/route.ts:133 | text without `]` loses nothing: an unclosed bracket is never stripped |
| Tags.StripNoSpan | src/app/api/chat/route.ts:133 | text holding no span is unchanged by the replace |
| Tags.CleanNoSpan | src/app/api/chat/route.ts:133 | text holding no span is shown as its trim |
| Tags.CleanDropsTrailingTag | src/app/api/chat/route.ts:133 | a tag at the end of a reply disappears and the text before it is only trimmed |
| Tags.CleanSentenceThenTag | src/app/api/chat/route.ts:133 | a sentence, whitespace and a trailing tag are shown as the sentence alone |
| Tags.CleanExample | src/app/api/chat/route.ts:133 | `Nice! [WORKOUT: run]` is shown as `Nice!` |
| Tags.ParseTag | src/app/api/chat/route.ts:27-35 | null for no match; otherwise the map of the comma pieces, which is `TagMap` |
| Tags.LastSetting | src/app/api/chat/route.ts:30-32 | the index found sets the key and no later piece does |
| Tags.EntryMapSpec | src/app/api/chat/route.ts:30-32 | a key is present exactly when some piece sets it, and the last such piece gives its value |
| Tags.EntryBySplit | src/app/api/chat/route.ts:31-32 | splitting at every `=` and re-joining the tail is splitting at the first `=` |
| Tags.EntryOf | src/app/api/chat/route.ts:31-32 | a piece `key = value` gives that key and value, whatever whitespace surrounds them; the value may hold `=` |
| Tags.EntryWithoutEquals | src/app/api/chat/route.ts:31-32 | a piece without `=` contributes nothing |
| Tags.NoPairsNoKeys | src/app/api/chat/route.ts:27-35 | a body without `=` parses to an empty map, not null |
| Tags.EmptyTagCounts | src/app/api/chat/route.ts:126-130 | `[WORKOUT: ]` parses to an empty, non-null map |
| Tags.EntryTrimExample | src/app/api/chat/route.ts:31-32 | ` a = 1 ` gives the pair (`a`, `1`) |
| Tags.EntryEqualsExample | src/app/api/chat/route.ts:32 | `d=a=b` gives the pair (`d`, `a=b`) |
| JsText.TrimSpec | src/app/api/chat/route.ts:31-32 | the trim is a contiguous slice with whitespace only around it and no whitespace at its ends |
| JsText.TrimOfIsTrim | src/app/api/chat/route.ts:31-32 | anything that fits that description is what `Trim` returns |
| JsText.TrimOfIsUnique | src/app/api/chat/route.ts:31-32 | there is only one trim of a string |
| JsText.TrimIdempotent | src/app/api/chat/route.ts:133 | trimming twice is trimming once |
| JsText.TrimAround | src/app/api/chat/route.ts:31-32 | whitespace around a string with non-space ends is exactly what trim removes |
| JsText.Split | src/app/api/chat/route.ts:30-31 | `split` gives at least one piece, and no piece holds the separator |
| JsText.JoinSplit | src/app/api/chat/route.ts:30-32 | joining the pieces of a split gives back the string |
| JsText.SplitJoin | src/app/api/chat/route.ts:30-32 | splitting a join of separator-free pieces gives back the pieces |
| JsText.LeadingDigitsOf | src/app/api/chat/route.ts:144 | digits followed by a non-digit are the whole leading run |
| JsText.DecimalValue | src/app/api/chat/route.ts:144 | the decimal text of n denotes n |
| JsText.ParseDecimal | src/app/api/chat/route.ts:144-155 | `parseInt` with the fallback to 0 reads back a number written in decimal, whatever non-digit unit follows (`30min` is 30) |
| Badges.Rules | src/app/api/chat/route.ts:202-209 | the eight rules, in the route's order, with the route's badge names |
| Badges.ApplyBadgeRules | src/app/api/chat/route.ts:192-209 | the old list is kept as a prefix, and the suffix appended is exactly `newBadges`, which is `Fired` of the rules |
| Badges.FiredMember | src/app/api/chat/route.ts:195-209 | a badge is new exactly when the player lacked it and some rule for it holds |
| Badges.FiredDistinct | src/app/api/chat/route.ts:195-209 | no badge is appended twice |
| Badges.FiredIdempotent | src/app/api/chat/route.ts:195-209 | re-running the rules on the result appends nothing |
| Badges.FiredHead | src/app/api/chat/route.ts:202-209 | the first new badge is that of the first holding rule for a badge the player lacks |
| Badges.FiredNone | src/app/api/chat/route.ts:195-209 | with no holding rule for a missing badge, nothing is new |
| Badges.FiredSingle | src/app/api/chat/route.ts:195-209 | with exactly one such rule, its badge is the only new one |
| Badges.FirstRepAlone | src/app/api/chat/route.ts:202-209 | a first workout below streak 3 and level 5 earns First Rep only |
| Badges.OnFireAlone | src/app/api/chat/route.ts:202-209 | a First Rep holder's workout at streak 3 to 6 earns On Fire only |
| Badges.IconsCoverBadges | src/app/api/chat/route.ts:7-16 | every badge has its own icon, distinct from the others and from the fallback trophy |
| Badges.AchievementFirstRule | src/app/api/chat/route.ts:226-229 | the achievement is the badge of the first rule, in the route's order, that holds for a badge the player lacks, with that badge's own icon, never the fallback trophy |
| Badges.AchievementNone | src/app/api/chat/route.ts:226-229 | when no rule holds for a badge the player lacks, the achievement is null |
| Turn.StreakBonus | src/app/api/chat/route.ts:173 | the bonus is min(5 × streak, 25): never above either, and equal to one of them |
| Turn.XPGained | src/app/api/chat/route.ts:173-178 | no tag means 0 XP; for a non-negative streak, 0 XP exactly when no tag matched, at most 120, and at least 50 with a workout |
| Turn.ComputeXPGained | src/app/api/chat/route.ts:173-178 | the running `+=` sum is `XPGained` |
| Turn.NewStreak | src/app/api/chat/route.ts:185-190 | an earning turn gives streak + 1 when last active yesterday and 1 otherwise; a turn that earns nothing keeps the streak |
| Turn.Prefix300 | src/app/api/chat/route.ts:143-154 | a prefix of the text: all of it when it has at most 300 characters, exactly 300 otherwise |
| Turn.LogRecords | src/app/api/chat/route.ts:136-168 | one record per parsed tag, workout first, then nutrition, goal last; every record carries the user id, a record of each kind only when its tag was parsed, with the date `today`, the route's fixed XP (50, 20, 25), details of at most 300 characters and goal status `active` |
| Turn.BuildLogs | src/app/api/chat/route.ts:136-168 | the three conditional pushes give `LogRecords` |
| Turn.DurationLogged | src/app/api/chat/route.ts:144 | a duration written as a number and a unit is logged as that number |
| Turn.ProcessTurn | src/app/api/chat/route.ts:126-235 | the message is the stripped and trimmed reply; the logs, XP, streak, badges and achievement are those above; the new total is the old one plus the XP (and at most 120 more); the level is the total's band; `levelUp` holds exactly when that level exceeds the stored one; an update is written exactly when there is a record, with the new values and `today` |
| Turn.FirstWorkout | src/app/api/chat/route.ts:173-235 | a new player's first workout: 50 XP, level 1, no level-up, streak 1, First Rep with 💪, nothing written |
| Turn.StreakOnFire | src/app/api/chat/route.ts:173-209 | a two-day streak last active yesterday plus a workout: 60 XP, streak 3, On Fire with 🔥 |
| Turn.SameDayTwice | src/app/api/chat/route.ts:185-220 | the second earning turn of a day restarts the streak at 1 |
| Turn.ConsecutiveDays | src/app/api/chat/route.ts:185-220 | workouts on two consecutive days after an active day extend the stored streak by one and then by two |
| Turn.NoBadgeTwice | src/app/api/chat/route.ts:192-220 | replaying a reply on the stored result awards none of the first turn's new badges again |

## Left out

- The database helpers `atGet`, `atCreate` and `atPatch` (route.ts:37-57) are network I/O. The records to create and the profile update are returned as values instead.
- The model call and its JSON handling (route.ts:100-123), including the 502 path, are I/O. The reply text is an input.
- `Promise.all` over the log writes (route.ts:170) is concurrency. The records are returned in push order.
- The system prompt (route.ts:80-97) and `displayName` are plain string building and are not modelled.
- The profile fetch, its defaults and the `JSON.parse` of the stored badges (route.ts:64-78) are not modelled. The profile, with its badge list already parsed, is an input.
- Clock reads (route.ts:62, 184) are not modelled. `today` and `yesterday` are parameters.
- The request body and the `try`/`catch` with its 500 response (route.ts:60-61, 237-240) are not modelled.
- `JsText.ParseIntOrZero` models decimal text with an optional sign. It does not model the `0x` prefix, which `parseInt` reads as hexadecimal.
- `Progress.ProgressOf` computes with exact reals, not IEEE doubles. Rounding is not modelled. Infinity and NaN from a zero step become `None`, except +Infinity, which the clamp turns into 100.
- `Turn.Prefix300` counts Unicode scalar values, not UTF-16 code units.
- Lookup: the parsed tag is a dictionary here. In the route it is a plain object, so a lookup of an inherited key such as `constructor` finds a value (route.ts:142-164). This is not modelled.
- TagMap: a piece `__proto__=x` becomes a key here. The route's assignment into a plain object ignores it (route.ts:32).
- ProcessTurn: writes an update whenever the profile has a record id, even an empty one. The route tests the id for truthiness, so an empty id writes nothing (route.ts:212).
- `Tags.CleanExample` uses a short reply. The longer example reply is covered by `Tags.CleanSentenceThenTag` for any sentence, but is not instantiated.
- `sendMessage` (n8n.ts:3-15) is a fetch wrapper.
- The React components and the type declarations are UI and types only.
