/** The tag handling of the chat route: the three expressions that find the
    first `[WORKOUT: …]`, `[MEAL: …]` and `[GOAL: …]` in the model's reply
    (src/app/api/chat/route.ts:126-128), `parseTag`, which turns a tag body
    into key/value pairs (route.ts:27-35), and the global replace that strips
    every tag-like span from the text shown to the user (route.ts:133).
    Each regular expression is written out as an explicit scan. */
module Tags {
  import opened Wrappers
  import opened JsText

  datatype Kind = Workout | Meal | Goal

  function Keyword(k: Kind): (kw: string)
    ensures |kw| >= 4 && forall j :: 0 <= j < |kw| ==> 'A' <= kw[j] <= 'Z'
  {
    match k
    case Workout => "WORKOUT"
    case Meal => "MEAL"
    case Goal => "GOAL"
  }

  // ---------------------------------------------------------------------
  // /\[KEYWORD:\s*([^\]]+)\]/i, the first match
  // ---------------------------------------------------------------------

  /** `s` opens with `[`, the keyword in any letter case, and `:`. */
  predicate HasHeader(s: string, kw: string) {
    |s| >= |kw| + 2 && s[0] == '[' && SameLetters(s[1..|kw| + 1], kw) && s[|kw| + 1] == ':'
  }

  /** Where the capture group starts inside `body[b..e]`: the greedy `\s*`
      takes the leading whitespace but must leave `[^\]]+` one character. */
  function GroupStart(body: string, b: nat, e: nat): (g: nat)
    requires b < e <= |body|
    ensures b <= g < e && SpacesBetween(body, b, g)
    ensures g + 1 == e || !IsSpace(body[g])
    decreases e - b
  {
    if b + 1 < e && IsSpace(body[b]) then GroupStart(body, b + 1, e) else b
  }

  /** Position of the first `]` in `s` at or after `i`, or `|s|`. */
  function CloseFrom(s: string, i: nat): (e: nat)
    requires i <= |s|
    ensures i <= e <= |s| && (e < |s| ==> s[e] == ']')
    ensures forall k :: i <= k < e ==> s[k] != ']'
    decreases |s| - i
  {
    if i == |s| || s[i] == ']' then i else CloseFrom(s, i + 1)
  }

  /** The tag expression matches at the start of `s`: the header, at least
      one character other than `]`, then a `]`. */
  predicate MatchesHere(s: string, kw: string) {
    && HasHeader(s, kw)
    && var e := CloseFrom(s, |kw| + 2);
       |kw| + 2 < e < |s|
  }

  /** The captured group of a match at the start of `s`: the text up to the
      first `]`, less its leading whitespace, except that the group is never
      empty, so a body of whitespace only keeps its last character. */
  function GroupHere(s: string, kw: string): (g: string)
    requires MatchesHere(s, kw)
    ensures var b, e := |kw| + 2, CloseFrom(s, |kw| + 2);
      && 0 < |g| <= e - b
      && g == s[e - |g|..e]
      && SpacesBetween(s, b, e - |g|)
      && (|g| == 1 || !IsSpace(g[0]))
  {
    var b, e := |kw| + 2, CloseFrom(s, |kw| + 2);
    var g := GroupStart(s, b, e);
    assert s[g..e][0] == s[g];
    s[g..e]
  }

  /** The tag expression tried at position `p` of `s`. */
  predicate MatchesAt(s: string, kw: string, p: nat)
    requires p <= |s|
  {
    MatchesHere(s[p..], kw)
  }

  /** Position of the leftmost match of the tag expression in `s` at or
      after `p`: the regular expression tries every start position in turn. */
  function FirstMatchFrom(s: string, kw: string, p: nat): (q: Option<nat>)
    requires p <= |s|
    ensures q.Some? ==> p <= q.value < |s| && MatchesAt(s, kw, q.value)
    ensures forall p' :: p <= p' < (if q.Some? then q.value else |s|) ==> !MatchesAt(s, kw, p')
    decreases |s| - p
  {
    if p == |s| then None
    else if MatchesAt(s, kw, p) then Some(p)
    else FirstMatchFrom(s, kw, p + 1)
  }

  /** `output.match(...)`'s group 1 for one kind of tag, or null. */
  function TagBody(s: string, k: Kind): Option<string> {
    match FirstMatchFrom(s, Keyword(k), 0)
    case Some(q) => Some(GroupHere(s[q..], Keyword(k)))
    case None => None
  }

  /** Shifting the search past a prefix shifts what it finds. */
  function Shifted(q: Option<nat>, n: nat): Option<nat> {
    match q
    case Some(i) => Some(i + n)
    case None => None
  }

  lemma {:induction false} FirstMatchShift(s: string, n: nat, b: string, kw: string, p: nat)
    requires n <= |s| && s[n..] == b && p <= |b|
    ensures FirstMatchFrom(s, kw, n + p) == Shifted(FirstMatchFrom(b, kw, p), n)
    decreases |b| - p
  {
    if p < |b| {
      MatchesAtShift(s, n, b, kw, p);
      if !MatchesAt(b, kw, p) {
        FirstMatchShift(s, n, b, kw, p + 1);
      }
    }
  }

  lemma MatchesAtShift(s: string, n: nat, b: string, kw: string, p: nat)
    requires n <= |s| && s[n..] == b && p <= |b|
    ensures MatchesAt(s, kw, n + p) == MatchesAt(b, kw, p)
  {
    assert s[n + p..] == b[p..];
  }

  lemma {:induction false} FirstMatchSkip(s: string, n: nat, b: string, kw: string, p: nat)
    requires n <= |s| && s[n..] == b && p <= n
    requires forall i :: p <= i < n ==> !MatchesAt(s, kw, i)
    ensures FirstMatchFrom(s, kw, p) == Shifted(FirstMatchFrom(b, kw, 0), n)
    decreases n - p
  {
    if p < n {
      FirstMatchSkip(s, n, b, kw, p + 1);
    } else {
      FirstMatchShift(s, n, b, kw, 0);
    }
  }

  /** When nothing before position `n` matches, the tag found is the one
      found in the text from `n` on. */
  lemma TagBodyShift(s: string, n: nat, b: string, k: Kind)
    requires n <= |s| && s[n..] == b
    requires forall i :: 0 <= i < n ==> !MatchesAt(s, Keyword(k), i)
    ensures TagBody(s, k) == TagBody(b, k)
  {
    FirstMatchSkip(s, n, b, Keyword(k), 0);
    match FirstMatchFrom(b, Keyword(k), 0)
    case Some(q) => assert s[n + q..] == b[q..];
    case None =>
  }

  /** Text without a `[` before a tag does not change what is found. */
  lemma TagBodyAfterPlain(a: string, b: string, k: Kind)
    requires '[' !in a
    ensures TagBody(a + b, k) == TagBody(b, k)
  {
    var s := a + b;
    forall i | 0 <= i < |a| ensures !MatchesAt(s, Keyword(k), i) {
      assert s[i..][0] == a[i];
    }
    TagBodyShift(s, |a|, b, k);
  }

  lemma {:induction false} CloseFromAbsent(t: string, i: nat)
    requires i <= |t| && forall k :: i <= k < |t| ==> t[k] != ']'
    ensures CloseFrom(t, i) == |t|
    decreases |t| - i
  {
    if i < |t| {
      CloseFromAbsent(t, i + 1);
    }
  }

  /** No `]` anywhere: no tag of any kind is found. */
  lemma TagBodyUnclosed(s: string, k: Kind)
    requires ']' !in s
    ensures TagBody(s, k) == None
  {
    var kw := Keyword(k);
    forall p | 0 <= p < |s| ensures !MatchesAt(s, kw, p) {
      var t := s[p..];
      if |kw| + 2 <= |t| {
        assert forall j :: 0 <= j < |t| ==> t[j] == s[p + j];
        CloseFromAbsent(t, |kw| + 2);
      }
    }
  }

  lemma {:induction false} CloseFromIs(t: string, i: nat, e: nat)
    requires i <= e < |t| && t[e] == ']'
    requires forall k :: i <= k < e ==> t[k] != ']'
    ensures CloseFrom(t, i) == e
    decreases e - i
  {
    if i < e {
      CloseFromIs(t, i + 1, e);
    }
  }

  lemma {:induction false} GroupStartIs(body: string, b: nat, e: nat, g: nat)
    requires b <= g < e <= |body| && SpacesBetween(body, b, g)
    requires g + 1 == e || !IsSpace(body[g])
    ensures GroupStart(body, b, e) == g
    decreases g - b
  {
    if b < g {
      GroupStartIs(body, b + 1, e, g);
    }
  }

  /** A tag made of `[`, the keyword in any letter case, `:`, whitespace,
      and a body holding no `]` that does not start with whitespace (or is
      a single character), closed by `]`: it matches, and the group is
      exactly that body. */
  lemma TagHere(word: string, k: Kind, sp: string, body: string, rest: string)
    requires SameLetters(word, Keyword(k)) && AllSpace(sp)
    requires body != [] && ']' !in body && (|body| == 1 || !IsSpace(body[0]))
    ensures var s := "[" + word + ":" + sp + body + "]" + rest;
      MatchesAt(s, Keyword(k), 0) && GroupHere(s[0..], Keyword(k)) == body
  {
    var s := "[" + word + ":" + sp + body + "]" + rest;
    var kw := Keyword(k);
    var b := |kw| + 2;
    var g := b + |sp|;
    var e := g + |body|;
    assert s[0..] == s;
    assert s[..b] == "[" + word + ":" && s[b..g] == sp && s[g..e] == body && s[e] == ']';
    TagParts(s, kw, word, b, g, e);
  }

  /** The positions of a tag's parts fix the match and its group. */
  lemma TagParts(s: string, kw: string, word: string, b: nat, g: nat, e: nat)
    requires SameLetters(word, kw) && b == |kw| + 2 && b <= g < e < |s|
    requires s[..b] == "[" + word + ":" && AllSpace(s[b..g]) && s[e] == ']'
    requires ']' !in s[g..e] && (g + 1 == e || !IsSpace(s[g]))
    ensures MatchesHere(s, kw) && GroupHere(s, kw) == s[g..e]
  {
    assert HasHeader(s, kw) by {
      assert s[0] == s[..b][0] && s[b - 1] == s[..b][b - 1];
      assert s[1..|kw| + 1] == s[..b][1..|kw| + 1];
    }
    assert SpacesBetween(s, b, g) by {
      assert forall i :: b <= i < g ==> s[i] == s[b..g][i - b];
    }
    assert forall i :: b <= i < e ==> s[i] != ']' by {
      assert forall i :: g <= i < e ==> s[i] == s[g..e][i - g];
    }
    CloseFromIs(s, b, e);
    GroupStartIs(s, b, e, g);
  }

  /** A well-formed tag after text without `[` is the one found. */
  lemma TagBodyOf(a: string, word: string, k: Kind, sp: string, body: string, rest: string)
    requires '[' !in a
    requires SameLetters(word, Keyword(k)) && AllSpace(sp)
    requires body != [] && ']' !in body && (|body| == 1 || !IsSpace(body[0]))
    ensures TagBody(a + ("[" + word + ":" + sp + body + "]" + rest), k) == Some(body)
  {
    var s := "[" + word + ":" + sp + body + "]" + rest;
    TagHere(word, k, sp, body, rest);
    TagBodyAfterPlain(a, s, k);
  }

  /** A tag with nothing after its colon is no match, and the search goes on
      past it to a later tag of the same kind. */
  lemma TagBodySkipsEmpty(word: string, k: Kind, rest: string)
    requires SameLetters(word, Keyword(k))
    ensures TagBody("[" + word + ":]" + rest, k) == TagBody(rest, k)
  {
    var s := "[" + word + ":]" + rest;
    var kw := Keyword(k);
    var n := |kw| + 3;
    assert s[0..] == s;
    assert s[1..|kw| + 1] == word;
    CloseFromIs(s, |kw| + 2, |kw| + 2);
    forall i | 1 <= i < n ensures !MatchesAt(s, kw, i) {
      assert s[i..][0] == s[i];
      if i <= |kw| {
        assert s[i] == word[i - 1];
      }
    }
    assert s[n..] == rest;
    TagBodyShift(s, n, rest, k);
  }

  /** `[WORKOUT:]` is no match; a body of only whitespace keeps its last
      character. */
  lemma TagBodyExamples()
    ensures TagBody("[WORKOUT:]", Workout) == None
    ensures TagBody("[WORKOUT: ]", Workout) == Some(" ")
  {
    assert "[WORKOUT:]" == "[" + "WORKOUT" + ":]" + "";
    TagBodySkipsEmpty("WORKOUT", Workout, "");
    assert "[WORKOUT: ]" == "" + ("[" + "WORKOUT" + ":" + "" + " " + "]" + "");
    TagBodyOf("", "WORKOUT", Workout, "", " ", "");
  }

  /** The letter case of the keyword does not matter and leading
      whitespace is not captured. */
  lemma TagBodyCaseExample()
    ensures TagBody("[workout:  run]", Workout) == Some("run")
  {
    assert "[workout:  run]" == "" + ("[" + "workout" + ":" + "  " + "run" + "]" + "");
    TagBodyOf("", "workout", Workout, "  ", "run", "");
  }

  // ---------------------------------------------------------------------
  // output.replace(/\[(WORKOUT|MEAL|GOAL)[^\]]*\]/gi, '').trim()
  // ---------------------------------------------------------------------

  /** `s` opens with `[` and the keyword of `k` in any letter case. */
  predicate OpensSpan(s: string, k: Kind) {
    |s| > |Keyword(k)| && s[0] == '[' && SameLetters(s[1..|Keyword(k)| + 1], Keyword(k))
  }

  /** Keywords start with different letters, so at most one opens a span. */
  lemma OpensOnly(s: string, k: Kind)
    requires OpensSpan(s, k)
    ensures forall k' :: OpensSpan(s, k') ==> k' == k
  {
    forall k' | OpensSpan(s, k') ensures k' == k {
      assert s[1..|Keyword(k)| + 1][0] == s[1] == s[1..|Keyword(k')| + 1][0];
    }
  }

  /** The keyword, if any, that follows the `[` at the start of `s`; the
      alternation is tried in the order WORKOUT, MEAL, GOAL. */
  function SpanKind(s: string): (r: Option<Kind>)
    ensures forall k :: OpensSpan(s, k) <==> r == Some(k)
  {
    if OpensSpan(s, Workout) then OpensOnly(s, Workout); Some(Workout)
    else if OpensSpan(s, Meal) then OpensOnly(s, Meal); Some(Meal)
    else if OpensSpan(s, Goal) then OpensOnly(s, Goal); Some(Goal)
    else None
  }

  /** The `]` that ends a span opened by keyword `k`: the first one after the
      keyword, whatever lies in between (no colon is needed); none when the
      bracket is never closed. */
  function CloseAfter(s: string, k: Kind): (e: Option<nat>)
    requires OpensSpan(s, k)
    ensures e.Some? <==> ']' in s[|Keyword(k)| + 1..]
    ensures e.Some? ==> |Keyword(k)| < e.value < |s| && s[e.value] == ']'
    ensures e.Some? ==> ']' !in s[|Keyword(k)| + 1..e.value]
  {
    var n := |Keyword(k)| + 1;
    var rest := s[n..];
    if ']' in rest then
      var i := IndexOf(rest, ']');
      assert s[n..n + i] == rest[..i];
      Some(n + i)
    else None
  }

  /** Position of the `]` that closes a strippable span at the start of `s`:
      `[`, a keyword, any run of characters other than `]`, then `]`. */
  function SpanClose(s: string): (e: Option<nat>)
    ensures forall k :: OpensSpan(s, k) ==> e == CloseAfter(s, k)
    ensures SpanKind(s).None? ==> e.None?
  {
    match SpanKind(s)
    case Some(k) => CloseAfter(s, k)
    case None => None
  }

  /** The global replace: every span, scanning left to right, is removed;
      every other character is kept. */
  function Strip(s: string): (r: string)
    ensures |r| <= |s|
    decreases |s|
  {
    if s == [] then []
    else
      match SpanClose(s)
      case Some(e) => Strip(s[e + 1..])
      case None => [s[0]] + Strip(s[1..])
  }

  /** The text shown to the user. */
  function CleanMessage(reply: string): string {
    Trim(Strip(reply))
  }

  /** A character other than `[` is kept. */
  lemma StripPlainHead(s: string)
    requires s != [] && s[0] != '['
    ensures Strip(s) == [s[0]] + Strip(s[1..])
  {
    assert SpanKind(s).None?;
  }

  /** The sequence step behind `StripKeepsPlainPrefix`. */
  lemma PrefixStep(s: string, n: nat, x: string, y: string, z: string)
    requires 0 < n <= |s| && x == [s[0]] + y && y == s[1..][..n - 1] + z
    ensures x == s[..n] + z
  {
    assert s[..n] == [s[0]] + s[1..][..n - 1];
  }

  /** Text before the first `[` is kept as it is. */
  lemma {:induction false} StripKeepsPlainPrefix(s: string, n: nat)
    requires n <= |s| && forall i :: 0 <= i < n ==> s[i] != '['
    ensures Strip(s) == s[..n] + Strip(s[n..])
  {
    if n > 0 {
      var t := s[1..];
      assert forall i :: 0 <= i < n - 1 ==> t[i] != '[' by {
        assert forall i :: 0 <= i < n - 1 ==> t[i] == s[i + 1];
      }
      StripPlainHead(s);
      StripKeepsPlainPrefix(t, n - 1);
      assert t[n - 1..] == s[n..];
      PrefixStep(s, n, Strip(s), Strip(t), Strip(s[n..]));
    } else {
      assert s[..0] == [] && s[0..] == s;
    }
  }

  lemma StripKeepsPlain(a: string, b: string)
    requires '[' !in a
    ensures Strip(a + b) == a + Strip(b)
  {
    var s := a + b;
    assert forall i :: 0 <= i < |a| ==> s[i] == a[i];
    StripKeepsPlainPrefix(s, |a|);
    assert s[..|a|] == a && s[|a|..] == b;
  }

  /** A whole span is removed, whatever lies between the keyword and the
      `]`: a colon or none, a good body or a malformed one. */
  lemma StripDropsSpan(word: string, k: Kind, inner: string, b: string)
    requires SameLetters(word, Keyword(k))
    requires ']' !in inner
    ensures Strip("[" + word + inner + "]" + b) == Strip(b)
  {
    var t := "[" + word + inner + "]";
    var s := t + b;
    var n := |Keyword(k)| + 1;
    assert s[1..n] == word;
    assert OpensSpan(s, k);
    assert s[n..] == inner + "]" + b;
    IndexOfAfter(inner, ']', b);
    assert CloseAfter(s, k) == Some(|t| - 1);
    assert s[|t|..] == b;
  }

  /** Text without a `]` loses nothing: an unclosed bracket is never stripped. */
  lemma {:induction false} StripUnclosed(s: string)
    requires ']' !in s
    ensures Strip(s) == s
    decreases |s|
  {
    if s != [] {
      forall k | OpensSpan(s, k) ensures ']' !in s[|Keyword(k)| + 1..] {
        assert forall c :: c in s[|Keyword(k)| + 1..] ==> c in s;
      }
      assert SpanClose(s).None?;
      assert ']' !in s[1..] by { assert forall c :: c in s[1..] ==> c in s; }
      StripUnclosed(s[1..]);
    }
  }

  /** Text holding no span is only trimmed. */
  lemma {:induction false} StripNoSpan(s: string)
    requires forall p :: 0 <= p < |s| ==> SpanClose(s[p..]).None?
    ensures Strip(s) == s
    decreases |s|
  {
    if s != [] {
      assert s[0..] == s;
      assert forall p :: 0 <= p < |s| - 1 ==> s[1..][p..] == s[p + 1..];
      StripNoSpan(s[1..]);
    }
  }

  lemma CleanNoSpan(s: string)
    requires forall p :: 0 <= p < |s| ==> SpanClose(s[p..]).None?
    ensures CleanMessage(s) == Trim(s)
  {
    StripNoSpan(s);
  }

  /** A span after plain text is removed and the text before it is kept. */
  lemma StripTagAfterPlain(a: string, word: string, k: Kind, inner: string, b: string)
    requires '[' !in a && SameLetters(word, Keyword(k)) && ']' !in inner
    ensures Strip(a + ("[" + word + inner + "]" + b)) == a + Strip(b)
  {
    StripKeepsPlain(a, "[" + word + inner + "]" + b);
    StripDropsSpan(word, k, inner, b);
  }

  /** A tag at the end of a reply disappears from the text shown, and what
      stood before it is only trimmed. */
  lemma CleanDropsTrailingTag(a: string, word: string, k: Kind, inner: string)
    requires '[' !in a && SameLetters(word, Keyword(k)) && ']' !in inner
    ensures CleanMessage(a + ("[" + word + inner + "]")) == Trim(a)
  {
    assert a + ("[" + word + inner + "]") == a + ("[" + word + inner + "]" + "");
    StripTagAfterPlain(a, word, k, inner, "");
    assert Strip("") == "";
    assert a + "" == a;
  }

  /** A sentence, whitespace, then a tag: only the sentence is shown. */
  lemma CleanSentenceThenTag(a: string, sp: string, word: string, k: Kind, inner: string)
    requires '[' !in a && AllSpace(sp) && SameLetters(word, Keyword(k)) && ']' !in inner
    requires a == [] || (!IsSpace(a[0]) && !IsSpace(a[|a| - 1]))
    ensures CleanMessage(a + sp + ("[" + word + inner + "]")) == a
  {
    assert '[' !in a + sp by {
      assert forall j :: 0 <= j < |sp| ==> IsSpace(sp[j]);
    }
    CleanDropsTrailingTag(a + sp, word, k, inner);
    assert a + sp == "" + a + sp;
    TrimAround("", a, sp);
  }

  /** A workout tag at the end of a reply leaves only the sentence before it. */
  lemma CleanExample()
    ensures CleanMessage("Nice! [WORKOUT: run]") == "Nice!"
  {
    assert "Nice! [WORKOUT: run]" == "Nice!" + " " + ("[" + "WORKOUT" + ": run" + "]");
    CleanSentenceThenTag("Nice!", " ", "WORKOUT", Workout, ": run");
  }

  // ---------------------------------------------------------------------
  // parseTag
  // ---------------------------------------------------------------------

  /** What one comma piece of a tag body contributes: the piece is trimmed,
      split at its first `=`, and both sides are trimmed; any later `=`
      stays in the value. A piece without `=` contributes nothing. */
  function Entry(piece: string): Option<(string, string)> {
    var t := Trim(piece);
    if '=' in t then
      var i := IndexOf(t, '=');
      Some((Trim(t[..i]), Trim(t[i + 1..])))
    else None
  }

  /** The entry of every piece, in order. */
  function Entries(pieces: seq<string>): (es: seq<Option<(string, string)>>)
    ensures |es| == |pieces|
    ensures forall j :: 0 <= j < |pieces| ==> es[j] == Entry(pieces[j])
  {
    seq(|pieces|, j requires 0 <= j < |pieces| => Entry(pieces[j]))
  }

  predicate Sets(e: Option<(string, string)>, key: string) {
    e.Some? && e.value.0 == key
  }

  /** Index of the last entry that sets `key`, or -1. */
  function LastSetting(es: seq<Option<(string, string)>>, key: string): (j: int)
    ensures -1 <= j < |es|
    ensures j >= 0 ==> Sets(es[j], key)
    ensures forall k :: j < k < |es| ==> !Sets(es[k], key)
  {
    if es == [] then -1
    else if Sets(es[|es| - 1], key) then |es| - 1
    else LastSetting(es[..|es| - 1], key)
  }

  /** The keys some entry sets. */
  function KeysOf(es: seq<Option<(string, string)>>): set<string> {
    set j | 0 <= j < |es| && es[j].Some? :: es[j].value.0
  }

  /** The value of the last entry that sets `key` (empty when none does). */
  function LastValue(es: seq<Option<(string, string)>>, key: string): string {
    var j := LastSetting(es, key);
    if j >= 0 then es[j].value.1 else ""
  }

  /** The dictionary the entries describe: a key is present exactly when
      some entry sets it, and the last such entry gives its value. */
  function EntryMap(es: seq<Option<(string, string)>>): map<string, string> {
    map k | k in KeysOf(es) :: LastValue(es, k)
  }

  lemma EntryMapSpec(es: seq<Option<(string, string)>>)
    ensures forall k :: k in EntryMap(es) <==> LastSetting(es, k) >= 0
    ensures forall k :: k in EntryMap(es) ==> EntryMap(es)[k] == es[LastSetting(es, k)].value.1
  {
    forall k ensures k in KeysOf(es) <==> LastSetting(es, k) >= 0 {
      if k in KeysOf(es) {
        var j :| 0 <= j < |es| && es[j].Some? && es[j].value.0 == k;
        assert Sets(es[j], k);
      }
    }
  }

  /** A dictionary with the keys and values the entries describe is theirs. */
  lemma EntryMapIs(d: map<string, string>, es: seq<Option<(string, string)>>)
    requires forall key :: key in d <==> LastSetting(es, key) >= 0
    requires forall key :: key in d ==> d[key] == es[LastSetting(es, key)].value.1
    ensures d == EntryMap(es)
  {
    EntryMapSpec(es);
    assert d.Keys == EntryMap(es).Keys;
  }

  /** What `parseTag` gives for a tag body: the dictionary of its entries,
      one per comma piece. */
  function TagMap(body: string): map<string, string> {
    EntryMap(Entries(Split(body, ',')))
  }

  /** `parseTag` over an optional match. */
  function ParsedTag(m: Option<string>): Option<map<string, string>> {
    match m
    case Some(body) => Some(TagMap(body))
    case None => None
  }

  /** The route computes an entry with `split('=')` and re-joins the tail,
      which is the same as splitting at the first `=`. */
  lemma EntryBySplit(piece: string)
    ensures var parts := Split(Trim(piece), '=');
      && (|parts| >= 2 <==> Entry(piece).Some?)
      && (|parts| >= 2 ==> Entry(piece).value == (Trim(parts[0]), Trim(Join(parts[1..], '='))))
  {
    var t := Trim(piece);
    if '=' in t {
      var i := IndexOf(t, '=');
      var parts := Split(t, '=');
      assert parts[1..] == Split(t[i + 1..], '=');
      JoinSplit(t[i + 1..], '=');
    }
  }

  /** `parseTag`: null for no match; otherwise the map that a `forEach` over
      the comma pieces fills in, where a key is present exactly when some
      piece sets it, and the last such piece gives its value. */
  method ParseTag(m: Option<string>) returns (r: Option<map<string, string>>)
    ensures r == ParsedTag(m)
  {
    if m.None? {
      return None;
    }
    var pieces := Split(m.value, ',');
    ghost var es := Entries(pieces);
    var result: map<string, string> := map[];
    for i := 0 to |pieces|
      invariant forall key :: key in result <==> LastSetting(es[..i], key) >= 0
      invariant forall key :: key in result ==> result[key] == es[LastSetting(es[..i], key)].value.1
    {
      assert es[..i + 1][..i] == es[..i];
      var parts := Split(Trim(pieces[i]), '=');
      EntryBySplit(pieces[i]);
      if |parts| >= 2 {
        result := result[Trim(parts[0]) := Trim(Join(parts[1..], '='))];
      }
    }
    assert es[..|pieces|] == es;
    EntryMapIs(result, es);
    return Some(result);
  }

  /** A piece without `=` contributes nothing. */
  lemma EntryWithoutEquals(piece: string)
    requires '=' !in piece
    ensures Entry(piece) == None
  {
    TrimWithin(piece);
  }

  /** A piece `key = value` gives that key and that value whatever
      whitespace surrounds either; the value may itself hold `=`. */
  lemma EntryOf(pre: string, key: string, mid1: string, mid2: string, value: string, post: string)
    requires AllSpace(pre) && AllSpace(mid1) && AllSpace(mid2) && AllSpace(post)
    requires key != [] && !IsSpace(key[0]) && !IsSpace(key[|key| - 1]) && '=' !in key
    requires value != [] && !IsSpace(value[0]) && !IsSpace(value[|value| - 1])
    ensures Entry(pre + key + mid1 + "=" + mid2 + value + post) == Some((key, value))
  {
    var piece := pre + key + mid1 + "=" + mid2 + value + post;
    var left := key + mid1;
    var right := mid2 + value;
    var t := left + ['='] + right;
    TrimmedPiece(pre, key, mid1, mid2, value, post);
    assert '=' !in left by {
      assert forall j :: 0 <= j < |mid1| ==> IsSpace(mid1[j]);
    }
    IndexOfAfter(left, '=', right);
    EntryAt(piece, t, |left|);
    SidesTrimmed(key, mid1, mid2, value);
  }

  lemma TrimmedPiece(pre: string, key: string, mid1: string, mid2: string, value: string, post: string)
    requires AllSpace(pre) && AllSpace(post)
    requires key != [] && !IsSpace(key[0]) && value != [] && !IsSpace(value[|value| - 1])
    ensures Trim(pre + key + mid1 + "=" + mid2 + value + post) == key + mid1 + ['='] + (mid2 + value)
  {
    var t := key + mid1 + ['='] + (mid2 + value);
    assert pre + key + mid1 + "=" + mid2 + value + post == pre + t + post;
    assert t[0] == key[0] && t[|t| - 1] == value[|value| - 1];
    TrimAround(pre, t, post);
  }

  lemma SidesTrimmed(key: string, mid1: string, mid2: string, value: string)
    requires AllSpace(mid1) && AllSpace(mid2)
    requires key != [] && !IsSpace(key[0]) && !IsSpace(key[|key| - 1])
    requires value != [] && !IsSpace(value[0]) && !IsSpace(value[|value| - 1])
    ensures var t := key + mid1 + ['='] + (mid2 + value);
      Trim(t[..|key + mid1|]) == key && Trim(t[|key + mid1| + 1..]) == value
  {
    var t := key + mid1 + ['='] + (mid2 + value);
    assert t[..|key + mid1|] == "" + key + mid1;
    TrimAround("", key, mid1);
    assert t[|key + mid1| + 1..] == mid2 + value + "";
    TrimAround(mid2, value, "");
  }

  /** An entry once its trimmed piece and the first `=` in it are known. */
  lemma EntryAt(piece: string, t: string, i: nat)
    requires Trim(piece) == t && '=' in t && IndexOf(t, '=') == i
    ensures Entry(piece) == Some((Trim(t[..i]), Trim(t[i + 1..])))
  {
  }

  /** A body with no `=` at all still parses, to a map with no keys. */
  lemma NoPairsNoKeys(body: string)
    requires '=' !in body
    ensures TagMap(body) == map[]
  {
    var pieces := Split(body, ',');
    var es := Entries(pieces);
    forall j | 0 <= j < |pieces| ensures es[j].None? {
      assert '=' !in pieces[j] by {
        JoinSplit(body, ',');
        PieceInJoin(pieces, ',', j);
      }
      EntryWithoutEquals(pieces[j]);
    }
    assert KeysOf(es) == {};
  }

  /** Every character of a piece is a character of the joined text. */
  lemma {:induction false} PieceInJoin(parts: seq<string>, sep: char, j: nat)
    requires j < |parts|
    ensures forall c :: c in parts[j] ==> c in Join(parts, sep)
  {
    if |parts| > 1 {
      if j > 0 {
        PieceInJoin(parts[1..], sep, j - 1);
      }
    }
  }

  /** `[WORKOUT: ]` is a match whose body holds no pair: the parsed tag is
      an empty dictionary, not null, so the workout counts. */
  lemma EmptyTagCounts()
    ensures ParsedTag(TagBody("[WORKOUT: ]", Workout)) == Some(map[])
  {
    TagBodyExamples();
    NoPairsNoKeys(" ");
  }

  /** Both sides of an entry are trimmed. */
  lemma EntryTrimExample()
    ensures Entry(" a = 1 ") == Some(("a", "1"))
  {
    assert " a = 1 " == " " + "a" + " " + "=" + " " + "1" + " ";
    EntryOf(" ", "a", " ", " ", "1", " ");
  }

  /** Only the first `=` separates key from value. */
  lemma EntryEqualsExample()
    ensures Entry("d=a=b") == Some(("d", "a=b"))
  {
    assert "d=a=b" == "" + "d" + "" + "=" + "" + "a=b" + "";
    EntryOf("", "d", "", "", "a=b", "");
  }
}
