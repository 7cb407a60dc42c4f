/**
 * The pure helpers of the home page: the narrowing validators for stored settings, the
 * rules for loading saved preferences, `formatRelativeTime`, the text assembled when a
 * post is picked, and the search request the page sends.
 */
module Page {
  import opened Util
  import opened Text
  import opened Uri
  import opened Listing
  import opened RedditApi
  import SearchRoute
  import PostRoute

  // ----- Validators -------------------------------------------------------------------

  datatype Gpt5Model = Gpt5 | Gpt5Mini | Gpt5Nano

  function Gpt5ModelName(m: Gpt5Model): string {
    match m
    case Gpt5 => "gpt-5"
    case Gpt5Mini => "gpt-5-mini"
    case Gpt5Nano => "gpt-5-nano"
  }

  /** The levels shared by reasoning effort (all four) and verbosity (all but `minimal`). */
  datatype Level = Minimal | Low | Medium | High

  function LevelName(l: Level): string {
    match l
    case Minimal => "minimal"
    case Low => "low"
    case Medium => "medium"
    case High => "high"
  }

  type VerbosityLevel = l: Level | l != Minimal witness Medium

  /** `isGpt5Model`. */
  predicate IsGpt5Model(value: string) {
    value == "gpt-5" || value == "gpt-5-mini" || value == "gpt-5-nano"
  }

  /** `isReasoningEffort`. */
  predicate IsReasoningEffort(value: string) {
    value == "minimal" || value == "low" || value == "medium" || value == "high"
  }

  /** `isVerbosity`. */
  predicate IsVerbosity(value: string) {
    value == "low" || value == "medium" || value == "high"
  }

  /** The validator holds exactly for the names of the three models. */
  lemma IsGpt5ModelExactly(value: string)
    ensures IsGpt5Model(value) <==> exists m :: Gpt5ModelName(m) == value
  {
    if value == "gpt-5" {
      assert Gpt5ModelName(Gpt5) == value;
    } else if value == "gpt-5-mini" {
      assert Gpt5ModelName(Gpt5Mini) == value;
    } else if value == "gpt-5-nano" {
      assert Gpt5ModelName(Gpt5Nano) == value;
    }
  }

  /** The validator holds exactly for the names of the four effort levels. */
  lemma IsReasoningEffortExactly(value: string)
    ensures IsReasoningEffort(value) <==> exists l :: LevelName(l) == value
  {
    if value == "minimal" {
      assert LevelName(Minimal) == value;
    } else if value == "low" {
      assert LevelName(Low) == value;
    } else if value == "medium" {
      assert LevelName(Medium) == value;
    } else if value == "high" {
      assert LevelName(High) == value;
    }
  }

  /** The validator holds exactly for the names of the levels other than `minimal`. */
  lemma IsVerbosityExactly(value: string)
    ensures IsVerbosity(value) <==> exists l :: l != Minimal && LevelName(l) == value
  {
    if value == "low" {
      assert LevelName(Low) == value;
    } else if value == "medium" {
      assert LevelName(Medium) == value;
    } else if value == "high" {
      assert LevelName(High) == value;
    }
  }

  function ParseGpt5Model(value: string): (m: Option<Gpt5Model>)
    ensures m.Some? <==> IsGpt5Model(value)
    ensures m.Some? ==> Gpt5ModelName(m.value) == value
  {
    if value == "gpt-5" then Some(Gpt5)
    else if value == "gpt-5-mini" then Some(Gpt5Mini)
    else if value == "gpt-5-nano" then Some(Gpt5Nano)
    else None
  }

  function ParseLevel(value: string): (l: Option<Level>)
    ensures l.Some? <==> IsReasoningEffort(value)
    ensures l.Some? ==> LevelName(l.value) == value
    ensures l.Some? && l.value != Minimal <==> IsVerbosity(value)
  {
    if value == "minimal" then Some(Minimal)
    else if value == "low" then Some(Low)
    else if value == "medium" then Some(Medium)
    else if value == "high" then Some(High)
    else None
  }

  // ----- Saved preferences ------------------------------------------------------------

  /** The settings kept in local storage. The provider is a plain string: it is never checked. */
  datatype Preferences = Preferences(
    anthropicKey: string, openaiKey: string, useEmojis: bool, useHashtags: bool,
    provider: string, gpt5Model: Gpt5Model, reasoningEffort: Level, verbosity: VerbosityLevel)

  type Storage = map<string, string>

  /** `localStorage.getItem(key)`: `None` for `null`. */
  function GetItem(store: Storage, key: string): Option<string> {
    if key in store then Some(store[key]) else None
  }

  /** A stored string that is present and non-empty, so truthy. */
  predicate Truthy(v: Option<string>) {
    v.Some? && v.value != ""
  }

  /**
   * The loading effect: keys and provider when truthy, the flags whenever present (as
   * `value === "true"`), the model, effort and verbosity only when their validator passes.
   */
  function LoadPreferences(store: Storage, p: Preferences): Preferences {
    var a, o := GetItem(store, "anthropic_key"), GetItem(store, "openai_key");
    var ue, uh := GetItem(store, "use_emojis"), GetItem(store, "use_hashtags");
    var mp, gm := GetItem(store, "model_provider"), GetItem(store, "gpt5_model");
    var re, v := GetItem(store, "reasoning_effort"), GetItem(store, "verbosity");
    var gm' := if Truthy(gm) then ParseGpt5Model(gm.value) else None;
    var re' := if Truthy(re) then ParseLevel(re.value) else None;
    var v' := if Truthy(v) then ParseLevel(v.value) else None;
    Preferences(
      if Truthy(a) then a.value else p.anthropicKey,
      if Truthy(o) then o.value else p.openaiKey,
      if ue.Some? then ue.value == "true" else p.useEmojis,
      if uh.Some? then uh.value == "true" else p.useHashtags,
      if Truthy(mp) then mp.value else p.provider,
      if gm'.Some? then gm'.value else p.gpt5Model,
      if re'.Some? then re'.value else p.reasoningEffort,
      if v'.Some? && v'.value != Minimal then v'.value else p.verbosity)
  }

  /** `String(flag)`. */
  function BoolString(b: bool): string {
    if b then "true" else "false"
  }

  /** What the page's write effects leave in storage for the given settings. */
  function Saved(p: Preferences): Storage {
    map[
      "anthropic_key" := p.anthropicKey, "openai_key" := p.openaiKey,
      "use_emojis" := BoolString(p.useEmojis), "use_hashtags" := BoolString(p.useHashtags),
      "model_provider" := p.provider, "gpt5_model" := Gpt5ModelName(p.gpt5Model),
      "reasoning_effort" := LevelName(p.reasoningEffort), "verbosity" := LevelName(p.verbosity)]
  }

  /**
   * Loading what was saved restores every setting, except that an empty key or provider
   * is falsy and leaves the current value in place.
   */
  lemma LoadSaved(p: Preferences, q: Preferences)
    ensures LoadPreferences(Saved(p), q) ==
      p.(anthropicKey := if p.anthropicKey == "" then q.anthropicKey else p.anthropicKey,
         openaiKey := if p.openaiKey == "" then q.openaiKey else p.openaiKey,
         provider := if p.provider == "" then q.provider else p.provider)
  {
    var s := Saved(p);
    assert GetItem(s, "gpt5_model") == Some(Gpt5ModelName(p.gpt5Model));
    assert GetItem(s, "reasoning_effort") == Some(LevelName(p.reasoningEffort));
    assert GetItem(s, "verbosity") == Some(LevelName(p.verbosity));
    assert ParseGpt5Model(Gpt5ModelName(p.gpt5Model)) == Some(p.gpt5Model);
    assert ParseLevel(LevelName(p.reasoningEffort)) == Some(p.reasoningEffort);
    assert ParseLevel(LevelName(p.verbosity)) == Some(p.verbosity);
  }

  /** Loading twice from the same storage changes nothing more. */
  lemma LoadIdempotent(store: Storage, p: Preferences)
    ensures LoadPreferences(store, LoadPreferences(store, p)) == LoadPreferences(store, p)
  {
  }

  /**
   * A stored model, effort or verbosity that fails its validator is ignored, but any
   * non-empty stored provider is taken as it is, and a flag is on only for exactly `true`.
   */
  lemma LoadValidatesAllButProvider(store: Storage, p: Preferences)
    ensures "gpt5_model" in store && !IsGpt5Model(store["gpt5_model"]) ==>
      LoadPreferences(store, p).gpt5Model == p.gpt5Model
    ensures "reasoning_effort" in store && !IsReasoningEffort(store["reasoning_effort"]) ==>
      LoadPreferences(store, p).reasoningEffort == p.reasoningEffort
    ensures "verbosity" in store && !IsVerbosity(store["verbosity"]) ==>
      LoadPreferences(store, p).verbosity == p.verbosity
    ensures "model_provider" in store && store["model_provider"] != "" ==>
      LoadPreferences(store, p).provider == store["model_provider"]
    ensures "use_emojis" in store ==> (LoadPreferences(store, p).useEmojis <==> store["use_emojis"] == "true")
    ensures "use_hashtags" in store ==> (LoadPreferences(store, p).useHashtags <==> store["use_hashtags"] == "true")
  {
  }

  // ----- Relative time ----------------------------------------------------------------

  datatype TimeUnit = Seconds | Minutes | Hours | Days | Weeks | Months | Years

  /** The length of each unit; a month is 30 days and a year 365. */
  function UnitSeconds(u: TimeUnit): nat {
    match u
    case Seconds => 1
    case Minutes => 60
    case Hours => 3600
    case Days => 86400
    case Weeks => 86400 * 7
    case Months => 86400 * 30
    case Years => 86400 * 365
  }

  function Suffix(u: TimeUnit): string {
    match u
    case Seconds => "s"
    case Minutes => "m"
    case Hours => "h"
    case Days => "d"
    case Weeks => "w"
    case Months => "mo"
    case Years => "y"
  }

  /**
   * Whole seconds since creation, at least 1. With a positive divisor Dafny's `/` is the
   * floor, as `Math.floor` of the quotient is.
   */
  function ElapsedSeconds(createdUtcSeconds: int, nowMs: int): (d: nat)
    ensures nowMs - createdUtcSeconds * 1000 < 2000 ==> d == 1
    ensures nowMs - createdUtcSeconds * 1000 >= 1000 ==>
      d * 1000 <= nowMs - createdUtcSeconds * 1000 < (d + 1) * 1000
  {
    var diff := (nowMs - createdUtcSeconds * 1000) / 1000;
    if diff < 1 then 1 else diff
  }

  /** The amount and unit shown for an elapsed time, by the first test that holds. */
  function Age(d: nat): (nat, TimeUnit) {
    var minutes, hours, days := d / 60, d / 3600, d / 86400;
    var weeks, months, years := d / (86400 * 7), d / (86400 * 30), d / (86400 * 365);
    if d < 60 then (d, Seconds)
    else if minutes < 60 then (minutes, Minutes)
    else if hours < 24 then (hours, Hours)
    else if days < 7 then (days, Days)
    else if weeks < 5 then (weeks, Weeks)
    else if months < 12 then (months, Months)
    else (years, Years)
  }

  /** `formatRelativeTime(createdUtcSeconds)` with the clock reading passed in. */
  function FormatRelativeTime(createdUtcSeconds: int, nowMs: int): (r: string)
    ensures r == "" <==> createdUtcSeconds == 0
  {
    if createdUtcSeconds == 0 then ""
    else
      var (amount, unit) := Age(ElapsedSeconds(createdUtcSeconds, nowMs));
      NatToString(amount) + Suffix(unit) + " ago"
  }

  /** `n / k < m` exactly when `n < m * k`. */
  lemma DivBelow(n: nat, k: nat, m: nat)
    requires k > 0
    ensures n / k < m <==> n < m * k
  {
    var q, r := n / k, n % k;
    assert n == q * k + r && 0 <= r < k;
    if q < m {
      assert q + 1 <= m;
      assert (q + 1) * k <= m * k;
    } else {
      assert q * k >= m * k;
    }
  }

  lemma AgeThresholds(d: nat)
    ensures d / 60 < 60 <==> d < 3600
    ensures d / 3600 < 24 <==> d < 86400
    ensures d / 86400 < 7 <==> d < 86400 * 7
    ensures d / (86400 * 7) < 5 <==> d < 86400 * 35
    ensures d / (86400 * 30) < 12 <==> d < 86400 * 360
    ensures d / (86400 * 365) < 1 <==> d < 86400 * 365
  {
    DivBelow(d, 60, 60);
    DivBelow(d, 3600, 24);
    DivBelow(d, 86400, 7);
    DivBelow(d, 86400 * 7, 5);
    DivBelow(d, 86400 * 30, 12);
    DivBelow(d, 86400 * 365, 1);
  }

  /**
   * The unit is the first whose range holds the elapsed time: seconds below a minute, ...,
   * weeks below 35 days, months below 360 days, years from there on. The amount shown is
   * the floor of the elapsed time in that unit.
   */
  lemma AgeUnitAndAmount(d: nat)
    ensures var (amount, unit) := Age(d);
      amount == d / UnitSeconds(unit) &&
      (unit == Seconds <==> d < 60) &&
      (unit == Minutes <==> 60 <= d < 3600) &&
      (unit == Hours <==> 3600 <= d < 86400) &&
      (unit == Days <==> 86400 <= d < 86400 * 7) &&
      (unit == Weeks <==> 86400 * 7 <= d < 86400 * 35) &&
      (unit == Months <==> 86400 * 35 <= d < 86400 * 360) &&
      (unit == Years <==> 86400 * 360 <= d)
  {
    AgeThresholds(d);
  }

  /** A non-zero multiple of `k` is at least `k` away from 0. */
  lemma MulSign(e: int, k: nat)
    requires k > 0
    ensures e >= 1 ==> e * k >= k
    ensures e <= -1 ==> e * k <= 0 - k
  {
    if e >= 1 {
      assert e * k == k + (e - 1) * k;
    } else if e <= -1 {
      assert e * k == 0 - k + (e + 1) * k;
    }
  }

  /** Division with remainder has one quotient. */
  lemma DivUnique(n: nat, k: nat, q: nat, r: nat)
    requires k > 0 && n == q * k + r && r < k
    ensures n / k == q
  {
    var q', r' := n / k, n % k;
    var e: int := q' - q;
    assert e * k == r - r';
    MulSign(e, k);
  }

  lemma Regroup(q: nat, b: nat, r: nat, a: nat)
    ensures (q * b + r) * a == q * (a * b) + r * a
  {
  }

  lemma BelowProduct(r2: nat, a: nat, r: nat, b: nat)
    requires r2 < b && r < a
    ensures r2 * a + r < a * b
  {
    MulSign(b - r2, a);
  }

  /** Dividing by `a` with remainder, then by `b`, is dividing by `a * b`. */
  lemma DivDivCore(n: nat, a: nat, b: nat, q: nat, r: nat, q2: nat, r2: nat)
    requires a > 0 && b > 0
    requires n == q * a + r && r < a && q == q2 * b + r2 && r2 < b
    ensures n / (a * b) == q2
  {
    Regroup(q2, b, r2, a);
    BelowProduct(r2, a, r, b);
    DivUnique(n, a * b, q2, r2 * a + r);
  }

  /** Flooring twice is flooring once by the product. */
  lemma DivDiv(n: nat, a: nat, b: nat)
    requires a > 0 && b > 0
    ensures n / a / b == n / (a * b)
  {
    DivDivCore(n, a, b, n / a, n % a, n / a / b, n / a % b);
  }

  /**
   * Once a second has passed, the amount in the label is the elapsed milliseconds divided
   * by the length of the unit shown, rounded down.
   */
  lemma LabelAmount(createdUtcSeconds: int, nowMs: int)
    requires createdUtcSeconds != 0 && nowMs - createdUtcSeconds * 1000 >= 1000
    ensures var unit := Age(ElapsedSeconds(createdUtcSeconds, nowMs)).1;
      FormatRelativeTime(createdUtcSeconds, nowMs) ==
        NatToString((nowMs - createdUtcSeconds * 1000) / (1000 * UnitSeconds(unit))) + Suffix(unit) + " ago"
  {
    var diff: nat := nowMs - createdUtcSeconds * 1000;
    var d := ElapsedSeconds(createdUtcSeconds, nowMs);
    assert d == diff / 1000;
    var (amount, unit) := Age(d);
    AgeUnitAndAmount(d);
    DivDiv(diff, 1000, UnitSeconds(unit));
  }

  /** Within the first minute the label is the whole seconds elapsed. */
  lemma SecondsLabel(createdUtcSeconds: int, nowMs: int)
    requires createdUtcSeconds != 0 && 1000 <= nowMs - createdUtcSeconds * 1000 < 60000
    ensures FormatRelativeTime(createdUtcSeconds, nowMs) ==
      NatToString((nowMs - createdUtcSeconds * 1000) / 1000) + "s ago"
  {
    var d := ElapsedSeconds(createdUtcSeconds, nowMs);
    assert d == (nowMs - createdUtcSeconds * 1000) / 1000;
    AgeUnitAndAmount(d);
  }

  /** A creation time less than a second before now, or in the future, shows as `1s ago`. */
  lemma FutureIsOneSecond(createdUtcSeconds: int, nowMs: int)
    requires createdUtcSeconds != 0 && nowMs - createdUtcSeconds * 1000 < 2000
    ensures FormatRelativeTime(createdUtcSeconds, nowMs) == "1s ago"
  {
    assert ElapsedSeconds(createdUtcSeconds, nowMs) == 1;
    assert NatToString(1) == "1";
  }

  /**
   * As written, elapsed times from 360 up to 365 days fall past the months test (twelve
   * 30-day months) but short of one 365-day year, so the amount shown is 0.
   */
  lemma ZeroYearsAsWritten(d: nat)
    requires 86400 * 360 <= d < 86400 * 365
    ensures Age(d) == (0, Years)
  {
    AgeThresholds(d);
  }

  /** A post created 360 days before now reads `0y ago`. */
  lemma ZeroYearsExample()
    ensures FormatRelativeTime(1, 1000 + 86400 * 360 * 1000) == "0y ago"
  {
    assert ElapsedSeconds(1, 1000 + 86400 * 360 * 1000) == 86400 * 360;
    ZeroYearsAsWritten(86400 * 360);
    assert NatToString(0) == "0";
  }

  /** The intended test: months while less than a year has passed, then years. */
  function AgeCorrected(d: nat): (nat, TimeUnit) {
    var years := d / (86400 * 365);
    if d < 86400 * 35 then Age(d)
    else if years < 1 then (d / (86400 * 30), Months)
    else (years, Years)
  }

  function FormatRelativeTimeCorrected(createdUtcSeconds: int, nowMs: int): (r: string)
    ensures r == "" <==> createdUtcSeconds == 0
  {
    if createdUtcSeconds == 0 then ""
    else
      var (amount, unit) := AgeCorrected(ElapsedSeconds(createdUtcSeconds, nowMs));
      NatToString(amount) + Suffix(unit) + " ago"
  }

  /**
   * With the corrected test the amount shown is never 0, it is still the floor of the
   * elapsed time in the unit shown, and only the 360-to-365-day range reads differently.
   */
  lemma AgeCorrectedPositive(d: nat)
    requires d >= 1
    ensures var (amount, unit) := AgeCorrected(d);
      amount >= 1 && amount == d / UnitSeconds(unit)
    ensures !(86400 * 360 <= d < 86400 * 365) ==> AgeCorrected(d) == Age(d)
    ensures 86400 * 360 <= d < 86400 * 365 ==> AgeCorrected(d) == (12, Months)
  {
    AgeThresholds(d);
    AgeUnitAndAmount(d);
    DivBelow(d, 60, 1);
    DivBelow(d, 3600, 1);
    DivBelow(d, 86400, 1);
    DivBelow(d, 86400 * 7, 1);
    DivBelow(d, 86400 * 30, 1);
    if 86400 * 360 <= d < 86400 * 365 {
      DivBelow(d, 86400 * 30, 13);
      DivBelow(d, 86400 * 30, 12);
    }
  }

  // ----- Picking a post ---------------------------------------------------------------

  /** The number of comments quoted in the selected text. */
  const QuotedComments: nat := 10

  function CommentLine(c: Comment): string {
    "- " + c.author + ": " + c.body
  }

  /** One `- author: body` line for each of the first ten comments, in order. */
  function CommentLines(comments: seq<Comment>): (lines: seq<string>)
    ensures |lines| == Min(QuotedComments, |comments|)
    ensures forall i :: 0 <= i < |lines| ==> lines[i] == CommentLine(comments[i])
  {
    var quoted := Take(comments, QuotedComments);
    seq(|quoted|, i requires 0 <= i < |quoted| => CommentLine(quoted[i]))
  }

  /** The text `pickPost` assembles from the post and its comments. */
  function SelectedText(title: string, selftext: string, comments: seq<Comment>): string {
    title + "\n\n" + selftext + "\n\nTop comments:\n" + Join(CommentLines(comments), '\n')
  }

  /** The selected text, regrouped as one line and the rest at each line break. */
  lemma SelectedTextShape(title: string, selftext: string, joined: string)
    ensures title + "\n\n" + selftext + "\n\nTop comments:\n" + joined ==
      title + "\n" + ("" + "\n" + (selftext + "\n" + ("" + "\n" + ("Top comments:" + "\n" + joined))))
  {
    var nl := "\n";
    var tail := "Top comments:" + nl + joined;
    assert "\n\nTop comments:\n" + joined == nl + ("" + nl + tail);
    assert "\n\n" + selftext + "\n\nTop comments:\n" + joined == nl + ("" + nl + (selftext + nl + ("" + nl + tail)));
  }

  /** No quoted comment line holds a line break when no author or body does. */
  lemma CommentLinesSingle(comments: seq<Comment>)
    requires forall i :: 0 <= i < |comments| ==> '\n' !in comments[i].author && '\n' !in comments[i].body
    ensures forall i :: 0 <= i < |CommentLines(comments)| ==> '\n' !in CommentLines(comments)[i]
  {
    var lines := CommentLines(comments);
    forall i | 0 <= i < |lines| ensures '\n' !in lines[i] {
      var line := lines[i];
      assert line == "- " + comments[i].author + ": " + comments[i].body;
      assert forall k :: 0 <= k < |line| ==> line[k] != '\n';
    }
  }

  /** Splitting text that starts with five lines. */
  lemma SplitFiveLines(l1: string, l2: string, l3: string, l4: string, l5: string, x: string)
    requires '\n' !in l1 && '\n' !in l2 && '\n' !in l3 && '\n' !in l4 && '\n' !in l5
    ensures SplitOn(l1 + "\n" + (l2 + "\n" + (l3 + "\n" + (l4 + "\n" + (l5 + "\n" + x)))), '\n') ==
      [l1, l2, l3, l4, l5] + SplitOn(x, '\n')
  {
    var nl := '\n';
    var rest := SplitOn(x, nl);
    var t5 := l5 + [nl] + x;
    var t4 := l4 + [nl] + t5;
    var t3 := l3 + [nl] + t4;
    var t2 := l2 + [nl] + t3;
    var t1 := l1 + [nl] + t2;
    SplitOnAfter(l5, nl, x);
    SplitOnAfter(l4, nl, t5);
    SplitOnAfter(l3, nl, t4);
    SplitOnAfter(l2, nl, t3);
    SplitOnAfter(l1, nl, t2);
    ConsFive(l1, l2, l3, l4, l5, rest);
    assert "\n" == [nl];
  }

  lemma ConsFive<T>(a: T, b: T, c: T, d: T, e: T, rest: seq<T>)
    ensures [a] + ([b] + ([c] + ([d] + ([e] + rest)))) == [a, b, c, d, e] + rest
  {
  }

  /**
   * Read line by line, the selected text is the title, a blank line, the body, a blank
   * line, the heading, then one line per quoted comment (a single empty line when there
   * are none), provided no field holds a line break of its own.
   */
  lemma SelectedTextLines(title: string, selftext: string, comments: seq<Comment>)
    requires '\n' !in title && '\n' !in selftext
    requires forall i :: 0 <= i < |comments| ==> '\n' !in comments[i].author && '\n' !in comments[i].body
    ensures SplitOn(SelectedText(title, selftext, comments), '\n') ==
      [title, "", selftext, "", "Top comments:"] + (if comments == [] then [""] else CommentLines(comments))
  {
    var lines := CommentLines(comments);
    var joined := Join(lines, '\n');
    SelectedTextShape(title, selftext, joined);
    assert '\n' !in "Top comments:";
    SplitFiveLines(title, "", selftext, "", "Top comments:", joined);
    CommentLinesSingle(comments);
    if comments == [] {
      assert SplitOn(joined, '\n') == [""];
    } else {
      SplitJoin(lines, '\n');
    }
  }

  const PostRequestRoute: string := "/api/reddit/post"

  /** The request `pickPost` sends for a permalink. */
  function PostRequestUrl(permalink: string): string {
    PostRequestRoute + "?permalink=" + EncodeUriComponent(permalink)
  }

  lemma PostRouteHasNoQuery()
    ensures '?' !in PostRequestRoute
  {
    assert forall i :: 0 <= i < |PostRequestRoute| ==> PostRequestRoute[i] != '?';
  }

  lemma PermalinkParamPlain(e: string)
    requires '&' !in e
    ensures Plain([("permalink", e)])
  {
    assert forall i :: 0 <= i < |"permalink"| ==> "permalink"[i] != '&' && "permalink"[i] != '=';
  }

  lemma PostRequestShape(e: string)
    ensures PostRequestRoute + "?permalink=" + e == PostRequestRoute + "?" + Render([("permalink", e)])
  {
    assert Render([("permalink", e)]) == "permalink" + "=" + e;
  }

  /** The thread request carries one parameter, the encoded permalink. */
  lemma PostRequestParams(permalink: string)
    ensures Params(PostRequestUrl(permalink)) == [("permalink", EncodeUriComponent(permalink))]
  {
    var e := EncodeUriComponent(permalink);
    EncodedIsPlain(permalink);
    PostRouteHasNoQuery();
    PermalinkParamPlain(e);
    PostRequestShape(e);
    ParamsOfRendered(PostRequestRoute, [("permalink", e)]);
  }

  /** The route reads back exactly the permalink the page sent. */
  lemma PostRequestRoundTrip(permalink: string)
    ensures SearchRoute.GetParam(PostRequestUrl(permalink), "permalink") == Some(permalink)
  {
    PostRequestParams(permalink);
    DecodeEncode(permalink);
  }

  /**
   * What `pickPost` does with the route's reply: the selected text, or the error it
   * throws (the route's message, or a fixed one when that is empty).
   */
  function PickPost(reply: PostRoute.Reply): (r: Result<string>)
    ensures reply.Found? <==> r.Ok?
    ensures reply.Failure? && reply.message != "" ==> r == Err(reply.message)
  {
    match reply
    case Found(thread) => Ok(SelectedText(thread.post.title, thread.post.selftext, thread.comments))
    case Failure(_, message) => Err(if message != "" then message else "Failed to load post")
  }

  /**
   * Picking a post end to end: an empty permalink is refused by the route, and otherwise
   * `pickPost` yields the text of the thread the route found, or fails with the all-hosts
   * error.
   */
  lemma PickPostOutcome(fetch: Fetcher, permalink: string)
    ensures var r := PickPost(PostRoute.PostGetSpec(fetch, SearchRoute.GetParam(PostRequestUrl(permalink), "permalink")));
      (permalink == "" ==> r == Err(PostRoute.InvalidPermalinkMessage)) &&
      (permalink != "" ==>
        match PostRoute.FetchSpec(fetch, permalink)
        case Ok(thread) => r == Ok(SelectedText(thread.post.title, thread.post.selftext, thread.comments))
        case Err(_) => r == Err(PostRoute.AllHostsFailedMessage))
  {
    PostRequestRoundTrip(permalink);
  }

  // ----- Searching --------------------------------------------------------------------

  /** The result order picked on the page; the route never reads it. */
  datatype Order = Upvotes | Comments | Unordered

  function OrderName(o: Order): string {
    match o
    case Upvotes => "upvotes"
    case Comments => "comments"
    case Unordered => "none"
  }

  const SearchRequestRoute: string := "/api/reddit/search"

  /** The sort the page asks for. */
  const PageSort: string := "trending"

  /** Text that `encodeURIComponent` leaves as it is. */
  predicate AllUnreserved(s: string) {
    forall i :: 0 <= i < |s| ==> IsUnreserved(s[i])
  }

  /** The query string of a search request from the page, for a given sort name. */
  function SearchUrlQuery(sortName: string, query: string, timeframe: Window, order: Order): string {
    "q=" + EncodeUriComponent(query) + "&sort=" + sortName + "&t=" + WindowName(timeframe) + "&titleOnly=true" +
      (if order != Unordered then "&order=" + OrderName(order) else "")
  }

  /** The request `doSearch` sends: always `sort=trending` and `titleOnly=true`. */
  function SearchUrl(query: string, timeframe: Window, order: Order): string {
    SearchRequestRoute + "?" + SearchUrlQuery(PageSort, query, timeframe, order)
  }

  function SearchUrlParams(sortName: string, query: string, timeframe: Window, order: Order): seq<(string, string)> {
    [("q", EncodeUriComponent(query)), ("sort", sortName), ("t", WindowName(timeframe)), ("titleOnly", "true")]
      + (if order != Unordered then [("order", OrderName(order))] else [])
  }

  lemma RenderFixedParams(e: string, sn: string, tn: string)
    ensures Render([("q", e), ("sort", sn), ("t", tn), ("titleOnly", "true")]) ==
      "q=" + e + "&sort=" + sn + "&t=" + tn + "&titleOnly=true"
  {
    var p1 := [("q", e)];
    var p2 := p1 + [("sort", sn)];
    var p3 := p2 + [("t", tn)];
    RenderSnoc(p1, ("sort", sn));
    assert Render(p2) == "q=" + e + "&sort=" + sn;
    RenderSnoc(p2, ("t", tn));
    assert Render(p3) == "q=" + e + "&sort=" + sn + "&t=" + tn;
    RenderSnoc(p3, ("titleOnly", "true"));
    assert p3 + [("titleOnly", "true")] == [("q", e), ("sort", sn), ("t", tn), ("titleOnly", "true")];
  }

  lemma SearchUrlIsRendered(sortName: string, query: string, timeframe: Window, order: Order)
    ensures SearchUrlQuery(sortName, query, timeframe, order) == Render(SearchUrlParams(sortName, query, timeframe, order))
  {
    var e, tn := EncodeUriComponent(query), WindowName(timeframe);
    var fixed := [("q", e), ("sort", sortName), ("t", tn), ("titleOnly", "true")];
    var text := "q=" + e + "&sort=" + sortName + "&t=" + tn + "&titleOnly=true";
    RenderFixedParams(e, sortName, tn);
    RenderOptional(fixed, text, order != Unordered, "order", OrderName(order), "&order=" + OrderName(order));
  }

  /** A search request from the page reads back as its parameter list. */
  lemma SearchUrlRendered(sortName: string, query: string, timeframe: Window, order: Order)
    requires AllUnreserved(sortName)
    ensures Params(SearchRequestRoute + "?" + SearchUrlQuery(sortName, query, timeframe, order)) ==
      SearchUrlParams(sortName, query, timeframe, order)
  {
    var tn := WindowName(timeframe);
    var params := SearchUrlParams(sortName, query, timeframe, order);
    SearchUrlIsRendered(sortName, query, timeframe, order);
    EncodedIsPlain(query);
    assert '?' !in SearchRequestRoute by {
      assert forall i :: 0 <= i < |SearchRequestRoute| ==> SearchRequestRoute[i] != '?';
    }
    assert Plain(params) by {
      assert forall i :: 0 <= i < |tn| ==> tn[i] != '&';
      assert forall i :: 0 <= i < |sortName| ==> sortName[i] != '&';
    }
    ParamsOfRendered(SearchRequestRoute, params);
  }

  /** The value the fixed part of the page's parameters gives for one key. */
  lemma LookupFixedParams(e: string, sn: string, tn: string, key: string)
    ensures Lookup([("q", e), ("sort", sn), ("t", tn), ("titleOnly", "true")], key) ==
      if key == "q" then Some(e) else if key == "sort" then Some(sn)
      else if key == "t" then Some(tn) else if key == "titleOnly" then Some("true") else None
  {
    var fixed := [("q", e), ("sort", sn), ("t", tn), ("titleOnly", "true")];
    var rest1 := fixed[1..];
    var rest2 := rest1[1..];
    var rest3 := rest2[1..];
    assert rest3 == [("titleOnly", "true")];
    assert Lookup(rest3[1..], key) == None;
    assert Lookup(rest3, key) == if key == "titleOnly" then Some("true") else None;
    assert Lookup(rest2, key) == if key == "t" then Some(tn) else Lookup(rest3, key);
    assert Lookup(rest1, key) == if key == "sort" then Some(sn) else Lookup(rest2, key);
  }

  lemma LookupSearchUrlParams(sortName: string, query: string, timeframe: Window, order: Order)
    ensures var params := SearchUrlParams(sortName, query, timeframe, order);
      Lookup(params, "q") == Some(EncodeUriComponent(query)) &&
      Lookup(params, "sort") == Some(sortName) &&
      Lookup(params, "t") == Some(WindowName(timeframe)) &&
      Lookup(params, "titleOnly") == Some("true") &&
      (Lookup(params, "order").Some? <==> order != Unordered)
  {
    var e, tn := EncodeUriComponent(query), WindowName(timeframe);
    var fixed := [("q", e), ("sort", sortName), ("t", tn), ("titleOnly", "true")];
    var optional := if order != Unordered then [("order", OrderName(order))] else [];
    forall key | key in {"q", "sort", "t", "titleOnly", "order"}
      ensures Lookup(fixed + optional, key) == if Lookup(fixed, key).Some? then Lookup(fixed, key) else Lookup(optional, key)
    {
      LookupAppend(fixed, optional, key);
    }
    LookupFixedParams(e, sortName, tn, "q");
    LookupFixedParams(e, sortName, tn, "sort");
    LookupFixedParams(e, sortName, tn, "t");
    LookupFixedParams(e, sortName, tn, "titleOnly");
    LookupFixedParams(e, sortName, tn, "order");
  }

  /**
   * The route reads a search request from the page as: the query intact, the sort name
   * given, the chosen window, `titleOnly` always `true`, and `order` only when one is chosen.
   */
  lemma SearchUrlReadBack(sortName: string, query: string, timeframe: Window, order: Order)
    requires AllUnreserved(sortName)
    ensures var url := SearchRequestRoute + "?" + SearchUrlQuery(sortName, query, timeframe, order);
      SearchRoute.GetParam(url, "q") == Some(query) &&
      SearchRoute.GetParam(url, "sort") == Some(sortName) &&
      SearchRoute.GetParam(url, "t") == Some(WindowName(timeframe)) &&
      SearchRoute.GetParam(url, "titleOnly") == Some("true") &&
      (SearchRoute.GetParam(url, "order").Some? <==> order != Unordered)
  {
    SearchUrlRendered(sortName, query, timeframe, order);
    LookupSearchUrlParams(sortName, query, timeframe, order);
    DecodeEncode(query);
    UnreservedUnchanged(sortName);
    TrueDecodes();
    WindowNameDecodes(timeframe);
  }

  lemma TrueDecodes()
    ensures Decode("true") == Some("true")
  {
    UnreservedUnchanged("true");
  }

  lemma WindowNameDecodes(t: Window)
    ensures Decode(WindowName(t)) == Some(WindowName(t))
  {
    UnreservedUnchanged(WindowName(t));
  }

  /**
   * As written, every search the page sends is refused with 400 `Invalid query`:
   * `trending` is not a sort the route accepts, so the page never lists a post.
   */
  lemma PageSearchIsRejected(fetch: Fetcher, query: string, timeframe: Window, order: Order)
    ensures SearchRoute.SearchGetSpec(fetch, SearchRoute.RequestOf(SearchUrl(query, timeframe, order))) ==
      SearchRoute.Failure(400, SearchRoute.InvalidQueryMessage)
  {
    assert AllUnreserved(PageSort);
    SearchUrlReadBack(PageSort, query, timeframe, order);
    var req := SearchRoute.RequestOf(SearchUrl(query, timeframe, order));
    SearchRoute.ValidateRejectsUnknownSort(req);
  }

  /** The request with `hot`, the route's sort closest to trending. */
  function SearchUrlCorrected(query: string, timeframe: Window, order: Order): string {
    SearchRequestRoute + "?" + SearchUrlQuery(SortName(Hot), query, timeframe, order)
  }

  lemma HotIsUnreserved()
    ensures AllUnreserved(SortName(Hot))
  {
  }

  /**
   * With a sort the route knows, a non-empty query is accepted as sent: title-only, the
   * chosen window, and the query text intact.
   */
  lemma CorrectedSearchIsAccepted(query: string, timeframe: Window, order: Order)
    requires query != ""
    ensures SearchRoute.Validate(SearchRoute.RequestOf(SearchUrlCorrected(query, timeframe, order))) ==
      Some(SearchRoute.Query(query, Hot, timeframe, true))
  {
    var v := SearchRoute.Query(query, Hot, timeframe, true);
    HotIsUnreserved();
    SearchUrlReadBack(SortName(Hot), query, timeframe, order);
    assert SearchRoute.RequestOf(SearchUrlCorrected(query, timeframe, order)) == SearchRoute.RequestFor(v);
    SearchRoute.ValidateAccepts(v);
  }
}
