/** The parsers behind the `/add_event` command: weekday lists, `HH:MM`
    start times and pre-reminder minute lists. Each one either returns the
    parsed value or fails with the `ValueError` the command reports. */
module ConfigParse {
  import opened Wrappers
  import opened Text
  import opened Lists

  /** The `ValueError`s the parsers raise. */
  datatype ConfigError =
    | UnknownWeekday(token: string)
    | NoWeekdays
    | BadStartTime
    | BadNumber(token: string)

  /** Day names, abbreviations and digits, 0 = Monday .. 6 = Sunday. */
  const DOW_MAP: map<string, int> := map[
    "mon" := 0, "monday" := 0, "0" := 0,
    "tue" := 1, "tuesday" := 1, "1" := 1,
    "wed" := 2, "wednesday" := 2, "2" := 2,
    "thu" := 3, "thursday" := 3, "3" := 3,
    "fri" := 4, "friday" := 4, "4" := 4,
    "sat" := 5, "saturday" := 5, "5" := 5,
    "sun" := 6, "sunday" := 6, "6" := 6
  ]

  /** `[p.strip() for p in parts if p.strip()]` */
  function NonBlankStripped(parts: seq<string>): (ts: seq<string>)
    ensures forall i :: 0 <= i < |ts| ==> ts[i] != ""
  {
    if |parts| == 0 then []
    else (if Strip(parts[0]) == "" then [] else [Strip(parts[0])]) + NonBlankStripped(parts[1..])
  }

  /** The non-blank, stripped entries of a comma-separated list. */
  function CommaTokens(s: string): seq<string>
  {
    NonBlankStripped(Split(s, ','))
  }

  /** `[p.strip().lower() for p in s.split(",") if p.strip()]` */
  function WeekdayTokens(s: string): seq<string>
  {
    LowerAll(CommaTokens(s))
  }

  lemma DowMapRange()
    ensures forall k :: k in DOW_MAP ==> 0 <= DOW_MAP[k] < 7
  {
  }

  /** The loop of `parse_weekdays`: each token looked up in order, the first
      unknown one reported. */
  function LookupDays(tokens: seq<string>): (r: Result<seq<int>, ConfigError>)
    ensures r.Success? <==> forall i :: 0 <= i < |tokens| ==> tokens[i] in DOW_MAP
    ensures r.Success? ==> |r.value| == |tokens|
    ensures r.Success? ==> forall i :: 0 <= i < |tokens| ==> tokens[i] in DOW_MAP && r.value[i] == DOW_MAP[tokens[i]]
    ensures r.Failure? ==> exists i :: 0 <= i < |tokens| && tokens[i] !in DOW_MAP && r.error == UnknownWeekday(tokens[i])
                                       && forall j :: 0 <= j < i ==> tokens[j] in DOW_MAP
  {
    if |tokens| == 0 then Success([])
    else if tokens[0] !in DOW_MAP then Failure(UnknownWeekday(tokens[0]))
    else
      match LookupDays(tokens[1..])
      case Failure(e) =>
        assert forall i :: 1 <= i < |tokens| ==> tokens[i] == tokens[1..][i - 1];
        Failure(e)
      case Success(days) =>
        assert forall i :: 1 <= i < |tokens| ==> tokens[i] == tokens[1..][i - 1];
        Success([DOW_MAP[tokens[0]]] + days)
  }

  /** `parse_weekdays`: a non-empty, strictly increasing list of days 0..6,
      exactly the days named by the tokens; fails on the first unknown token
      or when there is no token at all. */
  function ParseWeekdays(s: string): (r: Result<seq<int>, ConfigError>)
    ensures r.Success? <==> |WeekdayTokens(s)| > 0 && forall i :: 0 <= i < |WeekdayTokens(s)| ==> WeekdayTokens(s)[i] in DOW_MAP
    ensures r == Failure(NoWeekdays) <==> |WeekdayTokens(s)| == 0
    ensures r.Success? ==> |r.value| > 0 && StrictlyIncreasing(r.value)
    ensures r.Success? ==> forall d :: d in r.value ==> 0 <= d < 7
    ensures r.Success? ==> forall d :: d in r.value <==>
              exists i :: 0 <= i < |WeekdayTokens(s)| && WeekdayTokens(s)[i] in DOW_MAP && DOW_MAP[WeekdayTokens(s)[i]] == d
  {
    var tokens := WeekdayTokens(s);
    match LookupDays(tokens)
    case Failure(e) => Failure(e)
    case Success(days) =>
      DowMapRange();
      var sorted := SortedSet(days);
      assert |tokens| > 0 ==> days[0] in sorted;
      if |sorted| == 0 then Failure(NoWeekdays)
      else
        assert forall d :: d in sorted ==> exists i :: 0 <= i < |days| && days[i] == d;
        Success(sorted)
  }

  /** Case does not matter: the weekday list parses the same after `lower()`. */
  lemma WeekdaysIgnoreCase(s: string)
    ensures ParseWeekdays(Lower(s)) == ParseWeekdays(s)
  {
    WeekdayTokensIgnoreCase(s);
  }

  lemma WeekdayTokensIgnoreCase(s: string)
    ensures WeekdayTokens(Lower(s)) == WeekdayTokens(s)
  {
    SplitLower(s, ',');
    NonBlankStrippedLower(Split(s, ','));
    var ts := NonBlankStripped(Split(s, ','));
    forall i | 0 <= i < |ts|
      ensures Lower(Lower(ts[i])) == Lower(ts[i])
    {
      LowerIdempotent(ts[i]);
    }
  }

  lemma {:induction false} NonBlankStrippedLower(parts: seq<string>)
    ensures NonBlankStripped(LowerAll(parts)) == LowerAll(NonBlankStripped(parts))
  {
    if |parts| > 0 {
      var lp := LowerAll(parts);
      StripLower(parts[0]);
      assert Strip(lp[0]) == Lower(Strip(parts[0]));
      var head := if Strip(parts[0]) == "" then [] else [Strip(parts[0])];
      var lhead := if Strip(lp[0]) == "" then [] else [Strip(lp[0])];
      assert lhead == LowerAll(head);
      assert lp[1..] == LowerAll(parts[1..]);
      NonBlankStrippedLower(parts[1..]);
      assert NonBlankStripped(lp) == lhead + NonBlankStripped(lp[1..]);
      assert NonBlankStripped(parts) == head + NonBlankStripped(parts[1..]);
      LowerAllAppend(head, NonBlankStripped(parts[1..]));
    }
  }

  /** A single day written without commas parses to that one day, whatever
      its case and padding. */
  lemma SingleWeekday(s: string)
    requires ',' !in s && Lower(Strip(s)) in DOW_MAP
    ensures ParseWeekdays(s) == Success([DOW_MAP[Lower(Strip(s))]])
  {
    var tok := Lower(Strip(s));
    SingleToken(s);
    var r := ParseWeekdays(s);
    var d := DOW_MAP[tok];
    assert r.Success?;
    forall v
      ensures v in r.value <==> v in [d]
    {
      if v in r.value {
        var i :| 0 <= i < |WeekdayTokens(s)| && WeekdayTokens(s)[i] in DOW_MAP && DOW_MAP[WeekdayTokens(s)[i]] == v;
      }
      if v == d {
        assert WeekdayTokens(s)[0] == tok;
      }
    }
    StrictlyIncreasingUnique(r.value, [d]);
  }

  lemma SingleToken(s: string)
    requires ',' !in s && Lower(Strip(s)) != ""
    ensures WeekdayTokens(s) == [Lower(Strip(s))]
  {
    SplitWithoutSeparator(s, ',');
    assert Strip(s) != "";
    assert NonBlankStripped([s]) == [Strip(s)] + NonBlankStripped([]);
  }

  /** Name, abbreviation and digit name the same day: "Mon", "monday" and
      "0", in any case and with any padding, all parse to Monday alone. */
  lemma MondayAliases(s: string)
    requires ',' !in s && Lower(Strip(s)) in ["mon", "monday", "0"]
    ensures ParseWeekdays(s) == Success([0])
  {
    MondayKeys();
    SingleWeekday(s);
  }

  lemma MondayKeys()
    ensures "mon" in DOW_MAP && "monday" in DOW_MAP && "0" in DOW_MAP
    ensures DOW_MAP["mon"] == DOW_MAP["monday"] == DOW_MAP["0"] == 0
  {
  }

  /** A start time of day. */
  datatype TimeOfDay = TimeOfDay(hour: int, minute: int)

  predicate ValidTime(t: TimeOfDay)
  {
    0 <= t.hour < 24 && 0 <= t.minute < 60
  }

  /** `parse_time_hhmm`: the stripped text must split at ':' into exactly two
      pieces that `int()` accepts, with hour 0..23 and minute 0..59;
      everything else is `BadStartTime`. */
  function ParseTimeHHMM(s: string): (r: Result<TimeOfDay, ConfigError>)
    ensures r.Failure? ==> r.error == BadStartTime
    ensures r.Success? ==> ValidTime(r.value)
    ensures r.Success? <==>
              var parts := Split(Strip(s), ':');
              && |parts| == 2
              && ParseInt(parts[0]).Some? && ParseInt(parts[1]).Some?
              && ValidTime(TimeOfDay(ParseInt(parts[0]).value, ParseInt(parts[1]).value))
    ensures r.Success? ==>
              var parts := Split(Strip(s), ':');
              ParseInt(parts[0]) == Some(r.value.hour) && ParseInt(parts[1]) == Some(r.value.minute)
  {
    var parts := Split(Strip(s), ':');
    if |parts| != 2 then Failure(BadStartTime)
    else
      match (ParseInt(parts[0]), ParseInt(parts[1]))
      case (Some(h), Some(m)) =>
        if ValidTime(TimeOfDay(h, m)) then Success(TimeOfDay(h, m)) else Failure(BadStartTime)
      case _ => Failure(BadStartTime)
  }

  /** `f"{t.hour:02d}:{t.minute:02d}"`, the form `add_event` stores. */
  function FormatHHMM(t: TimeOfDay): (s: string)
    requires ValidTime(t)
    ensures |s| == 5 && s[2] == ':'
  {
    Pad2(t.hour) + ":" + Pad2(t.minute)
  }

  /** Re-parsing the stored `HH:MM` text gives back the same hour and minute. */
  lemma TimeRoundTrip(t: TimeOfDay)
    requires ValidTime(t)
    ensures ParseTimeHHMM(FormatHHMM(t)) == Success(t)
  {
    FormatSplits(t);
    Pad2RoundTrip(t.hour);
    Pad2RoundTrip(t.minute);
  }

  lemma FormatSplits(t: TimeOfDay)
    requires ValidTime(t)
    ensures Split(Strip(FormatHHMM(t)), ':') == [Pad2(t.hour), Pad2(t.minute)]
  {
    var hh, mm := Pad2(t.hour), Pad2(t.minute);
    assert ':' !in hh && ':' !in mm;
    SplitPair(hh, ':', mm);
    assert FormatHHMM(t) == hh + [':'] + mm;
    StripUnpadded(FormatHHMM(t));
  }

  /** `parse(part)` for each token in order, the first failure reported;
      `parse` is kept abstract here so that the induction does not look into
      it. */
  function ParseEach(tokens: seq<string>, parse: string -> Option<int>): (r: Result<seq<int>, ConfigError>)
    ensures r.Success? <==> forall i :: 0 <= i < |tokens| ==> parse(tokens[i]).Some?
    ensures r.Success? ==> |r.value| == |tokens| && forall i :: 0 <= i < |tokens| ==> parse(tokens[i]) == Some(r.value[i])
  {
    if |tokens| == 0 then Success([])
    else
      match parse(tokens[0])
      case None => Failure(BadNumber(tokens[0]))
      case Some(m) =>
        match ParseEach(tokens[1..], parse)
        case Failure(e) =>
          assert forall i :: 1 <= i < |tokens| ==> tokens[i] == tokens[1..][i - 1];
          Failure(e)
        case Success(ms) =>
          assert forall i :: 1 <= i < |tokens| ==> tokens[i] == tokens[1..][i - 1];
          Success([m] + ms)
  }

  /** `int(part)` for each token in order, the first failure reported. */
  function ParseInts(tokens: seq<string>): (r: Result<seq<int>, ConfigError>)
    ensures r.Success? <==> forall i :: 0 <= i < |tokens| ==> ParseInt(tokens[i]).Some?
    ensures r.Success? ==> |r.value| == |tokens| && forall i :: 0 <= i < |tokens| ==> ParseInt(tokens[i]) == Some(r.value[i])
  {
    ParseEach(tokens, ParseInt)
  }

  /** `[m for m in xs if m > 0]` */
  function Positives(xs: seq<int>): (r: seq<int>)
    ensures forall m :: m in r <==> m in xs && m > 0
  {
    if |xs| == 0 then []
    else (if xs[0] > 0 then [xs[0]] else []) + Positives(xs[1..])
  }

  /** `parse_premins`: blank input gives no reminders; otherwise every entry
      must be an integer, and the result is the strictly increasing list of the
      distinct positive ones (zero and negative entries are dropped). */
  function ParsePremins(s: string): (r: Result<seq<int>, ConfigError>)
    ensures Strip(s) == "" ==> r == Success([])
    ensures Strip(s) != "" ==> (r.Success? <==> forall i :: 0 <= i < |CommaTokens(s)| ==> ParseInt(CommaTokens(s)[i]).Some?)
    ensures r.Success? ==> StrictlyIncreasing(r.value) && forall m :: m in r.value ==> m > 0
    ensures Strip(s) != "" && r.Success? ==> forall m :: m in r.value <==>
              m > 0 && exists i :: 0 <= i < |CommaTokens(s)| && ParseInt(CommaTokens(s)[i]) == Some(m)
  {
    if Strip(s) == "" then Success([])
    else
      match ParseInts(CommaTokens(s))
      case Failure(e) => Failure(e)
      case Success(mins) =>
        assert forall m :: m in mins <==> exists i :: 0 <= i < |mins| && mins[i] == m;
        Success(SortedSet(Positives(mins)))
  }
}
