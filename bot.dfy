/** The reminder bot's state and the code that changes it: the per-guild
    configurations with their event tables, the `post_log` set, the
    `/set_announce_channel`, `/add_event` and `/remove_event` updates and one
    run of the scheduler loop. */
module Bot {
  import opened Wrappers
  import opened Text
  import opened ConfigParse
  import opened Occurrence
  import opened EventTable
  import opened Reminders

  /** Every configuration sits under its own guild id, and no event key
      appears twice. */
  predicate ValidConfigs(configs: map<int, GuildConfig>)
  {
    forall g :: g in configs ==> configs[g].guildId == g && UniqueKeys(configs[g].events)
  }

  /** The configuration `get_or_create_guild_cfg` hands out: the stored one, or
      a fresh one without channel or events. */
  function CfgOrNew(configs: map<int, GuildConfig>, gid: int): (cfg: GuildConfig)
    ensures gid in configs ==> cfg == configs[gid]
    ensures gid !in configs ==> cfg == GuildConfig(gid, None, [])
  {
    if gid in configs then configs[gid] else GuildConfig(gid, None, [])
  }

  /** The event `add_event` builds: weekdays, then start time, then
      pre-reminders are parsed, the first `ValueError` ending the command;
      the name is stored stripped and the time in its `HH:MM` form. */
  function NewEvent(name: string, weekdays: string, startTime: string, durationMin: int,
                    preReminders: string, mentionRole: Option<int>): Result<Event, ConfigError>
  {
    match ParseWeekdays(weekdays)
    case Failure(e) => Failure(e)
    case Success(days) =>
      match ParseTimeHHMM(startTime)
      case Failure(e) => Failure(e)
      case Success(t) =>
        match ParsePremins(preReminders)
        case Failure(e) => Failure(e)
        case Success(pre) => Success(Event(Strip(name), days, FormatHHMM(t), durationMin, pre, mentionRole))
  }

  /** An event added through the command has at least one real weekday, a
      start time that parses back to the one given, and reminders from the
      pre-reminder parser; the error reported is the first parser's. */
  lemma NewEventSpec(name: string, weekdays: string, startTime: string, durationMin: int,
                     preReminders: string, mentionRole: Option<int>)
    ensures var r := NewEvent(name, weekdays, startTime, durationMin, preReminders, mentionRole);
            && (r.Success? <==> ParseWeekdays(weekdays).Success? && ParseTimeHHMM(startTime).Success? && ParsePremins(preReminders).Success?)
            && (ParseWeekdays(weekdays).Failure? ==> r == Failure(ParseWeekdays(weekdays).error))
            && (ParseWeekdays(weekdays).Success? && ParseTimeHHMM(startTime).Failure? ==> r == Failure(BadStartTime))
            && (r.Success? ==>
                  && r.value.name == Strip(name)
                  && HasValidWeekday(r.value.weekdays)
                  && ParseTimeHHMM(r.value.startHHMM) == ParseTimeHHMM(startTime)
                  && r.value.preReminders == ParsePremins(preReminders).value)
  {
    var r := NewEvent(name, weekdays, startTime, durationMin, preReminders, mentionRole);
    if r.Success? {
      var days := ParseWeekdays(weekdays).value;
      var t := ParseTimeHHMM(startTime).value;
      ParsedWeekdaysValid(days);
      TimeRoundTrip(t);
      assert r.value.weekdays == days && r.value.startHHMM == FormatHHMM(t);
    }
  }

  /** A weekday list from the parser has a real weekday. */
  lemma ParsedWeekdaysValid(days: seq<int>)
    requires |days| > 0 && forall d :: d in days ==> 0 <= d < 7
    ensures HasValidWeekday(days)
  {
    var w := days[0];
    assert w in days && 0 <= w < 7;
  }

  /** An event added through the command has a start time that parses, and
      its next occurrence is never the fallback; a tick raises for it only
      through `OverflowError`, when today is one of its days and today's end
      or one of today's reminder moments leaves the range of `datetime`. */
  lemma AddedEventCrashesOnlyOnOverflow(name: string, weekdays: string, startTime: string, durationMin: int,
                                        preReminders: string, mentionRole: Option<int>, gid: int, ch: int, now: int)
    requires NewEvent(name, weekdays, startTime, durationMin, preReminders, mentionRole).Success?
    ensures var ev := NewEvent(name, weekdays, startTime, durationMin, preReminders, mentionRole).value;
            && HasValidWeekday(ev.weekdays)
            && ParseTimeHHMM(ev.startHHMM).Success?
            && (Crash in EventActions(gid, ch, ev, now) <==>
                  && Weekday(DateOf(now)) in ev.weekdays
                  && var start := Combine(DateOf(now), ParseTimeHHMM(ev.startHHMM).value);
                     || !AddOk(start, durationMin)
                     || exists m :: m in ev.preReminders && !SubOk(start, m))
  {
    var ev := NewEvent(name, weekdays, startTime, durationMin, preReminders, mentionRole).value;
    NewEventSpec(name, weekdays, startTime, durationMin, preReminders, mentionRole);
    EventActionsDue(gid, ch, ev, now);
  }

  /** An event added through the command never makes a tick raise when its
      duration keeps its end within the range of `datetime` and no reminder
      reaches back before 0001-01-01, whatever day `now` is. */
  lemma AddedEventNeverCrashes(name: string, weekdays: string, startTime: string, durationMin: int,
                               preReminders: string, mentionRole: Option<int>, gid: int, ch: int, now: int)
    requires NewEvent(name, weekdays, startTime, durationMin, preReminders, mentionRole).Success?
    requires InDatetimeRange(now)
    requires -DateOf(now) * MINUTES_PER_DAY <= durationMin < (MAX_DATE - DateOf(now)) * MINUTES_PER_DAY
    requires forall m :: m in NewEvent(name, weekdays, startTime, durationMin, preReminders, mentionRole).value.preReminders ==>
               m <= DateOf(now) * MINUTES_PER_DAY
    ensures Crash !in EventActions(gid, ch, NewEvent(name, weekdays, startTime, durationMin, preReminders, mentionRole).value, now)
  {
    var ev := NewEvent(name, weekdays, startTime, durationMin, preReminders, mentionRole).value;
    AddedEventCrashesOnlyOnOverflow(name, weekdays, startTime, durationMin, preReminders, mentionRole, gid, ch, now);
    NewEventSpec(name, weekdays, startTime, durationMin, preReminders, mentionRole);
    var start := Combine(DateOf(now), ParseTimeHHMM(ev.startHHMM).value);
    ShiftsInRange(now, start, durationMin, ev.preReminders);
  }

  /** The arithmetic behind `AddedEventNeverCrashes`, for a start on the day
      of `now`. */
  lemma ShiftsInRange(now: int, start: int, durationMin: int, ms: seq<int>)
    requires InDatetimeRange(now) && DateOf(start) == DateOf(now)
    requires -DateOf(now) * MINUTES_PER_DAY <= durationMin < (MAX_DATE - DateOf(now)) * MINUTES_PER_DAY
    requires forall m :: m in ms ==> 0 < m <= DateOf(now) * MINUTES_PER_DAY
    ensures AddOk(start, durationMin)
    ensures forall m :: m in ms ==> SubOk(start, m)
  {
    DayStart(now);
    DayStart(start);
  }

  /** The `OverflowError` does happen: an event added with a duration longer
      than the whole range of `datetime` raises in every tick on one of its
      days. */
  lemma LongDurationCrashes(name: string, weekdays: string, startTime: string, durationMin: int,
                            preReminders: string, mentionRole: Option<int>, gid: int, ch: int, now: int)
    requires NewEvent(name, weekdays, startTime, durationMin, preReminders, mentionRole).Success?
    requires InDatetimeRange(now)
    requires Weekday(DateOf(now)) in NewEvent(name, weekdays, startTime, durationMin, preReminders, mentionRole).value.weekdays
    requires durationMin >= (MAX_DATE + 1) * MINUTES_PER_DAY
    ensures Crash in EventActions(gid, ch, NewEvent(name, weekdays, startTime, durationMin, preReminders, mentionRole).value, now)
  {
    var ev := NewEvent(name, weekdays, startTime, durationMin, preReminders, mentionRole).value;
    AddedEventCrashesOnlyOnOverflow(name, weekdays, startTime, durationMin, preReminders, mentionRole, gid, ch, now);
    var start := Combine(DateOf(now), ParseTimeHHMM(ev.startHHMM).value);
    EndOutOfRange(now, start, durationMin);
  }

  lemma EndOutOfRange(now: int, start: int, durationMin: int)
    requires InDatetimeRange(now) && DateOf(start) == DateOf(now)
    requires durationMin >= (MAX_DATE + 1) * MINUTES_PER_DAY
    ensures !AddOk(start, durationMin)
  {
    DayStart(start);
  }

  lemma ValidConfigsUpdate(configs: map<int, GuildConfig>, gid: int, cfg: GuildConfig)
    requires ValidConfigs(configs) && cfg.guildId == gid && UniqueKeys(cfg.events)
    ensures ValidConfigs(configs[gid := cfg])
  {
  }

  /** The bot's globals `configs` and `post_log`. */
  class Scheduler {
    var configs: map<int, GuildConfig>
    var postLog: set<string>

    ghost predicate Valid()
      reads this
    {
      ValidConfigs(configs)
    }

    /** State as loaded at start-up. */
    constructor(configs0: map<int, GuildConfig>, log0: set<string>)
      requires ValidConfigs(configs0)
      ensures Valid()
      ensures configs == configs0 && postLog == log0
    {
      configs := configs0;
      postLog := log0;
    }

    /** `get_or_create_guild_cfg`: a missing guild gets an empty configuration,
        a present one is left as it is. */
    method GetOrCreateGuildCfg(gid: int) returns (cfg: GuildConfig)
      requires Valid()
      modifies this
      ensures Valid()
      ensures cfg == CfgOrNew(old(configs), gid)
      ensures configs == old(configs)[gid := cfg]
      ensures gid in old(configs) ==> configs == old(configs)
      ensures postLog == old(postLog)
    {
      if gid in configs {
        cfg := configs[gid];
      } else {
        cfg := GuildConfig(gid, None, []);
        configs := configs[gid := cfg];
      }
    }

    /** `/set_announce_channel`: only the guild's channel changes. */
    method SetAnnounceChannel(gid: int, ch: int)
      requires Valid()
      modifies this
      ensures Valid()
      ensures configs == old(configs)[gid := CfgOrNew(old(configs), gid).(announceChannelId := Some(ch))]
      ensures postLog == old(postLog)
    {
      var cfg := GetOrCreateGuildCfg(gid);
      configs := configs[gid := cfg.(announceChannelId := Some(ch))];
    }

    /** `/add_event`: a parse error changes nothing (not even the guild's
        entry); otherwise the event is stored under the lower-cased name,
        replacing an event of that key in place or coming last, and every
        other event of every guild stays as it was. */
    method AddEvent(gid: int, name: string, weekdays: string, startTime: string, durationMin: int,
                    preReminders: string, mentionRole: Option<int>) returns (r: Result<Event, ConfigError>)
      requires Valid()
      modifies this
      ensures Valid()
      ensures r == NewEvent(name, weekdays, startTime, durationMin, preReminders, mentionRole)
      ensures r.Failure? ==> configs == old(configs)
      ensures r.Success? ==>
                var cfg := CfgOrNew(old(configs), gid);
                configs == old(configs)[gid := cfg.(events := Put(cfg.events, Lower(name), r.value))]
      ensures r.Success? ==>
                && Get(configs[gid].events, Lower(name)) == Some(r.value)
                && forall k :: k != Lower(name) ==> Get(configs[gid].events, k) == Get(CfgOrNew(old(configs), gid).events, k)
      ensures postLog == old(postLog)
    {
      r := NewEvent(name, weekdays, startTime, durationMin, preReminders, mentionRole);
      if r.Failure? {
        return;
      }
      StoreEvent(gid, Lower(name), r.value);
    }

    /** `cfg = get_or_create_guild_cfg(gid); cfg.events[key] = ev`: the event
        is stored under `key`, replacing an event of that key in place or
        coming last, and every other event of every guild stays as it was. */
    method StoreEvent(gid: int, key: string, ev: Event)
      requires Valid()
      modifies this
      ensures Valid()
      ensures var cfg := CfgOrNew(old(configs), gid);
              configs == old(configs)[gid := cfg.(events := Put(cfg.events, key, ev))]
      ensures Get(configs[gid].events, key) == Some(ev)
      ensures forall k :: k != key ==> Get(configs[gid].events, k) == Get(CfgOrNew(old(configs), gid).events, k)
      ensures postLog == old(postLog)
    {
      var configs0 := configs;
      var cfg := GetOrCreateGuildCfg(gid);
      var events := Put(cfg.events, key, ev);
      PutGet(cfg.events, key, ev);
      ValidConfigsUpdate(configs0, gid, cfg.(events := events));
      configs := configs0[gid := cfg.(events := events)];
    }

    /** `/remove_event`: the guild's entry is created if missing; the event
        of that lower-cased name, if any, is deleted and nothing else. */
    method RemoveEvent(gid: int, name: string) returns (found: bool)
      requires Valid()
      modifies this
      ensures Valid()
      ensures var cfg := CfgOrNew(old(configs), gid);
              && (found <==> Lower(name) in Keys(cfg.events))
              && configs == old(configs)[gid := cfg.(events := Delete(cfg.events, Lower(name)))]
              && (!found ==> configs == old(configs)[gid := cfg])
              && Get(configs[gid].events, Lower(name)) == None
              && forall k :: k != Lower(name) ==> Get(configs[gid].events, k) == Get(cfg.events, k)
      ensures postLog == old(postLog)
    {
      var cfg := GetOrCreateGuildCfg(gid);
      var key := Lower(name);
      DeleteSpec(cfg.events, key);
      found := key in Keys(cfg.events);
      if found {
        configs := configs[gid := cfg.(events := Delete(cfg.events, key))];
      } else {
        DeleteMissing(cfg.events, key);
      }
    }

    /** Posts `p` unless its key is logged: the message goes out first, and
        only then is the key added to the log. A send that raises (its key in
        `failing`) ends the tick before the key is recorded. */
    method Deliver(p: Post, failing: set<string>, sent0: seq<Post>) returns (sent: seq<Post>, aborted: bool)
      modifies this
      ensures configs == old(configs)
      ensures TickState(sent, postLog, aborted) == Step(TickState(sent0, old(postLog), false), Notify(p), failing)
    {
      if p.key in postLog {
        return sent0, false;
      }
      if p.key in failing {
        return sent0, true;
      }
      sent := sent0 + [p];
      postLog := postLog + {p.key};
      aborted := false;
    }

    /** The body of the loop over a guild's events, for one event: today's
        occurrence and its end, its pre-reminders in order, then the start
        announcement; an unparsable start time or a date out of range ends
        the tick. */
    method TickEvent(gid: int, ch: int, ev: Event, now: int, failing: set<string>, sent0: seq<Post>)
      returns (sent: seq<Post>, aborted: bool)
      modifies this
      ensures configs == old(configs)
      ensures TickState(sent, postLog, aborted) == Run(EventActions(gid, ch, ev, now), TickState(sent0, old(postLog), false), failing)
    {
      var occ := OccurrenceStartOnDate(ev, DateOf(now));
      if occ.Failure? {
        assert EventActions(gid, ch, ev, now) == [Crash];
        return sent0, true;
      }
      if occ.value.None? {
        return sent0, false;
      }
      var start := occ.value.value;
      if !AddOk(start, ev.durationMin) {
        assert EventActions(gid, ch, ev, now) == [Crash];
        return sent0, true;
      }
      var init := TickState(sent0, postLog, false);
      var pres := PreActions(gid, ch, ev, start, now, ev.preReminders);
      var starts := StartActions(gid, ch, ev, start, now);
      assert EventActions(gid, ch, ev, now) == pres + starts;
      sent, aborted := TickPreReminders(gid, ch, ev, start, now, failing, sent0);
      if aborted {
        RunPrefixAborted(pres, starts, init, failing);
        return;
      }
      if start == now {
        RunSnoc(pres, Notify(StartPost(gid, ch, ev, start)), init, failing);
        sent, aborted := Deliver(StartPost(gid, ch, ev, start), failing, sent);
      } else {
        assert pres + starts == pres;
      }
    }

    /** The loop over an event's pre-reminder offsets; a reminder moment out
        of range ends the tick. */
    method TickPreReminders(gid: int, ch: int, ev: Event, start: int, now: int, failing: set<string>, sent0: seq<Post>)
      returns (sent: seq<Post>, aborted: bool)
      modifies this
      ensures configs == old(configs)
      ensures TickState(sent, postLog, aborted) == Run(PreActions(gid, ch, ev, start, now, ev.preReminders), TickState(sent0, old(postLog), false), failing)
    {
      var init := TickState(sent0, postLog, false);
      var ms := ev.preReminders;
      sent, aborted := sent0, false;
      var i := 0;
      while i < |ms|
        invariant 0 <= i <= |ms|
        invariant configs == old(configs) && !aborted
        invariant TickState(sent, postLog, false) == Run(PreActions(gid, ch, ev, start, now, ms[..i]), init, failing)
      {
        var m := ms[i];
        RunPreActionsNext(gid, ch, ev, start, now, ms, i, init, failing);
        if !SubOk(start, m) {
          RunPreActionsAborted(gid, ch, ev, start, now, ms, i + 1, init, failing);
          return sent, true;
        }
        if start - m == now {
          sent, aborted := Deliver(PrePost(gid, ch, ev, start, m), failing, sent);
          if aborted {
            RunPreActionsAborted(gid, ch, ev, start, now, ms, i + 1, init, failing);
            return;
          }
        }
        i := i + 1;
      }
      assert ms[..i] == ms;
    }

    /** The body of the loop over guilds, for one guild: the guild is passed
        over as `Skipped` says, otherwise its events are handled in order. */
    method TickGuild(gid: int, now: int, textChannels: set<(int, int)>, failing: set<string>, sent0: seq<Post>)
      returns (sent: seq<Post>, aborted: bool)
      modifies this
      ensures configs == old(configs)
      ensures TickState(sent, postLog, aborted) == Run(GuildActions(gid, configs, textChannels, now), TickState(sent0, old(postLog), false), failing)
    {
      if gid !in configs {
        return sent0, false;
      }
      var cfg := configs[gid];
      if cfg.announceChannelId.None? || cfg.announceChannelId.value == 0 || |cfg.events| == 0 {
        return sent0, false;
      }
      var ch := cfg.announceChannelId.value;
      if (gid, ch) !in textChannels {
        return sent0, false;
      }
      var init := TickState(sent0, postLog, false);
      var evs := Values(cfg.events);
      sent, aborted := sent0, false;
      var i := 0;
      while i < |evs|
        invariant 0 <= i <= |evs|
        invariant configs == old(configs) && !aborted
        invariant TickState(sent, postLog, false) == Run(EventsActions(gid, ch, evs[..i], now), init, failing)
      {
        sent, aborted := TickEvent(gid, ch, evs[i], now, failing, sent);
        RunEventsActionsNext(gid, ch, evs, i, now, init, failing);
        if aborted {
          RunEventsActionsAborted(gid, ch, evs, i + 1, now, init, failing);
          return;
        }
        i := i + 1;
      }
      assert evs[..i] == evs;
    }

    /** One run of `scheduler_loop` at the minute-truncated `now`, over the
        client's `guilds` in order: the posts sent and the new post log are
        those of playing `GuildsActions` against the old log, and the
        configuration is untouched. */
    method Tick(now: int, guilds: seq<int>, textChannels: set<(int, int)>, failing: set<string>)
      returns (sent: seq<Post>, aborted: bool)
      modifies this
      ensures configs == old(configs)
      ensures TickState(sent, postLog, aborted) == Run(GuildsActions(guilds, configs, textChannels, now), TickState([], old(postLog), false), failing)
    {
      var init := TickState([], postLog, false);
      sent, aborted := [], false;
      var i := 0;
      while i < |guilds|
        invariant 0 <= i <= |guilds|
        invariant configs == old(configs) && !aborted
        invariant TickState(sent, postLog, false) == Run(GuildsActions(guilds[..i], configs, textChannels, now), init, failing)
      {
        sent, aborted := TickGuild(guilds[i], now, textChannels, failing, sent);
        RunGuildsActionsNext(guilds, i, configs, textChannels, now, init, failing);
        if aborted {
          RunGuildsActionsAborted(guilds, i + 1, configs, textChannels, now, init, failing);
          return;
        }
        i := i + 1;
      }
      assert guilds[..i] == guilds;
    }
  }
}
