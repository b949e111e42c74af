/** What one run of the scheduler loop does for a minute-truncated `now`:
    the pre-reminders and start announcements that are due, in the order the
    loop meets them, and how the post log keeps each one to a single post.

    A tick is described in two steps. `GuildsActions` lists what the loop
    would try to post (or the exception that ends it); `Run` plays that list
    against the post log: a post whose key is already logged is skipped,
    otherwise the message is sent and only then its key is logged, so a send
    that raises ends the tick with its key left out of the log. */
module Reminders {
  import opened Wrappers
  import opened Text
  import opened ConfigParse
  import opened Occurrence
  import opened EventTable
  import opened Lists

  /** A guild's settings (the `GuildConfig` dataclass); its events are keyed
      by lower-cased name. */
  datatype GuildConfig = GuildConfig(guildId: int, announceChannelId: Option<int>, events: Table<Event>)

  /** What a message announces: a reminder `minutes` before `start`, or the
      start itself together with the computed end. */
  datatype Notice = PreNotice(minutes: int, start: int) | StartNotice(start: int, end: int)

  /** One message to an announce channel, and the post-log key standing for it. */
  datatype Post = Post(channel: int, key: string, eventName: string, notice: Notice, mention: Option<int>)

  /** A step of the loop: a post to attempt, or an exception that ends the
      tick (the `ValueError` of a start time that does not parse, or the
      `OverflowError` of a date computed outside the range of `datetime`). */
  datatype Action = Notify(post: Post) | Crash

  /** `f"{guild.id}:{ev.name}:{start}:{suffix}"`, the start written as its
      minute number. */
  function OccurrenceKey(gid: int, name: string, start: int, suffix: string): string
  {
    IntToString(gid) + ":" + name + ":" + IntToString(start) + ":" + suffix
  }

  function PreKey(gid: int, name: string, start: int, m: int): string
  {
    OccurrenceKey(gid, name, start, "pre" + IntToString(m))
  }

  function StartKey(gid: int, name: string, start: int): string
  {
    OccurrenceKey(gid, name, start, "start")
  }

  /** For one occurrence, the `pre{m}` keys of different offsets and the
      `start` key are pairwise different. */
  lemma KeysDistinct(gid: int, name: string, start: int, m1: int, m2: int)
    ensures m1 != m2 ==> PreKey(gid, name, start, m1) != PreKey(gid, name, start, m2)
    ensures PreKey(gid, name, start, m1) != StartKey(gid, name, start)
  {
    var p := IntToString(gid) + ":" + name + ":" + IntToString(start) + ":";
    var s1, s2 := "pre" + IntToString(m1), "pre" + IntToString(m2);
    assert PreKey(gid, name, start, m1) == p + s1;
    assert PreKey(gid, name, start, m2) == p + s2;
    assert StartKey(gid, name, start) == p + "start";
    assert (p + s1)[|p|..] == s1 && (p + s2)[|p|..] == s2 && (p + "start")[|p|..] == "start";
    assert s1[0] != "start"[0];
    if s1 == s2 {
      assert s1[3..] == IntToString(m1) && s2[3..] == IntToString(m2);
      IntToStringInjective(m1, m2);
    }
  }

  /** The role to ping: `<@&id>` only when an id is set and non-zero. */
  function Mention(ev: Event): (r: Option<int>)
    ensures r.Some? <==> ev.mentionRoleId.Some? && ev.mentionRoleId.value != 0
    ensures r.Some? ==> r == ev.mentionRoleId
  {
    if ev.mentionRoleId.Some? && ev.mentionRoleId.value != 0 then ev.mentionRoleId else None
  }

  function PrePost(gid: int, ch: int, ev: Event, start: int, m: int): Post
  {
    Post(ch, PreKey(gid, ev.name, start, m), ev.name, PreNotice(m, start), Mention(ev))
  }

  function StartPost(gid: int, ch: int, ev: Event, start: int): Post
  {
    Post(ch, StartKey(gid, ev.name, start), ev.name, StartNotice(start, start + ev.durationMin), Mention(ev))
  }

  /** One pass of the pre-reminder loop: `start - timedelta(minutes=m)`
      raises `OverflowError` when it leaves the range of `datetime` (or `m`
      that of `timedelta`); otherwise offset `m` is due when `start - m` is
      exactly `now`. */
  function PreAction(gid: int, ch: int, ev: Event, start: int, now: int, m: int): seq<Action>
  {
    if !SubOk(start, m) then [Crash]
    else if start - m == now then [Notify(PrePost(gid, ch, ev, start, m))]
    else []
  }

  /** The pre-reminder loop over `ms`. */
  function PreActions(gid: int, ch: int, ev: Event, start: int, now: int, ms: seq<int>): seq<Action>
  {
    if |ms| == 0 then []
    else PreActions(gid, ch, ev, start, now, ms[..|ms| - 1]) + PreAction(gid, ch, ev, start, now, ms[|ms| - 1])
  }

  function StartActions(gid: int, ch: int, ev: Event, start: int, now: int): seq<Action>
  {
    if start == now then [Notify(StartPost(gid, ch, ev, start))] else []
  }

  /** One event in one tick: only today's occurrence is looked at. Computing
      its end, `start + timedelta(minutes=duration_min)`, raises
      `OverflowError` before any reminder when it leaves the range. */
  function EventActions(gid: int, ch: int, ev: Event, now: int): seq<Action>
  {
    match OccurrenceStartOnDate(ev, DateOf(now))
    case Failure(_) => [Crash]
    case Success(None) => []
    case Success(Some(start)) =>
      if !AddOk(start, ev.durationMin) then [Crash]
      else PreActions(gid, ch, ev, start, now, ev.preReminders) + StartActions(gid, ch, ev, start, now)
  }

  /** The events of one guild, in the table's order. */
  function EventsActions(gid: int, ch: int, evs: seq<Event>, now: int): seq<Action>
  {
    if |evs| == 0 then []
    else EventsActions(gid, ch, evs[..|evs| - 1], now) + EventActions(gid, ch, evs[|evs| - 1], now)
  }

  /** A guild is passed over when it has no config, no announce channel (none
      or 0), no events, or a channel that is not a text channel of the guild;
      `textChannels` holds the (guild, channel) pairs that resolve to one. */
  predicate Skipped(gid: int, configs: map<int, GuildConfig>, textChannels: set<(int, int)>)
  {
    || gid !in configs
    || configs[gid].announceChannelId.None?
    || configs[gid].announceChannelId.value == 0
    || |configs[gid].events| == 0
    || (gid, configs[gid].announceChannelId.value) !in textChannels
  }

  function GuildActions(gid: int, configs: map<int, GuildConfig>, textChannels: set<(int, int)>, now: int): seq<Action>
  {
    if Skipped(gid, configs, textChannels) then []
    else
      var cfg := configs[gid];
      EventsActions(gid, cfg.announceChannelId.value, Values(cfg.events), now)
  }

  /** The guilds the client is in, in the client's order. */
  function GuildsActions(guilds: seq<int>, configs: map<int, GuildConfig>, textChannels: set<(int, int)>, now: int): seq<Action>
  {
    if |guilds| == 0 then []
    else GuildsActions(guilds[..|guilds| - 1], configs, textChannels, now) + GuildActions(guilds[|guilds| - 1], configs, textChannels, now)
  }

  // ---- Playing the actions against the post log ----

  /** The posts sent so far, the post log, and whether an exception has
      ended the tick. */
  datatype TickState = TickState(sent: seq<Post>, log: set<string>, aborted: bool)

  /** One step; `failing` holds the keys whose `channel.send` raises. */
  function Step(st: TickState, a: Action, failing: set<string>): TickState
  {
    if st.aborted then st
    else
      match a
      case Crash => st.(aborted := true)
      case Notify(p) =>
        if p.key in st.log then st
        else if p.key in failing then st.(aborted := true)
        else TickState(st.sent + [p], st.log + {p.key}, false)
  }

  function Run(acts: seq<Action>, st: TickState, failing: set<string>): TickState
  {
    if |acts| == 0 then st else Run(acts[1..], Step(st, acts[0], failing), failing)
  }

  function KeysOf(ps: seq<Post>): set<string>
  {
    set i | 0 <= i < |ps| :: ps[i].key
  }

  predicate DistinctKeys(ps: seq<Post>)
  {
    forall i, j :: 0 <= i < j < |ps| ==> ps[i].key != ps[j].key
  }

  /** Running two lists is running their concatenation. */
  lemma {:induction false} RunAppend(a: seq<Action>, b: seq<Action>, st: TickState, failing: set<string>)
    ensures Run(a + b, st, failing) == Run(b, Run(a, st, failing), failing)
  {
    if |a| > 0 {
      assert (a + b)[1..] == a[1..] + b;
      RunAppend(a[1..], b, Step(st, a[0], failing), failing);
    } else {
      assert a + b == b;
    }
  }

  /** Running one more action is one more step. */
  lemma RunSnoc(a: seq<Action>, x: Action, st: TickState, failing: set<string>)
    ensures Run(a + [x], st, failing) == Step(Run(a, st, failing), x, failing)
  {
    RunAppend(a, [x], st, failing);
    assert [x][1..] == [];
  }

  /** Once an exception has ended the tick, later actions change nothing. */
  lemma RunPrefixAborted(a: seq<Action>, b: seq<Action>, st: TickState, failing: set<string>)
    requires Run(a, st, failing).aborted
    ensures Run(a + b, st, failing) == Run(a, st, failing)
  {
    RunAppend(a, b, st, failing);
    RunAborted(b, Run(a, st, failing), failing);
  }

  lemma {:induction false} PreActionsAppend(gid: int, ch: int, ev: Event, start: int, now: int, a: seq<int>, b: seq<int>)
    ensures PreActions(gid, ch, ev, start, now, a + b) == PreActions(gid, ch, ev, start, now, a) + PreActions(gid, ch, ev, start, now, b)
  {
    if |b| == 0 {
      assert a + b == a;
    } else {
      assert (a + b)[..|a + b| - 1] == a + b[..|b| - 1];
      PreActionsAppend(gid, ch, ev, start, now, a, b[..|b| - 1]);
    }
  }

  lemma PreActionsSnoc(gid: int, ch: int, ev: Event, start: int, now: int, init: seq<int>, m: int)
    ensures PreActions(gid, ch, ev, start, now, init + [m]) ==
              PreActions(gid, ch, ev, start, now, init) + PreAction(gid, ch, ev, start, now, m)
  {
    var s := init + [m];
    assert s[..|s| - 1] == init && s[|s| - 1] == m;
  }

  lemma GuildsActionsSnoc(init: seq<int>, g: int, configs: map<int, GuildConfig>, textChannels: set<(int, int)>, now: int)
    ensures GuildsActions(init + [g], configs, textChannels, now) == GuildsActions(init, configs, textChannels, now) + GuildActions(g, configs, textChannels, now)
  {
    var s := init + [g];
    assert s[..|s| - 1] == init && s[|s| - 1] == g;
  }

  /** The pre-reminder loop, one offset further. */
  lemma RunPreActionsNext(gid: int, ch: int, ev: Event, start: int, now: int, ms: seq<int>, i: int, st: TickState, failing: set<string>)
    requires 0 <= i < |ms|
    ensures var before := Run(PreActions(gid, ch, ev, start, now, ms[..i]), st, failing);
            Run(PreActions(gid, ch, ev, start, now, ms[..i + 1]), st, failing) ==
              if !SubOk(start, ms[i]) then Step(before, Crash, failing)
              else if start - ms[i] == now then Step(before, Notify(PrePost(gid, ch, ev, start, ms[i])), failing)
              else before
  {
    var pres := PreActions(gid, ch, ev, start, now, ms[..i]);
    assert ms[..i + 1] == ms[..i] + [ms[i]];
    PreActionsSnoc(gid, ch, ev, start, now, ms[..i], ms[i]);
    if !SubOk(start, ms[i]) {
      RunSnoc(pres, Crash, st, failing);
    } else if start - ms[i] == now {
      RunSnoc(pres, Notify(PrePost(gid, ch, ev, start, ms[i])), st, failing);
    } else {
      assert pres + [] == pres;
    }
  }

  /** The pre-reminder loop, ended early by an exception. */
  lemma RunPreActionsAborted(gid: int, ch: int, ev: Event, start: int, now: int, ms: seq<int>, i: int, st: TickState, failing: set<string>)
    requires 0 <= i <= |ms|
    requires Run(PreActions(gid, ch, ev, start, now, ms[..i]), st, failing).aborted
    ensures Run(PreActions(gid, ch, ev, start, now, ms), st, failing) == Run(PreActions(gid, ch, ev, start, now, ms[..i]), st, failing)
  {
    assert ms == ms[..i] + ms[i..];
    PreActionsAppend(gid, ch, ev, start, now, ms[..i], ms[i..]);
    RunPrefixAborted(PreActions(gid, ch, ev, start, now, ms[..i]), PreActions(gid, ch, ev, start, now, ms[i..]), st, failing);
  }

  /** The loop over a guild's events, one event further. */
  lemma RunEventsActionsNext(gid: int, ch: int, evs: seq<Event>, i: int, now: int, st: TickState, failing: set<string>)
    requires 0 <= i < |evs|
    ensures Run(EventsActions(gid, ch, evs[..i + 1], now), st, failing) ==
              Run(EventActions(gid, ch, evs[i], now), Run(EventsActions(gid, ch, evs[..i], now), st, failing), failing)
  {
    assert evs[..i + 1] == evs[..i] + [evs[i]];
    EventsActionsSnoc(gid, ch, evs[..i], evs[i], now);
    RunAppend(EventsActions(gid, ch, evs[..i], now), EventActions(gid, ch, evs[i], now), st, failing);
  }

  lemma RunEventsActionsAborted(gid: int, ch: int, evs: seq<Event>, i: int, now: int, st: TickState, failing: set<string>)
    requires 0 <= i <= |evs|
    requires Run(EventsActions(gid, ch, evs[..i], now), st, failing).aborted
    ensures Run(EventsActions(gid, ch, evs, now), st, failing) == Run(EventsActions(gid, ch, evs[..i], now), st, failing)
  {
    assert evs == evs[..i] + evs[i..];
    EventsActionsAppend(gid, ch, evs[..i], evs[i..], now);
    RunPrefixAborted(EventsActions(gid, ch, evs[..i], now), EventsActions(gid, ch, evs[i..], now), st, failing);
  }

  /** The loop over guilds, one guild further. */
  lemma RunGuildsActionsNext(guilds: seq<int>, i: int, configs: map<int, GuildConfig>, textChannels: set<(int, int)>, now: int, st: TickState, failing: set<string>)
    requires 0 <= i < |guilds|
    ensures Run(GuildsActions(guilds[..i + 1], configs, textChannels, now), st, failing) ==
              Run(GuildActions(guilds[i], configs, textChannels, now), Run(GuildsActions(guilds[..i], configs, textChannels, now), st, failing), failing)
  {
    assert guilds[..i + 1] == guilds[..i] + [guilds[i]];
    GuildsActionsSnoc(guilds[..i], guilds[i], configs, textChannels, now);
    RunAppend(GuildsActions(guilds[..i], configs, textChannels, now), GuildActions(guilds[i], configs, textChannels, now), st, failing);
  }

  lemma RunGuildsActionsAborted(guilds: seq<int>, i: int, configs: map<int, GuildConfig>, textChannels: set<(int, int)>, now: int, st: TickState, failing: set<string>)
    requires 0 <= i <= |guilds|
    requires Run(GuildsActions(guilds[..i], configs, textChannels, now), st, failing).aborted
    ensures Run(GuildsActions(guilds, configs, textChannels, now), st, failing) == Run(GuildsActions(guilds[..i], configs, textChannels, now), st, failing)
  {
    assert guilds == guilds[..i] + guilds[i..];
    GuildsActionsAppend(guilds[..i], guilds[i..], configs, textChannels, now);
    RunPrefixAborted(GuildsActions(guilds[..i], configs, textChannels, now), GuildsActions(guilds[i..], configs, textChannels, now), st, failing);
  }

  lemma EventsActionsSnoc(gid: int, ch: int, init: seq<Event>, last: Event, now: int)
    ensures EventsActions(gid, ch, init + [last], now) == EventsActions(gid, ch, init, now) + EventActions(gid, ch, last, now)
  {
    var s := init + [last];
    assert s[..|s| - 1] == init && s[|s| - 1] == last;
  }

  lemma {:induction false} EventsActionsAppend(gid: int, ch: int, a: seq<Event>, b: seq<Event>, now: int)
    ensures EventsActions(gid, ch, a + b, now) == EventsActions(gid, ch, a, now) + EventsActions(gid, ch, b, now)
  {
    if |b| == 0 {
      assert a + b == a;
      assert EventsActions(gid, ch, b, now) == [];
    } else {
      var init, last := b[..|b| - 1], b[|b| - 1];
      assert b == init + [last];
      assert a + b == (a + init) + [last];
      EventsActionsSnoc(gid, ch, a + init, last, now);
      EventsActionsSnoc(gid, ch, init, last, now);
      EventsActionsAppend(gid, ch, a, init, now);
      AppendAssoc(EventsActions(gid, ch, a, now), EventsActions(gid, ch, init, now), EventActions(gid, ch, last, now));
    }
  }

  lemma {:induction false} GuildsActionsAppend(a: seq<int>, b: seq<int>, configs: map<int, GuildConfig>, textChannels: set<(int, int)>, now: int)
    ensures GuildsActions(a + b, configs, textChannels, now) == GuildsActions(a, configs, textChannels, now) + GuildsActions(b, configs, textChannels, now)
  {
    if |b| == 0 {
      assert a + b == a;
      assert GuildsActions(b, configs, textChannels, now) == [];
    } else {
      var init, last := b[..|b| - 1], b[|b| - 1];
      assert b == init + [last];
      assert a + b == (a + init) + [last];
      GuildsActionsSnoc(a + init, last, configs, textChannels, now);
      GuildsActionsSnoc(init, last, configs, textChannels, now);
      GuildsActionsAppend(a, init, configs, textChannels, now);
      AppendAssoc(GuildsActions(a, configs, textChannels, now), GuildsActions(init, configs, textChannels, now),
                  GuildActions(last, configs, textChannels, now));
    }
  }

  /** After an exception nothing more happens. */
  lemma {:induction false} RunAborted(acts: seq<Action>, st: TickState, failing: set<string>)
    requires st.aborted
    ensures Run(acts, st, failing) == st
  {
    if |acts| > 0 {
      RunAborted(acts[1..], st, failing);
    }
  }

  /** The posts `st2` added to those of `st1`. */
  function Added(st1: TickState, st2: TickState): seq<Post>
    requires |st1.sent| <= |st2.sent|
  {
    st2.sent[|st1.sent|..]
  }

  /** `st2` is `st1` with posts appended, each of them attempted in `acts`,
      none logged before or sent twice, none with a failing send, and the
      log grown by exactly their keys. */
  predicate Extends(st1: TickState, st2: TickState, acts: seq<Action>, failing: set<string>)
  {
    && |st1.sent| <= |st2.sent|
    && st2.sent == st1.sent + Added(st1, st2)
    && st2.log == st1.log + KeysOf(Added(st1, st2))
    && DistinctKeys(Added(st1, st2))
    && Fresh(Added(st1, st2), st1.log, failing)
    && Attempted(Added(st1, st2), acts)
  }

  /** No post's key is in `log` or `failing`. */
  predicate Fresh(ps: seq<Post>, log: set<string>, failing: set<string>)
  {
    forall i :: 0 <= i < |ps| ==> ps[i].key !in log && ps[i].key !in failing
  }

  predicate Attempted(ps: seq<Post>, acts: seq<Action>)
  {
    forall i :: 0 <= i < |ps| ==> Notify(ps[i]) in acts
  }

  lemma StepExtends(st: TickState, a: Action, failing: set<string>)
    ensures Extends(st, Step(st, a, failing), [a], failing)
  {
    var st2 := Step(st, a, failing);
    if |st2.sent| == |st.sent| + 1 {
      var p := a.post;
      assert Added(st, st2) == [p];
      assert KeysOf([p]) == {p.key} by {
        assert [p][0].key == p.key;
      }
    } else {
      assert Added(st, st2) == [];
      assert KeysOf([]) == {};
    }
  }

  lemma KeysOfAppend(x: seq<Post>, y: seq<Post>)
    ensures KeysOf(x + y) == KeysOf(x) + KeysOf(y)
  {
    forall k | k in KeysOf(x + y)
      ensures k in KeysOf(x) + KeysOf(y)
    {
      var i :| 0 <= i < |x + y| && (x + y)[i].key == k;
      if i >= |x| {
        assert y[i - |x|] == (x + y)[i];
      }
    }
    forall k | k in KeysOf(x) + KeysOf(y)
      ensures k in KeysOf(x + y)
    {
      if k in KeysOf(x) {
        var i :| 0 <= i < |x| && x[i].key == k;
        assert (x + y)[i] == x[i];
      } else {
        var i :| 0 <= i < |y| && y[i].key == k;
        assert (x + y)[i + |x|] == y[i];
      }
    }
  }

  lemma DistinctAppend(x: seq<Post>, y: seq<Post>)
    requires DistinctKeys(x) && DistinctKeys(y)
    requires forall i :: 0 <= i < |y| ==> y[i].key !in KeysOf(x)
    ensures DistinctKeys(x + y)
  {
    forall i, j | 0 <= i < j < |x + y|
      ensures (x + y)[i].key != (x + y)[j].key
    {
      if j >= |x| && i < |x| {
        assert (x + y)[i].key in KeysOf(x);
        assert (x + y)[j] == y[j - |x|];
      } else if i >= |x| {
        assert (x + y)[i] == y[i - |x|] && (x + y)[j] == y[j - |x|];
      }
    }
  }

  lemma ExtendsTrans(st1: TickState, st2: TickState, st3: TickState, a: seq<Action>, b: seq<Action>, failing: set<string>)
    requires Extends(st1, st2, a, failing) && Extends(st2, st3, b, failing)
    ensures Extends(st1, st3, a + b, failing)
  {
    var new12, new23 := Added(st1, st2), Added(st2, st3);
    assert st3.sent == st1.sent + (new12 + new23);
    assert Added(st1, st3) == new12 + new23;
    KeysOfAppend(new12, new23);
    FreshAppend(new12, new23, st1.log, st2.log, failing);
    DistinctAppend(new12, new23);
    AttemptedAppend(new12, new23, a, b);
  }

  lemma FreshAppend(x: seq<Post>, y: seq<Post>, log1: set<string>, log2: set<string>, failing: set<string>)
    requires Fresh(x, log1, failing) && Fresh(y, log2, failing)
    requires log2 == log1 + KeysOf(x)
    ensures Fresh(x + y, log1, failing)
    ensures forall i :: 0 <= i < |y| ==> y[i].key !in KeysOf(x)
  {
    forall i | 0 <= i < |x + y|
      ensures (x + y)[i].key !in log1 && (x + y)[i].key !in failing
    {
      if i >= |x| {
        assert (x + y)[i] == y[i - |x|];
      }
    }
  }

  lemma AttemptedAppend(x: seq<Post>, y: seq<Post>, a: seq<Action>, b: seq<Action>)
    requires Attempted(x, a) && Attempted(y, b)
    ensures Attempted(x + y, a + b)
  {
    forall i | 0 <= i < |x + y|
      ensures Notify((x + y)[i]) in a + b
    {
      if i >= |x| {
        assert (x + y)[i] == y[i - |x|];
      }
    }
  }

  /** What a tick does to the post log: the posts it sends are appended to
      `sent`; each was attempted, its key was not in the log beforehand, no
      two share a key, none is a send that raised, and the log afterwards is
      the log before plus exactly their keys. In particular the log only
      grows, and a key whose send raised is not recorded. */
  lemma {:induction false} RunExtends(acts: seq<Action>, st: TickState, failing: set<string>)
    ensures Extends(st, Run(acts, st, failing), acts, failing)
  {
    if |acts| == 0 {
      assert Added(st, st) == [];
      assert KeysOf([]) == {};
    } else {
      var st1 := Step(st, acts[0], failing);
      StepExtends(st, acts[0], failing);
      RunExtends(acts[1..], st1, failing);
      ExtendsTrans(st, st1, Run(acts[1..], st1, failing), [acts[0]], acts[1..], failing);
      assert [acts[0]] + acts[1..] == acts;
    }
  }

  /** A tick that finishes met no exception and left every key it looked at
      in the log. */
  lemma {:induction false} RunCompletes(acts: seq<Action>, st: TickState, failing: set<string>)
    requires !Run(acts, st, failing).aborted
    ensures !st.aborted
    ensures Crash !in acts
    ensures forall p :: Notify(p) in acts ==> p.key in Run(acts, st, failing).log
  {
    if |acts| > 0 {
      var st1 := Step(st, acts[0], failing);
      if st1.aborted {
        RunAborted(acts[1..], st1, failing);
      }
      RunCompletes(acts[1..], st1, failing);
      RunExtends(acts[1..], st1, failing);
      assert acts == [acts[0]] + acts[1..];
    }
  }

  /** A tick whose keys are all logged already posts nothing. */
  lemma {:induction false} RunAllLogged(acts: seq<Action>, st: TickState, failing: set<string>)
    requires !st.aborted && Crash !in acts
    requires forall p :: Notify(p) in acts ==> p.key in st.log
    ensures Run(acts, st, failing) == st
  {
    if |acts| > 0 {
      assert acts[0] in acts;
      RunAllLogged(acts[1..], st, failing);
    }
  }

  /** Running the same tick again on the log it left (a second tick in the
      same minute, with the same configuration) sends nothing. */
  lemma RepeatedTickSendsNothing(acts: seq<Action>, log: set<string>, failing: set<string>, failing2: set<string>)
    requires !Run(acts, TickState([], log, false), failing).aborted
    ensures var log1 := Run(acts, TickState([], log, false), failing).log;
            Run(acts, TickState([], log1, false), failing2) == TickState([], log1, false)
  {
    var log1 := Run(acts, TickState([], log, false), failing).log;
    RunCompletes(acts, TickState([], log, false), failing);
    RunAllLogged(acts, TickState([], log1, false), failing2);
  }

  // ---- Which actions a tick holds ----

  /** The pre-reminder loop raises exactly when some offset takes the start
      out of range, and it lists a reminder exactly for the offsets in range
      with `start - m == now` (`Run` stops at the first exception, so a
      reminder listed after it is never posted). */
  lemma {:induction false} PreActionsDue(gid: int, ch: int, ev: Event, start: int, now: int, ms: seq<int>)
    ensures Crash in PreActions(gid, ch, ev, start, now, ms) <==> exists m :: m in ms && !SubOk(start, m)
    ensures forall p :: Notify(p) in PreActions(gid, ch, ev, start, now, ms) <==>
              exists m :: m in ms && SubOk(start, m) && start - m == now && p == PrePost(gid, ch, ev, start, m)
  {
    if |ms| > 0 {
      var init, last := ms[..|ms| - 1], ms[|ms| - 1];
      PreActionsDue(gid, ch, ev, start, now, init);
      assert ms == init + [last];
      assert forall m :: m in ms <==> m in init || m == last;
      if m :| m in ms && !SubOk(start, m) {
        if m != last {
          assert m in init;
        }
      }
      forall p
        ensures Notify(p) in PreActions(gid, ch, ev, start, now, ms) <==>
                exists m :: m in ms && SubOk(start, m) && start - m == now && p == PrePost(gid, ch, ev, start, m)
      {
        if m :| m in ms && SubOk(start, m) && start - m == now && p == PrePost(gid, ch, ev, start, m) {
          if m != last {
            assert m in init;
          }
        }
      }
    }
  }

  /** For one event, the tick raises exactly when today is one of the
      event's days and either its start time does not parse, or its end or
      one of its reminder moments falls outside the range of `datetime` (or
      the offset outside that of `timedelta`). Otherwise it lists a
      pre-reminder for offset `m` exactly when today's start minus `m` is
      `now`, and the start announcement exactly when today's start is `now`.
      No other day's occurrence is considered. */
  lemma EventActionsDue(gid: int, ch: int, ev: Event, now: int)
    ensures Crash in EventActions(gid, ch, ev, now) <==>
              && Weekday(DateOf(now)) in ev.weekdays
              && (|| ParseTimeHHMM(ev.startHHMM).Failure?
                  || var start := Combine(DateOf(now), ParseTimeHHMM(ev.startHHMM).value);
                     || !AddOk(start, ev.durationMin)
                     || exists m :: m in ev.preReminders && !SubOk(start, m))
    ensures forall p :: Notify(p) in EventActions(gid, ch, ev, now) <==>
              && Weekday(DateOf(now)) in ev.weekdays
              && ParseTimeHHMM(ev.startHHMM).Success?
              && var start := Combine(DateOf(now), ParseTimeHHMM(ev.startHHMM).value);
                 && AddOk(start, ev.durationMin)
                 && (|| (exists m :: m in ev.preReminders && SubOk(start, m) && start - m == now && p == PrePost(gid, ch, ev, start, m))
                     || (start == now && p == StartPost(gid, ch, ev, start)))
  {
    match OccurrenceStartOnDate(ev, DateOf(now))
    case Failure(_) =>
    case Success(None) =>
    case Success(Some(start)) =>
      PreActionsDue(gid, ch, ev, start, now, ev.preReminders);
  }

  /** A pre-reminder reaching back past midnight never fires: its moment
      lies on the previous day, whose occurrences the tick does not look at.
      Only offsets up to the start's minute of the day can be posted. */
  lemma PreReminderPastMidnightNeverFires(gid: int, ch: int, ev: Event, now: int)
    requires ParseTimeHHMM(ev.startHHMM).Success?
    ensures forall p :: Notify(p) in EventActions(gid, ch, ev, now) && p.notice.PreNotice? ==>
              p.notice.minutes <= MinuteOfDay(ParseTimeHHMM(ev.startHHMM).value)
  {
    EventActionsDue(gid, ch, ev, now);
    var st := ParseTimeHHMM(ev.startHHMM).value;
    var start := Combine(DateOf(now), st);
    DayStart(now);
    forall p | Notify(p) in EventActions(gid, ch, ev, now) && p.notice.PreNotice?
      ensures p.notice.minutes <= MinuteOfDay(st)
    {
      var m :| m in ev.preReminders && SubOk(start, m) && start - m == now && p == PrePost(gid, ch, ev, start, m);
      assert p.notice.minutes == m;
    }
  }

  /** An event at 00:10 never gets a reminder more than 10 minutes ahead,
      for instance the 30-minute one. */
  lemma TenPastMidnightExample(gid: int, ch: int, ev: Event, now: int)
    requires ev.startHHMM == "00:10"
    ensures forall p :: Notify(p) in EventActions(gid, ch, ev, now) && p.notice.PreNotice? ==> p.notice.minutes <= 10
  {
    TenPastMidnight();
    PreReminderPastMidnightNeverFires(gid, ch, ev, now);
  }

  lemma TenPastMidnight()
    ensures ParseTimeHHMM("00:10") == Success(TimeOfDay(0, 10))
  {
    var t := TimeOfDay(0, 10);
    assert Pad2(0) == "00" && Pad2(10) == "10";
    assert FormatHHMM(t) == "00:10";
    TimeRoundTrip(t);
  }

  lemma {:induction false} EventsActionsFrom(gid: int, ch: int, evs: seq<Event>, now: int)
    ensures forall a :: a in EventsActions(gid, ch, evs, now) <==> exists e :: e in evs && a in EventActions(gid, ch, e, now)
  {
    if |evs| > 0 {
      var init := evs[..|evs| - 1];
      EventsActionsFrom(gid, ch, init, now);
      assert evs == init + [evs[|evs| - 1]];
    }
  }

  lemma {:induction false} GuildsActionsFrom(guilds: seq<int>, configs: map<int, GuildConfig>, textChannels: set<(int, int)>, now: int)
    ensures forall a :: a in GuildsActions(guilds, configs, textChannels, now) <==>
              exists g :: g in guilds && a in GuildActions(g, configs, textChannels, now)
  {
    if |guilds| > 0 {
      var init := guilds[..|guilds| - 1];
      GuildsActionsFrom(init, configs, textChannels, now);
      assert guilds == init + [guilds[|guilds| - 1]];
    }
  }

  /** Whole tick: every post is for a guild that is not skipped, goes to
      its announce channel, and comes from one of its events (where
      `EventActionsDue` says when that happens). */
  lemma TickPostsAreDue(guilds: seq<int>, configs: map<int, GuildConfig>, textChannels: set<(int, int)>, now: int, p: Post)
    requires Notify(p) in GuildsActions(guilds, configs, textChannels, now)
    ensures exists g :: g in guilds && GuildPost(g, configs, textChannels, now, p)
  {
    GuildsActionsFrom(guilds, configs, textChannels, now);
    var g :| g in guilds && Notify(p) in GuildActions(g, configs, textChannels, now);
    GuildPostIsDue(g, configs, textChannels, now, p);
  }

  predicate GuildPost(g: int, configs: map<int, GuildConfig>, textChannels: set<(int, int)>, now: int, p: Post)
  {
    && !Skipped(g, configs, textChannels)
    && p.channel == configs[g].announceChannelId.value
    && exists e :: e in Values(configs[g].events) && Notify(p) in EventActions(g, p.channel, e, now)
  }

  lemma GuildPostIsDue(g: int, configs: map<int, GuildConfig>, textChannels: set<(int, int)>, now: int, p: Post)
    requires Notify(p) in GuildActions(g, configs, textChannels, now)
    ensures GuildPost(g, configs, textChannels, now, p)
  {
    assert !Skipped(g, configs, textChannels);
    var ch := configs[g].announceChannelId.value;
    var evs := Values(configs[g].events);
    assert Notify(p) in EventsActions(g, ch, evs, now);
    EventsActionsFrom(g, ch, evs, now);
    var e :| e in evs && Notify(p) in EventActions(g, ch, e, now);
    EventPostChannel(g, ch, e, now, p);
  }

  lemma EventPostChannel(g: int, ch: int, e: Event, now: int, p: Post)
    requires Notify(p) in EventActions(g, ch, e, now)
    ensures p.channel == ch
  {
    EventActionsDue(g, ch, e, now);
  }

  lemma SkippedGuildGetsNothing(g: int, configs: map<int, GuildConfig>, textChannels: set<(int, int)>, now: int)
    requires Skipped(g, configs, textChannels)
    ensures forall guilds, a :: a in GuildsActions(guilds, configs, textChannels, now) ==>
              exists g' :: g' in guilds && g' != g && a in GuildActions(g', configs, textChannels, now)
  {
    forall guilds, a | a in GuildsActions(guilds, configs, textChannels, now)
      ensures exists g' :: g' in guilds && g' != g && a in GuildActions(g', configs, textChannels, now)
    {
      GuildsActionsFrom(guilds, configs, textChannels, now);
    }
  }
}
