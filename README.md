# Raid and event bot: scheduler and RSVP core in Dafny

This project models the logic core of a Discord bot for an online-game
community. It covers three parts.

- **Recurring-event reminders** (`bot/bot.py`):
  - the parsers for weekday lists, `HH:MM` start times and pre-reminder
    minutes;
  - the weekly occurrence search of an event;
  - the per-guild event table, keyed by lower-cased name;
  - one run of the scheduler loop. For a minute-truncated `now` it decides
    which pre-reminders and start announcements are due. It keeps each one
    to a single post through the `post_log` set of string keys.
- **DM RSVP buckets** (`bot/event_rsvp_dm.py`):
  - normalising a stored event record (`_init_event_shape`);
  - the role-id configuration and role-hint lookups;
  - `RaidView._update`, which moves a user into exactly one of
    TANK/HEAL/DPS/MAYBE/NO, driven by the five DM buttons.
- **Channel RSVP lists** (`bot/event_rsvp.py`):
  - `_ensure_event_struct` and `RSVPView._set_state`, which move a user
    between the yes/maybe/no lists;
  - the role-label priority lookup;
  - the counting and filtering part of the overview rendering.

Modules:

- Helper modules:
  - `Wrappers`: Option and Result.
  - `Text`: `strip`, ASCII `lower`, `split`, Python's `int()` on strings
    written with ASCII digits, and `str()` of integers.
  - `Lists`: `sorted(set(...))`, `list.remove`, filtering, and counting.
  - `Roles`: members and roles, reduced to ids and names.
- Scheduler modules:
  - `ConfigParse`: the parsers.
  - `Occurrence`: the time model and the occurrence search.
  - `EventTable`: an insertion-ordered dictionary.
  - `Reminders`: what a tick tries to post, and how the post log filters it.
  - `Bot`: the `Scheduler` class. It holds the `configs` dictionary and the
    `post_log` set, and runs the commands and the tick loops over them.
- RSVP modules:
  - `RsvpChannel`: the channel RSVP lists, with the `RsvpStore` class over
    the RSVP database.
  - `RsvpDm`: the DM RSVP buckets, with the `RaidBoard` class over `store`
    and `cfg`.

Time is naive integer minutes:

- the date of an instant is `t / 1440`;
- weekday `date % 7` is 0 for Monday, as in Python's `date.weekday()`
  counted from day 0;
- an instant on a date is `date * 1440 + hour * 60 + minute`;
- day 0 is 0001-01-01 and day 3652058 is 9999-12-31, the range of Python's
  `datetime`; a `timedelta` holds at most 999999999 days either way. Adding
  or subtracting minutes outside these ranges raises `OverflowError`.

Occurrence keys use the start minute in place of `isoformat()`. This keeps
the only property the code relies on: equal starts give equal keys, and
different starts give different keys.

A scheduler tick is described in two steps:

1. `Reminders.GuildsActions` lists, in loop order, every post the loop would
   try. It puts a `Crash` where the loop raises: when an event's stored start
   time does not parse, when its end (`start + duration_min`) leaves the
   range of `datetime`, or when a reminder moment (`start - m`) does. The
   exception ends the loop.
2. `Reminders.Run` plays that list against the post log. A post whose key is
   logged is skipped. Otherwise the message is sent and only then its key is
   added. A send that raises (its key is in the `failing` parameter) ends
   the tick, and that key stays out of the log.

The `Bot.Scheduler.Tick` method runs the same nested loops as the source. It
is proved to end in exactly the state `Run` describes.

The DM update is described as a function, `RsvpDm.UpdateRecord`, on the
JSON-like record:

- It returns the record as it stands when the rewrite finishes or raises,
  and whether it got through.
- The rewrite fails on `int()` of a list entry, on a missing `guild_id`
  (MAYBE only), or on a role-id value that `int()` rejects. The overview
  refresh that follows the save can raise as well; it is not modelled.
- `RsvpDm.RaidBoard.Update` rewrites the store with that record. It saves
  only on success, as the source does (the in-place edits stay in memory
  when the rewrite fails).

Three facts about the scheduler code shape the model:

- **Send, then record.** A reminder is sent first and its key is added to
  the post log only afterwards (`bot/bot.py:313-314`, `320-322`). A failed
  send therefore leaves the key unrecorded, and a later tick in the same
  minute may retry it.
- **Exact-minute due-ness.** A reminder is due only when its instant equals
  the minute-truncated `now` (`bot/bot.py:309`, `317`). There is no
  tolerance window, so a tick that misses that minute never sends it.
- **Today only.** Only the occurrence on `now`'s date is looked at
  (`bot/bot.py:301`). `Reminders.PreReminderPastMidnightNeverFires` states
  the consequence: a pre-reminder that would fall on the previous day is
  never sent.

The code also keeps start announcements separate from pre-reminders:
`parse_premins` drops zero offsets, and the start announcement has its own
`:start` key.

## Model

| member | source | states |
|---|---|---|
| ConfigParse.DowMapRange | bot/bot.py:48-56 | every weekday alias maps to a day in 0..6 |
| ConfigParse.MondayKeys | bot/bot.py:49 | "mon", "monday" and "0" are all keys of the map, and all name day 0 |
| ConfigParse.NonBlankStripped | bot/bot.py:60 | the kept tokens are all non-empty after stripping |
| ConfigParse.LookupDays | bot/bot.py:60-63 | succeeds iff every token is a known alias, and then maps each token to its day in order; otherwise it fails naming the first unknown token |
| Lists.SortedSet | bot/bot.py:64 | `sorted(set(...))`: the result is strictly increasing and holds exactly the input's values; see ConfigParse.ParseWeekdays |
| ConfigParse.ParseWeekdays | bot/bot.py:58-67 | succeeds iff there is at least one token and all are known; fails with "no weekdays" iff there are no tokens; a success is non-empty, strictly increasing, within 0..6, and holds exactly the days the tokens name |
| ConfigParse.WeekdaysIgnoreCase | bot/bot.py:60 | lower-casing the input does not change the result |
| ConfigParse.WeekdayTokensIgnoreCase | bot/bot.py:60 | the token list is the same for the input and its lower-cased form |
| ConfigParse.NonBlankStrippedLower | bot/bot.py:60 | stripping and dropping blanks commutes with lower-casing |
| ConfigParse.SingleWeekday | bot/bot.py:58-67 | a single alias, with any case and surrounding blanks, gives exactly its one day |
| ConfigParse.SingleToken | bot/bot.py:60 | input without a comma gives one token, stripped and lower-cased |
| ConfigParse.MondayAliases | bot/bot.py:48-63 | any input that is "mon", "monday" or "0" up to case and surrounding blanks parses to exactly [0] |
| Text.ParseInt | bot/bot.py:72 | definition of `int()` on a string (ASCII digits only, see Left out); see Text.IntToStringRoundTrip, ConfigParse.ParseTimeHHMM and ConfigParse.ParseInts |
| ConfigParse.ParseTimeHHMM | bot/bot.py:69-74 | succeeds iff the stripped input splits at ':' into exactly two `int()`-parsable parts forming hour 0..23 and minute 0..59; the result is those numbers; every failure is the start-time error |
| ConfigParse.FormatHHMM | bot/bot.py:234 | the normalised form has five characters with ':' in the middle |
| ConfigParse.TimeRoundTrip | bot/bot.py:234 | re-parsing the normalised `HH:MM` string gives back the same hour and minute |
| ConfigParse.FormatSplits | bot/bot.py:234 | the normalised string splits into the two zero-padded fields |
| ConfigParse.ParseInts | bot/bot.py:80-81 | succeeds iff every token is `int()`-parsable, and then gives their values in order |
| ConfigParse.Positives | bot/bot.py:82 | keeps exactly the entries that are greater than zero |
| ConfigParse.ParsePremins | bot/bot.py:76-83 | blank input gives []; otherwise succeeds iff every token parses; a success is strictly increasing and duplicate-free, and holds exactly the positive values among the tokens |
| Occurrence.Weekday | bot/bot.py:100 | a weekday is in 0..6 |
| Occurrence.Combine | bot/bot.py:102 | the instant lies on the given date, at the start time's minute of the day |
| Occurrence.CombineMonotone | bot/bot.py:102 | the same start time on a later date is a later instant |
| Occurrence.OccurrenceStartOnDate | bot/bot.py:108-112 | definition; see Occurrence.OccurrenceOnDate |
| Occurrence.OccurrenceOnDate | bot/bot.py:108-112 | None iff the date's weekday is not configured; an error iff it is configured but the stored start time does not parse; otherwise the unique occurrence on that date |
| Occurrence.NextOccurrenceStart | bot/bot.py:94-106 | with a valid weekday configured, returns an occurrence at or after `ref`, within 7 days of `ref`'s date, with no occurrence between `ref` and it; with none configured, returns the fallback seven days on; fails iff the start time does not parse |
| Occurrence.FirstStartFrom | bot/bot.py:96-106 | the day scan once the start time has parsed: with a valid weekday configured, the earliest occurrence at or after `ref`, no later than seven days after `ref`'s date; otherwise the start time seven days on |
| Occurrence.NoneFromRefStep | bot/bot.py:98-104 | a day the loop passes over (weekday not listed, or start before `ref`) extends the run of days that hold no start at or after `ref` |
| Occurrence.Earliest | bot/bot.py:98-104 | the first candidate the day loop accepts is the earliest occurrence at or after `ref` |
| Occurrence.NoCandidateMeansNoWeekday | bot/bot.py:105-106 | when the eight-day loop finds nothing, no configured weekday is a valid day, so the fallback is reached only then |
| EventTable.Keys | bot/bot.py:118 | the keys of the table, in insertion order |
| EventTable.Values | bot/bot.py:300 | definition of the events in the order the tick visits them; see EventTable.ValuesGet |
| EventTable.ValuesGet | bot/bot.py:300 | the i-th value the tick visits is exactly what a lookup of the i-th key finds |
| EventTable.Get | bot/bot.py:118 | a lookup finds nothing iff the key is absent; otherwise it finds the entry stored under the key |
| EventTable.Put | bot/bot.py:239 | definition of dict assignment; see EventTable.PutKeys, EventTable.PutUnique and EventTable.PutGet |
| EventTable.PutKeys | bot/bot.py:239 | replacing an existing key keeps the key order; a new key goes last |
| EventTable.PutUnique | bot/bot.py:239 | storing keeps the keys unique |
| EventTable.PutGet | bot/bot.py:239 | after storing, the key gives the new event and every other key gives what it gave before |
| EventTable.Delete | bot/bot.py:268 | definition of `del`; see EventTable.DeleteSpec, EventTable.DeleteKeys and EventTable.DeleteMissing |
| EventTable.DeleteUnique | bot/bot.py:268 | deleting a key keeps the remaining keys unique |
| EventTable.DeleteSpec | bot/bot.py:268 | after deleting, the key is gone, every other key is unchanged, and the table shrinks by one when the key was present |
| EventTable.DeleteKeys | bot/bot.py:268 | deleting adds no entry |
| EventTable.DeleteMissing | bot/bot.py:267-272 | deleting a missing key leaves the table unchanged |
| Reminders.EventActions | bot/bot.py:301-322 | definition of one event's attempts in loop order, with a `Crash` for an unparsable start time and for an end or reminder moment outside the range of `datetime`; see Reminders.EventActionsDue and Reminders.PreActionsDue |
| Reminders.Skipped | bot/bot.py:294-299 | definition of the guild skip test; see Reminders.SkippedGuildGetsNothing |
| Reminders.GuildsActions | bot/bot.py:293-322 | definition of a tick's attempts in loop order; see Reminders.GuildsActionsFrom and Reminders.TickPostsAreDue |
| Reminders.Step | bot/bot.py:311-314 | definition of one attempt against the post log; see Reminders.StepExtends |
| Reminders.Run | bot/bot.py:293-325 | definition of a tick played against the post log; see Reminders.RunExtends, Reminders.RunCompletes and Reminders.RepeatedTickSendsNothing |
| Reminders.KeysDistinct | bot/bot.py:310-318 | keys for different pre-reminder offsets differ, and none equals the start key of the same occurrence |
| Reminders.Mention | bot/bot.py:312 | definition of the role ping: a role is mentioned iff a non-zero role id is set; used by every post the tick builds |
| Reminders.RunAppend | bot/bot.py:293-322 | playing two action lists one after the other is playing their concatenation |
| Reminders.RunAborted | bot/bot.py:313 | nothing runs after an aborted send |
| Reminders.StepExtends | bot/bot.py:311-314 | one step appends at most one post, whose key was neither logged nor failing, and logs exactly that key |
| Reminders.RunExtends | bot/bot.py:307-322 | a tick appends posts, each attempted, none logged before, none sent twice, and grows the log by exactly their keys |
| Reminders.RunCompletes | bot/bot.py:293-325 | a tick that is not aborted met no exception and leaves the key of every attempted post in the log |
| Reminders.RunAllLogged | bot/bot.py:311 | when every key is already logged, a tick sends nothing and changes nothing |
| Reminders.RepeatedTickSendsNothing | bot/bot.py:309-325 | after a completed tick, a second tick in the same minute sends nothing and leaves the log as it is, whatever sends fail |
| Reminders.PreActionsDue | bot/bot.py:307-314 | the pre-reminder loop raises iff some offset takes the start outside the range of `datetime` or `timedelta`; it lists the reminder for offset m iff that offset is in range and today's start minus m equals `now` |
| Reminders.EventActionsDue | bot/bot.py:301-322 | an event raises iff today is a configured weekday and its start time does not parse, or today's end or one of today's reminder moments is outside the range of `datetime` or `timedelta`; it lists a post iff today is a configured weekday, the start parses, the end is in range, and either an in-range pre-reminder offset or the start itself is exactly `now` |
| Reminders.PreReminderPastMidnightNeverFires | bot/bot.py:301-309 | a pre-reminder is only ever sent for an offset no larger than the start's minute of the day; an earlier one would fall on the previous day and never fires |
| Reminders.TenPastMidnightExample | bot/bot.py:301-309 | for an event at 00:10, no pre-reminder of more than 10 minutes is ever sent |
| Reminders.EventsActionsFrom | bot/bot.py:300 | a guild's attempts are exactly those of its events |
| Reminders.GuildsActionsFrom | bot/bot.py:293 | a tick's attempts are exactly those of its guilds |
| Reminders.TickPostsAreDue | bot/bot.py:293-322 | every attempted post belongs to a guild that is not skipped, goes to that guild's announce channel, and comes from one of its events |
| Reminders.GuildPostIsDue | bot/bot.py:294-322 | a guild that posts is not skipped, and its posts come from its events on its announce channel |
| Reminders.EventPostChannel | bot/bot.py:297-322 | every post of an event goes to the guild's announce channel |
| Reminders.SkippedGuildGetsNothing | bot/bot.py:294-299 | a guild without a config, channel or events, or whose channel is not a text channel, contributes no action |
| Bot.CfgOrNew | bot/bot.py:166-172 | definition of the config `get_or_create_guild_cfg` hands out; see Bot.Scheduler.GetOrCreateGuildCfg |
| Bot.NewEvent | bot/bot.py:222-238 | definition; see Bot.NewEventSpec |
| Bot.NewEventSpec | bot/bot.py:222-238 | the command succeeds iff all three parsers succeed, and reports the weekday error first, then the time error; the stored event has the stripped name, a valid weekday list, a start time that parses to the same time, and the parsed pre-reminders |
| Bot.AddedEventCrashesOnlyOnOverflow | bot/bot.py:222-238 | an event created by the command has a start time that parses and a real weekday; a tick raises for it iff today is one of its days and today's end or a reminder moment is outside the range of `datetime` or `timedelta` (the command does not bound `duration_min` or the offsets) |
| Bot.AddedEventNeverCrashes | bot/bot.py:222-238 | an event created by the command never makes a tick raise when its duration keeps the end within the range of `datetime` and no offset reaches back before 0001-01-01 |
| Bot.LongDurationCrashes | bot/bot.py:238 | an event created with a duration longer than the whole range of `datetime` makes every tick on one of its days raise `OverflowError` |
| Bot.Scheduler.constructor | bot/bot.py:163-164 | the state starts from the loaded configs and post log |
| Bot.Scheduler.GetOrCreateGuildCfg | bot/bot.py:166-172 | returns the guild's config, creating and storing an empty one only when missing; the post log is unchanged |
| Bot.Scheduler.SetAnnounceChannel | bot/bot.py:190-199 | only the guild's announce channel changes |
| Bot.Scheduler.AddEvent | bot/bot.py:210-241 | a parse error changes nothing; otherwise the event is stored under the lower-cased name, replacing any old entry, and every other name keeps its event |
| Bot.Scheduler.StoreEvent | bot/bot.py:230-239 | the event is stored under the given key in the guild's configuration (created if missing), replacing any old entry, and every other key of every guild keeps its event |
| Bot.Scheduler.RemoveEvent | bot/bot.py:262-272 | reports whether the lower-cased name was present; deletes only that key; a missing name changes nothing beyond creating the guild's config |
| Bot.Scheduler.Deliver | bot/bot.py:311-314 | a logged key is skipped; otherwise the message is sent and then its key is logged, and a failing send aborts with the key unlogged |
| Bot.Scheduler.TickPreReminders | bot/bot.py:307-314 | the offset loop ends in the state `Run` gives for the pre-reminder actions |
| Bot.Scheduler.TickEvent | bot/bot.py:300-322 | one event's pass ends in the state `Run` gives for its actions |
| Bot.Scheduler.TickGuild | bot/bot.py:294-322 | one guild's pass ends in the state `Run` gives for its actions |
| Bot.Scheduler.Tick | bot/bot.py:290-325 | the whole loop ends in the state `Run` gives for the tick's action list; configs are untouched |
| Text.IntToString | bot/event_rsvp.py:51 | `str()` of an integer is non-empty, has no blank at either end, and contains none of `_`, `:` or `,` |
| Text.IntToStringInjective | bot/event_rsvp.py:51 | different ids give different string keys |
| Text.IntToStringRoundTrip | bot/event_rsvp_dm.py:206 | `int()` of `str(i)` is `i` again |
| Roles.RoleNames | bot/event_rsvp.py:41 | definition of the lower-cased role names; see RsvpChannel.NameMatchInNames |
| RsvpChannel.RoleLabelFromMember | bot/event_rsvp.py:31-48 | definition; see RsvpChannel.RoleLabelSpec and RsvpChannel.UnsetIdsUseNamesOnly |
| RsvpChannel.NameMatchInNames | bot/event_rsvp.py:41-47 | a configured name matches iff it is non-empty and its lower-cased form is among the member's lower-cased role names |
| RsvpChannel.RoleLabelSpec | bot/event_rsvp.py:31-48 | the label is Tank, Heal, DPS or "-"; a configured, non-zero role id of the member decides first, in the order Tank, Heal, DPS; only without any id match does an exact case-insensitive name match decide, in the same order; "-" iff nothing matches |
| RsvpChannel.UnsetIdsUseNamesOnly | bot/event_rsvp.py:34-47 | with all ids unset, the label depends only on the member's set of role names |
| Lists.RemoveFirst | bot/event_rsvp.py:138 | `list.remove`: a present value costs exactly one entry, an absent one changes nothing; see RsvpChannel.RemoveFirstLast |
| RsvpChannel.Moved | bot/event_rsvp.py:136-141 | definition; see RsvpChannel.ListOfMoved, RsvpChannel.MovedOnce and RsvpChannel.MovedKeepsOthers |
| RsvpChannel.ListOfMoved | bot/event_rsvp.py:136-141 | each list loses the first occurrence of the user, and only the target list gets the user appended |
| RsvpChannel.RejoinedCount | bot/event_rsvp.py:137-141 | the user's count in a list drops by one if present and rises by one if it is the target; other users' counts are unchanged |
| RsvpChannel.RejoinedWithout | bot/event_rsvp.py:137-141 | with the user filtered out, a list is unchanged |
| RsvpChannel.MovedLast | bot/event_rsvp.py:141 | the user is the last entry of the target list |
| RsvpChannel.MovedOnce | bot/event_rsvp.py:136-141 | if the user occurred at most once across the lists, they occur exactly once afterwards, in the target list |
| RsvpChannel.MovedKeepsOthers | bot/event_rsvp.py:136-141 | every other user keeps their entries and relative order in every list |
| RsvpChannel.RejoinedSelf | bot/event_rsvp.py:136-141 | a list that held the user at most once holds them exactly once afterwards if it is the target list, and not at all otherwise |
| RsvpChannel.RejoinedOthers | bot/event_rsvp.py:136-141 | removing and re-adding the user leaves every other user's count in that list unchanged |
| RsvpChannel.StrippedStep | bot/event_rsvp.py:136-138 | one pass of the removal loop drops the user's first entry from the next list, and a list without the user is left as it is |
| RsvpChannel.StrippedThenAppended | bot/event_rsvp.py:136-141 | appending the user to the target list after the removal loop gives the moved record |
| RsvpChannel.MovedKeepsAtMostOnce | bot/event_rsvp.py:136-141 | if every user occurs at most once, that still holds afterwards |
| RsvpChannel.MovedIdempotent | bot/event_rsvp.py:136-141 | with the user at most once beforehand, a second identical click changes nothing |
| RsvpChannel.RejoinedIdempotent | bot/event_rsvp.py:137-141 | a second identical move of one list changes nothing when the user was there at most once |
| RsvpChannel.RemoveFirstLast | bot/event_rsvp.py:138 | removing the user from a list that ends with their only occurrence gives the list without that last entry |
| RsvpChannel.DuplicateBreaksIdempotence | bot/event_rsvp.py:137-138 | with a duplicated entry, a second identical click does change the lists, because `list.remove` deletes only one occurrence |
| RsvpChannel.RsvpStore.constructor | bot/event_rsvp.py:130 | the store starts from the loaded database |
| RsvpChannel.RsvpStore.EnsureEventStruct | bot/event_rsvp.py:50-52 | an existing record is untouched; a missing one becomes three empty lists |
| RsvpChannel.RsvpStore.SetState | bot/event_rsvp.py:128-142 | accepted iff the target is "yes", "maybe" or "no"; a rejected target changes nothing; otherwise the record, created if missing, becomes the moved record and nothing else changes |
| RsvpChannel.FoundSpec | bot/event_rsvp.py:70-73 | the found members are exactly the listed users present in the guild, with their multiplicities; absent users are skipped |
| RsvpChannel.TallyBound | bot/event_rsvp.py:67-77 | the Tank+Heal+DPS counts sum to at most the number of attendees found |
| RsvpChannel.MaybeSuffixSpec | bot/event_rsvp.py:85-86 | the suffix is empty iff the label is "-", and is otherwise the label in parentheses |
| RsvpChannel.MaybeLinesSpec | bot/event_rsvp.py:79-87 | one line per found maybe user, in order, each with that member's suffix |
| RsvpChannel.RenderSummary | bot/event_rsvp.py:54-90 | the counting loop gives the found attendees with their role tally (summing to at most their number), the maybe lines and the found decliners |
| RsvpDm.InitEventShape | bot/event_rsvp_dm.py:63-75 | the in-place normalisation produces exactly the shaped record |
| RsvpDm.Shaped | bot/event_rsvp_dm.py:63-75 | definition; see RsvpDm.ShapedWellShaped, RsvpDm.ShapedKeeps and RsvpDm.ShapedIdempotent |
| RsvpDm.FixBucketsSpec | bot/event_rsvp_dm.py:67-69 | the bucket step adds only the missing bucket keys, makes each bucket a list, and keeps list-valued buckets and every other key as they were |
| RsvpDm.ShapedWellShaped | bot/event_rsvp_dm.py:63-75 | after shaping, `yes` holds list-valued TANK/HEAL/DPS, `maybe` is an object, `no` is a list and `target_role_id` exists |
| RsvpDm.ShapedKeeps | bot/event_rsvp_dm.py:63-75 | shaping adds only the four fields and touches no other field; an already well-formed `maybe`, `no`, `target_role_id` or list-valued bucket is left as it was |
| RsvpDm.ShapedIdempotent | bot/event_rsvp_dm.py:63-75 | a well-shaped record is left as it is, so shaping twice equals shaping once |
| RsvpDm.GetRoleIdsForGuild | bot/event_rsvp_dm.py:77-83 | definition; see RsvpDm.RoleIdsDefault, RsvpDm.RoleIdOfSpec and RsvpDm.StoreThenGetRoleIds |
| RsvpDm.RoleIdsDefault | bot/event_rsvp_dm.py:77-83 | a guild without a (truthy) entry gets all role ids 0 |
| RsvpDm.RoleIdOfSpec | bot/event_rsvp_dm.py:80-82 | a missing, null, zero or empty entry gives 0; an integer entry gives itself |
| RsvpDm.StoreThenGetRoleIds | bot/event_rsvp_dm.py:286-290 | role ids stored by the set-roles command are read back unchanged |
| RsvpDm.PrimaryLabel | bot/event_rsvp_dm.py:100-114 | definition; see RsvpDm.PrimaryLabelSpec |
| RsvpDm.PrimaryLabelSpec | bot/event_rsvp_dm.py:100-114 | "" for no member; otherwise a held guild role with the configured id decides first, in the order Tank, Heal, DPS; only without one does a role-name substring decide, in the same order, "dd" also counting as DPS; otherwise "" |
| RsvpDm.Ints | bot/event_rsvp_dm.py:206 | definition of a list of ids stored as JSON integers; see RsvpDm.CoerceInts |
| RsvpDm.CoerceSpec | bot/event_rsvp_dm.py:206 | converting a list succeeds iff `int()` accepts every entry, and then gives their values in order |
| RsvpDm.CoerceInts | bot/event_rsvp_dm.py:206-207 | converting a list of stored integers gives them back |
| RsvpDm.StripBucketsSpec | bot/event_rsvp_dm.py:205-206 | the bucket loop gets through iff every visited bucket converts; each visited bucket becomes its converted ids without the user; the other buckets and fields are unchanged |
| RsvpDm.StripAllSpec | bot/event_rsvp_dm.py:205-206 | over the three buckets: succeeds iff all three convert, and then each holds its ids without the user |
| RsvpDm.RemovalOkSpec | bot/event_rsvp_dm.py:204-207 | the removal steps get through iff every bucket and `no` convert |
| RsvpDm.RemovedSpec | bot/event_rsvp_dm.py:204-208 | after removal, every bucket and `no` hold their ids without the user, `maybe` has lost the user's key, and every other field is unchanged |
| RsvpDm.PlacedSpec | bot/event_rsvp_dm.py:210-223 | the entry step fails iff the group is MAYBE and no role hint can be computed; otherwise a bucket group appends the user to that bucket, MAYBE maps the user's key to the hint, NO appends to `no`, any other group adds nothing, and nothing else changes |
| RsvpDm.RemovalTail | bot/event_rsvp_dm.py:207-208 | after the bucket loop, rewriting `no` and popping the user's `maybe` key gives the removed record: buckets and `no` without the user, `maybe` without the user's key, other fields as shaped |
| RsvpDm.RemovedKeepsGuild | bot/event_rsvp_dm.py:204-208 | the removal steps keep `guild_id` (present or absent, and its value) as stored, so the MAYBE hint reads the stored guild |
| RsvpDm.PlacedOk | bot/event_rsvp_dm.py:210-223 | the entry step raises only for MAYBE, when no hint can be computed |
| RsvpDm.UpdateRecord | bot/event_rsvp_dm.py:193-223 | the handler's record is always well shaped; see RsvpDm.UpdateJoinsBucket, RsvpDm.UpdateDeclines, RsvpDm.UpdateMaybe, RsvpDm.UpdateKeepsOthers and RsvpDm.UpdateFails |
| RsvpDm.UpdateIsPlaced | bot/event_rsvp_dm.py:193-223 | the handler gets through iff the removal succeeds and, for MAYBE, the hint can be computed; then the result is the entry step applied to the removed record |
| RsvpDm.UpdateYesLists | bot/event_rsvp_dm.py:205-211 | each bucket ends as its ids without the user, plus the user at the end for the chosen bucket |
| RsvpDm.YesListsAppended | bot/event_rsvp_dm.py:205-211 | appending the user's id to a rewritten bucket equals rewriting the bucket with the user appended |
| RsvpDm.UpdateListsAfter | bot/event_rsvp_dm.py:204-220 | every bucket and `no` end as their ids without the user, with the user appended to the chosen one |
| RsvpDm.ListsAfterSpec | bot/event_rsvp_dm.py:204-220 | lists built that way hold the user exactly once, as last entry, in the chosen list and nowhere else, and keep every other user in order |
| RsvpDm.JoinedBucket | bot/event_rsvp_dm.py:205-212 | for a bucket group, that bucket holds the user once as last entry, the other buckets and `no` do not hold them |
| RsvpDm.UpdateNoList | bot/event_rsvp_dm.py:207-220 | `no` ends as its ids without the user, plus the user at the end for NO |
| RsvpDm.UpdateOtherFields | bot/event_rsvp_dm.py:208-217 | `maybe` loses the user's key, and regains it with the hint only for MAYBE; no other field changes |
| RsvpDm.UpdateJoinsBucket | bot/event_rsvp_dm.py:205-212 | TANK, HEAL or DPS leaves the user exactly once in that bucket, as its last entry, in no other bucket, not in `no` and not in `maybe`, even if they were listed twice before |
| RsvpDm.UpdateDeclines | bot/event_rsvp_dm.py:204-220 | NO leaves the user exactly once, as the last entry of `no`, in no bucket and not in `maybe` |
| RsvpDm.UpdateMaybe | bot/event_rsvp_dm.py:204-217 | MAYBE maps the user's key to the hint for the record's guild, and the user is in no bucket and not in `no` |
| RsvpDm.UpdateKeepsOthers | bot/event_rsvp_dm.py:204-208 | other users keep their entries and relative order in every bucket and in `no` (up to `int()` conversion), other `maybe` entries keep their values, and other fields are unchanged |
| RsvpDm.UpdateFails | bot/event_rsvp_dm.py:199-223 | the record rewrite fails iff a bucket or `no` holds an entry `int()` rejects, or the group is MAYBE and the guild id or its role ids cannot be read |
| RsvpDm.StripFromBuckets | bot/event_rsvp_dm.py:205-206 | the bucket loop ends with the record and outcome the bucket-stripping function gives |
| RsvpDm.Rewrite | bot/event_rsvp_dm.py:199-223 | the in-place rewrite ends with the record and outcome `UpdateRecord` gives |
| RsvpDm.GroupOf | bot/event_rsvp_dm.py:236-254 | each button selects its own branch of the handler: the three bucket buttons their buckets, Maybe the MAYBE branch and Abmelden the NO branch |
| RsvpDm.RaidBoard.constructor | bot/event_rsvp_dm.py:36-37 | the state starts from the loaded store and role configuration |
| RsvpDm.RaidBoard.Update | bot/event_rsvp_dm.py:193-234 | a missing or empty record changes nothing and saves nothing; otherwise the stored record becomes the handler's result, the outcome is Saved iff it got through, and the store is saved exactly then; the configuration is untouched |
| RsvpDm.RaidBoard.Press | bot/event_rsvp_dm.py:236-254 | a click on a missing or empty record changes nothing; otherwise the stored record becomes the handler's result for the button's group, the outcome is Saved iff the handler got through, and the store is saved exactly then; the configuration is untouched |

## Left out

- Discord I/O is not modelled. That covers sending and editing messages,
  fetching members and messages, interaction replies, command registration,
  permission checks (`is_admin`, `_is_admin`), `_push_overview`,
  `_safe_reply`, `_log` and the embed and message texts. These are foreign
  library calls.
- The channel lookup (`ensure_channel`) becomes a parameter: the set of
  (guild, channel) pairs that are text channels. The guilds the client sees
  become a parameter sequence. A failing `channel.send` becomes the set of
  keys whose send raises.
- In the DM view, the member that `_member_from_event` finds becomes an
  `Option<Member>` parameter. The roles that `member.guild.get_role` finds
  become a set of role ids.
- JSON file persistence (loading and saving `guild_configs.json`,
  `post_log.json`, the RSVP files and the role configuration) is replaced by
  in-memory maps and sets.
  - `_load_rsvp` resetting an unreadable file to `{}` is not modelled.
  - The channel RSVP database is typed as three integer lists, so malformed
    saved records there are not modelled.
  - `save_all` runs after every configuration change, and
    `save_post_log` runs at the end of a tick. Neither is modelled. In
    particular, the post log of a tick that raised is not written out.
- The time zone and DST are not modelled. Time is naive whole minutes, and
  the tick's `now` is already minute-truncated. Of `datetime` and
  `timedelta` only their ranges are modelled (the `OverflowError` of
  `bot/bot.py:304` and `308`). The tick's `now` comes from the clock and is
  not itself checked against that range.
- The `tasks.loop(seconds=30.0)` cadence, and whether the loop restarts
  after an exception, are not modelled. The model is a single tick.
- Occurrence keys use the start minute instead of `isoformat()`. Only key
  equality matters to the code.
- Python's `str.strip` is modelled on the whitespace characters below
  U+0100, and `str.lower` on the ASCII letters only. Unicode case folding
  and the rest of Unicode whitespace are left out.
- Text.ParseInt: accepts ASCII digits `0`-`9` only, and strips only the
  whitespace characters below U+0100. Python's `int()` also accepts every
  other Unicode decimal digit (for example full-width digits) and strips all
  Unicode whitespace. `ConfigParse.ParseTimeHHMM`, `ConfigParse.ParsePremins`
  and `RsvpDm.ToInt` inherit this: input written with such characters is an
  error in the model but accepted by the code.
- Commands and the tick interleave at every `await`. The model runs a
  command or a whole tick as one step. In the code, `/add_event` with a new
  name or `/remove_event` can run while the tick awaits `channel.send`
  inside its loop over `cfg.events.values()` (`bot/bot.py:300`, `313`,
  `320`). The dict then changes size during the iteration, the next step
  raises `RuntimeError`, and the rest of that tick is lost. This is not
  modelled.
- JSON floats are not modelled. `int()` of a float in a stored list would
  truncate; the model has no float values.
- `_push_overview` can raise after the store is saved
  (`bot/event_rsvp_dm.py:225-226`): it reads `obj["guild_id"]` and then
  `obj["channel_id"]` outside any `try`, and the record may lack either.
  The `except` branch then tells the user that the sign-up failed although
  it was saved. The model stops at the save: this exception and the error
  reply the user then gets are not modelled.
- RsvpDm.GetRoleIdsForGuild: a `guild_id` that is neither an integer nor a
  string is treated as having no configuration. `str()` of such a value is
  not modelled.
- Store records and role-configuration entries that are not JSON objects
  are not modelled. The store maps keys to objects.
- `assert` statements are taken to be enabled (no `python -O`).
- In `bot/event_rsvp_dm.py`, the part after line 292 is not part of this
  model. That covers the rest of the set-roles command, the log-channel
  command and raid creation.
- `list_events`, `test_event_ping`, `GuildConfig.to_dict`/`from_dict` and
  the rendering of DM overviews (`build_embed`) are presentation or
  persistence, and are not modelled.
- `bot/onboarding.py`, `bot/join_hook.py` and `bot/bot_full_embed_code.py`
  are not part of this model. They are Discord plumbing.
