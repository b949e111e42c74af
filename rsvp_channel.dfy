/** The RSVP buttons under an event post in a channel: per message a record
    of the user ids that answered yes, maybe and no, the handler that moves
    a user into one of the lists, the role label of a member and the role
    summary the post shows. */
module RsvpChannel {
  import opened Wrappers
  import opened Text
  import opened Lists
  import opened Roles

  /** `ROLE_IDS`, the role ids the label lookup tries first. */
  const ROLE_IDS := RoleIds(123456789012345678, 234567890123456789, 345678901234567890)

  datatype RoleNameMap = RoleNameMap(tank: string, heal: string, dps: string)

  /** `ROLE_NAMES`, the role names it falls back to. */
  const ROLE_NAMES := RoleNameMap("Tank", "Heal", "DPS")

  /** `role_label_from_member` for given id and name tables. */
  function RoleLabel(m: Member, ids: RoleIds, names: RoleNameMap): (lbl: string)
  {
    if ids.tank != 0 && HoldsRoleId(m, ids.tank) then "Tank"
    else if ids.heal != 0 && HoldsRoleId(m, ids.heal) then "Heal"
    else if ids.dps != 0 && HoldsRoleId(m, ids.dps) then "DPS"
    else if names.tank != "" && Lower(names.tank) in RoleNames(m) then "Tank"
    else if names.heal != "" && Lower(names.heal) in RoleNames(m) then "Heal"
    else if names.dps != "" && Lower(names.dps) in RoleNames(m) then "DPS"
    else "-"
  }

  /** `role_label_from_member` with the configured tables. */
  function RoleLabelFromMember(m: Member): string
  {
    RoleLabel(m, ROLE_IDS, ROLE_NAMES)
  }

  /** The member holds a configured (non-zero) role id. */
  predicate IdMatch(m: Member, id: int)
  {
    id != 0 && exists r :: r in m.roles && r.id == id
  }

  predicate AnyIdMatch(m: Member, ids: RoleIds)
  {
    IdMatch(m, ids.tank) || IdMatch(m, ids.heal) || IdMatch(m, ids.dps)
  }

  /** Some role of the member is named `name`, ignoring case. */
  predicate NameMatch(m: Member, name: string)
  {
    name != "" && exists r :: r in m.roles && Lower(r.name) == Lower(name)
  }

  lemma NameMatchInNames(m: Member, name: string)
    ensures NameMatch(m, name) <==> name != "" && Lower(name) in RoleNames(m)
  {
    var ns := RoleNames(m);
    if Lower(name) in ns {
      var i :| 0 <= i < |ns| && ns[i] == Lower(name);
      assert m.roles[i] in m.roles;
    }
    if NameMatch(m, name) {
      var r :| r in m.roles && Lower(r.name) == Lower(name);
      var i :| 0 <= i < |m.roles| && m.roles[i] == r;
      assert ns[i] == Lower(name);
    }
  }

  /** The label is one of four; a held configured id always beats every
      name, ids and then names are tried Tank, Heal, DPS, and "-" means
      that nothing matched. */
  lemma RoleLabelSpec(m: Member, ids: RoleIds, names: RoleNameMap)
    ensures var l := RoleLabel(m, ids, names);
            && (l == "Tank" || l == "Heal" || l == "DPS" || l == "-")
            && (l == "Tank" <==> IdMatch(m, ids.tank) || (!AnyIdMatch(m, ids) && NameMatch(m, names.tank)))
            && (l == "Heal" <==>
                  !IdMatch(m, ids.tank) &&
                  (IdMatch(m, ids.heal) || (!AnyIdMatch(m, ids) && !NameMatch(m, names.tank) && NameMatch(m, names.heal))))
            && (l == "DPS" <==>
                  !IdMatch(m, ids.tank) && !IdMatch(m, ids.heal) &&
                  (IdMatch(m, ids.dps) ||
                   (!AnyIdMatch(m, ids) && !NameMatch(m, names.tank) && !NameMatch(m, names.heal) && NameMatch(m, names.dps))))
            && (l == "-" <==>
                  !AnyIdMatch(m, ids) && !NameMatch(m, names.tank) && !NameMatch(m, names.heal) && !NameMatch(m, names.dps))
  {
    NameMatchInNames(m, names.tank);
    NameMatchInNames(m, names.heal);
    NameMatchInNames(m, names.dps);
  }

  /** With every id unset only the role names count: two members whose roles
      have the same lower-cased names get the same label. */
  lemma UnsetIdsUseNamesOnly(m1: Member, m2: Member, names: RoleNameMap)
    requires forall n :: n in RoleNames(m1) <==> n in RoleNames(m2)
    ensures RoleLabel(m1, RoleIds(0, 0, 0), names) == RoleLabel(m2, RoleIds(0, 0, 0), names)
  {
  }

  /** One message's answers: `{"yes": [...], "maybe": [...], "no": [...]}`. */
  datatype Rsvp = Rsvp(yes: seq<int>, maybe: seq<int>, no: seq<int>)

  const EMPTY := Rsvp([], [], [])

  /** The three list names. */
  datatype ListName = Yes | Maybe | No

  /** The order in which the handler visits the lists. */
  const TARGETS := [Yes, Maybe, No]

  /** The list a button's `target_list` string names; `None` for a string
      that fails the handler's assertion. */
  function TargetOf(s: string): (t: Option<ListName>)
  {
    if s == "yes" then Some(Yes) else if s == "maybe" then Some(Maybe) else if s == "no" then Some(No) else None
  }

  function ListOf(r: Rsvp, k: ListName): seq<int>
  {
    match k
    case Yes => r.yes
    case Maybe => r.maybe
    case No => r.no
  }

  function WithList(r: Rsvp, k: ListName, l: seq<int>): Rsvp
  {
    match k
    case Yes => r.(yes := l)
    case Maybe => r.(maybe := l)
    case No => r.(no := l)
  }

  /** `str(message_id)`, the key of a message's record. */
  function Key(msgId: int): string
  {
    IntToString(msgId)
  }

  /** The record `_ensure_event_struct` leaves for the message. */
  function RecordOf(db: map<string, Rsvp>, msgId: int): Rsvp
  {
    if Key(msgId) in db then db[Key(msgId)] else EMPTY
  }

  /** One list after `_set_state(uid, t)`: the user's first occurrence
      removed, and the user appended when this is list `t`. */
  function Rejoined(l: seq<int>, uid: int, here: bool): seq<int>
  {
    RemoveFirst(l, uid) + (if here then [uid] else [])
  }

  /** The record after `_set_state(uid, t)`. */
  function Moved(r: Rsvp, uid: int, t: ListName): Rsvp
  {
    Rsvp(Rejoined(r.yes, uid, t == Yes), Rejoined(r.maybe, uid, t == Maybe), Rejoined(r.no, uid, t == No))
  }

  lemma ListOfMoved(r: Rsvp, uid: int, t: ListName, k: ListName)
    ensures ListOf(Moved(r, uid, t), k) == Rejoined(ListOf(r, k), uid, k == t)
  {
  }

  /** How often the user appears over the three lists. */
  function Total(r: Rsvp, uid: int): nat
  {
    Count(r.yes, uid) + Count(r.maybe, uid) + Count(r.no, uid)
  }

  /** No user answered twice. */
  ghost predicate AtMostOnce(r: Rsvp)
  {
    forall v :: Total(r, v) <= 1
  }

  lemma RejoinedCount(l: seq<int>, uid: int, here: bool, v: int)
    ensures Count(Rejoined(l, uid, here), v) ==
              Count(l, v) - (if v == uid && uid in l then 1 else 0) + (if here && v == uid then 1 else 0)
  {
    var tail := if here then [uid] else [];
    CountAppend(RemoveFirst(l, uid), tail, v);
    CountRemoveFirst(l, uid, v);
    if here {
      assert Count(tail, v) == Count(tail[..0], v) + (if uid == v then 1 else 0);
    }
  }

  lemma RejoinedWithout(l: seq<int>, uid: int, here: bool)
    ensures Without(Rejoined(l, uid, here), uid) == Without(l, uid)
  {
    var tail := if here then [uid] else [];
    WithoutAppend(RemoveFirst(l, uid), tail, uid);
    WithoutRemoveFirst(l, uid);
    if here {
      assert Without(tail, uid) == Without(tail[..0], uid) + [];
    }
  }

  /** After the click the user is the last entry of the chosen list. */
  lemma MovedLast(r: Rsvp, uid: int, t: ListName)
    ensures var l := ListOf(Moved(r, uid, t), t); |l| > 0 && l[|l| - 1] == uid
  {
    ListOfMoved(r, uid, t, t);
  }

  /** A list holding the user at most once holds them once after
      `Rejoined` exactly when it is the chosen list. */
  lemma RejoinedSelf(l: seq<int>, uid: int, here: bool)
    requires Count(l, uid) <= 1
    ensures Count(Rejoined(l, uid, here), uid) == (if here then 1 else 0)
    ensures uid in Rejoined(l, uid, here) <==> here
  {
    RejoinedCount(l, uid, here, uid);
    CountZero(l, uid);
    CountZero(Rejoined(l, uid, here), uid);
  }

  /** Other users' counts are untouched by `Rejoined`. */
  lemma RejoinedOthers(l: seq<int>, uid: int, here: bool)
    ensures forall v :: v != uid ==> Count(Rejoined(l, uid, here), v) == Count(l, v)
  {
    forall v | v != uid
      ensures Count(Rejoined(l, uid, here), v) == Count(l, v)
    {
      RejoinedCount(l, uid, here, v);
    }
  }

  /** A user who appeared at most once appears exactly once afterwards, in
      the chosen list and in no other. (`list.remove` drops only the first
      occurrence, so a user entered twice in one list keeps a copy.) */
  lemma MovedOnce(r: Rsvp, uid: int, t: ListName)
    requires Total(r, uid) <= 1
    ensures Total(Moved(r, uid, t), uid) == 1
    ensures Count(ListOf(Moved(r, uid, t), t), uid) == 1
    ensures forall k :: k != t ==> uid !in ListOf(Moved(r, uid, t), k)
  {
    var m := Moved(r, uid, t);
    RejoinedSelf(r.yes, uid, t == Yes);
    RejoinedSelf(r.maybe, uid, t == Maybe);
    RejoinedSelf(r.no, uid, t == No);
    assert Count(m.yes, uid) + Count(m.maybe, uid) + Count(m.no, uid) == 1;
    forall k | k != t
      ensures uid !in ListOf(m, k)
    {
      ListOfMoved(r, uid, t, k);
    }
  }

  /** Every other user keeps their entries and their order in every list. */
  lemma MovedKeepsOthers(r: Rsvp, uid: int, t: ListName)
    ensures forall k :: Without(ListOf(Moved(r, uid, t), k), uid) == Without(ListOf(r, k), uid)
    ensures forall v :: v != uid ==> Total(Moved(r, uid, t), v) == Total(r, v)
  {
    forall k
      ensures Without(ListOf(Moved(r, uid, t), k), uid) == Without(ListOf(r, k), uid)
    {
      ListOfMoved(r, uid, t, k);
      RejoinedWithout(ListOf(r, k), uid, k == t);
    }
    RejoinedOthers(r.yes, uid, t == Yes);
    RejoinedOthers(r.maybe, uid, t == Maybe);
    RejoinedOthers(r.no, uid, t == No);
  }

  /** Clicking a button keeps every user at most once overall. */
  lemma MovedKeepsAtMostOnce(r: Rsvp, uid: int, t: ListName)
    requires AtMostOnce(r)
    ensures AtMostOnce(Moved(r, uid, t))
  {
    MovedOnce(r, uid, t);
    MovedKeepsOthers(r, uid, t);
  }

  /** Clicking the same button twice is the same as clicking it once, for a
      user who appeared at most once. */
  lemma MovedIdempotent(r: Rsvp, uid: int, t: ListName)
    requires Total(r, uid) <= 1
    ensures Moved(Moved(r, uid, t), uid, t) == Moved(r, uid, t)
  {
    RejoinedIdempotent(r.yes, uid, t == Yes);
    RejoinedIdempotent(r.maybe, uid, t == Maybe);
    RejoinedIdempotent(r.no, uid, t == No);
  }

  lemma RejoinedIdempotent(l: seq<int>, uid: int, here: bool)
    requires Count(l, uid) <= 1
    ensures Rejoined(Rejoined(l, uid, here), uid, here) == Rejoined(l, uid, here)
  {
    var a := RemoveFirst(l, uid);
    CountRemoveFirst(l, uid, uid);
    CountZero(l, uid);
    CountZero(a, uid);
    if here {
      RemoveFirstLast(a, uid);
    }
  }

  lemma {:induction false} RemoveFirstLast(pre: seq<int>, uid: int)
    requires uid !in pre
    ensures RemoveFirst(pre + [uid], uid) == pre
  {
    if |pre| > 0 {
      assert (pre + [uid])[1..] == pre[1..] + [uid];
      RemoveFirstLast(pre[1..], uid);
    }
  }

  /** Without that precondition the second click differs: a user listed
      twice under "yes" who clicks "maybe" twice leaves "yes" only on the
      second click. */
  lemma DuplicateBreaksIdempotence()
    ensures Moved(Moved(Rsvp([7, 7], [], []), 7, Maybe), 7, Maybe) != Moved(Rsvp([7, 7], [], []), 7, Maybe)
  {
    assert Moved(Rsvp([7, 7], [], []), 7, Maybe) == Rsvp([7], [7], []);
    assert Moved(Rsvp([7], [7], []), 7, Maybe) == Rsvp([], [7], []);
  }

  /** The record once the handler's removal loop has visited the first `n`
      of `TARGETS`. */
  function StrippedUpTo(r: Rsvp, uid: int, n: int): Rsvp
  {
    Rsvp(if n > 0 then RemoveFirst(r.yes, uid) else r.yes,
         if n > 1 then RemoveFirst(r.maybe, uid) else r.maybe,
         if n > 2 then RemoveFirst(r.no, uid) else r.no)
  }

  /** One pass of the removal loop: `list.remove` on the next list when the
      user is in it, which is the same as leaving a list without the user. */
  lemma StrippedStep(r: Rsvp, uid: int, i: int)
    requires 0 <= i < |TARGETS|
    ensures var s := StrippedUpTo(r, uid, i);
            var k := TARGETS[i];
            (if uid in ListOf(s, k) then WithList(s, k, RemoveFirst(ListOf(s, k), uid)) else s)
              == StrippedUpTo(r, uid, i + 1)
  {
    var k := TARGETS[i];
    assert ListOf(StrippedUpTo(r, uid, i), k) == ListOf(r, k);
    if uid !in ListOf(r, k) {
      assert RemoveFirst(ListOf(r, k), uid) == ListOf(r, k);
    }
  }

  /** Appending to the target list after the loop yields the moved record. */
  lemma StrippedThenAppended(r: Rsvp, uid: int, t: ListName)
    ensures var s := StrippedUpTo(r, uid, |TARGETS|);
            WithList(s, t, ListOf(s, t) + [uid]) == Moved(r, uid, t)
  {
  }

  /** The records of all event messages (the RSVP file). */
  class RsvpStore {
    var db: map<string, Rsvp>

    constructor(db0: map<string, Rsvp>)
      ensures db == db0
    {
      db := db0;
    }

    /** `_ensure_event_struct`: an empty record for a new message; an existing
        record is left alone, so a second call changes nothing. */
    method EnsureEventStruct(msgId: int)
      modifies this
      ensures Key(msgId) in old(db) ==> db == old(db)
      ensures Key(msgId) !in old(db) ==> db == old(db)[Key(msgId) := EMPTY]
      ensures Key(msgId) in db && db[Key(msgId)] == RecordOf(old(db), msgId)
    {
      var key := Key(msgId);
      if key !in db {
        db := db[key := EMPTY];
      }
    }

    /** `RSVPView._set_state`: an unknown list name fails its assertion before
        anything is read or written; otherwise the message's record (created
        if missing) becomes `Moved(...)` and every other record stays. */
    method SetState(msgId: int, uid: int, target: string) returns (accepted: bool)
      modifies this
      ensures accepted <==> TargetOf(target).Some?
      ensures !accepted ==> db == old(db)
      ensures accepted ==> db == old(db)[Key(msgId) := Moved(RecordOf(old(db), msgId), uid, TargetOf(target).value)]
    {
      var t := TargetOf(target);
      if t.None? {
        return false;
      }
      EnsureEventStruct(msgId);
      var key := Key(msgId);
      var rec0 := db[key];
      var rec := rec0;
      ghost var db1 := db;
      for i := 0 to |TARGETS|
        invariant rec == StrippedUpTo(rec0, uid, i)
        invariant db == db1
      {
        var k := TARGETS[i];
        if uid in ListOf(rec, k) {
          rec := WithList(rec, k, RemoveFirst(ListOf(rec, k), uid));
        }
        StrippedStep(rec0, uid, i);
      }
      StrippedThenAppended(rec0, uid, t.value);
      rec := WithList(rec, t.value, ListOf(rec, t.value) + [uid]);
      db := db[key := rec];
      accepted := true;
    }
  }

  /** Role tallies of the attendee summary. */
  datatype RoleCounts = RoleCounts(tank: nat, heal: nat, dps: nat)

  /** `[uid for uid in ids if guild.get_member(uid)]`: the users still in
      the guild, in list order. */
  function Found(ids: seq<int>, members: map<int, Member>): seq<int>
  {
    if |ids| == 0 then []
    else Found(ids[..|ids| - 1], members) + (if ids[|ids| - 1] in members then [ids[|ids| - 1]] else [])
  }

  /** Users who left the guild are skipped, nobody else is, and the order
      is kept. */
  lemma {:induction false} FoundSpec(ids: seq<int>, members: map<int, Member>)
    ensures forall u :: u in Found(ids, members) <==> u in ids && u in members
    ensures |Found(ids, members)| <= |ids|
    ensures forall u :: u in ids && u in members ==> Count(Found(ids, members), u) == Count(ids, u)
  {
    if |ids| > 0 {
      var pre := ids[..|ids| - 1];
      var last := ids[|ids| - 1];
      FoundSpec(pre, members);
      assert ids == pre + [last];
      var tail := if last in members then [last] else [];
      forall u | u in ids && u in members
        ensures Count(Found(ids, members), u) == Count(ids, u)
      {
        CountAppend(Found(pre, members), tail, u);
        CountAppend(pre, [last], u);
        assert Count([last], u) == Count([last][..0], u) + (if last == u then 1 else 0);
        if last in members {
          assert Count(tail, u) == Count([last], u);
        }
        if u !in pre {
          CountZero(pre, u);
          CountZero(Found(pre, members), u);
        }
      }
    }
  }

  /** `if lbl in role_counts: role_counts[lbl] += 1` */
  function Bump(c: RoleCounts, lbl: string): RoleCounts
  {
    if lbl == "Tank" then c.(tank := c.tank + 1)
    else if lbl == "Heal" then c.(heal := c.heal + 1)
    else if lbl == "DPS" then c.(dps := c.dps + 1)
    else c
  }

  /** The role tallies over the "yes" list. */
  function Tally(ids: seq<int>, members: map<int, Member>): RoleCounts
  {
    if |ids| == 0 then RoleCounts(0, 0, 0)
    else
      var c := Tally(ids[..|ids| - 1], members);
      var u := ids[|ids| - 1];
      if u in members then Bump(c, RoleLabelFromMember(members[u])) else c
  }

  /** The three tallies never add up to more than the attendees shown: each
      present member counts at most once, and members labelled "-" not at
      all. */
  lemma {:induction false} TallyBound(ids: seq<int>, members: map<int, Member>)
    ensures var c := Tally(ids, members); c.tank + c.heal + c.dps <= |Found(ids, members)|
  {
    if |ids| > 0 {
      TallyBound(ids[..|ids| - 1], members);
    }
  }

  /** The suffix behind a "maybe" user's mention. */
  function MaybeSuffix(m: Member): (s: string)
  {
    var lbl := RoleLabelFromMember(m);
    if lbl != "-" then " (" + lbl + ")" else ""
  }

  /** A "maybe" line shows a role exactly when the member has a label. */
  lemma MaybeSuffixSpec(m: Member)
    ensures MaybeSuffix(m) == "" <==> RoleLabelFromMember(m) == "-"
    ensures MaybeSuffix(m) != "" ==> MaybeSuffix(m) == " (" + RoleLabelFromMember(m) + ")"
  {
    var lbl := RoleLabelFromMember(m);
    if lbl != "-" {
      assert |MaybeSuffix(m)| == |lbl| + 3;
    }
  }

  /** The lines of the "maybe" field: present users with their suffixes. */
  function MaybeLines(ids: seq<int>, members: map<int, Member>): (ls: seq<(int, string)>)
  {
    if |ids| == 0 then []
    else
      var u := ids[|ids| - 1];
      MaybeLines(ids[..|ids| - 1], members) + (if u in members then [(u, MaybeSuffix(members[u]))] else [])
  }

  /** One line per present user, in order, each carrying that member's
      suffix. */
  lemma {:induction false} MaybeLinesSpec(ids: seq<int>, members: map<int, Member>)
    ensures var ls := MaybeLines(ids, members); var fs := Found(ids, members);
            && |ls| == |fs|
            && forall i :: 0 <= i < |ls| ==> ls[i].0 == fs[i] && fs[i] in members && ls[i].1 == MaybeSuffix(members[fs[i]])
  {
    if |ids| > 0 {
      MaybeLinesSpec(ids[..|ids| - 1], members);
    }
  }

  /** The counting and filtering of `_render_embed_and_update` for one
      record: the attendees in the guild with their role tallies, the
      "maybe" lines and the users who declined, members not found skipped
      in all three. */
  method RenderSummary(rec: Rsvp, members: map<int, Member>)
    returns (counts: RoleCounts, attendees: seq<int>, maybeLines: seq<(int, string)>, declined: seq<int>)
    ensures attendees == Found(rec.yes, members) && counts == Tally(rec.yes, members)
    ensures counts.tank + counts.heal + counts.dps <= |attendees|
    ensures maybeLines == MaybeLines(rec.maybe, members)
    ensures declined == Found(rec.no, members)
  {
    counts := RoleCounts(0, 0, 0);
    attendees := [];
    for i := 0 to |rec.yes|
      invariant attendees == Found(rec.yes[..i], members)
      invariant counts == Tally(rec.yes[..i], members)
    {
      var uid := rec.yes[i];
      assert rec.yes[..i + 1][..i] == rec.yes[..i];
      if uid in members {
        var lbl := RoleLabelFromMember(members[uid]);
        counts := Bump(counts, lbl);
        attendees := attendees + [uid];
      }
    }
    assert rec.yes[..|rec.yes|] == rec.yes;
    TallyBound(rec.yes, members);
    maybeLines := [];
    for i := 0 to |rec.maybe|
      invariant maybeLines == MaybeLines(rec.maybe[..i], members)
    {
      var uid := rec.maybe[i];
      assert rec.maybe[..i + 1][..i] == rec.maybe[..i];
      if uid in members {
        maybeLines := maybeLines + [(uid, MaybeSuffix(members[uid]))];
      }
    }
    assert rec.maybe[..|rec.maybe|] == rec.maybe;
    declined := Found(rec.no, members);
  }
}
