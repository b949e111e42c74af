/** The RSVP flow by direct message: per overview message a JSON record with
    the TANK/HEAL/DPS sign-ups, the "maybe" users with a role hint and the
    users who declined; the normalisation of a stored record, the per-guild
    role configuration, the role hint of a member and the button handler
    that moves a user into one bucket. */
module RsvpDm {
  import opened Wrappers
  import opened Text
  import opened Lists
  import opened Roles

  /** A JSON value as `json.loads` returns it (floats are not modelled). */
  datatype Json =
    | JNull
    | JBool(b: bool)
    | JInt(i: int)
    | JStr(s: string)
    | JList(items: seq<Json>)
    | JObj(fields: map<string, Json>)

  /** An event record, a JSON object. */
  type Record = map<string, Json>

  /** Python's truth value of a JSON value. */
  predicate Truthy(j: Json)
  {
    match j
    case JNull => false
    case JBool(b) => b
    case JInt(i) => i != 0
    case JStr(s) => s != ""
    case JList(l) => |l| > 0
    case JObj(f) => |f| > 0
  }

  /** Python's `int(j)`; `None` stands for the exception it raises. */
  function ToInt(j: Json): Option<int>
  {
    match j
    case JBool(b) => Some(if b then 1 else 0)
    case JInt(i) => Some(i)
    case JStr(s) => ParseInt(s)
    case _ => None
  }

  // ---------------------------------------------------------------- shape

  datatype Bucket = Tank | Heal | Dps

  /** The key of a bucket in the `yes` object. */
  function BucketKey(b: Bucket): (k: string)
  {
    match b
    case Tank => "TANK"
    case Heal => "HEAL"
    case Dps => "DPS"
  }

  predicate IsBucketKey(k: string)
  {
    k == "TANK" || k == "HEAL" || k == "DPS"
  }

  /** The buckets in the order the code visits them. */
  const BUCKETS := [Tank, Heal, Dps]

  /** The record has the structure the handler relies on. */
  predicate WellShaped(obj: Record)
  {
    && "yes" in obj && obj["yes"].JObj?
    && (forall b :: BucketKey(b) in obj["yes"].fields && obj["yes"].fields[BucketKey(b)].JList?)
    && "maybe" in obj && obj["maybe"].JObj?
    && "no" in obj && obj["no"].JList?
    && "target_role_id" in obj
  }

  /** The `yes` object the bucket loop starts from. */
  function BaseYes(obj: Record): map<string, Json>
  {
    if "yes" in obj && obj["yes"].JObj? then obj["yes"].fields
    else map["TANK" := JList([]), "HEAL" := JList([]), "DPS" := JList([])]
  }

  /** One round of the bucket loop. */
  function FixBucket(y: map<string, Json>, b: Bucket): map<string, Json>
  {
    if BucketKey(b) in y && y[BucketKey(b)].JList? then y else y[BucketKey(b) := JList([])]
  }

  /** The bucket loop over `bs`, in order. */
  function FixBuckets(y: map<string, Json>, bs: seq<Bucket>): map<string, Json>
  {
    if |bs| == 0 then y else FixBucket(FixBuckets(y, bs[..|bs| - 1]), bs[|bs| - 1])
  }

  /** The record `_init_event_shape` leaves behind. */
  function Shaped(obj: Record): Record
  {
    obj["yes" := JObj(FixBuckets(BaseYes(obj), BUCKETS))]
       ["maybe" := if "maybe" in obj && obj["maybe"].JObj? then obj["maybe"] else JObj(map[])]
       ["no" := if "no" in obj && obj["no"].JList? then obj["no"] else JList([])]
       ["target_role_id" := if "target_role_id" in obj then obj["target_role_id"] else JInt(0)]
  }

  /** `_init_event_shape`, which rewrites the record in place. */
  method InitEventShape(obj: Record) returns (r: Record)
    ensures r == Shaped(obj)
  {
    r := obj;
    if !("yes" in r && r["yes"].JObj?) {
      r := r["yes" := JObj(map["TANK" := JList([]), "HEAL" := JList([]), "DPS" := JList([])])];
    }
    assert r == obj["yes" := JObj(BaseYes(obj))];
    for i := 0 to |BUCKETS|
      invariant r == obj["yes" := JObj(FixBuckets(BaseYes(obj), BUCKETS[..i]))]
    {
      var k := BucketKey(BUCKETS[i]);
      var yes := r["yes"].fields;
      assert BUCKETS[..i + 1][..i] == BUCKETS[..i];
      if !(k in yes && yes[k].JList?) {
        r := r["yes" := JObj(yes[k := JList([])])];
      }
    }
    assert BUCKETS[..|BUCKETS|] == BUCKETS;
    ghost var r1 := r;
    if !("maybe" in r && r["maybe"].JObj?) {
      r := r["maybe" := JObj(map[])];
    }
    assert r == r1["maybe" := if "maybe" in obj && obj["maybe"].JObj? then obj["maybe"] else JObj(map[])];
    ghost var r2 := r;
    if !("no" in r && r["no"].JList?) {
      r := r["no" := JList([])];
    }
    assert r == r2["no" := if "no" in obj && obj["no"].JList? then obj["no"] else JList([])];
    ghost var r3 := r;
    if "target_role_id" !in r {
      r := r["target_role_id" := JInt(0)];
    }
    assert r == r3["target_role_id" := if "target_role_id" in obj then obj["target_role_id"] else JInt(0)];
  }

  lemma {:induction false} FixBucketsSpec(y: map<string, Json>, bs: seq<Bucket>)
    ensures var r := FixBuckets(y, bs);
            && (forall k :: k in r <==> k in y || exists b :: b in bs && k == BucketKey(b))
            && (forall b :: b in bs ==> r[BucketKey(b)].JList?)
            && (forall k :: k in y && (y[k].JList? || !IsBucketKey(k)) ==> r[k] == y[k])
  {
    if |bs| > 0 {
      var pre := bs[..|bs| - 1];
      FixBucketsSpec(y, pre);
      assert bs == pre + [bs[|bs| - 1]];
    }
  }

  /** After `_init_event_shape` the record has its structure: `yes` holds
      list-valued TANK, HEAL and DPS, `maybe` is an object, `no` a list and
      `target_role_id` is present. */
  lemma ShapedWellShaped(obj: Record)
    ensures WellShaped(Shaped(obj))
  {
    FixBucketsSpec(BaseYes(obj), BUCKETS);
    forall b: Bucket
      ensures b in BUCKETS
    {
      assert b == BUCKETS[if b == Tank then 0 else if b == Heal then 1 else 2];
    }
  }

  /** Whatever was already well-formed is left alone: every other field of
      the record and of its `yes` object, a list-valued bucket, an object
      `maybe`, a list `no` and a present `target_role_id`; the record only
      gains the four structural fields. */
  lemma ShapedKeeps(obj: Record)
    ensures var s := Shaped(obj);
            && (forall k :: k in s <==> k in obj || k in {"yes", "maybe", "no", "target_role_id"})
            && (forall k :: k in obj && k !in {"yes", "maybe", "no", "target_role_id"} ==> s[k] == obj[k])
            && ("maybe" in obj && obj["maybe"].JObj? ==> s["maybe"] == obj["maybe"])
            && ("no" in obj && obj["no"].JList? ==> s["no"] == obj["no"])
            && ("target_role_id" in obj ==> s["target_role_id"] == obj["target_role_id"])
            && ("yes" in obj && obj["yes"].JObj? ==>
                  var y := obj["yes"].fields;
                  forall k :: k in y && (y[k].JList? || !IsBucketKey(k)) ==> k in s["yes"].fields && s["yes"].fields[k] == y[k])
  {
    FixBucketsSpec(BaseYes(obj), BUCKETS);
  }

  /** A well-shaped record is a fixed point, so `_init_event_shape` is
      idempotent. */
  lemma ShapedIdempotent(obj: Record)
    ensures WellShaped(obj) ==> Shaped(obj) == obj
    ensures Shaped(Shaped(obj)) == Shaped(obj)
  {
    forall o: Record | WellShaped(o)
      ensures Shaped(o) == o
    {
      var y := o["yes"].fields;
      FixBucketsSpec(y, BUCKETS);
      var r := FixBuckets(y, BUCKETS);
      assert forall b :: BucketKey(b) in y;
      assert forall k :: k in r ==> k in y;
      forall k | k in y
        ensures r[k] == y[k]
      {
        if IsBucketKey(k) {
          var b := if k == "TANK" then Tank else if k == "HEAL" then Heal else Dps;
          assert BucketKey(b) == k;
          assert y[k].JList?;
        }
      }
      assert r == y;
    }
    ShapedWellShaped(obj);
  }

  // ------------------------------------------------------ role configuration

  /** `str(guild_id)` for a guild id read from a record: ints and strings;
      other JSON values give `None`, treated as a missing configuration. */
  function StrKey(j: Json): Option<string>
  {
    match j
    case JInt(i) => Some(IntToString(i))
    case JStr(s) => Some(s)
    case _ => None
  }

  /** `int(g.get(k, 0) or 0)`: a missing or falsy entry is 0. */
  function RoleIdOf(g: map<string, Json>, k: string): Option<int>
  {
    if k !in g || !Truthy(g[k]) then Some(0) else ToInt(g[k])
  }

  /** `get_role_ids_for_guild`: the guild's entry of the role configuration,
      an empty one when missing or falsy; `None` when the entry is not an
      object or one of its ids does not convert. */
  function GetRoleIdsForGuild(cfg: map<string, Json>, guildId: Json): Option<RoleIds>
  {
    var g :=
      match StrKey(guildId)
      case Some(k) => if k in cfg && Truthy(cfg[k]) then cfg[k] else JObj(map[])
      case None => JObj(map[]);
    if !g.JObj? then None
    else
      match (RoleIdOf(g.fields, "TANK"), RoleIdOf(g.fields, "HEAL"), RoleIdOf(g.fields, "DPS"))
      case (Some(t), Some(h), Some(d)) => Some(RoleIds(t, h, d))
      case _ => None
  }

  /** No configuration, or an empty one, maps every role to 0. */
  lemma RoleIdsDefault(cfg: map<string, Json>, gid: int)
    requires IntToString(gid) !in cfg || !Truthy(cfg[IntToString(gid)])
    ensures GetRoleIdsForGuild(cfg, JInt(gid)) == Some(RoleIds(0, 0, 0))
  {
  }

  /** Missing or empty entries inside a configuration read as 0, stored ids
      as themselves. */
  lemma RoleIdOfSpec(g: map<string, Json>, k: string)
    ensures k !in g || g[k] == JNull || g[k] == JInt(0) || g[k] == JStr("") ==> RoleIdOf(g, k) == Some(0)
    ensures forall i :: k in g && g[k] == JInt(i) ==> RoleIdOf(g, k) == Some(i)
  {
  }

  /** The write of the role-setting command: the guild's entry (a new one if
      missing or falsy) gets the three ids; `None` where the entry is not an
      object and the item assignment raises. */
  function StoreRoleIds(cfg: map<string, Json>, gid: int, ids: RoleIds): Option<map<string, Json>>
  {
    var k := IntToString(gid);
    var c := if k in cfg && Truthy(cfg[k]) then cfg[k] else JObj(map[]);
    if !c.JObj? then None
    else Some(cfg[k := JObj(c.fields["TANK" := JInt(ids.tank)]["HEAL" := JInt(ids.heal)]["DPS" := JInt(ids.dps)])])
  }

  /** The lookup reads back what the role-setting command stored. */
  lemma StoreThenGetRoleIds(cfg: map<string, Json>, gid: int, ids: RoleIds)
    requires StoreRoleIds(cfg, gid, ids).Some?
    ensures GetRoleIdsForGuild(StoreRoleIds(cfg, gid, ids).value, JInt(gid)) == Some(ids)
  {
    var k := IntToString(gid);
    var c := if k in cfg && Truthy(cfg[k]) then cfg[k] else JObj(map[]);
    var f := c.fields["TANK" := JInt(ids.tank)]["HEAL" := JInt(ids.heal)]["DPS" := JInt(ids.dps)];
    assert "TANK" in f && f["TANK"] == JInt(ids.tank);
    assert "HEAL" in f && f["HEAL"] == JInt(ids.heal);
    assert "DPS" in f && f["DPS"] == JInt(ids.dps);
  }

  // ----------------------------------------------------------- role hint

  /** `r = member.guild.get_role(rid); r and r in member.roles`: the guild
      has a role of that id and the member holds it. */
  predicate HasGuildRole(m: Member, guildRoles: set<int>, rid: int)
  {
    rid in guildRoles && HoldsRoleId(m, rid)
  }

  /** Some lower-cased role name of the member contains `sub`. */
  predicate AnyNameContains(m: Member, sub: string)
  {
    exists n :: n in RoleNames(m) && Contains(n, sub)
  }

  /** `_primary_label` */
  function PrimaryLabel(member: Option<Member>, guildRoles: set<int>, rids: RoleIds): string
  {
    match member
    case None => ""
    case Some(m) =>
      if HasGuildRole(m, guildRoles, rids.tank) then "Tank"
      else if HasGuildRole(m, guildRoles, rids.heal) then "Heal"
      else if HasGuildRole(m, guildRoles, rids.dps) then "DPS"
      else if AnyNameContains(m, "tank") then "Tank"
      else if AnyNameContains(m, "heal") then "Heal"
      else if AnyNameContains(m, "dps") || AnyNameContains(m, "dd") then "DPS"
      else ""
  }

  predicate AnyGuildRole(m: Member, guildRoles: set<int>, rids: RoleIds)
  {
    HasGuildRole(m, guildRoles, rids.tank) || HasGuildRole(m, guildRoles, rids.heal) || HasGuildRole(m, guildRoles, rids.dps)
  }

  /** The hint is "" for an unknown member; configured roles decide first,
      Tank before Heal before DPS; only then do the role names count, by
      substring and in the same order, "dd" also meaning DPS; "" when
      nothing matches. */
  lemma PrimaryLabelSpec(member: Option<Member>, guildRoles: set<int>, rids: RoleIds)
    ensures var l := PrimaryLabel(member, guildRoles, rids);
            && (l == "" || l == "Tank" || l == "Heal" || l == "DPS")
            && (member.None? ==> l == "")
            && (member.Some? ==>
                  var m := member.value;
                  var byName := !AnyGuildRole(m, guildRoles, rids);
                  && (l == "Tank" <==> HasGuildRole(m, guildRoles, rids.tank) || (byName && AnyNameContains(m, "tank")))
                  && (l == "Heal" <==>
                        !HasGuildRole(m, guildRoles, rids.tank) &&
                        (HasGuildRole(m, guildRoles, rids.heal) ||
                         (byName && !AnyNameContains(m, "tank") && AnyNameContains(m, "heal"))))
                  && (l == "DPS" <==>
                        !HasGuildRole(m, guildRoles, rids.tank) && !HasGuildRole(m, guildRoles, rids.heal) &&
                        (HasGuildRole(m, guildRoles, rids.dps) ||
                         (byName && !AnyNameContains(m, "tank") && !AnyNameContains(m, "heal") &&
                          (AnyNameContains(m, "dps") || AnyNameContains(m, "dd"))))))
  {
  }

  // --------------------------------------------------------- the handler

  /** `[int(u) for u in items]`; `None` when some `int()` raises. */
  function Coerce(items: seq<Json>): Option<seq<int>>
  {
    if |items| == 0 then Some([])
    else
      match (Coerce(items[..|items| - 1]), ToInt(items[|items| - 1]))
      case (Some(xs), Some(x)) => Some(xs + [x])
      case _ => None
  }

  /** A list of ints as JSON. */
  function Ints(xs: seq<int>): (js: seq<Json>)
    ensures |js| == |xs| && forall i :: 0 <= i < |xs| ==> js[i] == JInt(xs[i])
  {
    seq(|xs|, i requires 0 <= i < |xs| => JInt(xs[i]))
  }

  /** A list converts exactly when every entry does, entry by entry. */
  lemma {:induction false} CoerceSpec(items: seq<Json>)
    ensures Coerce(items).Some? <==> forall i :: 0 <= i < |items| ==> ToInt(items[i]).Some?
    ensures Coerce(items).Some? ==>
              |Coerce(items).value| == |items| &&
              forall i :: 0 <= i < |items| ==> Coerce(items).value[i] == ToInt(items[i]).value
  {
    if |items| > 0 {
      CoerceSpec(items[..|items| - 1]);
    }
  }

  /** A list of ints converts to itself. */
  lemma CoerceInts(xs: seq<int>)
    ensures Coerce(Ints(xs)) == Some(xs)
  {
    CoerceSpec(Ints(xs));
    assert Coerce(Ints(xs)).value == xs;
  }

  /** `[int(u) for u in items if int(u) != uid]` */
  function Kept(items: seq<Json>, uid: int): Option<seq<Json>>
  {
    match Coerce(items)
    case None => None
    case Some(xs) => Some(Ints(Without(xs, uid)))
  }

  function YesList(obj: Record, b: Bucket): seq<Json>
    requires WellShaped(obj)
  {
    obj["yes"].fields[BucketKey(b)].items
  }

  /** `obj["yes"][k] = items`, which keeps the record well-shaped. */
  function SetYes(obj: Record, b: Bucket, items: seq<Json>): (r: Record)
    requires WellShaped(obj)
    ensures WellShaped(r)
  {
    obj["yes" := JObj(obj["yes"].fields[BucketKey(b) := JList(items)])]
  }

  function NoList(obj: Record): seq<Json>
    requires WellShaped(obj)
  {
    obj["no"].items
  }

  /** A record together with whether the handler got through without an
      exception. */
  datatype Change = Change(record: Record, ok: bool)

  /** The removal loop over the buckets `bs`; it stops at the first bucket
      with an entry `int()` rejects, keeping what it rewrote before. */
  function StripBuckets(obj: Record, uid: int, bs: seq<Bucket>): (c: Change)
    requires WellShaped(obj)
    ensures WellShaped(c.record)
  {
    if |bs| == 0 then Change(obj, true)
    else
      match Kept(YesList(obj, bs[0]), uid)
      case None => Change(obj, false)
      case Some(l) => StripBuckets(SetYes(obj, bs[0], l), uid, bs[1..])
  }

  /** Two records agree outside the buckets of their `yes` objects. */
  ghost predicate SameBesideBuckets(a: Record, b: Record)
    requires WellShaped(a) && WellShaped(b)
  {
    && (forall k :: k in a <==> k in b)
    && (forall k :: k in a && k != "yes" ==> a[k] == b[k])
    && (forall k :: !IsBucketKey(k) ==> (k in a["yes"].fields <==> k in b["yes"].fields))
    && (forall k :: k in a["yes"].fields && !IsBucketKey(k) ==> a["yes"].fields[k] == b["yes"].fields[k])
  }

  /** The removal loop succeeds exactly when every visited bucket converts;
      then each visited bucket is its converted list without the user, the
      others are as they were, and so is everything outside the buckets. */
  lemma {:induction false} StripBucketsSpec(obj: Record, uid: int, bs: seq<Bucket>)
    requires WellShaped(obj)
    requires forall i, j :: 0 <= i < j < |bs| ==> bs[i] != bs[j]
    ensures var c := StripBuckets(obj, uid, bs);
            && (c.ok <==> forall b :: b in bs ==> Coerce(YesList(obj, b)).Some?)
            && (c.ok ==> forall b :: b in bs ==> YesList(c.record, b) == Ints(Without(Coerce(YesList(obj, b)).value, uid)))
            && (c.ok ==> forall b :: b !in bs ==> YesList(c.record, b) == YesList(obj, b))
            && (c.ok ==> SameBesideBuckets(obj, c.record))
  {
    if |bs| > 0 {
      var b0 := bs[0];
      match Kept(YesList(obj, b0), uid)
      case None =>
      case Some(l) =>
        var o1 := SetYes(obj, b0, l);
        StripBucketsSpec(o1, uid, bs[1..]);
        assert forall b :: b in bs <==> b == b0 || b in bs[1..];
        assert b0 !in bs[1..] by {
          forall j | 0 <= j < |bs[1..]|
            ensures bs[1..][j] != b0
          {
            assert bs[j + 1] != bs[0];
          }
        }
        forall b | b != b0
          ensures YesList(o1, b) == YesList(obj, b)
        {
          assert BucketKey(b) != BucketKey(b0);
        }
        var c := StripBuckets(o1, uid, bs[1..]);
        if c.ok {
          assert YesList(c.record, b0) == YesList(o1, b0);
          forall k | !IsBucketKey(k)
            ensures k != BucketKey(b0)
          {
          }
        }
    }
  }

  /** `obj["no"] = [...]`, the `int()` conversion of `no` without the user. */
  function StripNo(obj: Record, uid: int): (c: Change)
    requires WellShaped(obj)
    ensures WellShaped(c.record)
  {
    match Kept(NoList(obj), uid)
    case None => Change(obj, false)
    case Some(l) => Change(obj["no" := JList(l)], true)
  }

  /** `obj["maybe"].pop(str(uid), None)` */
  function PopMaybe(obj: Record, uid: int): (r: Record)
    requires WellShaped(obj)
    ensures WellShaped(r)
  {
    obj["maybe" := JObj(obj["maybe"].fields - {IntToString(uid)})]
  }

  /** The bucket a group name selects. */
  function BucketOf(group: string): Option<Bucket>
  {
    if group == "TANK" then Some(Tank)
    else if group == "HEAL" then Some(Heal)
    else if group == "DPS" then Some(Dps)
    else None
  }

  /** The role hint of the MAYBE branch: `obj["guild_id"]` (a `KeyError` when
      missing), the guild's role ids, then `_primary_label`. */
  function MaybeLabel(obj: Record, member: Option<Member>, guildRoles: set<int>, cfg: map<string, Json>): Option<string>
  {
    if "guild_id" !in obj then None
    else
      match GetRoleIdsForGuild(cfg, obj["guild_id"])
      case None => None
      case Some(rids) => Some(PrimaryLabel(member, guildRoles, rids))
  }

  /** The removal steps of `RaidView._update` by user `uid` get through. */
  predicate RemovalOk(obj0: Record, uid: int)
  {
    ShapedWellShaped(obj0);
    var c1 := StripBuckets(Shaped(obj0), uid, BUCKETS);
    c1.ok && StripNo(c1.record, uid).ok
  }

  /** The record after the removal steps: shaped, the user gone from every
      bucket, from `no` and from `maybe`. */
  function Removed(obj0: Record, uid: int): (o: Record)
    requires RemovalOk(obj0, uid)
    ensures WellShaped(o)
  {
    ShapedWellShaped(obj0);
    PopMaybe(StripNo(StripBuckets(Shaped(obj0), uid, BUCKETS).record, uid).record, uid)
  }

  /** The entry step of `RaidView._update`: the user goes last into the
      chosen bucket, into `maybe` with the role hint, or last into `no`; any
      other group enters the user nowhere. */
  function Placed(o: Record, uid: int, group: string, member: Option<Member>,
                  guildRoles: set<int>, cfg: map<string, Json>): (c: Change)
    requires WellShaped(o)
    ensures WellShaped(c.record)
  {
    match BucketOf(group)
    case Some(b) => Change(SetYes(o, b, YesList(o, b) + [JInt(uid)]), true)
    case None =>
      if group == "MAYBE" then
        match MaybeLabel(o, member, guildRoles, cfg)
        case None => Change(o, false)
        case Some(l) => Change(o["maybe" := JObj(o["maybe"].fields[IntToString(uid) := JStr(l)])], true)
      else if group == "NO" then Change(o["no" := JList(NoList(o) + [JInt(uid)])], true)
      else Change(o, true)
  }

  /** The record after `RaidView._update(group)` by user `uid`, and whether
      it got through; an exception keeps what was rewritten before it. */
  function UpdateRecord(obj0: Record, uid: int, group: string, member: Option<Member>,
                        guildRoles: set<int>, cfg: map<string, Json>): (c: Change)
    ensures WellShaped(c.record)
  {
    ShapedWellShaped(obj0);
    var c1 := StripBuckets(Shaped(obj0), uid, BUCKETS);
    if !c1.ok then c1
    else
      var c2 := StripNo(c1.record, uid);
      if !c2.ok then c2
      else Placed(PopMaybe(c2.record, uid), uid, group, member, guildRoles, cfg)
  }

  /** A bucket's ids, converted by `int()`. */
  function YesIds(obj: Record, b: Bucket): Option<seq<int>>
    requires WellShaped(obj)
  {
    Coerce(YesList(obj, b))
  }

  /** The ids of `no`, converted by `int()`. */
  function NoIds(obj: Record): Option<seq<int>>
    requires WellShaped(obj)
  {
    Coerce(NoList(obj))
  }

  lemma EveryBucket(b: Bucket)
    ensures b in BUCKETS
  {
    assert b == BUCKETS[if b == Tank then 0 else if b == Heal then 1 else 2];
  }

  /** The bucket loop over all three buckets. */
  lemma StripAllSpec(s: Record, uid: int)
    requires WellShaped(s)
    ensures var c1 := StripBuckets(s, uid, BUCKETS);
            && (c1.ok <==> forall b :: YesIds(s, b).Some?)
            && (c1.ok ==> forall b :: YesList(c1.record, b) == Ints(Without(YesIds(s, b).value, uid)))
            && (c1.ok ==> SameBesideBuckets(s, c1.record))
  {
    StripBucketsSpec(s, uid, BUCKETS);
    forall b: Bucket
      ensures b in BUCKETS
    {
      EveryBucket(b);
    }
    if !StripBuckets(s, uid, BUCKETS).ok {
      var b :| b in BUCKETS && Coerce(YesList(s, b)).None?;
      assert YesIds(s, b).None?;
    }
  }

  /** The removal steps get through exactly when every bucket and `no`
      convert. */
  lemma RemovalOkSpec(obj0: Record, uid: int)
    ensures WellShaped(Shaped(obj0))
    ensures RemovalOk(obj0, uid) <==> (forall b :: YesIds(Shaped(obj0), b).Some?) && NoIds(Shaped(obj0)).Some?
  {
    ShapedWellShaped(obj0);
    var s := Shaped(obj0);
    StripAllSpec(s, uid);
    var c1 := StripBuckets(s, uid, BUCKETS);
    if c1.ok {
      assert NoList(c1.record) == NoList(s);
    }
  }

  /** After the removal steps the buckets and `no` hold their converted ids
      without the user, `maybe` has lost the user's key, and everything else
      is as `_init_event_shape` left it. */
  lemma RemovedSpec(obj0: Record, uid: int)
    requires RemovalOk(obj0, uid)
    ensures WellShaped(Shaped(obj0))
    ensures var s := Shaped(obj0); var o := Removed(obj0, uid);
            && (forall b :: YesIds(s, b).Some? && YesList(o, b) == Ints(Without(YesIds(s, b).value, uid)))
            && NoIds(s).Some? && NoList(o) == Ints(Without(NoIds(s).value, uid))
            && o["maybe"].fields == s["maybe"].fields - {IntToString(uid)}
            && (forall k :: k in o <==> k in s)
            && (forall k :: k in s && k != "yes" && k != "maybe" && k != "no" ==> o[k] == s[k])
            && (forall k :: !IsBucketKey(k) ==> (k in o["yes"].fields <==> k in s["yes"].fields))
            && (forall k :: k in s["yes"].fields && !IsBucketKey(k) ==> o["yes"].fields[k] == s["yes"].fields[k])
  {
    RemovalOkSpec(obj0, uid);
    var s := Shaped(obj0);
    StripAllSpec(s, uid);
    RemovalTail(s, StripBuckets(s, uid, BUCKETS).record, uid);
  }

  /** The steps after the bucket loop: `no` loses the user, then `maybe`. */
  lemma RemovalTail(s: Record, o1: Record, uid: int)
    requires WellShaped(s) && WellShaped(o1) && SameBesideBuckets(s, o1)
    requires forall b :: YesIds(s, b).Some? && YesList(o1, b) == Ints(Without(YesIds(s, b).value, uid))
    requires StripNo(o1, uid).ok
    ensures var o := PopMaybe(StripNo(o1, uid).record, uid);
            && (forall b :: YesIds(s, b).Some? && YesList(o, b) == Ints(Without(YesIds(s, b).value, uid)))
            && NoIds(s).Some? && NoList(o) == Ints(Without(NoIds(s).value, uid))
            && o["maybe"].fields == s["maybe"].fields - {IntToString(uid)}
            && (forall k :: k in o <==> k in s)
            && (forall k :: k in s && k != "yes" && k != "maybe" && k != "no" ==> o[k] == s[k])
            && (forall k :: !IsBucketKey(k) ==> (k in o["yes"].fields <==> k in s["yes"].fields))
            && (forall k :: k in s["yes"].fields && !IsBucketKey(k) ==> o["yes"].fields[k] == s["yes"].fields[k])
  {
    assert NoList(o1) == NoList(s);
  }

  /** The entry step on a record without the user. */
  lemma PlacedSpec(o: Record, uid: int, group: string, member: Option<Member>, guildRoles: set<int>, cfg: map<string, Json>)
    requires WellShaped(o)
    ensures var c := Placed(o, uid, group, member, guildRoles, cfg); var r := c.record; var key := IntToString(uid);
            && (c.ok <==> group == "MAYBE" ==> MaybeLabel(o, member, guildRoles, cfg).Some?)
            && (c.ok ==>
                  && (forall b :: YesList(r, b) == YesList(o, b) + (if BucketOf(group) == Some(b) then [JInt(uid)] else []))
                  && NoList(r) == NoList(o) + (if group == "NO" then [JInt(uid)] else [])
                  && r["maybe"].fields ==
                       (if group == "MAYBE" then o["maybe"].fields[key := JStr(MaybeLabel(o, member, guildRoles, cfg).value)]
                        else o["maybe"].fields)
                  && (forall k :: k in r <==> k in o)
                  && (forall k :: k in o && k != "yes" && k != "maybe" && k != "no" ==> r[k] == o[k])
                  && (forall k :: !IsBucketKey(k) ==> (k in r["yes"].fields <==> k in o["yes"].fields))
                  && (forall k :: k in o["yes"].fields && !IsBucketKey(k) ==> r["yes"].fields[k] == o["yes"].fields[k]))
  {
    var g := BucketOf(group);
    if g.Some? {
      assert group != "MAYBE" && group != "NO";
      forall b: Bucket | b != g.value
        ensures YesList(Placed(o, uid, group, member, guildRoles, cfg).record, b) == YesList(o, b) + []
      {
        assert BucketKey(b) != BucketKey(g.value);
      }
    }
  }

  /** When the handler gets through, the MAYBE hint is the one computed from
      the stored record's guild, and the removal steps got through. */
  lemma UpdateIsPlaced(obj0: Record, uid: int, group: string, member: Option<Member>, guildRoles: set<int>, cfg: map<string, Json>)
    ensures var c := UpdateRecord(obj0, uid, group, member, guildRoles, cfg);
            && (c.ok <==> RemovalOk(obj0, uid) && (group == "MAYBE" ==> MaybeLabel(obj0, member, guildRoles, cfg).Some?))
            && (c.ok ==> c == Placed(Removed(obj0, uid), uid, group, member, guildRoles, cfg))
            && (RemovalOk(obj0, uid) ==> MaybeLabel(Removed(obj0, uid), member, guildRoles, cfg) == MaybeLabel(obj0, member, guildRoles, cfg))
  {
    ShapedWellShaped(obj0);
    var s := Shaped(obj0);
    var c1 := StripBuckets(s, uid, BUCKETS);
    if c1.ok {
      var c2 := StripNo(c1.record, uid);
      if c2.ok {
        var o := PopMaybe(c2.record, uid);
        assert RemovalOk(obj0, uid) && Removed(obj0, uid) == o;
        RemovedKeepsGuild(obj0, uid);
        PlacedOk(o, uid, group, member, guildRoles, cfg);
      }
    }
  }

  /** The removal steps leave `guild_id` as it was stored, so the MAYBE hint
      is the one of the stored record. */
  lemma RemovedKeepsGuild(obj0: Record, uid: int)
    requires RemovalOk(obj0, uid)
    ensures "guild_id" in Removed(obj0, uid) <==> "guild_id" in obj0
    ensures "guild_id" in obj0 ==> Removed(obj0, uid)["guild_id"] == obj0["guild_id"]
  {
    ShapedKeeps(obj0);
    RemovedSpec(obj0, uid);
  }

  /** The entry step fails only in the MAYBE branch, when no hint can be
      computed. */
  lemma PlacedOk(o: Record, uid: int, group: string, member: Option<Member>, guildRoles: set<int>, cfg: map<string, Json>)
    requires WellShaped(o)
    ensures Placed(o, uid, group, member, guildRoles, cfg).ok <==> (group == "MAYBE" ==> MaybeLabel(o, member, guildRoles, cfg).Some?)
  {
  }

  /** A list after the handler: the other ids in their order, then the user
      when this is the chosen list. */
  lemma EnteredList(xs: seq<int>, uid: int, here: bool)
    ensures var l := Without(xs, uid) + (if here then [uid] else []);
            && Coerce(Ints(l)) == Some(l)
            && Without(l, uid) == Without(xs, uid)
            && (here ==> Count(l, uid) == 1 && l[|l| - 1] == uid)
            && (!here ==> uid !in l)
  {
    var w := Without(xs, uid);
    var l := w + (if here then [uid] else []);
    CoerceInts(l);
    WithoutAbsent(w, uid);
    WithoutAppend(w, if here then [uid] else [], uid);
    assert Without([uid], uid) == Without([uid][..0], uid) + [];
    if here {
      CountAppend(w, [uid], uid);
      CountZero(w, uid);
      assert Count([uid], uid) == Count([uid][..0], uid) + 1;
    }
  }

  /** The buckets after the handler, in terms of the shaped record. */
  lemma UpdateYesLists(obj0: Record, uid: int, group: string, member: Option<Member>, guildRoles: set<int>, cfg: map<string, Json>)
    requires UpdateRecord(obj0, uid, group, member, guildRoles, cfg).ok
    ensures WellShaped(Shaped(obj0))
    ensures var s := Shaped(obj0); var r := UpdateRecord(obj0, uid, group, member, guildRoles, cfg).record;
            forall b :: YesIds(s, b).Some? &&
              YesList(r, b) == Ints(Without(YesIds(s, b).value, uid) + (if BucketOf(group) == Some(b) then [uid] else []))
  {
    UpdateIsPlaced(obj0, uid, group, member, guildRoles, cfg);
    RemovedSpec(obj0, uid);
    var o := Removed(obj0, uid);
    PlacedSpec(o, uid, group, member, guildRoles, cfg);
    YesListsAppended(Shaped(obj0), o, Placed(o, uid, group, member, guildRoles, cfg).record, uid, group);
  }

  /** Appending the user's JSON int to the converted list is converting the
      list with the user appended. */
  lemma YesListsAppended(s: Record, o: Record, r: Record, uid: int, group: string)
    requires WellShaped(s) && WellShaped(o) && WellShaped(r)
    requires forall b :: YesIds(s, b).Some? && YesList(o, b) == Ints(Without(YesIds(s, b).value, uid))
    requires forall b :: YesList(r, b) == YesList(o, b) + (if BucketOf(group) == Some(b) then [JInt(uid)] else [])
    ensures forall b :: YesIds(s, b).Some? &&
              YesList(r, b) == Ints(Without(YesIds(s, b).value, uid) + (if BucketOf(group) == Some(b) then [uid] else []))
  {
    forall b: Bucket
      ensures YesList(r, b) == Ints(Without(YesIds(s, b).value, uid) + (if BucketOf(group) == Some(b) then [uid] else []))
    {
      var w := Without(YesIds(s, b).value, uid);
      assert Ints(w) + (if BucketOf(group) == Some(b) then [JInt(uid)] else [])
             == Ints(w + (if BucketOf(group) == Some(b) then [uid] else []));
    }
  }

  /** `no` after the handler, in terms of the shaped record. */
  lemma UpdateNoList(obj0: Record, uid: int, group: string, member: Option<Member>, guildRoles: set<int>, cfg: map<string, Json>)
    requires UpdateRecord(obj0, uid, group, member, guildRoles, cfg).ok
    ensures WellShaped(Shaped(obj0))
    ensures var s := Shaped(obj0); var r := UpdateRecord(obj0, uid, group, member, guildRoles, cfg).record;
            && NoIds(s).Some?
            && NoList(r) == Ints(Without(NoIds(s).value, uid) + (if group == "NO" then [uid] else []))
  {
    UpdateIsPlaced(obj0, uid, group, member, guildRoles, cfg);
    RemovedSpec(obj0, uid);
    var o := Removed(obj0, uid);
    PlacedSpec(o, uid, group, member, guildRoles, cfg);
    var s := Shaped(obj0);
    assert Ints(Without(NoIds(s).value, uid)) + (if group == "NO" then [JInt(uid)] else [])
           == Ints(Without(NoIds(s).value, uid) + (if group == "NO" then [uid] else []));
  }

  /** `maybe` and the other fields after the handler, in terms of the shaped
      record. */
  lemma UpdateOtherFields(obj0: Record, uid: int, group: string, member: Option<Member>, guildRoles: set<int>, cfg: map<string, Json>)
    requires UpdateRecord(obj0, uid, group, member, guildRoles, cfg).ok
    ensures WellShaped(Shaped(obj0))
    ensures group == "MAYBE" ==> MaybeLabel(obj0, member, guildRoles, cfg).Some?
    ensures var s := Shaped(obj0); var r := UpdateRecord(obj0, uid, group, member, guildRoles, cfg).record;
            && r["maybe"].fields ==
                 (if group == "MAYBE" then (s["maybe"].fields - {IntToString(uid)})[IntToString(uid) := JStr(MaybeLabel(obj0, member, guildRoles, cfg).value)]
                  else s["maybe"].fields - {IntToString(uid)})
            && (forall k :: k in r <==> k in s)
            && (forall k :: k in s && k != "yes" && k != "maybe" && k != "no" ==> r[k] == s[k])
  {
    UpdateIsPlaced(obj0, uid, group, member, guildRoles, cfg);
    RemovedSpec(obj0, uid);
    var o := Removed(obj0, uid);
    PlacedSpec(o, uid, group, member, guildRoles, cfg);
  }

  /** TANK, HEAL or DPS: the user ends up exactly once in that bucket, as its
      last entry, and in no other bucket, not in `no` and not in `maybe`,
      however often they were listed before. */
  lemma UpdateJoinsBucket(obj0: Record, uid: int, group: string, member: Option<Member>, guildRoles: set<int>, cfg: map<string, Json>)
    requires UpdateRecord(obj0, uid, group, member, guildRoles, cfg).ok && BucketOf(group).Some?
    ensures var r := UpdateRecord(obj0, uid, group, member, guildRoles, cfg).record; var b := BucketOf(group).value;
            && WellShaped(r)
            && YesIds(r, b).Some? && |YesIds(r, b).value| > 0
            && Count(YesIds(r, b).value, uid) == 1 && YesIds(r, b).value[|YesIds(r, b).value| - 1] == uid
            && (forall b' :: b' != b ==> YesIds(r, b').Some? && uid !in YesIds(r, b').value)
            && NoIds(r).Some? && uid !in NoIds(r).value
            && IntToString(uid) !in r["maybe"].fields
  {
    UpdateListsAfter(obj0, uid, group, member, guildRoles, cfg);
    UpdateOtherFields(obj0, uid, group, member, guildRoles, cfg);
    var r := UpdateRecord(obj0, uid, group, member, guildRoles, cfg).record;
    JoinedBucket(Shaped(obj0), r, uid, group);
  }

  /** The bucket facts of a record whose lists are those the handler
      derives for a TANK, HEAL or DPS click. */
  lemma JoinedBucket(s: Record, r: Record, uid: int, group: string)
    requires WellShaped(s) && WellShaped(r) && ListsAfter(s, r, uid, group) && BucketOf(group).Some?
    ensures var b := BucketOf(group).value;
            && YesIds(r, b).Some? && |YesIds(r, b).value| > 0
            && Count(YesIds(r, b).value, uid) == 1 && YesIds(r, b).value[|YesIds(r, b).value| - 1] == uid
            && (forall b' :: b' != b ==> YesIds(r, b').Some? && uid !in YesIds(r, b').value)
            && NoIds(r).Some? && uid !in NoIds(r).value
  {
    ListsAfterSpec(s, r, uid, group);
  }

  /** The lists of a record `r` that the handler derived from the shaped
      record `s` for user `uid` and `group`. */
  ghost predicate ListsAfter(s: Record, r: Record, uid: int, group: string)
    requires WellShaped(s) && WellShaped(r)
  {
    && (forall b :: YesIds(s, b).Some? &&
          YesList(r, b) == Ints(Without(YesIds(s, b).value, uid) + (if BucketOf(group) == Some(b) then [uid] else [])))
    && NoIds(s).Some?
    && NoList(r) == Ints(Without(NoIds(s).value, uid) + (if group == "NO" then [uid] else []))
  }

  /** What those lists say about the user and about everybody else. */
  lemma ListsAfterSpec(s: Record, r: Record, uid: int, group: string)
    requires WellShaped(s) && WellShaped(r) && ListsAfter(s, r, uid, group)
    ensures forall b :: YesIds(r, b).Some? && Without(YesIds(r, b).value, uid) == Without(YesIds(s, b).value, uid)
    ensures forall b :: BucketOf(group) != Some(b) ==> uid !in YesIds(r, b).value
    ensures forall b :: BucketOf(group) == Some(b) ==>
              var l := YesIds(r, b).value; |l| > 0 && Count(l, uid) == 1 && l[|l| - 1] == uid
    ensures NoIds(r).Some? && Without(NoIds(r).value, uid) == Without(NoIds(s).value, uid)
    ensures group != "NO" ==> uid !in NoIds(r).value
    ensures group == "NO" ==> var l := NoIds(r).value; |l| > 0 && Count(l, uid) == 1 && l[|l| - 1] == uid
  {
    forall b: Bucket
      ensures YesIds(r, b) == Some(Without(YesIds(s, b).value, uid) + (if BucketOf(group) == Some(b) then [uid] else []))
    {
      EnteredList(YesIds(s, b).value, uid, BucketOf(group) == Some(b));
    }
    forall b: Bucket
      ensures Without(YesIds(r, b).value, uid) == Without(YesIds(s, b).value, uid)
      ensures BucketOf(group) != Some(b) ==> uid !in YesIds(r, b).value
      ensures BucketOf(group) == Some(b) ==>
                var l := YesIds(r, b).value; |l| > 0 && Count(l, uid) == 1 && l[|l| - 1] == uid
    {
      EnteredList(YesIds(s, b).value, uid, BucketOf(group) == Some(b));
    }
    EnteredList(NoIds(s).value, uid, group == "NO");
  }

  /** The handler's lists in terms of the shaped record. */
  lemma UpdateListsAfter(obj0: Record, uid: int, group: string, member: Option<Member>, guildRoles: set<int>, cfg: map<string, Json>)
    requires UpdateRecord(obj0, uid, group, member, guildRoles, cfg).ok
    ensures WellShaped(Shaped(obj0))
    ensures ListsAfter(Shaped(obj0), UpdateRecord(obj0, uid, group, member, guildRoles, cfg).record, uid, group)
  {
    UpdateYesLists(obj0, uid, group, member, guildRoles, cfg);
    UpdateNoList(obj0, uid, group, member, guildRoles, cfg);
  }

  /** NO: the user ends up exactly once in `no`, as its last entry, and in
      no bucket and not in `maybe`. */
  lemma UpdateDeclines(obj0: Record, uid: int, member: Option<Member>, guildRoles: set<int>, cfg: map<string, Json>)
    requires UpdateRecord(obj0, uid, "NO", member, guildRoles, cfg).ok
    ensures var r := UpdateRecord(obj0, uid, "NO", member, guildRoles, cfg).record;
            && WellShaped(r)
            && NoIds(r).Some? && |NoIds(r).value| > 0
            && Count(NoIds(r).value, uid) == 1 && NoIds(r).value[|NoIds(r).value| - 1] == uid
            && (forall b :: YesIds(r, b).Some? && uid !in YesIds(r, b).value)
            && IntToString(uid) !in r["maybe"].fields
  {
    UpdateListsAfter(obj0, uid, "NO", member, guildRoles, cfg);
    UpdateOtherFields(obj0, uid, "NO", member, guildRoles, cfg);
    var r := UpdateRecord(obj0, uid, "NO", member, guildRoles, cfg).record;
    ListsAfterSpec(Shaped(obj0), r, uid, "NO");
  }

  /** MAYBE: `maybe` maps the user's id string to the role hint computed for
      the record's guild, and the user is in no bucket and not in `no`. */
  lemma UpdateMaybe(obj0: Record, uid: int, member: Option<Member>, guildRoles: set<int>, cfg: map<string, Json>)
    requires UpdateRecord(obj0, uid, "MAYBE", member, guildRoles, cfg).ok
    ensures var r := UpdateRecord(obj0, uid, "MAYBE", member, guildRoles, cfg).record;
            && WellShaped(r)
            && MaybeLabel(obj0, member, guildRoles, cfg).Some?
            && IntToString(uid) in r["maybe"].fields
            && r["maybe"].fields[IntToString(uid)] == JStr(MaybeLabel(obj0, member, guildRoles, cfg).value)
            && (forall b :: YesIds(r, b).Some? && uid !in YesIds(r, b).value)
            && NoIds(r).Some? && uid !in NoIds(r).value
  {
    UpdateListsAfter(obj0, uid, "MAYBE", member, guildRoles, cfg);
    UpdateOtherFields(obj0, uid, "MAYBE", member, guildRoles, cfg);
    var r := UpdateRecord(obj0, uid, "MAYBE", member, guildRoles, cfg).record;
    ListsAfterSpec(Shaped(obj0), r, uid, "MAYBE");
  }

  /** Other users are untouched: with the user filtered out, every bucket and
      `no` are the stored lists converted by `int()`, in the same order; every
      other `maybe` entry and every other field keep their values. */
  lemma UpdateKeepsOthers(obj0: Record, uid: int, group: string, member: Option<Member>, guildRoles: set<int>, cfg: map<string, Json>)
    requires UpdateRecord(obj0, uid, group, member, guildRoles, cfg).ok
    ensures WellShaped(Shaped(obj0))
    ensures var s := Shaped(obj0); var r := UpdateRecord(obj0, uid, group, member, guildRoles, cfg).record;
            && WellShaped(r)
            && (forall b :: YesIds(s, b).Some? && YesIds(r, b).Some? && Without(YesIds(r, b).value, uid) == Without(YesIds(s, b).value, uid))
            && NoIds(s).Some? && NoIds(r).Some? && Without(NoIds(r).value, uid) == Without(NoIds(s).value, uid)
            && (forall k :: k != IntToString(uid) ==> (k in r["maybe"].fields <==> k in s["maybe"].fields))
            && (forall k :: k != IntToString(uid) && k in s["maybe"].fields ==> r["maybe"].fields[k] == s["maybe"].fields[k])
            && (forall k :: k in r <==> k in s)
            && (forall k :: k in s && k != "yes" && k != "maybe" && k != "no" ==> r[k] == s[k])
  {
    UpdateListsAfter(obj0, uid, group, member, guildRoles, cfg);
    UpdateOtherFields(obj0, uid, group, member, guildRoles, cfg);
    var r := UpdateRecord(obj0, uid, group, member, guildRoles, cfg).record;
    ListsAfterSpec(Shaped(obj0), r, uid, group);
  }

  /** The record rewrite fails exactly when an entry of a bucket or of `no`
      does not convert, or, for MAYBE, when the record has no guild id or
      the guild's role configuration cannot be read. (The overview refresh
      after the save can raise too; it is not part of the rewrite.) */
  lemma UpdateFails(obj0: Record, uid: int, group: string, member: Option<Member>, guildRoles: set<int>, cfg: map<string, Json>)
    ensures WellShaped(Shaped(obj0))
    ensures !UpdateRecord(obj0, uid, group, member, guildRoles, cfg).ok <==>
              (exists b :: YesIds(Shaped(obj0), b).None?) || NoIds(Shaped(obj0)).None? ||
              (group == "MAYBE" && MaybeLabel(obj0, member, guildRoles, cfg).None?)
  {
    UpdateIsPlaced(obj0, uid, group, member, guildRoles, cfg);
    RemovalOkSpec(obj0, uid);
  }

  /** `UpdateRecord` once both removal steps got through. */
  lemma UpdateRecordSteps(obj0: Record, o1: Record, o2: Record, uid: int, group: string, member: Option<Member>, guildRoles: set<int>, cfg: map<string, Json>)
    requires WellShaped(Shaped(obj0)) && WellShaped(o1)
    requires StripBuckets(Shaped(obj0), uid, BUCKETS) == Change(o1, true)
    requires StripNo(o1, uid) == Change(o2, true)
    ensures WellShaped(o2)
    ensures UpdateRecord(obj0, uid, group, member, guildRoles, cfg) == Placed(PopMaybe(o2, uid), uid, group, member, guildRoles, cfg)
  {
  }

  // ------------------------------------------------------------- buttons

  /** The bucket loop of `RaidView._update`: each bucket loses the user in
      turn until an entry fails to convert; the buckets already rewritten
      stay rewritten. */
  method StripFromBuckets(obj0: Record, uid: int) returns (obj: Record, ok: bool)
    requires WellShaped(obj0)
    ensures StripBuckets(obj0, uid, BUCKETS) == Change(obj, ok)
  {
    obj := obj0;
    var i := 0;
    while i < |BUCKETS|
      invariant 0 <= i <= |BUCKETS| && WellShaped(obj)
      invariant StripBuckets(obj0, uid, BUCKETS) == StripBuckets(obj, uid, BUCKETS[i..])
    {
      var b := BUCKETS[i];
      var kept := Kept(YesList(obj, b), uid);
      if kept.None? {
        return obj, false;
      }
      assert BUCKETS[i..][1..] == BUCKETS[i + 1..];
      obj := SetYes(obj, b, kept.value);
      i := i + 1;
    }
    assert BUCKETS[i..] == [];
    ok := true;
  }

  /** The body of `RaidView._update` on a stored record, which it rewrites
      in place step by step: the result is the record as it stands when the
      handler finishes or raises. */
  method Rewrite(obj0: Record, uid: int, group: string, member: Option<Member>,
                 guildRoles: set<int>, cfg: map<string, Json>) returns (c: Change)
    ensures c == UpdateRecord(obj0, uid, group, member, guildRoles, cfg)
  {
    var obj := InitEventShape(obj0);
    ShapedWellShaped(obj0);
    var ok;
    obj, ok := StripFromBuckets(obj, uid);
    if !ok {
      return Change(obj, false);
    }
    ghost var o1 := obj;
    c := StripNo(obj, uid);
    if !c.ok {
      return;
    }
    ghost var o2 := c.record;
    obj := PopMaybe(c.record, uid);
    c := Placed(obj, uid, group, member, guildRoles, cfg);
    UpdateRecordSteps(obj0, o1, o2, uid, group, member, guildRoles, cfg);
  }

  /** The five buttons of the DM view. */
  datatype Button = TankButton | HealButton | DpsButton | MaybeButton | NoButton

  /** The group each button passes to the handler; every button reaches one
      of the handler's entry branches, each a different one. */
  function GroupOf(b: Button): (g: string)
    ensures BucketOf(g) == Some(Tank) <==> b == TankButton
    ensures BucketOf(g) == Some(Heal) <==> b == HealButton
    ensures BucketOf(g) == Some(Dps) <==> b == DpsButton
    ensures g == "MAYBE" <==> b == MaybeButton
    ensures g == "NO" <==> b == NoButton
  {
    match b
    case TankButton => "TANK"
    case HealButton => "HEAL"
    case DpsButton => "DPS"
    case MaybeButton => "MAYBE"
    case NoButton => "NO"
  }

  /** How a click ended. */
  datatype Outcome = EventGone | Saved | Failed

  /** The DM view's module state: the RSVP records by message id, the role
      configuration by guild id, and the RSVP file as `save_store` last wrote
      it. */
  class RaidBoard {
    var store: map<string, Record>
    var cfg: map<string, Json>
    var saved: map<string, Record>

    constructor(store0: map<string, Record>, cfg0: map<string, Json>)
      ensures store == store0 && cfg == cfg0 && saved == store0
    {
      store := store0;
      cfg := cfg0;
      saved := store0;
    }

    /** `RaidView._update`: a missing or empty record ends the click without
        any change and without saving; otherwise the stored record becomes
        what `Rewrite` leaves of it, and the store is saved exactly when the
        handler got through. */
    method Update(msgId: int, uid: int, group: string, member: Option<Member>, guildRoles: set<int>)
      returns (outcome: Outcome)
      modifies this
      ensures cfg == old(cfg)
      ensures var key := IntToString(msgId);
              (key !in old(store) || |old(store)[key]| == 0) ==>
                outcome == EventGone && store == old(store) && saved == old(saved)
      ensures var key := IntToString(msgId);
              key in old(store) && |old(store)[key]| > 0 ==>
                var c := UpdateRecord(old(store)[key], uid, group, member, guildRoles, old(cfg));
                && store == old(store)[key := c.record]
                && (outcome == Saved <==> c.ok)
                && (outcome == Failed <==> !c.ok)
                && saved == (if c.ok then store else old(saved))
    {
      var key := IntToString(msgId);
      if key !in store || |store[key]| == 0 {
        return EventGone;
      }
      var c := Rewrite(store[key], uid, group, member, guildRoles, cfg);
      store := store[key := c.record];
      if c.ok {
        saved := store;
        outcome := Saved;
      } else {
        outcome := Failed;
      }
    }

    /** A click on one of the DM buttons. */
    method Press(msgId: int, uid: int, button: Button, member: Option<Member>, guildRoles: set<int>)
      returns (outcome: Outcome)
      modifies this
      ensures cfg == old(cfg)
      ensures var key := IntToString(msgId);
              key in old(store) && |old(store)[key]| > 0 ==>
                var c := UpdateRecord(old(store)[key], uid, GroupOf(button), member, guildRoles, old(cfg));
                && store == old(store)[key := c.record]
                && (outcome == Saved <==> c.ok)
                && (outcome == Failed <==> !c.ok)
                && saved == (if c.ok then store else old(saved))
      ensures var key := IntToString(msgId);
              (key !in old(store) || |old(store)[key]| == 0) ==> outcome == EventGone && store == old(store) && saved == old(saved)
    {
      outcome := Update(msgId, uid, GroupOf(button), member, guildRoles);
    }
  }
}
