/** Discord guild roles and members, reduced to what the role-label lookups
    of the two RSVP views read: a role's id and name, and the roles a member
    holds. */
module Roles {
  import opened Text

  datatype Role = Role(id: int, name: string)

  /** A guild member, by the roles `member.roles` lists. */
  datatype Member = Member(roles: seq<Role>)

  /** The role ids configured for the three raid roles; 0 means unset. */
  datatype RoleIds = RoleIds(tank: int, heal: int, dps: int)

  /** Some role of the member carries `id`. */
  predicate HoldsRoleId(m: Member, id: int)
  {
    exists r :: r in m.roles && r.id == id
  }

  /** `[r.name.lower() for r in member.roles]` */
  function RoleNames(m: Member): (ns: seq<string>)
    ensures |ns| == |m.roles|
    ensures forall i :: 0 <= i < |m.roles| ==> ns[i] == Lower(m.roles[i].name)
  {
    seq(|m.roles|, i requires 0 <= i < |m.roles| => Lower(m.roles[i].name))
  }
}
