/**
 * The parts of a Discord member and guild the bot reads: a member's id,
 * display name, bot flag and role names in the order Discord lists them.
 */
module Members {
  datatype Member = Member(id: nat, displayName: string, bot: bool, roles: seq<string>)

  datatype Guild = Guild(id: nat, members: seq<Member>)
}
