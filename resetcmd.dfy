/** The `/reset` command of commands/reset.js: the host puts a player back to the
    defaults, registration included. */
module ResetCommand {
  import opened Wrappers
  import opened Progression
  import opened Database
  import opened Access

  /** `level === 0 && xp === 0 && !accepted`: nothing a reset would undo beyond what
      the record already is. */
  predicate NoProgress(p: Player) {
    p.level == 0 && p.xp == 0 && !p.accepted
  }

  datatype ResetReply = NotGuildMaster | NoTarget | NothingToReset | ResetDone | ResetFailed

  /** `execute`: host check, then a target, then the no-progress check on the target's
      record (which `getUser` creates if it is new), then `resetPlayer`. That record
      always exists by then, so the failure reply is never given. */
  method Execute(s: Store, callerId: string, hostId: Option<string>, target: Option<string>)
    returns (reply: ResetReply)
    requires s.Valid()
    modifies s`users
    ensures s.Valid()
    ensures reply != ResetFailed
    ensures reply == NotGuildMaster <==> !IsHost(callerId, hostId)
    ensures reply == NoTarget <==> IsHost(callerId, hostId) && target.None?
    ensures reply == NotGuildMaster || reply == NoTarget ==> s.users == old(s.users)
    ensures reply == NothingToReset <==>
      IsHost(callerId, hostId) && target.Some? && NoProgress(PlayerOf(old(s.users), target.value))
    ensures reply == NothingToReset ==>
      s.users == old(s.users)[target.value := PlayerOf(old(s.users), target.value)]
    ensures reply == ResetDone <==>
      IsHost(callerId, hostId) && target.Some? && !NoProgress(PlayerOf(old(s.users), target.value))
    ensures reply == ResetDone ==>
      s.users == old(s.users)[target.value := DefaultPlayer(target.value)]
  {
    if !IsHost(callerId, hostId) {
      return NotGuildMaster;
    }
    if target.None? {
      return NoTarget;
    }
    var existing := s.GetUser(target.value);
    if NoProgress(existing) {
      return NothingToReset;
    }
    var ok := s.ResetPlayer(target.value);
    if ok {
      reply := ResetDone;
    } else {
      reply := ResetFailed;
    }
  }
}
