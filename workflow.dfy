/** Sequences of handler calls on one store, as players and the guild master click
    through them: the promises that span several interactions. */
module Workflow {
  import opened Wrappers
  import opened Lists
  import opened Progression
  import opened QuestRules
  import opened Reviews
  import opened Database
  import opened Access
  import opened QuestCommands
  import opened Interactions
  import opened ResetCommand

  /** The quest's own journey: a player accepts it, records work, and the guild master
      approves. The player ends up with the live reward added to their lifetime XP, one
      more completed quest and the quest gone from their active list; no submission is
      left behind. */
  method AcceptSubmitApprove(s: Store, questId: string, userId: string, username: string,
                             guildId: string, channelId: string, now: nat,
                             text: string, image: string, hostId: Option<string>)
    returns (accepted: AcceptReply, recorded: WorkReply, approved: ApproveReply)
    requires s.Valid()
    modifies s`quests, s`users, s`submissions
    ensures s.Valid()
    ensures accepted.Accepted? <==> old(s.CanAcceptQuest(questId, userId, now)) == Allowed
    ensures accepted.Accepted? ==>
      var before := PlayerOf(old(s.users), userId);
      var after := PlayerOf(s.users, userId);
      && recorded != WorkNotFound
      && approved.Approved?
      && approved.xp == old(s.quests)[questId].xpReward
      && TotalXp(after.level, after.xp) == TotalXp(before.level, before.xp) + approved.xp
      && after.questsCompleted == before.questsCompleted + 1
      && questId !in after.activeQuests
      && questId in s.quests && userId in s.quests[questId].acceptedBy
      && accepted.submissionId !in s.submissions
    ensures !accepted.Accepted? ==>
      s.quests == old(s.quests) && s.users == old(s.users) && s.submissions == old(s.submissions)
  {
    accepted := HandleAcceptQuest(s, questId, userId, username, guildId, channelId, now, true);
    if accepted.AcceptRefused? {
      recorded := WorkNotFound;
      approved := ApproveNotFound;
      return;
    }
    var id := accepted.submissionId;
    assert s.submissions[id].questId == questId && s.submissions[id].userId == userId;
    assert s.quests[questId].xpReward == old(s.quests)[questId].xpReward;
    recorded := HandleSubmissionModal(s, id, text, image, hostId, now, true);
    assert s.submissions[id].questId == questId && s.submissions[id].userId == userId;
    ghost var before := PlayerOf(s.users, userId);
    assert questId in before.activeQuests;
    approved := HandleApproveSubmission(s, id, true);
  }

  /** A submission pays once: the second approval of the same id finds nothing and
      leaves every player as the first one left them. */
  method ApproveTwice(s: Store, submissionId: string)
    returns (first: ApproveReply, second: ApproveReply)
    requires s.Valid()
    modifies s`users, s`submissions
    ensures s.Valid()
    ensures second == ApproveNotFound
    ensures first.Approved? <==> submissionId in old(s.submissions)
    ensures first.Approved? ==>
      var sub := old(s.submissions)[submissionId];
      s.users == old(s.users)[sub.userId := Completed(PlayerOf(old(s.users), sub.userId), first.xp, sub.questId)]
    ensures first == ApproveNotFound ==> s.users == old(s.users)
  {
    first := HandleApproveSubmission(s, submissionId, true);
    second := HandleApproveSubmission(s, submissionId, true);
  }

  /** A rejected submission can no longer be approved, and nobody gains anything. */
  method RejectThenApprove(s: Store, submissionId: string)
    returns (rejected: RejectReply, approved: ApproveReply)
    requires s.Valid()
    modifies s`users, s`submissions
    ensures s.Valid()
    ensures approved == ApproveNotFound
    ensures s.users == old(s.users)
    ensures s.submissions == old(s.submissions) - {submissionId}
  {
    rejected := HandleRejectSubmission(s, submissionId);
    approved := HandleApproveSubmission(s, submissionId, true);
  }

  /** After a rejection the player is still on the quest's list, so asking for the quest
      again is refused as already accepted (or, past its deadline, as expired). */
  method AcceptRejectAccept(s: Store, questId: string, userId: string, username: string,
                            guildId: string, channelId: string, now: nat)
    returns (first: AcceptReply, rejected: RejectReply, again: AcceptReply)
    requires s.Valid()
    modifies s`quests, s`users, s`submissions
    ensures s.Valid()
    ensures first.Accepted? ==> rejected.Rejected? && again == AcceptRefused(AlreadyAccepted)
  {
    first := HandleAcceptQuest(s, questId, userId, username, guildId, channelId, now, true);
    if first.AcceptRefused? {
      rejected := RejectNotFound;
      again := first;
      return;
    }
    rejected := HandleRejectSubmission(s, first.submissionId);
    again := HandleAcceptQuest(s, questId, userId, username, guildId, channelId, now, true);
  }

  /** Accepting the same quest twice at the same moment: the second request is refused
      and changes nothing, so the player is listed once. */
  method AcceptTwice(s: Store, questId: string, userId: string, username: string,
                     guildId: string, channelId: string, now: nat)
    returns (first: AcceptReply, second: AcceptReply)
    requires s.Valid()
    modifies s`quests, s`users, s`submissions
    ensures s.Valid()
    ensures second.AcceptRefused?
    ensures first.Accepted? ==> second == AcceptRefused(AlreadyAccepted)
    ensures first.Accepted? ==>
      questId in old(s.quests) && questId in s.quests &&
      s.quests[questId].acceptedBy == AppendIfAbsent(old(s.quests)[questId].acceptedBy, userId)
  {
    first := HandleAcceptQuest(s, questId, userId, username, guildId, channelId, now, true);
    second := HandleAcceptQuest(s, questId, userId, username, guildId, channelId, now, true);
  }

  /** A reset leaves nothing to reset: the same command again is answered "no progress"
      and changes no record. */
  method ResetTwice(s: Store, callerId: string, hostId: Option<string>, target: string)
    returns (first: ResetReply, second: ResetReply)
    requires s.Valid()
    modifies s`users
    ensures s.Valid()
    ensures IsHost(callerId, hostId) ==> second == NothingToReset
    ensures IsHost(callerId, hostId) ==>
      PlayerOf(s.users, target) ==
        if NoProgress(PlayerOf(old(s.users), target)) then PlayerOf(old(s.users), target) else DefaultPlayer(target)
    ensures !IsHost(callerId, hostId) ==> first == ResetReply.NotGuildMaster && second == ResetReply.NotGuildMaster && s.users == old(s.users)
  {
    first := ResetCommand.Execute(s, callerId, hostId, Some(target));
    second := ResetCommand.Execute(s, callerId, hostId, Some(target));
  }

  /** Registering through the prompt's accept button opens the gate: the next command
      from that player proceeds. */
  method RegisterThenCommand(s: Store, userId: string, command: Command)
    returns (registered: RegistrationReply, gate: GateReply)
    requires s.Valid()
    modifies s`users
    ensures s.Valid()
    ensures registered == Registered && gate == Proceed
    ensures PlayerOf(s.users, userId) == PlayerOf(old(s.users), userId).(accepted := true)
  {
    registered := HandlePlayerAccept(s, userId, userId);
    RegisteredPassesGate(old(s.users), userId, command, userId);
    gate := CommandGate(s, command, userId);
  }
}
