/** The interaction handlers of index.js: the registration gate in front of slash
    commands, the dispatch of button and modal ids, and the handlers that move a
    submission from recorded work to approval or rejection, pick a class, and resolve
    the older pending reviews. Every handler commits its state change before any
    message goes out; a message that fails to arrive changes only the reply. */
module Interactions {
  import opened Wrappers
  import opened JsText
  import opened Lists
  import opened Progression
  import opened QuestRules
  import opened Reviews
  import opened Database
  import opened Access
  import opened ClassCommand

  // ---------------------------------------------------------------- slash commands

  datatype Command = StatusCommand | QuestsCommand | ClassCmd | ResetCmd

  /** `player_accept_<id>`: the id the registration prompt's first button carries. */
  function PlayerAcceptId(userId: string): string {
    "player_accept_" + userId
  }

  /** `player_decline_<id>` */
  function PlayerDeclineId(userId: string): string {
    "player_decline_" + userId
  }

  datatype GateReply = Proceed | RegistrationPrompt(acceptId: string, declineId: string)

  /** The gate's test: `reset` always runs; any other command needs the caller's
      `accepted` flag. */
  predicate GateOpens(users: map<string, Player>, command: Command, callerId: string) {
    command == ResetCmd || PlayerOf(users, callerId).accepted
  }

  /** Lines 59-62: every command but `reset` first reads the caller's `accepted` flag
      (creating the record if new) and runs only if it is set; `reset` skips the check
      and touches nothing. A caller turned away gets the registration prompt, whose
      two buttons come back to the accept and decline handlers for that caller. */
  method CommandGate(s: Store, command: Command, callerId: string) returns (reply: GateReply)
    requires s.Valid()
    modifies s`users
    ensures s.Valid()
    ensures reply == Proceed <==> GateOpens(old(s.users), command, callerId)
    ensures s.users == if command == ResetCmd then old(s.users)
                       else old(s.users)[callerId := PlayerOf(old(s.users), callerId)]
    ensures reply.RegistrationPrompt? ==>
      && ParseButton(reply.acceptId) == Some(Button(PlayerAccept, callerId))
      && ParseButton(reply.declineId) == Some(Button(PlayerDecline, callerId))
  {
    if command == ResetCmd {
      return Proceed;
    }
    var accepted := s.IsPlayerAccepted(callerId);
    if accepted {
      return Proceed;
    }
    ParseButtonId(PlayerAccept, callerId);
    ParseButtonId(PlayerDecline, callerId);
    reply := RegistrationPrompt(PlayerAcceptId(callerId), PlayerDeclineId(callerId));
  }

  /** Lines 66-70: after `/status` has run, a player who may pick a class is sent the
      class buttons. The check goes through `getUser`, so it reads (or creates) the
      caller's record and changes nothing else. */
  method AfterStatus(s: Store, callerId: string) returns (offer: Option<seq<ClassOption>>)
    requires s.Valid()
    modifies s`users
    ensures s.Valid()
    ensures s.users == old(s.users)[callerId := PlayerOf(old(s.users), callerId)]
    ensures offer.Some? <==> CanSelectClass(PlayerOf(old(s.users), callerId))
    ensures offer.Some? ==> offer.value == ClassOptions(callerId)
  {
    var can := s.CanSelectClass(callerId);
    offer := if can then Some(ClassOptions(callerId)) else None;
  }

  // ---------------------------------------------------------------- custom ids

  /** The button handlers, in the order `handleButtonInteraction` tries their prefixes. */
  datatype ButtonKind =
    | PlayerAccept | PlayerDecline | SubmitQuest | ApproveSubmission | RejectSubmission
    | ClassSelect | ClassConfirm | ClassCancel | LegacyApprove | LegacyReject

  function ButtonPrefix(k: ButtonKind): string {
    match k
    case PlayerAccept => "player_accept_"
    case PlayerDecline => "player_decline_"
    case SubmitQuest => "submit_quest_"
    case ApproveSubmission => "approve_submission_"
    case RejectSubmission => "reject_submission_"
    case ClassSelect => "class_select_"
    case ClassConfirm => "class_confirm_"
    case ClassCancel => "class_cancel"
    case LegacyApprove => "approve_quest_"
    case LegacyReject => "reject_quest_"
  }

  /** A routed button: which handler, and the id with the prefix stripped. */
  datatype Button = Button(kind: ButtonKind, payload: string)

  /** `customId.replace(prefix, '')` on an id that starts with `prefix`: the first
      occurrence is the leading one, so what is left is the rest of the id. */
  function After(prefix: string, customId: string): (rest: string)
    requires prefix <= customId
    ensures customId == prefix + rest
  {
    customId[|prefix|..]
  }

  /** The order in which `handleButtonInteraction` tests the prefixes. */
  const ButtonOrder: seq<ButtonKind> := [PlayerAccept, PlayerDecline, SubmitQuest, ApproveSubmission,
    RejectSubmission, ClassSelect, ClassConfirm, ClassCancel, LegacyApprove, LegacyReject]

  /** A kind's place in `ButtonOrder`. */
  function Position(k: ButtonKind): (n: nat)
    ensures n < |ButtonOrder| && ButtonOrder[n] == k
  {
    match k
    case PlayerAccept => 0
    case PlayerDecline => 1
    case SubmitQuest => 2
    case ApproveSubmission => 3
    case RejectSubmission => 4
    case ClassSelect => 5
    case ClassConfirm => 6
    case ClassCancel => 7
    case LegacyApprove => 8
    case LegacyReject => 9
  }

  /** The else-if chain over `kinds`: the first kind whose prefix the id starts with. */
  function Route(kinds: seq<ButtonKind>, customId: string): (b: Option<Button>)
    ensures b.Some? ==> b.value.kind in kinds && customId == ButtonPrefix(b.value.kind) + b.value.payload
    ensures b.None? <==> forall i :: 0 <= i < |kinds| ==> !(ButtonPrefix(kinds[i]) <= customId)
  {
    if kinds == [] then None
    else if ButtonPrefix(kinds[0]) <= customId then Some(Button(kinds[0], After(ButtonPrefix(kinds[0]), customId)))
    else Route(kinds[1..], customId)
  }

  /** `handleButtonInteraction`: the first prefix the id starts with picks the handler,
      which reads the rest of the id; an id matching none is ignored. */
  function ParseButton(customId: string): (b: Option<Button>)
    ensures b.Some? ==> customId == ButtonPrefix(b.value.kind) + b.value.payload
    ensures b.None? <==> forall k :: !(ButtonPrefix(k) <= customId)
  {
    var b := Route(ButtonOrder, customId);
    if b.Some? then b
    else
      assert forall k :: !(ButtonPrefix(k) <= customId) by {
        forall k ensures !(ButtonPrefix(k) <= customId) {
          assert ButtonOrder[Position(k)] == k;
        }
      }
      b
  }

  /** Two ids differ at a position both have, so neither starts with the other. */
  predicate Diverge(a: string, b: string) {
    exists i :: 0 <= i < |a| && i < |b| && a[i] != b[i]
  }

  /** No two handlers share a prefix, nor is one prefix the start of another: every
      pair differs at position 0, 6, 7 or 8. */
  lemma PrefixesDiverge(a: ButtonKind, b: ButtonKind)
    requires a != b
    ensures Diverge(ButtonPrefix(a), ButtonPrefix(b))
  {
    var pa, pb := ButtonPrefix(a), ButtonPrefix(b);
    assert |pa| > 8 && |pb| > 8;
    if pa[0] != pb[0] {
      assert pa[0] != pb[0];
    } else if pa[6] != pb[6] {
      assert pa[6] != pb[6];
    } else if pa[7] != pb[7] {
      assert pa[7] != pb[7];
    } else {
      assert pa[8] != pb[8];
    }
  }

  lemma DivergeNotPrefix(a: string, b: string, payload: string)
    requires Diverge(a, b)
    ensures !(a <= b + payload)
  {
    var i :| 0 <= i < |a| && i < |b| && a[i] != b[i];
    assert (b + payload)[i] == b[i];
  }

  /** The chain reaches the `n`th kind on an id built from its prefix when no earlier
      prefix matches that id. */
  lemma {:induction false} RouteFinds(kinds: seq<ButtonKind>, n: nat, payload: string)
    requires n < |kinds|
    requires forall j :: 0 <= j < n ==> !(ButtonPrefix(kinds[j]) <= ButtonPrefix(kinds[n]) + payload)
    ensures Route(kinds, ButtonPrefix(kinds[n]) + payload) == Some(Button(kinds[n], payload))
  {
    var id := ButtonPrefix(kinds[n]) + payload;
    if n == 0 {
      assert ButtonPrefix(kinds[0]) <= id;
    } else {
      assert !(ButtonPrefix(kinds[0]) <= id);
      RouteFinds(kinds[1..], n - 1, payload);
    }
  }

  /** Every id the program builds is routed back to the handler it was built for, with
      its payload intact. */
  lemma ParseButtonId(k: ButtonKind, payload: string)
    ensures ParseButton(ButtonPrefix(k) + payload) == Some(Button(k, payload))
  {
    var n := Position(k);
    forall j | 0 <= j < n
      ensures !(ButtonPrefix(ButtonOrder[j]) <= ButtonPrefix(ButtonOrder[n]) + payload)
    {
      PrefixesDiverge(ButtonOrder[j], ButtonOrder[n]);
      DivergeNotPrefix(ButtonPrefix(ButtonOrder[j]), ButtonPrefix(ButtonOrder[n]), payload);
    }
    RouteFinds(ButtonOrder, n, payload);
  }

  datatype Modal = QuestCreateModal | SubmissionModal(submissionId: string)

  /** `quest_submission_modal_<submissionId>` */
  function SubmissionModalId(submissionId: string): string {
    "quest_submission_modal_" + submissionId
  }

  /** `handleModalSubmit`: the creation form by its exact id, a work form by prefix. */
  function ParseModal(customId: string): (m: Option<Modal>)
    ensures m == Some(QuestCreateModal) <==> customId == "quest_create_modal"
    ensures m.Some? && m.value.SubmissionModal? ==> customId == SubmissionModalId(m.value.submissionId)
  {
    if customId == "quest_create_modal" then Some(QuestCreateModal)
    else if "quest_submission_modal_" <= customId then Some(SubmissionModal(customId[23..]))
    else None
  }

  /** A work form opened for a submission comes back to that submission. */
  lemma ParseSubmissionModalId(submissionId: string)
    ensures ParseModal(SubmissionModalId(submissionId)) == Some(SubmissionModal(submissionId))
  {
    var id := SubmissionModalId(submissionId);
    assert id[..23] == "quest_submission_modal_";
    assert id[6] == 's';
  }

  /** `parts = rest.split('_')`: the class name is the first piece and the target the
      second, falling back to the clicker when there is no second piece or it is
      empty. */
  function ClassTarget(rest: string, callerId: string): (r: (string, string))
    ensures r.0 <= rest && '_' !in r.0
    ensures |r.0| < |rest| ==> rest[|r.0|] == '_'
    ensures |r.0| == |rest| ==> r.1 == callerId
    ensures |r.0| < |rest| ==>
      var tail := rest[|r.0| + 1..];
      if tail == [] || tail[0] == '_' then r.1 == callerId
      else r.1 <= tail && r.1 != "" && '_' !in r.1 && (|r.1| < |tail| ==> tail[|r.1|] == '_')
  {
    var parts := Split(rest, '_');
    SplitHead(rest, '_');
    SplitSecond(rest, '_');
    if |parts[0]| < |rest| then
      SplitHead(rest[|parts[0]| + 1..], '_');
      (parts[0], if parts[1] != "" then parts[1] else callerId)
    else (parts[0], callerId)
  }

  /** An id with no target piece, or an empty one, is taken as the clicker's own. */
  lemma ClassTargetDefaultsToClicker(className: string, clicker: string)
    requires '_' !in className
    ensures ClassTarget(className, clicker) == (className, clicker)
    ensures ClassTarget(className + "_", clicker) == (className, clicker)
  {
  }

  /** The buttons the program builds carry `<Class>_<userId>`; with ids free of `_`
      (Discord ids are digits) they read back as that class and that player, whoever
      clicks. */
  lemma ClassTargetOf(className: string, userId: string, clicker: string)
    requires '_' !in className && '_' !in userId && userId != ""
    ensures ClassTarget(className + "_" + userId, clicker) == (className, userId)
  {
    assert className + "_" + userId == className + ['_'] + userId;
    SplitFirst(className, userId, '_');
  }

  /** Every button of the class menu routes to class selection for its class and its
      player. */
  lemma ClassOptionsRoute(userId: string, i: nat, clicker: string)
    requires '_' !in userId && userId != "" && i < |ClassNames|
    ensures ParseButton(ClassOptions(userId)[i].customId) ==
      Some(Button(ClassSelect, ClassNames[i] + "_" + userId))
    ensures ClassTarget(ClassNames[i] + "_" + userId, clicker) == (ClassNames[i], userId)
  {
    var name := ClassNames[i];
    assert ClassOptions(userId)[i].customId == ButtonPrefix(ClassSelect) + (name + "_" + userId);
    ParseButtonId(ClassSelect, name + "_" + userId);
    ClassNamesPlain(i);
    ClassTargetOf(name, userId, clicker);
  }

  // ---------------------------------------------------------------- registration

  datatype RegistrationReply = RegistrationNotForYou | Registered | Declined

  /** `handlePlayerAccept`: only the player the prompt was sent to can accept it. */
  method HandlePlayerAccept(s: Store, targetUserId: string, callerId: string)
    returns (reply: RegistrationReply)
    requires s.Valid()
    modifies s`users
    ensures s.Valid()
    ensures reply == RegistrationNotForYou <==> callerId != targetUserId
    ensures reply == RegistrationNotForYou ==> s.users == old(s.users)
    ensures reply == Registered <==> callerId == targetUserId
    ensures reply == Registered ==>
      s.users == old(s.users)[callerId := PlayerOf(old(s.users), callerId).(accepted := true)]
  {
    if callerId != targetUserId {
      return RegistrationNotForYou;
    }
    var _ := s.AcceptPlayer(callerId);
    reply := Registered;
  }

  /** `handlePlayerDecline`: only the addressee may decline, and declining stores
      nothing. */
  function HandlePlayerDecline(targetUserId: string, callerId: string): (reply: RegistrationReply)
    ensures reply != Registered
    ensures reply == Declined <==> callerId == targetUserId
  {
    if callerId != targetUserId then RegistrationNotForYou else Declined
  }

  /** After registering, the gate lets the player through for every command, and the
      gate still turns away every other player it turned away before. */
  lemma RegisteredPassesGate(users: map<string, Player>, userId: string, command: Command, other: string)
    ensures var after := users[userId := PlayerOf(users, userId).(accepted := true)];
      && GateOpens(after, command, userId)
      && (other != userId ==> (GateOpens(after, command, other) <==> GateOpens(users, command, other)))
  {
  }

  // ---------------------------------------------------------------- submissions

  datatype SubmitButtonReply = SubmissionExpired | ShowWorkForm(modalId: string)

  /** `handleSubmitQuestButton`: opens the work form for a stored submission. */
  function HandleSubmitQuestButton(submissions: map<string, Submission>, submissionId: string): (r: SubmitButtonReply)
    ensures r.ShowWorkForm? <==> submissionId in submissions
    ensures r.ShowWorkForm? ==> ParseModal(r.modalId) == Some(SubmissionModal(submissionId))
  {
    if submissionId !in submissions then SubmissionExpired
    else
      ParseSubmissionModalId(submissionId);
      ShowWorkForm(SubmissionModalId(submissionId))
  }

  datatype WorkReply =
    | WorkNotFound
    | HostNotConfigured
    | SentForReview(approveId: string, rejectId: string)
    | SendFailed

  /** `handleQuestSubmissionModal`: on a known id the work is stored and the status set
      to pending review, whatever it was, before and regardless of the host lookup;
      then the host is sent approve and reject buttons for this submission. */
  method HandleSubmissionModal(s: Store, submissionId: string, text: string, image: string,
                               hostId: Option<string>, now: int, delivered: bool)
    returns (reply: WorkReply)
    requires s.Valid()
    modifies s`submissions
    ensures s.Valid()
    ensures reply == WorkNotFound <==> submissionId !in old(s.submissions)
    ensures reply == WorkNotFound ==> s.submissions == old(s.submissions)
    ensures reply != WorkNotFound ==>
      s.submissions == old(s.submissions)[submissionId := WithWork(old(s.submissions)[submissionId], text, image, now)]
    ensures reply == HostNotConfigured <==> submissionId in old(s.submissions) && !HostConfigured(hostId)
    ensures reply.SentForReview? <==> submissionId in old(s.submissions) && HostConfigured(hostId) && delivered
    ensures reply.SentForReview? ==>
      && ParseButton(reply.approveId) == Some(Button(ApproveSubmission, submissionId))
      && ParseButton(reply.rejectId) == Some(Button(RejectSubmission, submissionId))
  {
    var sub := s.GetQuestSubmission(submissionId);
    if sub.None? {
      return WorkNotFound;
    }
    s.SaveQuestSubmission(submissionId, WithWork(sub.value, text, image, now));
    if !HostConfigured(hostId) {
      return HostNotConfigured;
    }
    if !delivered {
      return SendFailed;
    }
    ParseButtonId(ApproveSubmission, submissionId);
    ParseButtonId(RejectSubmission, submissionId);
    reply := SentForReview(ButtonPrefix(ApproveSubmission) + submissionId, ButtonPrefix(RejectSubmission) + submissionId);
  }

  /** The reward an approval pays: the live quest's, or the snapshot's if the quest is
      gone. */
  function ApprovalReward(quests: map<string, Quest>, sub: Submission): (xp: int)
    ensures sub.questId in quests ==> xp == quests[sub.questId].xpReward
    ensures sub.questId !in quests ==> xp == sub.questXP
    ensures (forall id :: id in quests ==> quests[id].xpReward > 0) && sub.questXP > 0 ==> xp > 0
  {
    if sub.questId in quests then quests[sub.questId].xpReward else sub.questXP
  }

  /** The player record an approval leaves: XP added through `addXP`, then the quest
      dropped from the active list. */
  function Completed(p: Player, xp: int, questId: string): (q: Player)
    ensures q.activeQuests == Without(p.activeQuests, questId)
    ensures q.questsCompleted == p.questsCompleted + 1
    ensures TotalXp(q.level, q.xp) == TotalXp(p.level, p.xp) + xp
    ensures q.(activeQuests := p.activeQuests) == AddXpTo(p, xp)
  {
    AddXpTo(p, xp).(activeQuests := Without(p.activeQuests, questId))
  }

  datatype ApproveReply =
    | ApproveNotFound
    | Approved(username: string, xp: int, player: Player, classOffered: bool)

  /** `handleApproveSubmission`: an unknown id changes nothing; otherwise `addXP` runs
      once with the approval reward, the quest leaves the player's active list, and the
      submission is deleted, so the same id can never pay twice. The class buttons
      follow the announcement when the player may now pick a class. */
  method HandleApproveSubmission(s: Store, submissionId: string, delivered: bool)
    returns (reply: ApproveReply)
    requires s.Valid()
    modifies s`users, s`submissions
    ensures s.Valid()
    ensures reply == ApproveNotFound <==> submissionId !in old(s.submissions)
    ensures reply == ApproveNotFound ==> s.users == old(s.users) && s.submissions == old(s.submissions)
    ensures reply.Approved? ==>
      var sub := old(s.submissions)[submissionId];
      && reply.xp == ApprovalReward(old(s.quests), sub) && reply.xp > 0
      && s.users == old(s.users)[sub.userId := Completed(PlayerOf(old(s.users), sub.userId), reply.xp, sub.questId)]
      && s.submissions == old(s.submissions) - {submissionId}
      && reply.player == s.users[sub.userId]
      && reply.classOffered == (delivered && CanSelectClass(reply.player))
    ensures submissionId !in s.submissions
    ensures s.quests == old(s.quests)
  {
    var found := s.GetQuestSubmission(submissionId);
    if found.None? {
      return ApproveNotFound;
    }
    var sub := found.value;
    var xp := ApprovalReward(s.quests, sub);
    var u := PlayerOf(s.users, sub.userId);
    var _ := s.AddXP(sub.userId, xp);
    s.CompleteQuestForUser(sub.questId, sub.userId);
    assert s.users == old(s.users)[sub.userId := Completed(u, xp, sub.questId)];
    s.RemoveQuestSubmission(submissionId);
    var player := s.users[sub.userId];
    reply := Approved(sub.username, xp, player, delivered && CanSelectClass(player));
  }

  datatype RejectReply = RejectNotFound | Rejected(username: string)

  /** `handleRejectSubmission`: only the submission is deleted. The player keeps the
      quest in `activeQuests` and stays in the quest's `acceptedBy`, so accepting the
      same quest again is refused. */
  method HandleRejectSubmission(s: Store, submissionId: string) returns (reply: RejectReply)
    requires s.Valid()
    modifies s`submissions
    ensures s.Valid()
    ensures reply == RejectNotFound <==> submissionId !in old(s.submissions)
    ensures reply.Rejected? ==> reply.username == old(s.submissions)[submissionId].username
    ensures s.submissions == old(s.submissions) - {submissionId}
    ensures s.users == old(s.users) && s.quests == old(s.quests)
  {
    var found := s.GetQuestSubmission(submissionId);
    if found.None? {
      return RejectNotFound;
    }
    s.RemoveQuestSubmission(submissionId);
    reply := Rejected(found.value.username);
  }

  // ---------------------------------------------------------------- classes

  /** `class_confirm_<Class>_<userId>` */
  function ConfirmButtonId(className: string, userId: string): string {
    "class_confirm_" + className + "_" + userId
  }

  /** `class_cancel_<userId>` */
  function CancelButtonId(userId: string): string {
    "class_cancel_" + userId
  }

  datatype SelectReply =
    | SelectNotForYou
    | SelectAlreadyHasClass
    | SelectNeedsLevel
    | ConfirmPrompt(className: string, confirmId: string, cancelId: string)

  /** `handleClassSelect`: the addressee only; then a set, non-empty class refuses
      before the level is looked at; then level 10 is required. The prompt's confirm
      button carries the class and the clicker. */
  method HandleClassSelect(s: Store, rest: string, callerId: string) returns (reply: SelectReply)
    requires s.Valid()
    modifies s`users
    ensures s.Valid()
    ensures reply == SelectNotForYou <==> ClassTarget(rest, callerId).1 != callerId
    ensures reply == SelectNotForYou ==> s.users == old(s.users)
    ensures reply != SelectNotForYou ==> s.users == old(s.users)[callerId := PlayerOf(old(s.users), callerId)]
    ensures reply == SelectAlreadyHasClass <==>
      ClassTarget(rest, callerId).1 == callerId && HasClass(PlayerOf(old(s.users), callerId))
    ensures reply == SelectNeedsLevel <==>
      ClassTarget(rest, callerId).1 == callerId && !HasClass(PlayerOf(old(s.users), callerId))
      && PlayerOf(old(s.users), callerId).level < 10
    ensures reply.ConfirmPrompt? ==>
      && reply.className == ClassTarget(rest, callerId).0
      && reply.confirmId == ConfirmButtonId(reply.className, callerId)
      && reply.cancelId == CancelButtonId(callerId)
  {
    var (className, target) := ClassTarget(rest, callerId);
    if callerId != target {
      return SelectNotForYou;
    }
    var user := s.GetUser(callerId);
    if HasClass(user) {
      return SelectAlreadyHasClass;
    }
    if user.level < 10 {
      return SelectNeedsLevel;
    }
    reply := ConfirmPrompt(className, ConfirmButtonId(className, callerId), CancelButtonId(callerId));
  }

  /** The confirm button of a prompt routes to confirmation of the same class for the
      same player. */
  lemma ConfirmPromptRoutes(className: string, callerId: string, clicker: string)
    requires '_' !in className && '_' !in callerId && callerId != ""
    ensures ParseButton(ConfirmButtonId(className, callerId)) == Some(Button(ClassConfirm, className + "_" + callerId))
    ensures ClassTarget(className + "_" + callerId, clicker) == (className, callerId)
  {
    assert ConfirmButtonId(className, callerId) == ButtonPrefix(ClassConfirm) + (className + "_" + callerId);
    ParseButtonId(ClassConfirm, className + "_" + callerId);
    ClassTargetOf(className, callerId, clicker);
  }

  datatype ConfirmReply = ConfirmNotForYou | ConfirmAlreadyHasClass | ClassChosen(className: string)

  /** `handleClassConfirm`: the addressee only; a set, non-empty class is never
      overwritten; otherwise the class is stored. The level is not checked again. */
  method HandleClassConfirm(s: Store, rest: string, callerId: string) returns (reply: ConfirmReply)
    requires s.Valid()
    modifies s`users
    ensures s.Valid()
    ensures reply == ConfirmNotForYou <==> ClassTarget(rest, callerId).1 != callerId
    ensures reply == ConfirmNotForYou ==> s.users == old(s.users)
    ensures reply == ConfirmAlreadyHasClass <==>
      ClassTarget(rest, callerId).1 == callerId && HasClass(PlayerOf(old(s.users), callerId))
    ensures reply == ConfirmAlreadyHasClass ==> s.users == old(s.users)[callerId := PlayerOf(old(s.users), callerId)]
    ensures reply.ClassChosen? <==>
      ClassTarget(rest, callerId).1 == callerId && !HasClass(PlayerOf(old(s.users), callerId))
    ensures reply.ClassChosen? ==>
      && reply.className == ClassTarget(rest, callerId).0
      && s.users == old(s.users)[callerId := PlayerOf(old(s.users), callerId).(playerClass := Some(reply.className))]
    ensures HasClass(PlayerOf(old(s.users), callerId)) ==>
      PlayerOf(s.users, callerId).playerClass == PlayerOf(old(s.users), callerId).playerClass
  {
    var (className, target) := ClassTarget(rest, callerId);
    if callerId != target {
      return ConfirmNotForYou;
    }
    var user := s.GetUser(callerId);
    if HasClass(user) {
      return ConfirmAlreadyHasClass;
    }
    var _ := s.SetUserClass(callerId, className);
    reply := ClassChosen(className);
  }

  datatype CancelReply = CancelNotForYou | ClassMenu(options: seq<ClassOption>)

  /** `handleClassCancel`: the target is the id's last `_` piece (the id always holds
      one); the addressee gets the class menu again, the same four buttons as
      `/class`. */
  function HandleClassCancel(customId: string, callerId: string): (reply: CancelReply)
    ensures reply.CancelNotForYou? <==> Split(customId, '_')[|Split(customId, '_')| - 1] != callerId
    ensures reply.ClassMenu? ==> reply.options == ClassOptions(callerId)
  {
    var parts := Split(customId, '_');
    if parts[|parts| - 1] != callerId then CancelNotForYou else ClassMenu(ClassOptions(callerId))
  }

  /** The cancel button of a prompt answers its own player with the menu. */
  lemma CancelButtonAnswersOwner(userId: string)
    requires '_' !in userId
    ensures HandleClassCancel(CancelButtonId(userId), userId) == ClassMenu(ClassOptions(userId))
  {
    assert CancelButtonId(userId) == "class" + ['_'] + ("cancel" + ['_'] + userId);
    SplitFirst("class", "cancel" + ['_'] + userId, '_');
    SplitFirst("cancel", userId, '_');
  }

  // ---------------------------------------------------------------- legacy reviews

  datatype LegacyReply =
    | ReviewGone
    | QuestGone
    | LegacyApproved(username: string, xp: int, player: Player)
    | LegacyRejected(username: string)

  /** `handleLegacyApprove`: needs both the review and its quest, else nothing changes;
      then the live reward is paid through `addXP` and the review deleted. The player's
      active quests are left as they were. */
  method HandleLegacyApprove(s: Store, reviewId: string) returns (reply: LegacyReply)
    requires s.Valid()
    modifies s`users, s`pendingReviews
    ensures s.Valid()
    ensures reply == ReviewGone <==> reviewId !in old(s.pendingReviews)
    ensures reply == QuestGone <==>
      reviewId in old(s.pendingReviews) && old(s.pendingReviews)[reviewId].questId !in old(s.quests)
    ensures reply == ReviewGone || reply == QuestGone ==>
      s.users == old(s.users) && s.pendingReviews == old(s.pendingReviews)
    ensures reply.LegacyApproved? ==>
      var review := old(s.pendingReviews)[reviewId];
      && reply.xp == old(s.quests)[review.questId].xpReward
      && s.users == old(s.users)[review.userId := AddXpTo(PlayerOf(old(s.users), review.userId), reply.xp)]
      && s.pendingReviews == old(s.pendingReviews) - {reviewId}
      && reply.player == s.users[review.userId]
    ensures !reply.LegacyRejected?
  {
    var review := s.GetPendingReview(reviewId);
    if review.None? {
      return ReviewGone;
    }
    var quest := s.GetQuest(review.value.questId);
    if quest.None? {
      return QuestGone;
    }
    var player := s.AddXP(review.value.userId, quest.value.xpReward);
    s.RemovePendingReview(reviewId);
    reply := LegacyApproved(review.value.username, quest.value.xpReward, player);
  }

  /** `handleLegacyReject`: only the review is deleted. */
  method HandleLegacyReject(s: Store, reviewId: string) returns (reply: LegacyReply)
    requires s.Valid()
    modifies s`pendingReviews
    ensures s.Valid()
    ensures reply == ReviewGone <==> reviewId !in old(s.pendingReviews)
    ensures reply.LegacyRejected? <==> reviewId in old(s.pendingReviews)
    ensures reply.LegacyRejected? ==> reply.username == old(s.pendingReviews)[reviewId].username
    ensures s.pendingReviews == old(s.pendingReviews) - {reviewId}
    ensures s.users == old(s.users) && s.quests == old(s.quests) && s.submissions == old(s.submissions)
  {
    var review := s.GetPendingReview(reviewId);
    if review.None? {
      return ReviewGone;
    }
    s.RemovePendingReview(reviewId);
    reply := LegacyRejected(review.value.username);
  }
}
