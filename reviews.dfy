/** The review records of database.js: submissions (created when a quest is accepted,
    resolved by the host) and the older pending reviews keyed by review id. */
module Reviews {
  import opened Wrappers
  import opened JsText
  import opened Progression
  import opened QuestRules

  datatype Status = PendingSubmission | PendingReview

  /** A submission: who took which quest, the quest's terms as they were when it was
      accepted, where to announce completion, and the work once it is sent. */
  datatype Submission = Submission(
    userId: string,
    username: string,
    questId: string,
    questTitle: string,
    questRank: Rank,
    questXP: int,
    guildId: string,
    channelId: string,
    status: Status,
    timestamp: int,
    textSubmission: Option<string>,
    imageUrl: Option<string>,
    submittedAt: Option<int>)

  /** A legacy pending review: only the player and the quest, no snapshot of terms. */
  datatype Review = Review(
    userId: string,
    username: string,
    questId: string,
    guildId: string,
    channelId: string)

  /** `${userId}_${questId}_${Date.now()}` */
  function SubmissionId(userId: string, questId: string, now: nat): string {
    userId + "_" + questId + "_" + NatToString(now)
  }

  /** One player accepting one quest at two different instants gets two different
      submission ids. */
  lemma SubmissionIdsDiffer(userId: string, questId: string, t1: nat, t2: nat)
    requires t1 != t2
    ensures SubmissionId(userId, questId, t1) != SubmissionId(userId, questId, t2)
  {
    var head := userId + "_" + questId + "_";
    if SubmissionId(userId, questId, t1) == SubmissionId(userId, questId, t2) {
      assert NatToString(t1) == SubmissionId(userId, questId, t1)[|head|..];
      assert NatToString(t2) == SubmissionId(userId, questId, t2)[|head|..];
      DigitsValueOfNatToString(t1);
      DigitsValueOfNatToString(t2);
      assert false;
    }
  }

  /** The record `handleAcceptQuest` stores: the quest's terms copied, no work yet. */
  function Snapshot(q: Quest, userId: string, username: string, guildId: string, channelId: string, now: int): (sub: Submission)
    ensures sub.status == PendingSubmission
    ensures sub.textSubmission.None? && sub.imageUrl.None? && sub.submittedAt.None?
    ensures sub.questId == q.id && sub.questTitle == q.title && sub.questRank == q.rank && sub.questXP == q.xpReward
    ensures sub.userId == userId && sub.username == username
    ensures sub.guildId == guildId && sub.channelId == channelId && sub.timestamp == now
  {
    Submission(userId, username, q.id, q.title, q.rank, q.xpReward, guildId, channelId,
               PendingSubmission, now, None, None, None)
  }

  /** The submission after the work form: text and image stored (an empty image field is
      `null`), the time of sending recorded, status moved to pending review, whatever it
      was before. */
  function WithWork(sub: Submission, text: string, image: string, now: int): (r: Submission)
    ensures r.status == PendingReview && r.textSubmission == Some(text)
    ensures r.imageUrl.None? <==> image == ""
    ensures image != "" ==> r.imageUrl == Some(image)
    ensures r.submittedAt == Some(now)
    ensures r.(textSubmission := sub.textSubmission, imageUrl := sub.imageUrl, status := sub.status, submittedAt := sub.submittedAt) == sub
  {
    sub.(textSubmission := Some(text), imageUrl := if image == "" then None else Some(image),
         status := PendingReview, submittedAt := Some(now))
  }

  /** The store's invariant on submissions: each snapshot holds a positive reward, as the
      quests it was copied from do. */
  predicate SubmissionsValid(subs: map<string, Submission>) {
    forall id :: id in subs ==> subs[id].questXP > 0
  }
}
