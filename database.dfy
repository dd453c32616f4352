/** The store of database.js: four dictionaries kept in memory and rewritten to disk after
    every change. Here they are fields of one Store object that the handlers share; each
    "save" is a no-op. `questOrder` is the key order of the quests dictionary (insertion
    order), which is the order `Object.values` walks it in. */
module Database {
  import opened Wrappers
  import opened JsText
  import opened Lists
  import opened Progression
  import opened QuestRules
  import opened Reviews

  /** The store's invariant on players: each is filed under its own id, is well formed
      and lists each active quest once. */
  predicate PlayersValid(users: map<string, Player>) {
    forall id :: id in users ==> users[id].id == id && WellFormed(users[id]) && Distinct(users[id].activeQuests)
  }

  /** Filing a well-formed record under its own id keeps the players valid. */
  lemma PlayersValidUpdate(users: map<string, Player>, id: string, p: Player)
    requires PlayersValid(users)
    requires p.id == id && WellFormed(p) && Distinct(p.activeQuests)
    ensures PlayersValid(users[id := p])
  {
  }

  /** A non-negative grant keeps the players valid. */
  lemma AddXpValid(users: map<string, Player>, id: string, amount: int)
    requires PlayersValid(users) && amount >= 0
    ensures PlayersValid(users[id := AddXpTo(PlayerOf(users, id), amount)])
  {
    PlayersValidUpdate(users, id, AddXpTo(PlayerOf(users, id), amount));
  }

  /** One step of the listing walk: the quest at `order[i]` is seen for the first time,
      and the listing of the longer prefix is the shorter one plus that quest if it
      qualifies. */
  lemma SweepStep(qs: map<string, Quest>, order: seq<string>, i: nat, now: int)
    requires QuestsValid(qs, order) && i < |order|
    ensures order[i] in qs
    ensures forall j :: 0 <= j < |order| && j != i ==> order[j] != order[i]
    ensures Listed(qs, order[..i + 1], now) ==
      Listed(qs, order[..i], now) + (if qs[order[i]].active && !Expired(qs[order[i]], now) then [qs[order[i]]] else [])
  {
    assert order[..i + 1][..i] == order[..i];
  }

  /** Once every id of the order has been seen, and each seen quest swept, the whole
      map has been swept. */
  lemma SweptOnceAll(before: map<string, Quest>, after: map<string, Quest>, order: seq<string>,
                     seen: set<string>, now: int)
    requires QuestsValid(before, order)
    requires after.Keys == before.Keys
    requires forall j :: 0 <= j < |order| ==> order[j] in seen
    requires forall id :: id in after ==> after[id] == if id in seen then Sweep(before[id], now) else before[id]
    ensures after == Swept(before, now)
  {
    forall id | id in after
      ensures id in seen
    {
      assert id in order;
    }
  }

  /** The sweep only flips `active`, so the quests stay valid. */
  lemma SweptValid(qs: map<string, Quest>, order: seq<string>, now: int)
    requires QuestsValid(qs, order)
    ensures QuestsValid(Swept(qs, now), order)
  {
  }

  /** The `while (user.xp >= xpRequired)` loop of `addXP` on the record's level, XP and
      rank: pay the current threshold, go up a level, recompute the rank, until the XP
      in hand is below the next threshold. */
  method Climb(level0: nat, xp0: int, rank0: Rank) returns (level: nat, xp: int, rank: Rank)
    ensures Progress(level, xp, rank) == LevelUp(level0, xp0, rank0)
  {
    level, xp, rank := level0, xp0, rank0;
    var xpRequired := XpRequired(level);
    while xp >= xpRequired
      invariant xpRequired == XpRequired(level)
      invariant LevelUp(level, xp, rank) == LevelUp(level0, xp0, rank0)
      decreases xp
    {
      xp := xp - xpRequired;
      level := level + 1;
      xpRequired := XpRequired(level);
      rank := UpdateRank(level);
    }
  }

  class Store {
    var users: map<string, Player>
    var quests: map<string, Quest>
    var questOrder: seq<string>
    var submissions: map<string, Submission>
    var pendingReviews: map<string, Review>

    ghost predicate Valid()
      reads this
    {
      PlayersValid(users) && QuestsValid(quests, questOrder) && SubmissionsValid(submissions)
    }

    /** A first start: no saved documents, so every dictionary is empty. */
    constructor ()
      ensures Valid()
      ensures users == map[] && quests == map[] && questOrder == []
      ensures submissions == map[] && pendingReviews == map[]
    {
      users, quests, questOrder := map[], map[], [];
      submissions, pendingReviews := map[], map[];
    }

    /** A restart from documents this program saved earlier. */
    constructor Load(users: map<string, Player>, quests: map<string, Quest>, questOrder: seq<string>,
                     submissions: map<string, Submission>, pendingReviews: map<string, Review>)
      requires PlayersValid(users) && QuestsValid(quests, questOrder) && SubmissionsValid(submissions)
      ensures Valid()
      ensures this.users == users && this.quests == quests && this.questOrder == questOrder
      ensures this.submissions == submissions && this.pendingReviews == pendingReviews
    {
      this.users, this.quests, this.questOrder := users, quests, questOrder;
      this.submissions, this.pendingReviews := submissions, pendingReviews;
    }

    /** `getUser`: the stored record, created with the defaults on first sight. */
    method GetUser(userId: string) returns (p: Player)
      requires Valid()
      modifies this`users
      ensures Valid()
      ensures users == old(users)[userId := PlayerOf(old(users), userId)]
      ensures p == users[userId]
    {
      if userId !in users {
        users := users[userId := DefaultPlayer(userId)];
      }
      p := users[userId];
    }

    /** `isPlayerAccepted`: reads `accepted`, creating the record if need be. */
    method IsPlayerAccepted(userId: string) returns (accepted: bool)
      requires Valid()
      modifies this`users
      ensures Valid()
      ensures users == old(users)[userId := PlayerOf(old(users), userId)]
      ensures accepted == PlayerOf(old(users), userId).accepted
    {
      var p := GetUser(userId);
      accepted := p.accepted;
    }

    /** `acceptPlayer`: the registration consent. */
    method AcceptPlayer(userId: string) returns (p: Player)
      requires Valid()
      modifies this`users
      ensures Valid()
      ensures users == old(users)[userId := PlayerOf(old(users), userId).(accepted := true)]
      ensures p == users[userId]
    {
      p := GetUser(userId);
      p := p.(accepted := true);
      PlayersValidUpdate(users, userId, p);
      users := users[userId := p];
    }

    /** `resetPlayer`: a stored record is replaced by the defaults; an unknown id is
        reported and nothing is created. */
    method ResetPlayer(userId: string) returns (ok: bool)
      requires Valid()
      modifies this`users
      ensures Valid()
      ensures ok <==> userId in old(users)
      ensures users == if ok then old(users)[userId := DefaultPlayer(userId)] else old(users)
    {
      ok := userId in users;
      if ok {
        users := users[userId := DefaultPlayer(userId)];
      }
    }

    /** `addXP`: add the amount, then pay thresholds and climb levels while the XP in hand
        covers the next one, recomputing the rank at each step; the quest count goes up
        by one whatever happened. */
    method AddXP(userId: string, amount: int) returns (p: Player)
      requires Valid()
      modifies this`users
      ensures amount >= 0 ==> Valid()
      ensures users == old(users)[userId := AddXpTo(PlayerOf(old(users), userId), amount)]
      ensures p == users[userId]
    {
      var u := GetUser(userId);
      var level, xp, rank := Climb(u.level, u.xp + amount, u.rank);
      LoopExit(u, amount, level, xp, rank);
      p := u.(level := level, xp := xp, rank := rank, questsCompleted := u.questsCompleted + 1);
      if amount >= 0 {
        AddXpValid(old(users), userId, amount);
      }
      users := users[userId := p];
      assert users == old(users)[userId := p];
    }

    /** `setUserClass`: stores the class whatever was there before; the guard against
        overwriting is the caller's. */
    method SetUserClass(userId: string, className: string) returns (p: Player)
      requires Valid()
      modifies this`users
      ensures Valid()
      ensures users == old(users)[userId := PlayerOf(old(users), userId).(playerClass := Some(className))]
      ensures p == users[userId]
    {
      p := GetUser(userId);
      p := p.(playerClass := Some(className));
      PlayersValidUpdate(users, userId, p);
      users := users[userId := p];
    }

    /** `canSelectClass`, which creates the record if need be. */
    method CanSelectClass(userId: string) returns (can: bool)
      requires Valid()
      modifies this`users
      ensures Valid()
      ensures users == old(users)[userId := PlayerOf(old(users), userId)]
      ensures can == Progression.CanSelectClass(PlayerOf(old(users), userId))
    {
      var p := GetUser(userId);
      can := Progression.CanSelectClass(p);
    }

    /** `createQuest`: the id is the current time in milliseconds, so a second quest
        created in the same millisecond replaces the first (keeping its place in the
        key order). When the record's dates lie outside the `Date` range, `toISOString`
        throws while the record is built: the result is `None` and nothing is stored. */
    method CreateQuest(terms: QuestTerms, createdBy: string, now: nat) returns (created: Option<Quest>)
      requires Valid()
      modifies this`quests, this`questOrder
      ensures terms.xpReward > 0 ==> Valid()
      ensures created.Some? <==> Storable(NewQuest(NatToString(now), terms, createdBy, now))
      ensures created.None? ==> quests == old(quests) && questOrder == old(questOrder)
      ensures created.Some? ==>
        && created.value == NewQuest(NatToString(now), terms, createdBy, now)
        && quests == old(quests)[created.value.id := created.value]
        && questOrder == if created.value.id in old(quests) then old(questOrder) else old(questOrder) + [created.value.id]
    {
      var id := NatToString(now);
      var q := NewQuest(id, terms, createdBy, now);
      if !Storable(q) {
        return None;
      }
      if id !in quests {
        questOrder := questOrder + [id];
      }
      quests := quests[id := q];
      created := Some(q);
    }

    /** `getQuest`: the stored quest or nothing; on a valid store the quest found carries
        its own id and a positive reward. */
    function GetQuest(questId: string): (r: Option<Quest>)
      reads this
      ensures r.Some? <==> questId in quests
      ensures r.Some? ==> r.value == quests[questId]
      ensures Valid() && r.Some? ==> r.value.id == questId && r.value.xpReward > 0
    {
      if questId in quests then Some(quests[questId]) else None
    }

    /** `getAllQuests`: walk the quests in key order, deactivate each active one found
        expired, and return the active ones that are not. */
    method GetAllQuests(now: int) returns (list: seq<Quest>)
      requires Valid()
      modifies this`quests
      ensures Valid()
      ensures quests == Swept(old(quests), now)
      ensures list == Listed(old(quests), questOrder, now)
    {
      ghost var before := quests;
      ghost var seen: set<string> := {};
      list := [];
      var i := 0;
      while i < |questOrder|
        invariant 0 <= i <= |questOrder|
        invariant quests.Keys == before.Keys
        invariant forall j :: 0 <= j < i ==> questOrder[j] in seen
        invariant forall j :: i <= j < |questOrder| ==> questOrder[j] !in seen
        invariant forall id :: id in quests ==>
          quests[id] == if id in seen then Sweep(before[id], now) else before[id]
        invariant list == Listed(before, questOrder[..i], now)
      {
        var id := questOrder[i];
        SweepStep(before, questOrder, i, now);
        var q := quests[id];
        if q.active && Expired(q, now) {
          quests := quests[id := q.(active := false)];
        } else if q.active {
          list := list + [q];
        }
        seen := seen + {id};
        i := i + 1;
      }
      assert questOrder[..i] == questOrder;
      SweptOnceAll(before, quests, questOrder, seen, now);
      SweptValid(before, questOrder, now);
    }

    /** `canAcceptQuest`: reads the store, changes nothing. A quest that is not stored
        is refused as not found; an allowed one is stored, active, not past its deadline,
        below its capacity and not yet taken by this player. */
    function CanAcceptQuest(questId: string, userId: string, now: int): (v: Verdict)
      reads this
      ensures questId !in quests ==> v == Refused(NotFoundOrInactive)
      ensures v == Allowed ==>
        && questId in quests && quests[questId].active && !Expired(quests[questId], now)
        && !AtCapacity(quests[questId]) && userId !in quests[questId].acceptedBy
    {
      CanAccept(GetQuest(questId), userId, now)
    }

    /** `acceptQuest`: the player joins the quest's `acceptedBy` and the quest joins the
        player's `activeQuests`, each only if not already there. A missing quest is
        skipped but the player's side is still updated. */
    method AcceptQuest(questId: string, userId: string) returns (quest: Option<Quest>)
      requires Valid()
      modifies this`quests, this`users
      ensures Valid()
      ensures quests == if questId in old(quests)
        then old(quests)[questId := WithParticipant(old(quests)[questId], userId)]
        else old(quests)
      ensures users == old(users)[userId :=
        PlayerOf(old(users), userId).(activeQuests := AppendIfAbsent(PlayerOf(old(users), userId).activeQuests, questId))]
      ensures quest == GetQuest(questId)
    {
      if questId in quests {
        JoinQuest(questId, userId);
      }
      var p := GetUser(userId);
      var joined := p.(activeQuests := AppendIfAbsent(p.activeQuests, questId));
      PlayersValidUpdate(users, userId, joined);
      assert old(users)[userId := PlayerOf(old(users), userId)][userId := joined] == old(users)[userId := joined];
      users := users[userId := joined];
      quest := GetQuest(questId);
    }

    /** The quest half of `acceptQuest`: push the player unless already listed. */
    method JoinQuest(questId: string, userId: string)
      requires Valid() && questId in quests
      modifies this`quests
      ensures Valid()
      ensures quests == old(quests)[questId := WithParticipant(old(quests)[questId], userId)]
    {
      quests := quests[questId := WithParticipant(quests[questId], userId)];
    }

    /** `completeQuestForUser`: drop the quest from the player's active quests. */
    method CompleteQuestForUser(questId: string, userId: string)
      requires Valid()
      modifies this`users
      ensures Valid()
      ensures users == old(users)[userId :=
        PlayerOf(old(users), userId).(activeQuests := Without(PlayerOf(old(users), userId).activeQuests, questId))]
    {
      var p := GetUser(userId);
      PlayersValidUpdate(users, userId, p.(activeQuests := Without(p.activeQuests, questId)));
      users := users[userId := p.(activeQuests := Without(p.activeQuests, questId))];
    }

    /** `deactivateQuest`: a missing quest is a no-op. */
    method DeactivateQuest(questId: string)
      requires Valid()
      modifies this`quests
      ensures Valid()
      ensures quests == if questId in old(quests)
        then old(quests)[questId := old(quests)[questId].(active := false)]
        else old(quests)
    {
      if questId in quests {
        quests := quests[questId := quests[questId].(active := false)];
      }
    }

    /** `getPendingReviews()[reviewId]`: the stored review, or nothing. */
    function GetPendingReview(reviewId: string): (r: Option<Review>)
      reads this
      ensures r.Some? <==> reviewId in pendingReviews
      ensures r.Some? ==> r.value == pendingReviews[reviewId]
    {
      if reviewId in pendingReviews then Some(pendingReviews[reviewId]) else None
    }

    /** `removePendingReview` */
    method RemovePendingReview(reviewId: string)
      requires Valid()
      modifies this`pendingReviews
      ensures Valid()
      ensures pendingReviews == old(pendingReviews) - {reviewId}
    {
      pendingReviews := pendingReviews - {reviewId};
    }

    /** `saveQuestSubmission`: store under the id, replacing what was there. */
    method SaveQuestSubmission(submissionId: string, sub: Submission)
      requires Valid()
      modifies this`submissions
      ensures sub.questXP > 0 ==> Valid()
      ensures submissions == old(submissions)[submissionId := sub]
    {
      submissions := submissions[submissionId := sub];
    }

    /** `getQuestSubmission`: the stored submission or nothing; on a valid store it
        carries a positive reward. */
    function GetQuestSubmission(submissionId: string): (r: Option<Submission>)
      reads this
      ensures r.Some? <==> submissionId in submissions
      ensures r.Some? ==> r.value == submissions[submissionId]
      ensures Valid() && r.Some? ==> r.value.questXP > 0
    {
      if submissionId in submissions then Some(submissions[submissionId]) else None
    }

    /** `removeQuestSubmission` */
    method RemoveQuestSubmission(submissionId: string)
      requires Valid()
      modifies this`submissions
      ensures Valid()
      ensures submissions == old(submissions) - {submissionId}
    {
      submissions := submissions - {submissionId};
    }
  }
}
