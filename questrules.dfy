/** The quest rules of database.js: the quest record, lazy expiry, the ordered acceptance
    check and the capacity bookkeeping. Timestamps are milliseconds. */
module QuestRules {
  import opened Wrappers
  import opened Lists
  import opened Progression

  const MsPerHour: int := 60 * 60 * 1000

  /** What the creation form contributes to a quest. */
  datatype QuestTerms = QuestTerms(
    title: string,
    description: string,
    rank: Rank,
    xpReward: int,
    duration: Option<int>,
    maxParticipants: Option<int>)

  datatype Quest = Quest(
    id: string,
    title: string,
    description: string,
    rank: Rank,
    xpReward: int,
    duration: Option<int>,
    maxParticipants: Option<int>,
    createdBy: string,
    createdAt: int,
    expiresAt: Option<int>,
    acceptedBy: seq<string>,
    active: bool)

  /** The record `createQuest` stores: a zero duration is falsy and means no expiry. */
  function NewQuest(id: string, terms: QuestTerms, createdBy: string, now: int): (q: Quest)
    ensures q.acceptedBy == [] && q.active
    ensures q.id == id && q.createdAt == now && q.xpReward == terms.xpReward
    ensures q.title == terms.title && q.description == terms.description && q.rank == terms.rank
    ensures q.duration == terms.duration && q.maxParticipants == terms.maxParticipants
    ensures q.createdBy == createdBy
    ensures q.expiresAt.None? <==> terms.duration.None? || terms.duration.value == 0
    ensures q.expiresAt.Some? ==> q.expiresAt.value == now + terms.duration.value * MsPerHour
  {
    var expiresAt :=
      if terms.duration.Some? && terms.duration.value != 0
      then Some(now + terms.duration.value * MsPerHour) else None;
    Quest(id, terms.title, terms.description, terms.rank, terms.xpReward, terms.duration,
          terms.maxParticipants, createdBy, now, expiresAt, [], true)
  }

  /** `q.expiresAt && new Date(q.expiresAt) < now`: expired strictly after the deadline. */
  predicate Expired(q: Quest, now: int) {
    q.expiresAt.Some? && q.expiresAt.value < now
  }

  /** The largest distance from the epoch, in milliseconds, that a JavaScript `Date` holds. */
  const MaxTimeValue: int := 8_640_000_000_000_000

  /** Whether `new Date(t)` is a valid date; outside this range its `toISOString` throws a
      `RangeError`. */
  predicate InDateRange(t: int) {
    -MaxTimeValue <= t <= MaxTimeValue
  }

  /** Whether `createQuest` can write the record's dates as ISO strings: its creation time and,
      when there is one, its deadline lie in the `Date` range. Otherwise building the record
      throws before `quests[id]` is assigned. */
  predicate Storable(q: Quest) {
    InDateRange(q.createdAt) && (q.expiresAt.Some? ==> InDateRange(q.expiresAt.value))
  }

  /** A duration beyond 2.4 billion hours puts the deadline past the `Date` range whatever
      the (non-negative) clock says, so `createQuest` throws. */
  lemma DeadlineBeyondDateRange(id: string, terms: QuestTerms, createdBy: string, now: int)
    requires now >= 0
    requires terms.duration.Some? && terms.duration.value > 2_400_000_000
    ensures !Storable(NewQuest(id, terms, createdBy, now))
  {
    var d := terms.duration.value;
    assert d * MsPerHour >= 2_400_000_001 * MsPerHour;
  }

  /** With a clock in the first half of the `Date` range, any duration of at most 1.2 billion
      hours either way gives a deadline `createQuest` can write. */
  lemma ModestDeadlineStorable(id: string, terms: QuestTerms, createdBy: string, now: int)
    requires 0 <= now <= MaxTimeValue / 2
    requires terms.duration.None? || -1_200_000_000 <= terms.duration.value <= 1_200_000_000
    ensures Storable(NewQuest(id, terms, createdBy, now))
  {
    if terms.duration.Some? {
      var d := terms.duration.value;
      if d >= 0 {
        assert d * MsPerHour <= 1_200_000_000 * MsPerHour;
      } else {
        assert (-d) * MsPerHour <= 1_200_000_000 * MsPerHour;
      }
    }
  }

  /** `quest.maxParticipants && quest.acceptedBy.length >= quest.maxParticipants`: a zero
      or missing capacity is falsy and means unlimited. */
  predicate AtCapacity(q: Quest) {
    q.maxParticipants.Some? && q.maxParticipants.value != 0
    && |q.acceptedBy| >= q.maxParticipants.value
  }

  datatype Refusal = NotFoundOrInactive | HasExpired | AlreadyAccepted | Full

  datatype Verdict = Allowed | Refused(reason: Refusal)

  /** `canAcceptQuest`: the checks run in a fixed order and the first failing one is the
      answer. */
  function CanAccept(quest: Option<Quest>, userId: string, now: int): (v: Verdict)
    ensures v == Allowed <==>
      quest.Some? && quest.value.active && !Expired(quest.value, now)
      && userId !in quest.value.acceptedBy && !AtCapacity(quest.value)
    ensures v == Refused(NotFoundOrInactive) <==> quest.None? || !quest.value.active
    ensures v == Refused(HasExpired) <==>
      quest.Some? && quest.value.active && Expired(quest.value, now)
    ensures v == Refused(AlreadyAccepted) <==>
      quest.Some? && quest.value.active && !Expired(quest.value, now)
      && userId in quest.value.acceptedBy
    ensures v == Refused(Full) <==>
      quest.Some? && quest.value.active && !Expired(quest.value, now)
      && userId !in quest.value.acceptedBy && AtCapacity(quest.value)
  {
    if quest.None? || !quest.value.active then Refused(NotFoundOrInactive)
    else if Expired(quest.value, now) then Refused(HasExpired)
    else if userId in quest.value.acceptedBy then Refused(AlreadyAccepted)
    else if AtCapacity(quest.value) then Refused(Full)
    else Allowed
  }

  /** The quest after `acceptQuest` has added `userId` (at most once). */
  function WithParticipant(q: Quest, userId: string): Quest {
    q.(acceptedBy := AppendIfAbsent(q.acceptedBy, userId))
  }

  /** The capacity invariant: a positive capacity is never exceeded. */
  predicate WithinCapacity(q: Quest) {
    q.maxParticipants.Some? && q.maxParticipants.value > 0 ==> |q.acceptedBy| <= q.maxParticipants.value
  }

  /** An accepted player counts once toward capacity, and an accepted request never
      takes a quest past its capacity. */
  lemma AcceptanceKeepsCapacity(q: Quest, userId: string, now: int)
    requires CanAccept(Some(q), userId, now) == Allowed
    requires WithinCapacity(q)
    ensures |WithParticipant(q, userId).acceptedBy| == |q.acceptedBy| + 1
    ensures WithinCapacity(WithParticipant(q, userId))
  {
  }

  /** Once in, a player asking again is refused, so nobody is counted twice. */
  lemma SecondAcceptanceRefused(q: Quest, userId: string, now: int)
    ensures CanAccept(Some(WithParticipant(q, userId)), userId, now).Refused?
  {
  }

  /** A quest straight out of `createQuest` is open to everyone unless its duration or
      its capacity was a negative number: a negative duration puts the deadline in the
      past, and a negative capacity is truthy and always reached. */
  lemma FreshQuestOpen(id: string, terms: QuestTerms, createdBy: string, now: int, userId: string)
    ensures CanAccept(Some(NewQuest(id, terms, createdBy, now)), userId, now) == Allowed <==>
      (terms.duration.None? || terms.duration.value >= 0)
      && (terms.maxParticipants.None? || terms.maxParticipants.value >= 0)
  {
    var q := NewQuest(id, terms, createdBy, now);
    if terms.duration.Some? && terms.duration.value < 0 {
      assert terms.duration.value * MsPerHour < 0;
      assert Expired(q, now);
    }
    if terms.duration.Some? && terms.duration.value > 0 {
      assert terms.duration.value * MsPerHour > 0;
      assert !Expired(q, now);
    }
  }

  /** One quest as the listing sweep leaves it: deactivated if found expired. */
  function Sweep(q: Quest, now: int): (r: Quest)
    ensures r == q.(active := q.active && !Expired(q, now))
  {
    if q.active && Expired(q, now) then q.(active := false) else q
  }

  /** The quests after `getAllQuests` has swept them. */
  function Swept(qs: map<string, Quest>, now: int): (r: map<string, Quest>)
    ensures r.Keys == qs.Keys
    ensures forall id :: id in r ==> r[id] == Sweep(qs[id], now)
  {
    map id | id in qs :: Sweep(qs[id], now)
  }

  /** What `getAllQuests` returns: in key order, the quests still active and not
      expired. */
  function Listed(qs: map<string, Quest>, order: seq<string>, now: int): (r: seq<Quest>)
    ensures |r| <= |order|
    decreases |order|
  {
    if order == [] then []
    else
      var id := order[|order| - 1];
      var rest := Listed(qs, order[..|order| - 1], now);
      if id in qs && qs[id].active && !Expired(qs[id], now) then rest + [qs[id]] else rest
  }

  /** The listing holds only live quests of the map, and every live quest whose id is
      in the order. */
  lemma {:induction false} ListedExactly(qs: map<string, Quest>, order: seq<string>, now: int)
    ensures forall i :: 0 <= i < |Listed(qs, order, now)| ==>
      Listed(qs, order, now)[i].active && !Expired(Listed(qs, order, now)[i], now) && Listed(qs, order, now)[i] in qs.Values
    ensures forall id :: id in order && id in qs && qs[id].active && !Expired(qs[id], now) ==> qs[id] in Listed(qs, order, now)
    decreases |order|
  {
    if order != [] {
      var id := order[|order| - 1];
      ListedExactly(qs, order[..|order| - 1], now);
      assert forall k :: k in order ==> k == id || k in order[..|order| - 1];
    }
  }

  /** The sweep never reactivates a quest, and sweeping again later changes only what has
      expired since. */
  lemma {:induction false} SweepsCompose(qs: map<string, Quest>, earlier: int, later: int)
    requires earlier <= later
    ensures forall id :: id in qs && Swept(qs, later)[id].active ==> qs[id].active
    ensures Swept(Swept(qs, earlier), later) == Swept(qs, later)
  {
    var lhs := Swept(Swept(qs, earlier), later);
    assert forall id :: id in lhs ==> lhs[id] == Swept(qs, later)[id] by {
      forall id | id in lhs
        ensures lhs[id] == Swept(qs, later)[id]
      {
        if Expired(qs[id], earlier) {
          assert Expired(qs[id], later);
        }
      }
    }
  }

  /** Listing after a sweep at the same instant shows the same quests: the sweep only
      hides what the listing already skips. */
  lemma {:induction false} ListedAfterSweep(qs: map<string, Quest>, order: seq<string>, now: int)
    ensures Listed(Swept(qs, now), order, now) == Listed(qs, order, now)
    decreases |order|
  {
    if order != [] {
      ListedAfterSweep(qs, order[..|order| - 1], now);
    }
  }

  /** The store's invariant on quests: each is filed under its own id, pays a positive
      reward and lists each participant once, and `order` lists every id once. */
  predicate QuestsValid(qs: map<string, Quest>, order: seq<string>) {
    && Distinct(order)
    && (forall id :: id in order ==> id in qs)
    && (forall id :: id in qs ==> id in order)
    && (forall id :: id in qs ==> qs[id].id == id && qs[id].xpReward > 0 && Distinct(qs[id].acceptedBy))
  }
}
