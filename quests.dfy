/** The `/quests` command of commands/quests.js: the host-only creation form and its
    validation, acceptance with its submission snapshot, and the quest board. */
module QuestCommands {
  import opened Wrappers
  import opened JsText
  import opened Lists
  import opened Progression
  import opened QuestRules
  import opened Reviews
  import opened Database
  import opened Access

  /** The letter a rank is written as. */
  function RankLetter(r: Rank): string {
    match r
    case E => "E"
    case D => "D"
    case C => "C"
    case B => "B"
    case A => "A"
    case S => "S"
    case N => "N"
  }

  /** The rank field, upper-cased, must be one of E, D, C, B, A, S: the form never
      creates an N-rank quest. */
  function ParseRank(raw: string): (r: Option<Rank>)
    ensures r.Some? ==> r.value != N && RankLetter(r.value) == ToUpper(raw)
    ensures r.None? ==> forall k: Rank :: k != N ==> RankLetter(k) != ToUpper(raw)
  {
    var u := ToUpper(raw);
    if u == "E" then Some(E)
    else if u == "D" then Some(D)
    else if u == "C" then Some(C)
    else if u == "B" then Some(B)
    else if u == "A" then Some(A)
    else if u == "S" then Some(S)
    else None
  }

  /** Every rank but N is accepted, in either case. */
  lemma ParseRankLetter(r: Rank)
    ensures r != N ==> ParseRank(RankLetter(r)) == Some(r)
    ensures r == N ==> ParseRank(RankLetter(r)) == None
    ensures ParseRank([(RankLetter(r)[0] as int + 32) as char]) == ParseRank(RankLetter(r))
  {
    var lower := [(RankLetter(r)[0] as int + 32) as char];
    assert ToUpper(lower) == RankLetter(r);
  }

  /** One options piece: kept when it is non-empty and starts with an integer. */
  function OptionPart(parts: seq<string>, i: nat): Option<int> {
    if i < |parts| && parts[i] != "" then ParseInt(parts[i]) else None
  }

  /** `parts.map(p => p.trim())` */
  function TrimAll(pieces: seq<string>): (parts: seq<string>)
    ensures |parts| == |pieces| && forall i :: 0 <= i < |pieces| ==> parts[i] == Trim(pieces[i])
  {
    seq(|pieces|, i requires 0 <= i < |pieces| => Trim(pieces[i]))
  }

  /** The optional "duration,maxParticipants" field: split on commas, each piece trimmed;
      piece 0 is the duration in hours and piece 1 the capacity, each kept only if it
      parses. Anything malformed or missing is silently null. */
  function ParseOptions(raw: string): (r: (Option<int>, Option<int>))
    ensures Trim(raw) == "" ==> r == (None, None)
  {
    if Trim(raw) == "" then (None, None)
    else
      var parts := TrimAll(Split(raw, ','));
      (OptionPart(parts, 0), OptionPart(parts, 1))
  }

  /** Two comma-free pieces joined by a comma split back into those pieces. */
  lemma SplitAtComma(a: string, b: string)
    requires ',' !in a && ',' !in b
    ensures Split(a + "," + b, ',') == [a, b]
  {
    assert a + "," + b == a + [','] + b;
    SplitFirst(a, b, ',');
  }

  /** Options that split into two pieces read as the two trimmed pieces. */
  lemma ParseOptionsOfTwo(raw: string, a: string, b: string)
    requires raw != [] && !IsSpace(raw[0]) && !IsSpace(raw[|raw| - 1])
    requires Split(raw, ',') == [a, b]
    ensures ParseOptions(raw) == (OptionPart([Trim(a), Trim(b)], 0), OptionPart([Trim(a), Trim(b)], 1))
  {
    TrimUnspaced(raw);
    TrimAllPair(a, b);
  }

  lemma TrimAllPair(a: string, b: string)
    ensures TrimAll([a, b]) == [Trim(a), Trim(b)]
  {
    var parts := TrimAll([a, b]);
    assert parts[0] == Trim(a) && parts[1] == Trim(b);
  }

  /** What the form's placeholder suggests, "24,5", reads back as the two numbers. */
  lemma ParseOptionsOfPair(duration: nat, capacity: nat)
    ensures ParseOptions(NatToString(duration) + "," + NatToString(capacity)) == (Some(duration), Some(capacity))
  {
    var d, m := NatToString(duration), NatToString(capacity);
    assert IsDigit(d[0]) && IsDigit(m[|m| - 1]);
    TrimOfNatToString(duration);
    TrimOfNatToString(capacity);
    ParseIntOfNat(duration);
    ParseIntOfNat(capacity);
    ReadPair(d, m, duration, capacity);
  }

  /** Two trimmed, comma-free pieces that parse, joined by a comma. */
  lemma ReadPair(d: string, m: string, dv: int, mv: int)
    requires d != [] && m != [] && !IsSpace(d[0]) && !IsSpace(m[|m| - 1])
    requires ',' !in d && ',' !in m && Trim(d) == d && Trim(m) == m
    requires ParseInt(d) == Some(dv) && ParseInt(m) == Some(mv)
    ensures ParseOptions(d + "," + m) == (Some(dv), Some(mv))
  {
    SplitAtComma(d, m);
    JoinedEnds(d, m);
    ParseOptionsOfTwo(d + "," + m, d, m);
  }

  /** Joining with a comma keeps the first piece's first character and the second
      piece's last. */
  lemma JoinedEnds(d: string, m: string)
    requires d != [] && m != []
    ensures (d + "," + m)[0] == d[0] && (d + "," + m)[|d + "," + m| - 1] == m[|m| - 1]
  {
  }

  /** A lone number is a duration with no capacity; a leading comma gives a capacity
      with no duration. */
  lemma ParseOptionsOfOne(n: nat)
    ensures ParseOptions(NatToString(n)) == (Some(n), None)
    ensures ParseOptions("," + NatToString(n)) == (None, Some(n))
  {
    var m := NatToString(n);
    assert IsDigit(m[0]) && IsDigit(m[|m| - 1]);
    TrimOfNatToString(n);
    ParseIntOfNat(n);
    ReadOne(m, n);
    ReadSecond(m, n);
  }

  /** One trimmed, comma-free piece that parses is the duration alone. */
  lemma ReadOne(m: string, v: int)
    requires m != [] && !IsSpace(m[0]) && !IsSpace(m[|m| - 1])
    requires ',' !in m && Trim(m) == m && ParseInt(m) == Some(v)
    ensures ParseOptions(m) == (Some(v), None)
  {
    TrimUnspaced(m);
    assert Split(m, ',') == [m];
    assert TrimAll([m]) == [m];
  }

  /** The same piece after a leading comma is the capacity alone. */
  lemma ReadSecond(m: string, v: int)
    requires m != [] && !IsSpace(m[|m| - 1])
    requires ',' !in m && Trim(m) == m && ParseInt(m) == Some(v)
    ensures ParseOptions("," + m) == (None, Some(v))
  {
    var raw := "," + m;
    SplitAtComma("", m);
    assert "" + "," + m == raw;
    assert raw[0] == ',' && raw[|raw| - 1] == m[|m| - 1];
    ParseOptionsOfTwo(raw, "", m);
    TrimUnspaced("");
  }

  /** Options holding no digit at all are ignored, never refused. */
  lemma ParseOptionsWithoutDigits(raw: string)
    requires forall c :: c in raw ==> !IsDigit(c)
    ensures ParseOptions(raw) == (None, None)
  {
    if Trim(raw) != "" {
      var parts := TrimAll(Split(raw, ','));
      PieceWithoutDigits(raw, 0);
      PieceWithoutDigits(raw, 1);
    }
  }

  /** Each trimmed piece of digit-free options is NaN to `parseInt`. */
  lemma PieceWithoutDigits(raw: string, k: nat)
    requires forall c :: c in raw ==> !IsDigit(c)
    ensures OptionPart(TrimAll(Split(raw, ',')), k) == None
  {
    var pieces := Split(raw, ',');
    if k < |pieces| {
      var t := Trim(pieces[k]);
      ParseIntNoDigits(t);
    }
  }

  datatype FormError = InvalidRank | InvalidXp

  /** The creation form's validation: rank first, then a positive XP reward, then the
      lenient options. */
  function ParseQuestForm(title: string, description: string, rankRaw: string, xpRaw: string,
                          optionsRaw: string): (r: Result<QuestTerms, FormError>)
    ensures r == Err(InvalidRank) <==> ParseRank(rankRaw).None?
    ensures r == Err(InvalidXp) <==>
      ParseRank(rankRaw).Some? && (ParseInt(xpRaw).None? || ParseInt(xpRaw).value <= 0)
    ensures r.Ok? ==>
      && r.value.rank != N && r.value.xpReward > 0
      && r.value.title == title && r.value.description == description
      && Some(r.value.rank) == ParseRank(rankRaw) && Some(r.value.xpReward) == ParseInt(xpRaw)
      && (r.value.duration, r.value.maxParticipants) == ParseOptions(optionsRaw)
  {
    var rank := ParseRank(rankRaw);
    var xp := ParseInt(xpRaw);
    if rank.None? then Err(InvalidRank)
    else if xp.None? || xp.value <= 0 then Err(InvalidXp)
    else
      var (duration, capacity) := ParseOptions(optionsRaw);
      Ok(QuestTerms(title, description, rank.value, xp.value, duration, capacity))
  }

  datatype FormGate = ShowCreateForm | NotGuildMaster

  /** `createQuestModal`: only the host is shown the form. */
  function OpenCreateForm(callerId: string, hostId: Option<string>): (r: FormGate)
    ensures r == ShowCreateForm <==> hostId.Some? && hostId.value == callerId
  {
    if IsHost(callerId, hostId) then ShowCreateForm else NotGuildMaster
  }

  datatype ModalReply = FormRefused(error: FormError) | CreationThrew | Posted(quest: Quest)

  /** `handleQuestModal`: a refused form creates nothing; an accepted one creates the
      quest through `createQuest`, which throws, storing nothing and replying nothing,
      when the quest's deadline lies outside the `Date` range. The form carries no host
      check of its own. */
  method HandleQuestModal(s: Store, callerId: string, title: string, description: string,
                          rankRaw: string, xpRaw: string, optionsRaw: string, now: nat)
    returns (reply: ModalReply)
    requires s.Valid()
    modifies s`quests, s`questOrder
    ensures s.Valid()
    ensures reply.FormRefused? <==> ParseQuestForm(title, description, rankRaw, xpRaw, optionsRaw).Err?
    ensures reply.FormRefused? ==>
      reply.error == ParseQuestForm(title, description, rankRaw, xpRaw, optionsRaw).error
    ensures reply.CreationThrew? <==>
      && ParseQuestForm(title, description, rankRaw, xpRaw, optionsRaw).Ok?
      && !Storable(NewQuest(NatToString(now), ParseQuestForm(title, description, rankRaw, xpRaw, optionsRaw).value, callerId, now))
    ensures !reply.Posted? ==> s.quests == old(s.quests) && s.questOrder == old(s.questOrder)
    ensures reply.Posted? ==>
      && reply.quest == NewQuest(NatToString(now), ParseQuestForm(title, description, rankRaw, xpRaw, optionsRaw).value, callerId, now)
      && s.quests == old(s.quests)[reply.quest.id := reply.quest]
      && s.questOrder == if reply.quest.id in old(s.quests) then old(s.questOrder) else old(s.questOrder) + [reply.quest.id]
  {
    var form := ParseQuestForm(title, description, rankRaw, xpRaw, optionsRaw);
    if form.Err? {
      return FormRefused(form.error);
    }
    var created := s.CreateQuest(form.value, callerId, now);
    if created.None? {
      return CreationThrew;
    }
    reply := Posted(created.value);
  }

  /** Options of a lone "2400000001" pass the form, yet the deadline they give lies beyond
      the `Date` range, so the quest is never stored. */
  lemma OverlongDurationThrows(title: string, description: string, rankRaw: string,
                               xpRaw: string, callerId: string, now: nat)
    requires ParseQuestForm(title, description, rankRaw, xpRaw, NatToString(2_400_000_001)).Ok?
    ensures ParseQuestForm(title, description, rankRaw, xpRaw, NatToString(2_400_000_001)).value.duration
      == Some(2_400_000_001)
    ensures !Storable(NewQuest(NatToString(now),
      ParseQuestForm(title, description, rankRaw, xpRaw, NatToString(2_400_000_001)).value, callerId, now))
  {
    ParseOptionsOfOne(2_400_000_001);
    var terms := ParseQuestForm(title, description, rankRaw, xpRaw, NatToString(2_400_000_001)).value;
    DeadlineBeyondDateRange(NatToString(now), terms, callerId, now);
  }

  datatype AcceptReply = AcceptRefused(reason: Refusal) | Accepted(submissionId: string, dmSent: bool)

  /** Every quest within its capacity. */
  predicate AllWithinCapacity(qs: map<string, Quest>) {
    forall id :: id in qs ==> WithinCapacity(qs[id])
  }

  /** `/quests accept`: refused with the first failing check and nothing changed; else
      the player joins the quest and a pending submission snapshotting the quest's
      title, rank and reward is stored under `<userId>_<questId>_<now>`. The DM that
      follows may fail; that changes the reply only. */
  method HandleAcceptQuest(s: Store, questId: string, userId: string, username: string,
                           guildId: string, channelId: string, now: nat, dmDelivered: bool)
    returns (reply: AcceptReply)
    requires s.Valid()
    modifies s`quests, s`users, s`submissions
    ensures s.Valid()
    ensures reply.AcceptRefused? <==> old(s.CanAcceptQuest(questId, userId, now)) != Allowed
    ensures reply.AcceptRefused? ==>
      && Refused(reply.reason) == old(s.CanAcceptQuest(questId, userId, now))
      && s.quests == old(s.quests) && s.users == old(s.users) && s.submissions == old(s.submissions)
    ensures reply.Accepted? ==>
      && questId in old(s.quests)
      && reply.submissionId == SubmissionId(userId, questId, now)
      && reply.dmSent == dmDelivered
      && s.quests == old(s.quests)[questId := WithParticipant(old(s.quests)[questId], userId)]
      && s.users == old(s.users)[userId :=
           PlayerOf(old(s.users), userId).(activeQuests := AppendIfAbsent(PlayerOf(old(s.users), userId).activeQuests, questId))]
      && s.submissions == old(s.submissions)[reply.submissionId :=
           Snapshot(old(s.quests)[questId], userId, username, guildId, channelId, now)]
    ensures AllWithinCapacity(old(s.quests)) ==> AllWithinCapacity(s.quests)
  {
    var quest := s.GetQuest(questId);
    if quest.None? || !quest.value.active {
      return AcceptRefused(NotFoundOrInactive);
    }
    var verdict := s.CanAcceptQuest(questId, userId, now);
    if verdict.Refused? {
      return AcceptRefused(verdict.reason);
    }
    if WithinCapacity(quest.value) {
      AcceptanceKeepsCapacity(quest.value, userId, now);
    }
    var _ := s.AcceptQuest(questId, userId);
    var submissionId := SubmissionId(userId, questId, now);
    s.SaveQuestSubmission(submissionId, Snapshot(quest.value, userId, username, guildId, channelId, now));
    reply := Accepted(submissionId, dmDelivered);
  }

  /** The board shows the first ten quests of the listing. */
  function QuestBoard(listed: seq<Quest>): (board: seq<Quest>)
    ensures board <= listed
    ensures |board| == if |listed| < 10 then |listed| else 10
  {
    if |listed| <= 10 then listed else listed[..10]
  }

  /** `/quests list`: sweep and list through `getAllQuests`, then show at most ten. */
  method ListQuests(s: Store, now: int) returns (board: seq<Quest>)
    requires s.Valid()
    modifies s`quests
    ensures s.Valid()
    ensures s.quests == Swept(old(s.quests), now)
    ensures board == QuestBoard(Listed(old(s.quests), s.questOrder, now))
  {
    var list := s.GetAllQuests(now);
    board := QuestBoard(list);
  }
}
