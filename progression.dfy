/** The progression rules of database.js: the player record and its defaults, the XP
    curve, the rank table and class eligibility. The loop of `addXP` itself lives in
    Database.Store.AddXP; LevelUp is the function it is proved against. */
module Progression {
  import opened Wrappers

  datatype Rank = E | D | C | B | A | S | N

  /** A player record. `playerClass` is the record's `class` field; it holds the name
      taken from a class button, which need not be one of the four offered. */
  datatype Player = Player(
    id: string,
    title: string,
    job: string,
    playerClass: Option<string>,
    level: nat,
    xp: int,
    rank: Rank,
    questsCompleted: nat,
    activeQuests: seq<string>,
    accepted: bool)

  /** The record `getUser` creates on first sight and `resetPlayer` writes back. */
  function DefaultPlayer(id: string): (p: Player) {
    Player(id, "None", "Not Assigned", None, 0, 0, E, 0, [], false)
  }

  /** The record `getUser(id)` hands back: the stored one, or a fresh default. */
  function PlayerOf(users: map<string, Player>, id: string): (p: Player) {
    if id in users then users[id] else DefaultPlayer(id)
  }

  /** XP needed to leave `level`. */
  function XpRequired(level: int): (required: int) {
    1000 + level * 200
  }

  lemma XpRequiredIncreasing(lo: nat, hi: nat)
    requires lo < hi
    ensures 1000 <= XpRequired(lo) < XpRequired(hi)
  {
  }

  /** The rank table, searched from the top. */
  const RankThresholds: seq<(Rank, nat)> :=
    [(N, 100), (S, 75), (A, 50), (B, 35), (C, 25), (D, 10), (E, 0)]

  /** The rank a level earns: the highest tier whose threshold it reaches. */
  function RankFor(level: nat): (r: Rank) {
    if level >= 100 then N
    else if level >= 75 then S
    else if level >= 50 then A
    else if level >= 35 then B
    else if level >= 25 then C
    else if level >= 10 then D
    else E
  }

  /** The tiers in ascending order, E lowest. */
  function Tier(r: Rank): nat {
    match r
    case E => 0
    case D => 1
    case C => 2
    case B => 3
    case A => 4
    case S => 5
    case N => 6
  }

  /** A higher level never earns a lower rank. */
  lemma RankMonotone(lo: nat, hi: nat)
    requires lo <= hi
    ensures Tier(RankFor(lo)) <= Tier(RankFor(hi))
  {
  }

  /** `updateRank`: walk the table from the top and take the first tier whose threshold
      `level` reaches. The last tier's threshold is 0, so the walk always stops inside the
      table and the rank is always assigned. */
  method UpdateRank(level: nat) returns (rank: Rank)
    ensures rank == RankFor(level)
  {
    var i := 0;
    while level < RankThresholds[i].1
      invariant 0 <= i < |RankThresholds|
      invariant forall j :: 0 <= j < i ==> level < RankThresholds[j].1
    {
      i := i + 1;
    }
    rank := RankThresholds[i].0;
    FirstReachedTier(level, i);
  }

  /** The first tier of the table that `level` reaches is the rank RankFor gives. */
  lemma FirstReachedTier(level: nat, i: nat)
    requires i < |RankThresholds| && level >= RankThresholds[i].1
    requires forall j :: 0 <= j < i ==> level < RankThresholds[j].1
    ensures RankThresholds[i].0 == RankFor(level)
  {
    if i > 0 {
      assert level < RankThresholds[i - 1].1;
    }
  }

  /** Where the level-up loop leaves level, xp and rank. */
  datatype Progress = Progress(level: nat, xp: int, rank: Rank)

  /** The `while (user.xp >= xpRequired)` loop of `addXP`: each pass pays the current
      threshold, moves up one level and recomputes the rank. */
  function LevelUp(level: nat, xp: int, rank: Rank): (r: Progress)
    ensures r.level >= level
    ensures r.xp < XpRequired(r.level)
    ensures xp >= 0 ==> r.xp >= 0
    ensures r.level == level ==> r.xp == xp && r.rank == rank
    ensures r.level > level ==> r.rank == RankFor(r.level)
    decreases if xp > 0 then xp else 0
  {
    if xp >= XpRequired(level) then
      LevelUp(level + 1, xp - XpRequired(level), RankFor(level + 1))
    else
      Progress(level, xp, rank)
  }

  /** The XP it takes to climb from level 0 to `level`. */
  function XpBelow(level: nat): nat {
    if level == 0 then 0 else XpBelow(level - 1) + XpRequired(level - 1)
  }

  /** Everything a player has earned, in XP: the thresholds paid plus the XP in hand. */
  function TotalXp(level: nat, xp: int): int {
    XpBelow(level) + xp
  }

  /** The closed form of the curve: reaching level L costs 1000·L + 100·L·(L-1). */
  lemma {:induction false} XpBelowClosedForm(level: nat)
    ensures XpBelow(level) == 1000 * level + 100 * level * (level - 1)
  {
    if level > 0 {
      XpBelowClosedForm(level - 1);
      var l := level - 1;
      assert 100 * level * (level - 1) == 100 * l * (l - 1) + 200 * l;
    }
  }

  lemma {:induction false} XpBelowGrows(lo: nat, hi: nat)
    requires lo < hi
    ensures XpBelow(lo) + XpRequired(lo) <= XpBelow(hi)
    decreases hi - lo
  {
    if lo + 1 < hi {
      XpBelowGrows(lo + 1, hi);
    }
  }

  /** Levelling up neither creates nor destroys XP. */
  lemma {:induction false} LevelUpConserves(level: nat, xp: int, rank: Rank)
    ensures TotalXp(LevelUp(level, xp, rank).level, LevelUp(level, xp, rank).xp) == TotalXp(level, xp)
    decreases if xp > 0 then xp else 0
  {
    if xp >= XpRequired(level) {
      LevelUpConserves(level + 1, xp - XpRequired(level), RankFor(level + 1));
    }
  }

  /** A level and an in-range XP are determined by the total they represent. */
  lemma TotalDeterminesProgress(l1: nat, x1: int, l2: nat, x2: int)
    requires 0 <= x1 < XpRequired(l1) && 0 <= x2 < XpRequired(l2)
    requires TotalXp(l1, x1) == TotalXp(l2, x2)
    ensures l1 == l2 && x1 == x2
  {
    if l1 < l2 {
      XpBelowGrows(l1, l2);
    } else if l2 < l1 {
      XpBelowGrows(l2, l1);
    }
  }

  /** The invariant the store keeps for every player: XP in hand is below the next
      threshold and the rank is the one the level earns. */
  predicate WellFormed(p: Player) {
    0 <= p.xp < XpRequired(p.level) && p.rank == RankFor(p.level)
  }

  /** The record `addXP(userId, amount)` leaves. */
  function AddXpTo(p: Player, amount: int): (q: Player)
    ensures q == p.(level := q.level, xp := q.xp, rank := q.rank, questsCompleted := q.questsCompleted)
    ensures q.questsCompleted == p.questsCompleted + 1
    ensures q.level >= p.level
    ensures q.level == p.level ==> q.rank == p.rank
    ensures q.level > p.level ==> q.rank == RankFor(q.level)
    ensures TotalXp(q.level, q.xp) == TotalXp(p.level, p.xp) + amount
    ensures WellFormed(p) && amount >= 0 ==> WellFormed(q)
  {
    var r := LevelUp(p.level, p.xp + amount, p.rank);
    LevelUpConserves(p.level, p.xp + amount, p.rank);
    p.(level := r.level, xp := r.xp, rank := r.rank, questsCompleted := p.questsCompleted + 1)
  }

  /** Where `addXP`'s loop stops is where `LevelUp` ends: once the XP in hand is below
      the next threshold, the record with those values is the one `AddXpTo` describes. */
  lemma LoopExit(u: Player, amount: int, level: nat, xp: int, rank: Rank)
    requires xp < XpRequired(level)
    requires LevelUp(level, xp, rank) == LevelUp(u.level, u.xp + amount, u.rank)
    ensures u.(level := level, xp := xp, rank := rank, questsCompleted := u.questsCompleted + 1) == AddXpTo(u, amount)
  {
  }

  /** Splitting a grant changes nothing but the quest count: `addXP(a)` then `addXP(b)`
      reaches the same level, XP and rank as `addXP(a + b)`. */
  lemma AddXpSplit(p: Player, a: int, b: int)
    requires WellFormed(p) && a >= 0 && b >= 0
    ensures AddXpTo(AddXpTo(p, a), b) == AddXpTo(p, a + b).(questsCompleted := p.questsCompleted + 2)
  {
    var two := AddXpTo(AddXpTo(p, a), b);
    var one := AddXpTo(p, a + b);
    TotalDeterminesProgress(two.level, two.xp, one.level, one.xp);
  }

  /** 2500 XP from scratch pays 1000 and 1200 and leaves 300 at level 2, whether it
      arrives at once or as 1000 then 1500. */
  lemma GrantOf2500(id: string)
    ensures AddXpTo(DefaultPlayer(id), 2500).(questsCompleted := 0) == DefaultPlayer(id).(level := 2, xp := 300)
    ensures AddXpTo(AddXpTo(DefaultPlayer(id), 1000), 1500) == DefaultPlayer(id).(level := 2, xp := 300, questsCompleted := 2)
  {
    AddXpSplit(DefaultPlayer(id), 1000, 1500);
  }

  /** `canSelectClass`: level 10 reached and no class stored (a strict `=== null`). */
  predicate CanSelectClass(p: Player) {
    p.level >= 10 && p.playerClass == None
  }

  /** The handlers' `if (user.class)`: a stored, non-empty class name. */
  predicate HasClass(p: Player) {
    p.playerClass.Some? && p.playerClass.value != ""
  }
}
