/** The `/class` command of commands/class.js: a level and class gate in front of the
    four class buttons. */
module ClassCommand {
  import opened Wrappers
  import opened Progression
  import opened Database

  /** The four classes, in the order their buttons appear. */
  const ClassNames: seq<string> := ["Assassin", "Mage", "Tank", "Spy"]

  /** No class name holds the `_` that separates the pieces of a button id. */
  lemma ClassNamesPlain(i: nat)
    requires i < |ClassNames|
    ensures '_' !in ClassNames[i] && ClassNames[i] != ""
  {
    var name := ClassNames[i];
    forall j | 0 <= j < |name|
      ensures name[j] != '_'
    {
      assert name[j] in {'A', 's', 'a', 'i', 'n', 'M', 'g', 'e', 'T', 'k', 'S', 'p', 'y'};
    }
  }

  /** `class_select_<Class>_<userId>` */
  function SelectButtonId(className: string, userId: string): string {
    "class_select_" + className + "_" + userId
  }

  datatype ClassOption = ClassOption(name: string, customId: string)

  /** The row of class buttons addressed to `userId`: one per class, in order, each
      carrying the class name and the player it is meant for. */
  function ClassOptions(userId: string): (opts: seq<ClassOption>)
    ensures |opts| == |ClassNames|
    ensures forall i :: 0 <= i < |opts| ==>
      opts[i].name == ClassNames[i] && opts[i].customId == SelectButtonId(ClassNames[i], userId)
  {
    [ClassOption("Assassin", SelectButtonId("Assassin", userId)),
     ClassOption("Mage", SelectButtonId("Mage", userId)),
     ClassOption("Tank", SelectButtonId("Tank", userId)),
     ClassOption("Spy", SelectButtonId("Spy", userId))]
  }

  datatype ClassReply = NeedLevel(level: nat) | AlreadyChosen(className: string) | Offer(options: seq<ClassOption>)

  /** The level check comes first, so a player below level 10 hears about the level
      even with a class set; a class name that is set and non-empty refuses; anyone
      else is offered the four classes. */
  function Decide(p: Player, callerId: string): (r: ClassReply)
    ensures r.NeedLevel? <==> p.level < 10
    ensures r.NeedLevel? ==> r.level == p.level
    ensures r.AlreadyChosen? <==> p.level >= 10 && HasClass(p)
    ensures r.AlreadyChosen? ==> Some(r.className) == p.playerClass
    ensures r.Offer? <==> p.level >= 10 && !HasClass(p)
    ensures r.Offer? ==> r.options == ClassOptions(callerId)
  {
    if p.level < 10 then NeedLevel(p.level)
    else if HasClass(p) then AlreadyChosen(p.playerClass.value)
    else Offer(ClassOptions(callerId))
  }

  /** The command's gate and `canSelectClass` agree except on a stored empty class
      name, which the gate treats as no class and `canSelectClass` as a class. */
  lemma DecideAgreesWithCanSelectClass(p: Player, callerId: string)
    ensures CanSelectClass(p) ==> Decide(p, callerId).Offer?
    ensures Decide(p, callerId).Offer? && p.playerClass != Some("") ==> CanSelectClass(p)
    ensures Decide(p, callerId).Offer? && p.playerClass == Some("") ==> !CanSelectClass(p)
  {
  }

  /** `execute`: read the caller's record (created with the defaults if new) and
      answer; no field of any record is set. */
  method Execute(s: Store, callerId: string) returns (reply: ClassReply)
    requires s.Valid()
    modifies s`users
    ensures s.Valid()
    ensures s.users == old(s.users)[callerId := PlayerOf(old(s.users), callerId)]
    ensures reply == Decide(PlayerOf(old(s.users), callerId), callerId)
  {
    var p := s.GetUser(callerId);
    reply := Decide(p, callerId);
  }
}
