# Level-up: a verified model of the quest and progression core

Level-up is a Discord bot that runs a small quest economy. Players register, accept quests
posted by the guild master (the host, whose id is `HOST_ID`), send in their work, and get
experience when the host approves it. Experience raises their level along the curve
`1000 + 200·level`. The level sets a rank (E, D, C, B, A, S, N). At level 10 a player may
pick one of four classes, once.

This project models the bot's in-memory state and the handlers that change it:

- **Progression** (`progression.dfy`, `database.dfy`): the player record and its defaults, the
  XP curve, the multi-level loop of `addXP`, the rank table walked by `updateRank`, class
  eligibility, and player reset.
- **Quest lifecycle** (`questrules.dfy`, `database.dfy`, `quests.dfy`):
  - creating a quest, with an optional expiry and capacity;
  - expiry applied lazily when quests are listed;
  - the ordered checks before a player may take a quest, where the first failing check gives the answer;
  - acceptance that never adds anyone twice;
  - parsing of the creation form (rank letter, XP, and the `"duration,max"` options);
  - a quest board that shows at most ten quests.
- **Review state machine** (`reviews.dfy`, `interactions.dfy`):
  - accepting a quest stores a submission with status `pending_submission`;
  - recording work moves it to `pending_review`;
  - approval or rejection deletes it;
  - an older review path works on pending reviews keyed by review id;
  - the class select / confirm / cancel buttons;
  - the registration gate and registration buttons;
  - parsing of button and modal custom ids.
- **Commands** (`resetcmd.dfy`, `classcmd.dfy`): the host gate and "no progress" check of
  `/reset`, and the level and class gate of `/class`.
- **Scenarios** (`workflow.dfy`): sequences of handler calls, for promises that span several
  interactions (a submission pays once, reset twice, accept twice, and so on).

The store is a class, `Database.Store`. It holds the four dictionaries as maps and keeps
the quests' key order in a sequence, because `Object.values` walks the dictionary in that
order. The database functions are methods of the store. The command and interaction
handlers are module-level methods that take the store as a parameter. Both are proved
against pure specification functions:

- `AddXpTo`, `LevelUp`: the effect of `addXP`;
- `CanAccept`: whether a player may take a quest;
- `Swept`, `Listed`: listing quests;
- `Snapshot`, `WithWork`: the submission records;
- `ParseQuestForm`, `ParseButton`: the form and custom-id parsers.

The lemmas beside these functions prove the properties:

- total XP is conserved, so splitting a grant changes nothing but the quest count;
- the rank is monotone in the level;
- accepting keeps every quest within its capacity;
- a second acceptance is refused;
- the sweep never reactivates a quest;
- numbers and ids round-trip through `toString`/`parseInt` and through the custom-id parsers.

The store invariant `Valid()` states:

- every player and every quest is filed under its own id;
- every player has `0 ≤ xp < 1000 + 200·level` and the rank its level earns;
- no player's `activeQuests` and no quest's `acceptedBy` lists an id twice;
- every quest and submission carries a positive reward;
- the key order lists every quest exactly once.

Values that come from outside become parameters:

- the current time, `now`, in milliseconds;
- `HOST_ID`, as an `Option<string>`;
- whether a direct message or channel post reached its target, as a `bool`.

The code is modelled as written, including a few places where a reader might expect
something else:

- Approving a submission pays the live quest's `xpReward` and uses the snapshot only when the
  quest is gone (index.js:342-348). The snapshot taken at acceptance might be expected to
  fix the payment, but it does not while the quest exists.
- Rejecting deletes only the submission (index.js:415-423). The player stays in the quest's
  `acceptedBy`, so asking for the same quest again is refused as already accepted
  (`Workflow.AcceptRejectAccept`). A rejected player cannot retry the same quest.
- The following check no host id; only `/reset` and opening the creation form do:
  - the legacy approve and reject buttons;
  - the submission approve and reject buttons;
  - the quest-creation modal itself.
- Buttons and modals are not behind the registration gate; only slash commands are
  (index.js:53-84).

## Model

| member | source | states |
|---|---|---|
| Progression.DefaultPlayer | database.js:36-47 | The record `getUser` creates and `resetPlayer` (database.js:67-78) writes back: title "None", job "Not Assigned", no class, level 0, XP 0, rank E, no quests, not registered. No contract of its own; `ResetCommand.Execute` and `Database.Store.ResetPlayer` are stated over it. |
| Progression.PlayerOf | database.js:34-51 | The record `getUser` hands back: the stored one, or the default for that id. No contract of its own; the store methods state their new state through it. |
| Progression.XpRequired | database.js:92-94 | `getXPRequired`: the XP needed to leave a level, 1000 + 200·level. No contract of its own; its properties are in the rows below. |
| Progression.XpRequiredIncreasing | database.js:92-94 | The XP needed to leave a level is at least 1000 and strictly increasing in the level. |
| Progression.RankFor | database.js:113-130 | The rank a level earns: the highest threshold it reaches. No contract of its own; `UpdateRank` is proved to agree with it. |
| Progression.RankMonotone | database.js:113-130 | A higher level never earns a lower rank. |
| Progression.UpdateRank | database.js:113-130 | Walking the threshold table from the top stops inside the table, at the rank `RankFor` assigns: N from 100, S from 75, A from 50, B from 35, C from 25, D from 10, else E. |
| Progression.FirstReachedTier | database.js:124-129 | The first table entry a level reaches, after failing all earlier ones, is the level's rank. |
| Progression.LevelUp | database.js:100-106 | The loop's end state: the level never drops, the XP left is below the next threshold and non-negative if it started so, and the rank is unchanged if no level was gained, else the new level's rank. |
| Progression.XpBelowClosedForm | database.js:92-94 | Reaching level L from 0 costs 1000·L + 100·L·(L−1) XP in total. |
| Progression.LevelUpConserves | database.js:100-106 | Levelling up conserves thresholds paid plus XP in hand. |
| Progression.TotalDeterminesProgress | database.js:100-106 | Two in-range (level, xp) pairs with the same lifetime total are equal. |
| Progression.AddXpTo | database.js:96-111 | `addXP` changes only level, xp, rank and questsCompleted. questsCompleted goes up by exactly 1. The level never drops. The rank moves only with a level gain. The lifetime total grows by exactly the amount. A non-negative grant keeps a well-formed record well formed. |
| Progression.LoopExit | database.js:101-111 | Where the loop stops, with the XP in hand below the threshold, is the record `AddXpTo` describes. |
| Progression.AddXpSplit | database.js:96-111 | `addXP(a)` then `addXP(b)` gives the same level, XP and rank as `addXP(a+b)`, with one more quest counted. |
| Progression.GrantOf2500 | database.js:92-111 | 2500 XP from scratch ends at level 2 with 300 XP, whether granted at once or as 1000 then 1500. |
| Progression.CanSelectClass | database.js:139-142 | `canSelectClass`: level at least 10 and a class strictly null. No contract of its own. |
| Progression.HasClass | class.js:19 | The handlers' truthiness test on `user.class`: set and non-empty. No contract of its own. |
| Database.Climb | database.js:100-106 | The `while (user.xp >= xpRequired)` loop, with its loop invariants, ends where `LevelUp` says. |
| Database.Store.constructor | database.js:29-32 | A first start with no saved documents: every dictionary empty, the store valid. |
| Database.Store.Load | database.js:14-32 | A restart from valid saved dictionaries keeps them as they were. |
| Database.Store.GetUser | database.js:34-51 | Returns the stored record, or creates and stores the default record; nothing else changes. |
| Database.Store.IsPlayerAccepted | database.js:53-56 | The stored (or fresh default) record's `accepted` flag; the only change is lazy creation. |
| Database.Store.AcceptPlayer | database.js:58-63 | The caller's record, created if needed, gets `accepted = true` and nothing else changes. |
| Database.Store.ResetPlayer | database.js:65-83 | Succeeds exactly when the record exists, and then replaces it with the defaults; otherwise nothing changes. |
| Database.Store.AddXP | database.js:96-111 | The user's record becomes `AddXpTo` of the old one (created if new), every other record is unchanged, and a non-negative grant keeps the store valid. |
| Database.Store.SetUserClass | database.js:132-137 | Stores the class whatever was there before, changing no other field. |
| Database.Store.CanSelectClass | database.js:139-142 | Level 10 reached and class strictly null; the only change is lazy creation. |
| Database.Store.CreateQuest | database.js:148-160 | The new quest is `NewQuest` under the id `now.toString()`, stored exactly when its creation time and deadline lie in the `Date` range (`Storable`); otherwise `toISOString` throws and nothing changes. A quest already under that id is replaced but keeps its place in the key order. Otherwise the id is appended to the order. |
| Database.Store.GetAllQuests | database.js:166-177 | The quests become `Swept` (each active quest past its deadline deactivated); the result is `Listed`: in key order, the active quests not expired. |
| Database.Store.GetQuest | database.js:162-164 | The stored quest exactly when the id is stored. On a valid store it carries its own id and a positive reward. |
| Database.Store.CanAcceptQuest | database.js:179-196 | A quest that is not stored is refused as not found. An allowed quest is stored, active, not past its deadline, below its capacity and not yet taken by this player. |
| Database.Store.AcceptQuest | database.js:198-215 | The player joins the quest's `acceptedBy` and the quest joins the player's `activeQuests`, each only if absent. A missing quest is skipped, but the player's side is still updated. |
| Database.Store.JoinQuest | database.js:199-203 | The quest's `acceptedBy` gains the player unless already listed. |
| Database.Store.CompleteQuestForUser | database.js:217-224 | The player's `activeQuests` lose exactly that quest id; nothing else changes. |
| Database.Store.DeactivateQuest | database.js:226-231 | An existing quest gets `active = false`; a missing one is a no-op. |
| Database.Store.GetPendingReview | index.js:547-548 | `getPendingReviews()[reviewId]`: the stored review exactly when the id is stored. |
| Database.Store.RemovePendingReview | database.js:246-249 | The review id is deleted and nothing else. |
| Database.Store.SaveQuestSubmission | database.js:255-258 | The submission is stored under its id, replacing what was there. |
| Database.Store.GetQuestSubmission | database.js:260-262 | The stored submission exactly when the id is stored. On a valid store its snapshot reward is positive. |
| Database.Store.RemoveQuestSubmission | database.js:264-267 | The submission id is deleted and nothing else. |
| Lists.AppendIfAbsent | database.js:200-212 | `if (!includes) push`: the elements are the old ones plus x, the old list is a prefix, and the list grows by one exactly when x was absent. |
| Lists.AppendIfAbsentIdempotent | database.js:198-215 | Accepting twice adds nothing the first call did not. |
| Lists.Without | database.js:222 | `filter(q => q !== questId)`: exactly the other elements remain; an absent id changes nothing. |
| Lists.WithoutAppendIfAbsent | database.js:198-224 | Accepting and then completing a quest leaves the active list as removing the quest from the original list would. |
| QuestRules.NewQuest | database.js:148-160 | A new quest copies every term of the form and its creator, has an empty `acceptedBy` and is active. A missing or zero duration means no expiry; otherwise it expires `duration` hours after `now`. |
| QuestRules.Expired | database.js:183 | Past the deadline, strictly; a quest without a deadline never expires. No contract of its own; `CanAccept` and `Sweep` are stated over it. |
| QuestRules.AtCapacity | database.js:191 | A non-zero capacity that the participants have reached; a negative one is reached from the start; a missing or zero capacity is unlimited. No contract of its own. |
| QuestRules.CanAccept | database.js:179-196 | The checks run in order (missing or inactive, expired, already accepted, full), and the first failing one is the answer; each verdict holds exactly when its condition does. |
| QuestRules.WithParticipant | database.js:200-202 | The quest after `acceptedBy.push(userId)` guarded by `includes`. No contract of its own; `AcceptanceKeepsCapacity` is stated over it. |
| QuestRules.AcceptanceKeepsCapacity | database.js:179-203 | An allowed acceptance adds exactly one participant and never takes a quest past a positive capacity. |
| QuestRules.SecondAcceptanceRefused | database.js:187-189 | Once a player is in `acceptedBy`, asking again is refused. |
| QuestRules.InDateRange | database.js:155 | The time values a JavaScript `Date` holds, ±8.64·10^15 ms around the epoch; outside them `toISOString` throws. No contract of its own. |
| QuestRules.Storable | database.js:150-158 | `createQuest` builds its record only when `createdAt` and any `expiresAt` lie in the `Date` range. No contract of its own; `Database.Store.CreateQuest` is stated over it. |
| QuestRules.DeadlineBeyondDateRange | database.js:155 | A duration above 2.4 billion hours puts the deadline outside the `Date` range at any non-negative time. |
| QuestRules.ModestDeadlineStorable | database.js:154-155 | With a clock in the first half of the range, a duration of at most 1.2 billion hours either way gives a storable quest. |
| QuestRules.FreshQuestOpen | database.js:148-196 | A just-created quest is open to anyone exactly when neither its duration nor its capacity is negative. |
| QuestRules.Sweep | database.js:169-174 | A quest is deactivated exactly when it is active and past its deadline. |
| QuestRules.Swept | database.js:166-177 | The sweep keeps every quest id and applies `Sweep` to each. |
| QuestRules.Listed | database.js:168-176 | What `getAllQuests` returns: in key order, the quests still active and not past their deadline; never longer than the key order. |
| QuestRules.ListedExactly | database.js:168-176 | Every listed quest is active and not expired and is one of the store's quests, and every such quest in the key order is listed. |
| QuestRules.SweepsCompose | database.js:168-174 | The sweep never reactivates a quest, and sweeping again later equals one later sweep. |
| QuestRules.ListedAfterSweep | database.js:166-177 | Listing after a sweep at the same instant shows the same quests. |
| JsText.NatToString | database.js:149 | `Date.now().toString()`: at least one digit, all digits, no leading zero. |
| JsText.Trim | quests.js:259-260 | `trim()` neither grows the text nor adds characters, and leaves no white space at either end. |
| JsText.TrimSpaceAround | quests.js:259-260 | `trim()` gives the run of the text after its leading white space, and only white space surrounds that run. |
| JsText.TrimUnspaced | quests.js:260 | A piece with no white space at either end is its own trim. |
| JsText.TrimOfNatToString | quests.js:260 | A number written out has nothing to trim. |
| JsText.ParseInt | quests.js:261-266 | `parseInt` for decimal input: skip leading white space, read one optional sign, then the longest run of digits; no digits gives NaN. No contract of its own; its properties are in the three rows below. |
| JsText.ParseIntOfNatToString | quests.js:261-266 | `parseInt` reads back a written number and stops at the first non-digit. |
| JsText.ParseIntOfNat | quests.js:261-266 | `parseInt(String(n)) === n`. |
| JsText.ParseIntNoDigits | quests.js:261-266 | Text with no digit in it is NaN to `parseInt`. |
| JsText.Split | quests.js:260 | `split(',')` gives at least one piece, and no piece contains the separator or a character the text lacks. Text without the separator splits into itself. |
| JsText.JoinSplit | quests.js:260 | Joining the pieces with the separator gives back the text. |
| JsText.SplitJoin | quests.js:260 | Separator-free pieces joined and split again come back unchanged. |
| JsText.SplitFirst | index.js:445 | Text with the separator after a separator-free head splits into the head, then the rest's pieces. |
| JsText.ToUpper | quests.js:238 | `toUpperCase()` keeps the length and upper-cases each ASCII letter. |
| Reviews.SubmissionId | quests.js:178 | `<userId>_<questId>_<now>`. No contract of its own; `SubmissionIdsDiffer` states what it guarantees. |
| Reviews.SubmissionIdsDiffer | quests.js:178 | One player accepting one quest at two different instants gets two different submission ids. |
| Reviews.Snapshot | quests.js:179-190 | The stored submission copies the quest's id, title, rank and reward at acceptance, records the player, the channel and the time of acceptance, has status `pending_submission`, and holds no work and no submission time yet. |
| Reviews.WithWork | index.js:168-175 | Recording work stores the text, stores a non-empty image as given and an empty one as null, records `now` as the submission time, and sets status `pending_review` whatever it was. No other field changes. |
| QuestCommands.ParseRank | quests.js:238-247 | The upper-cased rank field is accepted exactly when it is one of E, D, C, B, A, S; N is refused. |
| QuestCommands.ParseRankLetter | quests.js:238-247 | Every rank but N is accepted in either case, and N is refused. |
| QuestCommands.OptionPart | quests.js:261-266 | `parts[i] && !isNaN(parseInt(parts[i]))`: a piece that exists, is non-empty and starts with an integer gives that integer, anything else null. No contract of its own; the `ParseOptions` lemmas are stated over it. |
| QuestCommands.TrimAll | quests.js:260 | `.map(p => p.trim())`: one trimmed piece per piece, in order. |
| QuestCommands.ParseOptions | quests.js:256-267 | An options field that trims to nothing gives no duration and no capacity. |
| QuestCommands.ParseOptionsOfPair | quests.js:256-267 | `"<duration>,<capacity>"` reads back as both numbers. |
| QuestCommands.ParseOptionsOfOne | quests.js:256-267 | A lone number is a duration with no capacity; a leading comma gives a capacity with no duration. |
| QuestCommands.ParseOptionsWithoutDigits | quests.js:256-267 | Options holding no digit are ignored, never refused. |
| QuestCommands.ParseQuestForm | quests.js:236-267 | The rank is checked first, then the XP must be a number above 0, then the options are read leniently. Each refusal happens exactly when its check fails. An accepted form carries a non-N rank, a positive reward, the parsed options, and the given title and description. |
| QuestCommands.OpenCreateForm | quests.js:92-100 | The creation form is shown exactly when `HOST_ID` is set and is the caller's id. |
| QuestCommands.HandleQuestModal | quests.js:235-277 | A refused form creates nothing. An accepted one creates `NewQuest` of the parsed terms through `createQuest`, unless the quest's dates lie outside the `Date` range: then `createQuest` throws, nothing is stored and no reply follows (index.js:152-155 has no `catch`). |
| QuestCommands.OverlongDurationThrows | quests.js:256-277 | Options "2400000001" pass the form as a duration of 2400000001 hours, and the quest they describe cannot be stored at any non-negative time. |
| QuestCommands.HandleAcceptQuest | quests.js:157-190 | A refused request gets the first failing check's reason and changes nothing. Otherwise the player joins the quest (idempotently) and a pending submission snapshotting the quest is stored under `<userId>_<questId>_<now>`. The DM's fate changes only the reply. Capacity is preserved. |
| QuestCommands.QuestBoard | quests.js:70 | The board is a prefix of the listing, of length min(listing, 10). |
| QuestCommands.ListQuests | quests.js:53-90 | The quests are swept, and the board is the first ten of the listing. |
| ClassCommand.ClassOptions | class.js:31-53 | Exactly four buttons, Assassin, Mage, Tank, Spy in that order, each with id `class_select_<Class>_<callerId>`. |
| ClassCommand.Decide | class.js:9-24 | The level check comes first, then the class check. Below 10 the player is told the level, even with a class set. A set, non-empty class is refused with its name. Anyone else is offered the four classes. |
| ClassCommand.DecideAgreesWithCanSelectClass | class.js:19-24 | The command's gate agrees with `canSelectClass` except on a stored empty class name. |
| ClassCommand.Execute | class.js:9-24 | The command answers `Decide` on the caller's record and changes nothing beyond lazily creating it. |
| ResetCommand.NoProgress | reset.js:32 | Level 0, XP 0 and not registered: nothing for a reset to undo. No contract of its own. |
| ResetCommand.Execute | reset.js:12-52 | Each case holds exactly when its condition does, in this order: a non-host caller is refused with nothing changed; a missing target is refused; a target with level 0, xp 0 and not accepted gets "nothing to reset" and is only lazily created; any other target is restored to the defaults. The failure reply is never given. |
| Access.IsHost | reset.js:13-15 | `interaction.user.id !== hostId` passes exactly when `HOST_ID` is set and equals the caller's id. No contract of its own. |
| Access.HostConfigured | index.js:177-178 | `!hostId` is false exactly when `HOST_ID` is set and non-empty. No contract of its own. |
| Interactions.GateOpens | index.js:59-62 | `reset` always runs; any other command needs the caller's `accepted` flag. No contract of its own. |
| Interactions.CommandGate | index.js:59-62 | `reset` always proceeds and changes nothing. Every other command proceeds exactly when the caller's (lazily created) record is accepted; otherwise the caller gets the registration prompt, whose buttons route back to accept and decline for that caller. |
| Interactions.AfterStatus | index.js:66-70 | After `/status` the class buttons are sent exactly when `canSelectClass` holds. |
| Interactions.After | index.js:258 | `customId.replace(prefix, '')` on an id that starts with `prefix`: the rest of the id, so that prefix plus rest is the id. |
| Interactions.Route | index.js:234-254 | The else-if chain over a list of handlers: a match is one of the listed handlers, with the id equal to its prefix plus the payload, and there is no match exactly when the id starts with none of their prefixes. |
| Interactions.ParseButton | index.js:231-255 | A routed id is its handler's prefix followed by the payload, and an id is ignored exactly when it starts with none of the prefixes. |
| Interactions.PrefixesDiverge | index.js:234-254 | No two handlers' prefixes agree on the first nine characters both have, so none starts another. |
| Interactions.ParseButtonId | index.js:231-255 | Every id built from a prefix and a payload routes to that prefix's handler with that payload. |
| Interactions.ParseModal | index.js:152-158 | The creation form is matched by its exact id and a work form by its prefix. |
| Interactions.ParseSubmissionModalId | index.js:155-161 | A work form opened for a submission comes back to that submission. |
| Interactions.ClassTarget | index.js:445-447 | The class name is the text up to the first `_`, or all of it. With no `_`, or nothing between the first and second `_`, the target is the clicker. Otherwise it is the non-empty text between them. |
| Interactions.ClassTargetDefaultsToClicker | index.js:445-447 | A class name alone, or followed by a bare `_`, targets the clicker. |
| Interactions.ClassTargetOf | index.js:445-447 | `<Class>_<userId>` with `_`-free parts reads back as that class and that player, whoever clicks. |
| Interactions.ClassOptionsRoute | index.js:118-140 | Each class button routes to class selection for its class and its player. |
| Interactions.HandlePlayerAccept | index.js:257-264 | Only the addressee can register. Registering sets `accepted` on their record; anyone else changes nothing. |
| Interactions.HandlePlayerDecline | index.js:279-284 | Declining never registers; only the addressee gets the decline answer. |
| Interactions.RegisteredPassesGate | index.js:59-62 | After registering, the gate opens for that player on every command, and it answers every other player as before. |
| Interactions.HandleSubmitQuestButton | index.js:298-308 | The work form opens exactly for a stored submission, and its id routes back to that submission. |
| Interactions.HandleSubmissionModal | index.js:160-216 | An unknown id changes nothing. On a known id the work is stored before, and regardless of, the host check. The host is sent approve and reject buttons that route back to this submission. |
| Interactions.ApprovalReward | index.js:342-346 | The live quest's reward, or the snapshot's when the quest is gone; positive either way on a valid store. |
| Interactions.Completed | index.js:348-349 | After `addXP` then `completeQuestForUser`, the quest has left the active list, one more quest is counted, and the lifetime XP has grown by the reward. |
| Interactions.HandleApproveSubmission | index.js:334-372 | An unknown id changes nothing. Otherwise the player gets the reward once, through `addXP`, and loses the quest from `activeQuests`. The submission is deleted, so no id pays twice. The class buttons follow exactly when delivery worked and `canSelectClass` holds. Quests are untouched. |
| Interactions.HandleRejectSubmission | index.js:415-423 | Only the submission is deleted; players and quests are unchanged. |
| Interactions.HandleClassSelect | index.js:444-478 | Only the addressee may choose. A set, non-empty class refuses before the level is looked at. Below level 10 is refused. The prompt's confirm and cancel ids carry the class and the clicker. |
| Interactions.ConfirmPromptRoutes | index.js:465-475 | The prompt's confirm button routes to confirmation of the same class for the same player. |
| Interactions.HandleClassConfirm | index.js:480-495 | Only the addressee may confirm. A set, non-empty class is never overwritten. Otherwise the class is stored, with no level check. |
| Interactions.HandleClassCancel | index.js:507-514 | The target is the id's last `_` piece; its addressee gets the same four class buttons again. |
| Interactions.CancelButtonAnswersOwner | index.js:507-513 | A prompt's cancel button answers its own player with the menu. |
| Interactions.HandleLegacyApprove | index.js:545-560 | Both the review and its quest are needed, else nothing changes. Then the live reward is paid through `addXP` and the review deleted; `activeQuests` is untouched. |
| Interactions.HandleLegacyReject | index.js:586-595 | Only the review is deleted. |
| Workflow.AcceptSubmitApprove | index.js:334-350 | Accept, then send work, then approve. The player's lifetime XP grows by the live reward, one more quest is counted, the quest leaves `activeQuests`, the player stays in `acceptedBy`, and no submission is left. |
| Workflow.ApproveTwice | index.js:334-350 | A second approval of the same id finds nothing and leaves the players as the first left them. |
| Workflow.RejectThenApprove | index.js:415-423 | After a rejection the approval finds nothing and nobody gains anything. |
| Workflow.AcceptRejectAccept | quests.js:157-176 | After a rejection, asking for the same quest again is refused as already accepted. |
| Workflow.AcceptTwice | quests.js:157-176 | The second of two identical requests is refused, and the player is listed once. |
| Workflow.RegisterThenCommand | index.js:257-264 | Pressing one's own accept button registers the player, and the next command from them proceeds. |
| Workflow.ResetTwice | reset.js:31-39 | After a host's reset the same command finds nothing to reset, and the record is the defaults, or untouched if it had no progress. |

## Left out

- Discord I/O is not modelled: the client, slash-command registration, embeds, modals' text
  limits, direct messages, channel posts and `users.fetch`/`guilds.fetch`. A delivery that can
  fail becomes a `bool` parameter that changes only the reply.
- Persistence is not modelled: `loadData`/`saveData` and the JSON files. The dictionaries live
  in memory; a restart is `Database.Store.Load` from dictionaries that satisfy the invariant.
- Time is one integer `now` per handler. The source reads the clock several times and converts
  dates to and from ISO strings; the model keeps each date as its millisecond value. The
  `Date` range is modelled where `createQuest` writes dates out (`QuestRules.Storable`); dates
  read back from saved data are compared as milliseconds, and an invalid saved date is not
  modelled.
- `HOST_ID` is an `Option<string>` parameter rather than an environment read.
- `updateUser` (database.js:85-90) is not modelled: it merges arbitrary fields into a record
  with `Object.assign`, and no modelled handler calls it.
- `savePendingReview` (database.js:241-244) is not modelled: a plain keyed assignment that no
  handler in index.js calls, so pending reviews only come from saved data.
- `getPendingReviews` (database.js:237-239) and `getQuestSubmissions` (database.js:251-253) return
  the whole dictionary. The legacy handlers only read one entry of it (index.js:547, 588),
  which `Database.Store.GetPendingReview` models; `getQuestSubmissions` has no modelled caller.
- status.js and statusCard.js are not part of this model: a card renderer with floating-point
  layout and no state. Only the class offer that follows `/status` (index.js:66-70) is modelled.
- The command handler's `catch` for errors thrown by a command (index.js:71-79) is not modelled.
  The one modelled operation that throws is `createQuest` on a deadline outside the `Date`
  range, reached from the quest modal, whose path has no `catch`: it is modelled as
  `QuestCommands.CreationThrew`, with nothing stored and no reply.
- JsText.ParseInt: decimal only; `parseInt`'s `0x` hexadecimal prefix is not read. Numbers are
  unbounded integers, so precision loss above 2^53 is not modelled.
- JsText.IsSpace: covers the ASCII white space, the no-break space, the byte-order mark and the
  line and paragraph separators; other Unicode space separators are not treated as white space.
- JsText.ToUpper: upper-cases ASCII letters only; other letters are kept as they are.
- Interactions.ClassTargetOf: assumes ids hold no `_`. Discord ids are digit strings, and the
  ids are not modelled as digits.
- Interactions.ParseModal: for a work form it states only that the id is the prefix plus the
  submission id. The round trip is `Interactions.ParseSubmissionModalId`.
- Object-key quirks of plain JavaScript objects are not modelled: a user or quest id such as
  `__proto__`, and the integer-like keys that `Object.values` would order first. Timestamps
  (the quest ids) are beyond the array-index range, so key order is insertion order.
- Rendering-only parts of the replies are not modelled: message text, colours, emoji, and the
  reward shown in the review embed.
