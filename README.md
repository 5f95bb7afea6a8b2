# GAD170 trading card game: the battle core in Dafny

This project models the battle core of a small Unity card game. A game
manager holds a roster of card prefabs (`allCards`). It draws two cards at
random into two fixed positions and lets them fight. Then it removes the
losers and draws again, until no character card is left to draw. At that
point it announces the final winner, or that there are no winners.

There are two kinds of card:

- A **character card** has power, health and a time between attacks. When
  the battle starts, it runs a `DoDamage` coroutine. That coroutine captures
  the cards in play once. Each time it wakes up, it hits every other captured
  character with the card's power.
- A **chance card** starts the battle itself as soon as it enters play. It
  applies its effect to every character in play and then ends the battle with
  its own text. There are two effects:
  - **Death** sets every character's health to zero.
  - **MultiplyStats** scales the stats and clamps them.

The model has two layers.

- **A pure layer** (modules `Cards`, `Roster`, `Arena`, `Battle`). A `Game`
  value holds:
  - the roster;
  - the cards in play, each with an identity, its position and the target
    lists captured by its running `DoDamage` coroutines;
  - the running `ShowBanner` coroutines;
  - the chance cards whose `Start` has not run yet;
  - whether the battle button is shown;
  - the final announcement;
  - the random source.

  Every step of the source is a function from one `Game` to the next. Modules
  `CharacterProps`, `ChanceProps`, `SchedulerProps` and `Scenarios` prove
  properties of those steps. `SchedulerProps` also proves an invariant over
  every run of events the engine may choose: at most two cards in play, two
  cards never in the same position, and identities that never collide.
- **An imperative layer** (module `Manager`, class `GameManager`). Its fields
  are the game's state. Each method performs one step of the source in place,
  with the source's loops. Each method is proved to leave exactly the state
  that the pure function of that step computes.

These behaviours of the source are reproduced as written:

- `CreateNewBattle` counts the character cards left in the roster. When there
  are none, it clears the roster and shows an empty banner for 0 seconds.
- Its `default` branch, which is reached with two cards in play, draws
  nothing and still shows the battle button.
- A `DoDamage` coroutine captures the cards in play once, when it starts. Its
  inner loop keeps running after the strike that ended the battle.
- `StartBattle` walks the list of cards it read at its start. A chance card
  in that list that an earlier card already destroyed still runs its
  `StartBattling` against whatever is in play by then.
- A character can run more than one `DoDamage` coroutine.

Two behaviours of the code are easy to misread. The model follows the code:

- **The draw.** The index is `floor(value * (n - 0.1))`, which is not
  exactly uniform over the roster. `Roster.EveryIndexDrawable` proves that
  every position can still be drawn.
- **The all-chance-cards case.** When no character is in play, a chance card
  destroys everything and calls `EndBattle("")`. `EndBattle` then finds
  nothing in play. It creates the next battle at once, without showing any
  banner. A 0-second empty banner is shown only by `CreateNewBattle`, when no
  character is left to draw (GameManager.cs:61, :85).

Roster entries are prefab objects. `List.Remove` compares objects by
reference, so each entry carries an `asset` number as its identity. Two
prefabs that hold equal cards are still different entries, and a draw
removes the very prefab it picked (`Scenarios.DrawRemovesThePickedObject`).

## Model

| member | source | states |
|---|---|---|
| Cards.Damaged | Assets/Scripts/CharacterCard.cs:87-88 | the victim's health after a hit is never negative; it is zero exactly when the power is at least the health, and otherwise it is the health minus the power |
| Cards.Max | Assets/Scripts/ChanceCard_MultiplyStats.cs:37-39 | Mathf.Max returns one of its arguments, and that one is at least both |
| Cards.Other | Assets/Scripts/GameManager.cs:103-112 | the position given to the second card is always different from the position of the card already in play |
| Cards.HitLowersHealth | Assets/Scripts/CharacterCard.cs:84-88 | a hit of positive power on a living character strictly lowers its health, and never below zero |
| Cards.HurtChangesOnlyHealth | Assets/Scripts/CharacterCard.cs:84-88 | a hit changes only the victim's health, to max(health - power, 0); its name, power and time between attacks stay the same |
| Cards.ScaledInBounds | Assets/Scripts/ChanceCard_MultiplyStats.cs:32-39 | whatever the multipliers, a scaled character has power and health at least 0 and at least 0.1 between attacks |
| Cards.ScaledByOne | Assets/Scripts/ChanceCard_MultiplyStats.cs:16-18 | the default multipliers of 1 leave a character with stats in bounds unchanged |
| Roster.DrawIndex | Assets/Scripts/GameManager.cs:130 | the index floor(value * (n - 0.1)) for a random value in [0, 1] is always a valid roster position |
| Roster.DrawIndexInRange | Assets/Scripts/GameManager.cs:130 | the product value * (n - 0.1) has its floor in [0, n) |
| Roster.EveryIndexDrawable | Assets/Scripts/GameManager.cs:130 | every roster position is picked by some random value |
| Roster.CharacterCount | Assets/Scripts/GameManager.cs:51-55 | the number of character cards counted is at most the roster's size |
| Roster.RemoveFirstCutsFirst | Assets/Scripts/GameManager.cs:136 | List.Remove of a prefab that occurs cuts out exactly its first occurrence, and nothing else |
| Roster.RemoveFirstTakesOne | Assets/Scripts/GameManager.cs:136 | List.Remove of a prefab that occurs shortens the roster by one and takes exactly one copy of that prefab from it as a multiset |
| Roster.RemoveFirstDeletesFirst | Assets/Scripts/GameManager.cs:136 | List.Remove of a prefab that occurs deletes exactly its first occurrence; the other prefabs keep their order, and the roster shrinks by one as a multiset |
| Roster.CharacterCountZero | Assets/Scripts/GameManager.cs:51-56 | the counter is zero exactly when the roster holds no character card |
| Roster.CharacterCountSnoc | Assets/Scripts/GameManager.cs:52-55 | each step of the counting loop adds one for a character card and nothing for a chance card |
| Arena.Resolve | Assets/Scripts/GameManager.cs:184-186 | the RemoveCardCheck pass never adds cards |
| Arena.RemoveCardCheckPass | Assets/Scripts/GameManager.cs:184-186 | the loop that runs each card's RemoveCardCheck leaves exactly the cards the pass keeps, in scene order; a character stays when its health is not zero (CharacterCard.cs:129-133) and a chance card always goes (ChanceCard.cs:50-54) |
| Arena.DeathZeroesHealth | Assets/Scripts/ChanceCard_Death.cs:15-31 | after Death every character in play has zero health and keeps its name, power and time between attacks; chance cards, identities, positions and coroutines are untouched |
| Arena.DeathIdempotent | Assets/Scripts/ChanceCard_Death.cs:15-31 | applying Death a second time changes nothing |
| Arena.ResolveNoneKept | Assets/Scripts/GameManager.cs:184-186 | when no card passes its RemoveCardCheck, nothing stays in play |
| Arena.DeathLeavesNoSurvivor | Assets/Scripts/ChanceCard_Death.cs:26 | after Death, the RemoveCardCheck pass leaves nothing in play |
| Arena.MultiplyScalesAndClamps | Assets/Scripts/ChanceCard_MultiplyStats.cs:20-45 | after MultiplyStats every character's stats are the clamped products of its stats and the multipliers, and they are in bounds; chance cards, identities, positions and coroutines are untouched |
| Arena.MultiplyByOne | Assets/Scripts/ChanceCard_MultiplyStats.cs:16-45 | MultiplyStats with its default multipliers leaves the cards in play unchanged when their stats are in bounds |
| Arena.ResolveKeepsExactly | Assets/Scripts/GameManager.cs:184-186 | a card is in play after the RemoveCardCheck pass exactly when it was in play before and its own check keeps it |
| Arena.ResolveAllKept | Assets/Scripts/GameManager.cs:184-186 | when every card passes its check, the pass removes nothing |
| Arena.ResolveWhole | Assets/Scripts/GameManager.cs:184-186 | a pass that keeps as many cards as there were has removed none and left them in order |
| Arena.ResolveIdempotent | Assets/Scripts/GameManager.cs:184-186 | a second RemoveCardCheck pass removes nothing more |
| Arena.ResolveRemovesChance | Assets/Scripts/ChanceCard.cs:50-54 | no chance card is left in play after the pass |
| Battle.Drawn | Assets/Scripts/GameManager.cs:125-140 | the card InstantiateRandomCard picks is a card of the roster |
| CharacterProps.EndBattleInPlay | Assets/Scripts/GameManager.cs:160-173 | EndBattle with cards in play stops every coroutine of every card and starts a 5-second banner with the given text; no card, the roster, the draws, the verdict and the battle button change |
| CharacterProps.TakeDamageRule | Assets/Scripts/CharacterCard.cs:84-116 | TakeDamage sets only the victim's health, to max(health - power, 0); a hit that leaves zero health stops every coroutine and starts the banner "<attacker> defeated <victim>"; any other hit stops nothing and starts no banner; the roster, the queued chance-card Starts, the verdict and the battle button never change |
| CharacterProps.TakeDamageCards | Assets/Scripts/CharacterCard.cs:84-116 | after TakeDamage the victim's card is the hurt card and every other card is as it was |
| CharacterProps.HitRule | Assets/Scripts/CharacterCard.cs:68-80 | one pass of the inner loop changes at most the captured card, and only when it is another character in play; the attacker's card is unchanged |
| CharacterProps.HitVictim | Assets/Scripts/CharacterCard.cs:70-79 | when the captured card is another character in play, the pass hurts exactly that card with the attacker's power |
| CharacterProps.TickRule | Assets/Scripts/CharacterCard.cs:62-81 | one wake-up of DoDamage hits each captured character other than the attacker exactly once with the attacker's power; cards destroyed since the capture, chance cards and cards not captured are untouched |
| CharacterProps.HitAftermath | Assets/Scripts/CharacterCard.cs:68-80 | one pass of the inner loop starts the "<attacker> defeated <victim>" banner exactly when the captured card is another character in play that the hit leaves at zero health, and stops every coroutine exactly then; nothing outside the cards and banners changes |
| CharacterProps.TickAftermath | Assets/Scripts/CharacterCard.cs:62-116 | one wake-up of DoDamage queues, in the captured order, one defeat banner per captured character it brings down, judged on the cards as they were before the wake-up, and stops every coroutine exactly when it queues one; nothing outside the cards and banners changes |
| CharacterProps.StrikeRule | Assets/Scripts/CharacterCard.cs:56-82 | the strike of a running coroutine hits exactly the cards it captured when it started |
| CharacterProps.StrikeLowersHealth | Assets/Scripts/CharacterCard.cs:56-88 | a strike of positive power strictly lowers the health of a living captured opponent, and never below zero |
| ChanceProps.EffectKeepsLayout | Assets/Scripts/ChanceCard.cs:39 | a chance effect keeps every card's identity, position, kind and coroutines |
| ChanceProps.ChanceWithoutCharacter | Assets/Scripts/ChanceCard.cs:28-36 | with no character in play, a chance card destroys every card in play and ends the battle with the empty text, which creates the next battle at once |
| ChanceProps.ChanceWithCharacter | Assets/Scripts/ChanceCard.cs:25-43 | with a character in play, the effect is applied and the battle ends with the card's chanceText: the coroutines stop, a 5-second banner starts, and the roster and draws are unchanged |
| ChanceProps.DeathLeavesNothing | Assets/Scripts/ChanceCard_Death.cs:15-31 | after a Death card met a character, its banner shows its chanceText, and the removal after that banner leaves nothing in play |
| ChanceProps.MultiplyLeavesBounds | Assets/Scripts/ChanceCard_MultiplyStats.cs:20-45 | after a MultiplyStats card, every character in play has stats in bounds |
| ChanceProps.DrawnChanceWillStart | Assets/Scripts/ChanceCard.cs:19-23 | drawing a chance card queues its Start, and that Start runs StartBattle on the state the draw left |
| ChanceProps.ChanceBeforeCharacter | Assets/Scripts/GameManager.cs:142-158 | StartBattle over a chance card listed before a character: the effect is applied, the battle ends with the chanceText banner, then the character starts a coroutine capturing both cards |
| ChanceProps.CharacterBeforeChance | Assets/Scripts/GameManager.cs:142-158 | StartBattle over a character listed before a chance card: the character's coroutine starts, then the effect is applied and the battle ends, which stops it |
| ChanceProps.ChanceStartRule | Assets/Scripts/ChanceCard.cs:19-43 | the Start of a chance card in play beside one character applies the card's effect to both cards, ends the battle with a 5-second chanceText banner and hides the button; the character keeps a running coroutine only when it is listed after the chance card (GameManager.cs:142-158); the roster, the verdict and the draws do not change |
| SchedulerProps.DrawRule | Assets/Scripts/GameManager.cs:125-140 | a draw reads one random value, removes exactly the first roster occurrence of the picked card, and adds one new card with a fresh identity at the given position |
| SchedulerProps.CreateWhenNoCharacterLeft | Assets/Scripts/GameManager.cs:50-63 | with no character card in the roster, CreateNewBattle clears the roster, draws nothing and queues the empty banner for 0 seconds |
| SchedulerProps.CreateFromLastPrefab | Assets/Scripts/GameManager.cs:71-87 | with nothing in play and one prefab left, which holds a character, that card goes to position one, the roster is left empty, the empty 0-second banner is shown and the button is left as it was |
| SchedulerProps.CreateFromEmpty | Assets/Scripts/GameManager.cs:71-94 | with nothing in play and two or more prefabs left, the drawn prefab goes to position one and a second, drawn from what is left, to position two; the roster loses exactly those two prefabs, no banner starts and the button is shown |
| SchedulerProps.CreateBesideOne | Assets/Scripts/GameManager.cs:96-114 | with one card in play, exactly one card is drawn into the other position and the button is shown |
| SchedulerProps.CreateWithTwoOrMore | Assets/Scripts/GameManager.cs:116-122 | with two or more cards in play nothing is drawn; only the button is shown |
| SchedulerProps.EndBattleRule | Assets/Scripts/GameManager.cs:160-173 | EndBattle with nothing in play is CreateNewBattle; otherwise it stops every coroutine and starts a 5-second banner, changing no card |
| SchedulerProps.FinishBannerRule | Assets/Scripts/GameManager.cs:183-217 | after a banner, exactly the cards whose check keeps them stay. With an empty roster or an empty text the game ends and the button is hidden: none left means no winners, and one left is the final winner, a living character. Otherwise the next battle is created |
| SchedulerProps.DrawIntoValid | Assets/Scripts/GameManager.cs:71-114 | a draw into a free position keeps the invariant |
| SchedulerProps.CreateNewBattleValid | Assets/Scripts/GameManager.cs:42-123 | CreateNewBattle keeps the invariant |
| SchedulerProps.EndBattleValid | Assets/Scripts/GameManager.cs:160-173 | EndBattle keeps the invariant |
| SchedulerProps.StartTimerValid | Assets/Scripts/CharacterCard.cs:50-54 | a character's StartBattling keeps the invariant: the timer goes to a character, and the captured list has no identity twice |
| SchedulerProps.ChanceBattlingValid | Assets/Scripts/ChanceCard.cs:25-43 | a chance card's StartBattling keeps the invariant |
| SchedulerProps.StartBattlingValid | Assets/Scripts/GameManager.cs:151-154 | StartBattling of either kind of card, taken from the list StartBattle read, keeps the invariant, and that list stays consistent with the kinds of the cards then in play |
| SchedulerProps.StartFromValid | Assets/Scripts/GameManager.cs:151-154 | the loop of StartBattle keeps the invariant |
| SchedulerProps.StartBattleValid | Assets/Scripts/GameManager.cs:142-158 | StartBattle keeps the invariant |
| SchedulerProps.TakeDamageValid | Assets/Scripts/CharacterCard.cs:84-116 | TakeDamage keeps the invariant |
| SchedulerProps.DefeatValid | Assets/Scripts/CharacterCard.cs:94-107 | the defeating blow, which stops both coroutines and ends the battle, keeps the invariant |
| SchedulerProps.HitValid | Assets/Scripts/CharacterCard.cs:68-80 | one pass of the inner loop keeps the invariant |
| SchedulerProps.TickValid | Assets/Scripts/CharacterCard.cs:62-81 | a wake-up of DoDamage keeps the invariant |
| SchedulerProps.ResolveValid | Assets/Scripts/GameManager.cs:184-186 | the RemoveCardCheck pass keeps the invariant |
| SchedulerProps.FinishBannerValid | Assets/Scripts/GameManager.cs:183-217 | the end of a banner keeps the invariant |
| SchedulerProps.ChanceCardStartValid | Assets/Scripts/ChanceCard.cs:19-23 | a chance card's Start keeps the invariant |
| SchedulerProps.ApplyValid | Assets/Scripts/GameManager.cs:142-158 | every event the engine can deliver (button, chance card Start, coroutine wake-up, end of a banner) keeps the invariant |
| SchedulerProps.RunValid | Assets/Scripts/GameManager.cs:142-218 | any sequence of events keeps the invariant |
| SchedulerProps.AlwaysValid | Assets/Scripts/GameManager.cs:26-40 | every state reached from Start by any run of events satisfies the invariant, including that only character cards run coroutines |
| SchedulerProps.AlwaysPlaced | Assets/Scripts/GameManager.cs:26-40 | from Start, whatever the cards, the random values and the order of events, at most two cards are in play, and two cards never share a position or an identity |
| SchedulerProps.ReachableStrike | Assets/Scripts/CharacterCard.cs:56-116 | in every reachable state, a coroutine that can wake up belongs to a character, and its strike hits each captured character other than the attacker exactly once with the attacker's power and changes no other card; it queues "<attacker> defeated <victim>" for each captured character it brings down and then stops every coroutine, and a strike that brings no one down leaves the banners and coroutines as they were; the roster, the queued chance-card Starts, the verdict, the button and the draws never change |
| Scenarios.StartWithTwo | Assets/Scripts/GameManager.cs:26-94 | Start with two distinct cards, one of them a character, and random values of 0 puts the first card at position one and the second at position two, empties the roster, queues the Start of each chance card and shows the button |
| Scenarios.DrawRemovesThePickedObject | Assets/Scripts/GameManager.cs:130-136 | of three prefabs, the first and last holding equal cards, a random value of 1 draws the last, and the roster keeps the first two in order |
| Scenarios.ButtonStartsBothCharacters | Assets/Scripts/GameManager.cs:142-158 | the button starts one coroutine on each of two characters, each capturing both cards, and hides the button |
| Scenarios.StrikeSurvived | Assets/Scripts/CharacterCard.cs:56-116 | in a duel, a strike that leaves the victim with health changes only the victim's health |
| Scenarios.StrikeDefeats | Assets/Scripts/CharacterCard.cs:94-107 | in a duel, the strike that takes the victim to zero stops every coroutine and starts the banner "<attacker> defeated <victim>" |
| Scenarios.DuelFirstStrike | Assets/Scripts/CharacterCard.cs:62-116 | X's first strike takes Y from 20 to 10 health and changes nothing else |
| Scenarios.DuelSecondStrike | Assets/Scripts/CharacterCard.cs:62-116 | Y's strike takes X from 50 to 45 health and changes nothing else |
| Scenarios.DuelThirdStrike | Assets/Scripts/CharacterCard.cs:94-107 | X's second strike takes Y to 0, stops every coroutine and starts the banner "X defeated Y" |
| Scenarios.DuelEnds | Assets/Scripts/GameManager.cs:183-209 | after that banner Y is removed, the roster is empty, the button is hidden and X is the final winner |
| Scenarios.DuelAfterButton | Assets/Scripts/CharacterCard.cs:56-116 | from the moment both coroutines run, three strikes and the banner end the game with X the final winner at 45 health |
| Scenarios.DuelOfTwoCharacters | Assets/Scripts/GameManager.cs:26-218 | X (power 10, health 50) against Y (power 5, health 20): after three strikes and the banner, X is the final winner with 45 health left |
| Scenarios.DoomStarts | Assets/Scripts/ChanceCard.cs:19-43 | Doom's Start takes X's health to zero, ends the battle with "Doom strikes", and leaves X, listed after Doom, with a running coroutine |
| Scenarios.DoomSettles | Assets/Scripts/GameManager.cs:183-209 | at the end of Doom's banner both cards are destroyed and, with the roster empty, there are no winners |
| Scenarios.DeathTakesTheLastCharacter | Assets/Scripts/ChanceCard.cs:19-43 | a Death card drawn next to the last character starts the battle itself; after its banner nothing is left in play and there are no winners |
| Manager.GameManager.constructor | Assets/Scripts/GameManager.cs:26-40 | Start leaves exactly the state of the first created battle |
| Manager.GameManager.CountCharacters | Assets/Scripts/GameManager.cs:51-55 | the counting loop returns the number of character cards in the roster, which is zero exactly when there are none |
| Manager.GameManager.HasCharacterInPlay | Assets/Scripts/ChanceCard.cs:29-30 | the search loop finds a character exactly when one is in play |
| Manager.GameManager.InstantiateRandomCard | Assets/Scripts/GameManager.cs:125-140 | the fields after the draw are exactly those of the pure draw |
| Manager.GameManager.CreateNewBattle | Assets/Scripts/GameManager.cs:42-123 | the fields after the call are exactly those of the pure CreateNewBattle |
| Manager.GameManager.EndBattle | Assets/Scripts/GameManager.cs:160-173 | the stop loop and the queued banner leave exactly the pure EndBattle's state |
| Manager.GameManager.KillAll | Assets/Scripts/ChanceCard_Death.cs:15-31 | the loop leaves only the cards in play changed, to the Death effect of the old ones |
| Manager.GameManager.ScaleAll | Assets/Scripts/ChanceCard_MultiplyStats.cs:20-45 | the loop leaves only the cards in play changed, to the MultiplyStats effect of the old ones |
| Manager.GameManager.DoChanceCardEffect | Assets/Scripts/ChanceCard.cs:39 | the effect dispatched on the card's kind changes only the cards in play, to that kind's effect |
| Manager.GameManager.ChanceStartBattling | Assets/Scripts/ChanceCard.cs:25-43 | the fields after the call are exactly those of the pure ChanceCard.StartBattling |
| Manager.GameManager.StartBattling | Assets/Scripts/CharacterCard.cs:50-54 | the fields after the call are exactly those of the pure StartBattling of that card |
| Manager.GameManager.StartBattle | Assets/Scripts/GameManager.cs:142-158 | the loop over the cards read at the start leaves exactly the pure StartBattle's state |
| Manager.GameManager.TakeDamage | Assets/Scripts/CharacterCard.cs:84-116 | the fields after the call are exactly those of the pure TakeDamage |
| Manager.GameManager.Hit | Assets/Scripts/CharacterCard.cs:70-79 | the fields after the call are exactly those of the pure pass of the inner loop |
| Manager.GameManager.Strike | Assets/Scripts/CharacterCard.cs:62-81 | the inner loop over the captured list leaves exactly the pure strike's state |
| Manager.GameManager.RemoveCardChecks | Assets/Scripts/GameManager.cs:184-186 | the pass leaves only the cards in play changed, to the RemoveCardCheck pass over the old ones |
| Manager.GameManager.FinishBanner | Assets/Scripts/GameManager.cs:183-217 | the fields after the call are exactly those of the pure FinishBanner |
| Manager.GameManager.ChanceCardStart | Assets/Scripts/ChanceCard.cs:19-23 | the fields after the call are exactly those of the pure chance card Start |

## Left out

- Timing. `WaitForSeconds` and the engine's frame loop are not modelled. The
  next event is an arbitrary choice: a chance card's Start, a coroutine
  waking up, a banner's wait ending, or a press of the shown battle button.
  This covers every order the timers could produce. The banner's duration is
  kept as data.
- The order `FindObjectsOfType` returns cards in. The model uses the order
  the cards entered play. The invariant and the card-level rules hold
  whatever the order. The scenarios fix one order, and
  `ChanceProps.ChanceStartRule` states the outcome for both orders of a chance
  card and a character.
- Floating point. Stats and random values are unbounded reals, so rounding of
  products and sums is not modelled.
- The random source. `Random.InitState` and its mouse-based seed are left
  out. The random values are a parameter: any sequence of values in [0, 1].
- Presentation. Card tints, the damage colour fade (`DamageColorCharacter`),
  stats texts, log messages, the winner panel's show/hide and the centring
  of the final winner are not modelled. Only the final announcement is kept:
  the final winner's name, or no winners.
- The battle button's state before GameManager.Start runs comes from the
  scene, not from the code. Battle.Initial takes it to be hidden. This shows
  where CreateNewBattle leaves the button as it was: in
  `SchedulerProps.CreateFromLastPrefab` and
  `SchedulerProps.CreateWhenNoCharacterLeft`, run by Start itself.
- A null `allCards`, where Start disables the manager, is not modelled. The
  roster is always a list.
- Manager.GameManager.InstantiateRandomCard: the card is put straight into
  the position its caller then moves it to. The object is not instantiated
  first and moved afterwards.
- `ChanceCard.DoChanceCardEffect`, the empty default effect, is not modelled
  as a card kind. `ChanceCard` is abstract, and only its Death and
  MultiplyStats subclasses can be drawn.
- The character type, the flavour text and the card art are left out. They
  take no part in a battle.
- Arena.RemoveCardCheckPass: builds the list of cards that survive their
  checks rather than deleting each destroyed card from the scene while the
  loop runs. Nothing observes the scene during the pass, and the cards left
  and their order are the same.
- Unity's object lifetime is collapsed to membership in the list of cards in
  play. `DestroyImmediate` removes a card. A coroutine of a destroyed card
  never wakes up, and a call on a destroyed card changes only what it does
  to other cards.
