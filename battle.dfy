/** The whole battle state and every event of it as a function of the state
    before: GameManager's CreateNewBattle, InstantiateRandomCard, StartBattle,
    EndBattle and the part of ShowBanner after its wait; the StartBattling of
    both card kinds; one tick of CharacterCard.DoDamage with TakeDamage; and the
    Start of a chance card. The class in module Manager runs these steps
    imperatively and is proved to compute exactly these functions. */
module Battle {
  import opened Cards
  import opened Roster
  import opened Arena

  /** A running ShowBanner coroutine: the text it shows and how long it waits. */
  datatype Banner = Banner(text: string, seconds: real)

  /** What the winner panel finally announces, once no battle is created anymore. */
  datatype Verdict = Undecided | FinalWinner(name: string) | NoWinners

  /** The state of the game.
      roster    the undrawn cards (allCards)
      arena     the cards in play, in scene order
      pending   the ShowBanner coroutines still waiting
      unstarted the chance cards in play whose Start has not run yet
      verdict   the final announcement, if any
      button    whether the battle button is shown
      nextId    the identity the next instantiated card gets
      draws     how many random values have been read
      rand      the random source: the value of the n-th read of Random.value */
  datatype Game = Game(
    roster: seq<Prefab>,
    arena: seq<InPlay>,
    pending: seq<Banner>,
    unstarted: seq<nat>,
    verdict: Verdict,
    button: bool,
    nextId: nat,
    draws: nat,
    rand: nat -> UnitInterval)

  /** The state before GameManager.Start runs: the designer's cards, nothing
      in play, the battle button hidden. */
  function Initial(cards: seq<Prefab>, rand: nat -> UnitInterval): Game
  {
    Game(cards, [], [], [], Undecided, false, 0, 0, rand)
  }

  /** The banner text of a strike that took the victim's health to zero. */
  function DefeatText(attacker: string, victim: string): string
  {
    attacker + " defeated " + victim
  }

  /** StartCoroutine(ShowBanner(text, seconds)): it shows the text and starts waiting. */
  function ShowBanner(g: Game, text: string, seconds: real): Game
  {
    g.(pending := g.pending + [Banner(text, seconds)])
  }

  /** The prefab InstantiateRandomCard picks. */
  function Drawn(g: Game): (p: Prefab)
    requires 1 <= |g.roster|
    ensures p in g.roster
  {
    g.roster[DrawIndex(g.rand(g.draws), |g.roster|)]
  }

  /** InstantiateRandomCard, with the new card moved to `slot`: one random value
      is read, the picked card is removed from the roster and a new card with a
      fresh identity enters play; a chance card will run its Start. */
  function DrawInto(g: Game, slot: Slot): Game
    requires 1 <= |g.roster|
  {
    var p := Drawn(g);
    g.(roster := RemoveFirst(g.roster, p),
       arena := g.arena + [InPlay(g.nextId, p.card, slot, [])],
       unstarted := if p.card.Character? then g.unstarted else g.unstarted + [g.nextId],
       nextId := g.nextId + 1,
       draws := g.draws + 1)
  }

  /** GameManager.CreateNewBattle. Both early returns leave the battle button as it is. */
  function CreateNewBattle(g: Game): Game
  {
    if CharacterCount(g.roster) == 0 then
      ShowBanner(g.(roster := []), "", 0.0)
    else if |g.arena| == 0 then
      var g1 := DrawInto(g, One);
      if |g1.roster| == 0 then ShowBanner(g1, "", 0.0) else DrawInto(g1, Two).(button := true)
    else if |g.arena| == 1 then
      DrawInto(g, Other(g.arena[0].slot)).(button := true)
    else
      g.(button := true)
  }

  /** GameManager.EndBattle. */
  function EndBattle(g: Game, text: string): Game
  {
    if |g.arena| == 0 then CreateNewBattle(g)
    else ShowBanner(g.(arena := StopAll(g.arena)), text, 5.0)
  }

  /** ChanceCard.StartBattling for chance card `c`. */
  function ChanceStartBattling(g: Game, c: Card): Game
    requires !c.Character?
  {
    if !HasCharacter(g.arena) then EndBattle(g.(arena := []), "")
    else EndBattle(g.(arena := Effect(c, g.arena)), c.text)
  }

  /** StartBattling of card `e`: a character starts a DoDamage coroutine that
      captures the cards in play; a chance card runs its pipeline. */
  function StartBattling(g: Game, e: InPlay): Game
  {
    if e.card.Character? then g.(arena := StartTimer(g.arena, e.id, Ids(g.arena)))
    else ChanceStartBattling(g, e.card)
  }

  /** The loop of StartBattle from position `i` of the list it read. */
  function StartFrom(g: Game, cards: seq<InPlay>, i: nat): Game
    decreases |cards| - i
  {
    if i >= |cards| then g else StartFrom(StartBattling(g, cards[i]), cards, i + 1)
  }

  /** GameManager.StartBattle: StartBattling for each card that was in play
      when it began, then the battle button is hidden. */
  function StartBattle(g: Game): Game
  {
    StartFrom(g, g.arena, 0).(button := false)
  }

  /** CharacterCard.TakeDamage of the character at position `vi` from the one at `ai`. */
  function TakeDamage(g: Game, vi: nat, ai: nat): Game
    requires vi < |g.arena| && ai < |g.arena|
    requires g.arena[vi].card.Character? && g.arena[ai].card.Character?
  {
    var v, att := g.arena[vi], g.arena[ai];
    var hurt := Hurt(v.card, att.card.stats.power);
    var a1 := g.arena[vi := v.(card := hurt)];
    if hurt.stats.health == 0.0 then
      EndBattle(g.(arena := StopAt(StopAt(a1, vi), ai)), DefeatText(att.card.name, v.card.name))
    else
      g.(arena := a1)
  }

  /** One pass of the inner loop of DoDamage: attacker `a` and the captured card `t`.
      A destroyed or non-character card, and the attacker itself, are skipped.
      (The attacker is always in play during its own tick.) */
  function Hit(g: Game, a: nat, t: nat): Game
  {
    match Find(g.arena, t)
    case None => g
    case Some(vi) =>
      if !g.arena[vi].card.Character? || t == a then g
      else match Find(g.arena, a)
        case None => g
        case Some(ai) =>
          if g.arena[ai].card.Character? then TakeDamage(g, vi, ai) else g
  }

  /** The inner loop of DoDamage over the captured list `ts`. */
  function Tick(g: Game, a: nat, ts: seq<nat>): Game
    decreases |ts|
  {
    if ts == [] then g else Tick(Hit(g, a, ts[0]), a, ts[1..])
  }

  /** Card `a` is in play and runs a k-th DoDamage coroutine. */
  predicate CanStrike(g: Game, a: nat, k: nat)
  {
    Find(g.arena, a).Some? && k < |g.arena[Find(g.arena, a).value].timers|
  }

  /** The k-th DoDamage coroutine of card `a` wakes up after its wait and strikes once. */
  function Strike(g: Game, a: nat, k: nat): Game
    requires CanStrike(g, a, k)
  {
    Tick(g, a, g.arena[Find(g.arena, a).value].timers[k])
  }

  /** The remainder of GameManager.ShowBanner once the wait of the k-th running
      banner is over: every card runs RemoveCardCheck, then the game ends or the
      next battle is created. */
  function FinishBanner(g: Game, k: nat): Game
    requires k < |g.pending|
  {
    var b := g.pending[k];
    var g1 := g.(pending := g.pending[..k] + g.pending[k + 1..], arena := Resolve(g.arena));
    if |g1.roster| == 0 || b.text == "" then
      g1.(button := false, verdict :=
        if |g1.arena| == 0 then NoWinners
        else if |g1.arena| == 1 then FinalWinner(g1.arena[0].card.name)
        else g1.verdict)
    else
      CreateNewBattle(g1)
  }

  /** ChanceCard.Start for the k-th chance card waiting for it: a chance card
      still in play starts the battle itself. */
  function ChanceCardStart(g: Game, k: nat): Game
    requires k < |g.unstarted|
  {
    var id := g.unstarted[k];
    var g1 := g.(unstarted := g.unstarted[..k] + g.unstarted[k + 1..]);
    if Find(g1.arena, id).Some? then StartBattle(g1) else g1
  }

  /** GameManager.Start: the first battle is created from the designer's cards. */
  function Start(cards: seq<Prefab>, rand: nat -> UnitInterval): Game
  {
    CreateNewBattle(Initial(cards, rand))
  }
}
