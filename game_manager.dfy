/** The game manager as the object the engine drives: its fields are the roster,
    the cards in play and the running banners, and each method performs one
    step of the source in place. Every method is proved to leave exactly the
    state the matching function of module Battle describes. */
module Manager {
  import opened Cards
  import opened Roster
  import opened Arena
  import opened Battle

  class GameManager {
    /** allCards: the undrawn cards. */
    var roster: seq<Prefab>
    /** The cards in play, in scene order. */
    var arena: seq<InPlay>
    /** The ShowBanner coroutines still waiting. */
    var pending: seq<Banner>
    /** The chance cards in play whose Start has not run yet. */
    var unstarted: seq<nat>
    var verdict: Verdict
    /** Whether the battle button is shown. */
    var button: bool
    var nextId: nat
    var draws: nat
    /** The random source, seeded once: the value of the n-th read of Random.value. */
    const rand: nat -> UnitInterval

    /** The state the fields stand for. */
    function Model(): Game
      reads this
    {
      Game(roster, arena, pending, unstarted, verdict, button, nextId, draws, rand)
    }

    /** GameManager.Start: set up the first battle. */
    constructor (cards: seq<Prefab>, rand: nat -> UnitInterval)
      ensures Model() == Battle.Start(cards, rand)
    {
      roster := cards;
      arena := [];
      pending := [];
      unstarted := [];
      verdict := Undecided;
      button := false;
      nextId := 0;
      draws := 0;
      this.rand := rand;
      new;
      CreateNewBattle();
    }

    /** The counting loop of CreateNewBattle over allCards. */
    method CountCharacters() returns (n: nat)
      ensures n == CharacterCount(roster)
      ensures n == 0 <==> !HasCharacterCard(roster)
    {
      n := 0;
      var i := 0;
      while i < |roster|
        invariant 0 <= i <= |roster|
        invariant n == CharacterCount(roster[..i])
      {
        CharacterCountSnoc(roster[..i], roster[i]);
        assert roster[..i + 1] == roster[..i] + [roster[i]];
        if roster[i].card.Character? {
          n := n + 1;
        }
        i := i + 1;
      }
      assert roster[..i] == roster;
      CharacterCountZero(roster);
    }

    /** The search loop of ChanceCard.StartBattling for a character in play. */
    method HasCharacterInPlay() returns (found: bool)
      ensures found <==> HasCharacter(arena)
    {
      found := false;
      var i := 0;
      while i < |arena|
        invariant 0 <= i <= |arena|
        invariant !found
        invariant forall j :: 0 <= j < i ==> !arena[j].card.Character?
      {
        if arena[i].card.Character? {
          found := true;
          break;
        }
        i := i + 1;
      }
    }

    /** InstantiateRandomCard, and the caller moving the new card to `slot`. */
    method InstantiateRandomCard(slot: Slot)
      requires 1 <= |roster|
      modifies this
      ensures Model() == DrawInto(old(Model()), slot)
    {
      var prefab := roster[DrawIndex(rand(draws), |roster|)];
      draws := draws + 1;
      arena := arena + [InPlay(nextId, prefab.card, slot, [])];
      if !prefab.card.Character? {
        unstarted := unstarted + [nextId];
      }
      nextId := nextId + 1;
      roster := RemoveFirst(roster, prefab);
    }

    /** GameManager.CreateNewBattle. */
    method CreateNewBattle()
      modifies this
      ensures Model() == Battle.CreateNewBattle(old(Model()))
    {
      var existing := |arena|;
      var characterCardCounter := CountCharacters();
      if characterCardCounter == 0 {
        roster := [];
        pending := pending + [Banner("", 0.0)];
        return;
      }
      if existing == 0 {
        InstantiateRandomCard(One);
        if |roster| == 0 {
          pending := pending + [Banner("", 0.0)];
          return;
        }
        InstantiateRandomCard(Two);
      } else if existing == 1 {
        InstantiateRandomCard(if arena[0].slot == One then Two else One);
      }
      button := true;
    }

    /** GameManager.EndBattle. */
    method EndBattle(text: string)
      modifies this
      ensures Model() == Battle.EndBattle(old(Model()), text)
    {
      if |arena| == 0 {
        CreateNewBattle();
        return;
      }
      var i := 0;
      while i < |arena|
        invariant 0 <= i <= |arena| == |old(arena)|
        invariant forall j :: 0 <= j < i ==> arena[j] == old(arena)[j].(timers := [])
        invariant forall j :: i <= j < |arena| ==> arena[j] == old(arena)[j]
        invariant Model() == old(Model()).(arena := arena)
      {
        arena := arena[i := arena[i].(timers := [])];
        i := i + 1;
      }
      pending := pending + [Banner(text, 5.0)];
    }

    /** ChanceCard_Death.DoChanceCardEffect. */
    method KillAll()
      modifies this
      ensures Model() == old(Model()).(arena := DeathEffect(old(arena)))
    {
      var i := 0;
      while i < |arena|
        invariant 0 <= i <= |arena| == |old(arena)|
        invariant forall j :: 0 <= j < i ==> arena[j] == old(arena)[j].(card := Killed(old(arena)[j].card))
        invariant forall j :: i <= j < |arena| ==> arena[j] == old(arena)[j]
        invariant Model() == old(Model()).(arena := arena)
      {
        var e := arena[i];
        if e.card.Character? {
          arena := arena[i := e.(card := e.card.(stats := e.card.stats.(health := 0.0)))];
        }
        i := i + 1;
      }
    }

    /** ChanceCard_MultiplyStats.DoChanceCardEffect. */
    method ScaleAll(pm: real, hm: real, tm: real)
      modifies this
      ensures Model() == old(Model()).(arena := MultiplyEffect(old(arena), pm, hm, tm))
    {
      var i := 0;
      while i < |arena|
        invariant 0 <= i <= |arena| == |old(arena)|
        invariant forall j :: 0 <= j < i ==>
          arena[j] == old(arena)[j].(card := Scaled(old(arena)[j].card, pm, hm, tm))
        invariant forall j :: i <= j < |arena| ==> arena[j] == old(arena)[j]
        invariant Model() == old(Model()).(arena := arena)
      {
        var e := arena[i];
        if e.card.Character? {
          var s := e.card.stats;
          var power, health, time := s.power * pm, s.health * hm, s.time * tm;
          power := Max(power, 0.0);
          health := Max(health, 0.0);
          time := Max(time, 0.1);
          assert e == old(arena)[i];
          assert Scaled(e.card, pm, hm, tm) == e.card.(stats := Stats(power, health, time));
          arena := arena[i := e.(card := e.card.(stats := Stats(power, health, time)))];
        }
        i := i + 1;
      }
    }

    /** DoChanceCardEffect, dispatched on the kind of chance card. */
    method DoChanceCardEffect(c: Card)
      requires !c.Character?
      modifies this
      ensures Model() == old(Model()).(arena := Effect(c, old(arena)))
    {
      match c
      case Death(_, _) => KillAll();
      case Multiply(_, _, pm, hm, tm) => ScaleAll(pm, hm, tm);
    }

    /** ChanceCard.StartBattling for chance card `c`. */
    method ChanceStartBattling(c: Card)
      requires !c.Character?
      modifies this
      ensures Model() == Battle.ChanceStartBattling(old(Model()), c)
    {
      var hasCharacterCardInPlay := HasCharacterInPlay();
      if !hasCharacterCardInPlay {
        // DestroyImmediate on every card in play.
        arena := [];
        EndBattle("");
        return;
      }
      DoChanceCardEffect(c);
      EndBattle(c.text);
    }

    /** StartBattling of card `e`. */
    method StartBattling(e: InPlay)
      modifies this
      ensures Model() == Battle.StartBattling(old(Model()), e)
    {
      if e.card.Character? {
        // StartCoroutine(DoDamage()): the coroutine captures the cards in play, then waits.
        arena := StartTimer(arena, e.id, Ids(arena));
      } else {
        ChanceStartBattling(e.card);
      }
    }

    /** GameManager.StartBattle. */
    method StartBattle()
      modifies this
      ensures Model() == Battle.StartBattle(old(Model()))
    {
      var existingCards := arena;
      var i := 0;
      while i < |existingCards|
        invariant 0 <= i <= |existingCards|
        invariant StartFrom(Model(), existingCards, i).(button := false) == Battle.StartBattle(old(Model()))
      {
        StartBattling(existingCards[i]);
        i := i + 1;
      }
      button := false;
    }

    /** CharacterCard.TakeDamage of the card at `vi` from the card at `ai`. */
    method TakeDamage(vi: nat, ai: nat)
      requires vi < |arena| && ai < |arena|
      requires arena[vi].card.Character? && arena[ai].card.Character?
      modifies this
      ensures Model() == Battle.TakeDamage(old(Model()), vi, ai)
    {
      var victim, attacker := arena[vi], arena[ai];
      var health := victim.card.stats.health - attacker.card.stats.power;
      if health < 0.0 {
        health := 0.0;
      }
      arena := arena[vi := victim.(card := victim.card.(stats := victim.card.stats.(health := health)))];
      if health == 0.0 {
        arena := arena[vi := arena[vi].(timers := [])];
        arena := arena[ai := arena[ai].(timers := [])];
        EndBattle(DefeatText(attacker.card.name, victim.card.name));
      }
    }

    /** One pass of the inner loop of DoDamage: attacker `a`, captured card `t`. */
    method Hit(a: nat, t: nat)
      modifies this
      ensures Model() == Battle.Hit(old(Model()), a, t)
    {
      var victim := Find(arena, t);
      if victim.None? || !arena[victim.value].card.Character? {
        return;  // destroyed, or not a character
      }
      if t == a {
        return;  // don't damage self
      }
      var attacker := Find(arena, a);
      if attacker.Some? && arena[attacker.value].card.Character? {
        TakeDamage(victim.value, attacker.value);
      }
    }

    /** The k-th DoDamage coroutine of card `a` wakes up and strikes every card it captured. */
    method Strike(a: nat, k: nat)
      requires CanStrike(Model(), a, k)
      modifies this
      ensures Model() == Battle.Strike(old(Model()), a, k)
    {
      var allCardsInPlay := arena[Find(arena, a).value].timers[k];
      var i := 0;
      while i < |allCardsInPlay|
        invariant 0 <= i <= |allCardsInPlay|
        invariant Tick(Model(), a, allCardsInPlay[i..]) == Battle.Strike(old(Model()), a, k)
      {
        assert allCardsInPlay[i..][1..] == allCardsInPlay[i + 1..];
        Hit(a, allCardsInPlay[i]);
        i := i + 1;
      }
    }

    /** RemoveCardCheck on every card in play, each destroying itself if it must go. */
    method RemoveCardChecks()
      modifies this
      ensures Model() == old(Model()).(arena := Resolve(old(arena)))
    {
      arena := RemoveCardCheckPass(arena);
    }

    /** The part of ShowBanner after the wait of the k-th running banner. */
    method FinishBanner(k: nat)
      requires k < |pending|
      modifies this
      ensures Model() == Battle.FinishBanner(old(Model()), k)
    {
      var b := pending[k];
      pending := pending[..k] + pending[k + 1..];
      RemoveCardChecks();
      if |roster| == 0 || b.text == "" {
        button := false;
        if |arena| == 0 {
          verdict := NoWinners;
        } else if |arena| == 1 {
          verdict := FinalWinner(arena[0].card.name);
        }
      } else {
        CreateNewBattle();
      }
    }

    /** ChanceCard.Start of the k-th chance card still waiting for it. */
    method ChanceCardStart(k: nat)
      requires k < |unstarted|
      modifies this
      ensures Model() == Battle.ChanceCardStart(old(Model()), k)
    {
      var id := unstarted[k];
      unstarted := unstarted[..k] + unstarted[k + 1..];
      if Find(arena, id).Some? {
        StartBattle();
      }
    }
  }
}
