/** Properties of the chance card pipeline: ChanceCard.StartBattling with the
    Death and MultiplyStats effects, and a chance card starting the battle itself. */
module ChanceProps {
  import opened Cards
  import opened Arena
  import opened Battle
  import opened CharacterProps

  lemma EffectKeepsLayout(c: Card, a: seq<InPlay>)
    requires !c.Character?
    ensures |Effect(c, a)| == |a|
    ensures forall i :: 0 <= i < |a| ==>
      Effect(c, a)[i].id == a[i].id && Effect(c, a)[i].slot == a[i].slot &&
      Effect(c, a)[i].timers == a[i].timers && Effect(c, a)[i].card.Character? == a[i].card.Character?
  {
  }

  /** With no character in play, a chance card destroys every card in play,
      changes no stats, and ends the battle with the empty text; since nothing is
      left in play that goes straight to the creation of a new battle. */
  lemma ChanceWithoutCharacter(g: Game, c: Card)
    requires !c.Character? && !HasCharacter(g.arena)
    ensures ChanceStartBattling(g, c) == CreateNewBattle(g.(arena := []))
    ensures ChanceStartBattling(g, c) == EndBattle(g.(arena := []), "")
  {
  }

  /** With a character in play, the chance card's effect runs first; then the
      battle ends with its chanceText: coroutines stop and a 5-second banner
      starts; the roster is untouched. */
  lemma ChanceWithCharacter(g: Game, c: Card)
    requires !c.Character? && HasCharacter(g.arena)
    ensures var r, fx := ChanceStartBattling(g, c), Effect(c, g.arena);
      SameLayout(r.arena, g.arena) &&
      (forall i :: 0 <= i < |r.arena| ==> r.arena[i].card == fx[i].card && r.arena[i].timers == []) &&
      r.pending == g.pending + [Banner(c.text, 5.0)] &&
      r.roster == g.roster && r.nextId == g.nextId && r.draws == g.draws
  {
    EffectKeepsLayout(c, g.arena);
    EndBattleInPlay(g.(arena := Effect(c, g.arena)), c.text);
  }

  /** After a Death card met a character, the RemoveCardCheck pass of the
      banner it started leaves nothing in play. */
  lemma DeathLeavesNothing(g: Game, c: Card)
    requires c.Death? && HasCharacter(g.arena)
    ensures var r := ChanceStartBattling(g, c);
      Resolve(r.arena) == [] && r.pending[|r.pending| - 1] == Banner(c.text, 5.0)
  {
    var r := ChanceStartBattling(g, c);
    ChanceWithCharacter(g, c);
    DeathZeroesHealth(g.arena);
    ResolveNoneKept(r.arena);
  }

  /** After a MultiplyStats card met a character, every character in play has
      power and health at least 0 and at least 0.1 between attacks. */
  lemma MultiplyLeavesBounds(g: Game, c: Card)
    requires c.Multiply? && HasCharacter(g.arena)
    ensures var r := ChanceStartBattling(g, c);
      forall i :: 0 <= i < |r.arena| && r.arena[i].card.Character? ==> InBounds(r.arena[i].card.stats)
  {
    ChanceWithCharacter(g, c);
    MultiplyScalesAndClamps(g.arena, c.pm, c.hm, c.tm);
  }

  /** Drawing a chance card queues its Start, the card's own trigger of the battle. */
  lemma DrawnChanceWillStart(g: Game, s: Slot)
    requires 1 <= |g.roster| && !Drawn(g).card.Character?
    ensures var r := DrawInto(g, s);
      r.unstarted == g.unstarted + [g.nextId] && r.arena[|r.arena| - 1].id == g.nextId &&
      ChanceCardStart(r, |g.unstarted|) == StartBattle(g.(roster := r.roster, arena := r.arena, nextId := r.nextId, draws := r.draws))
  {
    var r := DrawInto(g, s);
    var k := |g.unstarted|;
    assert r.unstarted[..k] + r.unstarted[k + 1..] == g.unstarted;
    assert r.arena[|r.arena| - 1].id == g.nextId;
  }

  /** StartBattle's loop over a chance card listed before a character: the
      chance card ends the battle, then the character starts a coroutine that
      captures both cards. */
  lemma ChanceBeforeCharacter(g: Game)
    requires |g.arena| == 2 && g.arena[0].id != g.arena[1].id
    requires !g.arena[0].card.Character? && g.arena[1].card.Character?
    ensures var r, c, fx := StartFrom(g, g.arena, 0), g.arena[0].card, Effect(g.arena[0].card, g.arena);
      |r.arena| == 2 &&
      (forall i :: 0 <= i < 2 ==>
         r.arena[i].card == fx[i].card && r.arena[i].id == g.arena[i].id && r.arena[i].slot == g.arena[i].slot) &&
      r.arena[0].timers == [] && r.arena[1].timers == [Ids(g.arena)] &&
      r.pending == g.pending + [Banner(c.text, 5.0)] && r.roster == g.roster && r.unstarted == g.unstarted &&
      r.verdict == g.verdict && r.nextId == g.nextId && r.draws == g.draws && r.rand == g.rand
  {
    var c := g.arena[0].card;
    assert HasCharacter(g.arena) by { assert g.arena[1].card.Character?; }
    EffectKeepsLayout(c, g.arena);
    var h1 := StartBattling(g, g.arena[0]);
    assert h1 == ShowBanner(g.(arena := StopAll(Effect(c, g.arena))), c.text, 5.0);
    assert Ids(h1.arena) == Ids(g.arena);
    assert StartFrom(g, g.arena, 0) == StartFrom(h1, g.arena, 1);
    assert StartFrom(h1, g.arena, 1) == StartBattling(h1, g.arena[1]);
  }

  /** StartBattle's loop over a character listed before a chance card: the
      character's coroutine starts, then the chance card ends the battle and
      stops it. */
  lemma CharacterBeforeChance(g: Game)
    requires |g.arena| == 2 && g.arena[0].id != g.arena[1].id
    requires g.arena[0].card.Character? && !g.arena[1].card.Character?
    ensures var r, c, fx := StartFrom(g, g.arena, 0), g.arena[1].card, Effect(g.arena[1].card, g.arena);
      |r.arena| == 2 &&
      (forall i :: 0 <= i < 2 ==>
         r.arena[i].card == fx[i].card && r.arena[i].id == g.arena[i].id && r.arena[i].slot == g.arena[i].slot &&
         r.arena[i].timers == []) &&
      r.pending == g.pending + [Banner(c.text, 5.0)] && r.roster == g.roster && r.unstarted == g.unstarted &&
      r.verdict == g.verdict && r.nextId == g.nextId && r.draws == g.draws && r.rand == g.rand
  {
    var c := g.arena[1].card;
    var t := StartTimer(g.arena, g.arena[0].id, Ids(g.arena));
    var h1 := StartBattling(g, g.arena[0]);
    assert h1.arena == t;
    EffectKeepsLayout(c, t);
    EffectKeepsLayout(c, g.arena);
    forall i | 0 <= i < 2 ensures Effect(c, t)[i].card == Effect(c, g.arena)[i].card {
      assert t[i].card == g.arena[i].card;
    }
    assert HasCharacter(t) by { assert t[0].card.Character?; }
    assert StartFrom(g, g.arena, 0) == StartFrom(h1, g.arena, 1);
    assert StartFrom(h1, g.arena, 1) == StartBattling(h1, g.arena[1]);
  }

  /** The Start of a chance card still in play beside one character runs the
      whole battle at once: the effect is applied to both cards, the battle ends
      with the card's chanceText, and the battle button is hidden. A character
      listed before the chance card has the coroutine it started stopped by
      EndBattle; one listed after it starts its coroutine, capturing both cards,
      only once the battle has ended. */
  lemma ChanceStartRule(g: Game, k: nat, ci: nat)
    requires k < |g.unstarted| && |g.arena| == 2 && ci < 2 && g.arena[0].id != g.arena[1].id
    requires g.arena[ci].id == g.unstarted[k] && !g.arena[ci].card.Character?
    requires g.arena[1 - ci].card.Character?
    ensures var r, c, fx := ChanceCardStart(g, k), g.arena[ci].card, Effect(g.arena[ci].card, g.arena);
      |r.arena| == 2 &&
      (forall i :: 0 <= i < 2 ==>
         r.arena[i].card == fx[i].card && r.arena[i].id == g.arena[i].id && r.arena[i].slot == g.arena[i].slot) &&
      r.arena[ci].timers == [] &&
      r.arena[1 - ci].timers == (if ci == 0 then [Ids(g.arena)] else []) &&
      r.pending == g.pending + [Banner(c.text, 5.0)] && !r.button &&
      r.roster == g.roster && r.unstarted == g.unstarted[..k] + g.unstarted[k + 1..] &&
      r.verdict == g.verdict && r.nextId == g.nextId && r.draws == g.draws && r.rand == g.rand
  {
    var g1 := g.(unstarted := g.unstarted[..k] + g.unstarted[k + 1..]);
    assert Find(g1.arena, g.unstarted[k]).Some?;
    assert ChanceCardStart(g, k) == StartFrom(g1, g1.arena, 0).(button := false);
    if ci == 0 {
      ChanceBeforeCharacter(g1);
    } else {
      CharacterBeforeChance(g1);
    }
  }
}
