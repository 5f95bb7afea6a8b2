/** Two complete games, event by event, from GameManager.Start to the final
    announcement, with a random source that always reads 0. */
module Scenarios {
  import opened Cards
  import opened Roster
  import opened Arena
  import opened Battle
  import opened SchedulerProps
  import opened ChanceProps

  const X := Character("X", Stats(10.0, 50.0, 1.0))
  const Y := Character("Y", Stats(5.0, 20.0, 1.0))
  const Doom := Death("Doom", "Doom strikes")

  function AlwaysZero(n: nat): UnitInterval { 0.0 }

  /** A state of a two-card game once both cards are drawn. */
  function After2(arena: seq<InPlay>, pending: seq<Banner>, unstarted: seq<nat>, verdict: Verdict, button: bool): Game
  {
    Game([], arena, pending, unstarted, verdict, button, 2, 2, AlwaysZero)
  }

  /** A roster of two prefabs, the first with asset 0 and the second with asset 1. */
  function Designed(c0: Card, c1: Card): seq<Prefab>
  {
    [Prefab(0, c0), Prefab(1, c1)]
  }

  /** GameManager.Start on two prefabs with the zero random source: the first
      card goes into slot One, the second into slot Two, and the roster is empty. */
  lemma StartWithTwo(c0: Card, c1: Card)
    requires c0.Character? || c1.Character?
    ensures Start(Designed(c0, c1), AlwaysZero) ==
      After2([InPlay(0, c0, One, []), InPlay(1, c1, Two, [])], [],
             (if c0.Character? then [] else [0]) + (if c1.Character? then [] else [1]), Undecided, true)
  {
    var r := Designed(c0, c1);
    var i0 := Initial(r, AlwaysZero);
    assert r[1..] == [Prefab(1, c1)];
    assert CharacterCount(r) != 0;
    assert DrawIndex(0.0, 2) == 0 && DrawIndex(0.0, 1) == 0;
    assert Drawn(i0) == Prefab(0, c0);
    assert RemoveFirst(r, Prefab(0, c0)) == [Prefab(1, c1)];
    var d1 := DrawInto(i0, One);
    assert d1.roster == [Prefab(1, c1)];
    assert Drawn(d1) == Prefab(1, c1);
    assert RemoveFirst([Prefab(1, c1)], Prefab(1, c1)) == [];
  }

  function AlwaysOne(n: nat): UnitInterval { 1.0 }

  /** Two distinct prefabs may hold equal cards. A random value of 1 picks the
      last of three prefabs, and the draw removes that object, not the first
      prefab with an equal card: the roster keeps its first two prefabs in order. */
  lemma DrawRemovesThePickedObject(a: Card, b: Card)
    ensures var roster := [Prefab(0, a), Prefab(1, b), Prefab(2, a)];
      var g := DrawInto(Initial(roster, AlwaysOne), One);
      g.roster == [Prefab(0, a), Prefab(1, b)] && g.arena == [InPlay(0, a, One, [])]
  {
    var roster := [Prefab(0, a), Prefab(1, b), Prefab(2, a)];
    assert (1.0 * (3 as real - 0.1)).Floor == 2;
    assert Drawn(Initial(roster, AlwaysOne)) == Prefab(2, a);
    assert roster[1..] == [Prefab(1, b), Prefab(2, a)] && roster[1..][1..] == [Prefab(2, a)];
    assert RemoveFirst([Prefab(2, a)], Prefab(2, a)) == [];
    assert RemoveFirst(roster[1..], Prefab(2, a)) == [Prefab(1, b)];
    assert RemoveFirst(roster, Prefab(2, a)) == [Prefab(0, a), Prefab(1, b)];
  }

  /** StartBattle with two characters in play: each starts one DoDamage
      coroutine that has captured both, and the button is hidden. */
  lemma ButtonStartsBothCharacters(c0: Card, c1: Card)
    requires c0.Character? && c1.Character?
    ensures StartBattle(After2([InPlay(0, c0, One, []), InPlay(1, c1, Two, [])], [], [], Undecided, true)) ==
      After2([InPlay(0, c0, One, [[0, 1]]), InPlay(1, c1, Two, [[0, 1]])], [], [], Undecided, false)
  {
    var g0 := After2([InPlay(0, c0, One, []), InPlay(1, c1, Two, [])], [], [], Undecided, true);
    assert Ids(g0.arena) == [0, 1];
    var h1 := StartBattling(g0, g0.arena[0]);
    assert h1.arena[0] == InPlay(0, c0, One, [[0, 1]]) && h1.arena[1] == InPlay(1, c1, Two, []);
    assert h1.arena == [InPlay(0, c0, One, [[0, 1]]), InPlay(1, c1, Two, [])];
    assert Ids(h1.arena) == [0, 1];
    var h2 := StartBattling(h1, g0.arena[1]);
    assert h2.arena[0] == InPlay(0, c0, One, [[0, 1]]) && h2.arena[1] == InPlay(1, c1, Two, [[0, 1]]);
    assert StartFrom(g0, g0.arena, 0) == StartFrom(h1, g0.arena, 1) == StartFrom(h2, g0.arena, 2) == h2;
  }

  /** A strike that leaves the victim with health: only its health changes. */
  lemma StrikeSurvived(a: seq<InPlay>, att: nat, vHealth: real)
    requires |a| == 2 && a[0].id == 0 && a[1].id == 1 && att < 2
    requires a[0].card.Character? && a[1].card.Character? && a[att].timers == [[0, 1]]
    requires vHealth == a[1 - att].card.stats.health - a[att].card.stats.power && vHealth > 0.0
    ensures var v := a[1 - att];
      Strike(After2(a, [], [], Undecided, false), att, 0) ==
        After2(a[1 - att := v.(card := v.card.(stats := v.card.stats.(health := vHealth)))], [], [], Undecided, false)
  {
    var g := After2(a, [], [], Undecided, false);
    assert Find(a, 0) == Some(0) && Find(a, 1) == Some(1);
    assert Strike(g, att, 0) == Hit(Hit(g, att, 0), att, 1);
    if att == 0 {
      assert Hit(g, 0, 0) == g;
    } else {
      var g1 := Hit(g, 1, 0);
      assert Find(g1.arena, 1) == Some(1);
    }
  }

  /** The strike that takes the victim's health to zero: every coroutine stops
      and the 5-second banner "<attacker> defeated <victim>" starts. */
  lemma StrikeDefeats(a: seq<InPlay>)
    requires |a| == 2 && a[0].id == 0 && a[1].id == 1
    requires a[0].card.Character? && a[1].card.Character? && a[0].timers == [[0, 1]]
    requires a[1].card.stats.health <= a[0].card.stats.power
    ensures var v := a[1];
      Strike(After2(a, [], [], Undecided, false), 0, 0) ==
        After2(StopAll(a[1 := v.(card := v.card.(stats := v.card.stats.(health := 0.0)))]),
               [Banner(DefeatText(a[0].card.name, v.card.name), 5.0)], [], Undecided, false)
  {
    var g := After2(a, [], [], Undecided, false);
    assert Find(a, 0) == Some(0) && Find(a, 1) == Some(1);
    assert Strike(g, 0, 0) == Hit(Hit(g, 0, 0), 0, 1);
    assert Hit(g, 0, 0) == g;
  }

  const Y10 := Y.(stats := Stats(5.0, 10.0, 1.0))
  const Y0 := Y.(stats := Stats(5.0, 0.0, 1.0))
  const X45 := X.(stats := Stats(10.0, 45.0, 1.0))

  /** The duel of X and Y once the button started both coroutines, and after each strike. */
  const Duel0 := After2([InPlay(0, X, One, [[0, 1]]), InPlay(1, Y, Two, [[0, 1]])], [], [], Undecided, false)
  const Duel1 := After2([InPlay(0, X, One, [[0, 1]]), InPlay(1, Y10, Two, [[0, 1]])], [], [], Undecided, false)
  const Duel2 := After2([InPlay(0, X45, One, [[0, 1]]), InPlay(1, Y10, Two, [[0, 1]])], [], [], Undecided, false)
  const Duel3 := After2([InPlay(0, X45, One, []), InPlay(1, Y0, Two, [])], [Banner("X defeated Y", 5.0)], [], Undecided, false)

  /** A run whose first event can happen goes on from the state that event leaves. */
  lemma RunFirst(g: Game, evs: seq<Event>)
    requires evs != [] && Enabled(g, evs[0])
    ensures Run(g, evs) == Run(Apply(g, evs[0]), evs[1..])
  {
  }

  /** X hits Y down to 10. */
  lemma DuelFirstStrike()
    ensures CanStrike(Duel0, 0, 0) && Strike(Duel0, 0, 0) == Duel1
  {
    var a := Duel0.arena;
    assert Find(a, 0) == Some(0);
    StrikeSurvived(a, 0, 10.0);
    assert a[1 := a[1].(card := Y10)] == Duel1.arena;
  }

  /** Y hits X down to 45. */
  lemma DuelSecondStrike()
    ensures CanStrike(Duel1, 1, 0) && Strike(Duel1, 1, 0) == Duel2
  {
    var a := Duel1.arena;
    assert Find(a, 1) == Some(1);
    StrikeSurvived(a, 1, 45.0);
    assert a[0 := a[0].(card := X45)] == Duel2.arena;
  }

  /** X's second hit defeats Y. */
  lemma DuelThirdStrike()
    ensures CanStrike(Duel2, 0, 0) && Strike(Duel2, 0, 0) == Duel3
  {
    var a := Duel2.arena;
    assert Find(a, 0) == Some(0);
    StrikeDefeats(a);
    assert a[1].card.(stats := a[1].card.stats.(health := 0.0)) == Y0;
    assert StopAll(a[1 := a[1].(card := Y0)]) == Duel3.arena;
    assert DefeatText(a[0].card.name, a[1].card.name) == "X defeated Y";
  }

  /** When the banner "X defeated Y" is over, only X is left and the roster is empty. */
  lemma DuelEnds()
    ensures FinishBanner(Duel3, 0) ==
      Game([], [InPlay(0, X45, One, [])], [], [], FinalWinner("X"), false, 2, 2, AlwaysZero)
  {
    var a := Duel3.arena;
    var last := InPlay(0, X45, One, []);
    assert a[..1] == [last] && [last][..0] == [];
    assert Resolve(a) == [last];
  }

  /** The duel from the moment the button started both coroutines. */
  lemma DuelAfterButton()
    ensures var g := Run(Duel0, [Wake(0, 0), Wake(1, 0), Wake(0, 0), BannerDone(0)]);
      g.verdict == FinalWinner("X") && g.arena == [InPlay(0, X45, One, [])]
  {
    var evs := [Wake(0, 0), Wake(1, 0), Wake(0, 0), BannerDone(0)];
    DuelFirstStrike();
    DuelSecondStrike();
    DuelThirdStrike();
    DuelEnds();
    RunFirst(Duel0, evs);
    RunFirst(Duel1, evs[1..]);
    RunFirst(Duel2, evs[2..]);
    RunFirst(Duel3, evs[3..]);
  }

  /** X (power 10, health 50) against Y (power 5, health 20): after the button
      X hits Y down to 10, Y hits X down to 45, X's second hit defeats Y and
      stops every coroutine; when the banner "X defeated Y" is over the roster is
      empty and X is the final winner with 45 health left. */
  lemma DuelOfTwoCharacters()
    ensures var g := Run(Start(Designed(X, Y), AlwaysZero),
                         [BattleButton, Wake(0, 0), Wake(1, 0), Wake(0, 0), BannerDone(0)]);
      g.verdict == FinalWinner("X") && g.arena == [InPlay(0, X45, One, [])]
  {
    var evs := [BattleButton, Wake(0, 0), Wake(1, 0), Wake(0, 0), BannerDone(0)];
    StartWithTwo(X, Y);
    ButtonStartsBothCharacters(X, Y);
    RunFirst(Start(Designed(X, Y), AlwaysZero), evs);
    assert evs[1..] == [Wake(0, 0), Wake(1, 0), Wake(0, 0), BannerDone(0)];
    DuelAfterButton();
  }

  const X0 := X.(stats := Stats(10.0, 0.0, 1.0))

  /** Doom and X dealt, Doom waiting for its Start; then after Doom's Start. */
  const Doomed0 := After2([InPlay(0, Doom, One, []), InPlay(1, X, Two, [])], [], [0], Undecided, true)
  const Doomed1 := After2([InPlay(0, Doom, One, []), InPlay(1, X0, Two, [[0, 1]])],
                          [Banner("Doom strikes", 5.0)], [], Undecided, false)

  /** Doom's Start: the battle begins and ends at once; X is left with no
      health and, listed after Doom, starts a coroutine that nothing stops. */
  lemma DoomStarts()
    ensures ChanceCardStart(Doomed0, 0) == Doomed1
  {
    var g := Doomed0;
    ChanceStartRule(g, 0, 0);
    var r := ChanceCardStart(g, 0);
    assert DeathEffect(g.arena) == [InPlay(0, Doom, One, []), InPlay(1, X0, Two, [])];
    assert Ids(g.arena) == [0, 1];
    assert r.arena[0] == InPlay(0, Doom, One, []);
    assert r.arena[1] == InPlay(1, X0, Two, [[0, 1]]);
    assert r.arena == Doomed1.arena;
  }

  /** The end of Doom's banner: RemoveCardCheck destroys both cards, and with
      the roster empty the game ends with no winners. */
  lemma DoomSettles()
    ensures FinishBanner(Doomed1, 0) == After2([], [], [], NoWinners, false)
  {
    var a := Doomed1.arena;
    assert forall i :: 0 <= i < |a| ==> !Kept(a[i].card);
    ResolveNoneKept(a);
  }

  /** A Death card drawn beside the last character: its Start begins the
      battle, the effect takes the character's health to zero and ends the
      battle with Doom's text; after the banner nothing is left in play and
      there are no winners. */
  lemma DeathTakesTheLastCharacter()
    ensures var g := Run(Start(Designed(Doom, X), AlwaysZero), [ChanceStart(0), BannerDone(0)]);
      g.verdict == NoWinners && g.arena == [] && g.roster == []
  {
    var evs := [ChanceStart(0), BannerDone(0)];
    StartWithTwo(Doom, X);
    RunFirst(Doomed0, evs);
    DoomStarts();
    RunFirst(Doomed1, evs[1..]);
    DoomSettles();
  }
}
