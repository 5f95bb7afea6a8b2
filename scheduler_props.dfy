/** Properties of the scheduler (GameManager): the draw, the three branches of
    CreateNewBattle, EndBattle, the resolution after a banner, and the
    invariant every event keeps: at most two cards in play, never two in the same
    slot, each with its own identity. */
module SchedulerProps {
  import opened Cards
  import opened Roster
  import opened Arena
  import opened Battle
  import opened CharacterProps

  // ------------------------------------------------------------ the draw

  /** A draw takes one random value, picks a card of the roster, removes the
      first roster element equal to it and nothing else, and puts a new card with
      a fresh identity into play at the given slot. */
  lemma DrawRule(g: Game, s: Slot)
    requires 1 <= |g.roster|
    ensures var r, c := DrawInto(g, s), Drawn(g);
      c in g.roster &&
      r.roster == g.roster[..FirstIndex(g.roster, c)] + g.roster[FirstIndex(g.roster, c) + 1..] &&
      |r.roster| == |g.roster| - 1 &&
      multiset(r.roster) == multiset(g.roster) - multiset{c} &&
      r.arena == g.arena + [InPlay(g.nextId, c.card, s, [])] &&
      r.draws == g.draws + 1 && r.nextId == g.nextId + 1 && r.pending == g.pending
  {
    RemoveFirstDeletesFirst(g.roster, Drawn(g));
  }

  // ------------------------------------------------------------ CreateNewBattle

  /** With no character card left in the roster, CreateNewBattle clears the
      roster, draws nothing and shows the empty banner for 0 seconds. */
  lemma CreateWhenNoCharacterLeft(g: Game)
    requires !HasCharacterCard(g.roster)
    ensures CreateNewBattle(g) == g.(roster := [], pending := g.pending + [Banner("", 0.0)])
  {
    CharacterCountZero(g.roster);
  }

  /** With nothing in play and a single prefab left, which must then hold a
      character, that card is drawn into slot One, the roster is left empty, the
      empty banner is shown for 0 seconds and the battle button is left as it was. */
  lemma CreateFromLastPrefab(g: Game)
    requires HasCharacterCard(g.roster) && |g.arena| == 0 && |g.roster| == 1
    ensures var r := CreateNewBattle(g);
      r.arena == [InPlay(g.nextId, g.roster[0].card, One, [])] && g.roster[0].card.Character? &&
      r.roster == [] && r.unstarted == g.unstarted &&
      r.pending == g.pending + [Banner("", 0.0)] && r.button == g.button
  {
    CharacterCountZero(g.roster);
    DrawRule(g, One);
  }

  /** With nothing in play and two or more prefabs left, a first card is drawn
      into slot One and a second, from what is left, into slot Two; the roster
      loses exactly those two prefabs, no banner starts and the battle button is
      shown. */
  lemma CreateFromEmpty(g: Game)
    requires HasCharacterCard(g.roster) && |g.arena| == 0 && |g.roster| >= 2
    ensures var r, p1 := CreateNewBattle(g), Drawn(g);
      var p2 := Drawn(DrawInto(g, One));
      r.arena == [InPlay(g.nextId, p1.card, One, []), InPlay(g.nextId + 1, p2.card, Two, [])] &&
      p1 in g.roster && p2 in multiset(g.roster) - multiset{p1} &&
      multiset(r.roster) == multiset(g.roster) - multiset{p1} - multiset{p2} &&
      r.pending == g.pending && r.button
  {
    CharacterCountZero(g.roster);
    DrawRule(g, One);
    DrawRule(DrawInto(g, One), Two);
  }

  /** With one card in play, exactly one card is drawn and it goes into the
      slot the card in play does not occupy; the battle button is shown. */
  lemma CreateBesideOne(g: Game)
    requires HasCharacterCard(g.roster) && |g.arena| == 1
    ensures var r := CreateNewBattle(g);
      |r.arena| == 2 && r.arena[0] == g.arena[0] &&
      r.arena[1] == InPlay(g.nextId, Drawn(g).card, Other(g.arena[0].slot), []) &&
      r.arena[1].slot != r.arena[0].slot &&
      |r.roster| == |g.roster| - 1 && r.pending == g.pending && r.button
  {
    CharacterCountZero(g.roster);
    DrawRule(g, Other(g.arena[0].slot));
  }

  /** With two or more cards in play (the branch that only logs an error),
      nothing is drawn and only the battle button is shown. */
  lemma CreateWithTwoOrMore(g: Game)
    requires HasCharacterCard(g.roster) && |g.arena| >= 2
    ensures CreateNewBattle(g) == g.(button := true)
  {
    CharacterCountZero(g.roster);
  }

  // ------------------------------------------------------------ EndBattle

  /** EndBattle with nothing in play creates the next battle at once; otherwise
      it stops every coroutine of every card before starting the 5-second banner,
      and changes no card. */
  lemma EndBattleRule(g: Game, text: string)
    ensures |g.arena| == 0 ==> EndBattle(g, text) == CreateNewBattle(g)
    ensures |g.arena| > 0 ==>
      var r := EndBattle(g, text);
      SameCards(r.arena, g.arena) &&
      (forall i :: 0 <= i < |r.arena| ==> r.arena[i].timers == []) &&
      r.pending == g.pending + [Banner(text, 5.0)] && r.roster == g.roster
  {
    if |g.arena| > 0 {
      EndBattleInPlay(g, text);
    }
  }

  // ------------------------------------------------------------ resolution

  /** After a banner's wait every card in play stays exactly when its own
      RemoveCardCheck keeps it. Then, if the roster is empty or the banner text is
      empty, no new battle is created and the battle button is hidden: nothing
      left means "no winners", one card
      left is the final winner (a character with health left). Otherwise the next
      battle is created from what is left. */
  lemma FinishBannerRule(g: Game, k: nat)
    requires k < |g.pending|
    ensures var r, b, kept := FinishBanner(g, k), g.pending[k], Resolve(g.arena);
      var rest := g.pending[..k] + g.pending[k + 1..];
      (forall e :: e in kept <==> e in g.arena && Kept(e.card)) &&
      ((|g.roster| == 0 || b.text == "") ==>
         r.arena == kept && r.roster == g.roster && r.pending == rest &&
         r.nextId == g.nextId && r.draws == g.draws && !r.button &&
         (|kept| == 0 ==> r.verdict == NoWinners) &&
         (|kept| == 1 ==>
            r.verdict == FinalWinner(kept[0].card.name) && kept[0] in g.arena &&
            kept[0].card.Character? && kept[0].card.stats.health != 0.0) &&
         (|kept| >= 2 ==> r.verdict == g.verdict)) &&
      ((|g.roster| != 0 && b.text != "") ==>
         r == CreateNewBattle(g.(pending := rest, arena := kept)))
  {
    var kept := Resolve(g.arena);
    ResolveKeepsExactly(g.arena);
    if |kept| == 1 {
      assert kept[0] in kept;
    }
  }

  // ------------------------------------------------------------ the invariant

  /** At most two cards in play; two cards sit in different slots and have different identities. */
  predicate Placed(a: seq<InPlay>)
  {
    |a| <= 2 && (|a| == 2 ==> a[0].slot != a[1].slot && a[0].id != a[1].id)
  }

  /** The invariant of every reachable state: the placement, identities below
      the next one to hand out, no identity captured twice by one coroutine,
      and only character cards running coroutines. */
  predicate Valid(g: Game)
  {
    Placed(g.arena) &&
    (forall i :: 0 <= i < |g.arena| ==> g.arena[i].id < g.nextId) &&
    (forall i, k :: 0 <= i < |g.arena| && 0 <= k < |g.arena[i].timers| ==> NoDup(g.arena[i].timers[k])) &&
    (forall i :: 0 <= i < |g.arena| && g.arena[i].timers != [] ==> g.arena[i].card.Character?)
  }

  lemma PlacedDistinct(a: seq<InPlay>)
    requires Placed(a)
    ensures DistinctIds(a)
  {
  }

  /** The cards of a list StartBattle read are older than the next identity,
      and any card in play with the identity of one of them is the same kind of
      card: it is that same card. */
  predicate Consistent(cards: seq<InPlay>, a: seq<InPlay>, next: nat)
  {
    (forall j :: 0 <= j < |cards| ==> cards[j].id < next) &&
    (forall j, m :: 0 <= j < |cards| && 0 <= m < |a| && cards[j].id == a[m].id ==>
       cards[j].card.Character? == a[m].card.Character?)
  }

  /** The cards in play are consistent with themselves. */
  lemma ValidConsistent(g: Game)
    requires Valid(g)
    ensures Consistent(g.arena, g.arena, g.nextId)
  {
    forall j, m | 0 <= j < |g.arena| && 0 <= m < |g.arena| && g.arena[j].id == g.arena[m].id
      ensures j == m
    {
      PlacedDistinct(g.arena);
      assert Ids(g.arena)[j] == g.arena[j].id;
    }
  }

  /** Two arenas with the same identities and kinds position by position. */
  predicate SameKinds(a: seq<InPlay>, b: seq<InPlay>)
  {
    |a| == |b| && forall i :: 0 <= i < |a| ==> a[i].id == b[i].id && a[i].card.Character? == b[i].card.Character?
  }

  lemma SameKindsConsistent(cards: seq<InPlay>, a: seq<InPlay>, b: seq<InPlay>, n: nat, n': nat)
    requires Consistent(cards, a, n) && SameKinds(b, a) && n <= n'
    ensures Consistent(cards, b, n')
  {
  }

  /** A new battle drawn from nothing in play holds only cards whose identities
      were not handed out before. */
  lemma CreateFreshIds(g: Game)
    requires |g.arena| == 0
    ensures var r := CreateNewBattle(g);
      r.nextId >= g.nextId && forall m :: 0 <= m < |r.arena| ==> r.arena[m].id >= g.nextId
  {
  }

  lemma DrawIntoValid(g: Game, s: Slot)
    requires Valid(g) && 1 <= |g.roster|
    requires |g.arena| == 0 || (|g.arena| == 1 && g.arena[0].slot != s)
    ensures Valid(DrawInto(g, s))
  {
  }

  lemma CreateNewBattleValid(g: Game)
    requires Valid(g)
    ensures Valid(CreateNewBattle(g))
  {
    if CharacterCount(g.roster) != 0 {
      if |g.arena| == 0 {
        DrawIntoValid(g, One);
        var g1 := DrawInto(g, One);
        if |g1.roster| != 0 {
          DrawIntoValid(g1, Two);
        }
      } else if |g.arena| == 1 {
        DrawIntoValid(g, Other(g.arena[0].slot));
      }
    }
  }

  /** Replacing the cards in play by ones with the same layout and kinds, and
      each timer list by itself or by nothing, keeps the invariant. */
  lemma ReplaceArenaValid(g: Game, a: seq<InPlay>)
    requires Valid(g) && SameLayout(a, g.arena) && SameKinds(a, g.arena)
    requires forall i :: 0 <= i < |a| ==> a[i].timers == [] || a[i].timers == g.arena[i].timers
    ensures Valid(g.(arena := a))
  {
  }

  lemma EndBattleValid(g: Game, text: string)
    requires Valid(g)
    ensures Valid(EndBattle(g, text))
  {
    if |g.arena| == 0 {
      CreateNewBattleValid(g);
    }
  }

  /** A character from a consistent list starting its coroutine keeps the
      invariant: the timer goes to the character in play with its identity, and
      the list of identities it captures has no repeats. */
  lemma StartTimerValid(g: Game, e: InPlay, cards: seq<InPlay>)
    requires Valid(g) && e in cards && Consistent(cards, g.arena, g.nextId) && e.card.Character?
    ensures var r := StartBattling(g, e);
      Valid(r) && Consistent(cards, r.arena, r.nextId)
  {
    var r := StartBattling(g, e);
    assert SameKinds(r.arena, g.arena);
    forall i, k | 0 <= i < |r.arena| && 0 <= k < |r.arena[i].timers|
      ensures NoDup(r.arena[i].timers[k])
    {
      if k == |g.arena[i].timers| && g.arena[i].id == e.id {
        assert r.arena[i].timers[k] == Ids(g.arena);
      } else {
        assert r.arena[i].timers[k] == g.arena[i].timers[k];
      }
    }
    SameKindsConsistent(cards, g.arena, r.arena, g.nextId, r.nextId);
  }

  /** A chance card's StartBattling keeps the invariant, and a list consistent
      with the cards in play stays consistent with what is left. */
  lemma ChanceBattlingValid(g: Game, c: Card, cards: seq<InPlay>)
    requires Valid(g) && Consistent(cards, g.arena, g.nextId) && !c.Character?
    ensures var r := ChanceStartBattling(g, c);
      Valid(r) && Consistent(cards, r.arena, r.nextId)
  {
    var r := ChanceStartBattling(g, c);
    if !HasCharacter(g.arena) {
      EndBattleValid(g.(arena := []), "");
      CreateFreshIds(g.(arena := []));
    } else {
      var fx := Effect(c, g.arena);
      assert |fx| == |g.arena|;
      assert SameKinds(fx, g.arena);
      ReplaceArenaValid(g, fx);
      EndBattleValid(g.(arena := fx), c.text);
      assert SameKinds(r.arena, g.arena);
      SameKindsConsistent(cards, g.arena, r.arena, g.nextId, r.nextId);
    }
  }

  /** StartBattling of a card from a consistent list keeps the invariant, and
      the list stays consistent with what is then in play. */
  lemma StartBattlingValid(g: Game, e: InPlay, cards: seq<InPlay>)
    requires Valid(g) && e in cards && Consistent(cards, g.arena, g.nextId)
    ensures var r := StartBattling(g, e);
      Valid(r) && Consistent(cards, r.arena, r.nextId)
  {
    if e.card.Character? {
      StartTimerValid(g, e, cards);
    } else {
      ChanceBattlingValid(g, e.card, cards);
    }
  }

  lemma {:induction false} StartFromValid(g: Game, cards: seq<InPlay>, i: nat)
    requires Valid(g) && Consistent(cards, g.arena, g.nextId)
    ensures Valid(StartFrom(g, cards, i))
    decreases |cards| - i
  {
    if i < |cards| {
      StartBattlingValid(g, cards[i], cards);
      StartFromValid(StartBattling(g, cards[i]), cards, i + 1);
    }
  }

  lemma StartBattleValid(g: Game)
    requires Valid(g)
    ensures Valid(StartBattle(g))
  {
    ValidConsistent(g);
    StartFromValid(g, g.arena, 0);
  }

  lemma TakeDamageValid(g: Game, vi: nat, ai: nat)
    requires Valid(g)
    requires vi < |g.arena| && ai < |g.arena|
    requires g.arena[vi].card.Character? && g.arena[ai].card.Character?
    ensures Valid(TakeDamage(g, vi, ai))
  {
    var v, att := g.arena[vi], g.arena[ai];
    var hurt := Hurt(v.card, att.card.stats.power);
    var a1 := g.arena[vi := v.(card := hurt)];
    ReplaceArenaValid(g, a1);
    if hurt.stats.health == 0.0 {
      DefeatValid(g, vi, ai);
    }
  }

  /** The defeating blow: both coroutines stop and the battle ends. */
  lemma DefeatValid(g: Game, vi: nat, ai: nat)
    requires Valid(g)
    requires vi < |g.arena| && ai < |g.arena|
    requires g.arena[vi].card.Character? && g.arena[ai].card.Character?
    ensures var v, att := g.arena[vi], g.arena[ai];
      var a2 := StopAt(StopAt(g.arena[vi := v.(card := Hurt(v.card, att.card.stats.power))], vi), ai);
      Valid(EndBattle(g.(arena := a2), DefeatText(att.card.name, v.card.name)))
  {
    var v, att := g.arena[vi], g.arena[ai];
    var a1 := g.arena[vi := v.(card := Hurt(v.card, att.card.stats.power))];
    var a2 := StopAt(StopAt(a1, vi), ai);
    ReplaceArenaValid(g, a2);
    EndBattleValid(g.(arena := a2), DefeatText(att.card.name, v.card.name));
  }

  lemma HitValid(g: Game, a: nat, t: nat)
    requires Valid(g)
    ensures Valid(Hit(g, a, t))
  {
    match Find(g.arena, t)
    case None => {}
    case Some(vi) =>
      if g.arena[vi].card.Character? && t != a {
        match Find(g.arena, a)
        case None => {}
        case Some(ai) =>
          if g.arena[ai].card.Character? {
            TakeDamageValid(g, vi, ai);
          }
      }
  }

  lemma {:induction false} TickValid(g: Game, a: nat, ts: seq<nat>)
    requires Valid(g)
    ensures Valid(Tick(g, a, ts))
    decreases |ts|
  {
    if ts != [] {
      HitValid(g, a, ts[0]);
      TickValid(Hit(g, a, ts[0]), a, ts[1..]);
    }
  }

  /** The RemoveCardCheck pass keeps a subset of the cards in play, so it keeps their placement. */
  lemma ResolveValid(g: Game)
    requires Valid(g)
    ensures Valid(g.(arena := Resolve(g.arena)))
  {
    var a := g.arena;
    var r := Resolve(a);
    ResolveKeepsExactly(a);
    forall i | 0 <= i < |r| ensures r[i] in a { assert r[i] in r; }
    forall i | 0 <= i < |r| && r[i].timers != [] ensures r[i].card.Character? {
      assert r[i] in a;
      var m :| 0 <= m < |a| && a[m] == r[i];
    }
    if |r| == 2 {
      ResolveWhole(a);
    }
  }

  lemma FinishBannerValid(g: Game, k: nat)
    requires Valid(g) && k < |g.pending|
    ensures Valid(FinishBanner(g, k))
  {
    var g1 := g.(pending := g.pending[..k] + g.pending[k + 1..], arena := Resolve(g.arena));
    ResolveValid(g);
    assert Valid(g1);
    CreateNewBattleValid(g1);
  }

  lemma ChanceCardStartValid(g: Game, k: nat)
    requires Valid(g) && k < |g.unstarted|
    ensures Valid(ChanceCardStart(g, k))
  {
    var g1 := g.(unstarted := g.unstarted[..k] + g.unstarted[k + 1..]);
    StartBattleValid(g1);
  }

  // ------------------------------------------------------------ runs

  /** The events that drive the game from outside the scheduler: the battle
      button, the Start of a waiting chance card, the wake-up of a DoDamage
      coroutine, and the end of a banner's wait. Which happens next is the
      engine's choice, so a run is an arbitrary sequence of them. */
  datatype Event = BattleButton | ChanceStart(k: nat) | Wake(attacker: nat, k: nat) | BannerDone(k: nat)

  predicate Enabled(g: Game, ev: Event)
  {
    match ev
    case BattleButton => g.button
    case ChanceStart(k) => k < |g.unstarted|
    case Wake(a, k) => CanStrike(g, a, k)
    case BannerDone(k) => k < |g.pending|
  }

  function Apply(g: Game, ev: Event): Game
    requires Enabled(g, ev)
  {
    match ev
    case BattleButton => StartBattle(g)
    case ChanceStart(k) => ChanceCardStart(g, k)
    case Wake(a, k) => Strike(g, a, k)
    case BannerDone(k) => FinishBanner(g, k)
  }

  /** The state after a run of events from `g`; an event that cannot happen is skipped. */
  function Run(g: Game, evs: seq<Event>): Game
    decreases |evs|
  {
    if evs == [] then g
    else Run(if Enabled(g, evs[0]) then Apply(g, evs[0]) else g, evs[1..])
  }

  lemma ApplyValid(g: Game, ev: Event)
    requires Valid(g) && Enabled(g, ev)
    ensures Valid(Apply(g, ev))
  {
    match ev
    case BattleButton => StartBattleValid(g);
    case ChanceStart(k) => ChanceCardStartValid(g, k);
    case Wake(a, k) => TickValid(g, a, g.arena[Find(g.arena, a).value].timers[k]);
    case BannerDone(k) => FinishBannerValid(g, k);
  }

  lemma {:induction false} RunValid(g: Game, evs: seq<Event>)
    requires Valid(g)
    ensures Valid(Run(g, evs))
    decreases |evs|
  {
    if evs != [] {
      var g1 := if Enabled(g, evs[0]) then Apply(g, evs[0]) else g;
      if Enabled(g, evs[0]) { ApplyValid(g, evs[0]); }
      RunValid(g1, evs[1..]);
    }
  }

  /** Every state a run from GameManager.Start reaches satisfies the invariant. */
  lemma AlwaysValid(cards: seq<Prefab>, rand: nat -> UnitInterval, evs: seq<Event>)
    ensures Valid(Run(Start(cards, rand), evs))
  {
    CreateNewBattleValid(Initial(cards, rand));
    RunValid(Start(cards, rand), evs);
  }

  /** Whatever the cards, the random values and the order of events, there are
      never more than two cards in play, two cards never share a slot or an
      identity, and the "more than one card in play" branch of CreateNewBattle
      is never reached with more than two. */
  lemma AlwaysPlaced(cards: seq<Prefab>, rand: nat -> UnitInterval, evs: seq<Event>)
    ensures Placed(Run(Start(cards, rand), evs).arena)
  {
    AlwaysValid(cards, rand, evs);
  }

  /** In every state a run reaches, a coroutine that can wake up belongs to a
      character, and its strike hits each character it captured, other than the
      attacker, exactly once with the attacker's power, and changes no other
      card. Besides the cards, it queues "<attacker> defeated <victim>" for each
      captured character it brings down and then stops every coroutine; a
      strike that brings no one down leaves the banners and coroutines as they
      were. Nothing outside the cards in play and the banners changes. */
  lemma ReachableStrike(cards: seq<Prefab>, rand: nat -> UnitInterval, evs: seq<Event>, a: nat, k: nat)
    requires CanStrike(Run(Start(cards, rand), evs), a, k)
    ensures var g := Run(Start(cards, rand), evs);
      var ai := Find(g.arena, a).value;
      var r := Strike(g, a, k);
      g.arena[ai].card.Character? && SameLayout(r.arena, g.arena) &&
      forall i :: 0 <= i < |g.arena| ==>
        r.arena[i].card == Struck(g.arena[i], a, g.arena[ai].card.stats.power, g.arena[ai].timers[k])
    ensures var g := Run(Start(cards, rand), evs);
      var ai := Find(g.arena, a).value;
      g.arena[ai].card.Character? &&
      Aftermath(g, Strike(g, a, k), Defeats(g.arena, a, g.arena[ai].card, g.arena[ai].timers[k]))
  {
    var g := Run(Start(cards, rand), evs);
    AlwaysValid(cards, rand, evs);
    PlacedDistinct(g.arena);
    StrikeRule(g, a, k);
    var ai := Find(g.arena, a).value;
    TickAftermath(g, a, g.arena[ai].timers[k], ai);
  }
}
