/** The cards in play (what the scene's FindObjectsOfType<Card>() returns), and
    the operations every chance card and every resolution applies to all of
    them: the Death and MultiplyStats effects, stopping coroutines, starting a
    DoDamage coroutine, and the RemoveCardCheck pass. */
module Arena {
  import opened Cards

  datatype Option<T> = None | Some(value: T)

  /** The identities of the cards in play, in scene order. */
  function Ids(a: seq<InPlay>): (r: seq<nat>)
    ensures |r| == |a|
    ensures forall i :: 0 <= i < |a| ==> r[i] == a[i].id
  {
    seq(|a|, i requires 0 <= i < |a| => a[i].id)
  }

  predicate NoDup(s: seq<nat>)
  {
    forall i, j :: 0 <= i < j < |s| ==> s[i] != s[j]
  }

  /** The position in play of the card with identity `id`, if it is still in play
      (a destroyed card is found nowhere). */
  function Find(a: seq<InPlay>, id: nat): (r: Option<nat>)
    ensures r.Some? ==> r.value < |a| && a[r.value].id == id
    ensures r.None? ==> forall i :: 0 <= i < |a| ==> a[i].id != id
  {
    if a == [] then None
    else if a[0].id == id then Some(0)
    else match Find(a[1..], id)
      case None => None
      case Some(i) => Some(i + 1)
  }

  /** Some card in play is a CharacterCard. */
  predicate HasCharacter(a: seq<InPlay>)
  {
    exists i :: 0 <= i < |a| && a[i].card.Character?
  }

  /** ChanceCard_Death.DoChanceCardEffect over everything in play. */
  function DeathEffect(a: seq<InPlay>): seq<InPlay>
  {
    seq(|a|, i requires 0 <= i < |a| => a[i].(card := Killed(a[i].card)))
  }

  /** ChanceCard_MultiplyStats.DoChanceCardEffect over everything in play. */
  function MultiplyEffect(a: seq<InPlay>, pm: real, hm: real, tm: real): seq<InPlay>
  {
    seq(|a|, i requires 0 <= i < |a| => a[i].(card := Scaled(a[i].card, pm, hm, tm)))
  }

  /** The effect of chance card `c`, dispatched on its kind. */
  function Effect(c: Card, a: seq<InPlay>): seq<InPlay>
    requires !c.Character?
  {
    match c
    case Death(_, _) => DeathEffect(a)
    case Multiply(_, _, pm, hm, tm) => MultiplyEffect(a, pm, hm, tm)
  }

  /** StopAllCoroutines on every card in play. */
  function StopAll(a: seq<InPlay>): seq<InPlay>
  {
    seq(|a|, i requires 0 <= i < |a| => a[i].(timers := []))
  }

  /** StopAllCoroutines on the card at position `i`. */
  function StopAt(a: seq<InPlay>, i: nat): seq<InPlay>
    requires i < |a|
  {
    a[i := a[i].(timers := [])]
  }

  /** CharacterCard.StartBattling on the card with identity `id`: a new DoDamage
      coroutine that has captured the identities `captured`. */
  function StartTimer(a: seq<InPlay>, id: nat, captured: seq<nat>): seq<InPlay>
  {
    seq(|a|, i requires 0 <= i < |a| =>
      if a[i].id == id then a[i].(timers := a[i].timers + [captured]) else a[i])
  }

  /** The cards left in play after every card ran RemoveCardCheck, in scene order. */
  function Resolve(a: seq<InPlay>): (r: seq<InPlay>)
    ensures |r| <= |a|
  {
    if a == [] then []
    else Resolve(a[..|a| - 1]) + (if Kept(a[|a| - 1].card) then [a[|a| - 1]] else [])
  }

  /** The RemoveCardCheck pass of ShowBanner over the cards in play: each card
      in turn is checked, and the scene left afterwards holds the cards that did
      not destroy themselves, in their order. */
  method RemoveCardCheckPass(existingCards: seq<InPlay>) returns (scene: seq<InPlay>)
    ensures scene == Resolve(existingCards)
  {
    scene := [];
    var i := 0;
    while i < |existingCards|
      invariant 0 <= i <= |existingCards|
      invariant scene == Resolve(existingCards[..i])
    {
      assert existingCards[..i + 1][..i] == existingCards[..i];
      var c := existingCards[i].card;
      if c.Character? && c.stats.health != 0.0 {
        scene := scene + [existingCards[i]];
      }
      i := i + 1;
    }
    assert existingCards[..i] == existingCards;
  }

  // ---------------------------------------------------------------- lemmas

  /** After Death, every character in play has zero health and keeps its power
      and time between attacks; other cards, positions and order are untouched. */
  lemma DeathZeroesHealth(a: seq<InPlay>)
    ensures |DeathEffect(a)| == |a|
    ensures forall i :: 0 <= i < |a| ==>
      var e, d := a[i], DeathEffect(a)[i];
      d.id == e.id && d.slot == e.slot && d.timers == e.timers &&
      (e.card.Character? ==>
         d.card.Character? && d.card.name == e.card.name && d.card.stats.health == 0.0 &&
         d.card.stats.power == e.card.stats.power && d.card.stats.time == e.card.stats.time) &&
      (!e.card.Character? ==> d == e)
  {
  }

  /** Applying Death twice leaves the same arena as applying it once. */
  lemma DeathIdempotent(a: seq<InPlay>)
    ensures DeathEffect(DeathEffect(a)) == DeathEffect(a)
  {
  }

  /** No card survives the RemoveCardCheck pass when none is kept. */
  lemma {:induction false} ResolveNoneKept(a: seq<InPlay>)
    requires forall i :: 0 <= i < |a| ==> !Kept(a[i].card)
    ensures Resolve(a) == []
  {
    if a != [] {
      ResolveNoneKept(a[..|a| - 1]);
    }
  }

  /** After a Death card, the removal step leaves nothing in play. */
  lemma DeathLeavesNoSurvivor(a: seq<InPlay>)
    ensures Resolve(DeathEffect(a)) == []
  {
    ResolveNoneKept(DeathEffect(a));
  }

  /** After MultiplyStats, every character's stats are the clamped products,
      which are in bounds for any multipliers; other cards, positions and the
      order in play are untouched. */
  lemma MultiplyScalesAndClamps(a: seq<InPlay>, pm: real, hm: real, tm: real)
    ensures |MultiplyEffect(a, pm, hm, tm)| == |a|
    ensures forall i :: 0 <= i < |a| ==>
      var e, d := a[i], MultiplyEffect(a, pm, hm, tm)[i];
      d.id == e.id && d.slot == e.slot && d.timers == e.timers &&
      (e.card.Character? ==>
         d.card.Character? && d.card.name == e.card.name &&
         d.card.stats == Stats(Max(e.card.stats.power * pm, 0.0),
                               Max(e.card.stats.health * hm, 0.0),
                               Max(e.card.stats.time * tm, 0.1)) &&
         InBounds(d.card.stats)) &&
      (!e.card.Character? ==> d == e)
  {
  }

  /** With the default multipliers of 1, an arena whose characters are in bounds is unchanged. */
  lemma MultiplyByOne(a: seq<InPlay>)
    requires forall i :: 0 <= i < |a| && a[i].card.Character? ==> InBounds(a[i].card.stats)
    ensures MultiplyEffect(a, 1.0, 1.0, 1.0) == a
  {
    forall i | 0 <= i < |a| ensures MultiplyEffect(a, 1.0, 1.0, 1.0)[i] == a[i] {
      if a[i].card.Character? { ScaledByOne(a[i].card); }
    }
  }

  /** A card is still in play after the RemoveCardCheck pass exactly when it was
      in play before and its own RemoveCardCheck kept it. */
  lemma {:induction false} ResolveKeepsExactly(a: seq<InPlay>)
    ensures forall e :: e in Resolve(a) <==> e in a && Kept(e.card)
  {
    if a != [] {
      var p := a[..|a| - 1];
      ResolveKeepsExactly(p);
      assert a == p + [a[|a| - 1]];
    }
  }

  /** When every card in play is kept, the pass removes nothing. */
  lemma {:induction false} ResolveAllKept(a: seq<InPlay>)
    requires forall i :: 0 <= i < |a| ==> Kept(a[i].card)
    ensures Resolve(a) == a
  {
    if a != [] {
      var p := a[..|a| - 1];
      ResolveAllKept(p);
      assert a == p + [a[|a| - 1]];
    }
  }

  /** A pass that keeps as many cards as there were removed none. */
  lemma {:induction false} ResolveWhole(a: seq<InPlay>)
    requires |Resolve(a)| == |a|
    ensures Resolve(a) == a
  {
    if a != [] {
      var p := a[..|a| - 1];
      assert Kept(a[|a| - 1].card) by {
        assert |Resolve(p)| <= |p|;
      }
      ResolveWhole(p);
      assert a == p + [a[|a| - 1]];
    }
  }

  /** Running the RemoveCardCheck pass on an arena it already filtered removes nothing more. */
  lemma ResolveIdempotent(a: seq<InPlay>)
    ensures Resolve(Resolve(a)) == Resolve(a)
  {
    var r := Resolve(a);
    ResolveKeepsExactly(a);
    forall i | 0 <= i < |r| ensures Kept(r[i].card) {
      assert r[i] in r;
    }
    ResolveAllKept(r);
  }

  /** No chance card survives the RemoveCardCheck pass. */
  lemma ResolveRemovesChance(a: seq<InPlay>)
    ensures forall i :: 0 <= i < |Resolve(a)| ==> Resolve(a)[i].card.Character?
  {
    ResolveKeepsExactly(a);
    forall i | 0 <= i < |Resolve(a)| ensures Resolve(a)[i].card.Character? {
      assert Resolve(a)[i] in Resolve(a);
    }
  }
}
