/** Properties of the strike rule of CharacterCard: TakeDamage and one tick of
    the DoDamage loop. */
module CharacterProps {
  import opened Cards
  import opened Arena
  import opened Battle

  /** Two arenas hold the same cards, at the same positions, with the same identities. */
  predicate SameLayout(a: seq<InPlay>, b: seq<InPlay>)
  {
    |a| == |b| && forall i :: 0 <= i < |a| ==> a[i].id == b[i].id && a[i].slot == b[i].slot
  }

  predicate SameCards(a: seq<InPlay>, b: seq<InPlay>)
  {
    SameLayout(a, b) && forall i :: 0 <= i < |a| ==> a[i].card == b[i].card
  }

  /** EndBattle while cards are in play stops every coroutine and starts a
      5-second banner; it changes no card and draws nothing. */
  lemma EndBattleInPlay(g: Game, text: string)
    requires |g.arena| > 0
    ensures var r := EndBattle(g, text);
      SameCards(r.arena, g.arena) &&
      (forall i :: 0 <= i < |r.arena| ==> r.arena[i].timers == []) &&
      r.pending == g.pending + [Banner(text, 5.0)] &&
      r.roster == g.roster && r.unstarted == g.unstarted && r.verdict == g.verdict &&
      r.button == g.button && r.nextId == g.nextId && r.draws == g.draws
  {
  }

  /** TakeDamage: the victim's health becomes max(health - power, 0); nothing
      else of any card changes. A strike that takes the health to zero ends the
      battle once, with the text "<attacker> defeated <victim>", and stops every
      coroutine; any other strike ends nothing and stops nothing. */
  lemma TakeDamageRule(g: Game, vi: nat, ai: nat)
    requires vi < |g.arena| && ai < |g.arena| && vi != ai
    requires g.arena[vi].card.Character? && g.arena[ai].card.Character?
    ensures var r, v, att := TakeDamage(g, vi, ai), g.arena[vi].card, g.arena[ai].card;
      SameLayout(r.arena, g.arena) &&
      r.arena[vi].card == v.(stats := v.stats.(health := Max(v.stats.health - att.stats.power, 0.0))) &&
      (forall i :: 0 <= i < |g.arena| && i != vi ==> r.arena[i].card == g.arena[i].card) &&
      r.roster == g.roster && r.nextId == g.nextId && r.draws == g.draws &&
      r.unstarted == g.unstarted && r.verdict == g.verdict && r.button == g.button &&
      (r.arena[vi].card.stats.health == 0.0 ==>
         r.pending == g.pending + [Banner(DefeatText(att.name, v.name), 5.0)] &&
         forall i :: 0 <= i < |r.arena| ==> r.arena[i].timers == []) &&
      (r.arena[vi].card.stats.health != 0.0 ==>
         r.pending == g.pending &&
         forall i :: 0 <= i < |r.arena| ==> r.arena[i].timers == g.arena[i].timers)
  {
    var v, att := g.arena[vi], g.arena[ai];
    var hurt := Hurt(v.card, att.card.stats.power);
    var a1 := g.arena[vi := v.(card := hurt)];
    if hurt.stats.health == 0.0 {
      EndBattleInPlay(g.(arena := StopAt(StopAt(a1, vi), ai)), DefeatText(att.card.name, v.card.name));
    }
  }

  /** The cards after TakeDamage: the victim hurt, every other card as it was. */
  lemma TakeDamageCards(g: Game, vi: nat, ai: nat)
    requires vi < |g.arena| && ai < |g.arena| && vi != ai
    requires g.arena[vi].card.Character? && g.arena[ai].card.Character?
    ensures var r := TakeDamage(g, vi, ai);
      SameLayout(r.arena, g.arena) &&
      r.arena[vi].card == Hurt(g.arena[vi].card, g.arena[ai].card.stats.power) &&
      forall i :: 0 <= i < |g.arena| && i != vi ==> r.arena[i].card == g.arena[i].card
  {
    var v, att := g.arena[vi], g.arena[ai];
    var hurt := Hurt(v.card, att.card.stats.power);
    var a1 := g.arena[vi := v.(card := hurt)];
    if hurt.stats.health == 0.0 {
      EndBattleInPlay(g.(arena := StopAt(StopAt(a1, vi), ai)), DefeatText(att.card.name, v.card.name));
    }
  }

  /** A character's card after one tick of attacker `a` with power `power` over the captured list `ts`. */
  function Struck(e: InPlay, a: nat, power: real, ts: seq<nat>): Card
  {
    if e.id in ts && e.id != a && e.card.Character? then Hurt(e.card, power) else e.card
  }

  /** No two cards in play share an identity. */
  predicate DistinctIds(a: seq<InPlay>)
  {
    NoDup(Ids(a))
  }

  /** One pass of the inner loop: only the captured card `t` can change, and
      only its health; the attacker stays in play with the same card. */
  lemma HitRule(g: Game, a: nat, t: nat, ai: nat)
    requires DistinctIds(g.arena)
    requires ai < |g.arena| && g.arena[ai].id == a && g.arena[ai].card.Character?
    ensures var r := Hit(g, a, t);
      SameLayout(r.arena, g.arena) && DistinctIds(r.arena) &&
      r.arena[ai].card == g.arena[ai].card &&
      forall i :: 0 <= i < |g.arena| ==>
        r.arena[i].card == Struck(g.arena[i], a, g.arena[ai].card.stats.power, [t])
  {
    match Find(g.arena, t)
    case None => {}
    case Some(vi) => {
      if g.arena[vi].card.Character? && t != a {
        HitVictim(g, a, t, ai, vi);
      }
    }
  }

  /** HitRule when the captured card `t` is a character other than the attacker. */
  lemma HitVictim(g: Game, a: nat, t: nat, ai: nat, vi: nat)
    requires DistinctIds(g.arena)
    requires ai < |g.arena| && g.arena[ai].id == a && g.arena[ai].card.Character?
    requires Find(g.arena, t) == Some(vi) && g.arena[vi].card.Character? && t != a
    ensures var r := Hit(g, a, t);
      SameLayout(r.arena, g.arena) && DistinctIds(r.arena) &&
      r.arena[ai].card == g.arena[ai].card &&
      forall i :: 0 <= i < |g.arena| ==>
        r.arena[i].card == Struck(g.arena[i], a, g.arena[ai].card.stats.power, [t])
  {
    var r := Hit(g, a, t);
    assert Find(g.arena, a) == Some(ai);
    assert r == TakeDamage(g, vi, ai);
    TakeDamageCards(g, vi, ai);
    forall i | 0 <= i < |g.arena| && i != vi ensures g.arena[i].id != t {
      assert Ids(g.arena)[i] != Ids(g.arena)[vi];
    }
    assert Ids(r.arena) == Ids(g.arena);
  }

  /** One tick of DoDamage hits, once, every character in the captured list
      other than the attacker, with the attacker's power, and changes nothing else
      of any card: non-character cards, cards not captured and the attacker are
      untouched. */
  lemma {:induction false} TickRule(g: Game, a: nat, ts: seq<nat>, ai: nat)
    requires DistinctIds(g.arena) && NoDup(ts)
    requires ai < |g.arena| && g.arena[ai].id == a && g.arena[ai].card.Character?
    ensures var r := Tick(g, a, ts);
      SameLayout(r.arena, g.arena) &&
      forall i :: 0 <= i < |g.arena| ==>
        r.arena[i].card == Struck(g.arena[i], a, g.arena[ai].card.stats.power, ts)
    decreases |ts|
  {
    if ts != [] {
      var power := g.arena[ai].card.stats.power;
      var g1 := Hit(g, a, ts[0]);
      HitRule(g, a, ts[0], ai);
      assert NoDup(ts[1..]) by {
        forall i, j | 0 <= i < j < |ts[1..]| ensures ts[1..][i] != ts[1..][j] {
          assert ts[1..][i] == ts[i + 1] && ts[1..][j] == ts[j + 1];
        }
      }
      TickRule(g1, a, ts[1..], ai);
      forall i | 0 <= i < |g.arena|
        ensures Struck(g1.arena[i], a, power, ts[1..]) == Struck(g.arena[i], a, power, ts)
      {
        var e := g.arena[i];
        if e.id == ts[0] {
          assert ts[0] !in ts[1..];
        } else {
          assert e.id in ts <==> e.id in ts[1..] by {
            assert ts == [ts[0]] + ts[1..];
          }
        }
      }
    }
  }

  /** The strike of a running coroutine of a character that is in play, in an
      arena with distinct identities, obeys TickRule with the list it captured. */
  lemma StrikeRule(g: Game, a: nat, k: nat)
    requires CanStrike(g, a, k) && DistinctIds(g.arena)
    requires g.arena[Find(g.arena, a).value].card.Character?
    requires NoDup(g.arena[Find(g.arena, a).value].timers[k])
    ensures var r, ai := Strike(g, a, k), Find(g.arena, a).value;
      var ts := g.arena[ai].timers[k];
      SameLayout(r.arena, g.arena) &&
      forall i :: 0 <= i < |g.arena| ==>
        r.arena[i].card == Struck(g.arena[i], a, g.arena[ai].card.stats.power, ts)
  {
    var ai := Find(g.arena, a).value;
    TickRule(g, a, g.arena[ai].timers[k], ai);
  }

  /** A strike of positive power on a living victim strictly lowers its health and never below zero. */
  lemma StrikeLowersHealth(e: InPlay, a: nat, power: real, ts: seq<nat>)
    requires e.card.Character? && e.id in ts && e.id != a
    requires 0.0 < power && 0.0 < e.card.stats.health
    ensures Struck(e, a, power, ts).Character?
    ensures 0.0 <= Struck(e, a, power, ts).stats.health < e.card.stats.health
  {
    HitLowersHealth(e.card, power);
  }

  /** The defeat banner, if any, that a hit of attacker `a` with card `att` on the
      captured card `t` starts, read off the cards as they are before the tick:
      one exactly when `t` is a character in play, other than the attacker, that
      the hit leaves with zero health. */
  function DefeatOf(arena: seq<InPlay>, a: nat, att: Card, t: nat): seq<Banner>
    requires att.Character?
  {
    match Find(arena, t)
    case None => []
    case Some(vi) =>
      var v := arena[vi].card;
      if v.Character? && t != a && Hurt(v, att.stats.power).stats.health == 0.0
      then [Banner(DefeatText(att.name, v.name), 5.0)]
      else []
  }

  /** The defeat banners of one tick over the captured list `ts`, in its order. */
  function Defeats(arena: seq<InPlay>, a: nat, att: Card, ts: seq<nat>): seq<Banner>
    requires att.Character?
    decreases |ts|
  {
    if ts == [] then [] else DefeatOf(arena, a, att, ts[0]) + Defeats(arena, a, att, ts[1..])
  }

  /** What a strike does besides hurting cards. Nothing outside the cards in play
      and the banners changes. The banners `d` are queued after the running ones.
      When there are none, every coroutine runs on; otherwise every coroutine is
      stopped. */
  predicate Aftermath(g: Game, r: Game, d: seq<Banner>)
  {
    r.roster == g.roster && r.unstarted == g.unstarted && r.verdict == g.verdict &&
    r.button == g.button && r.nextId == g.nextId && r.draws == g.draws &&
    r.pending == g.pending + d && |r.arena| == |g.arena| &&
    (d == [] ==> forall i :: 0 <= i < |r.arena| ==> r.arena[i].timers == g.arena[i].timers) &&
    (d != [] ==> forall i :: 0 <= i < |r.arena| ==> r.arena[i].timers == [])
  }

  /** Two arenas with the same identities find every identity at the same position. */
  lemma FindSameIds(x: seq<InPlay>, y: seq<InPlay>, t: nat)
    requires DistinctIds(x) && Ids(x) == Ids(y)
    ensures Find(x, t) == Find(y, t)
  {
    var fx, fy := Find(x, t), Find(y, t);
    if fx.Some? {
      assert y[fx.value].id == t;
    }
  }

  /** The defeat banners depend only on the identities in play and on the
      captured cards. */
  lemma {:induction false} DefeatsAgree(x: seq<InPlay>, y: seq<InPlay>, a: nat, att: Card, ts: seq<nat>)
    requires att.Character? && DistinctIds(x) && Ids(x) == Ids(y)
    requires forall i :: 0 <= i < |x| && x[i].id in ts ==> x[i].card == y[i].card
    ensures Defeats(x, a, att, ts) == Defeats(y, a, att, ts)
    decreases |ts|
  {
    if ts != [] {
      FindSameIds(x, y, ts[0]);
      forall i | 0 <= i < |x| && x[i].id in ts[1..] ensures x[i].card == y[i].card {
        assert x[i].id in ts;
      }
      DefeatsAgree(x, y, a, att, ts[1..]);
    }
  }

  /** One pass of the inner loop starts the banner DefeatOf, and stops every
      coroutine exactly when it does. */
  lemma HitAftermath(g: Game, a: nat, t: nat, ai: nat)
    requires DistinctIds(g.arena)
    requires ai < |g.arena| && g.arena[ai].id == a && g.arena[ai].card.Character?
    ensures Aftermath(g, Hit(g, a, t), DefeatOf(g.arena, a, g.arena[ai].card, t))
  {
    match Find(g.arena, t)
    case None => {}
    case Some(vi) => {
      if g.arena[vi].card.Character? && t != a {
        assert Find(g.arena, a) == Some(ai) by { FindSameIds(g.arena, g.arena, a); }
        assert Hit(g, a, t) == TakeDamage(g, vi, ai);
        TakeDamageRule(g, vi, ai);
      }
    }
  }

  /** A tick starts, in order, the defeat banner of each captured character the
      attacker brings down, all of them read off the cards as they were before
      the tick, and stops every coroutine exactly when it starts one. */
  lemma {:induction false} TickAftermath(g: Game, a: nat, ts: seq<nat>, ai: nat)
    requires DistinctIds(g.arena) && NoDup(ts)
    requires ai < |g.arena| && g.arena[ai].id == a && g.arena[ai].card.Character?
    ensures Aftermath(g, Tick(g, a, ts), Defeats(g.arena, a, g.arena[ai].card, ts))
    decreases |ts|
  {
    if ts != [] {
      var att := g.arena[ai].card;
      var g1 := Hit(g, a, ts[0]);
      HitRule(g, a, ts[0], ai);
      HitAftermath(g, a, ts[0], ai);
      assert NoDup(ts[1..]) by {
        forall i, j | 0 <= i < j < |ts[1..]| ensures ts[1..][i] != ts[1..][j] {
          assert ts[1..][i] == ts[i + 1] && ts[1..][j] == ts[j + 1];
        }
      }
      TickAftermath(g1, a, ts[1..], ai);
      assert Ids(g1.arena) == Ids(g.arena);
      forall i | 0 <= i < |g.arena| && g.arena[i].id in ts[1..]
        ensures g.arena[i].card == g1.arena[i].card
      {
        assert ts[0] !in ts[1..];
      }
      DefeatsAgree(g.arena, g1.arena, a, att, ts[1..]);
    }
  }
}
