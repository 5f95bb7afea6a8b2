/** The cards of the game and the rules that concern one card at a time:
    the character stats, the damage rule of CharacterCard.TakeDamage, the
    removal rule of RemoveCardCheck and the per-card part of the two chance
    card effects. */
module Cards {

  /** A value returned by the engine's random source: a real in [0, 1], both ends included. */
  type UnitInterval = r: real | 0.0 <= r <= 1.0

  /** CharacterCard.Stats: power, health and the time between two attacks. */
  datatype Stats = Stats(power: real, health: real, time: real)

  /** A card: a character, or one of the two kinds of chance card.
      `text` is the chance card's chanceText; pm, hm and tm are the
      multipliers of power, health and time between attacks. */
  datatype Card =
    | Character(name: string, stats: Stats)
    | Death(name: string, text: string)
    | Multiply(name: string, text: string, pm: real, hm: real, tm: real)

  /** An entry of the roster: a prefab object, identified by `asset`, and the
      card it instantiates. Two entries are the same object exactly when they
      are equal; distinct prefabs that hold equal cards differ in `asset`. */
  datatype Prefab = Prefab(asset: nat, card: Card)

  /** The two fixed positions a card in play can occupy. */
  datatype Slot = One | Two

  /** A card in play. `id` stands for the identity of the instantiated object,
      `slot` for its position, and `timers` holds, for every DoDamage
      coroutine the card is running, the list of card ids it captured when it
      started. */
  datatype InPlay = InPlay(id: nat, card: Card, slot: Slot, timers: seq<seq<nat>>)

  /** The slot that is not `s`. */
  function Other(s: Slot): (r: Slot)
    ensures r != s
  {
    if s == One then Two else One
  }

  /** Mathf.Max on two values. */
  function Max(a: real, b: real): (r: real)
    ensures a <= r && b <= r
    ensures r == a || r == b
  {
    if a > b then a else b
  }

  /** The victim's health after TakeDamage: subtract the attacker's power,
      then clamp a negative result to zero. */
  function Damaged(health: real, power: real): (r: real)
    ensures 0.0 <= r
    ensures r == 0.0 <==> health <= power
    ensures r != 0.0 ==> r == health - power
  {
    var h := health - power;
    if h < 0.0 then 0.0 else h
  }

  /** A character card after it took a hit of `power`: only its health changes. */
  function Hurt(c: Card, power: real): Card
    requires c.Character?
  {
    c.(stats := c.stats.(health := Damaged(c.stats.health, power)))
  }

  /** RemoveCardCheck answered "keep": a character card stays in play unless its
      health is zero; a chance card is always removed. */
  predicate Kept(c: Card)
  {
    c.Character? && c.stats.health != 0.0
  }

  /** ChanceCard_Death's effect on one card: a character's health becomes zero. */
  function Killed(c: Card): Card
  {
    if c.Character? then c.(stats := c.stats.(health := 0.0)) else c
  }

  /** ChanceCard_MultiplyStats's effect on one card: multiply each stat, then
      clamp power and health at 0 and the time between attacks at 0.1. */
  function Scaled(c: Card, pm: real, hm: real, tm: real): Card
  {
    if c.Character? then
      var s := c.stats;
      c.(stats := Stats(Max(s.power * pm, 0.0), Max(s.health * hm, 0.0), Max(s.time * tm, 0.1)))
    else c
  }

  /** Stats a character card may have: power and health not negative and at
      least 0.1 between attacks. */
  predicate InBounds(s: Stats)
  {
    0.0 <= s.power && 0.0 <= s.health && 0.1 <= s.time
  }

  // ---------------------------------------------------------------- lemmas

  /** A hit of positive power on a living character strictly lowers its health,
      and the health never goes below zero. */
  lemma HitLowersHealth(c: Card, power: real)
    requires c.Character? && 0.0 < power && 0.0 < c.stats.health
    ensures 0.0 <= Hurt(c, power).stats.health < c.stats.health
  {
  }

  /** A hit changes the victim's health and nothing else of it. */
  lemma HurtChangesOnlyHealth(c: Card, power: real)
    requires c.Character?
    ensures Hurt(c, power).Character? && Hurt(c, power).name == c.name
    ensures Hurt(c, power).stats.power == c.stats.power
    ensures Hurt(c, power).stats.time == c.stats.time
    ensures Hurt(c, power).stats.health == Max(c.stats.health - power, 0.0)
  {
  }

  /** Whatever the signs of the multipliers, a scaled character is in bounds. */
  lemma ScaledInBounds(c: Card, pm: real, hm: real, tm: real)
    requires c.Character?
    ensures Scaled(c, pm, hm, tm).Character? && InBounds(Scaled(c, pm, hm, tm).stats)
  {
  }

  /** With the default multipliers of 1, a character already in bounds is unchanged. */
  lemma ScaledByOne(c: Card)
    requires c.Character? && InBounds(c.stats)
    ensures Scaled(c, 1.0, 1.0, 1.0) == c
  {
  }
}
