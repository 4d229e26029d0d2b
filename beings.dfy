/**
  The being model: warlocks, minions and elementals with their health and
  status fields, and the small mutators that update one being.

  A being is a record; the duel keeps every being ever created in an arena
  addressed by a stable `BeingId`, so each mutator is a function from the
  record before the update to the record after it.
 */
module Beings {
  import opened Wrappers

  type BeingId = nat

  datatype Element = Fire | Ice

  /** What kind of being this is, with the fields only that kind has. */
  datatype Role =
    | Warlock(choices: seq<nat>, targets: seq<BeingId>)   // menu indices and chosen targets, left hand first
    | Minion(controller: Option<BeingId>, target: Option<BeingId>, attack: int)
    | Elemental(element: Element, attack: int)

  /**
    `shielded` blocks physical damage; `resistance` lists the elements it resists;
    `haste` and `protection` count remaining turns; `timeStop` says time will stop
    for it at the end of the round, `timeStopped` that it is stopped now;
    `paralysis` that it was paralysed this round. The Ruby object leaves
    `time_stop`, `time_stopped` and `paralysis` nil at creation, which reads as false.
   */
  datatype Being = Being(
    role: Role,
    health: int,
    maxHealth: int,
    shielded: bool,
    resistance: set<Element>,
    haste: int,
    protection: int,
    timeStop: bool,
    timeStopped: bool,
    paralysis: bool)

  function Max(x: int, y: int): int { if x < y then y else x }

  /** Minions and elementals are monsters: they attack on their own. */
  predicate IsMonster(b: Being) { !b.role.Warlock? }

  predicate IsElemental(b: Being, e: Element) { b.role.Elemental? && b.role.element == e }

  /** `haste?` */
  predicate Hasted(b: Being) { b.haste > 0 }

  /** The state `Being#initialize` leaves, with the subclass's role and strength. */
  function Fresh(role: Role, maxHealth: int, resistance: set<Element>): (b: Being)
    ensures b.health == b.maxHealth == maxHealth && b.role == role && b.resistance == resistance
    ensures !b.shielded && b.haste == 0 && b.protection == 0
    ensures !b.timeStop && !b.timeStopped && !b.paralysis
  {
    Being(role, maxHealth, maxHealth, false, resistance, 0, 0, false, false, false)
  }

  /** `Warlock.new`: 15 health and no input yet. */
  function NewWarlock(): (b: Being)
    ensures b.role == Warlock([], []) && b.health == b.maxHealth == 15 && b.resistance == {}
  {
    Fresh(Warlock([], []), 15, {})
  }

  /** `Minion.new(strength, _)` followed by setting its controller and target. */
  function NewMinion(strength: int, controller: Option<BeingId>, target: Option<BeingId>): (b: Being)
    ensures b.role == Minion(controller, target, strength)
    ensures b.health == b.maxHealth == strength && b.resistance == {}
  {
    Fresh(Minion(controller, target, strength), strength, {})
  }

  /** `Elemental.new(strength, element)`: resistant to its own element. */
  function NewElemental(strength: int, e: Element): (b: Being)
    ensures IsElemental(b, e) && b.role.attack == strength
    ensures b.health == b.maxHealth == strength && b.resistance == {e}
  {
    Fresh(Elemental(e, strength), strength, {e})
  }

  /** The start of a normal round: the shield follows the protection left, counters run down. */
  function Tick(b: Being): (r: Being)
    ensures r.shielded == (b.protection > 0)
    ensures r.protection == Max(0, b.protection - 1) && r.haste == Max(0, b.haste - 1)
    ensures !r.paralysis
    ensures r.(shielded := b.shielded, protection := b.protection, haste := b.haste, paralysis := b.paralysis) == b
  {
    b.(shielded := b.protection > 0,
       protection := Max(0, b.protection - 1),
       haste := Max(0, b.haste - 1),
       paralysis := false)
  }

  /** `n` ticks in a row. */
  function Ticks(b: Being, n: nat): Being
  {
    if n == 0 then b else Tick(Ticks(b, n - 1))
  }

  /** Protection and haste count down one per tick until they reach zero. */
  lemma {:induction false} TicksCountDown(b: Being, n: nat)
    requires b.protection >= 0 && b.haste >= 0
    ensures Ticks(b, n).protection == Max(0, b.protection - n)
    ensures Ticks(b, n).haste == Max(0, b.haste - n)
    ensures Ticks(b, n).health == b.health && Ticks(b, n).role == b.role
  {
    if n > 0 {
      TicksCountDown(b, n - 1);
    }
  }

  /** A guard that would block damage unless a time-stopped attacker hits a being that is not. */
  predicate Guards(guard: bool, b: Being, attacker: Being)
  {
    guard && (!attacker.timeStopped || b.timeStopped)
  }

  /** `physical_damage`: the new record and whether the blow landed. */
  function PhysicalDamage(b: Being, x: int, attacker: Being): (r: (Being, bool))
    ensures !r.1 <==> b.shielded && (!attacker.timeStopped || b.timeStopped)
    ensures r.1 ==> r.0.health == b.health - x
    ensures r.0 == b.(health := r.0.health)
    ensures !r.1 ==> r.0 == b
  {
    if Guards(b.shielded, b, attacker) then (b, false) else (b.(health := b.health - x), true)
  }

  /** A time-stopped attacker always lands a blow on a being that is not time-stopped. */
  lemma TimeStopPiercesShield(b: Being, x: int, attacker: Being)
    requires attacker.timeStopped && !b.timeStopped
    ensures PhysicalDamage(b, x, attacker).1
    ensures ElementalDamage(b, x, Fire, attacker).1 && ElementalDamage(b, x, Ice, attacker).1
  {
  }

  /** `elemental_damage`: as physical damage, with the resistance to `e` in place of the shield. */
  function ElementalDamage(b: Being, x: int, e: Element, attacker: Being): (r: (Being, bool))
    ensures !r.1 <==> e in b.resistance && (!attacker.timeStopped || b.timeStopped)
    ensures r.1 ==> r.0.health == b.health - x
    ensures r.0 == b.(health := r.0.health)
    ensures !r.1 ==> r.0 == b
  {
    if Guards(e in b.resistance, b, attacker) then (b, false) else (b.(health := b.health - x), true)
  }

  /** `magical_damage`: ignores shield and resistance. */
  function MagicalDamage(b: Being, x: int): (r: Being)
    ensures r.health == b.health - x && r == b.(health := r.health)
  {
    b.(health := b.health - x)
  }

  /** `heal`: unclamped. */
  function Heal(b: Being, x: int): (r: Being)
    ensures r.health == b.health + x && r == b.(health := r.health)
  {
    b.(health := b.health + x)
  }

  /** `protection=`: a positive count also raises the shield; otherwise the shield is left alone. */
  function SetProtection(b: Being, p: int): (r: Being)
    ensures p > 0 ==> r.shielded && r.protection == p
    ensures p <= 0 ==> r.protection == 0 && r.shielded == b.shielded
    ensures r.(shielded := b.shielded, protection := b.protection) == b
  {
    if p > 0 then b.(shielded := true, protection := p) else b.(protection := 0)
  }

  /** `clamp_health`: health into [0, max_health] (0 when max_health is negative). */
  function ClampHealth(b: Being): (r: Being)
    ensures 0 <= r.health && (b.maxHealth >= 0 ==> r.health <= b.maxHealth)
    ensures 0 <= b.health <= b.maxHealth ==> r == b
    ensures b.health > b.maxHealth >= 0 ==> r.health == b.maxHealth
    ensures b.health < 0 ==> r.health == 0
    ensures r == b.(health := r.health)
  {
    b.(health := Max(0, if b.health < b.maxHealth then b.health else b.maxHealth))
  }

  /** Clamping twice is clamping once. */
  lemma ClampIdempotent(b: Being)
    ensures ClampHealth(ClampHealth(b)) == ClampHealth(b)
  {
  }

  function Kill(b: Being): (r: Being)
    ensures r.health == 0 && r == b.(health := 0)
  {
    b.(health := 0)
  }

  /** `revive`: back to full health; also yields the health it had before. */
  function Revive(b: Being): (r: (Being, int))
    ensures r.0.health == b.maxHealth && r.0 == b.(health := r.0.health)
    ensures r.1 == b.health
  {
    (b.(health := b.maxHealth), b.health)
  }

  /** `Warlock#ready_to_resolve`: both hands have a choice and a target. */
  predicate ReadyToResolve(b: Being)
    requires b.role.Warlock?
  {
    |b.role.choices| >= 2 && |b.role.targets| >= 2
  }

}
