/**
  The action catalog: one constructor per `Action` subclass, with the
  class-level metadata (`order`, `default_target`) and the per-instance
  fields `origin`, `user` and `target`.
 */
module Actions {
  import opened Wrappers
  import opened Beings

  /** The forty `Spell` subclasses, in catalog order. */
  datatype SpellKind =
    | DispelMagic | CounterSpell | MagicMirror
    | SummonGoblin | SummonOgre | SummonTroll | SummonGiant
    | SummonFireElemental | SummonIceElemental
    | RaiseDead | Haste | TimeStop | Protection | ResistHeat | ResistCold
    | Paralysis | Amnesia | Fear | Confusion | CharmMonster | CharmPerson
    | Disease | Poison | CureLightWounds | CureHeavyWounds | AntiSpell
    | Blindness | Invisibility | Permanency | DelayEffect | RemoveEnchantment
    | Shield | MagicMissile | CauseLightWounds | CauseHeavyWounds | LightningBolt
    | Fireball | FingerOfDeath | FireStorm | IceStorm

  /** Every `Action` subclass: the spells, the two plain actions, and the three the engine creates. */
  datatype Kind =
    | Cast(spell: SpellKind)
    | Stab
    | Surrender
    | Attack(strength: int)
    | ElementalAttack(strength: int, element: Element)
    | DispelMonsters

  datatype TargetMode = OnSelf | OnOther

  /** Instance state: the caster (`origin`), the current user and the target, each possibly nil. */
  datatype Action = Action(kind: Kind, origin: Option<BeingId>, user: Option<BeingId>, target: Option<BeingId>)

  predicate IsSpell(k: Kind) { k.Cast? }

  /** The kinds a warlock can pick from the menu; only these have an `order`. */
  predicate Choosable(k: Kind) { k.Cast? || k.Stab? || k.Surrender? }

  /** Class-level `order`: the resolution priority. */
  function Order(k: Kind): nat
    requires Choosable(k)
  {
    match k
    case Stab => 40
    case Surrender => 41
    case Cast(s) =>
      match s
      case DispelMagic => 0
      case CounterSpell => 1
      case MagicMirror => 2
      case SummonGoblin => 3
      case SummonOgre => 4
      case SummonTroll => 5
      case SummonGiant => 6
      case SummonFireElemental => 7
      case SummonIceElemental => 8
      case RaiseDead => 9
      case Haste => 10
      case TimeStop => 11
      case Protection => 12
      case ResistHeat => 13
      case ResistCold => 14
      case Paralysis => 15
      case Amnesia => 16
      case Fear => 17
      case Confusion => 18
      case CharmMonster => 19
      case CharmPerson => 20
      case Disease => 21
      case Poison => 22
      case CureLightWounds => 23
      case CureHeavyWounds => 24
      case AntiSpell => 25
      case Blindness => 26
      case Invisibility => 27
      case Permanency => 28
      case DelayEffect => 29
      case RemoveEnchantment => 30
      case Shield => 31
      case MagicMissile => 32
      case CauseLightWounds => 33
      case CauseHeavyWounds => 34
      case LightningBolt => 35
      case Fireball => 36
      case FingerOfDeath => 37
      case FireStorm => 38
      case IceStorm => 39
  }

  /**
    Class-level `default_target`. Ruby class instance variables are not
    inherited, so the elemental summons and the storms, which never set it,
    have none; neither do `Surrender`, `ElementalAttack` and `DispelMonsters`.
   */
  function DefaultTarget(k: Kind): Option<TargetMode>
  {
    match k
    case Stab => Some(OnOther)
    case Surrender => None
    case Attack(_) => Some(OnOther)
    case ElementalAttack(_, _) => None
    case DispelMonsters => None
    case Cast(s) =>
      match s
      case SummonFireElemental | SummonIceElemental | FireStorm | IceStorm => None
      case Paralysis | Amnesia | Fear | Confusion | CharmPerson | Disease | Poison | AntiSpell
         | Blindness | RemoveEnchantment | MagicMissile | CauseLightWounds | CauseHeavyWounds
         | LightningBolt | Fireball | FingerOfDeath => Some(OnOther)
      case _ => Some(OnSelf)
  }

  /** The menu behind option index i + 1 (index 0 is "Nothing"). */
  const Catalog: seq<Kind> := [
    Cast(DispelMagic), Cast(CounterSpell), Cast(MagicMirror),
    Cast(SummonGoblin), Cast(SummonOgre), Cast(SummonTroll), Cast(SummonGiant),
    Cast(SummonFireElemental), Cast(SummonIceElemental),
    Cast(RaiseDead), Cast(Haste), Cast(TimeStop), Cast(Protection), Cast(ResistHeat), Cast(ResistCold),
    Cast(Paralysis), Cast(Amnesia), Cast(Fear), Cast(Confusion), Cast(CharmMonster), Cast(CharmPerson),
    Cast(Disease), Cast(Poison), Cast(CureLightWounds), Cast(CureHeavyWounds), Cast(AntiSpell),
    Cast(Blindness), Cast(Invisibility), Cast(Permanency), Cast(DelayEffect), Cast(RemoveEnchantment),
    Cast(Shield), Cast(MagicMissile), Cast(CauseLightWounds), Cast(CauseHeavyWounds), Cast(LightningBolt),
    Cast(Fireball), Cast(FingerOfDeath), Cast(FireStorm), Cast(IceStorm),
    Stab, Surrender]

  /** The number of menu entries besides "Nothing". */
  const MenuSize: nat := 42

  /** The catalog holds one entry per menu slot, all of them choosable. */
  lemma CatalogChoosable()
    ensures |Catalog| == MenuSize
    ensures forall i :: 0 <= i < |Catalog| ==> Choosable(Catalog[i])
  {
  }

  /** Every choosable kind sits in the catalog at the position of its order. */
  lemma CatalogComplete(k: Kind)
    requires Choosable(k)
    ensures Order(k) < |Catalog| && Catalog[Order(k)] == k
  {
  }

  /** `Action.new(user, target)`: the target is kept only by kinds that have a default target. */
  function NewAction(k: Kind, user: BeingId, target: BeingId): (a: Action)
    ensures a.kind == k && a.origin == a.user == Some(user)
    ensures a.target.Some? <==> DefaultTarget(k).Some?
    ensures a.target.Some? ==> a.target.value == target
  {
    Action(k, Some(user), Some(user), if DefaultTarget(k).Some? then Some(target) else None)
  }

  /**
    `$actions[c - 1].new(user, target)`: the action a warlock builds from
    option `c` of the menu, where option 0 is "Nothing".
   */
  function MenuAction(c: nat, user: BeingId, target: BeingId): (a: Action)
    requires 1 <= c <= MenuSize
    ensures a.kind == Catalog[c - 1] && Choosable(a.kind) && Catalog[Order(a.kind)] == a.kind
    ensures a.origin == a.user == Some(user)
    ensures a.target.Some? <==> DefaultTarget(a.kind).Some?
    ensures a.target.Some? ==> a.target.value == target
  {
    CatalogChoosable();
    CatalogComplete(Catalog[c - 1]);
    NewAction(Catalog[c - 1], user, target)
  }

  /** `DispelMonsters.new`: its initializer sets nothing, so origin, user and target are nil. */
  const DispelMonstersAction: Action := Action(DispelMonsters, None, None, None)

  /** `Minion#attack` and `Elemental#attack`. */
  function AttackOf(id: BeingId, b: Being): (a: Action)
    requires IsMonster(b)
    ensures a.origin == a.user == Some(id) && !IsSpell(a.kind)
    ensures b.role.Minion? ==> a.kind == Attack(b.role.attack) && a.target == b.role.target
    ensures b.role.Elemental? ==> a.kind == ElementalAttack(b.role.attack, b.role.element) && a.target == None
  {
    match b.role
    case Minion(_, t, s) => Action(Attack(s), Some(id), Some(id), t)
    case Elemental(e, s) => Action(ElementalAttack(s, e), Some(id), Some(id), None)
  }

  predicate IsSummonMinion(s: SpellKind) { s == SummonGoblin || s == SummonOgre || s == SummonTroll || s == SummonGiant }

  /** Class-level `strength` of the minion summons. */
  function MinionStrength(s: SpellKind): int
    requires IsSummonMinion(s)
  {
    match s
    case SummonGoblin => 1
    case SummonOgre => 2
    case SummonTroll => 3
    case SummonGiant => 4
  }

  predicate IsSummonElemental(k: Kind) { k == Cast(SummonFireElemental) || k == Cast(SummonIceElemental) }

  predicate IsStorm(k: Kind) { k == Cast(FireStorm) || k == Cast(IceStorm) }

  /** Class-level `element` of the elemental summons and the storms. */
  function ElementOf(k: Kind): Element
    requires IsSummonElemental(k) || IsStorm(k)
  {
    if k == Cast(SummonFireElemental) || k == Cast(FireStorm) then Fire else Ice
  }

  /** Class-level `strength` of both elemental summons. */
  const ElementalStrength: int := 3

  predicate IsResistance(k: Kind) { k == Cast(ResistHeat) || k == Cast(ResistCold) }

  /** Class-level `element` of the resistance spells. */
  function ResistedElement(k: Kind): Element
    requires IsResistance(k)
  {
    if k == Cast(ResistHeat) then Fire else Ice
  }

  /** The spells whose presence on the same target cancels a Paralysis. */
  predicate IsCharm(k: Kind)
  {
    k == Cast(Amnesia) || k == Cast(Confusion) || k == Cast(CharmPerson) || k == Cast(CharmMonster) || k == Cast(Fear)
  }

  /** Kinds whose `resolve` is the inherited `Action#resolve`: they only report that they do nothing. */
  predicate IsInert(k: Kind)
  {
    match k
    case Stab | Surrender => true
    case Cast(s) =>
      (match s
       case Amnesia | Fear | Confusion | CharmMonster | CharmPerson | Disease | Poison
          | CureLightWounds | CureHeavyWounds | AntiSpell | Blindness | Invisibility
          | Permanency | DelayEffect | RemoveEnchantment | MagicMissile
          | CauseHeavyWounds | LightningBolt | Fireball | FingerOfDeath
          | FireStorm | IceStorm => true
       case _ => false)
    case _ => false
  }

}
