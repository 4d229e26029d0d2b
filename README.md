# Dragon Warlocks — a Dafny model of the duel engine

Dragon Warlocks is a two-player spell duel in DragonRuby. Two warlocks, West
and East, each pick an action and a target for both hands. When both are
ready, the engine does the following:

1. It builds one action per pick.
2. It sorts them by the class order of each action.
3. It appends one attack for every monster that acts this round.
4. It shifts entries off that queue and resolves each one. Resolving can take
   entries out of the queue, cancel them, reflect them, or add new ones.
5. It clamps every being's health.
6. It clears the choices.
7. It carries each Time Stop over to the next round.
8. It alternates between normal and haste rounds.

This project models the being records (`lib/actions.rb`), the action catalog
and every `resolve` rule, and the round driver in `app/main.rb`. Lines 14-34
of `app/main.rb` start a frame and decide who may act. Lines 94-150 run a
round.

Layout, one module per file:

- `wrappers.dfy` (`Wrappers`): `Option`.
- `beings.dfy` (`Beings`): the `Being` record and its methods. These are pure
  record updates.
- `actions.dfy` (`Actions`): the action classes with their `order` and
  `default_target`, the menu catalog, and `Action.new`.
- `queue.dfy` (`Queue`): the queue as `seq<Action>`.
  - `reject!` is split into `Select` (what the block removes) and `Reject`
    (what it keeps).
  - It also holds `sort` by class order.
- `state.dfy` (`Duel`): the class `State`, which plays the role of
  `args.state`.
  - Beings are held by id in an arena map. The roster is a sequence of ids.
    Ruby's object references become ids.
  - A ghost `Valid()` invariant holds the rules below, and every operation
    keeps it:
    - the roster lists arena beings, each once;
    - both warlocks are present;
    - every reference points into the arena;
    - every queued action is well formed;
    - the queue holds no reflected spell while a Magic Mirror is still
      pending.
- `combat.dfy`, `enchantments.dfy`, `protections.dfy`, `summoning.dfy`: one
  `resolve` method per action class, working in place on the `State`. Each
  class's rule is also written as a ghost predicate on two `Snapshot` values
  (the state before and after, as plain values), for example
  `Protections.DispelMagicRule`. The method ensures its rule.
- `resolution.dfy` (`Resolution`): the dispatch of `action.resolve args`.
  - `Resolution.Rule` picks the rule of the action's class, and `Resolve`
    ensures it.
  - Resolving a non-spell leaves the queue alone.
  - Resolving a spell adds at most one to the queue's weight: its length plus
    its number of spells.
  - This is why the queue loop terminates.
- `game.dfy` (`Game`): one frame of `tick`.
  - It begins the frame: time-stop detection, the skip of an empty haste
    round, and the tick.
  - It builds and sorts the queue, drains it, and ends the round.
  - The drain returns a ghost trace of snapshots. Each pass relates one
    snapshot to the next (`Game.Step`): the first pending entry is taken off
    and resolved by its class's rule. `Begun`, `Started` and `Ended` give the
    state before and after the drain as functions of the state the frame
    began with.

## Model

| member | source | states |
|---|---|---|
| `Beings.Fresh` | lib/actions.rb:12-17 | a new being has full health, no shield, no haste, no protection, and no time-stop or paralysis flags |
| `Beings.NewWarlock` | lib/actions.rb:87-102 | a warlock starts with 15 health, no resistance and no choices or targets |
| `Beings.NewMinion` | lib/actions.rb:127-134 | a minion's health and attack both equal its strength, and it gets the given controller and target |
| `Beings.NewElemental` | lib/actions.rb:145-154 | an elemental's health and attack equal its strength, and it resists exactly its own element |
| `Beings.Tick` | lib/actions.rb:23-28 | the shield is up exactly when protection was left; protection and haste fall by one but not below zero; paralysis ends; every other field is unchanged |
| `Beings.TicksCountDown` | lib/actions.rb:23-28 | after n ticks, protection and haste are each max(0, start - n), and health and role are unchanged |
| `Beings.PhysicalDamage` | lib/actions.rb:30-36 | the blow is blocked exactly when the being is shielded, unless the attacker is time-stopped and the being is not; a landed blow lowers health by x; a blocked one changes nothing |
| `Beings.ElementalDamage` | lib/actions.rb:38-44 | the same rule as physical damage, with the being's resistance to the element in place of the shield |
| `Beings.TimeStopPiercesShield` | lib/actions.rb:30-44 | a time-stopped attacker always lands physical and elemental blows on a being that is not time-stopped |
| `Beings.MagicalDamage` | lib/actions.rb:46-48 | health drops by x whatever the shield and resistance; nothing else changes |
| `Beings.Heal` | lib/actions.rb:50-52 | health rises by x, unclamped; nothing else changes |
| `Beings.SetProtection` | lib/actions.rb:54-61 | a positive count sets protection and raises the shield; otherwise protection becomes 0 and the shield is left alone |
| `Beings.ClampHealth` | lib/actions.rb:63-65 | health ends in [0, max_health]; a value already in range is kept; too much becomes max_health; too little becomes 0 |
| `Beings.ClampIdempotent` | lib/actions.rb:63-65 | clamping twice is the same as clamping once |
| `Beings.Kill` | lib/actions.rb:67-69 | health becomes 0 and nothing else changes |
| `Beings.Revive` | lib/actions.rb:71-75 | health returns to max_health, and the old health is returned beside the record |
| `Actions.CatalogChoosable` | app/main.rb:3 | the menu has 42 entries, all of them choosable action classes |
| `Actions.CatalogComplete` | lib/actions.rb:438-908 | every choosable class sits in the menu at the position of its class `order` |
| `Actions.NewAction` | lib/actions.rb:169-176 | origin and user are the caster; the target is kept exactly when the class has a default target |
| `Actions.MenuAction` | app/main.rb:100-105 | menu option c builds the class at catalog index c - 1, cast by the warlock, with the target kept exactly when that class has a default target |
| `Actions.AttackOf` | lib/actions.rb:136-138 | a minion attacks its target with its strength; an elemental makes a targetless elemental attack of its strength and element; the user is the monster itself |
| `Queue.RejectShrinks` | lib/actions.rb:444-471 | `reject!` never lengthens the queue and never raises its number of spells |
| `Queue.Reject` | lib/actions.rb:444-471 | every entry `reject!` keeps was pending and is not matched by the block |
| `Queue.Select` | lib/actions.rb:444-471 | every entry `reject!` removes was pending and is matched by the block |
| `Queue.RejectKeeps` | lib/actions.rb:444-471 | every pending entry the block does not match survives `reject!` |
| `Queue.SelectCollects` | lib/actions.rb:444-471 | every pending entry the block matches is among the removed ones |
| `Queue.RejectPartition` | lib/actions.rb:444-471 | the kept and removed entries together are a permutation of the queue |
| `Queue.RejectIsSubsequence` | lib/actions.rb:444-471 | `reject!` keeps the order of the entries it leaves |
| `Queue.RejectKeepsOthers` | lib/actions.rb:480-496 | an entry the block does not match survives as many times as it was pending |
| `Queue.RejectUsedByTwice` | lib/actions.rb:365-370 | removing the actions of one set of beings and then of another is removing the actions of their union |
| `Queue.InsertPermutes` | app/main.rb:109 | inserting into a sorted queue adds exactly the inserted entry |
| `Queue.Sort` | app/main.rb:109 | the queue ends ordered by class order and is a permutation of the actions built |
| `Duel.Warlocks` | lib/actions.rb:200-207 | the roster entries `reject! { is_a? Monster }` keeps are exactly the non-monsters, in roster order, and they stay distinct |
| `Duel.Monsters` | lib/actions.rb:200-207 | the roster entries it removes are exactly the monsters, in roster order |
| `Duel.ElementalsOf` | lib/actions.rb:337-339 | the selected ids are exactly the roster's elementals of the element, in roster order |
| `Duel.ElementalsOfFirst` | lib/actions.rb:402-405 | `existing[element].first` is the first elemental of the element in roster order: no roster entry before it is one |
| `Duel.LivingCount` | lib/actions.rb:341-358 | the count is zero exactly when no listed being has health above zero |
| `Duel.FindWarlock` | lib/actions.rb:614 | the result is the first warlock in roster order other than the caster, or there is none |
| `Duel.State.constructor` | app/main.rb:8-12 | the duel starts with two distinct fresh warlocks on the roster, an empty queue and log, and a normal round |
| `Combat.ResolveInert` | lib/actions.rb:190-192 | the inherited `resolve` logs "does nothing" and changes nothing else |
| `Combat.ResolveDispelMonsters` | lib/actions.rb:200-207 | every monster leaves the roster and every non-monster stays, in order; each removed monster is logged as dispelled |
| `Combat.ResolveAttack` | lib/actions.rb:262-273 | fails exactly on a missing target; a dead target is ignored; a paralysed attacker only logs; otherwise the target takes physical damage and the hit is logged |
| `Combat.SweepHitsEachOnce` | lib/actions.rb:283-297 | the roster sweep gives each living being other than the attacker one elemental blow and leaves the rest as they were |
| `Combat.SweepLogVictims` | lib/actions.rb:283-297 | every logged hit names the attacker and a being other than it |
| `Combat.Sweep` | lib/actions.rb:283-297 | the loop over the roster computes the sweep's arena and log |
| `Combat.ResolveElementalAttack` | lib/actions.rb:283-297 | a paralysed elemental only logs; otherwise every living being other than it takes elemental damage |
| `Combat.ResolveCauseLightWounds` | lib/actions.rb:846-856 | the target takes 2 magical damage |
| `Enchantments.ResolveHaste` | lib/actions.rb:639-642 | the target gets 3 haste rounds |
| `Enchantments.ResolveTimeStop` | lib/actions.rb:651-654 | the target will stop time at the end of the round |
| `Enchantments.ResolveProtection` | lib/actions.rb:663-666 | the target gets protection 3, which also raises its shield |
| `Enchantments.ResolveResistance` | lib/actions.rb:674-688 | a living elemental of the resisted element is destroyed and its pending actions removed; another elemental is untouched; any other target gains the resistance |
| `Enchantments.ResolveParalysis` | lib/actions.rb:712-736 | every other paralysis aimed at the same target is removed; if there was one, or a charm is aimed at that target, all of them are cancelled; otherwise the target is paralysed |
| `Protections.ShieldEach` | lib/actions.rb:467-470 | the loop shields exactly the listed beings |
| `Protections.DispelShieldsCasters` | lib/actions.rb:446-470 | Dispel Magic shields its own user and the user of every other pending Dispel Magic |
| `Protections.DispelLog` | lib/actions.rb:449-457 | each removed Dispel Magic is logged as resolving and every other removed spell as cancelled |
| `Protections.ResolveDispelMagic` | lib/actions.rb:444-471 | every pending spell is removed and logged; one Dispel Monsters goes to the end of the queue; every Dispel Magic caster is shielded |
| `Protections.ResolveCounterSpell` | lib/actions.rb:480-496 | every pending spell aimed at the target, except Finger of Death, is cancelled, and the target is shielded |
| `Protections.CounterSpellKeeps` | lib/actions.rb:480-496 | an entry survives Counter Spell exactly when it is not a spell aimed at the target other than Finger of Death; non-spells and Finger of Death survive with their multiplicity |
| `Protections.ReflectOne` | lib/actions.rb:519-525 | the inner loop swaps user and target at most once, exactly when the spell is aimed at a mirrored being other than its caster |
| `Protections.ReflectQueue` | lib/actions.rb:519-525 | the outer loop reflects each pending spell independently and logs each reflection |
| `Protections.ReflectAllSettles` | lib/actions.rb:519-525 | after reflection, every spell is aimed at its caster, at nobody, or at a being no mirror protects |
| `Protections.ReflectAllOk` | lib/actions.rb:519-525 | reflection keeps every entry well formed and adds no Magic Mirror |
| `Protections.ResolveMagicMirror` | lib/actions.rb:505-526 | every other pending Magic Mirror is absorbed, then the remaining queue is reflected and each reflection logged; no mirror is left pending |
| `Protections.Raised` | lib/actions.rb:610-619 | a raised minion keeps its attack; with a sole caster it changes hands to that caster and targets the other warlock; otherwise it is left with neither controller nor target |
| `Protections.RaisedRecord` | lib/actions.rb:610-621 | the raised record is at full health; a minion changes hands as above; any other being is only revived |
| `Protections.RaisedRecordOk` | lib/actions.rb:610-621 | the raised record refers only to arena beings and stays a warlock exactly when it was one |
| `Protections.CancelRaiseDeads` | lib/actions.rb:575-592 | a pending Finger of Death cancels every Finger of Death and every Raise Dead |
| `Protections.CancelledRaiseDeadsGone` | lib/actions.rb:575-592 | after that cancellation, neither kind is pending |
| `Protections.RaiseTarget` | lib/actions.rb:594-625 | on a target with no health left, all Raise Deads resolve together, the target is raised, and a raised monster attacks at once |
| `Protections.ResolveRaiseDead` | lib/actions.rb:573-630 | Finger of Death cancels it; a target with no health left is raised; a living target heals 5 |
| `Protections.ResolveShield` | lib/actions.rb:829-839 | the target is shielded |
| `Summoning.ResolveSummonMinion` | lib/actions.rb:301-328 | an elemental target is invalid and changes nothing else; otherwise a new minion joins the roster and attacks at once, controlled by the target's controller or the target itself and aimed at the other warlock |
| `Summoning.KillElementals` | lib/actions.rb:365-370 | every elemental on the roster is killed and each of their pending actions removed |
| `Summoning.KilledElementals` | lib/actions.rb:365-370 | after the kill loop, no elemental has health and no pending action is an elemental's |
| `Summoning.TallySingle` | lib/actions.rb:356-392 | when the elements do not mix, the element tallied is the summon's own and nothing of the other element is pending |
| `Summoning.MixedQueueClear` | lib/actions.rb:363-390 | after the mixed case, no summon or storm and no action of an elemental is pending, and nothing new was added |
| `Summoning.CancelMixed` | lib/actions.rb:363-390 | mixed elements kill every elemental and cancel every summon and storm, and every Fireball after an Ice Storm |
| `Summoning.CancelForStorm` | lib/actions.rb:414-433 | a pending storm of the summon's element kills every elemental and cancels every summon |
| `Summoning.ElementalsOfSnoc` | lib/actions.rb:408-410 | a new roster entry is among the elementals of an element exactly when it is one |
| `Summoning.ReviveOrCreate` | lib/actions.rb:401-413 | the first elemental of the element is revived, attacking at once if its health was exactly 0; with none, a new one joins and attacks; either way the element ends with at least one |
| `Summoning.SummonOne` | lib/actions.rb:394-413 | every pending summon is absorbed and logged, then one elemental is revived or created |
| `Summoning.ResolveSummonElemental` | lib/actions.rb:336-435 | the three cases (mixed, storm, summon) as above; no elemental summon is left pending |
| `Resolution.RejectLighter` | lib/actions.rb:444-471 | `reject!` never makes the queue heavier |
| `Resolution.ReflectAllWeight` | lib/actions.rb:519-525 | reflection keeps the queue's weight |
| `Resolution.SummonedWeight` | lib/actions.rb:400-413 | reviving or creating the summoned elemental adds at most its attack |
| `Resolution.ResolveSpell` | lib/actions.rb:212-909 | each spell ends in the state its class's rule (`SpellRule`, the rule its own `resolve` method ensures, or the inherited "does nothing") gives, adding at most one to the queue's weight |
| `Resolution.ResolveOther` | lib/actions.rb:190-297 | Stab and Surrender only log, an attack, an elemental attack and Dispel Monsters end in the state their rules give (`OtherRule`); only an attack with no target fails |
| `Resolution.Resolve` | app/main.rb:127 | `action.resolve args` ends in the state the rule of the action's class gives (`Rule`); it fails exactly on an attack with no target; a non-spell leaves the queue alone; a spell adds at most one to its weight |
| `Game.AnyHas` | app/main.rb:15 | `any?` holds exactly when some roster being has the flag |
| `Game.NextHaste` | app/main.rb:17-20 | a haste round survives exactly when time is stopped or someone is hasted, and nothing turns haste on |
| `Game.TransferTimeStops` | app/main.rb:139-144 | each being's time-stopped flag takes its time-stop value, time-stop is cleared, and the result says whether anyone stopped time |
| `Game.BeginFrame` | app/main.rb:14-26 | detects a time-stop round, ends a haste round nobody is hasted for, and ticks every being exactly in a normal round; the whole new state is `Begun` of the old one |
| `Game.ChosenCount` | app/main.rb:100-106 | one action is built per pick that is not "Nothing" |
| `Game.ChosenComplete` | app/main.rb:100-106 | every pick that is not "Nothing" becomes its menu action with the target of the same hand |
| `Game.ChosenSound` | app/main.rb:100-106 | every built action comes from one such pick |
| `Game.ChosenOk` | app/main.rb:100-106 | every built action is well formed |
| `Game.CollectOf` | app/main.rb:100-106 | the loop over one warlock's picks builds exactly its chosen actions |
| `Game.MonsterAttacks` | app/main.rb:116-123 | each appended entry is the attack of a roster monster with health left that acts this round |
| `Game.MonsterAttacksComplete` | app/main.rb:116-123 | every such monster's attack is appended |
| `Game.AppendMonsterAttacks` | app/main.rb:116-123 | the roster loop appends exactly those attacks after the sorted choices |
| `Game.StartRound` | app/main.rb:98-123 | the queue is the sorted choices of West then East followed by the monster attacks, and the log is cleared exactly when a warlock acted this frame; nothing else changes |
| `Game.ShiftAndResolve` | app/main.rb:126-127 | one pass of the queue loop takes off the first pending entry and resolves it by the rule of its class (`Step`), and the queue's weight drops |
| `Game.RunSnoc` | app/main.rb:126-128 | a run of passes followed by one more pass is a run |
| `Game.Drain` | app/main.rb:126-128 | the queue loop terminates; it ends with an empty queue unless it stops on an attack with no target; the ghost trace shows every pass took off the first pending entry and resolved it by its class's rule |
| `Game.EndArenaFacts` | app/main.rb:130-144 | after a round, every roster being's health is in [0, max_health], its time-stopped flag is its old time-stop value, and time-stop is cleared |
| `Game.EndArenaWarlocks` | app/main.rb:135-136 | both warlocks' choices are cleared and their targets kept |
| `Game.ClearedKeepsTimeStops` | app/main.rb:130-144 | clamping and clearing choices do not change who stops time |
| `Game.EndRound` | app/main.rb:130-149 | clamps, clears choices and carries Time Stop over; the round type flips unless someone stopped time; the whole new state is `Ended` of the old one |
| `Game.ResolveRound` | app/main.rb:97-150 | once both warlocks are done: the queue is built (`Started`), drained pass by pass by the rules of the classes, and the round ended (`Ended`), with an empty queue, every roster being's health in range, no pending Time Stop and no choices, unless an attack with no target stopped the queue loop |
| `Game.DonePaired` | app/main.rb:31-94 | a warlock that is done when the round resolves has a target for every choice, because beginning a frame only ends skipping |
| `Game.Frame` | app/main.rb:14-150 | a frame that does not resolve only begins the frame (`Begun`), and then not both warlocks are done; a resolved frame begins the frame, then builds, drains and ends the round as `Game.ResolveRound` states |

## Left out

- The keyboard menus, the cursor's index wrapping, and the drawing of labels
  (`app/main.rb` 37-91 and 152-171) are left out. The model takes each
  warlock's `choices` and `targets` as given.
- The DragonRuby `args` object is left out. `args.state` becomes the `State`
  class, and an `args` parameter is never read.
- Names, description strings and `Minion.count` are left out. The result log
  records events by kind (`Duel.Event`), not their text.
- `Being#remove_enchantments` is a no-op in the source and is not modelled.
- `SummonSpell.type`, `name` and `monster_name` only build text, so they are
  not modelled.
- The spells whose `resolve` is the inherited one (Amnesia, Fear, Disease,
  Magic Missile and the rest) resolve through `Combat.ResolveInert`, exactly
  as the source does.
- `Game.Frame`: requires what the input steps (lines 37-91) leave.
  - Each warlock has at most two choices and at most one more choice than
    targets.
  - A warlock skipped in this frame has a target for every choice.
  - These are invariants of the unmodelled menu code, stated as a
    precondition.
- `Combat.ResolveAttack`: an attack with no target raises in Ruby. This
  happens to a raised minion nobody controls. The model instead reports
  failure (`ok` false, `failed` in `Game.Drain` and `Game.Frame`) and leaves
  the state as it was at that point.
- `Queue.Reject` and `Queue.Select`: each states one direction of membership.
  The other direction is `Queue.RejectKeeps` and `Queue.SelectCollects`.
- `Queue.Sort`: Ruby's `sort` is not stable. Its contract promises only order
  by class order and being a permutation. The function itself is an insertion
  sort, which keeps equal keys in build order (West's left hand, West's right,
  East's left, East's right). `Game.StartRound` uses it, so every later state
  of a round whose queue holds equal keys is the one for that particular tie
  order, a choice of the model, not of the program. For example, when two Raise
  Deads aimed at different targets are cast in the same round, the tie order
  decides whose target is raised, because the first absorbs every other
  pending Raise Dead.
- `Game.BeginFrame`: the code ticks on every frame of a normal round until
  both warlocks are ready, not once per round. The model follows the code as
  written.
- `Beings.Fresh`: `Being#initialize` leaves the time-stop, time-stopped and
  paralysis flags nil. The model uses false, which Ruby treats the same.
- Integers are unbounded, like Ruby's.
