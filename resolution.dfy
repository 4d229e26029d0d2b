/**
  `action.resolve args`: the polymorphic call that the queue loop of
  app/main.rb makes for each action it shifts off, dispatched here on the
  action's kind to the `resolve` of its class.

  Besides keeping the state well formed, each resolution keeps the queue
  within a budget: counting every pending entry once and every pending spell
  once more, it adds at most one to the count when it resolves a spell and
  nothing when it resolves anything else. Since the spell itself was shifted
  off first (two units), the queue loop always terminates.
 */
module Resolution {
  import opened Wrappers
  import opened Beings
  import opened Actions
  import opened Queue
  import opened Duel
  import opened Combat
  import opened Enchantments
  import opened Protections
  import opened Summoning

  /** The weight of a queue: its length plus its number of spells. */
  function Weight(s: seq<Action>): nat
  {
    |s| + SpellCount(s)
  }

  /** `reject!` never makes a queue heavier. */
  lemma RejectLighter(s: seq<Action>, sel: Selector)
    ensures Weight(Reject(s, sel)) <= Weight(s)
  {
    RejectShrinks(s, sel);
  }

  /** Appending one entry that is not a spell adds exactly one to the weight. */
  lemma AppendOtherWeight(s: seq<Action>, x: Action)
    requires !IsSpell(x.kind)
    ensures Weight(s + [x]) == Weight(s) + 1
  {
    SpellCountAppendOther(s, x);
  }

  /** Reflection swaps users and targets but changes no kind, so the weight stays. */
  lemma ReflectAllWeight(s: seq<Action>, m: set<BeingId>)
    ensures Weight(ReflectAll(s, m)) == Weight(s)
  {
    SpellCountSameKinds(s, ReflectAll(s, m));
  }

  /** The mixed-element case of Summon Elemental only removes entries. */
  lemma MixedQueueWeight(q: seq<Action>, e: set<BeingId>)
    ensures Weight(MixedQueue(q, e)) <= Weight(q)
  {
    var q0 := Reject(q, UsedBy(e));
    var q1 := Reject(q0, SummonsOrStorms);
    RejectLighter(q, UsedBy(e));
    RejectLighter(q0, SummonsOrStorms);
    RejectLighter(q1, Fireballs);
  }

  /** Reviving or creating the summoned elemental adds at most its attack to the queue. */
  lemma SummonedWeight(w: Snapshot, el: Element)
    requires forall id :: id in w.beings ==> id in w.arena
    ensures Weight(Summoned(w, el).actions) <= Weight(w.actions) + 1
  {
    var existing := ElementalsOf(w.beings, w.arena, el);
    if |existing| > 0 {
      var f := existing[0];
      assert f in existing;
      var r := Revive(w.arena[f]);
      if r.1 == 0 {
        AppendOtherWeight(w.actions, AttackOf(f, r.0));
      } else {
        assert Summoned(w, el).actions == w.actions;
      }
    } else {
      AppendOtherWeight(w.actions, AttackOf(w.nextId, NewElemental(ElementalStrength, el)));
    }
  }

  /** `SummonElemental#resolve`, with the weight of the queue it leaves. */
  method SummonElementalCase(st: State, a: Action)
    requires st.Valid() && IsSummonElemental(a.kind) && ActionOk(a, st.arena.Keys)
    modifies st`arena, st`beings, st`nextId, st`actions, st`result
    ensures st.Valid() && SummonElementalRule(a, old(st.Snap()), st.Snap())
    ensures Weight(st.actions) <= Weight(old(st.actions)) + 1
  {
    ghost var q := st.actions;
    ghost var w := st.Snap();
    ghost var fire := Tally(st.beings, st.arena, q, a, Fire);
    ghost var ice := Tally(st.beings, st.arena, q, a, Ice);
    ghost var e := ElementalIds(st.beings, st.arena);
    ghost var el := ElementOf(a.kind);
    ResolveSummonElemental(st, a);
    if fire > 0 && ice > 0 {
      MixedQueueWeight(q, e);
    } else if |Select(q, StormsOf(el))| > 0 {
      RejectLighter(q, UsedBy(e));
      RejectLighter(Reject(q, UsedBy(e)), SummonElementals);
    } else {
      RejectLighter(q, SummonElementals);
      SummonedWeight(w.(actions := Reject(q, SummonElementals)), el);
    }
  }

  /** `RaiseDead#resolve`, with the weight of the queue it leaves. */
  method RaiseDeadCase(st: State, a: Action)
    requires st.Valid() && a.kind == Cast(RaiseDead) && ActionOk(a, st.arena.Keys)
    modifies st`arena, st`actions, st`result
    ensures st.Valid() && RaiseDeadRule(a, old(st.Snap()), st.Snap())
    ensures Weight(st.actions) <= Weight(old(st.actions)) + 1
  {
    ghost var q := st.actions;
    ghost var fods := Select(q, FingersOfDeath);
    ghost var b := st.arena[a.target.value];
    ghost var r := RaisedRecord(b, a, Select(q, RaiseDeads), FindWarlock(st.beings, st.arena, a.user.value));
    ResolveRaiseDead(st, a);
    if |fods| > 0 {
      RejectLighter(q, FingersOfDeath);
      RejectLighter(Reject(q, FingersOfDeath), RaiseDeads);
    } else if b.health <= 0 {
      RejectLighter(q, RaiseDeads);
      if IsMonster(b) {
        AppendOtherWeight(Reject(q, RaiseDeads), AttackOf(a.target.value, r));
      } else {
        assert Reject(q, RaiseDeads) + [] == Reject(q, RaiseDeads);
        assert st.actions == Reject(q, RaiseDeads);
      }
    }
  }

  /** `MagicMirror#resolve`, with the weight of the queue it leaves. */
  method MagicMirrorCase(st: State, a: Action)
    requires st.Valid() && a.kind == Cast(MagicMirror) && ActionOk(a, st.arena.Keys)
    requires Unswapped(st.actions)
    modifies st`actions, st`result
    ensures st.Valid() && MagicMirrorRule(a, old(st.Snap()), st.Snap())
    ensures Weight(st.actions) <= Weight(old(st.actions))
  {
    ghost var q := st.actions;
    ghost var m := Mirrored(a, q);
    ResolveMagicMirror(st, a);
    RejectLighter(q, Mirrors);
    ReflectAllWeight(Reject(q, Mirrors), m);
  }

  /** `DispelMagic#resolve`, with the weight of the queue it leaves. */
  method DispelMagicCase(st: State, a: Action)
    requires st.Valid() && a.kind == Cast(DispelMagic) && ActionOk(a, st.arena.Keys)
    modifies st`arena, st`actions, st`result
    ensures st.Valid() && DispelMagicRule(a, old(st.Snap()), st.Snap())
    ensures Weight(st.actions) <= Weight(old(st.actions)) + 1
  {
    ghost var q := st.actions;
    ResolveDispelMagic(st, a);
    RejectLighter(q, Spells);
    AppendOtherWeight(Reject(q, Spells), DispelMonstersAction);
  }

  /** `SummonGoblin#resolve` and the other minion summons, with the weight of the queue they leave. */
  method SummonMinionCase(st: State, a: Action)
    requires st.Valid() && a.kind.Cast? && IsSummonMinion(a.kind.spell) && ActionOk(a, st.arena.Keys)
    modifies st`arena, st`beings, st`nextId, st`actions, st`result
    ensures st.Valid() && SummonMinionRule(a, old(st.Snap()), st.Snap())
    ensures Weight(st.actions) <= Weight(old(st.actions)) + 1
  {
    ghost var q := st.actions;
    ghost var elemental := st.arena[a.target.value].role.Elemental?;
    ghost var n := st.nextId;
    ResolveSummonMinion(st, a);
    if !elemental {
      AppendOtherWeight(q, AttackOf(n, st.arena[n]));
    }
  }

  /** The `resolve` of the spells whose rules act on the queue. */
  method ResolveQueueSpell(st: State, a: Action)
    requires st.Valid() && ActionOk(a, st.arena.Keys)
    requires a.kind.Cast? && a.kind.spell in {DispelMagic, CounterSpell, MagicMirror, RaiseDead, Paralysis}
    requires a.kind == Cast(MagicMirror) ==> Unswapped(st.actions)
    modifies st`arena, st`beings, st`nextId, st`actions, st`result
    ensures st.Valid() && SpellRule(a, old(st.Snap()), st.Snap())
    ensures Weight(st.actions) <= Weight(old(st.actions)) + 1
  {
    ghost var q := st.actions;
    match a.kind.spell
    case DispelMagic => DispelMagicCase(st, a);
    case CounterSpell =>
      ResolveCounterSpell(st, a);
      RejectLighter(q, CounteredAt(a.target));
    case MagicMirror => MagicMirrorCase(st, a);
    case RaiseDead => RaiseDeadCase(st, a);
    case Paralysis =>
      ResolveParalysis(st, a);
      RejectLighter(q, ParalysesAt(a.target));
  }

  /**
    What `resolve` does to a spell: the rule of its class, or the
    inherited rule of `Action` for a class that does not override it.
   */
  ghost predicate SpellRule(a: Action, w: Snapshot, v: Snapshot)
    requires w.Sound() && IsSpell(a.kind) && ActionOk(a, w.arena.Keys)
  {
    var s := a.kind.spell;
    if s == DispelMagic then DispelMagicRule(a, w, v)
    else if s == CounterSpell then CounterSpellRule(a, w, v)
    else if s == MagicMirror then MagicMirrorRule(a, w, v)
    else if s == RaiseDead then RaiseDeadRule(a, w, v)
    else if s == Paralysis then ParalysisRule(a, w, v)
    else if IsSummonMinion(s) then SummonMinionRule(a, w, v)
    else if IsSummonElemental(a.kind) then SummonElementalRule(a, w, v)
    else if IsResistance(a.kind) then ResistanceRule(a, w, v)
    else if s == Haste then HasteRule(a, w, v)
    else if s == TimeStop then TimeStopRule(a, w, v)
    else if s == Protection then ProtectionRule(a, w, v)
    else if s == Shield then ShieldRule(a, w, v)
    else if s == CauseLightWounds then CauseLightWoundsRule(a, w, v)
    else InertRule(a, w, v)
  }

  /** The `resolve` of every spell: the one of its class, or the inherited one. */
  method ResolveSpell(st: State, a: Action)
    requires st.Valid() && IsSpell(a.kind) && ActionOk(a, st.arena.Keys)
    requires a.kind == Cast(MagicMirror) ==> Unswapped(st.actions)
    modifies st`arena, st`beings, st`nextId, st`actions, st`result
    ensures st.Valid() && SpellRule(a, old(st.Snap()), st.Snap())
    ensures Weight(st.actions) <= Weight(old(st.actions)) + 1
  {
    var s := a.kind.spell;
    if s in {DispelMagic, CounterSpell, MagicMirror, RaiseDead, Paralysis} {
      ResolveQueueSpell(st, a);
    } else if IsSummonMinion(s) {
      SummonMinionCase(st, a);
    } else if IsSummonElemental(a.kind) {
      SummonElementalCase(st, a);
    } else {
      ResolveTargetSpell(st, a);
    }
  }

  /** The `resolve` of the spells that act on their target alone, or of the inherited one. */
  method ResolveTargetSpell(st: State, a: Action)
    requires st.Valid() && IsSpell(a.kind) && ActionOk(a, st.arena.Keys)
    requires a.kind.spell !in {DispelMagic, CounterSpell, MagicMirror, RaiseDead, Paralysis}
    requires !IsSummonMinion(a.kind.spell) && !IsSummonElemental(a.kind)
    modifies st`arena, st`actions, st`result
    ensures st.Valid() && SpellRule(a, old(st.Snap()), st.Snap())
    ensures Weight(st.actions) <= Weight(old(st.actions))
  {
    ghost var q := st.actions;
    var s := a.kind.spell;
    if IsResistance(a.kind) {
      ResolveResistance(st, a);
      RejectLighter(q, UsedBy({a.target.value}));
    } else if s == Haste {
      ResolveHaste(st, a);
    } else if s == TimeStop {
      ResolveTimeStop(st, a);
    } else if s == Protection {
      ResolveProtection(st, a);
    } else if s == Shield {
      ResolveShield(st, a);
    } else if s == CauseLightWounds {
      ResolveCauseLightWounds(st, a);
    } else {
      ResolveInert(st, a);
    }
  }

  /** What `resolve` does to an entry that is not a spell: the rule of its class. */
  ghost predicate OtherRule(a: Action, w: Snapshot, v: Snapshot)
    requires w.Sound() && !IsSpell(a.kind) && ActionOk(a, w.arena.Keys)
  {
    match a.kind
    case Stab => InertRule(a, w, v)
    case Surrender => InertRule(a, w, v)
    case Attack(_) => AttackRule(a, w, v)
    case ElementalAttack(_, _) => ElementalAttackRule(a, w, v)
    case DispelMonsters => DispelMonstersRule(w, v)
  }

  /**
    The `resolve` of the entries that are not spells. An attack with no
    target (a raised minion nobody controls) is the one that fails: Ruby
    would raise on it.
   */
  method ResolveOther(st: State, a: Action) returns (ok: bool)
    requires st.Valid() && !IsSpell(a.kind) && ActionOk(a, st.arena.Keys)
    modifies st`arena, st`beings, st`result
    ensures st.Valid() && OtherRule(a, old(st.Snap()), st.Snap())
    ensures ok <==> !(a.kind.Attack? && a.target.None?)
  {
    ok := true;
    match a.kind
    case Stab => ResolveInert(st, a);
    case Surrender => ResolveInert(st, a);
    case Attack(_) => ok := ResolveAttack(st, a);
    case ElementalAttack(_, _) => ResolveElementalAttack(st, a);
    case DispelMonsters => ResolveDispelMonsters(st);
  }

  /** What `action.resolve args` does: the rule of the action's class. */
  ghost predicate Rule(a: Action, w: Snapshot, v: Snapshot)
    requires w.Sound() && ActionOk(a, w.arena.Keys)
  {
    if IsSpell(a.kind) then SpellRule(a, w, v) else OtherRule(a, w, v)
  }

  /**
    `action.resolve args`. It fails only on an attack with no target; an
    entry that is not a spell leaves the queue alone, and a spell adds at
    most one to its weight.
   */
  method Resolve(st: State, a: Action) returns (ok: bool)
    requires st.Valid() && ActionOk(a, st.arena.Keys)
    requires a.kind == Cast(MagicMirror) ==> Unswapped(st.actions)
    modifies st`arena, st`beings, st`nextId, st`actions, st`result
    ensures st.Valid() && Rule(a, old(st.Snap()), st.Snap())
    ensures ok <==> !(a.kind.Attack? && a.target.None?)
    ensures !IsSpell(a.kind) ==> st.actions == old(st.actions)
    ensures IsSpell(a.kind) ==> Weight(st.actions) <= Weight(old(st.actions)) + 1
  {
    if IsSpell(a.kind) {
      ResolveSpell(st, a);
      ok := true;
    } else {
      ok := ResolveOther(st, a);
    }
  }

}
