/**
  The `resolve` methods of the actions that are not spells (the inherited
  default, `DispelMonsters`, `Attack`, `ElementalAttack`) and of the one
  damaging spell that overrides it, Cause Light Wounds. Each is given the
  action just shifted off the queue.
 */
module Combat {
  import opened Wrappers
  import opened Beings
  import opened Actions
  import opened Queue
  import opened Duel

  /** The rule of `Action#resolve`: one line in the log, nothing else changes. */
  predicate InertRule(a: Action, w: Snapshot, v: Snapshot)
  {
    v == w.(result := w.result + [DoesNothing(a)])
  }

  /** `Action#resolve`, the behaviour of every class that does not override it. */
  method ResolveInert(st: State, a: Action)
    requires st.Valid() && IsInert(a.kind)
    modifies st`result
    ensures st.Valid() && InertRule(a, old(st.Snap()), st.Snap())
  {
    st.result := st.result + [DoesNothing(a)];
  }

  /** The rule of `DispelMonsters#resolve`: the warlocks stay on the roster, and each monster is reported gone. */
  ghost predicate DispelMonstersRule(w: Snapshot, v: Snapshot)
    requires w.Sound()
  {
    v == w.(beings := Warlocks(w.beings, w.arena), result := w.result + DispelledAll(Monsters(w.beings, w.arena)))
  }

  /** `DispelMonsters#resolve`: every monster leaves the roster, reported in roster order. */
  method ResolveDispelMonsters(st: State)
    requires st.Valid()
    modifies st`beings, st`result
    ensures st.Valid() && DispelMonstersRule(old(st.Snap()), st.Snap())
    ensures forall id :: id in st.beings ==> !IsMonster(st.arena[id])
    ensures forall id :: id in old(st.beings) && !IsMonster(st.arena[id]) ==> id in st.beings
  {
    var gone := Monsters(st.beings, st.arena);
    st.beings := Warlocks(st.beings, st.arena);
    st.result := st.result + DispelledAll(gone);
  }

  function DispelledAll(ids: seq<BeingId>): (r: seq<Event>)
    ensures |r| == |ids| && forall i :: 0 <= i < |ids| ==> r[i] == Dispelled(ids[i])
  {
    seq(|ids|, i requires 0 <= i < |ids| => Dispelled(ids[i]))
  }

  /**
    The rule of `Attack#resolve`: nothing happens to a dead target (nor
    without a target); a paralysed attacker is reported as such; otherwise
    the target takes the physical damage and the blow is reported.
   */
  ghost predicate AttackRule(a: Action, w: Snapshot, v: Snapshot)
    requires w.Sound() && a.kind.Attack? && ActionOk(a, w.arena.Keys)
  {
    if a.target.None? || w.arena[a.target.value].health <= 0 then v == w
    else
      var t := a.target.value;
      var u := a.user.value;
      if w.arena[u].paralysis then v == w.(result := w.result + [Paralyzed(u)])
      else
        var hit := PhysicalDamage(w.arena[t], a.kind.strength, w.arena[u]);
        v == w.(arena := w.arena[t := hit.0], result := w.result + [Struck(u, t, a.kind.strength, hit.1)])
  }

  /**
    `Attack#resolve`. Ruby would raise on a nil target (the attack of a
    minion whose control was contested by Raise Dead); that is the one
    failure, reported as `ok == false` with nothing changed.
   */
  method ResolveAttack(st: State, a: Action) returns (ok: bool)
    requires st.Valid() && a.kind.Attack? && ActionOk(a, st.arena.Keys)
    modifies st`arena, st`result
    ensures st.Valid()
    ensures ok <==> a.target.Some?
    ensures AttackRule(a, old(st.Snap()), st.Snap())
  {
    if a.target.None? {
      return false;
    }
    ok := true;
    var t := a.target.value;
    var u := a.user.value;
    if st.arena[t].health <= 0 {
      return;
    }
    if st.arena[u].paralysis {
      st.result := st.result + [Paralyzed(u)];
      return;
    }
    var hit := PhysicalDamage(st.arena[t], a.kind.strength, st.arena[u]);
    Put(st, t, hit.0);
    st.result := st.result + [Struck(u, t, a.kind.strength, hit.1)];
  }

  /** What the indiscriminate attack by `u` does to being `id` of the roster. */
  function Swept(arena: map<BeingId, Being>, u: BeingId, x: int, e: Element, id: BeingId): (b: Being)
    requires u in arena && id in arena
    ensures b == arena[id].(health := b.health)
    ensures id == u || arena[id].health <= 0 ==> b == arena[id]
    ensures id != u && arena[id].health > 0 ==>
      if e in arena[id].resistance && (!arena[u].timeStopped || arena[id].timeStopped)
      then b == arena[id] else b.health == arena[id].health - x
  {
    if id == u || arena[id].health <= 0 then arena[id]
    else ElementalDamage(arena[id], x, e, arena[u]).0
  }

  /** One being's turn in the roster loop: `u` hits it unless it is `u` itself or dead. */
  function HitOne(m: map<BeingId, Being>, u: BeingId, x: int, e: Element, id: BeingId): (r: (map<BeingId, Being>, seq<Event>))
    requires u in m
  {
    if id == u || id !in m || m[id].health <= 0 then (m, [])
    else
      var hit := ElementalDamage(m[id], x, e, m[u]);
      (m[id := hit.0], [Struck(u, id, x, hit.1)])
  }

  /**
    The arena and the lines after the roster loop has visited `ids` in
    order, each visit seeing the arena as the previous ones left it.
   */
  function SweepState(before: map<BeingId, Being>, u: BeingId, x: int, e: Element, ids: seq<BeingId>)
    : (r: (map<BeingId, Being>, seq<Event>))
    requires u in before
    ensures u in r.0 && r.0[u] == before[u] && SameShape(before, r.0)
  {
    if ids == [] then (before, [])
    else
      var p := SweepState(before, u, x, e, ids[..|ids| - 1]);
      var h := HitOne(p.0, u, x, e, ids[|ids| - 1]);
      (h.0, p.1 + h.1)
  }

  /**
    Over a roster without repetitions, the loop hits every other living
    being exactly once, each as it was before the attack, and leaves every
    other record alone.
   */
  lemma {:induction false} SweepHitsEachOnce(before: map<BeingId, Being>, u: BeingId, x: int, e: Element, ids: seq<BeingId>)
    requires u in before && Distinct(ids) && forall id :: id in ids ==> id in before
    ensures SweepState(before, u, x, e, ids).0 == SweptMap(before, u, x, e, Members(ids))
  {
    if ids != [] {
      var init, last := ids[..|ids| - 1], ids[|ids| - 1];
      assert forall id :: id in init ==> id in ids;
      assert ids == init + [last];
      SweepHitsEachOnce(before, u, x, e, init);
      assert last !in init by {
        forall k | 0 <= k < |init| ensures init[k] != last {
          assert init[k] == ids[k];
        }
      }
      ghost var done := Members(init);
      assert Members(ids) == done + {last};
      HitOneStep(before, u, x, e, done, last);
      assert SweepState(before, u, x, e, ids).0 == HitOne(SweepState(before, u, x, e, init).0, u, x, e, last).0;
    }
  }

  /** Hitting a being not hit before extends the set of beings hit. */
  lemma HitOneStep(before: map<BeingId, Being>, u: BeingId, x: int, e: Element, done: set<BeingId>, id: BeingId)
    requires u in before && id in before && id !in done
    ensures HitOne(SweptMap(before, u, x, e, done), u, x, e, id).0 == SweptMap(before, u, x, e, done + {id})
  {
    var m := SweptMap(before, u, x, e, done);
    assert m[id] == before[id];
    assert m[u] == before[u];
  }

  /** The attack reports only blows by its user, of its strength, on other beings of the roster. */
  lemma {:induction false} SweepLogVictims(before: map<BeingId, Being>, u: BeingId, x: int, e: Element, ids: seq<BeingId>)
    requires u in before
    ensures forall ev :: ev in SweepState(before, u, x, e, ids).1 ==>
      ev.Struck? && ev.attacker == u && ev.victim in ids && ev.victim != u && ev.strength == x
  {
    if ids != [] {
      var init := ids[..|ids| - 1];
      assert forall id :: id in init ==> id in ids;
      SweepLogVictims(before, u, x, e, init);
      assert ids[|ids| - 1] in ids;
    }
  }

  /** The arena once `u` has hit every being of `done`. */
  function SweptMap(before: map<BeingId, Being>, u: BeingId, x: int, e: Element, done: set<BeingId>): map<BeingId, Being>
    requires u in before
  {
    map id | id in before :: if id in done then Swept(before, u, x, e, id) else before[id]
  }

  /** The roster loop of `ElementalAttack#resolve`. */
  method Sweep(before: map<BeingId, Being>, roster: seq<BeingId>, u: BeingId, x: int, e: Element)
    returns (ar: map<BeingId, Being>, log: seq<Event>)
    requires u in before && forall id :: id in roster ==> id in before
    ensures (ar, log) == SweepState(before, u, x, e, roster)
  {
    ar, log := before, [];
    var i := 0;
    while i < |roster|
      invariant 0 <= i <= |roster|
      invariant (ar, log) == SweepState(before, u, x, e, roster[..i])
    {
      var id := roster[i];
      assert roster[..i + 1][..i] == roster[..i];
      assert id in ar;
      ghost var h := HitOne(ar, u, x, e, id);
      assert SweepState(before, u, x, e, roster[..i + 1]) == (h.0, log + h.1);
      assert log + [] == log;
      if id != u && ar[id].health > 0 {
        var hit := ElementalDamage(ar[id], x, e, ar[u]);
        ar := ar[id := hit.0];
        log := log + [Struck(u, id, x, hit.1)];
      }
      i := i + 1;
    }
    assert roster[..i] == roster;
  }

  /**
    The rule of `ElementalAttack#resolve`: a paralysed user is reported as
    such; otherwise the sweep over the roster decides the arena and the log.
   */
  ghost predicate ElementalAttackRule(a: Action, w: Snapshot, v: Snapshot)
    requires w.Sound() && a.kind.ElementalAttack? && ActionOk(a, w.arena.Keys)
  {
    var u := a.user.value;
    if w.arena[u].paralysis then v == w.(result := w.result + [Paralyzed(u)])
    else
      var swept := SweepState(w.arena, u, a.kind.strength, a.kind.element, w.beings);
      v == w.(arena := swept.0, result := w.result + swept.1)
  }

  /** `ElementalAttack#resolve`: every other living being of the roster takes elemental damage. */
  method ResolveElementalAttack(st: State, a: Action)
    requires st.Valid() && a.kind.ElementalAttack? && ActionOk(a, st.arena.Keys)
    modifies st`arena, st`result
    ensures st.Valid() && ElementalAttackRule(a, old(st.Snap()), st.Snap())
    ensures !old(st.arena)[a.user.value].paralysis ==>
      st.arena == SweptMap(old(st.arena), a.user.value, a.kind.strength, a.kind.element, Members(st.beings))
  {
    var u := a.user.value;
    if st.arena[u].paralysis {
      st.result := st.result + [Paralyzed(u)];
      return;
    }
    SweepHitsEachOnce(st.arena, u, a.kind.strength, a.kind.element, st.beings);
    var ar, log := Sweep(st.arena, st.beings, u, a.kind.strength, a.kind.element);
    SetArena(st, ar);
    st.result := st.result + log;
  }

  /** The rule of `CauseLightWounds#resolve`: two points of magical damage to the target, and the spell is reported. */
  ghost predicate CauseLightWoundsRule(a: Action, w: Snapshot, v: Snapshot)
    requires w.Sound() && a.kind == Cast(CauseLightWounds) && ActionOk(a, w.arena.Keys)
  {
    var t := a.target.value;
    v == w.(arena := w.arena[t := MagicalDamage(w.arena[t], 2)], result := w.result + [Described(a)])
  }

  /** `CauseLightWounds#resolve`: two points of magical damage, reported after the effect. */
  method ResolveCauseLightWounds(st: State, a: Action)
    requires st.Valid() && a.kind == Cast(CauseLightWounds) && ActionOk(a, st.arena.Keys)
    modifies st`arena, st`result
    ensures st.Valid() && CauseLightWoundsRule(a, old(st.Snap()), st.Snap())
  {
    var t := a.target.value;
    Put(st, t, MagicalDamage(st.arena[t], 2));
    st.result := st.result + [Described(a)];
  }

}
