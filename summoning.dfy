/**
  The `resolve` methods of the summoning spells: the four minion summons
  and the two elemental summons, with the fire/ice exclusion rule.
 */
module Summoning {
  import opened Wrappers
  import opened Beings
  import opened Actions
  import opened Queue
  import opened Duel

  /** The rule of `SummonMinion#resolve`, as the method describes it; the new minion gets the next id. */
  ghost predicate SummonMinionRule(a: Action, w: Snapshot, v: Snapshot)
    requires w.Sound() && a.kind.Cast? && IsSummonMinion(a.kind.spell) && ActionOk(a, w.arena.Keys)
  {
    var t := a.target.value;
    var b := w.arena[t];
    if b.role.Elemental? then v == w.(result := w.result + [InvalidTarget(a)])
    else
      var c := if b.role.Minion? then b.role.controller else Some(t);
      var m := NewMinion(MinionStrength(a.kind.spell), c, Some(if c == Some(w.west) then w.east else w.west));
      var n := w.nextId;
      v == w.(beings := w.beings + [n], arena := w.arena[n := m], actions := w.actions + [AttackOf(n, m)], nextId := n + 1)
  }

  /**
    `SummonMinion#resolve`. Aimed at an elemental it is an invalid target;
    otherwise a new minion joins the roster, controlled by the target (or by
    the target's controller when the target is a minion), aimed at the
    warlock its controller is not, and its attack goes to the end of the queue.
   */
  method ResolveSummonMinion(st: State, a: Action)
    requires st.Valid() && a.kind.Cast? && IsSummonMinion(a.kind.spell) && ActionOk(a, st.arena.Keys)
    modifies st`arena, st`beings, st`nextId, st`actions, st`result
    ensures st.Valid() && SummonMinionRule(a, old(st.Snap()), st.Snap())
    ensures !old(st.arena)[a.target.value].role.Elemental? ==>
      var r := st.arena[old(st.nextId)].role;
      && old(st.nextId) !in old(st.arena)
      && r.Minion? && (r.target == Some(st.east) <==> r.controller == Some(st.west))
  {
    var t := a.target.value;
    var b := st.arena[t];
    if b.role.Elemental? {
      st.result := st.result + [InvalidTarget(a)];
      return;
    }
    var c := if b.role.Minion? then b.role.controller else Some(t);
    assert RoleOk(b.role, st.arena.Keys);
    var m := NewMinion(MinionStrength(a.kind.spell), c, Some(if c == Some(st.west) then st.east else st.west));
    var n := Recruit(st, m);
  }

  /** A new monster joins the roster under the next id, and its attack goes to the end of the queue. */
  method Recruit(st: State, m: Being) returns (n: BeingId)
    requires st.Valid() && IsMonster(m) && RoleOk(m.role, st.arena.Keys) && m.maxHealth >= 0
    modifies st`arena, st`beings, st`nextId, st`actions
    ensures st.Valid() && n == old(st.nextId) && n !in old(st.arena)
    ensures st.Snap() == old(st.Snap()).(beings := old(st.beings) + [n], arena := old(st.arena)[n := m],
                                         actions := old(st.actions) + [AttackOf(n, m)], nextId := n + 1)
  {
    n := Create(st, m);
    Enqueue(st, AttackOf(n, m));
  }

  /** The arena once every being of `s` has been killed. */
  function KillAll(m: map<BeingId, Being>, s: set<BeingId>): (r: map<BeingId, Being>)
    ensures SameShape(m, r)
    ensures forall id :: id in m && id in s ==> r[id] == Kill(m[id])
    ensures forall id :: id in m && id !in s ==> r[id] == m[id]
  {
    map id | id in m :: if id in s then Kill(m[id]) else m[id]
  }

  /** Killing one more being extends the set of killed beings by it. */
  lemma KillStep(m: map<BeingId, Being>, s: set<BeingId>, id: BeingId)
    requires id in m
    ensures KillAll(m, s)[id := Kill(KillAll(m, s)[id])] == KillAll(m, s + {id})
  {
  }

  /** Visiting one more roster entry adds it to the elementals seen if it is one. */
  lemma ElementalIdsStep(ids: seq<BeingId>, m: map<BeingId, Being>, i: nat)
    requires i < |ids|
    ensures ElementalIds(ids[..i + 1], m) ==
      ElementalIds(ids[..i], m) + (if ids[i] in m && m[ids[i]].role.Elemental? then {ids[i]} else {})
  {
    assert ids[..i + 1] == ids[..i] + [ids[i]];
  }

  /**
    The roster loop that kills every elemental (dead or alive) and removes
    every pending action it would take.
   */
  method KillElementals(st: State)
    requires st.Valid()
    modifies st`arena, st`actions
    ensures st.Valid()
    ensures st.arena == KillAll(old(st.arena), ElementalIds(st.beings, old(st.arena)))
    ensures st.actions == Reject(old(st.actions), UsedBy(ElementalIds(st.beings, old(st.arena))))
  {
    ghost var before, q := st.arena, st.actions;
    ghost var done: set<BeingId> := {};
    RejectNobody(q);
    assert ElementalIds(st.beings[..0], before) == {};
    var i := 0;
    while i < |st.beings|
      invariant 0 <= i <= |st.beings| && st.Valid()
      invariant done == ElementalIds(st.beings[..i], before)
      invariant st.arena == KillAll(before, done)
      invariant st.actions == Reject(q, UsedBy(done))
    {
      var id := st.beings[i];
      ElementalIdsStep(st.beings, before, i);
      if st.arena[id].role.Elemental? {
        KillStep(before, done, id);
        RejectUsedByTwice(q, done, {id});
        Put(st, id, Kill(st.arena[id]));
        RejectActions(st, UsedBy({id}));
        done := done + {id};
      }
      i := i + 1;
    }
    assert st.beings[..i] == st.beings;
  }

  /** After the kill loop, every elemental of the roster has no health and no pending action is one's. */
  lemma KilledElementals(ids: seq<BeingId>, m: map<BeingId, Being>, q: seq<Action>)
    requires forall id :: id in ids ==> id in m
    ensures var e := ElementalIds(ids, m);
      && (forall id :: id in ids && m[id].role.Elemental? ==> KillAll(m, e)[id].health == 0)
      && (forall x :: x in Reject(q, UsedBy(e)) && x.user.Some? && x.user.value in ids ==>
            !m[x.user.value].role.Elemental?)
  {
    var e := ElementalIds(ids, m);
    forall x | x in Reject(q, UsedBy(e)) && x.user.Some? && x.user.value in ids
      ensures !m[x.user.value].role.Elemental?
    {
      assert !Matches(UsedBy(e), x);
    }
  }

  /** `total[e]`: the living elementals of `e`, this summon and the pending summons of `e`, and the pending storms of `e`. */
  function Tally(beings: seq<BeingId>, arena: map<BeingId, Being>, q: seq<Action>, a: Action, e: Element): nat
    requires forall id :: id in beings ==> id in arena
    requires IsSummonElemental(a.kind)
  {
    LivingCount(ElementalsOf(beings, arena, e), arena)
      + (if ElementOf(a.kind) == e then 1 else 0) + |Select(q, SummonsOf(e))|
      + |Select(q, StormsOf(e))|
  }

  /** When the elements do not mix, the one present is the summon's own. */
  lemma TallySingle(beings: seq<BeingId>, arena: map<BeingId, Being>, q: seq<Action>, a: Action)
    requires forall id :: id in beings ==> id in arena
    requires IsSummonElemental(a.kind)
    requires !(Tally(beings, arena, q, a, Fire) > 0 && Tally(beings, arena, q, a, Ice) > 0)
    ensures (if Tally(beings, arena, q, a, Fire) > 0 then Fire else Ice) == ElementOf(a.kind)
    ensures var other := if ElementOf(a.kind) == Fire then Ice else Fire;
      Select(q, SummonsOf(other)) == [] && Select(q, StormsOf(other)) == []
  {
  }

  /** Some pending action among `s` is an Ice Storm. */
  predicate IceStormIn(s: seq<Action>)
  {
    s != [] && (s[0].kind == Cast(IceStorm) || IceStormIn(s[1..]))
  }

  /** The queue after the mixed-element case: elementals' actions, summons and storms gone, and Fireballs too after an Ice Storm. */
  function MixedQueue(q: seq<Action>, e: set<BeingId>): seq<Action>
  {
    var q1 := Reject(Reject(q, UsedBy(e)), SummonsOrStorms);
    if IceStormIn(Select(Reject(q, UsedBy(e)), SummonsOrStorms)) then Reject(q1, Fireballs) else q1
  }

  /** What the mixed-element case cancels besides the summon itself, in order. */
  function MixedCancelled(q: seq<Action>, e: set<BeingId>): seq<Action>
  {
    var c := Select(Reject(q, UsedBy(e)), SummonsOrStorms);
    c + if IceStormIn(c) then Select(Reject(Reject(q, UsedBy(e)), SummonsOrStorms), Fireballs) else []
  }

  /**
    After the mixed-element case no summon, storm or action of a killed
    elemental is pending, nor a Fireball once an Ice Storm was cancelled.
   */
  lemma MixedQueueClear(q: seq<Action>, e: set<BeingId>, x: Action)
    requires x in MixedQueue(q, e)
    ensures !IsSummonElemental(x.kind) && !IsStorm(x.kind)
    ensures x.user.Some? ==> x.user.value !in e
    ensures IceStormIn(Select(Reject(q, UsedBy(e)), SummonsOrStorms)) ==> x.kind != Cast(Fireball)
    ensures x in q
  {
    MixedQueueKept(q, e, x);
    KeptClear(q, e, x);
  }

  /** What the mixed-element case leaves is among the entries the first two rejections keep, and no Fireball after an Ice Storm. */
  lemma MixedQueueKept(q: seq<Action>, e: set<BeingId>, x: Action)
    requires x in MixedQueue(q, e)
    ensures x in Reject(Reject(q, UsedBy(e)), SummonsOrStorms)
    ensures IceStormIn(Select(Reject(q, UsedBy(e)), SummonsOrStorms)) ==> x.kind != Cast(Fireball)
  {
    var q0 := Reject(q, UsedBy(e));
    var q1 := Reject(q0, SummonsOrStorms);
    if IceStormIn(Select(q0, SummonsOrStorms)) {
      assert MixedQueue(q, e) == Reject(q1, Fireballs);
      RejectMember(q1, Fireballs, x);
      assert x.kind != Cast(Fireball);
    } else {
      assert MixedQueue(q, e) == q1;
      assert !IceStormIn(Select(Reject(q, UsedBy(e)), SummonsOrStorms));
    }
  }

  /** An entry kept by both rejections is no summon, no storm, and not used by a killed elemental. */
  lemma KeptClear(q: seq<Action>, e: set<BeingId>, x: Action)
    requires x in Reject(Reject(q, UsedBy(e)), SummonsOrStorms)
    ensures !IsSummonElemental(x.kind) && !IsStorm(x.kind)
    ensures x.user.Some? ==> x.user.value !in e
    ensures x in q
  {
    RejectMember(Reject(q, UsedBy(e)), SummonsOrStorms, x);
    RejectMember(q, UsedBy(e), x);
  }

  /** The mixed-element case: every elemental is killed and every summon and storm cancelled. */
  method CancelMixed(st: State, a: Action)
    requires st.Valid()
    modifies st`arena, st`actions, st`result
    ensures st.Valid()
    ensures var e := ElementalIds(st.beings, old(st.arena));
      && st.arena == KillAll(old(st.arena), e)
      && st.actions == MixedQueue(old(st.actions), e)
      && st.result == old(st.result) + CancelledAll([a] + MixedCancelled(old(st.actions), e))
    ensures forall x :: x in st.actions ==> !IsSummonElemental(x.kind)
  {
    ghost var q, e := st.actions, ElementalIds(st.beings, st.arena);
    KillElementals(st);
    var cancelled := Select(st.actions, SummonsOrStorms);
    RejectActions(st, SummonsOrStorms);
    if IceStormIn(cancelled) {
      cancelled := cancelled + Select(st.actions, Fireballs);
      RejectActions(st, Fireballs);
    } else {
      assert cancelled + [] == cancelled;
    }
    st.result := st.result + CancelledAll([a] + cancelled);
    forall x | x in st.actions ensures !IsSummonElemental(x.kind) {
      MixedQueueClear(q, e, x);
    }
  }

  /** The storm case: every elemental is killed and every summon cancelled; the storm resolves later. */
  method CancelForStorm(st: State, a: Action)
    requires st.Valid()
    modifies st`arena, st`actions, st`result
    ensures st.Valid()
    ensures var e := ElementalIds(st.beings, old(st.arena));
      var q0 := Reject(old(st.actions), UsedBy(e));
      && st.arena == KillAll(old(st.arena), e)
      && st.actions == Reject(q0, SummonElementals)
      && st.result == old(st.result) + CancelledAll([a] + Select(q0, SummonElementals))
    ensures forall x :: x in st.actions ==> !IsSummonElemental(x.kind)
  {
    KillElementals(st);
    var cancelled := Select(st.actions, SummonElementals);
    ghost var q0 := st.actions;
    RejectActions(st, SummonElementals);
    st.result := st.result + CancelledAll([a] + cancelled);
    forall x | x in st.actions ensures !IsSummonElemental(x.kind) {
      RejectSummonsLeavesNone(q0, x);
    }
  }

  /** Removing every elemental summon leaves none. */
  lemma RejectSummonsLeavesNone(s: seq<Action>, x: Action)
    requires x in Reject(s, SummonElementals)
    ensures !IsSummonElemental(x.kind)
  {
    assert !Matches(SummonElementals, x);
  }

  /** The summon case's log: this summon and every pending summon of its element resolve together. */
  method AbsorbSummons(st: State, a: Action, el: Element)
    requires st.Valid()
    modifies st`actions, st`result
    ensures st.Valid()
    ensures st.actions == Reject(old(st.actions), SummonElementals)
    ensures st.result == old(st.result) + DescribedAll([a] + Select(old(st.actions), SummonsOf(el)))
    ensures forall x :: x in st.actions ==> !IsSummonElemental(x.kind)
  {
    var summons := Select(st.actions, SummonsOf(el));
    ghost var q := st.actions;
    RejectActions(st, SummonElementals);
    st.result := st.result + DescribedAll([a] + summons);
    forall x | x in st.actions ensures !IsSummonElemental(x.kind) {
      RejectSummonsLeavesNone(q, x);
    }
  }

  /** A roster that gains one being gains it among the elementals of `e` exactly when it is one. */
  lemma {:induction false} ElementalsOfSnoc(ids: seq<BeingId>, m: map<BeingId, Being>, n: BeingId, b: Being, e: Element)
    requires n !in m && forall id :: id in ids ==> id in m
    ensures ElementalsOf(ids + [n], m[n := b], e) == ElementalsOf(ids, m, e) + (if IsElemental(b, e) then [n] else [])
  {
    if ids == [] {
      assert [] + [n] == [n];
      assert [n][1..] == [];
    } else {
      assert (ids + [n])[1..] == ids[1..] + [n];
      assert forall id :: id in ids[1..] ==> id in ids;
      ElementalsOfSnoc(ids[1..], m, n, b, e);
    }
  }

  /** Changing one record but not its role keeps the elementals of the roster. */
  lemma {:induction false} ElementalsOfPut(ids: seq<BeingId>, m: map<BeingId, Being>, id: BeingId, b: Being, e: Element)
    requires id in m && b.role == m[id].role && forall x :: x in ids ==> x in m
    ensures ElementalsOf(ids, m[id := b], e) == ElementalsOf(ids, m, e)
  {
    if ids != [] {
      assert forall x :: x in ids[1..] ==> x in ids;
      ElementalsOfPut(ids[1..], m, id, b, e);
    }
  }

  /** "Heal existing elemental": the first elemental of the element is revived, attacking at once if it had exactly no health. */
  method ReviveFirst(st: State, f: BeingId, el: Element)
    requires st.Valid() && f in st.arena && IsElemental(st.arena[f], el)
    requires forall x :: x in st.actions ==> !IsSummonElemental(x.kind)
    modifies st`arena, st`actions
    ensures st.Valid() && forall x :: x in st.actions ==> !IsSummonElemental(x.kind)
    ensures var r := Revive(old(st.arena)[f]);
      st.Snap() == old(st.Snap()).(arena := old(st.arena)[f := r.0],
                                   actions := old(st.actions) + (if r.1 == 0 then [AttackOf(f, r.0)] else []))
    ensures ElementalsOf(st.beings, st.arena, el) == ElementalsOf(st.beings, old(st.arena), el)
  {
    var r := Revive(st.arena[f]);
    ElementalsOfPut(st.beings, st.arena, f, r.0, el);
    Put(st, f, r.0);
    if r.1 == 0 {
      Enqueue(st, AttackOf(f, r.0));
    }
  }

  /** "Summon new one": a new elemental joins the roster and attacks at once. */
  method CreateElemental(st: State, el: Element)
    requires st.Valid() && forall x :: x in st.actions ==> !IsSummonElemental(x.kind)
    modifies st`arena, st`beings, st`nextId, st`actions
    ensures st.Valid() && forall x :: x in st.actions ==> !IsSummonElemental(x.kind)
    ensures var b := NewElemental(ElementalStrength, el);
      var n := old(st.nextId);
      st.Snap() == old(st.Snap()).(beings := old(st.beings) + [n], arena := old(st.arena)[n := b],
                                   actions := old(st.actions) + [AttackOf(n, b)], nextId := n + 1)
    ensures ElementalsOf(st.beings, st.arena, el) == ElementalsOf(old(st.beings), old(st.arena), el) + [old(st.nextId)]
  {
    var b := NewElemental(ElementalStrength, el);
    ElementalsOfSnoc(st.beings, st.arena, st.nextId, b, el);
    var n := Recruit(st, b);
  }

  /**
    "Heal existing elemental or summon new one", on a snapshot whose queue
    has the summons absorbed already: the first elemental of `el` on the
    roster is revived, attacking at once if it had exactly no health, or
    else a new one joins the roster under the next id and attacks.
   */
  ghost function Summoned(w: Snapshot, el: Element): Snapshot
    requires forall id :: id in w.beings ==> id in w.arena
  {
    var existing := ElementalsOf(w.beings, w.arena, el);
    if |existing| > 0 then
      var f := existing[0];
      assert f in existing;
      var r := Revive(w.arena[f]);
      w.(arena := w.arena[f := r.0], actions := w.actions + (if r.1 == 0 then [AttackOf(f, r.0)] else []))
    else
      var n := w.nextId;
      var b := NewElemental(ElementalStrength, el);
      w.(beings := w.beings + [n], arena := w.arena[n := b], actions := w.actions + [AttackOf(n, b)], nextId := n + 1)
  }

  method ReviveOrCreate(st: State, el: Element)
    requires st.Valid() && forall x :: x in st.actions ==> !IsSummonElemental(x.kind)
    modifies st`arena, st`beings, st`nextId, st`actions
    ensures st.Valid() && forall x :: x in st.actions ==> !IsSummonElemental(x.kind)
    ensures st.Snap() == Summoned(old(st.Snap()), el)
    ensures |ElementalsOf(st.beings, st.arena, el)| ==
      |ElementalsOf(old(st.beings), old(st.arena), el)| + (if |ElementalsOf(old(st.beings), old(st.arena), el)| == 0 then 1 else 0)
  {
    var existing := ElementalsOf(st.beings, st.arena, el);
    if |existing| > 0 {
      assert existing[0] in existing;
      ReviveFirst(st, existing[0], el);
    } else {
      CreateElemental(st, el);
    }
  }

  /** The summon case: every pending summon is absorbed, then one elemental is revived or created. */
  method SummonOne(st: State, a: Action, el: Element)
    requires st.Valid()
    modifies st`arena, st`beings, st`nextId, st`actions, st`result
    ensures st.Valid()
    ensures st.Snap() == Summoned(old(st.Snap()).(actions := Reject(old(st.actions), SummonElementals),
                                                  result := old(st.result) + DescribedAll([a] + Select(old(st.actions), SummonsOf(el)))), el)
    ensures forall x :: x in st.actions ==> !IsSummonElemental(x.kind)
    ensures |ElementalsOf(st.beings, st.arena, el)| ==
      |ElementalsOf(old(st.beings), old(st.arena), el)| + (if |ElementalsOf(old(st.beings), old(st.arena), el)| == 0 then 1 else 0)
  {
    AbsorbSummons(st, a, el);
    ReviveOrCreate(st, el);
  }

  /**
    The rule of `SummonElemental#resolve`, case by case as the method
    describes it; a created elemental takes the next id.
   */
  ghost predicate SummonElementalRule(a: Action, w: Snapshot, v: Snapshot)
    requires w.Sound() && IsSummonElemental(a.kind) && ActionOk(a, w.arena.Keys)
  {
    var q := w.actions;
    var fire := Tally(w.beings, w.arena, q, a, Fire);
    var ice := Tally(w.beings, w.arena, q, a, Ice);
    var e := ElementalIds(w.beings, w.arena);
    if fire > 0 && ice > 0 then
      v == w.(arena := KillAll(w.arena, e), actions := MixedQueue(q, e),
              result := w.result + CancelledAll([a] + MixedCancelled(q, e)))
    else SingleElementRule(a, ElementOf(a.kind), w, v)
  }

  /** The rule when only the element `el` is tallied: a pending storm of it wins, or else the summons resolve together. */
  ghost predicate SingleElementRule(a: Action, el: Element, w: Snapshot, v: Snapshot)
    requires w.Sound()
  {
    var q := w.actions;
    var e := ElementalIds(w.beings, w.arena);
    if |Select(q, StormsOf(el))| > 0 then
      v == w.(arena := KillAll(w.arena, e), actions := Reject(Reject(q, UsedBy(e)), SummonElementals),
              result := w.result + CancelledAll([a] + Select(Reject(q, UsedBy(e)), SummonElementals)))
    else
      v == Summoned(w.(actions := Reject(q, SummonElementals), result := w.result + DescribedAll([a] + Select(q, SummonsOf(el)))), el)
  }

  /**
    `SummonElemental#resolve`. At most one element may be present in a
    round: if both are tallied, every elemental dies and every summon and
    storm is cancelled (Fireballs too after an Ice Storm); if only one is and
    a storm of it is pending, the storm wins; otherwise the summons resolve
    together into one elemental.
   */
  method ResolveSummonElemental(st: State, a: Action)
    requires st.Valid() && IsSummonElemental(a.kind) && ActionOk(a, st.arena.Keys)
    modifies st`arena, st`beings, st`nextId, st`actions, st`result
    ensures st.Valid()
    ensures SummonElementalRule(a, old(st.Snap()), st.Snap())
    ensures forall x :: x in st.actions ==> !IsSummonElemental(x.kind)
    ensures
      var el := ElementOf(a.kind);
      var fire := Tally(old(st.beings), old(st.arena), old(st.actions), a, Fire);
      var ice := Tally(old(st.beings), old(st.arena), old(st.actions), a, Ice);
      !(fire > 0 && ice > 0) && |Select(old(st.actions), StormsOf(el))| == 0 ==>
        |ElementalsOf(st.beings, st.arena, el)| ==
          |ElementalsOf(old(st.beings), old(st.arena), el)| +
          (if |ElementalsOf(old(st.beings), old(st.arena), el)| == 0 then 1 else 0)
  {
    var fire := Tally(st.beings, st.arena, st.actions, a, Fire);
    var ice := Tally(st.beings, st.arena, st.actions, a, Ice);
    if fire > 0 && ice > 0 {
      CancelMixed(st, a);
      return;
    }
    TallySingle(st.beings, st.arena, st.actions, a);
    var el := if fire > 0 then Fire else Ice;
    ResolveSingleElement(st, a, el);
  }

  /** `SummonElemental#resolve` when only `el` is tallied: the storm case or the summon case. */
  method ResolveSingleElement(st: State, a: Action, el: Element)
    requires st.Valid()
    modifies st`arena, st`beings, st`nextId, st`actions, st`result
    ensures st.Valid() && SingleElementRule(a, el, old(st.Snap()), st.Snap())
    ensures forall x :: x in st.actions ==> !IsSummonElemental(x.kind)
    ensures |Select(old(st.actions), StormsOf(el))| == 0 ==>
      |ElementalsOf(st.beings, st.arena, el)| ==
        |ElementalsOf(old(st.beings), old(st.arena), el)| +
        (if |ElementalsOf(old(st.beings), old(st.arena), el)| == 0 then 1 else 0)
  {
    if |Select(st.actions, StormsOf(el))| > 0 {
      CancelForStorm(st, a);
    } else {
      SummonOne(st, a, el);
    }
  }

}
