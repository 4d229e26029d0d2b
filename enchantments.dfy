/**
  The `resolve` methods of the enchantment spells that override it: Haste,
  Time Stop, Protection, the two resistances and Paralysis.
 */
module Enchantments {
  import opened Wrappers
  import opened Beings
  import opened Actions
  import opened Queue
  import opened Duel

  /** The rule of `Haste#resolve`: three turns of haste for the target, and the spell is reported. */
  ghost predicate HasteRule(a: Action, w: Snapshot, v: Snapshot)
    requires w.Sound() && a.kind == Cast(Haste) && ActionOk(a, w.arena.Keys)
  {
    var t := a.target.value;
    v == w.(arena := w.arena[t := w.arena[t].(haste := 3)], result := w.result + [Described(a)])
  }

  /** `Haste#resolve`. */
  method ResolveHaste(st: State, a: Action)
    requires st.Valid() && a.kind == Cast(Haste) && ActionOk(a, st.arena.Keys)
    modifies st`arena, st`result
    ensures st.Valid() && HasteRule(a, old(st.Snap()), st.Snap())
  {
    st.result := st.result + [Described(a)];
    var t := a.target.value;
    Put(st, t, st.arena[t].(haste := 3));
  }

  /** The rule of `TimeStop#resolve`: the target's time stop is set, and the spell is reported. */
  ghost predicate TimeStopRule(a: Action, w: Snapshot, v: Snapshot)
    requires w.Sound() && a.kind == Cast(TimeStop) && ActionOk(a, w.arena.Keys)
  {
    var t := a.target.value;
    v == w.(arena := w.arena[t := w.arena[t].(timeStop := true)], result := w.result + [Described(a)])
  }

  /** `TimeStop#resolve`: time stops for the target from the end of the round. */
  method ResolveTimeStop(st: State, a: Action)
    requires st.Valid() && a.kind == Cast(TimeStop) && ActionOk(a, st.arena.Keys)
    modifies st`arena, st`result
    ensures st.Valid() && TimeStopRule(a, old(st.Snap()), st.Snap())
  {
    st.result := st.result + [Described(a)];
    var t := a.target.value;
    Put(st, t, st.arena[t].(timeStop := true));
  }

  /** The rule of `Protection#resolve`: the target's protection is set to three turns, and the spell is reported. */
  ghost predicate ProtectionRule(a: Action, w: Snapshot, v: Snapshot)
    requires w.Sound() && a.kind == Cast(Protection) && ActionOk(a, w.arena.Keys)
  {
    var t := a.target.value;
    v == w.(arena := w.arena[t := SetProtection(w.arena[t], 3)], result := w.result + [Described(a)])
  }

  /** `Protection#resolve`: three turns of protection, shielded at once. */
  method ResolveProtection(st: State, a: Action)
    requires st.Valid() && a.kind == Cast(Protection) && ActionOk(a, st.arena.Keys)
    modifies st`arena, st`result
    ensures st.Valid() && ProtectionRule(a, old(st.Snap()), st.Snap())
    ensures st.arena[a.target.value].shielded && st.arena[a.target.value].protection == 3
  {
    st.result := st.result + [Described(a)];
    var t := a.target.value;
    Put(st, t, SetProtection(st.arena[t], 3));
  }

  /** The rule of `ResistanceSpell#resolve`, case by case as the method describes it. */
  ghost predicate ResistanceRule(a: Action, w: Snapshot, v: Snapshot)
    requires w.Sound() && IsResistance(a.kind) && ActionOk(a, w.arena.Keys)
  {
    var t := a.target.value;
    var b := w.arena[t];
    var e := ResistedElement(a.kind);
    if IsElemental(b, e) && b.health > 0 then
      v == w.(arena := w.arena[t := Kill(b)], actions := Reject(w.actions, UsedBy({t})),
              result := w.result + [Described(a), Destroyed(t)])
    else if b.role.Elemental? then v == w.(result := w.result + [NoEffect(a)])
    else v == w.(arena := w.arena[t := b.(resistance := b.resistance + {e})], result := w.result + [Described(a)])
  }

  /**
    `ResistanceSpell#resolve`: on a living elemental of the resisted element
    the spell destroys it and drops the actions it would take; on any other
    elemental it has no effect; any other being gains the resistance.
   */
  method ResolveResistance(st: State, a: Action)
    requires st.Valid() && IsResistance(a.kind) && ActionOk(a, st.arena.Keys)
    modifies st`arena, st`actions, st`result
    ensures st.Valid() && ResistanceRule(a, old(st.Snap()), st.Snap())
    ensures var t := a.target.value;
      IsElemental(old(st.arena)[t], ResistedElement(a.kind)) && old(st.arena)[t].health > 0 ==>
        forall x :: x in st.actions ==> x.user != Some(t)
  {
    var t := a.target.value;
    var b := st.arena[t];
    var e := ResistedElement(a.kind);
    if b.role.Elemental? {
      if b.role.element == e && b.health > 0 {
        st.result := st.result + [Described(a), Destroyed(t)];
        Put(st, t, Kill(b));
        RejectActions(st, UsedBy({t}));
        RejectUsedByOne(old(st.actions), t);
      } else {
        st.result := st.result + [NoEffect(a)];
      }
    } else {
      st.result := st.result + [Described(a)];
      Put(st, t, b.(resistance := b.resistance + {e}));
    }
  }

  /** Some pending action aimed at `t` is one of the charms. */
  predicate Charmed(s: seq<Action>, t: Option<BeingId>)
  {
    exists x :: x in s && x.target == t && IsCharm(x.kind)
  }

  /**
    The rule of `Paralysis#resolve`: every paralysis aimed at the target
    leaves the queue; if there was one, or a charm aimed at the target is
    still pending, they are all cancelled; otherwise the target is paralysed.
   */
  ghost predicate ParalysisRule(a: Action, w: Snapshot, v: Snapshot)
    requires w.Sound() && a.kind == Cast(Paralysis) && ActionOk(a, w.arena.Keys)
  {
    var c := Select(w.actions, ParalysesAt(a.target));
    var q := Reject(w.actions, ParalysesAt(a.target));
    if |c| > 0 || Charmed(q, a.target) then v == w.(actions := q, result := w.result + CancelledAll([a] + c))
    else
      var t := a.target.value;
      v == w.(arena := w.arena[t := w.arena[t].(paralysis := true)], actions := q, result := w.result + [Described(a)])
  }

  /**
    `Paralysis#resolve`: all paralyses aimed at the same target cancel each
    other, and a charm aimed at it cancels the paralysis too; otherwise the
    target is paralysed.
   */
  method ResolveParalysis(st: State, a: Action)
    requires st.Valid() && a.kind == Cast(Paralysis) && ActionOk(a, st.arena.Keys)
    modifies st`arena, st`actions, st`result
    ensures st.Valid() && ParalysisRule(a, old(st.Snap()), st.Snap())
    ensures forall x :: x in st.actions ==> !(x.kind == Cast(Paralysis) && x.target == a.target)
  {
    var cancelled := Select(st.actions, ParalysesAt(a.target));
    RejectActions(st, ParalysesAt(a.target));
    RejectParalysesAt(old(st.actions), a.target);
    if |cancelled| > 0 || Charmed(st.actions, a.target) {
      st.result := st.result + CancelledAll([a] + cancelled);
      return;
    }
    st.result := st.result + [Described(a)];
    var t := a.target.value;
    Put(st, t, st.arena[t].(paralysis := true));
  }

}
