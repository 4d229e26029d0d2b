/**
  The `resolve` methods of the protection spells that override it: Dispel
  Magic, Counter Spell, Magic Mirror, Raise Dead and Shield.
 */
module Protections {
  import opened Wrappers
  import opened Beings
  import opened Actions
  import opened Queue
  import opened Duel

  /** The arena after every being of `s` has had its shield raised. */
  function ShieldAll(m: map<BeingId, Being>, s: set<BeingId>): (r: map<BeingId, Being>)
    ensures SameShape(m, r)
    ensures forall id :: id in m ==> r[id].shielded == (m[id].shielded || id in s)
    ensures forall id :: id in m ==> r[id] == m[id].(shielded := r[id].shielded)
  {
    map id | id in m :: if id in s then m[id].(shielded := true) else m[id]
  }

  /** Shielding one more being extends the set of shielded beings by it. */
  lemma ShieldStep(m: map<BeingId, Being>, s: set<BeingId>, id: BeingId)
    requires id in m
    ensures ShieldAll(m, s)[id := ShieldAll(m, s)[id].(shielded := true)] == ShieldAll(m, s + {id})
  {
  }

  /** `shielded.each { |being| being.shielded = true }`. */
  method ShieldEach(st: State, list: seq<BeingId>)
    requires st.Valid() && forall id :: id in list ==> id in st.arena
    modifies st`arena
    ensures st.Valid() && st.arena == ShieldAll(old(st.arena), Members(list))
  {
    ghost var before := st.arena;
    ghost var done: set<BeingId> := {};
    var i := 0;
    assert Members(list[..0]) == {};
    while i < |list|
      invariant 0 <= i <= |list| && st.Valid()
      invariant st.arena == ShieldAll(before, done) && done == Members(list[..i])
    {
      var id := list[i];
      ShieldStep(before, done, id);
      Put(st, id, st.arena[id].(shielded := true));
      assert list[..i + 1] == list[..i] + [id];
      done := done + {id};
      i := i + 1;
    }
    assert list[..i] == list;
  }

  /** The users of pending actions that all have one. */
  function Users(s: seq<Action>): (r: seq<BeingId>)
    requires forall x :: x in s ==> x.user.Some?
    ensures |r| == |s| && forall i :: 0 <= i < |s| ==> Some(r[i]) == s[i].user
  {
    seq(|s|, i requires 0 <= i < |s| => s[i].user.value)
  }

  /** What Dispel Magic reports for each spell it removes: other Dispel Magics resolve, the rest are cancelled. */
  function DispelLog(s: seq<Action>): (r: seq<Event>)
    ensures |r| == |s|
    ensures forall i :: 0 <= i < |s| ==>
      (s[i].kind == Cast(DispelMagic) ==> r[i] == Described(s[i])) &&
      (s[i].kind != Cast(DispelMagic) ==> r[i] == Cancelled(s[i]))
  {
    seq(|s|, i requires 0 <= i < |s| => if s[i].kind == Cast(DispelMagic) then Described(s[i]) else Cancelled(s[i]))
  }

  /** The beings Dispel Magic shields: its own user, then the user of every other pending Dispel Magic. */
  function DispelShielded(a: Action, q: seq<Action>): (r: seq<BeingId>)
    requires a.user.Some? && forall x :: x in q && x.kind == Cast(DispelMagic) ==> x.user.Some?
    ensures |r| == 1 + |Select(q, DispelMagics)| && r[0] == a.user.value
    ensures forall x :: x in q && x.kind == Cast(DispelMagic) ==> x.user.Some? && x.user.value in r
  {
    var d := Select(q, DispelMagics);
    assert forall x :: x in d ==> x.user.Some?;
    var r := [a.user.value] + Users(d);
    assert forall x :: x in q && x.kind == Cast(DispelMagic) ==> x.user.value in r by {
      forall x | x in q && x.kind == Cast(DispelMagic) ensures x.user.value in r {
        SelectCollects(q, DispelMagics, x);
        var k :| 0 <= k < |d| && d[k] == x;
        assert r[k + 1] == x.user.value;
      }
    }
    r
  }

  /** Removing every spell leaves none. */
  lemma RejectSpellsLeavesNone(s: seq<Action>)
    ensures forall x :: x in Reject(s, Spells) ==> !IsSpell(x.kind)
  {
    forall x | x in Reject(s, Spells) ensures !IsSpell(x.kind) {
      assert !Matches(Spells, x);
    }
  }

  /** The queue and log part of `DispelMagic#resolve`. */
  method DispelQueue(st: State, a: Action)
    requires st.Valid()
    modifies st`actions, st`result
    ensures st.Valid()
    ensures st.actions == Reject(old(st.actions), Spells) + [DispelMonstersAction]
    ensures st.result == old(st.result) + [Described(a)] + DispelLog(Select(old(st.actions), Spells))
  {
    st.result := st.result + [Described(a)] + DispelLog(Select(st.actions, Spells));
    RejectActions(st, Spells);
    Enqueue(st, DispelMonstersAction);
  }

  /** Every being Dispel Magic shields is in the arena. */
  lemma DispelShieldedIn(a: Action, q: seq<Action>, ids: set<BeingId>)
    requires ActionOk(a, ids) && a.kind == Cast(DispelMagic) && forall x :: x in q ==> ActionOk(x, ids)
    requires forall x :: x in q && x.kind == Cast(DispelMagic) ==> x.user.Some?
    ensures forall id :: id in DispelShielded(a, q) ==> id in ids
  {
    var r := DispelShielded(a, q);
    var d := Select(q, DispelMagics);
    forall id | id in r ensures id in ids {
      var k :| 0 <= k < |r| && r[k] == id;
      if k > 0 {
        assert d[k - 1] in q;
      }
    }
  }

  /** Dispel Magic leaves its own user and the user of every other pending Dispel Magic shielded. */
  lemma DispelShieldsCasters(m: map<BeingId, Being>, a: Action, q: seq<Action>)
    requires a.kind == Cast(DispelMagic) && a.user.Some? && a.user.value in m
    requires forall x :: x in q && x.kind == Cast(DispelMagic) ==> x.user.Some? && x.user.value in m
    ensures var r := ShieldAll(m, Members(DispelShielded(a, q)));
      && r[a.user.value].shielded
      && forall x :: x in q && x.kind == Cast(DispelMagic) ==> r[x.user.value].shielded
  {
  }

  /** The rule of `DispelMagic#resolve`, as the method describes it. */
  ghost predicate DispelMagicRule(a: Action, w: Snapshot, v: Snapshot)
    requires w.Sound() && a.kind == Cast(DispelMagic) && ActionOk(a, w.arena.Keys)
  {
    v == w.(arena := ShieldAll(w.arena, Members(DispelShielded(a, w.actions))),
            actions := Reject(w.actions, Spells) + [DispelMonstersAction],
            result := w.result + [Described(a)] + DispelLog(Select(w.actions, Spells)))
  }

  /**
    `DispelMagic#resolve`: every pending spell is removed (other Dispel
    Magics resolve with it, the rest are cancelled), one `DispelMonsters`
    goes to the end of the queue, and every Dispel Magic user is shielded.
   */
  method ResolveDispelMagic(st: State, a: Action)
    requires st.Valid() && a.kind == Cast(DispelMagic) && ActionOk(a, st.arena.Keys)
    modifies st`arena, st`actions, st`result
    ensures st.Valid() && DispelMagicRule(a, old(st.Snap()), st.Snap())
  {
    var shielded := DispelShielded(a, st.actions);
    DispelShieldedIn(a, st.actions, st.arena.Keys);
    DispelQueue(st, a);
    ShieldEach(st, shielded);
  }

  /** The rule of `CounterSpell#resolve`, as the method describes it. */
  ghost predicate CounterSpellRule(a: Action, w: Snapshot, v: Snapshot)
    requires w.Sound() && a.kind == Cast(CounterSpell) && ActionOk(a, w.arena.Keys)
  {
    var t := a.target.value;
    v == w.(arena := w.arena[t := w.arena[t].(shielded := true)],
            actions := Reject(w.actions, CounteredAt(a.target)),
            result := w.result + [Described(a)] + CancelledAll(Select(w.actions, CounteredAt(a.target))))
  }

  /**
    `CounterSpell#resolve`: every pending spell aimed at the target, other
    than Finger of Death, is cancelled, and the target is shielded.
   */
  method ResolveCounterSpell(st: State, a: Action)
    requires st.Valid() && a.kind == Cast(CounterSpell) && ActionOk(a, st.arena.Keys)
    modifies st`arena, st`actions, st`result
    ensures st.Valid() && CounterSpellRule(a, old(st.Snap()), st.Snap())
  {
    var cancelled := Select(st.actions, CounteredAt(a.target));
    RejectActions(st, CounteredAt(a.target));
    var t := a.target.value;
    Put(st, t, st.arena[t].(shielded := true));
    st.result := st.result + [Described(a)] + CancelledAll(cancelled);
  }

  /** What Counter Spell leaves pending: exactly the entries it does not counter, each as often as before. */
  lemma CounterSpellKeeps(q: seq<Action>, t: Option<BeingId>, x: Action)
    ensures x in Reject(q, CounteredAt(t)) <==> x in q && !(IsSpell(x.kind) && x.target == t && x.kind != Cast(FingerOfDeath))
    ensures !IsSpell(x.kind) || x.kind == Cast(FingerOfDeath) ==> multiset(Reject(q, CounteredAt(t)))[x] == multiset(q)[x]
  {
    if !IsSpell(x.kind) || x.kind == Cast(FingerOfDeath) {
      RejectKeepsOthers(q, CounteredAt(t), x);
    }
  }

  /** The beings Magic Mirror protects: its own target and the target of every other pending Magic Mirror. */
  function Mirrored(a: Action, q: seq<Action>): (m: set<BeingId>)
    ensures a.target.Some? ==> a.target.value in m
    ensures forall x :: x in q && x.kind == Cast(MagicMirror) && x.target.Some? ==> x.target.value in m
  {
    (if a.target.Some? then {a.target.value} else {}) +
    set x | x in q && x.kind == Cast(MagicMirror) && x.target.Some? :: x.target.value
  }

  /** The condition of the reflection `while`: a spell aimed at a mirrored being other than its caster. */
  predicate Reflects(x: Action, m: set<BeingId>)
  {
    IsSpell(x.kind) && x.target.Some? && x.target.value in m && x.target != x.origin
  }

  /** `action.user, action.target = action.target, action.user`. */
  function Swap(x: Action): (y: Action)
    ensures y.kind == x.kind && y.origin == x.origin && y.user == x.target && y.target == x.user
  {
    x.(user := x.target, target := x.user)
  }

  /** An entry after reflection: a reflected spell is swapped once, which turns it back on its caster. */
  function Reflected1(x: Action, m: set<BeingId>): (y: Action)
    ensures Reflects(x, m) ==> y == Swap(x)
    ensures !Reflects(x, m) ==> y == x
  {
    if Reflects(x, m) then Swap(x) else x
  }

  function ReflectAll(s: seq<Action>, m: set<BeingId>): (r: seq<Action>)
    ensures |r| == |s| && forall i :: 0 <= i < |s| ==> r[i] == Reflected1(s[i], m)
  {
    seq(|s|, i requires 0 <= i < |s| => Reflected1(s[i], m))
  }

  /** The "Reflected" lines for `s`, in queue order, each describing the spell before its swap. */
  function ReflectLog(s: seq<Action>, m: set<BeingId>): seq<Event>
  {
    if s == [] then []
    else
      var init := ReflectLog(s[..|s| - 1], m);
      if Reflects(s[|s| - 1], m) then init + [Reflected(s[|s| - 1])] else init
  }

  /** One turn of the outer `each`: the `while` swaps a spell that still has its caster as user at most once. */
  method ReflectOne(x: Action, m: set<BeingId>) returns (y: Action, log: seq<Event>)
    requires IsSpell(x.kind) && x.user == x.origin
    ensures y == Reflected1(x, m)
    ensures log == if Reflects(x, m) then [Reflected(x)] else []
  {
    y, log := x, [];
    while y.target.Some? && y.target.value in m && y.target != y.origin
      invariant y.kind == x.kind && y.origin == x.origin
      invariant y == x || (Reflects(x, m) && y == Swap(x))
      invariant y == x ==> log == []
      invariant y != x ==> log == [Reflected(x)] && y.target == y.origin
      decreases if y.target == y.origin then 0 else 1
    {
      log := log + [Reflected(y)];
      y := Swap(y);
    }
  }

  /** The outer loop of `MagicMirror#resolve`, over the queue left once the other mirrors are gone. */
  method ReflectQueue(s: seq<Action>, m: set<BeingId>) returns (r: seq<Action>, log: seq<Event>)
    requires Unswapped(s)
    ensures r == ReflectAll(s, m) && log == ReflectLog(s, m)
  {
    r, log := s, [];
    var i := 0;
    while i < |s|
      invariant 0 <= i <= |s| && |r| == |s|
      invariant forall k :: 0 <= k < i ==> r[k] == Reflected1(s[k], m)
      invariant forall k :: i <= k < |s| ==> r[k] == s[k]
      invariant log == ReflectLog(s[..i], m)
    {
      assert s[..i + 1][..i] == s[..i];
      if IsSpell(s[i].kind) {
        assert s[i] in s;
        var y, l := ReflectOne(s[i], m);
        r := r[i := y];
        log := log + l;
      } else {
        assert log + [] == log;
      }
      i := i + 1;
    }
    assert s[..i] == s;
  }

  /**
    Over a queue whose spells still have their casters as users, after
    reflection every spell is aimed at its caster or at a being no mirror
    protects.
   */
  lemma ReflectAllSettles(s: seq<Action>, m: set<BeingId>)
    requires Unswapped(s)
    ensures forall y :: y in ReflectAll(s, m) && IsSpell(y.kind) ==>
      y.target == y.origin || y.target.None? || y.target.value !in m
  {
    var r := ReflectAll(s, m);
    forall y | y in r && IsSpell(y.kind) ensures y.target == y.origin || y.target.None? || y.target.value !in m {
      var k :| 0 <= k < |r| && r[k] == y;
      assert s[k] in s;
    }
  }

  /** Removing every Magic Mirror leaves none. */
  lemma RejectMirrorsLeavesNone(s: seq<Action>)
    ensures forall x :: x in Reject(s, Mirrors) ==> x.kind != Cast(MagicMirror)
  {
    forall x | x in Reject(s, Mirrors) ensures x.kind != Cast(MagicMirror) {
      assert !Matches(Mirrors, x);
    }
  }

  /** Reflection keeps every entry well formed and adds no Magic Mirror, so the queue stays reflection-safe. */
  lemma ReflectAllOk(s: seq<Action>, m: set<BeingId>, ids: set<BeingId>)
    requires forall x :: x in s ==> ActionOk(x, ids) && x.kind != Cast(MagicMirror)
    ensures forall y :: y in ReflectAll(s, m) ==> ActionOk(y, ids) && y.kind != Cast(MagicMirror)
    ensures QueueOk(ReflectAll(s, m), ids)
  {
    var r := ReflectAll(s, m);
    forall y | y in r ensures ActionOk(y, ids) && y.kind != Cast(MagicMirror) {
      var k :| 0 <= k < |r| && r[k] == y;
      assert s[k] in s;
    }
  }

  /** The rule of `MagicMirror#resolve`, as the method describes it. */
  ghost predicate MagicMirrorRule(a: Action, w: Snapshot, v: Snapshot)
    requires w.Sound() && a.kind == Cast(MagicMirror) && ActionOk(a, w.arena.Keys)
  {
    var m := Mirrored(a, w.actions);
    var kept := Reject(w.actions, Mirrors);
    v == w.(actions := ReflectAll(kept, m), result := w.result + [Described(a)] + ReflectLog(kept, m))
  }

  /**
    `MagicMirror#resolve`: every other pending Magic Mirror is absorbed, then
    every pending spell aimed at a mirrored being other than its caster is
    turned back on its user.
   */
  method ResolveMagicMirror(st: State, a: Action)
    requires st.Valid() && a.kind == Cast(MagicMirror) && ActionOk(a, st.arena.Keys)
    requires Unswapped(st.actions)
    modifies st`actions, st`result
    ensures st.Valid() && MagicMirrorRule(a, old(st.Snap()), st.Snap())
    ensures forall x :: x in st.actions ==> x.kind != Cast(MagicMirror)
    ensures forall x :: x in st.actions && IsSpell(x.kind) ==>
      x.target == x.origin || x.target.None? || x.target.value !in Mirrored(a, old(st.actions))
  {
    var m := Mirrored(a, st.actions);
    RejectActions(st, Mirrors);
    var kept := st.actions;
    st.result := st.result + [Described(a)];
    var r, log := ReflectQueue(kept, m);
    RejectMirrorsLeavesNone(old(st.actions));
    ReflectAllSettles(kept, m);
    ReflectAllOk(kept, m, st.arena.Keys);
    st.actions := r;
    st.result := st.result + log;
  }

  /** Every Raise Dead pending besides `a` was cast by `a`'s user: `users.uniq` has one entry. */
  predicate SoleCaster(a: Action, others: seq<Action>)
  {
    forall x :: x in others ==> x.user == a.user
  }

  /** The record of a raised minion: the sole caster takes control, otherwise the minion is confused. */
  function Raised(b: Being, a: Action, others: seq<Action>, found: Option<BeingId>): (r: Being)
    requires b.role.Minion?
    ensures r.role.Minion? && r.role.attack == b.role.attack
    ensures SoleCaster(a, others) ==> r.role.controller == a.user && r.role.target == found
    ensures !SoleCaster(a, others) ==> r.role.controller.None? && r.role.target.None?
    ensures r == b.(role := r.role)
  {
    if SoleCaster(a, others) then b.(role := b.role.(controller := a.user, target := found))
    else b.(role := b.role.(controller := None, target := None))
  }

  /**
    `RaiseDead#resolve` for the case where Finger of Death is pending:
    every Finger of Death and every Raise Dead is cancelled.
   */
  method CancelRaiseDeads(st: State, a: Action)
    requires st.Valid()
    modifies st`actions, st`result
    ensures st.Valid()
    ensures st.actions == Reject(Reject(old(st.actions), FingersOfDeath), RaiseDeads)
    ensures st.result == old(st.result) + CancelledAll(Select(old(st.actions), FingersOfDeath)) + [Cancelled(a)]
      + CancelledAll(Select(Reject(old(st.actions), FingersOfDeath), RaiseDeads))
  {
    var fods := Select(st.actions, FingersOfDeath);
    RejectActions(st, FingersOfDeath);
    var raises := Select(st.actions, RaiseDeads);
    RejectActions(st, RaiseDeads);
    st.result := st.result + CancelledAll(fods) + [Cancelled(a)] + CancelledAll(raises);
  }

  /** Once Finger of Death has cancelled the Raise Deads, neither kind is pending. */
  lemma CancelledRaiseDeadsGone(q: seq<Action>, x: Action)
    requires x in Reject(Reject(q, FingersOfDeath), RaiseDeads)
    ensures x.kind != Cast(FingerOfDeath) && x.kind != Cast(RaiseDead)
  {
    assert x in Reject(q, FingersOfDeath);
  }

  /**
    The raised record: a minion first changes hands (`found` is the warlock
    other than the caster, if any), then the being is revived.
   */
  function RaisedRecord(b: Being, a: Action, others: seq<Action>, found: Option<BeingId>): (r: Being)
    ensures r.health == b.maxHealth && r.maxHealth == b.maxHealth
    ensures !b.role.Minion? ==> r == b.(health := b.maxHealth)
    ensures b.role.Minion? ==> r.role.Minion? && r.role.attack == b.role.attack
    ensures b.role.Minion? && SoleCaster(a, others) ==> r.role.controller == a.user && r.role.target == found
    ensures b.role.Minion? && !SoleCaster(a, others) ==> r.role.controller.None? && r.role.target.None?
    ensures r == b.(role := r.role, health := r.health)
  {
    Revive(if b.role.Minion? then Raised(b, a, others, found) else b).0
  }

  /** The raised record keeps its references inside the arena and stays a warlock exactly when it was one. */
  lemma RaisedRecordOk(b: Being, a: Action, others: seq<Action>, found: Option<BeingId>, ids: set<BeingId>)
    requires RoleOk(b.role, ids) && RefIn(a.user, ids) && RefIn(found, ids) && b.maxHealth >= 0
    ensures var r := RaisedRecord(b, a, others, found);
      RoleOk(r.role, ids) && r.maxHealth >= 0 && (b.role.Warlock? <==> r.role.Warlock?)
  {
  }

  /**
    `RaiseDead#resolve` on a target with no health left: every pending
    Raise Dead joins in, a minion changes hands, the target is revived and a
    raised monster attacks at once.
   */
  method RaiseTarget(st: State, a: Action)
    requires st.Valid() && a.kind == Cast(RaiseDead) && ActionOk(a, st.arena.Keys)
    modifies st`arena, st`actions, st`result
    ensures st.Valid()
    ensures
      var t := a.target.value;
      var b := old(st.arena)[t];
      var others := Select(old(st.actions), RaiseDeads);
      var r := RaisedRecord(b, a, others, FindWarlock(old(st.beings), old(st.arena), a.user.value));
      && st.arena == old(st.arena)[t := r]
      && st.result == old(st.result) + DescribedAll([a] + others)
      && st.actions == Reject(old(st.actions), RaiseDeads) + (if IsMonster(b) then [AttackOf(t, r)] else [])
  {
    var t := a.target.value;
    var others := Select(st.actions, RaiseDeads);
    var b := st.arena[t];
    var found := FindWarlock(st.beings, st.arena, a.user.value);
    var r := RaisedRecord(b, a, others, found);
    RaisedRecordOk(b, a, others, found, st.arena.Keys);
    Reshape(st, t, r);
    AbsorbRaiseDeads(st, a);
    if IsMonster(r) {
      Enqueue(st, AttackOf(t, r));
    }
  }

  /** `raises` and its descriptions: this Raise Dead and every pending one resolve together. */
  method AbsorbRaiseDeads(st: State, a: Action)
    requires st.Valid()
    modifies st`actions, st`result
    ensures st.Valid()
    ensures st.actions == Reject(old(st.actions), RaiseDeads)
    ensures st.result == old(st.result) + DescribedAll([a] + Select(old(st.actions), RaiseDeads))
  {
    var others := Select(st.actions, RaiseDeads);
    RejectActions(st, RaiseDeads);
    st.result := st.result + DescribedAll([a] + others);
  }

  /** The rule of `RaiseDead#resolve`, case by case as the method describes it. */
  ghost predicate RaiseDeadRule(a: Action, w: Snapshot, v: Snapshot)
    requires w.Sound() && a.kind == Cast(RaiseDead) && ActionOk(a, w.arena.Keys)
  {
    var fods := Select(w.actions, FingersOfDeath);
    var t := a.target.value;
    var b := w.arena[t];
    var others := Select(w.actions, RaiseDeads);
    if |fods| > 0 then
      v == w.(actions := Reject(Reject(w.actions, FingersOfDeath), RaiseDeads),
              result := w.result + CancelledAll(fods) + [Cancelled(a)]
                + CancelledAll(Select(Reject(w.actions, FingersOfDeath), RaiseDeads)))
    else if b.health <= 0 then
      var r := RaisedRecord(b, a, others, FindWarlock(w.beings, w.arena, a.user.value));
      v == w.(arena := w.arena[t := r],
              actions := Reject(w.actions, RaiseDeads) + (if IsMonster(b) then [AttackOf(t, r)] else []),
              result := w.result + DescribedAll([a] + others))
    else v == w.(arena := w.arena[t := Heal(b, 5)], result := w.result + [Healed(a)])
  }

  /**
    `RaiseDead#resolve`. A pending Finger of Death cancels every Raise Dead;
    otherwise a target with no health left is raised, and a living
    target heals 5.
   */
  method ResolveRaiseDead(st: State, a: Action)
    requires st.Valid() && a.kind == Cast(RaiseDead) && ActionOk(a, st.arena.Keys)
    modifies st`arena, st`actions, st`result
    ensures st.Valid() && RaiseDeadRule(a, old(st.Snap()), st.Snap())
  {
    var fods := Select(st.actions, FingersOfDeath);
    if |fods| > 0 {
      CancelRaiseDeads(st, a);
      return;
    }
    var t := a.target.value;
    if st.arena[t].health <= 0 {
      RaiseTarget(st, a);
      return;
    }
    st.result := st.result + [Healed(a)];
    Put(st, t, Heal(st.arena[t], 5));
  }

  /** The rule of `Shield#resolve`: the target is shielded, and the spell is reported. */
  ghost predicate ShieldRule(a: Action, w: Snapshot, v: Snapshot)
    requires w.Sound() && a.kind == Cast(Shield) && ActionOk(a, w.arena.Keys)
  {
    var t := a.target.value;
    v == w.(arena := w.arena[t := w.arena[t].(shielded := true)], result := w.result + [Described(a)])
  }

  /** `Shield#resolve`. */
  method ResolveShield(st: State, a: Action)
    requires st.Valid() && a.kind == Cast(Shield) && ActionOk(a, st.arena.Keys)
    modifies st`arena, st`result
    ensures st.Valid() && ShieldRule(a, old(st.Snap()), st.Snap())
  {
    st.result := st.result + [Described(a)];
    var t := a.target.value;
    Put(st, t, st.arena[t].(shielded := true));
  }

}
