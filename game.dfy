/**
  One frame of the DragonRuby `tick` in app/main.rb, without the keyboard
  menus and the labels: the phase decision and the tick, the readiness and
  skip rule, and the resolution block that builds, sorts and drains the
  queue and then clamps health and hands the time stop on.
 */
module Game {
  import opened Wrappers
  import opened Beings
  import opened Actions
  import opened Queue
  import opened Duel
  import opened Resolution

  /** The status flags the frame looks for on the roster. */
  datatype Flag = TimeStopFlag | TimeStoppedFlag | HasteFlag

  predicate Has(f: Flag, b: Being)
  {
    match f
    case TimeStopFlag => b.timeStop
    case TimeStoppedFlag => b.timeStopped
    case HasteFlag => Hasted(b)
  }

  /** `beings.any? { |b| ... }` for one of the flags, over the beings of `ids` the arena holds. */
  predicate AnyHas(ids: seq<BeingId>, arena: map<BeingId, Being>, f: Flag)
    ensures AnyHas(ids, arena, f) <==> exists id :: id in ids && id in arena && Has(f, arena[id])
    decreases |ids|
  {
    if ids == [] then false
    else
      var n := |ids| - 1;
      assert ids == ids[..n] + [ids[n]];
      AnyHas(ids[..n], arena, f) || (ids[n] in arena && Has(f, arena[ids[n]]))
  }

  /** The three `each` loops over the roster: tick, clamp, and the time-stop hand-over. */
  datatype Pass = Ticking | Clamping | StoppingTime

  /** What one pass does to one being. */
  function Apply(p: Pass, b: Being): (r: Being)
    ensures r.role == b.role && r.maxHealth == b.maxHealth
    ensures p == Clamping ==> r == b.(health := r.health) && 0 <= r.health && (b.maxHealth >= 0 ==> r.health <= b.maxHealth)
    ensures p == StoppingTime ==> r == b.(timeStopped := b.timeStop, timeStop := false)
    ensures p == Ticking ==> r == Tick(b)
  {
    match p
    case Ticking => Tick(b)
    case Clamping => ClampHealth(b)
    case StoppingTime => b.(timeStopped := b.timeStop, timeStop := false)
  }

  /** The arena after the pass has visited every being of `s` once. */
  function PassAll(m: map<BeingId, Being>, s: set<BeingId>, p: Pass): (r: map<BeingId, Being>)
    ensures SameShape(m, r)
  {
    map id | id in m :: if id in s then Apply(p, m[id]) else m[id]
  }

  /** Visiting one more being, not visited before, extends the pass to it. */
  lemma PassStep(m: map<BeingId, Being>, s: set<BeingId>, p: Pass, id: BeingId)
    requires id in m && id !in s
    ensures PassAll(m, s, p)[id := Apply(p, PassAll(m, s, p)[id])] == PassAll(m, s + {id}, p)
  {
  }

  /** The position `i` of a roster without repetitions is not among the ones before it. */
  lemma DistinctStep(ids: seq<BeingId>, i: nat)
    requires Distinct(ids) && i < |ids|
    ensures ids[i] !in Members(ids[..i]) && Members(ids[..i + 1]) == Members(ids[..i]) + {ids[i]}
  {
    assert ids[..i + 1] == ids[..i] + [ids[i]];
    forall k | 0 <= k < i ensures ids[..i][k] != ids[i] {
      assert ids[..i][k] == ids[k];
    }
  }

  /** `args.state.beings.each { |b| ... }` for the tick and the clamp. */
  method EachBeing(st: State, p: Pass)
    requires st.Valid()
    modifies st`arena
    ensures st.Valid() && st.arena == PassAll(old(st.arena), Members(st.beings), p)
  {
    ghost var before := st.arena;
    ghost var done: set<BeingId> := {};
    var i := 0;
    assert Members(st.beings[..0]) == {};
    assert PassAll(before, {}, p) == before;
    while i < |st.beings|
      invariant 0 <= i <= |st.beings| && st.Valid()
      invariant st.arena == PassAll(before, done, p) && done == Members(st.beings[..i])
    {
      var id := st.beings[i];
      DistinctStep(st.beings, i);
      PassStep(before, done, p, id);
      Put(st, id, Apply(p, st.arena[id]));
      done := done + {id};
      i := i + 1;
    }
    assert st.beings[..i] == st.beings;
  }

  /**
    The loop of lines 139-144: each being's pending time stop becomes its
    current one, and the frame learns whether anyone stopped time.
   */
  method TransferTimeStops(st: State) returns (stopped: bool)
    requires st.Valid()
    modifies st`arena
    ensures st.Valid() && st.arena == PassAll(old(st.arena), Members(st.beings), StoppingTime)
    ensures stopped == AnyHas(st.beings, old(st.arena), TimeStopFlag)
  {
    ghost var before := st.arena;
    ghost var done: set<BeingId> := {};
    stopped := false;
    var i := 0;
    assert Members(st.beings[..0]) == {};
    assert PassAll(before, {}, StoppingTime) == before;
    while i < |st.beings|
      invariant 0 <= i <= |st.beings| && st.Valid()
      invariant st.arena == PassAll(before, done, StoppingTime) && done == Members(st.beings[..i])
      invariant stopped == AnyHas(st.beings[..i], before, TimeStopFlag)
    {
      var id := st.beings[i];
      assert st.beings[..i + 1][..i] == st.beings[..i];
      DistinctStep(st.beings, i);
      PassStep(before, done, StoppingTime, id);
      assert st.arena[id] == before[id];
      stopped := stopped || st.arena[id].timeStop;
      Put(st, id, Apply(StoppingTime, st.arena[id]));
      done := done + {id};
      i := i + 1;
    }
    assert st.beings[..i] == st.beings;
  }

  /** Lines 17-20: a haste round in which nobody is hasted is skipped. */
  function NextHaste(haste: bool, timeStopped: bool, someHasted: bool): (h: bool)
    ensures h ==> haste
    ensures !h <==> !haste || (!timeStopped && !someHasted)
  {
    if !timeStopped && haste && !someHasted then false else haste
  }

  /**
    Lines 14-26: whether this is a time-stop frame, the haste flag, and the
    tick of every being of the roster exactly when the frame is neither a
    time-stop nor a haste frame.
   */
  method BeginFrame(st: State) returns (timeStopped: bool)
    requires st.Valid()
    modifies st`haste, st`arena
    ensures st.Valid() && SameShape(old(st.arena), st.arena)
    ensures st.Snap() == Begun(old(st.Snap()))
    ensures timeStopped == AnyHas(st.beings, old(st.arena), TimeStoppedFlag)
    ensures st.haste == NextHaste(old(st.haste), timeStopped, AnyHas(st.beings, old(st.arena), HasteFlag))
    ensures !timeStopped && !st.haste ==> st.arena == PassAll(old(st.arena), Members(st.beings), Ticking)
    ensures timeStopped || st.haste ==> st.arena == old(st.arena)
  {
    timeStopped := AnyHas(st.beings, st.arena, TimeStoppedFlag);
    st.haste := NextHaste(st.haste, timeStopped, AnyHas(st.beings, st.arena, HasteFlag));
    if !timeStopped && !st.haste {
      EachBeing(st, Ticking);
    }
  }

  /**
    The state lines 14-26 leave, as a value: the haste flag after the
    skip of an empty haste round, and every roster being ticked exactly
    when the frame is neither a time-stop nor a haste frame.
   */
  ghost function Begun(w: Snapshot): (r: Snapshot)
    requires w.Sound()
    ensures r.Sound()
  {
    var ts := AnyHas(w.beings, w.arena, TimeStoppedFlag);
    var h := NextHaste(w.haste, ts, AnyHas(w.beings, w.arena, HasteFlag));
    var r := w.(haste := h, arena := if !ts && !h then PassAll(w.arena, Members(w.beings), Ticking) else w.arena);
    assert SameShape(w.arena, r.arena);
    r
  }

  /** Lines 33 and 117: a being that does not act in this frame. */
  predicate Skipped(timeStopped: bool, haste: bool, b: Being)
  {
    (timeStopped && !b.timeStopped) || (!timeStopped && haste && !Hasted(b))
  }

  /** Line 94: a warlock is done when it is skipped or has both hands chosen and targeted. */
  predicate Done(timeStopped: bool, haste: bool, b: Being)
    requires b.role.Warlock?
  {
    Skipped(timeStopped, haste, b) || ReadyToResolve(b)
  }

  /** Each choice has its target: what the input steps guarantee for a warlock whose choices are read. */
  predicate Paired(b: Being)
  {
    b.role.Warlock? && |b.role.choices| <= |b.role.targets|
  }

  /**
    The choices and targets the input steps of lines 37-91 leave: at most
    two choices, and at most one more choice than targets (a spell picked
    whose target is still to come).
   */
  predicate Entered(b: Being)
  {
    b.role.Warlock? && |b.role.choices| <= 2 && |b.role.choices| <= |b.role.targets| + 1
  }

  /** Every choice is an option of the menu. */
  predicate InMenu(cs: seq<nat>)
  {
    forall j :: 0 <= j < |cs| ==> cs[j] <= MenuSize
  }

  /**
    Lines 100-106 for one warlock: one action per choice other than
    "Nothing" (option 0), used by the warlock on the target chosen for the
    same hand.
   */
  function Chosen(w: BeingId, cs: seq<nat>, ts: seq<BeingId>): (r: seq<Action>)
    requires |cs| <= |ts| && InMenu(cs)
    ensures AllChoosable(r) && |r| <= |cs|
    ensures forall x :: x in r ==> x.origin == x.user == Some(w)
    decreases |cs|
  {
    if cs == [] then []
    else
      var n := |cs| - 1;
      var rest := Chosen(w, cs[..n], ts);
      if cs[n] == 0 then rest else rest + [MenuAction(cs[n], w, ts[n])]
  }

  /** Exactly the choices other than "Nothing" become actions. */
  lemma {:induction false} ChosenCount(w: BeingId, cs: seq<nat>, ts: seq<BeingId>)
    requires |cs| <= |ts| && InMenu(cs)
    ensures |Chosen(w, cs, ts)| == |cs| - multiset(cs)[0]
    decreases |cs|
  {
    if cs != [] {
      var n := |cs| - 1;
      assert cs == cs[..n] + [cs[n]];
      ChosenCount(w, cs[..n], ts);
    }
  }

  /** Every choice other than "Nothing" is among the actions built. */
  lemma {:induction false} ChosenComplete(w: BeingId, cs: seq<nat>, ts: seq<BeingId>, j: nat)
    requires |cs| <= |ts| && InMenu(cs)
    requires j < |cs| && cs[j] >= 1
    ensures MenuAction(cs[j], w, ts[j]) in Chosen(w, cs, ts)
    decreases |cs|
  {
    var n := |cs| - 1;
    var rest := Chosen(w, cs[..n], ts);
    if j < n {
      assert cs[..n][j] == cs[j];
      ChosenComplete(w, cs[..n], ts, j);
      assert MenuAction(cs[j], w, ts[j]) in rest;
    } else {
      assert Chosen(w, cs, ts) == rest + [MenuAction(cs[j], w, ts[j])];
    }
  }

  /** Every action built comes from a choice other than "Nothing". */
  lemma {:induction false} ChosenSound(w: BeingId, cs: seq<nat>, ts: seq<BeingId>, x: Action) returns (j: nat)
    requires |cs| <= |ts| && InMenu(cs)
    requires x in Chosen(w, cs, ts)
    ensures j < |cs| && 1 <= cs[j] && x == MenuAction(cs[j], w, ts[j])
    decreases |cs|
  {
    var n := |cs| - 1;
    if x in Chosen(w, cs[..n], ts) {
      j := ChosenSound(w, cs[..n], ts, x);
      assert cs[j] == cs[..n][j];
    } else {
      j := n;
    }
  }

  /** The actions built for a warlock of the arena, on targets of the arena, are well formed. */
  lemma ChosenOk(w: BeingId, cs: seq<nat>, ts: seq<BeingId>, ids: set<BeingId>)
    requires |cs| <= |ts| && InMenu(cs)
    requires w in ids && forall t :: t in ts ==> t in ids
    ensures forall x :: x in Chosen(w, cs, ts) ==> ActionOk(x, ids)
  {
    forall x | x in Chosen(w, cs, ts) ensures ActionOk(x, ids) {
      var j := ChosenSound(w, cs, ts, x);
      assert ts[j] in ts;
    }
  }

  /** A well-formed warlock's choices are options of the menu. */
  lemma RoleInMenu(r: Role, ids: set<BeingId>)
    requires r.Warlock? && RoleOk(r, ids)
    ensures InMenu(r.choices)
  {
    forall j | 0 <= j < |r.choices| ensures r.choices[j] <= MenuSize {
      assert r.choices[j] in r.choices;
    }
  }

  /** The actions warlock `w` has chosen, as `Chosen` reads them from its record. */
  function ChoicesOf(arena: map<BeingId, Being>, w: BeingId): (r: seq<Action>)
    requires w in arena && Paired(arena[w]) && RoleOk(arena[w].role, arena.Keys)
    ensures forall x :: x in r ==> ActionOk(x, arena.Keys) && x.origin == x.user == Some(w)
    ensures AllChoosable(r)
  {
    var role := arena[w].role;
    RoleInMenu(role, arena.Keys);
    ChosenOk(w, role.choices, role.targets, arena.Keys);
    Chosen(w, role.choices, role.targets)
  }

  /** The each_with_index loop of lines 100-106 for one warlock. */
  method CollectOf(w: BeingId, cs: seq<nat>, ts: seq<BeingId>) returns (q: seq<Action>)
    requires |cs| <= |ts| && InMenu(cs)
    ensures q == Chosen(w, cs, ts)
  {
    q := [];
    var j := 0;
    while j < |cs|
      invariant 0 <= j <= |cs|
      invariant q == Chosen(w, cs[..j], ts)
    {
      assert cs[..j + 1][..j] == cs[..j];
      if cs[j] >= 1 {
        q := q + [MenuAction(cs[j], w, ts[j])];
      }
      j := j + 1;
    }
    assert cs[..j] == cs;
  }

  /** A being that attacks at the end of the queue: an acting monster with health left. */
  predicate Attacks(timeStopped: bool, haste: bool, b: Being)
  {
    IsMonster(b) && b.health > 0 && !Skipped(timeStopped, haste, b)
  }

  /**
    Lines 116-123: the attack of every monster of the roster that acts in
    this frame and has health left, in roster order.
   */
  function MonsterAttacks(ids: seq<BeingId>, arena: map<BeingId, Being>, timeStopped: bool, haste: bool): (r: seq<Action>)
    ensures forall x :: x in r ==>
      && !IsSpell(x.kind) && x.user.Some? && x.user.value in ids && x.user.value in arena
      && Attacks(timeStopped, haste, arena[x.user.value]) && x == AttackOf(x.user.value, arena[x.user.value])
    decreases |ids|
  {
    if ids == [] then []
    else
      var n := |ids| - 1;
      var rest := MonsterAttacks(ids[..n], arena, timeStopped, haste);
      assert forall x :: x in rest ==> x.user.value in ids by {
        forall x | x in rest ensures x.user.value in ids {
          var k :| 0 <= k < n && ids[..n][k] == x.user.value;
          assert ids[k] == x.user.value;
        }
      }
      var id := ids[n];
      if id in arena && Attacks(timeStopped, haste, arena[id]) then rest + [AttackOf(id, arena[id])] else rest
  }

  /** Every acting monster of the roster with health left attacks. */
  lemma {:induction false} MonsterAttacksComplete(ids: seq<BeingId>, arena: map<BeingId, Being>, timeStopped: bool, haste: bool, id: BeingId)
    requires id in ids && id in arena && Attacks(timeStopped, haste, arena[id])
    ensures AttackOf(id, arena[id]) in MonsterAttacks(ids, arena, timeStopped, haste)
    decreases |ids|
  {
    var n := |ids| - 1;
    if ids[n] != id {
      assert ids == ids[..n] + [ids[n]];
      MonsterAttacksComplete(ids[..n], arena, timeStopped, haste, id);
    }
  }

  /** The monster attacks are well formed queue entries. */
  lemma MonsterAttacksOk(ids: seq<BeingId>, arena: map<BeingId, Being>, timeStopped: bool, haste: bool)
    requires ArenaOk(arena)
    ensures forall x :: x in MonsterAttacks(ids, arena, timeStopped, haste) ==> ActionOk(x, arena.Keys)
  {
    forall x | x in MonsterAttacks(ids, arena, timeStopped, haste) ensures ActionOk(x, arena.Keys) {
      assert RoleOk(arena[x.user.value].role, arena.Keys);
    }
  }

  /** The roster loop of lines 116-123. */
  method AppendMonsterAttacks(st: State, timeStopped: bool)
    requires st.Valid()
    modifies st`actions
    ensures st.Valid()
    ensures st.actions == old(st.actions) + MonsterAttacks(st.beings, st.arena, timeStopped, st.haste)
  {
    ghost var q := st.actions;
    var i := 0;
    assert q + [] == q;
    while i < |st.beings|
      invariant 0 <= i <= |st.beings| && st.Valid()
      invariant st.actions == q + MonsterAttacks(st.beings[..i], st.arena, timeStopped, st.haste)
    {
      var id := st.beings[i];
      var b := st.arena[id];
      assert st.beings[..i + 1][..i] == st.beings[..i];
      ghost var done := MonsterAttacks(st.beings[..i], st.arena, timeStopped, st.haste);
      if Attacks(timeStopped, st.haste, b) {
        assert RoleOk(b.role, st.arena.Keys);
        assert MonsterAttacks(st.beings[..i + 1], st.arena, timeStopped, st.haste) == done + [AttackOf(id, b)];
        Enqueue(st, AttackOf(id, b));
        assert st.actions == q + (done + [AttackOf(id, b)]);
      } else {
        assert MonsterAttacks(st.beings[..i + 1], st.arena, timeStopped, st.haste) == done;
      }
      i := i + 1;
    }
    assert st.beings[..i] == st.beings;
  }

  /** Lines 99-107: the actions chosen by west, then by east. */
  method CollectChoices(st: State) returns (built: seq<Action>)
    requires st.Valid() && Paired(st.arena[st.west]) && Paired(st.arena[st.east])
    ensures built == ChoicesOf(st.arena, st.west) + ChoicesOf(st.arena, st.east)
  {
    var w := st.arena[st.west].role;
    var e := st.arena[st.east].role;
    assert RoleOk(w, st.arena.Keys) && RoleOk(e, st.arena.Keys);
    RoleInMenu(w, st.arena.Keys);
    RoleInMenu(e, st.arena.Keys);
    var fromWest := CollectOf(st.west, w.choices, w.targets);
    var fromEast := CollectOf(st.east, e.choices, e.targets);
    built := fromWest + fromEast;
  }

  /**
    Lines 97-123 up to the drain: the chosen actions of both warlocks, west's
    first, sorted by class order; the log cleared when a warlock acted this
    frame; then the monster attacks appended unsorted.
   */
  method StartRound(st: State, timeStopped: bool, wizardActed: bool)
    requires st.Valid() && Paired(st.arena[st.west]) && Paired(st.arena[st.east])
    modifies st`actions, st`result
    ensures st.Valid() && st.Snap() == Started(old(st.Snap()), timeStopped, wizardActed)
    ensures st.actions ==
      Sort(ChoicesOf(st.arena, st.west) + ChoicesOf(st.arena, st.east)) + MonsterAttacks(st.beings, st.arena, timeStopped, st.haste)
    ensures st.result == if wizardActed then [] else old(st.result)
  {
    var built := CollectChoices(st);
    var sorted := Sort(built);
    assert forall x :: x in sorted ==> x in built by {
      forall x | x in sorted ensures x in built {
        assert multiset(sorted)[x] > 0;
      }
    }
    st.actions := sorted;
    if wizardActed {
      st.result := [];
    }
    AppendMonsterAttacks(st, timeStopped);
  }

  /** The state lines 97-123 leave, as a value: `StartRound` on a snapshot. */
  ghost function Started(w: Snapshot, timeStopped: bool, wizardActed: bool): Snapshot
    requires w.Sound() && Paired(w.arena[w.west]) && Paired(w.arena[w.east])
  {
    w.(actions := Sort(ChoicesOf(w.arena, w.west) + ChoicesOf(w.arena, w.east)) + MonsterAttacks(w.beings, w.arena, timeStopped, w.haste),
       result := if wizardActed then [] else w.result)
  }

  /**
    `while action = args.state.actions.shift; action.resolve args; end`.
    Each pass takes the first entry off and resolves it; the queue's weight
    drops every pass, so the loop ends, with the queue empty, unless an
    attack with no target is met.
   */
  method Drain(st: State) returns (failed: Option<Action>, ghost trace: seq<Snapshot>)
    requires st.Valid()
    modifies st`arena, st`beings, st`nextId, st`actions, st`result
    ensures st.Valid()
    ensures failed.None? ==> st.actions == []
    ensures failed.Some? ==> failed.value.kind.Attack? && failed.value.target.None?
    ensures Run(trace, old(st.Snap()), st.Snap())
  {
    failed := None;
    trace := [st.Snap()];
    while st.actions != []
      invariant st.Valid() && Run(trace, old(st.Snap()), st.Snap())
      decreases Weight(st.actions)
    {
      ghost var w := st.Snap();
      var a, ok := ShiftAndResolve(st);
      RunSnoc(trace, old(st.Snap()), w, st.Snap());
      trace := trace + [st.Snap()];
      if !ok {
        return Some(a), trace;
      }
    }
  }

  /** One pass of the loop: `actions.shift`, then `action.resolve args`. */
  method ShiftAndResolve(st: State) returns (a: Action, ok: bool)
    requires st.Valid() && st.actions != []
    modifies st`arena, st`beings, st`nextId, st`actions, st`result
    ensures st.Valid() && Step(old(st.Snap()), st.Snap())
    ensures a == old(st.actions)[0] && (ok <==> !(a.kind.Attack? && a.target.None?))
    ensures Weight(st.actions) < Weight(old(st.actions))
  {
    var q := st.actions;
    a := q[0];
    assert a in q;
    assert Weight(q) == Weight(q[1..]) + 1 + (if IsSpell(a.kind) then 1 else 0);
    assert a.kind == Cast(MagicMirror) ==> Unswapped(q);
    ReflectionSafeKept(q, q[1..]);
    st.actions := q[1..];
    ok := Resolve(st, a);
  }

  /** `trace` runs from `w` to `v`, one pass of the queue loop at a time. */
  ghost predicate Run(trace: seq<Snapshot>, w: Snapshot, v: Snapshot)
  {
    && |trace| > 0 && trace[0] == w && trace[|trace| - 1] == v
    && forall i :: 0 <= i < |trace| - 1 ==> Step(trace[i], trace[i + 1])
  }

  /** One more pass extends a run. */
  lemma RunSnoc(trace: seq<Snapshot>, w: Snapshot, v: Snapshot, u: Snapshot)
    requires Run(trace, w, v) && Step(v, u)
    ensures Run(trace + [u], w, u)
  {
    var t := trace + [u];
    forall i | 0 <= i < |t| - 1 ensures Step(t[i], t[i + 1]) {
      if i < |trace| - 1 {
        assert t[i] == trace[i] && t[i + 1] == trace[i + 1];
      }
    }
  }

  /**
    One pass of the queue loop: the first pending entry is shifted off and
    resolved by the rule of its class.
   */
  ghost predicate Step(w: Snapshot, v: Snapshot)
  {
    && w.Sound() && w.actions != []
    && var a := w.actions[0];
       var u := w.(actions := w.actions[1..]);
       u.Sound() && ActionOk(a, u.arena.Keys) && Rule(a, u, v)
  }

  /** Lines 135-136 on an arena: both warlocks' choices are cleared; their targets stay. */
  function Cleared(m: map<BeingId, Being>, w: BeingId, e: BeingId): (r: map<BeingId, Being>)
    requires w in m && e in m && m[w].role.Warlock? && m[e].role.Warlock?
  {
    m[w := m[w].(role := Warlock([], m[w].role.targets))][e := m[e].(role := Warlock([], m[e].role.targets))]
  }

  /** The arena after lines 130-144: the roster clamped, the choices cleared, the time stop handed on. */
  function EndArena(m: map<BeingId, Being>, s: set<BeingId>, w: BeingId, e: BeingId): map<BeingId, Being>
    requires w in m && e in m && m[w].role.Warlock? && m[e].role.Warlock?
  {
    PassAll(Cleared(PassAll(m, s, Clamping), w, e), s, StoppingTime)
  }

  /**
    After the round every being of the roster has its health within
    [0, max_health], time stopped exactly if it had stopped time, and no
    pending time stop; both warlocks have no choices left.
   */
  lemma EndArenaFacts(m: map<BeingId, Being>, s: set<BeingId>, w: BeingId, e: BeingId, id: BeingId)
    requires w in m && e in m && w != e && m[w].role.Warlock? && m[e].role.Warlock?
    requires id in m && id in s && m[id].maxHealth >= 0
    ensures var r := EndArena(m, s, w, e);
      && 0 <= r[id].health <= r[id].maxHealth
      && r[id].timeStopped == m[id].timeStop && !r[id].timeStop
  {
  }

  /** The warlocks keep their targets and lose their choices. */
  lemma EndArenaWarlocks(m: map<BeingId, Being>, s: set<BeingId>, w: BeingId, e: BeingId)
    requires w in m && e in m && w != e && m[w].role.Warlock? && m[e].role.Warlock?
    ensures EndArena(m, s, w, e)[w].role == Warlock([], m[w].role.targets)
    ensures EndArena(m, s, w, e)[e].role == Warlock([], m[e].role.targets)
  {
  }

  /** Clamping and clearing choices leave every pending time stop as it was. */
  lemma ClearedKeepsTimeStops(m: map<BeingId, Being>, s: set<BeingId>, w: BeingId, e: BeingId, ids: seq<BeingId>)
    requires w in m && e in m && m[w].role.Warlock? && m[e].role.Warlock?
    ensures AnyHas(ids, Cleared(PassAll(m, s, Clamping), w, e), TimeStopFlag) == AnyHas(ids, m, TimeStopFlag)
  {
    var c := Cleared(PassAll(m, s, Clamping), w, e);
    assert forall id :: id in m <==> id in c;
    assert forall id :: id in m ==> c[id].timeStop == m[id].timeStop;
  }

  /** Lines 135-136: both warlocks' choices are cleared; their targets stay. */
  method ClearChoices(st: State)
    requires st.Valid()
    modifies st`arena
    ensures st.Valid() && st.arena == Cleared(old(st.arena), st.west, st.east)
  {
    var w := st.arena[st.west];
    assert RoleOk(w.role, st.arena.Keys);
    Reshape(st, st.west, w.(role := Warlock([], w.role.targets)));
    var e := st.arena[st.east];
    assert RoleOk(e.role, st.arena.Keys);
    Reshape(st, st.east, e.(role := Warlock([], e.role.targets)));
  }

  /** The state lines 130-149 leave, as a value: `EndRound` on a snapshot. */
  ghost function Ended(v: Snapshot): Snapshot
    requires v.Sound()
  {
    v.(arena := EndArena(v.arena, Members(v.beings), v.west, v.east),
       haste := if AnyHas(v.beings, v.arena, TimeStopFlag) then v.haste else !v.haste)
  }

  /** Lines 130-149: clamp health, clear the choices, hand the time stop on, flip the haste flag unless time stopped. */
  method EndRound(st: State)
    requires st.Valid()
    modifies st`arena, st`haste
    ensures st.Valid() && st.Snap() == Ended(old(st.Snap()))
    ensures st.arena == EndArena(old(st.arena), Members(st.beings), st.west, st.east)
    ensures st.haste == if AnyHas(st.beings, old(st.arena), TimeStopFlag) then old(st.haste) else !old(st.haste)
  {
    EachBeing(st, Clamping);
    ClearChoices(st);
    ClearedKeepsTimeStops(old(st.arena), Members(st.beings), st.west, st.east, st.beings);
    var stopped := TransferTimeStops(st);
    if !stopped {
      st.haste := !st.haste;
    }
  }

  /**
    A warlock that is done when the round resolves has a target for every
    choice: a ready one has entered both hands, and one skipped now was
    skipped when the frame began (beginning a frame only ends skipping).
   */
  lemma DonePaired(timeStopped: bool, haste: bool, b: Being, b0: Being, haste0: bool)
    requires b0.role.Warlock? && Entered(b0) && b.role == b0.role
    requires Skipped(timeStopped, haste0, b0) ==> Paired(b0)
    requires Skipped(timeStopped, haste, b) ==> b == b0 && (haste ==> haste0)
    requires Done(timeStopped, haste, b)
    ensures Paired(b)
  {
  }

  /**
    Lines 97-150, once both warlocks are done: the queue is built, sorted
    and drained, then the round ends; the result says whether an attack with
    no target stopped the queue loop.
   */
  method ResolveRound(st: State, timeStopped: bool, wizardActed: bool) returns (failed: Option<Action>, ghost trace: seq<Snapshot>)
    requires st.Valid() && Paired(st.arena[st.west]) && Paired(st.arena[st.east])
    modifies st
    ensures st.Valid()
    ensures |trace| > 0 && Run(trace, Started(old(st.Snap()), timeStopped, wizardActed), trace[|trace| - 1]) && trace[|trace| - 1].Sound()
    ensures failed.Some? ==> st.Snap() == trace[|trace| - 1]
    ensures failed.None? ==> trace[|trace| - 1].actions == [] && st.Snap() == Ended(trace[|trace| - 1])
    ensures failed.Some? ==> failed.value.kind.Attack? && failed.value.target.None?
    ensures failed.None? ==>
      && st.actions == []
      && (forall id :: id in st.beings ==> 0 <= st.arena[id].health <= st.arena[id].maxHealth && !st.arena[id].timeStop)
      && st.arena[st.west].role.choices == [] && st.arena[st.east].role.choices == []
  {
    StartRound(st, timeStopped, wizardActed);
    failed, trace := Drain(st);
    if failed.Some? {
      return;
    }
    ghost var m := st.arena;
    EndRound(st);
    EndArenaWarlocks(m, Members(st.beings), st.west, st.east);
    forall id | id in st.beings
      ensures 0 <= st.arena[id].health <= st.arena[id].maxHealth && !st.arena[id].timeStop
    {
      EndArenaFacts(m, Members(st.beings), st.west, st.east, id);
    }
  }

  /**
    One frame. The round resolves when both warlocks are done; then the
    result says whether the queue drained or an attack with no target
    stopped it.
   */
  method Frame(st: State) returns (resolved: bool, failed: Option<Action>, ghost trace: seq<Snapshot>)
    requires st.Valid() && Entered(st.arena[st.west]) && Entered(st.arena[st.east])
    requires var ts := AnyHas(st.beings, st.arena, TimeStoppedFlag);
      && (Skipped(ts, st.haste, st.arena[st.west]) ==> Paired(st.arena[st.west]))
      && (Skipped(ts, st.haste, st.arena[st.east]) ==> Paired(st.arena[st.east]))
    modifies st
    ensures st.Valid()
    ensures !resolved ==>
      var ts := AnyHas(st.beings, old(st.arena), TimeStoppedFlag);
      !(Done(ts, st.haste, st.arena[st.west]) && Done(ts, st.haste, st.arena[st.east]))
    ensures !resolved ==> failed.None? && st.actions == old(st.actions) && st.beings == old(st.beings) && st.result == old(st.result)
    ensures failed.Some? ==> resolved && failed.value.kind.Attack? && failed.value.target.None?
    ensures !resolved ==> st.Snap() == Begun(old(st.Snap()))
    ensures resolved ==>
      var b := Begun(old(st.Snap()));
      var ts := AnyHas(old(st.beings), old(st.arena), TimeStoppedFlag);
      var acted := !Skipped(ts, b.haste, b.arena[b.west]) || !Skipped(ts, b.haste, b.arena[b.east]);
      && Paired(b.arena[b.west]) && Paired(b.arena[b.east])
      && |trace| > 0 && Run(trace, Started(b, ts, acted), trace[|trace| - 1]) && trace[|trace| - 1].Sound()
      && (failed.Some? ==> st.Snap() == trace[|trace| - 1])
      && (failed.None? ==> trace[|trace| - 1].actions == [] && st.Snap() == Ended(trace[|trace| - 1]))
    ensures resolved && failed.None? ==>
      && st.actions == []
      && (forall id :: id in st.beings ==> 0 <= st.arena[id].health <= st.arena[id].maxHealth && !st.arena[id].timeStop)
      && st.arena[st.west].role.choices == [] && st.arena[st.east].role.choices == []
  {
    failed, trace := None, [];
    var timeStopped := BeginFrame(st);
    var w, e := st.arena[st.west], st.arena[st.east];
    resolved := Done(timeStopped, st.haste, w) && Done(timeStopped, st.haste, e);
    if !resolved {
      return;
    }
    DonePaired(timeStopped, st.haste, w, old(st.arena)[st.west], old(st.haste));
    DonePaired(timeStopped, st.haste, e, old(st.arena)[st.east], old(st.haste));
    var wizardActed := !Skipped(timeStopped, st.haste, w) || !Skipped(timeStopped, st.haste, e);
    failed, trace := ResolveRound(st, timeStopped, wizardActed);
  }

}
