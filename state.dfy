/**
  The duel state that `args.state` holds: the roster, the arena of every
  being ever created, the pending queue, the result log, the two warlocks
  and the haste flag.
 */
module Duel {
  import opened Wrappers
  import opened Beings
  import opened Actions
  import opened Queue

  /** One result line, by kind; the text itself is presentation. */
  datatype Event =
    | Described(action: Action)      // the action's own description
    | DoesNothing(action: Action)    // "<name> does nothing"
    | Cancelled(action: Action)
    | Reflected(action: Action)
    | InvalidTarget(action: Action)
    | NoEffect(action: Action)       // "... with no effect"
    | Healed(action: Action)         // "... (5)"
    | Dispelled(being: BeingId)
    | Destroyed(being: BeingId)
    | Paralyzed(being: BeingId)
    | Struck(attacker: BeingId, victim: BeingId, strength: int, landed: bool)  // "(shielded)"/"(resisted)" unless landed

  function CancelledAll(s: seq<Action>): (r: seq<Event>)
    ensures |r| == |s| && forall i :: 0 <= i < |s| ==> r[i] == Cancelled(s[i])
  {
    seq(|s|, i requires 0 <= i < |s| => Cancelled(s[i]))
  }

  function DescribedAll(s: seq<Action>): (r: seq<Event>)
    ensures |r| == |s| && forall i :: 0 <= i < |s| ==> r[i] == Described(s[i])
  {
    seq(|s|, i requires 0 <= i < |s| => Described(s[i]))
  }

  predicate RefIn(o: Option<BeingId>, ids: set<BeingId>) { o.Some? ==> o.value in ids }

  /** The references a being holds point into the arena; a warlock's choices index the menu. */
  predicate RoleOk(r: Role, ids: set<BeingId>)
  {
    match r
    case Warlock(choices, targets) =>
      (forall c :: c in choices ==> c <= MenuSize) && (forall t :: t in targets ==> t in ids)
    case Minion(c, t, _) => RefIn(c, ids) && RefIn(t, ids)
    case Elemental(_, _) => true
  }

  /**
    A queue entry as the engine builds it: its references are beings of the
    arena, only `DispelMonsters` has no user, and a menu action has a target
    exactly when its class has a default target.
   */
  predicate ActionOk(a: Action, ids: set<BeingId>)
  {
    && RefIn(a.origin, ids) && RefIn(a.user, ids) && RefIn(a.target, ids)
    && (a.kind.DispelMonsters? <==> a.user.None?)
    && (a.user.Some? ==> a.origin.Some?)
    && (Choosable(a.kind) ==> (a.target.Some? <==> DefaultTarget(a.kind).Some?))
  }

  predicate Distinct(s: seq<BeingId>)
  {
    forall i, j :: 0 <= i < j < |s| ==> s[i] != s[j]
  }

  /** The roster ids that `reject! { is_a? Monster }` keeps, in roster order. */
  function Warlocks(ids: seq<BeingId>, arena: map<BeingId, Being>): (r: seq<BeingId>)
    requires forall id :: id in ids ==> id in arena
    ensures forall id :: id in r <==> id in ids && !IsMonster(arena[id])
    ensures Subsequence(r, ids)
    ensures Distinct(ids) ==> Distinct(r)
  {
    if ids == [] then []
    else
      var rest := Warlocks(ids[1..], arena);
      assert forall id :: id in ids[1..] ==> id in ids;
      if IsMonster(arena[ids[0]]) then
        SubsequenceSkip(rest, ids);
        rest
      else
        assert Distinct(ids) ==> ids[0] !in ids[1..];
        assert ([ids[0]] + rest)[1..] == rest;
        [ids[0]] + rest
  }

  /** The roster ids it removes, in roster order. */
  function Monsters(ids: seq<BeingId>, arena: map<BeingId, Being>): (r: seq<BeingId>)
    requires forall id :: id in ids ==> id in arena
    ensures forall id :: id in r <==> id in ids && IsMonster(arena[id])
    ensures Subsequence(r, ids)
  {
    if ids == [] then []
    else
      var rest := Monsters(ids[1..], arena);
      if IsMonster(arena[ids[0]]) then
        assert ([ids[0]] + rest)[1..] == rest;
        [ids[0]] + rest
      else
        SubsequenceSkip(rest, ids);
        rest
  }

  /** `beings.select { |b| b.is_a?(Elemental) && b.element == e }`. */
  function ElementalsOf(ids: seq<BeingId>, arena: map<BeingId, Being>, e: Element): (r: seq<BeingId>)
    requires forall id :: id in ids ==> id in arena
    ensures forall id :: id in r <==> id in ids && IsElemental(arena[id], e)
    ensures |r| <= |ids|
    ensures Subsequence(r, ids)
  {
    if ids == [] then []
    else
      var rest := ElementalsOf(ids[1..], arena, e);
      if IsElemental(arena[ids[0]], e) then
        assert ([ids[0]] + rest)[1..] == rest;
        [ids[0]] + rest
      else
        SubsequenceSkip(rest, ids);
        rest
  }

  /** `existing[element].first` is the first elemental of `e` in roster order: none comes before it. */
  lemma {:induction false} ElementalsOfFirst(ids: seq<BeingId>, arena: map<BeingId, Being>, e: Element)
    requires forall id :: id in ids ==> id in arena
    ensures var r := ElementalsOf(ids, arena, e);
      r != [] ==> exists k :: 0 <= k < |ids| && ids[k] == r[0] && FirstElementalAt(ids, arena, e, k)
  {
    if ids != [] && !IsElemental(arena[ids[0]], e) {
      var rest := ElementalsOf(ids[1..], arena, e);
      ElementalsOfFirst(ids[1..], arena, e);
      if rest != [] {
        var k :| 0 <= k < |ids[1..]| && ids[1..][k] == rest[0] && FirstElementalAt(ids[1..], arena, e, k);
        forall j | 0 <= j < k + 1 ensures !IsElemental(arena[ids[j]], e) {
          if j > 0 { assert ids[j] == ids[1..][j - 1]; }
        }
        assert ids[k + 1] == rest[0] && FirstElementalAt(ids, arena, e, k + 1);
      }
    } else if ids != [] {
      assert FirstElementalAt(ids, arena, e, 0);
    }
  }

  /** No being before position `k` of `ids` is an elemental of `e`. */
  predicate FirstElementalAt(ids: seq<BeingId>, arena: map<BeingId, Being>, e: Element, k: nat)
    requires k <= |ids| && forall id :: id in ids ==> id in arena
  {
    forall j :: 0 <= j < k ==> !IsElemental(arena[ids[j]], e)
  }

  /** How many of `ids` have health above zero. */
  function LivingCount(ids: seq<BeingId>, arena: map<BeingId, Being>): (n: nat)
    requires forall id :: id in ids ==> id in arena
    ensures n <= |ids|
    ensures n == 0 <==> forall id :: id in ids ==> arena[id].health <= 0
  {
    if ids == [] then 0
    else (if arena[ids[0]].health > 0 then 1 else 0) + LivingCount(ids[1..], arena)
  }

  /** The ids a roster lists. */
  function Members(ids: seq<BeingId>): (r: set<BeingId>)
    ensures forall id :: id in r <==> id in ids
  {
    set id | id in ids
  }

  /** Every elemental on the roster, of either element. */
  function ElementalIds(ids: seq<BeingId>, arena: map<BeingId, Being>): (r: set<BeingId>)
    ensures forall id :: id in r <==> id in ids && id in arena && arena[id].role.Elemental?
  {
    set id | id in ids && id in arena && arena[id].role.Elemental?
  }

  /** No roster entry before position `k` is a warlock other than `u`. */
  predicate FirstWarlockAt(ids: seq<BeingId>, arena: map<BeingId, Being>, u: BeingId, k: nat)
    requires k <= |ids| && forall id :: id in ids ==> id in arena
  {
    forall j :: 0 <= j < k ==> !(arena[ids[j]].role.Warlock? && ids[j] != u)
  }

  /** `beings.find { |b| b.is_a?(Warlock) && b != u }`: the first match in roster order. */
  function FindWarlock(ids: seq<BeingId>, arena: map<BeingId, Being>, u: BeingId): (r: Option<BeingId>)
    requires forall id :: id in ids ==> id in arena
    ensures r.Some? ==> r.value in ids && r.value != u && arena[r.value].role.Warlock?
    ensures r.Some? ==> exists k :: 0 <= k < |ids| && ids[k] == r.value && FirstWarlockAt(ids, arena, u, k)
    ensures r.None? ==> forall id :: id in ids && id != u ==> !arena[id].role.Warlock?
  {
    if ids == [] then None
    else if arena[ids[0]].role.Warlock? && ids[0] != u then Some(ids[0])
    else
      var r := FindWarlock(ids[1..], arena, u);
      assert r.Some? ==> exists k :: 0 <= k < |ids| && ids[k] == r.value && FirstWarlockAt(ids, arena, u, k) by {
        if r.Some? {
          var k :| 0 <= k < |ids[1..]| && ids[1..][k] == r.value && FirstWarlockAt(ids[1..], arena, u, k);
          forall j | 0 <= j < k + 1 ensures !(arena[ids[j]].role.Warlock? && ids[j] != u) {
            if j > 0 { assert ids[j] == ids[1..][j - 1]; }
          }
          assert ids[k + 1] == r.value;
        }
      }
      r
  }

  /** The roster lists beings of the arena, each once. */
  predicate RosterOk(beings: seq<BeingId>, arena: map<BeingId, Being>)
  {
    (forall id :: id in beings ==> id in arena) && Distinct(beings)
  }

  /** Every being's references point into the arena, and no maximum health is negative. */
  predicate ArenaOk(arena: map<BeingId, Being>)
  {
    forall id :: id in arena ==> arena[id].maxHealth >= 0 && RoleOk(arena[id].role, arena.Keys)
  }

  /** Every pending action is well formed, and the queue is reflection-safe. */
  predicate QueueOk(actions: seq<Action>, ids: set<BeingId>)
  {
    (forall x :: x in actions ==> ActionOk(x, ids)) && ReflectionSafe(actions)
  }

  /**
    The whole of a `State` at one moment, as a value: the rule of each
    action class relates the snapshot before its `resolve` to the one after.
   */
  datatype Snapshot = Snapshot(beings: seq<BeingId>, arena: map<BeingId, Being>, actions: seq<Action>,
                               result: seq<Event>, west: BeingId, east: BeingId, haste: bool, nextId: BeingId)
  {
    /** `State.Valid`, on a snapshot. */
    ghost predicate Sound()
    {
      && RosterOk(beings, arena)
      && west in arena && east in arena && west != east
      && arena[west].role.Warlock? && arena[east].role.Warlock?
      && (forall id :: id in arena ==> id < nextId)
      && ArenaOk(arena)
      && QueueOk(actions, arena.Keys)
    }
  }

  class State {
    var beings: seq<BeingId>            // the roster, in order of creation
    var arena: map<BeingId, Being>      // every being ever created, by id
    var actions: seq<Action>            // the pending queue
    var result: seq<Event>              // the result log
    var west: BeingId
    var east: BeingId
    var haste: bool                     // whether this is a haste round
    var nextId: BeingId                 // the id the next created being gets

    ghost predicate Valid()
      reads this
    {
      && RosterOk(beings, arena)
      && west in arena && east in arena && west != east
      && arena[west].role.Warlock? && arena[east].role.Warlock?
      && (forall id :: id in arena ==> id < nextId)
      && ArenaOk(arena)
      && QueueOk(actions, arena.Keys)
    }

    /** The current state as a value. */
    ghost function Snap(): (w: Snapshot)
      reads this
      ensures w.Sound() <==> Valid()
    {
      Snapshot(beings, arena, actions, result, west, east, haste, nextId)
    }

    /** The state lines 6-12 of app/main.rb set up on the first frame. */
    constructor ()
      ensures Valid()
      ensures beings == [west, east] && west != east
      ensures arena == map[west := NewWarlock(), east := NewWarlock()]
      ensures actions == [] && result == [] && !haste
    {
      west, east := 0, 1;
      beings := [0, 1];
      arena := map[0 := NewWarlock(), 1 := NewWarlock()];
      actions := [];
      result := [];
      haste := false;
      nextId := 2;
    }
  }

  /** Two arenas hold the same beings with the same roles and maximum health. */
  predicate SameShape(m1: map<BeingId, Being>, m2: map<BeingId, Being>)
  {
    m1.Keys == m2.Keys &&
    forall id :: id in m1 ==> m2[id].role == m1[id].role && m2[id].maxHealth == m1[id].maxHealth
  }

  /** Stores an arena of the same shape: in-place updates of several beings' fields. */
  method SetArena(st: State, ar: map<BeingId, Being>)
    requires st.Valid() && SameShape(st.arena, ar)
    modifies st`arena
    ensures st.Valid() && st.arena == ar
  {
    st.arena := ar;
  }

  /** `actions.reject!` with the given block. */
  method RejectActions(st: State, sel: Selector)
    requires st.Valid()
    modifies st`actions
    ensures st.Valid() && st.actions == Reject(old(st.actions), sel)
  {
    ReflectionSafeKept(st.actions, Reject(st.actions, sel));
    st.actions := Reject(st.actions, sel);
  }

  /** `actions << x` for an action that is not a spell: a monster's attack or `DispelMonsters`. */
  method Enqueue(st: State, x: Action)
    requires st.Valid() && ActionOk(x, st.arena.Keys) && !IsSpell(x.kind)
    modifies st`actions
    ensures st.Valid() && st.actions == old(st.actions) + [x]
  {
    ReflectionSafeKept(st.actions, st.actions + [x]);
    st.actions := st.actions + [x];
  }

  /**
    Replaces one being's record by one with the same role and maximum
    health: the in-place update of a being's fields.
   */
  method Put(st: State, id: BeingId, b: Being)
    requires st.Valid() && id in st.arena
    requires b.role == st.arena[id].role && b.maxHealth == st.arena[id].maxHealth
    modifies st`arena
    ensures st.Valid() && st.arena == old(st.arena)[id := b]
  {
    st.arena := st.arena[id := b];
    assert st.arena.Keys == old(st.arena).Keys;
  }

  /**
    Replaces one being's record by one whose role may differ (a raised
    minion changes hands), keeping it a warlock if it was one.
   */
  method Reshape(st: State, id: BeingId, b: Being)
    requires st.Valid() && id in st.arena
    requires RoleOk(b.role, st.arena.Keys) && b.maxHealth >= 0
    requires st.arena[id].role.Warlock? <==> b.role.Warlock?
    modifies st`arena
    ensures st.Valid() && st.arena == old(st.arena)[id := b]
  {
    st.arena := st.arena[id := b];
    assert st.arena.Keys == old(st.arena).Keys;
  }

  /** Adds a new being at the end of the roster, under the next free id. */
  method Create(st: State, b: Being) returns (n: BeingId)
    requires st.Valid() && RoleOk(b.role, st.arena.Keys) && b.maxHealth >= 0
    modifies st`arena, st`beings, st`nextId
    ensures st.Valid()
    ensures n == old(st.nextId) && n !in old(st.arena)
    ensures st.arena == old(st.arena)[n := b] && st.beings == old(st.beings) + [n] && st.nextId == n + 1
  {
    n := st.nextId;
    assert n !in st.beings;
    st.arena := st.arena[n := b];
    st.beings := st.beings + [n];
    st.nextId := n + 1;
    assert forall x :: x in st.actions ==> ActionOk(x, st.arena.Keys) by {
      forall x | x in st.actions ensures ActionOk(x, st.arena.Keys) {
        assert ActionOk(x, old(st.arena).Keys);
      }
    }
    assert forall id :: id in st.arena ==> RoleOk(st.arena[id].role, st.arena.Keys) by {
      forall id | id in st.arena ensures RoleOk(st.arena[id].role, st.arena.Keys) {
        assert RoleOk(st.arena[id].role, old(st.arena).Keys) || id == n;
      }
    }
  }

}
