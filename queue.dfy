/**
  The resolution queue as a sequence of pending actions, and the list
  operations the resolve rules apply to it: `reject!` with a block (split
  into the entries it keeps and the ones it removes), appending, and the
  initial sort by class order.
 */
module Queue {
  import opened Wrappers
  import opened Beings
  import opened Actions

  /** The blocks that the resolve rules pass to `reject!`. */
  datatype Selector =
    | Spells                            // is_a? Spell
    | DispelMagics
    | CounteredAt(t: Option<BeingId>)   // a Spell aimed at t, other than Finger of Death
    | Mirrors
    | SummonElementals
    | SummonsOf(e: Element)
    | StormsOf(e: Element)
    | SummonsOrStorms
    | Fireballs
    | FingersOfDeath
    | RaiseDeads
    | ParalysesAt(t: Option<BeingId>)
    | UsedBy(users: set<BeingId>)       // a.user is one of these beings

  predicate Matches(sel: Selector, a: Action)
  {
    match sel
    case Spells => IsSpell(a.kind)
    case DispelMagics => a.kind == Cast(DispelMagic)
    case CounteredAt(t) => IsSpell(a.kind) && a.target == t && a.kind != Cast(FingerOfDeath)
    case Mirrors => a.kind == Cast(MagicMirror)
    case SummonElementals => IsSummonElemental(a.kind)
    case SummonsOf(e) => IsSummonElemental(a.kind) && ElementOf(a.kind) == e
    case StormsOf(e) => IsStorm(a.kind) && ElementOf(a.kind) == e
    case SummonsOrStorms => IsSummonElemental(a.kind) || IsStorm(a.kind)
    case Fireballs => a.kind == Cast(Fireball)
    case FingersOfDeath => a.kind == Cast(FingerOfDeath)
    case RaiseDeads => a.kind == Cast(RaiseDead)
    case ParalysesAt(t) => a.kind == Cast(Paralysis) && a.target == t
    case UsedBy(users) => a.user.Some? && a.user.value in users
  }

  /** Number of pending spells. */
  function SpellCount(s: seq<Action>): nat
  {
    if s == [] then 0 else (if IsSpell(s[0].kind) then 1 else 0) + SpellCount(s[1..])
  }

  lemma {:induction false} SpellCountAppend(s: seq<Action>, t: seq<Action>)
    ensures SpellCount(s + t) == SpellCount(s) + SpellCount(t)
  {
    if s == [] {
      assert s + t == t;
    } else {
      assert (s + t)[1..] == s[1..] + t;
      SpellCountAppend(s[1..], t);
    }
  }

  /** `t` is `s` with some entries left out, the others in their original order. */
  predicate Subsequence<T(==)>(t: seq<T>, s: seq<T>)
  {
    if t == [] then true
    else if s == [] then false
    else if t[0] == s[0] then Subsequence(t[1..], s[1..])
    else Subsequence(t, s[1..])
  }

  /** The entries `reject!` removes, in queue order (what its block collects). */
  function Select(s: seq<Action>, sel: Selector): (r: seq<Action>)
    ensures forall x :: x in r ==> x in s && Matches(sel, x)
    ensures |r| <= |s|
  {
    if s == [] then []
    else if Matches(sel, s[0]) then [s[0]] + Select(s[1..], sel)
    else Select(s[1..], sel)
  }

  /** The queue `reject!` leaves: every entry the block does not match, in the same order. */
  function Reject(s: seq<Action>, sel: Selector): (r: seq<Action>)
    ensures forall x :: x in r ==> x in s && !Matches(sel, x)
  {
    if s == [] then []
    else if Matches(sel, s[0]) then Reject(s[1..], sel)
    else [s[0]] + Reject(s[1..], sel)
  }

  /** `reject!` never adds entries, and never adds spells. */
  lemma {:induction false} RejectShrinks(s: seq<Action>, sel: Selector)
    ensures |Reject(s, sel)| <= |s| && SpellCount(Reject(s, sel)) <= SpellCount(s)
  {
    if s != [] {
      RejectShrinks(s[1..], sel);
      if !Matches(sel, s[0]) {
        assert ([s[0]] + Reject(s[1..], sel))[1..] == Reject(s[1..], sel);
      }
    }
  }

  /** `reject!` keeps every entry its block does not match. */
  lemma {:induction false} RejectKeeps(s: seq<Action>, sel: Selector, x: Action)
    requires x in s && !Matches(sel, x)
    ensures x in Reject(s, sel)
  {
    if s[0] != x {
      RejectKeeps(s[1..], sel, x);
    }
  }

  /** The entries the block matches are all collected. */
  lemma {:induction false} SelectCollects(s: seq<Action>, sel: Selector, x: Action)
    requires x in s && Matches(sel, x)
    ensures x in Select(s, sel)
  {
    if s[0] != x {
      SelectCollects(s[1..], sel, x);
    }
  }

  /** An entry `reject!` keeps was in the queue and is not matched by the block. */
  lemma RejectMember(s: seq<Action>, sel: Selector, x: Action)
    requires x in Reject(s, sel)
    ensures x in s && !Matches(sel, x)
  {
  }

  /** What `reject!` keeps and what it removes together make up the queue it started from. */
  lemma {:induction false} RejectPartition(s: seq<Action>, sel: Selector)
    ensures |Reject(s, sel)| + |Select(s, sel)| == |s|
    ensures multiset(Reject(s, sel)) + multiset(Select(s, sel)) == multiset(s)
  {
    if s != [] {
      assert s == [s[0]] + s[1..];
      RejectPartition(s[1..], sel);
    }
  }

  /** `reject!` keeps the order of what it keeps. */
  lemma {:induction false} RejectIsSubsequence(s: seq<Action>, sel: Selector)
    ensures Subsequence(Reject(s, sel), s)
    decreases |s|
  {
    if s != [] {
      RejectIsSubsequence(s[1..], sel);
      if Matches(sel, s[0]) {
        SubsequenceSkip(Reject(s[1..], sel), s);
      } else {
        assert ([s[0]] + Reject(s[1..], sel))[1..] == Reject(s[1..], sel);
      }
    }
  }

  lemma {:induction false} SubsequenceSkip<T>(t: seq<T>, s: seq<T>)
    requires s != [] && Subsequence(t, s[1..])
    ensures Subsequence(t, s)
    decreases |s|, 0
  {
    if t != [] && t[0] == s[0] {
      SubsequenceTail(t, s[1..]);
    }
  }

  lemma {:induction false} SubsequenceTail<T>(t: seq<T>, s: seq<T>)
    requires t != [] && Subsequence(t, s)
    ensures Subsequence(t[1..], s)
    decreases |s|, 1
  {
    if s != [] {
      if t[0] == s[0] {
        if t[1..] != [] {
          SubsequenceSkip(t[1..], s);
        }
      } else {
        SubsequenceTail(t, s[1..]);
        if t[1..] != [] {
          SubsequenceSkip(t[1..], s);
        }
      }
    }
  }

  /** Rejecting keeps every entry the block does not match, each as often as before. */
  lemma RejectKeepsOthers(s: seq<Action>, sel: Selector, x: Action)
    requires !Matches(sel, x)
    ensures multiset(Reject(s, sel))[x] == multiset(s)[x]
  {
    RejectPartition(s, sel);
    assert x !in Select(s, sel);
  }

  /** Two rejections by user in a row are one rejection by the union of the users. */
  lemma {:induction false} RejectUsedByTwice(s: seq<Action>, u: set<BeingId>, v: set<BeingId>)
    ensures Reject(Reject(s, UsedBy(u)), UsedBy(v)) == Reject(s, UsedBy(u + v))
  {
    if s != [] {
      RejectUsedByTwice(s[1..], u, v);
      var r1 := Reject(s[1..], UsedBy(u));
      if Matches(UsedBy(u), s[0]) {
        assert Reject(s, UsedBy(u)) == r1;
      } else {
        assert Reject(s, UsedBy(u)) == [s[0]] + r1;
        assert ([s[0]] + r1)[1..] == r1;
      }
    }
  }

  /** After rejecting the paralyses aimed at `t`, none is left. */
  lemma RejectParalysesAt(s: seq<Action>, t: Option<BeingId>)
    ensures forall x :: x in Reject(s, ParalysesAt(t)) ==> !(x.kind == Cast(Paralysis) && x.target == t)
  {
    forall x | x in Reject(s, ParalysesAt(t)) ensures !(x.kind == Cast(Paralysis) && x.target == t) {
      assert !Matches(ParalysesAt(t), x);
    }
  }

  /** After rejecting the actions of `t`, none is left. */
  lemma RejectUsedByOne(s: seq<Action>, t: BeingId)
    ensures forall x :: x in Reject(s, UsedBy({t})) ==> x.user != Some(t)
  {
    forall x | x in Reject(s, UsedBy({t})) ensures x.user != Some(t) {
      assert !Matches(UsedBy({t}), x);
    }
  }

  /** Every pending spell is still cast by its caster: no reflection has happened. */
  predicate Unswapped(s: seq<Action>)
  {
    forall x :: x in s && IsSpell(x.kind) ==> x.user == x.origin
  }

  /**
    The invariant that keeps Magic Mirror's swap loop finite: while a Magic
    Mirror is pending, no pending spell has been reflected yet.
   */
  predicate ReflectionSafe(s: seq<Action>)
  {
    (exists x :: x in s && x.kind == Cast(MagicMirror)) ==> Unswapped(s)
  }

  /** A queue made of entries of a reflection-safe queue and of entries that are not spells is reflection-safe. */
  lemma ReflectionSafeKept(s: seq<Action>, t: seq<Action>)
    requires ReflectionSafe(s)
    requires forall x :: x in t ==> x in s || !IsSpell(x.kind)
    ensures ReflectionSafe(t)
  {
    if exists x :: x in t && x.kind == Cast(MagicMirror) {
      var m :| m in t && m.kind == Cast(MagicMirror);
      assert m in s;
    }
  }

  /** Rejecting the actions of nobody keeps the queue as it is. */
  lemma {:induction false} RejectNobody(s: seq<Action>)
    ensures Reject(s, UsedBy({})) == s
  {
    if s != [] {
      RejectNobody(s[1..]);
      assert s == [s[0]] + s[1..];
    }
  }

  /** Appending entries that are not spells leaves the spell count as it is. */
  lemma SpellCountAppendOther(s: seq<Action>, x: Action)
    requires !IsSpell(x.kind)
    ensures SpellCount(s + [x]) == SpellCount(s)
  {
    SpellCountAppend(s, [x]);
    assert [x][1..] == [];
  }

  /** Two queues whose entries have the same kinds, position by position, hold as many spells. */
  lemma {:induction false} SpellCountSameKinds(s: seq<Action>, t: seq<Action>)
    requires |s| == |t| && forall i :: 0 <= i < |s| ==> s[i].kind == t[i].kind
    ensures SpellCount(s) == SpellCount(t)
  {
    if s != [] {
      assert s[0].kind == t[0].kind;
      SpellCountSameKinds(s[1..], t[1..]);
    }
  }

  /** Every entry is of a choosable class, so it has an `order` to sort by. */
  predicate AllChoosable(s: seq<Action>)
  {
    forall x :: x in s ==> Choosable(x.kind)
  }

  predicate Sorted(s: seq<Action>)
    requires AllChoosable(s)
  {
    forall i, j :: 0 <= i < j < |s| ==> Order(s[i].kind) <= Order(s[j].kind)
  }

  /** Putting an entry no later than all the others in front keeps a queue sorted. */
  lemma SortedCons(x: Action, t: seq<Action>)
    requires Choosable(x.kind) && AllChoosable(t) && Sorted(t)
    requires forall y :: y in t ==> Order(x.kind) <= Order(y.kind)
    ensures AllChoosable([x] + t) && Sorted([x] + t)
  {
    var r := [x] + t;
    forall i, j | 0 <= i < j < |r| ensures Order(r[i].kind) <= Order(r[j].kind) {
      assert r[j] == t[j - 1];
      if i > 0 { assert r[i] == t[i - 1]; } else { assert t[j - 1] in t; }
    }
  }

  function Insert(a: Action, s: seq<Action>): (r: seq<Action>)
    requires Choosable(a.kind) && AllChoosable(s) && Sorted(s)
    ensures |r| == |s| + 1
    ensures forall x :: x in r ==> x == a || x in s
    ensures AllChoosable(r) && Sorted(r)
  {
    if s == [] then [a]
    else if Order(a.kind) <= Order(s[0].kind) then
      assert forall y :: y in s ==> Order(a.kind) <= Order(y.kind) by {
        forall y | y in s ensures Order(a.kind) <= Order(y.kind) {
          var k :| 0 <= k < |s| && s[k] == y;
        }
      }
      SortedCons(a, s);
      [a] + s
    else
      assert s == [s[0]] + s[1..];
      var rest := Insert(a, s[1..]);
      assert forall y :: y in rest ==> Order(s[0].kind) <= Order(y.kind) by {
        forall y | y in rest ensures Order(s[0].kind) <= Order(y.kind) {
          if y != a {
            var k :| 0 <= k < |s[1..]| && s[1..][k] == y;
            assert s[k + 1] == y;
          }
        }
      }
      SortedCons(s[0], rest);
      [s[0]] + rest
  }

  lemma {:induction false} InsertPermutes(a: Action, s: seq<Action>)
    requires Choosable(a.kind) && AllChoosable(s) && Sorted(s)
    ensures multiset(Insert(a, s)) == multiset(s) + multiset{a}
  {
    if s == [] {
    } else if Order(a.kind) <= Order(s[0].kind) {
      assert Insert(a, s) == [a] + s;
    } else {
      assert s == [s[0]] + s[1..];
      assert Insert(a, s) == [s[0]] + Insert(a, s[1..]);
      InsertPermutes(a, s[1..]);
    }
  }

  /**
    `Array#sort` with `<=>` on class order: the result is ordered by class
    order and is a permutation of the input. Ruby's sort is not stable, so
    nothing is promised about the order of equal keys.
   */
  function Sort(s: seq<Action>): (r: seq<Action>)
    requires AllChoosable(s)
    ensures multiset(r) == multiset(s)
    ensures AllChoosable(r) && Sorted(r)
  {
    if s == [] then []
    else
      assert s == [s[0]] + s[1..];
      var rest := Sort(s[1..]);
      InsertPermutes(s[0], rest);
      Insert(s[0], rest)
  }

}
