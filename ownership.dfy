/** The ownership discipline of `val` as a whole: a ledger of the handles held
    by live native `val` variables and by the foreign side, and the proof that
    every operation of `val` keeps each handle's foreign count equal to the
    number of its holders. */
module Ownership {
  import opened Refcount

  /** `slots`: the handle of every live native `val` (0 once moved from);
      `foreign`: references handed to the foreign side by converting a `val`
      to wire form (the callee owns them); `counts`: the foreign counts. */
  datatype Ledger = Ledger(slots: seq<Handle>, foreign: multiset<Handle>, counts: Counts)

  /** The operations of `val` on the ledger, by slot index. */
  datatype Op =
    | Take(h: Handle)              // val(EM_VAL) on a handle a primitive just returned
    | Copy(src: nat)               // val(const val&)
    | Move(src: nat)               // val(val&&)
    | Destroy(at: nat)             // ~val()
    | CopyAssign(dst: nat, src: nat) // operator=(const val&)
    | MoveAssign(dst: nat, src: nat) // operator=(val&&)
    | ToWire(src: nat)             // BindingType<val>::toWireType
    | FromWire(h: Handle)          // BindingType<val>::fromWireType

  /** Every handle's count is exactly the number of native and foreign holders. */
  ghost predicate Balanced(L: Ledger)
  {
    && Positive(L.counts)
    && forall h :: h != 0 ==> Count(L.counts, h) == multiset(L.slots)[h] + L.foreign[h]
  }

  /** The operation names variables that exist and hold live handles, a
      fresh handle, or a reference the foreign side owns. */
  ghost predicate Enabled(L: Ledger, op: Op)
  {
    match op
    case Take(h) => h != 0 && h !in L.counts
    case Copy(i) => i < |L.slots| && Live(L.counts, L.slots[i])
    case Move(i) => i < |L.slots|
    case Destroy(i) => i < |L.slots| && Live(L.counts, L.slots[i])
    case CopyAssign(d, s) =>
      d < |L.slots| && s < |L.slots| && Live(L.counts, L.slots[d]) && Live(L.counts, L.slots[s])
    case MoveAssign(d, s) => d < |L.slots| && s < |L.slots| && Live(L.counts, L.slots[d])
    case ToWire(i) => i < |L.slots| && Live(L.counts, L.slots[i])
    case FromWire(h) => h == 0 || h in L.foreign
  }

  /** A balanced ledger only holds live handles, so in a balanced ledger every
      operation on existing variables is enabled. */
  lemma HeldIsLive(L: Ledger, i: nat)
    requires Balanced(L) && i < |L.slots|
    ensures Live(L.counts, L.slots[i])
  {
    if L.slots[i] != 0 {
      assert L.slots[i] in multiset(L.slots);
    }
  }

  /** The ledger after one operation: constructors add a variable, the
      destructor removes one; only the wire conversions touch the foreign
      side's references, and a move or a take from the wire changes no count. */
  ghost function Step(L: Ledger, op: Op): (r: Ledger)
    requires Enabled(L, op)
    ensures |r.slots| == |L.slots| + (if op.Destroy? then -1 else if op.CopyAssign? || op.MoveAssign? || op.ToWire? then 0 else 1)
    ensures !op.ToWire? && !op.FromWire? ==> r.foreign == L.foreign
    ensures op.Move? || op.FromWire? ==> r.counts == L.counts
  {
    match op
    case Take(h) => Ledger(L.slots + [h], L.foreign, L.counts[h := 1])
    case Copy(i) => Ledger(L.slots + [L.slots[i]], L.foreign, Incref(L.counts, L.slots[i]))
    case Move(i) => Ledger(L.slots[i := 0] + [L.slots[i]], L.foreign, L.counts)
    case Destroy(i) => Ledger(L.slots[..i] + L.slots[i + 1..], L.foreign, Decref(L.counts, L.slots[i]))
    case CopyAssign(d, s) =>
      Ledger(L.slots[d := L.slots[s]], L.foreign, Decref(Incref(L.counts, L.slots[s]), L.slots[d]))
    case MoveAssign(d, s) =>
      Ledger(L.slots[d := L.slots[s]][s := 0], L.foreign, Decref(L.counts, L.slots[d]))
    case ToWire(i) =>
      var h := L.slots[i];
      Ledger(L.slots, L.foreign + (if h == 0 then multiset{} else multiset{h}), Incref(L.counts, h))
    case FromWire(h) =>
      Ledger(L.slots + [h], if h == 0 then L.foreign else L.foreign - multiset{h}, L.counts)
  }

  lemma MultisetUpdate(s: seq<Handle>, i: nat, x: Handle, h: Handle)
    requires i < |s|
    ensures multiset(s[i := x])[h] == multiset(s)[h] - (if s[i] == h then 1 else 0) + (if x == h then 1 else 0)
  {
    assert s == s[..i] + [s[i]] + s[i + 1..];
    assert s[i := x] == s[..i] + [x] + s[i + 1..];
  }

  lemma MultisetRemove(s: seq<Handle>, i: nat, h: Handle)
    requires i < |s|
    ensures multiset(s[..i] + s[i + 1..])[h] == multiset(s)[h] - (if s[i] == h then 1 else 0)
  {
    assert s == s[..i] + [s[i]] + s[i + 1..];
  }

  /** The balance equation of one handle, read off a balanced ledger. */
  lemma BalanceAt(L: Ledger, h: Handle)
    requires Balanced(L) && h != 0
    ensures Count(L.counts, h) == multiset(L.slots)[h] + L.foreign[h]
  {
  }

  lemma TakeKeepsBalance(L: Ledger, x: Handle)
    requires Balanced(L) && Enabled(L, Take(x))
    ensures Balanced(Step(L, Take(x)))
  {
    var r := Step(L, Take(x));
    forall h | h != 0
      ensures Count(r.counts, h) == multiset(r.slots)[h] + r.foreign[h]
    {
      BalanceAt(L, h);
    }
  }

  lemma CopyKeepsBalance(L: Ledger, i: nat)
    requires Balanced(L) && Enabled(L, Copy(i))
    ensures Balanced(Step(L, Copy(i)))
  {
    var r := Step(L, Copy(i));
    forall h | h != 0
      ensures Count(r.counts, h) == multiset(r.slots)[h] + r.foreign[h]
    {
      BalanceAt(L, h);
    }
  }

  lemma MoveKeepsBalance(L: Ledger, i: nat)
    requires Balanced(L) && Enabled(L, Move(i))
    ensures Balanced(Step(L, Move(i)))
  {
    var r := Step(L, Move(i));
    forall h | h != 0
      ensures Count(r.counts, h) == multiset(r.slots)[h] + r.foreign[h]
    {
      MultisetUpdate(L.slots, i, 0, h);
      BalanceAt(L, h);
    }
  }

  lemma DestroyKeepsBalance(L: Ledger, i: nat)
    requires Balanced(L) && Enabled(L, Destroy(i))
    ensures Balanced(Step(L, Destroy(i)))
  {
    var r := Step(L, Destroy(i));
    forall h | h != 0
      ensures Count(r.counts, h) == multiset(r.slots)[h] + r.foreign[h]
    {
      MultisetRemove(L.slots, i, h);
      BalanceAt(L, h);
    }
  }

  lemma CopyAssignKeepsBalance(L: Ledger, d: nat, s: nat)
    requires Balanced(L) && Enabled(L, CopyAssign(d, s))
    ensures Balanced(Step(L, CopyAssign(d, s)))
  {
    var r := Step(L, CopyAssign(d, s));
    var mid := Incref(L.counts, L.slots[s]);
    forall h | h != 0
      ensures Count(r.counts, h) == multiset(r.slots)[h] + r.foreign[h]
    {
      MultisetUpdate(L.slots, d, L.slots[s], h);
      BalanceAt(L, h);
      assert Count(mid, h) == Count(L.counts, h) + (if h == L.slots[s] then 1 else 0);
    }
  }

  lemma MoveAssignKeepsBalance(L: Ledger, d: nat, s: nat)
    requires Balanced(L) && Enabled(L, MoveAssign(d, s))
    ensures Balanced(Step(L, MoveAssign(d, s)))
  {
    var r := Step(L, MoveAssign(d, s));
    var mid := L.slots[d := L.slots[s]];
    forall h | h != 0
      ensures Count(r.counts, h) == multiset(r.slots)[h] + r.foreign[h]
    {
      MultisetUpdate(L.slots, d, L.slots[s], h);
      MultisetUpdate(mid, s, 0, h);
      BalanceAt(L, h);
    }
  }

  lemma ToWireKeepsBalance(L: Ledger, i: nat)
    requires Balanced(L) && Enabled(L, ToWire(i))
    ensures Balanced(Step(L, ToWire(i)))
  {
    var r := Step(L, ToWire(i));
    forall h | h != 0
      ensures Count(r.counts, h) == multiset(r.slots)[h] + r.foreign[h]
    {
      BalanceAt(L, h);
    }
  }

  lemma FromWireKeepsBalance(L: Ledger, x: Handle)
    requires Balanced(L) && Enabled(L, FromWire(x))
    ensures Balanced(Step(L, FromWire(x)))
  {
    var r := Step(L, FromWire(x));
    forall h | h != 0
      ensures Count(r.counts, h) == multiset(r.slots)[h] + r.foreign[h]
    {
      BalanceAt(L, h);
    }
  }

  /** The ownership invariant: every operation of `val` keeps each handle's
      count equal to the number of its native and foreign holders. */
  lemma {:induction false} StepKeepsBalance(L: Ledger, op: Op)
    requires Balanced(L) && Enabled(L, op)
    ensures Balanced(Step(L, op))
  {
    match op
    case Take(x) => TakeKeepsBalance(L, x);
    case Copy(i) => CopyKeepsBalance(L, i);
    case Move(i) => MoveKeepsBalance(L, i);
    case Destroy(i) => DestroyKeepsBalance(L, i);
    case CopyAssign(d, s) => CopyAssignKeepsBalance(L, d, s);
    case MoveAssign(d, s) => MoveAssignKeepsBalance(L, d, s);
    case ToWire(i) => ToWireKeepsBalance(L, i);
    case FromWire(x) => FromWireKeepsBalance(L, x);
  }

  /** A program of `val` operations, each enabled where it runs. */
  ghost predicate Runs(L: Ledger, ops: seq<Op>)
    decreases |ops|
  {
    ops == [] || (Enabled(L, ops[0]) && Runs(Step(L, ops[0]), ops[1..]))
  }

  ghost function Run(L: Ledger, ops: seq<Op>): Ledger
    requires Runs(L, ops)
    decreases |ops|
  {
    if ops == [] then L else Run(Step(L, ops[0]), ops[1..])
  }

  /** Any program of `val` operations started from a balanced ledger ends balanced. */
  lemma {:induction false} RunKeepsBalance(L: Ledger, ops: seq<Op>)
    requires Balanced(L) && Runs(L, ops)
    ensures Balanced(Run(L, ops))
    decreases |ops|
  {
    if ops != [] {
      StepKeepsBalance(L, ops[0]);
      RunKeepsBalance(Step(L, ops[0]), ops[1..]);
    }
  }

  /** Copying a `val` and destroying the copy leaves the ledger exactly as it
      was: one increment, one decrement. */
  lemma {:induction false} CopyThenDestroy(L: Ledger, i: nat)
    requires Positive(L.counts) && Enabled(L, Copy(i))
    ensures Enabled(Step(L, Copy(i)), Destroy(|L.slots|))
    ensures Step(Step(L, Copy(i)), Destroy(|L.slots|)) == L
  {
    var c := Step(L, Copy(i));
    IncrefThenDecref(L.counts, L.slots[i]);
    assert c.slots[..|L.slots|] + c.slots[|L.slots| + 1..] == L.slots;
  }

  /** Moving a `val` out and then destroying the moved-from source leaves every
      count unchanged, and the value lives on in the new variable. */
  lemma {:induction false} MoveThenDestroySource(L: Ledger, i: nat)
    requires Enabled(L, Move(i))
    ensures Enabled(Step(L, Move(i)), Destroy(i))
    ensures Step(Step(L, Move(i)), Destroy(i)).counts == L.counts
    ensures Step(Step(L, Move(i)), Destroy(i)).slots == L.slots[..i] + L.slots[i + 1..] + [L.slots[i]]
  {
    var m := Step(L, Move(i));
    assert m.slots[i] == 0;
    assert m.slots[..i] + m.slots[i + 1..] == L.slots[..i] + L.slots[i + 1..] + [L.slots[i]];
  }

  /** `x = x` through copy-assignment: the increment comes first, so the
      ledger is unchanged even when x held the only reference. */
  lemma {:induction false} SelfCopyAssign(L: Ledger, i: nat)
    requires Positive(L.counts) && Enabled(L, CopyAssign(i, i))
    ensures Step(L, CopyAssign(i, i)) == L
  {
    IncrefThenDecref(L.counts, L.slots[i]);
  }

  /** `x = std::move(x)`: the old handle is decremented and x is left holding
      the sentinel; when x held the only reference, the value is released. The
      ledger stays balanced (StepKeepsBalance), but x has lost its value. */
  lemma {:induction false} SelfMoveAssign(L: Ledger, i: nat)
    requires Balanced(L) && Enabled(L, MoveAssign(i, i))
    ensures Step(L, MoveAssign(i, i)) == Ledger(L.slots[i := 0], L.foreign, Decref(L.counts, L.slots[i]))
    ensures L.slots[i] != 0 && multiset(L.slots)[L.slots[i]] == 1 && L.foreign[L.slots[i]] == 0 ==>
              L.slots[i] !in Step(L, MoveAssign(i, i)).counts
  {
    if L.slots[i] != 0 {
      BalanceAt(L, L.slots[i]);
    }
  }

  /** Handing a `val` to the foreign side and taking that reference back is
      the same as copying it. */
  lemma {:induction false} ToWireThenFromWire(L: Ledger, i: nat)
    requires Enabled(L, ToWire(i))
    ensures Enabled(Step(L, ToWire(i)), FromWire(L.slots[i]))
    ensures Step(Step(L, ToWire(i)), FromWire(L.slots[i])) == Step(L, Copy(i))
  {
    var h := L.slots[i];
    if h != 0 {
      assert L.foreign + multiset{h} - multiset{h} == L.foreign;
    }
  }

  lemma {:induction false} OnlySentinels(s: seq<Handle>, h: Handle)
    requires forall k :: 0 <= k < |s| ==> s[k] == 0
    requires h != 0
    ensures multiset(s)[h] == 0
  {
    if s != [] {
      assert s == [s[0]] + s[1..];
      OnlySentinels(s[1..], h);
    }
  }

  /** No leak: once no native `val` and no foreign holder is left, a balanced
      ledger has released every value. */
  lemma {:induction false} NoHoldersNoCounts(L: Ledger)
    requires Balanced(L) && L.foreign == multiset{}
    requires forall k :: 0 <= k < |L.slots| ==> L.slots[k] == 0
    ensures L.counts == map[]
  {
    forall h
      ensures Count(L.counts, h) == 0
    {
      if h != 0 {
        BalanceAt(L, h);
        OnlySentinels(L.slots, h);
      }
    }
    SameCountsSameMap(L.counts, map[]);
  }
}
