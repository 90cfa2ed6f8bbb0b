/** WireTypePack: each argument converted to its wire value (a `val`
    argument gains one foreign count on the way, since the callee takes
    ownership of it) and written into a buffer of PackSize slots through an
    advancing cursor. */
module Packing {
  import opened Refcount
  import opened WireSlots
  import opened Boundary

  /** The handles of the `val` arguments, in argument order. */
  function ValHandles(args: seq<Arg>): (hs: seq<Handle>)
    ensures |hs| <= |args|
    ensures forall h :: h in hs <==> ValArg(h) in args
    decreases |args|
  {
    if args == [] then []
    else
      var init, last := args[..|args| - 1], args[|args| - 1];
      assert args == init + [last];
      ValHandles(init) + (if last.ValArg? then [last.h] else [])
  }

  /** Every `val` argument holds a handle the native side may still pass on. */
  predicate ValsLive(m: Counts, args: seq<Arg>)
  {
    forall k :: 0 <= k < |args| && args[k].ValArg? ==> Live(m, args[k].h)
  }

  /** The counts after toWireType has incremented the handle of each `val`
      argument in turn: every real handle gains one count per argument that
      holds it. */
  function IncrefVals(m: Counts, args: seq<Arg>): (r: Counts)
    requires ValsLive(m, args)
    ensures forall x :: Count(r, x) == Count(m, x) + (if x == 0 then 0 else multiset(ValHandles(args))[x])
    ensures Positive(m) ==> Positive(r)
    decreases |args|
  {
    if args == [] then m
    else
      var init, last := args[..|args| - 1], args[|args| - 1];
      assert args == init + [last];
      assert ValsLive(m, init);
      var before := IncrefVals(m, init);
      if last.ValArg? then Incref(before, last.h) else before
  }

  /** Raising counts keeps every live handle live. */
  lemma {:induction false} IncrefValsKeepsLive(m: Counts, args: seq<Arg>, others: seq<Arg>)
    requires ValsLive(m, args) && ValsLive(m, others)
    ensures ValsLive(IncrefVals(m, args), others)
  {
    var r := IncrefVals(m, args);
    forall k | 0 <= k < |others| && others[k].ValArg?
      ensures Live(r, others[k].h)
    {
      assert Count(r, others[k].h) >= Count(m, others[k].h);
    }
  }

  /** IncrefVals over one more argument is one more toWireType. */
  lemma IncrefValsSnoc(m: Counts, args: seq<Arg>, i: nat)
    requires i < |args| && ValsLive(m, args[..i + 1])
    ensures ValsLive(m, args[..i])
    ensures IncrefVals(m, args[..i + 1]) ==
              if args[i].ValArg? then Incref(IncrefVals(m, args[..i]), args[i].h) else IncrefVals(m, args[..i])
  {
    assert args[..i + 1][..i] == args[..i];
    assert ValsLive(m, args[..i]);
  }

  /** Writing argument i after the first i extends the layout by its slots,
      within the PackSize buffer. */
  lemma LayoutSnoc(args: seq<Arg>, i: nat)
    requires AllWellTyped(args) && i < |args|
    ensures PackSize(TypesOf(args[..i + 1])) == PackSize(TypesOf(args[..i])) + |SlotsOf(WireOf(args[i]))|
    ensures PackSize(TypesOf(args[..i + 1])) <= PackSize(TypesOf(args))
    ensures Encode(args[..i + 1]) == Encode(args[..i]) + SlotsOf(WireOf(args[i]))
  {
    EncodeLayout(args, i);
    EncodedLength(args);
    EncodeAppend(args[..i], [args[i]]);
    assert args[..i + 1] == args[..i] + [args[i]];
  }

  /** BindingType<T>::toWireType: the wire value of an argument; for a `val`
      its handle, incremented first. */
  method ToWireType(rt: Runtime, a: Arg) returns (w: WireValue)
    requires rt.Valid() && (a.ValArg? ==> Live(rt.counts, a.h))
    modifies rt
    ensures rt.Valid() && w == WireOf(a)
    ensures rt.counts == if a.ValArg? then Incref(old(rt.counts), a.h) else old(rt.counts)
    ensures rt.trace == old(rt.trace) && rt.Counters() == old(rt.Counters())
  {
    if a.ValArg? {
      rt.Incref(a.h);
    }
    w := WireOf(a);
  }

  /** writeGenericWireType: the overload for w's type writes its slots at the
      cursor and returns the cursor moved past them. */
  method WriteGenericWireType(buf: array<Slot>, cursor: nat, w: WireValue) returns (next: nat)
    requires cursor + |SlotsOf(w)| <= buf.Length
    modifies buf
    ensures next == cursor + |SlotsOf(w)|
    ensures buf[..cursor] == old(buf[..cursor])
    ensures buf[cursor..next] == SlotsOf(w)
    ensures buf[next..] == old(buf[next..])
  {
    match w
    case WFloat(f) =>
      buf[cursor] := FloatSlot(f);
      next := cursor + 1;
    case WDouble(d) =>
      buf[cursor] := DoubleSlot(d);
      next := cursor + 1;
    case WPointer(p) =>
      buf[cursor] := PointerSlot(p);
      next := cursor + 1;
    case WView(v) =>
      buf[cursor] := ViewSlot(ToUnsigned(v.kind), ToUnsigned(v.size));
      buf[cursor + 1] := PointerSlot(v.data);
      next := cursor + 2;
    case WInteger(n) =>
      buf[cursor] := UnsignedSlot(ToUnsigned(n));
      next := cursor + 1;
  }

  /** One step of writeGenericWireTypes: the first remaining argument
      converted by toWireType and written at the cursor. */
  method WriteArgument(rt: Runtime, buf: array<Slot>, cursor: nat, a: Arg) returns (next: nat)
    requires rt.Valid() && (a.ValArg? ==> Live(rt.counts, a.h))
    requires cursor + |SlotsOf(WireOf(a))| <= buf.Length
    modifies rt, buf
    ensures next == cursor + |SlotsOf(WireOf(a))|
    ensures buf[..next] == old(buf[..cursor]) + SlotsOf(WireOf(a))
    ensures buf[next..] == old(buf[next..])
    ensures rt.Valid() && rt.trace == old(rt.trace) && rt.Counters() == old(rt.Counters())
    ensures rt.counts == if a.ValArg? then Incref(old(rt.counts), a.h) else old(rt.counts)
  {
    var w := ToWireType(rt, a);
    next := WriteGenericWireType(buf, cursor, w);
    assert buf[..next] == buf[..cursor] + buf[cursor..next];
  }

  /** The argument buffer of one boundary call. */
  class WireTypePack {
    /** std::array<GenericWireType, PackSize<Args...>::value>. */
    const elements: array<Slot>

    /** WireTypePack(Args&&...): writeGenericWireTypes over the arguments
        in order, from the start of the buffer. */
    constructor (rt: Runtime, args: seq<Arg>)
      requires rt.Valid() && AllWellTyped(args) && ValsLive(rt.counts, args)
      modifies rt
      ensures fresh(elements) && elements.Length == PackSize(TypesOf(args))
      ensures elements[..] == Encode(args)
      ensures rt.Valid() && rt.trace == old(rt.trace) && rt.Counters() == old(rt.Counters())
      ensures rt.counts == IncrefVals(old(rt.counts), args)
    {
      EncodedLength(args);
      var buf := new Slot[PackSize(TypesOf(args))];
      ghost var m := rt.counts;
      var cursor, i := 0, 0;
      while i < |args|
        invariant 0 <= i <= |args|
        invariant rt.Valid() && rt.trace == old(rt.trace) && rt.Counters() == old(rt.Counters())
        invariant cursor == PackSize(TypesOf(args[..i])) <= buf.Length
        invariant buf[..cursor] == Encode(args[..i])
        invariant ValsLive(m, args[..i]) && rt.counts == IncrefVals(m, args[..i])
        invariant ValsLive(rt.counts, args)
      {
        LayoutSnoc(args, i);
        assert ValsLive(m, args[..i + 1]);
        IncrefValsSnoc(m, args, i);
        cursor := WriteArgument(rt, buf, cursor, args[i]);
        IncrefValsKeepsLive(m, args[..i + 1], args);
        i := i + 1;
      }
      assert args[..i] == args;
      elements := buf;
    }
  }

  /** A WireTypePack built for one boundary call on `target`, as the
      primitive reads it: its slots. The target is still held. */
  method PackArguments(rt: Runtime, target: Handle, args: seq<Arg>) returns (argv: seq<Slot>)
    requires rt.Valid() && Held(rt.counts, target) && AllWellTyped(args) && ValsLive(rt.counts, args)
    modifies rt
    ensures argv == Encode(args) && |argv| == PackSize(TypesOf(args))
    ensures rt.Valid() && Held(rt.counts, target)
    ensures rt.trace == old(rt.trace) && rt.Counters() == old(rt.Counters())
    ensures rt.counts == IncrefVals(old(rt.counts), args)
  {
    var pack := new WireTypePack(rt, args);
    argv := pack.elements[..];
    assert Count(rt.counts, target) >= Count(old(rt.counts), target);
  }
}
