/** The 8-byte wire slots (`GenericWireType`) that carry call arguments
    across the boundary: which slots each argument takes, the layout the
    writer produces for a whole argument list, and `PackSize`, the slot count
    computed from the static argument types alone. */
module WireSlots {
  import opened Refcount

  datatype Option<T> = None | Some(value: T)

  /** An opaque payload: the bits of a float or a double, or the generic
      double a foreign call returns. Floating point is not modelled. */
  type Word = nat

  /** The range of the 32-bit `unsigned` of wasm32. */
  const UNSIGNED_MODULUS: int := 0x1_0000_0000

  /** static_cast<unsigned>: the value modulo 2^32. */
  function ToUnsigned(x: int): (u: nat)
    ensures u < UNSIGNED_MODULUS
    ensures (x - u) % UNSIGNED_MODULUS == 0
  {
    x % UNSIGNED_MODULUS
  }

  /** A static type as the boundary sees it: the tag TypeID<T> stands for. */
  datatype Type =
    | Void
    | Float
    | Double
    | Pointer
    | Integer(bytes: nat)   // bool, the integer types, enums
    | MemoryView
    | ValType               // `val`, whose wire type is the pointer EM_VAL

  /** sizeof(BindingType<T>::WireType) on wasm32, where pointers, EM_VAL
      among them, are 32 bits wide. */
  function WireBytes(t: Type): (r: nat)
    ensures t.Pointer? || t.ValType? ==> r == 4
    ensures !t.Integer? ==> r % 4 == 0 && r <= 12
  {
    match t
    case Void => 0
    case Float => 4
    case Double => 8
    case Pointer => 4
    case Integer(b) => b
    case MemoryView => 12   // type, size, data: 4 bytes each
    case ValType => 4
  }

  /** A memory_view: a typed-array kind, an element count and a data pointer. */
  datatype View = View(kind: int, size: nat, data: nat)

  /** A native call argument, tagged by its static type. */
  datatype Arg =
    | FloatArg(f: Word)
    | DoubleArg(d: Word)
    | PointerArg(p: nat)
    | IntegerArg(bytes: nat, n: int)
    | ViewArg(view: View)
    | ValArg(h: Handle)

  function TypeOf(a: Arg): Type
  {
    match a
    case FloatArg(_) => Float
    case DoubleArg(_) => Double
    case PointerArg(_) => Pointer
    case IntegerArg(b, _) => Integer(b)
    case ViewArg(_) => MemoryView
    case ValArg(_) => ValType
  }

  /** An argument whose type has a binding: integers are 1 to 8 bytes wide. */
  predicate WellTyped(a: Arg)
  {
    a.IntegerArg? ==> 1 <= a.bytes <= 8
  }

  /** A type an argument can have: not `void`, and an integer of 1 to 8 bytes. */
  predicate ArgumentType(t: Type)
  {
    t != Void && (t.Integer? ==> 1 <= t.bytes <= 8)
  }

  predicate AllWellTyped(args: seq<Arg>)
  {
    forall k :: 0 <= k < |args| ==> WellTyped(args[k])
  }

  /** The ArgTypeList of an argument list. */
  function TypesOf(args: seq<Arg>): (ts: seq<Type>)
    ensures |ts| == |args|
    ensures forall k :: 0 <= k < |args| ==> ts[k] == TypeOf(args[k])
  {
    seq(|args|, k requires 0 <= k < |args| => TypeOf(args[k]))
  }

  /** A value of some BindingType<T>::WireType. */
  datatype WireValue =
    | WFloat(f: Word)
    | WDouble(d: Word)
    | WPointer(p: nat)
    | WInteger(n: int)
    | WView(view: View)

  /** The value BindingType<T>::toWireType returns for an argument (for a
      `val` it also increments the handle: see Packing.ToWireType). */
  function WireOf(a: Arg): (w: WireValue)
    ensures w.WView? <==> a.ViewArg?
    ensures a.ValArg? ==> w == WPointer(a.h)
  {
    match a
    case FloatArg(f) => WFloat(f)
    case DoubleArg(d) => WDouble(d)
    case PointerArg(p) => WPointer(p)
    case IntegerArg(_, n) => WInteger(n)
    case ViewArg(v) => WView(v)
    case ValArg(h) => WPointer(h)
  }

  /** The content of one GenericWireType slot, by the union member written. */
  datatype Slot =
    | Unwritten
    | FloatSlot(f: Word)                  // w[0].f
    | DoubleSlot(d: Word)                 // d
    | PointerSlot(p: nat)                 // w[0].p
    | UnsignedSlot(u: nat)                // w[0].u
    | ViewSlot(kind: nat, size: nat)      // w[0].u and w[1].u of a memory_view

  /** The slots writeGenericWireType writes for one wire value, by overload:
      one, or two for a memory_view. */
  function SlotsOf(w: WireValue): (r: seq<Slot>)
    ensures |r| == if w.WView? then 2 else 1
  {
    match w
    case WFloat(f) => [FloatSlot(f)]
    case WDouble(d) => [DoubleSlot(d)]
    case WPointer(p) => [PointerSlot(p)]
    case WInteger(n) => [UnsignedSlot(ToUnsigned(n))]
    case WView(v) => [ViewSlot(ToUnsigned(v.kind), ToUnsigned(v.size)), PointerSlot(v.data)]
  }

  /** The layout writeGenericWireTypes produces: each argument's slots, in
      argument order, at least one slot per argument. */
  function Encode(args: seq<Arg>): (r: seq<Slot>)
    ensures |args| <= |r|
  {
    if args == [] then [] else SlotsOf(WireOf(args[0])) + Encode(args[1..])
  }

  /** PackSize<Args...>::value: ceil(sizeof(wire type) / 8) per argument.
      For argument types (never `void`, integers 1 to 8 bytes) that is one
      or two slots each. */
  function PackSize(types: seq<Type>): (p: nat)
    ensures (forall k :: 0 <= k < |types| ==> ArgumentType(types[k])) ==> |types| <= p <= 2 * |types|
  {
    if types == [] then 0 else (WireBytes(types[0]) + 7) / 8 + PackSize(types[1..])
  }

  /** The slot count a type's size gives is the number of slots its
      overload of writeGenericWireType writes: one, or two for a memory_view. */
  lemma SlotsOfMatchesWireSize(a: Arg)
    requires WellTyped(a)
    ensures |SlotsOf(WireOf(a))| == (WireBytes(TypeOf(a)) + 7) / 8
    ensures |SlotsOf(WireOf(a))| == if a.ViewArg? then 2 else 1
  {
  }

  lemma {:induction false} PackSizeAppend(a: seq<Type>, b: seq<Type>)
    ensures PackSize(a + b) == PackSize(a) + PackSize(b)
  {
    if a != [] {
      assert (a + b)[1..] == a[1..] + b;
      PackSizeAppend(a[1..], b);
    } else {
      assert a + b == b;
    }
  }

  lemma {:induction false} EncodeAppend(a: seq<Arg>, b: seq<Arg>)
    ensures Encode(a + b) == Encode(a) + Encode(b)
  {
    if a != [] {
      assert (a + b)[1..] == a[1..] + b;
      EncodeAppend(a[1..], b);
    } else {
      assert a + b == b;
    }
  }

  /** The buffer PackSize reserves is exactly as long as what the writer
      writes: the slot count is fixed by the static types. */
  lemma {:induction false} EncodedLength(args: seq<Arg>)
    requires AllWellTyped(args)
    ensures |Encode(args)| == PackSize(TypesOf(args))
  {
    if args != [] {
      SlotsOfMatchesWireSize(args[0]);
      assert TypesOf(args)[1..] == TypesOf(args[1..]);
      EncodedLength(args[1..]);
    }
  }

  /** Argument i occupies the slots from PackSize of the arguments before it,
      and holds exactly what its overload writes. */
  lemma {:induction false} EncodeLayout(args: seq<Arg>, i: nat)
    requires AllWellTyped(args) && i < |args|
    ensures PackSize(TypesOf(args[..i + 1])) == PackSize(TypesOf(args[..i])) + |SlotsOf(WireOf(args[i]))|
    ensures PackSize(TypesOf(args[..i + 1])) <= |Encode(args)|
    ensures Encode(args)[PackSize(TypesOf(args[..i]))..PackSize(TypesOf(args[..i + 1]))] == SlotsOf(WireOf(args[i]))
  {
    var before, here, after := args[..i], [args[i]], args[i + 1..];
    assert args == before + here + after;
    assert args[..i + 1] == before + here;
    EncodeAppend(before + here, after);
    EncodeAppend(before, here);
    EncodedLength(before);
    EncodedLength(before + here);
    assert Encode(here) == SlotsOf(WireOf(args[i]));
  }

  /** What the receiving side sees of a wire value: integers and the
      memory_view fields cut to 32-bit unsigned. */
  function Received(w: WireValue): WireValue
  {
    match w
    case WInteger(n) => WInteger(ToUnsigned(n))
    case WView(v) => WView(View(ToUnsigned(v.kind), ToUnsigned(v.size), v.data))
    case _ => w
  }

  /** Reads the wire value of one argument of type t from the front of
      `slots`, returning it and the number of slots it takes. */
  function ReadOne(t: Type, slots: seq<Slot>): Option<(WireValue, nat)>
  {
    if slots == [] then None
    else match (t, slots[0])
      case (Float, FloatSlot(f)) => Some((WFloat(f), 1))
      case (Double, DoubleSlot(d)) => Some((WDouble(d), 1))
      case (Pointer, PointerSlot(p)) => Some((WPointer(p), 1))
      case (ValType, PointerSlot(p)) => Some((WPointer(p), 1))
      case (Integer(_), UnsignedSlot(u)) => Some((WInteger(u), 1))
      case (MemoryView, ViewSlot(k, s)) =>
        if |slots| >= 2 && slots[1].PointerSlot? then Some((WView(View(k, s, slots[1].p)), 2)) else None
      case _ => None
  }

  /** A reader driven only by the static type list: how a stub generated for
      the same signature takes the slots apart. */
  function Decode(types: seq<Type>, slots: seq<Slot>): Option<seq<WireValue>>
    decreases |types|
  {
    if types == [] then
      if slots == [] then Some([]) else None
    else
      match ReadOne(types[0], slots)
      case None => None
      case Some((w, n)) =>
        if n <= |slots| then
          match Decode(types[1..], slots[n..])
          case None => None
          case Some(rest) => Some([w] + rest)
        else None
  }

  /** The wire values the receiver sees, argument by argument. */
  function ReceivedAll(args: seq<Arg>): (ws: seq<WireValue>)
    ensures |ws| == |args|
    ensures forall k :: 0 <= k < |args| ==> ws[k] == Received(WireOf(args[k]))
  {
    seq(|args|, k requires 0 <= k < |args| => Received(WireOf(args[k])))
  }

  /** Reading one argument's slots off the front of a longer buffer. */
  lemma ReadOneFront(a: Arg, tail: seq<Slot>)
    ensures ReadOne(TypeOf(a), SlotsOf(WireOf(a)) + tail) == Some((Received(WireOf(a)), |SlotsOf(WireOf(a))|))
  {
  }

  /** Reading the slots back by the same type list recovers every argument's
      wire value, in order, as the receiver sees it. */
  lemma {:induction false} DecodeEncode(args: seq<Arg>)
    ensures Decode(TypesOf(args), Encode(args)) == Some(ReceivedAll(args))
  {
    if args != [] {
      var s := SlotsOf(WireOf(args[0]));
      var tail := Encode(args[1..]);
      assert Encode(args) == s + tail;
      assert TypesOf(args)[1..] == TypesOf(args[1..]);
      assert (s + tail)[|s|..] == tail;
      ReadOneFront(args[0], tail);
      DecodeEncode(args[1..]);
      assert ReceivedAll(args) == [Received(WireOf(args[0]))] + ReceivedAll(args[1..]);
    }
  }
}
