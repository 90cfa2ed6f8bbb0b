/** `val`: the native owner of one foreign handle. Its constructors,
    destructor and assignments keep the foreign count of the handle in step
    with the number of owners; its other operations are boundary calls made
    through temporary `val`s. Also vecFromJSArray, built on operator[] and
    as<T>. */
module Emval {
  import opened Refcount
  import opened WireSlots
  import opened Boundary
  import opened Packing
  import opened MethodCalls

  /** A property key as operator[] and set receive it: a string literal, or
      any other value `val(key)` accepts (a `val` key is copied). */
  datatype Key = NameKey(name: string) | ValueKey(a: Arg)

  /** A `val` key is copy-constructed: its handle is shared, not new. */
  predicate CopiedKey(key: Key)
  {
    key.ValueKey? && key.a.ValArg?
  }

  /** What the native side must hold for val(key): a packable value, and a
      `val` key that still owns its handle. */
  ghost predicate KeyReady(m: Counts, key: Key)
  {
    key.ValueKey? ==> WellTyped(key.a) && (key.a.ValArg? ==> Held(m, key.a.h))
  }

  /** The primitive that makes a fresh key: _emval_new_cstring for a string
      literal, _emval_take_value for any other non-`val` key. */
  function KeyProducer(key: Key): Producer
  {
    match key
    case NameKey(s) => NewCString(s)
    case ValueKey(a) => TakeValue(TypeOf(a), Encode([a]))
  }

  /** The handle of the temporary val(key) when n is the next fresh handle. */
  function KeyHandle(key: Key, n: Handle): Handle
  {
    if CopiedKey(key) then key.a.h else n
  }

  /** The boundary events that make the temporary val(key). */
  function KeyEvents(key: Key, n: Handle): (u: seq<Event>)
    ensures |u| == if CopiedKey(key) then 0 else 1
  {
    if CopiedKey(key) then [] else [Produced(KeyProducer(key), n)]
  }

  class Val {
    /** The EM_VAL this val owns; 0 once it has been moved from. */
    var handle: Handle
    /** Whether the C++ object is within its lifetime: set by every
        constructor, cleared by the destructor, required by every other
        operation, so a val is destroyed at most once and never used after. */
    ghost var alive: bool

    /** take_ownership, fromWireType and the private constructor: adopt a
        handle that is already counted, without incrementing it. */
    constructor TakeOwnership(e: Handle)
      ensures handle == e && alive
    {
      handle := e;
      alive := true;
    }

    /** val(val&&): steal the source's handle and leave the source at the
        sentinel 0. No foreign count changes. */
    constructor Move(v: Val)
      requires v.alive
      modifies v
      ensures handle == old(v.handle) && v.handle == 0 && alive && v.alive
    {
      handle := v.handle;
      alive := true;
      new;
      v.handle := 0;
    }

    /** val(const val&): the same handle, one count more. */
    constructor Copy(rt: Runtime, v: Val)
      requires rt.Valid() && v.alive && Live(rt.counts, v.handle)
      modifies rt
      ensures handle == v.handle && alive
      ensures rt.Valid() && rt.counts == Incref(old(rt.counts), v.handle)
      ensures rt.trace == old(rt.trace) && rt.Counters() == old(rt.Counters())
    {
      handle := v.handle;
      alive := true;
      new;
      rt.Incref(handle);
    }

    /** val(const char*): a new foreign string, owned at count 1. */
    constructor FromCString(rt: Runtime, s: string)
      requires rt.Valid()
      modifies rt
      ensures rt.Valid() && handle == old(rt.nextHandle) && handle !in old(rt.counts) && alive
      ensures rt.counts == old(rt.counts)[handle := 1]
      ensures rt.trace == old(rt.trace) + [Produced(NewCString(s), handle)]
      ensures rt.Counters() == (old(rt.nextHandle) + 1, old(rt.nextToken), old(rt.nextCaller))
    {
      var h := rt.Produce(NewCString(s));
      handle := h;
      alive := true;
    }

    /** template val(T&&): the value packed into a one-argument WireTypePack
        and handed to _emval_take_value. A `val` lvalue selects this
        constructor too; packing then increments its handle. */
    constructor FromValue(rt: Runtime, a: Arg)
      requires rt.Valid() && WellTyped(a) && (a.ValArg? ==> Live(rt.counts, a.h))
      modifies rt
      ensures rt.Valid() && handle == old(rt.nextHandle) && handle !in old(rt.counts) && alive
      ensures rt.counts == (if a.ValArg? then Incref(old(rt.counts), a.h) else old(rt.counts))[handle := 1]
      ensures rt.trace == old(rt.trace) + [Produced(TakeValue(TypeOf(a), Encode([a])), handle)]
      ensures rt.Counters() == (old(rt.nextHandle) + 1, old(rt.nextToken), old(rt.nextCaller))
    {
      assert [a][..0] == [];
      var argv := new WireTypePack(rt, [a]);
      assert TypesOf([a]) == [TypeOf(a)];
      var h := rt.Produce(TakeValue(TypeOf(a), argv.elements[..]));
      handle := h;
      alive := true;
    }

    /** val::array(), val::object(), val::undefined() and val::null(): a
        new foreign value the returned val owns at count 1. */
    static method Make(rt: Runtime, op: Producer) returns (v: Val)
      requires rt.Valid() && (op.NewArray? || op.NewObject? || op.Undefined? || op.Null?)
      modifies rt
      ensures fresh(v) && v.alive && rt.Valid() && v.handle == old(rt.nextHandle) && v.handle !in old(rt.counts)
      ensures rt.counts == old(rt.counts)[v.handle := 1]
      ensures rt.trace == old(rt.trace) + [Produced(op, v.handle)]
      ensures rt.Counters() == (old(rt.nextHandle) + 1, old(rt.nextToken), old(rt.nextCaller))
    {
      var h := rt.Produce(op);
      v := new Val.TakeOwnership(h);
    }

    /** ~val: one count less, and the end of the val's lifetime. A
        moved-from val decrements the sentinel 0, which the foreign side
        ignores. */
    method Destroy(rt: Runtime)
      requires alive && rt.Valid() && Live(rt.counts, handle)
      modifies this, rt
      ensures !alive && handle == old(handle)
      ensures rt.Valid() && rt.counts == Decref(old(rt.counts), handle)
      ensures rt.trace == old(rt.trace) && rt.Counters() == old(rt.Counters())
    {
      rt.Decref(handle);
      alive := false;
    }

    /** operator=(val&&): decrement the old handle, steal the source's,
        zero the source. When the source is this val, the handle is
        decremented and the val is left at 0. */
    method MoveAssign(rt: Runtime, v: Val)
      requires alive && v.alive && rt.Valid() && Live(rt.counts, handle)
      modifies this, v, rt
      ensures rt.Valid() && rt.counts == Decref(old(rt.counts), old(handle))
      ensures v.handle == 0 && handle == if v == this then 0 else old(v.handle)
      ensures alive && v.alive
      ensures rt.trace == old(rt.trace) && rt.Counters() == old(rt.Counters())
    {
      rt.Decref(handle);
      handle := v.handle;
      v.handle := 0;
    }

    /** operator=(const val&): increment the incoming handle before
        decrementing the old one, then share the incoming handle; `x = x`
        changes nothing. */
    method CopyAssign(rt: Runtime, v: Val)
      requires alive && v.alive && rt.Valid() && Live(rt.counts, handle) && Live(rt.counts, v.handle)
      modifies this, rt
      ensures handle == old(v.handle) && v.handle == old(v.handle) && alive && v.alive
      ensures rt.Valid() && Live(Incref(old(rt.counts), old(v.handle)), old(handle))
      ensures rt.counts == Decref(Incref(old(rt.counts), old(v.handle)), old(handle))
      ensures v == this ==> rt.counts == old(rt.counts)
      ensures rt.trace == old(rt.trace) && rt.Counters() == old(rt.Counters())
    {
      rt.Incref(v.handle);
      rt.Decref(handle);
      handle := v.handle;
      if v == this {
        IncrefThenDecref(old(rt.counts), handle);
      }
    }

    /** operator[]: get_property with a temporary val(key), which is
        destroyed before operator[] returns. The key leaves no count behind;
        the result is a new handle at count 1. */
    method Get(rt: Runtime, key: Key) returns (r: Val)
      requires alive && rt.Valid() && Held(rt.counts, handle) && KeyReady(rt.counts, key)
      modifies rt
      ensures fresh(r) && r.alive && rt.Valid() && r.handle !in old(rt.counts)
      ensures r.handle == old(rt.nextHandle) + |KeyEvents(key, old(rt.nextHandle))|
      ensures rt.counts == old(rt.counts)[r.handle := 1]
      ensures rt.trace == old(rt.trace) + KeyEvents(key, old(rt.nextHandle)) +
                          [Produced(GetProperty(handle, KeyHandle(key, old(rt.nextHandle))), r.handle)]
      ensures rt.nextHandle == r.handle + 1
      ensures rt.nextToken == old(rt.nextToken) && rt.nextCaller == old(rt.nextCaller)
    {
      ghost var m, n := rt.counts, rt.nextHandle;
      var k := MakeKey(rt, key);
      var h := rt.Produce(GetProperty(handle, k.handle));
      r := new Val.TakeOwnership(h);
      ghost var m1 := rt.counts;
      k.Destroy(rt);
      TemporaryKeyNetZero(m, m1, rt.counts, k.handle, h, !CopiedKey(key));
    }

    /** set: put_property with a temporary val(key) and the by-value
        parameter `v`, copied from `value`; both are destroyed on return,
        so no count changes. */
    method Set(rt: Runtime, key: Key, value: Val)
      requires alive && value.alive
      requires rt.Valid() && Held(rt.counts, handle) && KeyReady(rt.counts, key) && Live(rt.counts, value.handle)
      modifies rt
      ensures rt.Valid() && rt.counts == old(rt.counts)
      ensures rt.trace == old(rt.trace) + KeyEvents(key, old(rt.nextHandle)) +
                          [PropertySet(handle, KeyHandle(key, old(rt.nextHandle)), value.handle)]
      ensures rt.nextHandle == old(rt.nextHandle) + |KeyEvents(key, old(rt.nextHandle))|
      ensures rt.nextToken == old(rt.nextToken) && rt.nextCaller == old(rt.nextCaller)
    {
      ghost var m := rt.counts;
      var v := new Val.Copy(rt, value);
      ghost var m0 := rt.counts;
      var k := MakeKey(rt, key);
      rt.SetProperty(handle, k.handle, v.handle);
      k.Destroy(rt);
      assert rt.counts == m0 by {
        if CopiedKey(key) {
          IncrefThenDecref(m0, k.handle);
        } else {
          FreshThenDecref(m0, k.handle);
        }
      }
      v.Destroy(rt);
      IncrefThenDecref(m, value.handle);
    }

    /** operator(): the arguments packed and handed to _emval_call with
        their types; the result is a new handle at count 1. */
    method Invoke(rt: Runtime, args: seq<Arg>) returns (r: Val)
      requires alive && rt.Valid() && Held(rt.counts, handle) && AllWellTyped(args) && ValsLive(rt.counts, args)
      modifies rt
      ensures fresh(r) && r.alive && rt.Valid() && r.handle == old(rt.nextHandle)
      ensures rt.counts == IncrefVals(old(rt.counts), args)[r.handle := 1]
      ensures rt.trace == old(rt.trace) + [Produced(CallValue(handle, TypesOf(args), Encode(args)), r.handle)]
      ensures rt.Counters() == (old(rt.nextHandle) + 1, old(rt.nextToken), old(rt.nextCaller))
    {
      var h := ProduceFromArguments(rt, handle, false, args);
      r := new Val.TakeOwnership(h);
    }

    /** new_: the arguments packed and handed to _emval_new with their
        types; the result is a new handle at count 1. */
    method New(rt: Runtime, args: seq<Arg>) returns (r: Val)
      requires alive && rt.Valid() && Held(rt.counts, handle) && AllWellTyped(args) && ValsLive(rt.counts, args)
      modifies rt
      ensures fresh(r) && r.alive && rt.Valid() && r.handle == old(rt.nextHandle)
      ensures rt.counts == IncrefVals(old(rt.counts), args)[r.handle := 1]
      ensures rt.trace == old(rt.trace) + [Produced(Construct(handle, TypesOf(args), Encode(args)), r.handle)]
      ensures rt.Counters() == (old(rt.nextHandle) + 1, old(rt.nextToken), old(rt.nextCaller))
    {
      var h := ProduceFromArguments(rt, handle, true, args);
      r := new Val.TakeOwnership(h);
    }

    /** call<ReturnValue>(name, args...): MethodCaller::call on this val's
        handle. */
    method Call(rt: Runtime, cache: CallerCache, name: string, inst: Instantiation, ret: Type, args: seq<Arg>)
      returns (result: Option<Word>, ghost answer: Word)
      requires alive && cache.Valid(rt) && Held(rt.counts, handle) && AllWellTyped(args) && ValsLive(rt.counts, args)
      requires inst.sig == SignatureOf(ret, args)
      modifies rt, cache
      ensures cache.Valid(rt) && result == if ret == Void then None else Some(answer)
      ensures inst in cache.callers
      ensures rt.trace == old(rt.trace) +
                CallEvents(inst !in old(cache.callers), inst, cache.callers[inst], handle, name, Encode(args), old(rt.nextToken), answer)
      ensures rt.counts == IncrefVals(old(rt.counts), args)
      ensures CleanedUp(old(rt.trace)) ==> CleanedUp(rt.trace)
      ensures rt.nextHandle == old(rt.nextHandle) && rt.nextToken == old(rt.nextToken) + 1
      ensures rt.nextCaller == old(rt.nextCaller) + (if inst in old(cache.callers) then 0 else 1)
    {
      result, answer := MethodCalls.Call(rt, cache, handle, name, inst, ret, args);
    }

    /** as<T>: _emval_as, with the destructor list it issues run by a
        DestructorsRunner after the result has been taken. */
    method As(rt: Runtime, t: Type) returns (result: Word)
      requires alive && rt.Valid() && Held(rt.counts, handle)
      modifies rt
      ensures rt.Valid() && rt.counts == old(rt.counts)
      ensures rt.trace == old(rt.trace) + [Coerced(handle, t, old(rt.nextToken), result), DestructorsRun(old(rt.nextToken))]
      ensures Issued(rt.trace, old(rt.nextToken)) == 1 && Ran(rt.trace, old(rt.nextToken)) == 1
      ensures CleanedUp(old(rt.trace)) ==> CleanedUp(rt.trace)
      ensures rt.Counters() == (old(rt.nextHandle), old(rt.nextToken) + 1, old(rt.nextCaller))
    {
      ghost var t0 := rt.trace;
      var raw, destructors := rt.As(handle, t);
      var dr := new DestructorsRunner(destructors);
      result := raw;
      dr.Destroy(rt);
      ScopedCleanup(t0, Coerced(handle, t, destructors, raw), destructors);
    }
  }

  /** The primitive operator() and new_ hand their packed arguments to:
      _emval_call, or _emval_new when constructing. */
  function ArgumentProducer(construct: bool, target: Handle, args: seq<Arg>): Producer
  {
    if construct then Construct(target, TypesOf(args), Encode(args)) else CallValue(target, TypesOf(args), Encode(args))
  }

  /** The body operator() and new_ share: the arguments packed into a
      WireTypePack (a `val` argument is incremented for the callee), then
      the primitive called on the target, returning a new handle at count 1. */
  method ProduceFromArguments(rt: Runtime, target: Handle, construct: bool, args: seq<Arg>) returns (h: Handle)
    requires rt.Valid() && Held(rt.counts, target) && AllWellTyped(args) && ValsLive(rt.counts, args)
    modifies rt
    ensures rt.Valid() && h == old(rt.nextHandle) && h !in old(rt.counts)
    ensures rt.counts == IncrefVals(old(rt.counts), args)[h := 1]
    ensures rt.trace == old(rt.trace) + [Produced(ArgumentProducer(construct, target, args), h)]
    ensures rt.Counters() == (old(rt.nextHandle) + 1, old(rt.nextToken), old(rt.nextCaller))
  {
    ghost var m := IncrefVals(rt.counts, args);
    var argv := PackArguments(rt, target, args);
    assert rt.counts == m;
    var op := if construct then Construct(target, TypesOf(args), argv) else CallValue(target, TypesOf(args), argv);
    h := rt.Produce(op);
    assert rt.counts == m[h := 1];
  }

  /** The temporary val(key) of operator[] and set: a new string or packed
      value at count 1, or a copy of a `val` key. */
  method MakeKey(rt: Runtime, key: Key) returns (k: Val)
    requires rt.Valid() && KeyReady(rt.counts, key)
    modifies rt
    ensures fresh(k) && k.alive && rt.Valid() && k.handle == KeyHandle(key, old(rt.nextHandle))
    ensures CopiedKey(key) ==> rt.counts == Incref(old(rt.counts), k.handle) && Held(old(rt.counts), k.handle)
    ensures !CopiedKey(key) ==> rt.counts == old(rt.counts)[k.handle := 1] && k.handle !in old(rt.counts)
    ensures rt.trace == old(rt.trace) + KeyEvents(key, old(rt.nextHandle))
    ensures rt.nextHandle == old(rt.nextHandle) + |KeyEvents(key, old(rt.nextHandle))|
    ensures rt.nextToken == old(rt.nextToken) && rt.nextCaller == old(rt.nextCaller)
  {
    if key.NameKey? {
      k := new Val.FromCString(rt, key.name);
    } else if key.a.ValArg? {
      // src only stands for the caller's `val` key, which owns key.a.h; it
      // is not a new owner and is not destroyed here.
      var src := new Val.TakeOwnership(key.a.h);
      k := new Val.Copy(rt, src);
    } else {
      k := new Val.FromValue(rt, key.a);
    }
  }

  /** The counts around a temporary key: made (fresh at count 1, or a copy),
      then the result made fresh at count 1, then the key destroyed, leave
      only the result behind. */
  lemma TemporaryKeyNetZero(m: Counts, m1: Counts, m2: Counts, k: Handle, r: Handle, freshKey: bool)
    requires Positive(m) && r != 0 && r !in m && r != k
    requires freshKey ==> k != 0 && k !in m && m1 == m[k := 1][r := 1]
    requires !freshKey ==> Held(m, k) && m1 == Incref(m, k)[r := 1]
    requires Live(m1, k) && m2 == Decref(m1, k)
    ensures m2 == m[r := 1]
  {
    var want := m[r := 1];
    forall x ensures Count(m2, x) == Count(want, x) {
      if x != r && x != k {
        assert Count(m1, x) == Count(m, x);
      }
    }
    SameCountsSameMap(m2, want);
  }

  /** The events of `obj[key].as<T>()` for a key made fresh by `key`, when
      n is the next fresh handle and tok the next token: the key made, the
      property read into a temporary, the temporary coerced to t (answering
      w), the coercion's destructor list run. */
  function ReadEvents(obj: Handle, key: Producer, n: Handle, tok: Token, t: Type, w: Word): (r: seq<Event>)
    ensures |r| == 4 && r[0].Produced? && r[1].Produced? && r[1].op == GetProperty(obj, r[0].h)
    ensures r[2].Coerced? && r[2].h == r[1].h && r[3] == DestructorsRun(r[2].tok)
  {
    [Produced(key, n), Produced(GetProperty(obj, n), n + 1), Coerced(n + 1, t, tok, w), DestructorsRun(tok)]
  }

  /** `obj[key].as<T>()` as one full expression, for a key that is not a
      `val`: the key temporary dies inside operator[], the property
      temporary at the end of the expression, so no count changes. */
  method ReadAs(rt: Runtime, obj: Val, key: Key, t: Type) returns (w: Word)
    requires obj.alive && rt.Valid() && Held(rt.counts, obj.handle) && KeyReady(rt.counts, key) && !CopiedKey(key)
    modifies rt
    ensures rt.Valid() && rt.counts == old(rt.counts)
    ensures rt.trace == old(rt.trace) + ReadEvents(obj.handle, KeyProducer(key), old(rt.nextHandle), old(rt.nextToken), t, w)
    ensures rt.nextHandle == old(rt.nextHandle) + 2
    ensures rt.nextToken == old(rt.nextToken) + 1 && rt.nextCaller == old(rt.nextCaller)
    ensures CleanedUp(old(rt.trace)) ==> CleanedUp(rt.trace)
  {
    ghost var m, t0 := rt.counts, rt.trace;
    var property := obj.Get(rt, key);
    QuietKeepsCounts(t0, rt.trace[|t0|..]);
    assert t0 + rt.trace[|t0|..] == rt.trace;
    w := property.As(rt, t);
    property.Destroy(rt);
    FreshThenDecref(m, property.handle);
  }

  /** The key temporary of element i: the `unsigned` i packed by
      _emval_take_value's WireTypePack, one 32-bit slot. */
  function IndexProducer(i: nat): Producer
  {
    TakeValue(Integer(4), [UnsignedSlot(ToUnsigned(i))])
  }

  /** `v[i].as<T>()` for an `unsigned` index i. */
  method ReadIndex(rt: Runtime, v: Val, i: nat, t: Type) returns (w: Word)
    requires v.alive && rt.Valid() && Held(rt.counts, v.handle)
    modifies rt
    ensures rt.Valid() && rt.counts == old(rt.counts)
    ensures rt.trace == old(rt.trace) + ReadEvents(v.handle, IndexProducer(i), old(rt.nextHandle), old(rt.nextToken), t, w)
    ensures rt.nextHandle == old(rt.nextHandle) + 2
    ensures rt.nextToken == old(rt.nextToken) + 1 && rt.nextCaller == old(rt.nextCaller)
    ensures CleanedUp(old(rt.trace)) ==> CleanedUp(rt.trace)
  {
    var key := ValueKey(IntegerArg(4, i));
    assert Encode([IntegerArg(4, i)]) == [UnsignedSlot(ToUnsigned(i))];
    w := ReadAs(rt, v, key, t);
  }

  /** The reads of elements 0 .. |ws| - 1, element i answering ws[i], when
      the first read starts at handle n and token tok. Each read makes two
      handles and issues one token. */
  function ElementReads(obj: Handle, n: Handle, tok: Token, t: Type, ws: seq<Word>): (u: seq<Event>)
    ensures |u| == 4 * |ws|
    decreases |ws|
  {
    if ws == [] then []
    else
      var i := |ws| - 1;
      ElementReads(obj, n, tok, t, ws[..i]) + ReadEvents(obj, IndexProducer(i), n + 2 * i, tok + i, t, ws[i])
  }

  /** Read i of ElementReads is the read of property i, answering ws[i]. */
  lemma {:induction false} ElementReadAt(obj: Handle, n: Handle, tok: Token, t: Type, ws: seq<Word>, i: nat)
    requires i < |ws|
    ensures ElementReads(obj, n, tok, t, ws)[4 * i .. 4 * i + 4] ==
              ReadEvents(obj, IndexProducer(i), n + 2 * i, tok + i, t, ws[i])
    decreases |ws|
  {
    var last := |ws| - 1;
    var whole := ElementReads(obj, n, tok, t, ws);
    var before := ElementReads(obj, n, tok, t, ws[..last]);
    var read := ReadEvents(obj, IndexProducer(last), n + 2 * last, tok + last, t, ws[last]);
    assert whole == before + read;
    if i < last {
      assert whole[4 * i .. 4 * i + 4] == before[4 * i .. 4 * i + 4];
      ElementReadAt(obj, n, tok, t, ws[..last], i);
      assert ws[..last][i] == ws[i];
    } else {
      assert whole[4 * i .. 4 * i + 4] == read;
    }
  }

  /** One more element read extends ElementReads by that read. */
  lemma ElementReadsSnoc(obj: Handle, n: Handle, tok: Token, t: Type, ws: seq<Word>, w: Word)
    ensures ElementReads(obj, n, tok, t, ws + [w]) ==
              ElementReads(obj, n, tok, t, ws) + ReadEvents(obj, IndexProducer(|ws|), n + 2 * |ws|, tok + |ws|, t, w)
  {
    assert (ws + [w])[..|ws|] == ws;
  }

  /** A trace that has made the reads of ws and then reads element |ws|
      has made the reads of ws + [w]. */
  lemma ReadsExtend(t0: seq<Event>, obj: Handle, n: Handle, tok: Token, t: Type, ws: seq<Word>, w: Word)
    ensures (t0 + ElementReads(obj, n, tok, t, ws)) + ReadEvents(obj, IndexProducer(|ws|), n + 2 * |ws|, tok + |ws|, t, w)
         == t0 + ElementReads(obj, n, tok, t, ws + [w])
  {
    ElementReadsSnoc(obj, n, tok, t, ws, w);
    var done, read := ElementReads(obj, n, tok, t, ws), ReadEvents(obj, IndexProducer(|ws|), n + 2 * |ws|, tok + |ws|, t, w);
    assert (t0 + done) + read == t0 + (done + read);
  }

  /** The events of vecFromJSArray: `length` read as an `unsigned` that
      answers |rv|, then element i read as T, answering rv[i], in order. */
  function ArrayReads(obj: Handle, n: Handle, tok: Token, t: Type, rv: seq<Word>): (u: seq<Event>)
    ensures |u| == 4 + 4 * |rv|
  {
    ReadEvents(obj, NewCString("length"), n, tok, Integer(4), |rv|) + ElementReads(obj, n + 2, tok + 1, t, rv)
  }

  /** The loop of vecFromJSArray: `v[i].as<T>()` for i from 0 while
      i < l, each result appended to rv. */
  method ReadElements(rt: Runtime, v: Val, l: nat, t: Type) returns (rv: seq<Word>)
    requires v.alive && rt.Valid() && Held(rt.counts, v.handle)
    modifies rt
    ensures |rv| == l
    ensures rt.Valid() && rt.counts == old(rt.counts)
    ensures rt.trace == old(rt.trace) + ElementReads(v.handle, old(rt.nextHandle), old(rt.nextToken), t, rv)
    ensures CleanedUp(old(rt.trace)) ==> CleanedUp(rt.trace)
    ensures rt.Counters() == (old(rt.nextHandle) + 2 * l, old(rt.nextToken) + l, old(rt.nextCaller))
  {
    ghost var m, t0, n, tok, obj := rt.counts, rt.trace, rt.nextHandle, rt.nextToken, v.handle;
    rv := [];
    var i: nat := 0;
    while i < l
      invariant i <= l && |rv| == i
      invariant rt.Valid() && rt.counts == m
      invariant rt.nextHandle == n + 2 * i && rt.nextToken == tok + i && rt.nextCaller == old(rt.nextCaller)
      invariant rt.trace == t0 + ElementReads(obj, n, tok, t, rv)
      invariant CleanedUp(t0) ==> CleanedUp(rt.trace)
    {
      var w := ReadIndex(rt, v, i, t);
      ReadsExtend(t0, obj, n, tok, t, rv, w);
      rv := rv + [w];
      i := i + 1;
    }
  }

  /** vecFromJSArray<T>: read v["length"] as an `unsigned` l, then v[i] as T
      for every i < l, collecting the results in order. The by-value
      parameter is a copy of the argument, released on return. The
      conversion of a generic wire value to T is not modelled: the answered
      word stands for the converted value. */
  method VecFromJsArray(rt: Runtime, v: Val, t: Type) returns (rv: seq<Word>)
    requires v.alive && rt.Valid() && Held(rt.counts, v.handle)
    modifies rt
    ensures rt.Valid() && rt.counts == old(rt.counts)
    ensures rt.trace == old(rt.trace) + ArrayReads(v.handle, old(rt.nextHandle), old(rt.nextToken), t, rv)
    ensures CleanedUp(old(rt.trace)) ==> CleanedUp(rt.trace)
    ensures rt.Counters() == (old(rt.nextHandle) + 2 + 2 * |rv|, old(rt.nextToken) + 1 + |rv|, old(rt.nextCaller))
  {
    ghost var m := rt.counts;
    var param := new Val.Copy(rt, v);
    var l := ReadAs(rt, param, NameKey("length"), Integer(4));
    rv := ReadElements(rt, param, l, t);
    param.Destroy(rt);
    IncrefThenDecref(m, v.handle);
  }
}
