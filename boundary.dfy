/** The foreign side as the native side reaches it: the `_emval_*`
    primitives. Their bodies are JavaScript; here each one only updates the
    reference counts, hands out a fresh handle, token or method caller, and
    records the call in a ghost trace of boundary events. What a foreign call
    answers is left arbitrary and recorded in the trace. */
module Boundary {
  import opened Refcount
  import opened WireSlots

  /** An EM_DESTRUCTORS: the list of cleanups a call leaves to be run. */
  type Token = nat

  /** An EM_METHOD_CALLER: a stub the foreign side generates per signature. */
  type CallerId = nat

  /** The signature of a method caller: the return type, then the argument types. */
  type Signature = seq<Type>

  /** One C++ instantiation Signature<ReturnType, Args...>: its template
      arguments as spelled (reference and cv qualifiers included) and the
      tag list ArgTypeList sends for them. Distinct instantiations may send
      the same tags: `int&` and `int`, or two integers of one width. */
  datatype Instantiation = Instantiation(spelling: seq<string>, sig: Signature)

  /** The primitives that return a new, already counted handle. */
  datatype Producer =
    | NewArray                                              // _emval_new_array
    | NewObject                                             // _emval_new_object
    | Undefined                                             // _emval_undefined
    | Null                                                  // _emval_null
    | NewCString(s: string)                                 // _emval_new_cstring
    | TakeValue(t: Type, argv: seq<Slot>)                   // _emval_take_value
    | GetProperty(obj: Handle, key: Handle)                 // _emval_get_property
    | CallValue(fn: Handle, types: seq<Type>, argv: seq<Slot>)    // _emval_call
    | Construct(ctor: Handle, types: seq<Type>, argv: seq<Slot>)  // _emval_new

  /** One call across the boundary, with what it returned. */
  datatype Event =
    | Produced(op: Producer, h: Handle)
    | PropertySet(obj: Handle, key: Handle, value: Handle)                     // _emval_set_property
    | Coerced(h: Handle, t: Type, tok: Token, result: Word)                    // _emval_as
    | MethodCalled(caller: CallerId, h: Handle, name: string, argv: seq<Slot>,
                   tok: Token, result: Word)                                   // _emval_call_method
    | CallerCreated(inst: Instantiation, caller: CallerId)                     // _emval_get_method_caller
    | DestructorsRun(tok: Token)                                               // _emval_run_destructors

  /** The event issues destructor list tok. */
  predicate Issues(e: Event, tok: Token)
  {
    (e.Coerced? || e.MethodCalled?) && e.tok == tok
  }

  /** The event runs destructor list tok. */
  predicate RunsToken(e: Event, tok: Token)
  {
    e.DestructorsRun? && e.tok == tok
  }

  /** The event generates a method caller at the request of inst. The
      primitive itself is only given inst.sig; the trace also records which
      instantiation asked. */
  predicate Creates(e: Event, inst: Instantiation)
  {
    e.CallerCreated? && e.inst == inst
  }

  /** How often the trace has issued destructor list tok. */
  function Issued(t: seq<Event>, tok: Token): nat
    decreases |t|
  {
    if t == [] then 0 else Issued(t[..|t| - 1], tok) + (if Issues(t[|t| - 1], tok) then 1 else 0)
  }

  /** How often the trace has run destructor list tok. */
  function Ran(t: seq<Event>, tok: Token): nat
    decreases |t|
  {
    if t == [] then 0 else Ran(t[..|t| - 1], tok) + (if RunsToken(t[|t| - 1], tok) then 1 else 0)
  }

  /** How often the trace has generated a method caller for inst. */
  function Created(t: seq<Event>, inst: Instantiation): nat
    decreases |t|
  {
    if t == [] then 0 else Created(t[..|t| - 1], inst) + (if Creates(t[|t| - 1], inst) then 1 else 0)
  }

  /** The token counts of a trace extended by one event. */
  lemma CountsSnoc(t: seq<Event>, e: Event, tok: Token)
    ensures Issued(t + [e], tok) == Issued(t, tok) + (if Issues(e, tok) then 1 else 0)
    ensures Ran(t + [e], tok) == Ran(t, tok) + (if RunsToken(e, tok) then 1 else 0)
  {
    assert (t + [e])[..|t|] == t;
  }

  /** The creation count of a trace extended by one event. */
  lemma CreatedSnoc(t: seq<Event>, e: Event, inst: Instantiation)
    ensures Created(t + [e], inst) == Created(t, inst) + (if Creates(e, inst) then 1 else 0)
  {
    assert (t + [e])[..|t|] == t;
  }

  /** Creation counts add up over concatenated traces. */
  lemma {:induction false} CreatedAppend(t: seq<Event>, u: seq<Event>, inst: Instantiation)
    ensures Created(t + u, inst) == Created(t, inst) + Created(u, inst)
    decreases |u|
  {
    if u == [] {
      assert t + u == t;
    } else {
      var init, last := u[..|u| - 1], u[|u| - 1];
      assert t + u == (t + init) + [last];
      assert u == init + [last];
      CreatedSnoc(t + init, last, inst);
      CreatedSnoc(init, last, inst);
      CreatedAppend(t, init, inst);
    }
  }

  /** The event mentions no destructor token from n on. */
  predicate TokenBelow(e: Event, n: nat)
  {
    match e
    case Coerced(_, _, tok, _) => tok < n
    case MethodCalled(_, _, _, _, tok, _) => tok < n
    case DestructorsRun(tok) => tok < n
    case _ => true
  }

  /** Every token the trace mentions is below n. */
  ghost predicate TokensBelow(t: seq<Event>, n: nat)
  {
    forall k :: 0 <= k < |t| ==> TokenBelow(t[k], n)
  }

  /** A token at or above every token a trace mentions has been neither
      issued nor run in it. */
  lemma {:induction false} FreshToken(t: seq<Event>, n: nat, tok: Token)
    requires TokensBelow(t, n) && n <= tok
    ensures Issued(t, tok) == 0 && Ran(t, tok) == 0
    decreases |t|
  {
    if t != [] {
      var init := t[..|t| - 1];
      assert t == init + [t[|t| - 1]];
      CountsSnoc(init, t[|t| - 1], tok);
      assert TokenBelow(t[|t| - 1], n);
      FreshToken(init, n, tok);
    }
  }

  /** A token issued in a trace is below the trace's bound. */
  lemma IssuedBelow(t: seq<Event>, n: nat, tok: Token)
    requires TokensBelow(t, n) && Issued(t, tok) > 0
    ensures tok < n
  {
    if n <= tok {
      FreshToken(t, n, tok);
    }
  }

  /** Destructor list tok has been issued more often than it has been run. */
  ghost predicate Pending(t: seq<Event>, tok: Token)
  {
    Ran(t, tok) < Issued(t, tok)
  }

  /** Issuing a token the trace has never mentioned leaves it pending, once. */
  lemma IssueFresh(t: seq<Event>, e: Event, n: nat)
    requires TokensBelow(t, n) && Issues(e, n)
    ensures Pending(t + [e], n)
    ensures Issued(t + [e], n) == 1 && Ran(t + [e], n) == 0
  {
    FreshToken(t, n, n);
    CountsSnoc(t, e, n);
  }

  /** Every destructor list issued in the trace has been run as often as it
      was issued. */
  ghost predicate CleanedUp(t: seq<Event>)
  {
    forall tok :: Ran(t, tok) == Issued(t, tok)
  }

  /** A call that issues a fresh token followed at once by the run of that
      token issues and runs that token exactly once, and keeps a cleaned-up
      trace cleaned up. */
  lemma ScopedCleanup(t: seq<Event>, e: Event, tok: Token)
    requires TokensBelow(t, tok) && Issues(e, tok)
    ensures Issued(t + [e, DestructorsRun(tok)], tok) == 1 && Ran(t + [e, DestructorsRun(tok)], tok) == 1
    ensures CleanedUp(t) ==> CleanedUp(t + [e, DestructorsRun(tok)])
  {
    FreshToken(t, tok, tok);
    var u := t + [e, DestructorsRun(tok)];
    assert u == (t + [e]) + [DestructorsRun(tok)];
    forall x ensures Ran(u, x) - Issued(u, x) == Ran(t, x) - Issued(t, x) {
      CountsSnoc(t, e, x);
      CountsSnoc(t + [e], DestructorsRun(tok), x);
    }
    CountsSnoc(t, e, tok);
    CountsSnoc(t + [e], DestructorsRun(tok), tok);
  }

  /** Events that neither issue nor run a destructor list leave every
      token's counts, and so a cleaned-up trace, as they were. */
  lemma {:induction false} QuietKeepsCounts(t: seq<Event>, u: seq<Event>)
    requires forall k :: 0 <= k < |u| ==> u[k].Produced? || u[k].PropertySet? || u[k].CallerCreated?
    ensures forall tok :: Issued(t + u, tok) == Issued(t, tok) && Ran(t + u, tok) == Ran(t, tok)
    ensures CleanedUp(t) ==> CleanedUp(t + u)
    decreases |u|
  {
    if u == [] {
      assert t + u == t;
    } else {
      var init, last := u[..|u| - 1], u[|u| - 1];
      assert t + u == (t + init) + [last];
      QuietKeepsCounts(t, init);
      forall tok ensures Issued(t + u, tok) == Issued(t, tok) && Ran(t + u, tok) == Ran(t, tok) {
        CountsSnoc(t + init, last, tok);
      }
    }
  }

  /** A handle a primitive may be given as an object: a real, counted handle. */
  ghost predicate Held(m: Counts, h: Handle)
  {
    h != 0 && Count(m, h) > 0
  }

  /** The handles a producing primitive is given are held. */
  ghost predicate Receives(m: Counts, op: Producer)
  {
    match op
    case GetProperty(obj, key) => Held(m, obj) && Held(m, key)
    case CallValue(fn, _, _) => Held(m, fn)
    case Construct(ctor, _, _) => Held(m, ctor)
    case _ => true
  }

  /** What a foreign call answers: any value. The JavaScript that computes it
      is not part of this model. */
  method ForeignAnswer() returns (w: Word)
  {
    w :| true;
  }

  class Runtime {
    /** The foreign reference count of every live handle. */
    ghost var counts: Counts
    /** Every call across the boundary other than incref and decref, in order. */
    ghost var trace: seq<Event>
    var nextHandle: Handle
    var nextToken: Token
    var nextCaller: CallerId

    ghost predicate Valid()
      reads this
    {
      && 0 < nextHandle
      && Positive(counts)
      && (forall h :: h in counts ==> h < nextHandle)
      && TokensBelow(trace, nextToken)
    }

    constructor ()
      ensures Valid() && counts == map[] && trace == []
    {
      counts, trace := map[], [];
      nextHandle, nextToken, nextCaller := 1, 0, 0;
    }

    /** The next handle, destructor token and method caller to be handed out. */
    function Counters(): (nat, nat, nat)
      reads this
    {
      (nextHandle, nextToken, nextCaller)
    }

    /** _emval_incref. */
    method Incref(h: Handle)
      requires Valid() && Live(counts, h)
      modifies this
      ensures Valid() && counts == Refcount.Incref(old(counts), h) && trace == old(trace)
      ensures Counters() == old(Counters())
    {
      counts := Refcount.Incref(counts, h);
    }

    /** _emval_decref. */
    method Decref(h: Handle)
      requires Valid() && Live(counts, h)
      modifies this
      ensures Valid() && counts == Refcount.Decref(old(counts), h) && trace == old(trace)
      ensures Counters() == old(Counters())
    {
      counts := Refcount.Decref(counts, h);
    }

    /** A primitive that returns a handle the caller owns: a fresh handle at count 1. */
    method Produce(op: Producer) returns (h: Handle)
      requires Valid() && Receives(counts, op)
      modifies this
      ensures Valid() && h == old(nextHandle) && h != 0 && h !in old(counts)
      ensures counts == old(counts)[h := 1] && trace == old(trace) + [Produced(op, h)]
      ensures nextHandle == old(nextHandle) + 1 && nextToken == old(nextToken) && nextCaller == old(nextCaller)
    {
      h := nextHandle;
      nextHandle := nextHandle + 1;
      counts := counts[h := 1];
      trace := trace + [Produced(op, h)];
    }

    /** _emval_set_property. */
    method SetProperty(obj: Handle, key: Handle, value: Handle)
      requires Valid() && Held(counts, obj) && Held(counts, key) && Live(counts, value)
      modifies this
      ensures Valid() && counts == old(counts) && trace == old(trace) + [PropertySet(obj, key, value)]
      ensures Counters() == old(Counters())
    {
      trace := trace + [PropertySet(obj, key, value)];
    }

    /** _emval_as: the foreign value coerced to t, and the cleanups it leaves. */
    method As(h: Handle, t: Type) returns (result: Word, tok: Token)
      requires Valid() && Held(counts, h)
      modifies this
      ensures Valid() && counts == old(counts) && tok == old(nextToken)
      ensures trace == old(trace) + [Coerced(h, t, tok, result)] && Pending(trace, tok)
      ensures nextHandle == old(nextHandle) && nextToken == old(nextToken) + 1 && nextCaller == old(nextCaller)
    {
      result := ForeignAnswer();
      tok := nextToken;
      nextToken := nextToken + 1;
      IssueFresh(trace, Coerced(h, t, tok, result), tok);
      trace := trace + [Coerced(h, t, tok, result)];
    }

    /** _emval_call_method through a caller this runtime generated. */
    method CallMethod(caller: CallerId, h: Handle, name: string, argv: seq<Slot>) returns (result: Word, tok: Token)
      requires Valid() && Held(counts, h) && caller < nextCaller
      modifies this
      ensures Valid() && counts == old(counts) && tok == old(nextToken)
      ensures trace == old(trace) + [MethodCalled(caller, h, name, argv, tok, result)] && Pending(trace, tok)
      ensures nextHandle == old(nextHandle) && nextToken == old(nextToken) + 1 && nextCaller == old(nextCaller)
    {
      result := ForeignAnswer();
      tok := nextToken;
      nextToken := nextToken + 1;
      IssueFresh(trace, MethodCalled(caller, h, name, argv, tok, result), tok);
      trace := trace + [MethodCalled(caller, h, name, argv, tok, result)];
    }

    /** _emval_get_method_caller, asked by inst with inst.sig. Every call
        generates a new caller, a foreign function object that is never
        freed, even for a tag list it has seen before; keeping the calls
        down is the memo's work (MethodCalls.Memoizes). */
    method GetMethodCaller(inst: Instantiation) returns (caller: CallerId)
      requires Valid()
      modifies this
      ensures Valid() && counts == old(counts) && caller == old(nextCaller)
      ensures trace == old(trace) + [CallerCreated(inst, caller)]
      ensures nextHandle == old(nextHandle) && nextToken == old(nextToken) && nextCaller == old(nextCaller) + 1
    {
      caller := nextCaller;
      nextCaller := nextCaller + 1;
      trace := trace + [CallerCreated(inst, caller)];
    }

    /** _emval_run_destructors on a list issued and not yet run. */
    method RunDestructors(tok: Token)
      requires Valid() && Pending(trace, tok)
      modifies this
      ensures Valid() && counts == old(counts) && trace == old(trace) + [DestructorsRun(tok)]
      ensures Counters() == old(Counters())
    {
      IssuedBelow(trace, nextToken, tok);
      trace := trace + [DestructorsRun(tok)];
    }
  }
}
