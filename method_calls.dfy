/** Calling a foreign method by name: the per-instantiation method-caller memo
    (Signature<ReturnType, Args...>::get_method_caller), the scope guard
    that runs a call's destructor list (DestructorsRunner), and
    MethodCaller<ReturnType, Args...>::call with its `void` variant. */
module MethodCalls {
  import opened Refcount
  import opened WireSlots
  import opened Boundary
  import opened Packing

  /** The signature of a method caller: ArgTypeList<ReturnType, Args...>,
      whose count includes the return type. */
  function SignatureOf(ret: Type, args: seq<Arg>): (sig: Signature)
    ensures |sig| == |args| + 1 && sig[0] == ret
    ensures forall k :: 0 <= k < |args| ==> sig[k + 1] == TypeOf(args[k])
  {
    [ret] + TypesOf(args)
  }

  /** The memo holds exactly the instantiations the trace has generated a
      caller for, each generated once, with the caller that was generated. */
  ghost predicate Memoizes(callers: map<Instantiation, CallerId>, t: seq<Event>, nextCaller: nat)
  {
    && (forall inst :: Created(t, inst) == if inst in callers then 1 else 0)
    && (forall inst :: inst in callers ==> callers[inst] < nextCaller && CallerCreated(inst, callers[inst]) in t)
  }

  /** Boundary calls that generate no caller keep the memo exact. */
  lemma {:induction false} MemoSurvives(callers: map<Instantiation, CallerId>, t: seq<Event>, u: seq<Event>, n: nat, n': nat)
    requires Memoizes(callers, t, n) && n <= n'
    requires forall k :: 0 <= k < |u| ==> !u[k].CallerCreated?
    ensures Memoizes(callers, t + u, n')
  {
    forall inst ensures Created(t + u, inst) == if inst in callers then 1 else 0 {
      CreatedAppend(t, u, inst);
      NoCreation(u, inst);
    }
    forall inst | inst in callers ensures CallerCreated(inst, callers[inst]) in t + u {
      var k :| 0 <= k < |t| && t[k] == CallerCreated(inst, callers[inst]);
      assert (t + u)[k] == t[k];
    }
  }

  /** A trace without caller-generating events generates no caller for any
      instantiation. */
  lemma {:induction false} NoCreation(u: seq<Event>, inst: Instantiation)
    requires forall k :: 0 <= k < |u| ==> !u[k].CallerCreated?
    ensures Created(u, inst) == 0
    decreases |u|
  {
    if u != [] {
      var init := u[..|u| - 1];
      assert u == init + [u[|u| - 1]];
      CreatedSnoc(init, u[|u| - 1], inst);
      NoCreation(init, inst);
    }
  }

  /** Generating a caller issues and runs no destructor list. */
  lemma CreationKeepsCleanup(t: seq<Event>, e: Event)
    requires e.CallerCreated?
    ensures forall tok :: Issued(t + [e], tok) == Issued(t, tok) && Ran(t + [e], tok) == Ran(t, tok)
    ensures CleanedUp(t) ==> CleanedUp(t + [e])
  {
    forall tok ensures Issued(t + [e], tok) == Issued(t, tok) && Ran(t + [e], tok) == Ran(t, tok) {
      CountsSnoc(t, e, tok);
    }
  }

  /** The function-local statics `mc` of every Signature instantiation, as one
      table keyed by instantiation. */
  class CallerCache {
    var callers: map<Instantiation, CallerId>

    ghost predicate Valid(rt: Runtime)
      reads this, rt
    {
      rt.Valid() && Memoizes(callers, rt.trace, rt.nextCaller)
    }

    /** Before any Signature has been instantiated: no caller generated yet. */
    constructor (rt: Runtime)
      requires rt.Valid() && forall inst :: Created(rt.trace, inst) == 0
      ensures Valid(rt) && callers == map[]
    {
      callers := map[];
    }

    /** Signature<ReturnType, Args...>::get_method_caller for the
        instantiation inst: generates the caller on its first call
        (init_method_caller) and returns the stored one on every later call. */
    method GetMethodCaller(rt: Runtime, inst: Instantiation) returns (caller: CallerId)
      requires Valid(rt)
      modifies this, rt
      ensures Valid(rt) && callers == old(callers)[inst := caller]
      ensures inst in old(callers) ==> caller == old(callers)[inst]
      ensures rt.trace == old(rt.trace) + if inst in old(callers) then [] else [CallerCreated(inst, caller)]
      ensures CleanedUp(old(rt.trace)) ==> CleanedUp(rt.trace)
      ensures rt.counts == old(rt.counts) && rt.nextHandle == old(rt.nextHandle) && rt.nextToken == old(rt.nextToken)
      ensures rt.nextCaller == old(rt.nextCaller) + (if inst in old(callers) then 0 else 1)
    {
      if inst in callers {
        caller := callers[inst];
        assert rt.trace == old(rt.trace) + [];
      } else {
        ghost var t := rt.trace;
        caller := rt.GetMethodCaller(inst);
        CreationKeepsCleanup(t, CallerCreated(inst, caller));
        forall i ensures Created(rt.trace, i) == if i in callers[inst := caller] then 1 else 0 {
          CreatedSnoc(t, CallerCreated(inst, caller), i);
        }
        callers := callers[inst := caller];
      }
    }
  }

  /** The scope guard for one destructor list. Copying is deleted, so the
      list is run by exactly one destructor call. */
  class DestructorsRunner {
    const destructors: Token
    /** Whether ~DestructorsRunner has run. */
    ghost var done: bool

    constructor (d: Token)
      ensures destructors == d && !done
    {
      destructors := d;
      done := false;
    }

    /** ~DestructorsRunner: _emval_run_destructors on the list. */
    method Destroy(rt: Runtime)
      requires !done && rt.Valid() && Pending(rt.trace, destructors)
      modifies this, rt
      ensures done && rt.Valid() && rt.trace == old(rt.trace) + [DestructorsRun(destructors)]
      ensures rt.counts == old(rt.counts) && rt.Counters() == old(rt.Counters())
    {
      rt.RunDestructors(destructors);
      done := true;
    }
  }

  /** The events of one method call: the caller generated if the memo did not
      have it, the call itself, then the run of the destructor list it issued. */
  function CallEvents(created: bool, inst: Instantiation, caller: CallerId, h: Handle, name: string,
                      argv: seq<Slot>, tok: Token, answer: Word): (u: seq<Event>)
    ensures |u| == if created then 3 else 2
    ensures u[|u| - 2] == MethodCalled(caller, h, name, argv, tok, answer) && u[|u| - 1] == DestructorsRun(tok)
    ensures created ==> u[0] == CallerCreated(inst, caller)
  {
    (if created then [CallerCreated(inst, caller)] else []) +
    [MethodCalled(caller, h, name, argv, tok, answer), DestructorsRun(tok)]
  }

  /** A trace that generated the caller if it was missing, then made the
      call, ends in the call's events. */
  lemma CallTrace(t0: seq<Event>, created: bool, inst: Instantiation, caller: CallerId, h: Handle, name: string,
                  argv: seq<Slot>, tok: Token, answer: Word)
    ensures (t0 + (if created then [CallerCreated(inst, caller)] else [])) + [MethodCalled(caller, h, name, argv, tok, answer), DestructorsRun(tok)]
         == t0 + CallEvents(created, inst, caller, h, name, argv, tok, answer)
  {
  }

  /** _emval_call_method on packed slots, then the run of the destructor
      list it issued, by a guard local to the call. */
  method CallAndRun(rt: Runtime, caller: CallerId, h: Handle, name: string, argv: seq<Slot>)
    returns (answer: Word, ghost tok: Token)
    requires rt.Valid() && caller < rt.nextCaller && Held(rt.counts, h)
    modifies rt
    ensures rt.Valid() && tok == old(rt.nextToken) && rt.counts == old(rt.counts)
    ensures rt.Counters() == (old(rt.nextHandle), old(rt.nextToken) + 1, old(rt.nextCaller))
    ensures rt.trace == old(rt.trace) + [MethodCalled(caller, h, name, argv, tok, answer), DestructorsRun(tok)]
    ensures Issued(rt.trace, tok) == 1 && Ran(rt.trace, tok) == 1
    ensures CleanedUp(old(rt.trace)) ==> CleanedUp(rt.trace)
  {
    ghost var t := rt.trace;
    var destructors;
    answer, destructors := rt.CallMethod(caller, h, name, argv);
    tok := destructors;
    ScopedCleanup(t, MethodCalled(caller, h, name, argv, tok, answer), tok);
    var rd := new DestructorsRunner(destructors);
    rd.Destroy(rt);
  }

  /** The body MethodCaller<ReturnType, Args...>::call shares with its
      `void` variant once it has its caller: pack the arguments, call
      _emval_call_method, and run the destructor list it issued when the
      guard goes out of scope. In C++ the return value is converted from
      the answer before the guard runs; the conversion is not modelled, so
      the answer stands for it. It generates no caller, so the memo stays
      exact. */
  method CallThrough(rt: Runtime, cache: CallerCache, caller: CallerId, h: Handle, name: string, args: seq<Arg>)
    returns (answer: Word, ghost tok: Token)
    requires cache.Valid(rt) && caller < rt.nextCaller && Held(rt.counts, h)
    requires AllWellTyped(args) && ValsLive(rt.counts, args)
    modifies rt
    ensures cache.Valid(rt) && tok == old(rt.nextToken)
    ensures rt.Counters() == (old(rt.nextHandle), old(rt.nextToken) + 1, old(rt.nextCaller))
    ensures rt.trace == old(rt.trace) + [MethodCalled(caller, h, name, Encode(args), tok, answer), DestructorsRun(tok)]
    ensures rt.counts == IncrefVals(old(rt.counts), args)
    ensures Issued(rt.trace, tok) == 1 && Ran(rt.trace, tok) == 1
    ensures CleanedUp(old(rt.trace)) ==> CleanedUp(rt.trace)
  {
    ghost var t, n := rt.trace, rt.nextCaller;
    assert Memoizes(cache.callers, t, n);
    var argv := PackArguments(rt, h, args);
    answer, tok := CallAndRun(rt, caller, h, name, argv);
    ghost var e := MethodCalled(caller, h, name, argv, tok, answer);
    assert forall k :: 0 <= k < 2 ==> ![e, DestructorsRun(tok)][k].CallerCreated?;
    MemoSurvives(cache.callers, t, [e, DestructorsRun(tok)], n, n);
  }

  /** MethodCaller<ReturnType, Args...>::call and, for ret == Void, its
      `void` specialisation: the memoised caller for the signature, then the
      call. inst is the Signature instantiation the call names, whose tags
      are those of ret and args. The result is the generic wire value the
      method answered, or None for `void`, which performs no conversion. */
  method Call(rt: Runtime, cache: CallerCache, h: Handle, name: string, inst: Instantiation, ret: Type, args: seq<Arg>)
    returns (result: Option<Word>, ghost answer: Word)
    requires cache.Valid(rt) && Held(rt.counts, h) && AllWellTyped(args) && ValsLive(rt.counts, args)
    requires inst.sig == SignatureOf(ret, args)
    modifies rt, cache
    ensures cache.Valid(rt)
    ensures result == if ret == Void then None else Some(answer)
    ensures inst in cache.callers && cache.callers == old(cache.callers)[inst := cache.callers[inst]]
    ensures rt.trace == old(rt.trace) +
              CallEvents(inst !in old(cache.callers), inst, cache.callers[inst], h, name, Encode(args), old(rt.nextToken), answer)
    ensures rt.counts == IncrefVals(old(rt.counts), args)
    ensures Issued(rt.trace, old(rt.nextToken)) == 1 && Ran(rt.trace, old(rt.nextToken)) == 1
    ensures CleanedUp(old(rt.trace)) ==> CleanedUp(rt.trace)
    ensures rt.nextHandle == old(rt.nextHandle) && rt.nextToken == old(rt.nextToken) + 1
    ensures rt.nextCaller == old(rt.nextCaller) + (if inst in old(cache.callers) then 0 else 1)
  {
    ghost var created, t0 := inst !in cache.callers, rt.trace;
    var caller := cache.GetMethodCaller(rt, inst);
    assert cache.callers[inst] == caller;
    ghost var t1 := rt.trace;
    assert t1 == t0 + if created then [CallerCreated(inst, caller)] else [];
    var raw, tok := CallThrough(rt, cache, caller, h, name, args);
    answer := raw;
    result := if ret == Void then None else Some(raw);
    CallTrace(t0, created, inst, caller, h, name, Encode(args), tok, raw);
  }
}
