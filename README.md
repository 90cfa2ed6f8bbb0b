# emscripten `val`: ownership, argument packing, method callers

A Dafny model of the native half of `emscripten::val`
(`system/include/emscripten/val.h`). A `val` owns one handle (`EM_VAL`) to a
JavaScript value. The foreign side keeps a reference count per handle, and
every native operation must keep that count equal to the number of owners.
Arguments cross the boundary packed into 8-byte `GenericWireType` slots. A
named method is called through a method caller that is generated once per
C++ instantiation of `Signature<ReturnType, Args...>`. Every coercion and method call issues a list of destructors, and
the native side must run that list exactly once.

The `_emval_*` primitives are JavaScript and are not part of this model.
Their effect on the native side is the class `Boundary.Runtime`:
- a ghost map of reference counts that `_emval_incref` and `_emval_decref`
  update;
- fresh handles at count 1 from every primitive that returns an `EM_VAL`;
- fresh destructor tokens and method-caller ids;
- a ghost trace of every other boundary call, in order, with what it
  answered.

What a coercion or a method call answers is arbitrary. The model assumes
the foreign side ignores `_emval_incref(0)` and `_emval_decref(0)` (the
moved-from sentinel). This assumption is written into `Refcount.Incref`
and `Refcount.Decref`.

Modules:
- `Refcount`: the count map and the increment and decrement primitives.
- `Ownership`: a ledger of every holder of every handle. It proves that each
  `val` operation keeps every count equal to the number of its holders.
- `WireSlots`: wire types and slots, `PackSize`, the layout of a packed
  argument list, and a type-driven reader that recovers it.
- `Boundary`: the foreign runtime, the trace and the bookkeeping of destructor
  lists.
- `Packing`: `toWireType`, `writeGenericWireType(s)` and `WireTypePack`
  over an `array` of slots with a cursor.
- `MethodCalls`: the per-instantiation caller memo, `DestructorsRunner` and
  `MethodCaller::call`.
- `Emval`: the class `val` and `vecFromJSArray`. A ghost flag on each `val`
  marks its lifetime: constructors start it, the destructor ends it, and
  every other operation requires it.

## Model

| member | source | states |
|---|---|---|
| Refcount.Incref | system/include/emscripten/val.h:20 | `_emval_incref` raises the count of h by one and no other count; handle 0 is left alone |
| Refcount.Decref | system/include/emscripten/val.h:21 | `_emval_decref` lowers the count of h by one and no other count; a count reaching 0 drops the handle; handle 0 is left alone |
| Refcount.IncrefThenDecref | system/include/emscripten/val.h:321-329 | an increment followed by a decrement of the same handle restores every count (copy, then destroy the copy, is net zero) |
| Refcount.FreshThenDecref | system/include/emscripten/val.h:327-329 | a handle created at count 1 and destroyed once leaves the map as it was before the handle existed |
| Refcount.DecrefFirstReleases | system/include/emscripten/val.h:327-329 | destroying the only owner releases the handle |
| Refcount.SameCountsSameMap | system/include/emscripten/val.h:20-21 | two count maps that agree on every handle's count are equal |
| Ownership.Step | system/include/emscripten/val.h:315-343 | the ledger after one operation: constructors add a variable, the destructor removes one, assignments and `toWireType` keep the number; only the wire conversions change the foreign side's references; a move and `fromWireType` change no count |
| Ownership.HeldIsLive | system/include/emscripten/val.h:321-343 | in a balanced ledger every handle a `val` variable holds is live, so copy, destroy and the assignments are always allowed |
| Ownership.TakeKeepsBalance | system/include/emscripten/val.h:426-430 | the private constructor takes ownership of a fresh count-1 handle without an increment and keeps counts equal to holders |
| Ownership.CopyKeepsBalance | system/include/emscripten/val.h:321-325 | copy construction adds one holder and one count |
| Ownership.MoveKeepsBalance | system/include/emscripten/val.h:315-319 | move construction transfers the holder and leaves the source at 0, with no count change |
| Ownership.DestroyKeepsBalance | system/include/emscripten/val.h:327-329 | the destructor removes one holder and one count, and a moved-from 0 changes nothing |
| Ownership.CopyAssignKeepsBalance | system/include/emscripten/val.h:338-343 | copy assignment (increment the incoming handle, then decrement the old one) keeps counts equal to holders, aliasing included |
| Ownership.MoveAssignKeepsBalance | system/include/emscripten/val.h:331-336 | move assignment (decrement the old handle, steal, zero the source) keeps counts equal to holders, self-assignment included |
| Ownership.ToWireKeepsBalance | system/include/emscripten/val.h:441-444 | `toWireType` adds one count for the reference the callee now owns |
| Ownership.FromWireKeepsBalance | system/include/emscripten/val.h:445-447 | `fromWireType` turns a foreign-owned reference into a native holder without an increment |
| Ownership.StepKeepsBalance | system/include/emscripten/val.h:315-343 | every enabled `val` operation preserves the balance |
| Ownership.RunKeepsBalance | system/include/emscripten/val.h:315-343 | every sequence of enabled operations preserves the balance |
| Ownership.CopyThenDestroy | system/include/emscripten/val.h:321-329 | copying a `val` and destroying the copy restores the ledger exactly |
| Ownership.MoveThenDestroySource | system/include/emscripten/val.h:315-329 | destroying a moved-from source changes no count |
| Ownership.SelfCopyAssign | system/include/emscripten/val.h:338-343 | `x = x` by copy leaves the ledger, the handle and its count unchanged |
| Ownership.SelfMoveAssign | system/include/emscripten/val.h:331-336 | `x = std::move(x)` decrements the handle and leaves x at 0; a sole owner releases its handle |
| Ownership.ToWireThenFromWire | system/include/emscripten/val.h:441-447 | converting to wire form and back has the same effect as a copy |
| Ownership.OnlySentinels | system/include/emscripten/val.h:327-329 | a sequence that holds only the sentinel 0 holds no real handle |
| Ownership.NoHoldersNoCounts | system/include/emscripten/val.h:315-343 | in a balanced ledger with no native or foreign holders, no handle is live |
| WireSlots.ToUnsigned | system/include/emscripten/val.h:176-184 | `static_cast<unsigned>` on wasm32 is the value modulo 2^32 |
| WireSlots.WireBytes | system/include/emscripten/val.h:145 | wire sizes on wasm32: a pointer and an `EM_VAL` take 4 bytes, and every non-integer wire type is a multiple of 4 bytes and at most 12 |
| WireSlots.PackSize | system/include/emscripten/val.h:135-146 | for argument types (never `void`, integers of 1 to 8 bytes) the pack has between one and two slots per argument |
| WireSlots.WireOf | system/include/emscripten/val.h:191-195 | `toWireType`: only a `memory_view` has a two-word wire value, and a `val` travels as its handle |
| WireSlots.SlotsOf | system/include/emscripten/val.h:159-186 | each overload of `writeGenericWireType` writes one slot, or two for a `memory_view` |
| WireSlots.Encode | system/include/emscripten/val.h:188-195 | `writeGenericWireTypes` writes at least one slot per argument |
| WireSlots.TypesOf | system/include/emscripten/val.h:353 | `ArgTypeList<Args...>` of `new_` (and of `operator()`, line 379): one entry per argument, the argument's own type |
| WireSlots.SlotsOfMatchesWireSize | system/include/emscripten/val.h:143-146 | the slot count `PackSize` reserves for one argument is the number its writer overload writes: 1, or 2 for a `memory_view` |
| WireSlots.PackSizeAppend | system/include/emscripten/val.h:135-146 | `PackSize` of a concatenated type list is the sum of the parts |
| WireSlots.EncodeAppend | system/include/emscripten/val.h:188-195 | the layout of a concatenated argument list is the concatenation of the layouts |
| WireSlots.EncodedLength | system/include/emscripten/val.h:197-210 | the writer fills exactly the `PackSize` slots of the buffer |
| WireSlots.EncodeLayout | system/include/emscripten/val.h:159-195 | argument i occupies the slots from `PackSize` of the arguments before it, in argument order, and holds exactly what its overload writes |
| WireSlots.ReceivedAll | system/include/emscripten/val.h:159-186 | what the receiver sees of each argument, one entry per argument, in order |
| WireSlots.ReadOneFront | system/include/emscripten/val.h:159-186 | one argument's slots, read by its type from the front of a buffer, give back its wire value and slot count |
| WireSlots.DecodeEncode | system/include/emscripten/val.h:159-210 | reading the packed slots back by the same type list recovers every argument's wire value in order, with integers and `memory_view` fields cut to 32 bits |
| Boundary.CountsSnoc | system/include/emscripten/val.h:43-61 | how one more boundary event changes the issued and run counts of a destructor list |
| Boundary.CreatedSnoc | system/include/emscripten/val.h:51-55 | how one more boundary event changes the number of callers generated for an instantiation |
| Boundary.CreatedAppend | system/include/emscripten/val.h:53-55 | caller-creation counts add up over concatenated traces |
| Boundary.FreshToken | system/include/emscripten/val.h:15 | a destructor list the foreign side has just handed out has never been issued or run |
| Boundary.IssuedBelow | system/include/emscripten/val.h:15 | every issued destructor list was handed out earlier |
| Boundary.IssueFresh | system/include/emscripten/val.h:43 | a coercion or call issues its new destructor list exactly once and leaves it pending |
| Boundary.ScopedCleanup | system/include/emscripten/val.h:98-112 | a call followed at once by the run of the list it issued issues and runs that list exactly once, and keeps every list run as often as issued |
| Boundary.QuietKeepsCounts | system/include/emscripten/val.h:25-42 | primitives that return handles or set properties issue and run no destructor list |
| Boundary.Runtime.Incref | system/include/emscripten/val.h:20 | the count map after `_emval_incref`; nothing else changes |
| Boundary.Runtime.Decref | system/include/emscripten/val.h:21 | the count map after `_emval_decref`; nothing else changes |
| Boundary.Runtime.Produce | system/include/emscripten/val.h:25-41 | a handle-returning primitive gives a new handle that the caller owns at count 1 and records the call |
| Boundary.Runtime.SetProperty | system/include/emscripten/val.h:42 | `_emval_set_property` records the call and changes no count |
| Boundary.Runtime.As | system/include/emscripten/val.h:43 | `_emval_as` issues a fresh destructor list, left pending, and changes no count |
| Boundary.Runtime.CallMethod | system/include/emscripten/val.h:56-61 | `_emval_call_method` through a generated caller issues a fresh destructor list, left pending |
| Boundary.Runtime.GetMethodCaller | system/include/emscripten/val.h:51-55 | every call generates a new caller, for a tag list seen before too, and records which instantiation asked |
| Boundary.Runtime.RunDestructors | system/include/emscripten/val.h:23 | `_emval_run_destructors` runs only a pending list |
| Packing.ValHandles | system/include/emscripten/val.h:441-444 | the handles of the `val` arguments: exactly those the argument list holds |
| Packing.IncrefVals | system/include/emscripten/val.h:191-195 | after converting every argument, each real handle has one more count per `val` argument that holds it, and no other count changes |
| Packing.IncrefValsKeepsLive | system/include/emscripten/val.h:191-195 | converting arguments keeps every live handle live |
| Packing.IncrefValsSnoc | system/include/emscripten/val.h:191-195 | converting one more argument is one more `toWireType` |
| Packing.LayoutSnoc | system/include/emscripten/val.h:191-201 | writing argument i extends the layout by its slots and stays inside the buffer |
| Packing.ToWireType | system/include/emscripten/val.h:441-444 | the wire value of an argument; a `val` argument's handle comes back unchanged and its count is raised by one |
| Packing.WriteGenericWireType | system/include/emscripten/val.h:159-186 | the overload writes exactly its slots at the cursor: one for float, double, pointer and integer, and for a `memory_view` type and size in slot 0 and data in slot 1; it advances the cursor by that many and leaves the rest of the buffer alone |
| Packing.WriteArgument | system/include/emscripten/val.h:191-195 | one step of `writeGenericWireTypes`: the buffer prefix grows by the argument's slots |
| Packing.WireTypePack.constructor | system/include/emscripten/val.h:197-210 | the buffer has `PackSize` slots holding every argument's slots in order; each `val` argument gains one count |
| Packing.PackArguments | system/include/emscripten/val.h:197-206 | the slots a primitive receives are the packed layout; the target handle stays held |
| MethodCalls.SignatureOf | system/include/emscripten/val.h:93 | `ArgTypeList<ReturnType, Args...>`: the return type first, then one tag per argument, so the count includes the return value |
| MethodCalls.MemoSurvives | system/include/emscripten/val.h:86-89 | boundary calls that generate no caller keep the memo exact |
| MethodCalls.NoCreation | system/include/emscripten/val.h:51-55 | a trace without caller generation creates no caller for any instantiation |
| MethodCalls.CreationKeepsCleanup | system/include/emscripten/val.h:92-95 | generating a caller issues and runs no destructor list |
| MethodCalls.CallerCache.constructor | system/include/emscripten/val.h:86-87 | before any `Signature` is instantiated, no caller exists |
| MethodCalls.CallerCache.GetMethodCaller | system/include/emscripten/val.h:86-95 | the first request by an instantiation generates its caller and advances the caller counter; every later request by it returns the same caller with no boundary call; each instantiation generates at most one caller |
| MethodCalls.DestructorsRunner.constructor | system/include/emscripten/val.h:100-102 | the guard holds the list and has not run it |
| MethodCalls.DestructorsRunner.Destroy | system/include/emscripten/val.h:103-108 | the destructor runs the pending list once; copying is deleted, so no other run exists |
| MethodCalls.CallEvents | system/include/emscripten/val.h:214-245 | the events of one call, in order: the caller generated if the memo lacked it, the method call, then the run of its destructor list |
| MethodCalls.CallAndRun | system/include/emscripten/val.h:218-226 | the call's answer, then the run of the destructor list it issued: the list is issued and run exactly once, no count changes and one token is drawn |
| MethodCalls.CallThrough | system/include/emscripten/val.h:217-226 | pack, call, then run the issued destructor list after the call has returned: the list is issued and run exactly once, the memo stays exact, each `val` argument gains one count, and only the token counter advances |
| MethodCalls.Call | system/include/emscripten/val.h:212-246 | `MethodCaller::call`: the caller memoised for its own instantiation, the call, its destructor list issued and run exactly once; the result is the call's answer, or nothing for `void` |
| Emval.KeyEvents | system/include/emscripten/val.h:366-373 | the temporary `val(key)` makes one new handle, or none for a `val` key, which is copied |
| Emval.Val.TakeOwnership | system/include/emscripten/val.h:426-430 | adopts a handle without an increment |
| Emval.Val.Move | system/include/emscripten/val.h:315-319 | the target gets the source's handle, the source becomes 0, no count changes |
| Emval.Val.Copy | system/include/emscripten/val.h:321-325 | the same handle, with its count raised by one |
| Emval.Val.FromCString | system/include/emscripten/val.h:311-313 | a new string handle owned at count 1 |
| Emval.Val.FromValue | system/include/emscripten/val.h:298-307 | the value packed as a one-argument `WireTypePack` gives a new handle at count 1; a `val` value gains one count |
| Emval.Val.Make | system/include/emscripten/val.h:270-284 | `array`, `object`, `undefined` and `null` each give a new handle owned at count 1 |
| Emval.Val.Destroy | system/include/emscripten/val.h:327-329 | one count less and the end of the `val`'s lifetime, so no `val` is destroyed twice or used after destruction; a moved-from `val` changes no count |
| Emval.Val.MoveAssign | system/include/emscripten/val.h:331-336 | the old handle is decremented exactly once, the target takes the source's handle, the source becomes 0; a self-move leaves the target at 0 |
| Emval.Val.CopyAssign | system/include/emscripten/val.h:338-343 | increment before decrement, so the old handle is still live when it is decremented; `x = x` leaves every count unchanged |
| Emval.Val.Get | system/include/emscripten/val.h:365-368 | `operator[]`: the key temporary leaves no count behind; the result is a new handle at count 1 read from this object with the key's handle |
| Emval.Val.Set | system/include/emscripten/val.h:370-373 | `set`: the property is written with the key's handle and the value's handle, no count changes, and only the key makes a new handle |
| Emval.Val.Invoke | system/include/emscripten/val.h:375-387 | `operator()`: the packed arguments and their types are handed to `_emval_call`; the result is a new handle at count 1 |
| Emval.Val.New | system/include/emscripten/val.h:349-363 | `new_`: the packed arguments and their types are handed to `_emval_new`; the result is a new handle at count 1 |
| Emval.Val.Call | system/include/emscripten/val.h:389-394 | `call<R>`: `MethodCaller::call` on this `val`'s handle |
| Emval.Val.As | system/include/emscripten/val.h:402-415 | `as<T>`: the coercion's destructor list runs exactly once, after the coercion returns, and no count changes |
| Emval.ProduceFromArguments | system/include/emscripten/val.h:349-387 | the body `new_` and `operator()` share: the arguments packed with each `val` argument gaining one count, then `_emval_new` or `_emval_call` given the types and slots, whose new handle is owned at count 1 |
| Emval.MakeKey | system/include/emscripten/val.h:366-372 | the temporary `val(key)`: a new string or packed value at count 1, or a copy of a `val` key |
| Emval.TemporaryKeyNetZero | system/include/emscripten/val.h:365-368 | making a key, reading a property with it and destroying the key leaves only the result's count behind |
| Emval.ReadEvents | system/include/emscripten/val.h:452-456 | one `obj[key].as<T>()`: the key made, the property read from `obj` with the key's handle, that property temporary coerced, then the coercion's destructor list run |
| Emval.ReadAs | system/include/emscripten/val.h:452-456 | `obj[key].as<T>()` as one full expression: both temporaries are released, the coercion's list is run |
| Emval.ReadIndex | system/include/emscripten/val.h:456 | `v[i].as<T>()` with an `unsigned` index packed into one 32-bit slot |
| Emval.ElementReads | system/include/emscripten/val.h:455-457 | four events per element read |
| Emval.ElementReadAt | system/include/emscripten/val.h:455-457 | read i is the read of property i at its own handles and token, answering element i |
| Emval.ElementReadsSnoc | system/include/emscripten/val.h:455-457 | one more loop iteration appends exactly one element read |
| Emval.ReadsExtend | system/include/emscripten/val.h:454-458 | a trace holding the reads of the first i elements, followed by read i, holds the reads of the first i + 1 |
| Emval.ArrayReads | system/include/emscripten/val.h:451-461 | `length` read once, then one read per element |
| Emval.ReadElements | system/include/emscripten/val.h:454-458 | the loop reads elements 0 to l-1 in index order, appends each answer, returns exactly l elements and changes no count |
| Emval.VecFromJsArray | system/include/emscripten/val.h:451-461 | the vector has as many elements as the `length` read answered, element i is the answer of `v[i].as<T>()`, the reads happen in index order, every count is restored and every destructor list is run |

## Left out

- The JavaScript bodies of the `_emval_*` primitives. They are a class that only counts, hands out fresh handles and records calls. What a coercion or method call answers is an arbitrary `Word`.
- `_emval_incref(0)` and `_emval_decref(0)` being no-ops is an assumption about the foreign side, written into `Refcount.Incref` and `Refcount.Decref`.
- Floating point: `GenericWireTypeConverter`, `fromGenericWireType` and the bit patterns of float and double slots. Payloads are opaque `Word`s, and the answered `Word` stands for the converted result.
- `as<val>`, `call<val>` and `vecFromJSArray<val>`: the result would be a handle taken over with `fromWireType`. Results are modelled as words, so their ownership is not.
- `symbol_registrar` and `EMSCRIPTEN_SYMBOL`: static-initialisation side effects only.
- `typeof`, `global`, `module_property` and `has_implementation_defined_function`: each forwards to one foreign call with no native logic of its own.
- `hasOwnProperty` (`system/include/emscripten/val.h:345-347`): a composition of `global`, two `operator[]` reads, `val(key)` and `call<bool>`. Those pieces are modelled except `global`; the composition is not.
- `__get_handle` (`system/include/emscripten/val.h:418-420`): it returns the handle field and makes no foreign call.
- `emscripten/wire.h` is not part of this model. `BindingType`, `TypeID` and `ArgTypeList` for non-`val` types are tags with wasm32 wire sizes. An integer argument of any width is written through the generic overload as its low 32 bits.
- JavaScript exceptions thrown through a call, and the failure paths of the primitives.
- MethodCalls.CallerCache.GetMethodCaller: the memo is exact per instantiation of `Signature`. The warning at `system/include/emscripten/val.h:51-52` asks for at most one call per tag list. Two instantiations whose tags coincide each call `_emval_get_method_caller`, in C++ and in the model. Examples are `int&` against `int`, since `call` forwards its arguments, or two integer types of one width. The model does not prove the per-tag-list rule. Its `Instantiation` spells the template arguments as strings, and how `TypeID` maps them to tags lives in `emscripten/wire.h`.
- Thread safety of the function-local static in `Signature::get_method_caller`. The model is single-threaded.
- The release, on the JavaScript side, of the references that `val` arguments hand over in wire form.
- Emval.Val.Set: the by-value `val v` parameter is modelled as a copy of the argument that is destroyed on return. When the caller passes an rvalue, C++ moves instead, which differs only in that no increment and decrement pair occurs.
- Emval.VecFromJsArray: the by-value parameter is modelled the same way, as a copy released on return.
- Emval.VecFromJsArray: the `length` answer is an unbounded `Word`. The source's `unsigned` is below 2^32, and the model does not carry that bound.
- The class `Emval.Val` is not proved to take steps of the `Ownership` ledger. Its methods state their count changes directly, one operation of the ledger each, and the ghost lifetime flag rules out double destruction and use after destruction.
- Emval.ReadAs: covers only keys that are not `val`s, the only keys `vecFromJSArray` uses. `Emval.Val.Get` covers `val` keys.
- The destructor (`system/include/emscripten/val.h:327-329`) decrements unconditionally and relies on `_emval_decref(0)` being ignored.
