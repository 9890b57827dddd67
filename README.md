# Coroutine generator polyfill, modelled in Dafny

The repository is a small graphics demo. Its only reusable logic is a polyfill for C++20
coroutine machinery in `experimental_generator.hpp`. This project models that polyfill:

- `coroutine_handle<void>` / `coroutine_handle<Promise>`: a nullable reference to a
  coroutine frame, by address.
- `suspend_never` / `suspend_always`.
- `hash<coroutine_handle>`.
- The lazy `generator<T>`: its `promise_type`, its input `iterator`, `begin`/`end`/`empty`,
  move-only ownership and the destructor.

The compiler builtins (`__builtin_coro_resume`, `_destroy`, `_done`, `_promise`) are not
visible source. They are replaced by an abstract frame:

- the body's yields are a `seq<T>`, followed by either a normal return or a thrown exception;
- a suspension point `pos`: 0 at the initial suspend, k at the k-th `co_yield`, n+1 at the
  final suspend (`done()`);
- a `destroyed` flag, a `faulted` flag (the body's exception escaped), and the promise with
  its `value_`.

Frames live in an explicit engine (`Frames.Runtime`), a map from addresses to frames. A
handle is only an address, as in the source. `promise()` and `from_promise` are the
engine's frame↔promise lookups.

Layout:

- `handles.dfy`: modules `Handles` (address, `operator bool`, `==`, `<`, hash,
  `from_address`) and `Awaiters` (`await_ready`).
- `coro_spec.dfy`: module `CoroSpec`. This is the frame and iterator state machine as pure
  functions (`Resumed`, `Began`, `Advanced`). It also holds the lemmas about iterating a
  generator.
- `frames.dfy`: module `Frames`. It holds the classes `Promise`, `Frame` (the builtins) and
  `Runtime`; their methods are proved against `CoroSpec`.
- `handle_ops.dfy`: module `HandleOps`: handle `resume`, `destroy`, `done`, `promise`,
  `from_promise`.
- `generators.dfy`: module `Generators`: the classes `Iterator` and `Generator`, plus
  `Invoke`, which models calling a generator coroutine.
- `clients.dfy`: module `Clients`: straight-line callers that show what the contracts give
  for iteration, emptiness, failure and ownership.

For a body that yields nothing one might expect `empty()` to be true from the start. In the
code, `empty()` only asks `done()`. Because `initial_suspend` is `suspend_always`, a
fresh generator is never done, even when its body is empty. `empty()` becomes true only
after `begin()` has run the body. The model follows the code
(`CoroSpec.EmptyBodyDoneOnlyAfterBegin`, `Clients.EmptyBody`).

## Model

| member | source | states |
|---|---|---|
| `Handles.FromAddress` | experimental_generator.hpp:61-69 | `from_address(a)` gives a handle that is non-null exactly when `a` is non-null |
| `Handles.IsNonNull` | experimental_generator.hpp:41 | `operator bool` is true exactly for a handle other than the null handle |
| `Handles.Equal` | experimental_generator.hpp:76-78 | `==` holds exactly when the two handles are the same handle |
| `Handles.Less` | experimental_generator.hpp:79-81 | `<` never relates a handle to itself, and of two different handles that are not `<` the second has the smaller address |
| `Handles.Hash` | experimental_generator.hpp:204-210 | the hash of a handle is the pointer hash of the address of every handle equal to it |
| `Handles.AddressRoundTrip` | experimental_generator.hpp:120-131 | `from_address(a).address() == a`, and a handle is rebuilt from its own address |
| `Handles.NullForms` | experimental_generator.hpp:27-42 | the default handle, `from_address(nullptr)` and a handle after `= nullptr` are one null handle; its address is null and it converts to false |
| `Handles.EqualIffSameAddress` | experimental_generator.hpp:76-78 | two handles are equal iff their addresses are equal (so `==` is identity of handles) |
| `Handles.LessIsStrictTotalOrder` | experimental_generator.hpp:79-81 | `<` (`less<void*>` on addresses) is irreflexive and transitive, and exactly one of `<`, `==`, `>` holds |
| `Handles.EqualHandlesHashEqual` | experimental_generator.hpp:204-210 | equal handles hash equally, for any pointer hash |
| `Awaiters.AwaitReady` | experimental_generator.hpp:185-195 | `await_ready()` is true exactly for `suspend_never` |
| `Awaiters.AwaitReadyValues` | experimental_generator.hpp:185-195 | `suspend_never.await_ready()` is true; `suspend_always.await_ready()` is false |
| `CoroSpec.Fresh` | experimental_generator.hpp:223 | a newly called coroutine is well formed, usable and not done: the body has not run |
| `CoroSpec.Resumed` | experimental_generator.hpp:46-50 | one resume either moves to the next suspension point (storing the yielded value) or fails exactly when a throwing body runs past its last yield; the frame invariant is kept |
| `CoroSpec.Began` | experimental_generator.hpp:281-291 | the cursor `begin()` yields keeps the frame invariant |
| `CoroSpec.Advanced` | experimental_generator.hpp:246-254 | the cursor `++` yields keeps the frame invariant |
| `CoroSpec.WalkFrom` | experimental_generator.hpp:246-254 | from the j-th yield, k increments reach suspension point j+k; an increment from the final suspend nulls the handle |
| `CoroSpec.IterationSequence` | experimental_generator.hpp:246-273 | after `begin()` and k < n increments the iterator is not at the end and dereferences to `body[k]`; after n increments it equals `end()`; after n+1 its handle is null |
| `CoroSpec.FailureSurfaces` | experimental_generator.hpp:225 | a throwing body fails on exactly the resume past its last yield, on `begin()`'s resume if it yields nothing, and is unusable afterwards |
| `CoroSpec.EmptyBodyDoneOnlyAfterBegin` | experimental_generator.hpp:294 | for an empty body `done()` (hence `empty()`) is false before `begin()` and true after it |
| `CoroSpec.CompletedBeginDetaches` | experimental_generator.hpp:281-285 | `begin()` on a completed frame gives a null-handle iterator and leaves the frame unchanged |
| `Frames.Promise.constructor` | experimental_generator.hpp:219-220 | a promise records the address of its frame and the initial `value_` |
| `Frames.Promise.InitialSuspend` | experimental_generator.hpp:223 | `initial_suspend` is never ready |
| `Frames.Promise.FinalSuspend` | experimental_generator.hpp:224 | `final_suspend` is never ready |
| `Frames.Promise.YieldValue` | experimental_generator.hpp:226-229 | `yield_value(v)` sets `value_` to `v` and returns an awaiter that is not ready |
| `Frames.Frame.constructor` | experimental_generator.hpp:222-223 | a new frame is valid, owns a fresh promise and starts at the initial suspend point |
| `Frames.Frame.Resume` | experimental_generator.hpp:223-230 | the builtin resume moves the frame exactly as `CoroSpec.Resumed`; it reports `Failed` iff the body's exception escaped |
| `Frames.Frame.Destroy` | experimental_generator.hpp:51-54 | the builtin destroy needs a frame not yet destroyed; it sets only the `destroyed` flag |
| `Frames.Runtime.Spawn` | experimental_generator.hpp:222-223 | calling a coroutine allocates a fresh frame at an unused address; it is fresh and at its initial suspend, and all other frames are kept |
| `HandleOps.Done` | experimental_generator.hpp:55-58 | `done()` on a non-null handle is true iff the body has produced all its values and returned |
| `HandleOps.Resume` | experimental_generator.hpp:46-50 | `resume()` needs a non-null, not-done handle; it advances that frame by `CoroSpec.Resumed` and leaves the engine valid |
| `HandleOps.Destroy` | experimental_generator.hpp:51-54 | `destroy()` needs a non-null handle whose frame is not yet destroyed; it marks that frame destroyed and changes nothing else |
| `HandleOps.PromiseOf` | experimental_generator.hpp:114-117 | `promise()` is the promise of the handle's own frame |
| `HandleOps.FromPromise` | experimental_generator.hpp:140-147 | `from_promise(p)` is the handle at the address of the frame containing `p` |
| `HandleOps.PromiseRoundTrip` | experimental_generator.hpp:114-147 | `from_promise(p).promise()` is `p` itself, and `from_promise(h.promise()) == h` |
| `Generators.Iterator.Default` | experimental_generator.hpp:242-244 | the default iterator has the null handle |
| `Generators.Iterator.constructor` | experimental_generator.hpp:245 | the iterator copies the given handle |
| `Generators.Iterator.Next` | experimental_generator.hpp:246-254 | prefix `++` nulls the handle on a done frame and otherwise resumes exactly once (`CoroSpec.Advanced`); failure is reported |
| `Generators.Iterator.EqualsEnd` | experimental_generator.hpp:261-263 | `it == end()` iff the frame is done; it needs a non-null handle |
| `Generators.Iterator.AtEnd` | experimental_generator.hpp:261-263 | corrected sentinel test: a null-handle iterator is at the end; otherwise it agrees with `==` |
| `Generators.Iterator.NotEqualsEndAsWritten` | experimental_generator.hpp:265-267 | `end() != it` as written always equals `it == end()` |
| `Generators.Iterator.NotEqualsEnd` | experimental_generator.hpp:265-267 | corrected `!=`: the negation of `==` |
| `Generators.Iterator.Deref` | experimental_generator.hpp:268-279 | `*it` is the promise's `value_`; at the k-th yield that is the k-th yielded value |
| `Generators.Generator.Default` | experimental_generator.hpp:300 | a default generator owns the null handle |
| `Generators.Generator.FromPromise` | experimental_generator.hpp:296-299 | the generator owns the handle of the promise's frame |
| `Generators.Generator.Move` | experimental_generator.hpp:301-304 | move construction takes the handle and leaves the source null |
| `Generators.Generator.MoveAssign` | experimental_generator.hpp:311-316 | move assignment (as written) takes the handle and nulls the source, except on self-assignment; the old handle is dropped without destroy |
| `Generators.Generator.MoveAssignReleasing` | experimental_generator.hpp:311-316 | corrected move assignment: it also destroys the previously owned frame, and only that frame |
| `Generators.Generator.Begin` | experimental_generator.hpp:281-291 | `begin()` follows `CoroSpec.Began`. Non-null, not done: one resume, iterator over the same handle. Done: null iterator, no resume. Null: null iterator |
| `Generators.Generator.Empty` | experimental_generator.hpp:294 | `empty()` iff the owned frame is done; it needs a non-null handle |
| `Generators.Generator.Destruct` | experimental_generator.hpp:305-309 | the destructor destroys the owned frame iff the handle is non-null |
| `Generators.Invoke` | experimental_generator.hpp:222 | calling a generator coroutine yields a generator owning a fresh frame at its initial suspend |
| `Clients.IterateOneTwoThree` | experimental_generator.hpp:281-292 | for a body yielding 1, 2, 3, the values read through `begin`/`*`/`++` are exactly `[1, 2, 3]`; the third `++` gives `it == end()` |
| `Clients.NextValue` | experimental_generator.hpp:246-273 | `++it` then `*it` on a frame with a value left to yield: the iterator stays on the same live frame, the position advances by one, and the value read is the next element of the body |
| `Clients.IncrementPastEnd` | experimental_generator.hpp:246-249 | for a one-value body, after `begin()` and two increments the handle is null and the iterator no longer meets `Next`'s precondition: a third `++` would call `done()` on a null handle, which lines 56 and 84-87 assert against |
| `Clients.EmptyBody` | experimental_generator.hpp:294 | for an empty body `empty()` is false before `begin()`, and `begin() == end()` |
| `Clients.ThrowingBody` | experimental_generator.hpp:225 | a body that throws before yielding fails the first resume, which is the one `begin()` performs |
| `Clients.BeginAfterCompletion` | experimental_generator.hpp:281-285 | `begin()` on a completed generator returns a null-handle iterator; the corrected sentinel test reports it at the end |
| `Clients.MoveThenDestroyBoth` | experimental_generator.hpp:301-309 | construct, move and destroy both: the frame is destroyed, and a second destroy is ruled out by the precondition |
| `Clients.MoveAssignLeaks` | experimental_generator.hpp:311-316 | after `g1 = std::move(g2)` and destroying both, g1's original frame is never destroyed |
| `Clients.MoveAssignReleasingFreesBoth` | experimental_generator.hpp:311-316 | with the corrected move assignment, both frames are destroyed |

## Left out

- `main.cc` is not part of this model. It holds the display-server, EGL and GLES calls, the
  render loop, the callbacks over static globals, and float arithmetic.
- Promise-type detection (`coroutine_traits_sfinae`, `coroutine_traits`, lines 10-19) is
  left out. It is compile-time machinery; the model fixes the promise type of `generator<T>`.
- The `from_address(T*)` and `from_address(Promise*)` overloads (lines 70-73, 132-139) are
  left out. They are rejected at compile time by `static_assert` and have no runtime
  behaviour.
- The `noop_coroutine` block (lines 150-183) is left out. It depends on a builtin that is
  not available, and it does not compile as written (line 179).
- Post-increment `operator++(int)` (lines 255-259) is left out. It returns a reference to a
  local, so its result dangles.
- `operator()` (line 44) is not modelled separately. It only forwards to `resume()`, which
  `HandleOps.Resume` models.
- `operator->` is not modelled separately. It gives the address of the same `value_` that
  `Generators.Iterator.Deref` returns.
- `await_suspend`, `await_resume` and `return_void` are not modelled separately. They do
  nothing. `return_void` is part of the final step of `Frames.Frame.Resume`.
- `end()` (`Generators.Generator.End`) has no contract. It returns the stateless
  `default_sentinel`.
- The iterator's typedefs are left out. They carry no behaviour.
- Exceptions are modelled as a `Failed` outcome. `unhandled_exception() { throw; }` is that
  outcome reaching the resumer. After it the frame is marked faulted, and only `destroy` and
  the `promise()` lookup are allowed on it. C++ unwinding is not modelled.
- A body that never finishes is not modelled. A body is a finite sequence of yields.
- Frame layout, alignment and promise offsets are not modelled. The frame↔promise lookup is
  a field of the promise.
- Addresses are never reused. A destroyed frame stays in the engine, flagged, so a freed
  frame cannot be mistaken for a new one.
- `hash<void*>` is a parameter. The standard library's pointer hash is not visible source.
- HandleOps.Resume, HandleOps.Destroy, HandleOps.Done, HandleOps.PromiseOf: these require a
  non-null handle that names a frame the engine allocated. `resume`, `destroy` and `done`
  assert the non-null part (lines 47, 52 and 56). `promise()` asserts nothing: on a null
  handle it is undefined behaviour, which `HandleOps.Usable` excludes. `HandleOps.Resume`
  and `HandleOps.Done` also require that the frame was neither destroyed nor left by an
  exception, and `HandleOps.Destroy` that it was not destroyed before.
  `HandleOps.PromiseOf` has no such requirement. Using a destroyed frame is undefined
  behaviour that no assertion catches (`is_suspended` only tests for null). A frame whose
  exception `unhandled_exception` rethrew sits at its final suspend point, where `done()`
  is defined and true. The model instead treats that frame as unusable except for
  `destroy` and `promise()`. This is a modelling choice: `done()` on such a frame is not
  modelled.
- The "exactly one owner" invariant across all generators is not stated as a global
  invariant. It shows in the contracts of `Generators.Generator.Move`,
  `Generators.Generator.MoveAssign` and `Generators.Generator.Destruct`, and in the
  `Clients` methods.

## Findings

| source | as written | input that shows it | evidently intended | confidence | as-written member | corrected member |
|---|---|---|---|---|---|---|
| experimental_generator.hpp:281-285 | `begin()` on a completed generator returns `{}`, a null-handle iterator; `it == end()` then calls `done()` on a null handle, which `done()`'s assertion forbids | a generator over an empty body: call `begin()`, then `begin()` again and compare the result with `end()` | a null-handle iterator compares equal to `end()` | high; not executed | `Generators.Iterator.EqualsEnd` (needs a non-null handle), shown by `Clients.BeginAfterCompletion` and `CoroSpec.CompletedBeginDetaches` | `Generators.Iterator.AtEnd` |
| experimental_generator.hpp:265-267 | `operator!=(default_sentinel_t, iterator)` returns `done()`, the same as `==` | any iterator over a finished frame: `end() != it` and `it == end()` are both true | `!=` returns `!done()` | high; not executed | `Generators.Iterator.NotEqualsEndAsWritten` | `Generators.Iterator.NotEqualsEnd` |
| experimental_generator.hpp:311-316 | move assignment overwrites the target's handle without destroying it | two generators, each owning a frame: `g1 = std::move(g2)`, then both destructors run; g1's first frame is never destroyed | destroy the previously owned handle before taking the new one | high; not executed | `Generators.Generator.MoveAssign`, shown by `Clients.MoveAssignLeaks` | `Generators.Generator.MoveAssignReleasing`, shown by `Clients.MoveAssignReleasingFreesBoth` |
