/** `std::generator<T>`: a move-only owner of one coroutine handle, and its input iterator.
    Each operation is proved against the cursor functions of CoroSpec, so the iteration
    lemmas proved there describe what a sequence of these calls produces. */
module Generators {
  import opened Handles
  import opened CoroSpec
  import opened Frames
  import HandleOps

  /** `std::default_sentinel_t`, what `end()` returns. */
  datatype Sentinel = DefaultSentinel

  /** `generator::iterator`: a non-owning copy of the generator's handle. */
  class Iterator<T> {
    var coro: Handle

    /** `iterator() = default`: the null iterator. */
    constructor Default()
      ensures coro == Null
    {
      coro := Null;
    }

    /** `explicit iterator(coroutine_handle)`. */
    constructor (h: Handle)
      ensures coro == h
    {
      coro := h;
    }

    /** The iterator's handle names a frame that can still be resumed or queried. */
    ghost predicate Attached(rt: Runtime<T>)
      reads this, rt, rt.Repr
    {
      rt.Valid() && HandleOps.Usable(rt, coro) && Live(rt.frames[coro.address].State())
    }

    /** Prefix `operator++`: on a completed frame the handle becomes null; otherwise the
        frame is resumed exactly once. `done()` demands a non-null handle. */
    method Next(rt: Runtime<T>) returns (o: Outcome)
      requires rt.Valid() && Attached(rt)
      modifies this, rt.frames[coro.address], rt.frames[coro.address].promise
      ensures rt.Valid()
      ensures var f := rt.frames[old(coro).address];
        Cursor(IsNonNull(coro), f.State()) == Advanced(Cursor(true, old(f.State())))
      ensures IsNonNull(coro) ==> coro == old(coro)
      ensures o == Failed <==> rt.frames[old(coro).address].faulted
    {
      if HandleOps.Done(rt, coro) {
        coro := Null;
        o := Suspended;
      } else {
        o := HandleOps.Resume(rt, coro);
      }
    }

    /** `operator==(iterator, default_sentinel_t)`: the frame is done. As written it calls
        `done()` unguarded, so the handle must be non-null. */
    function EqualsEnd(rt: Runtime<T>): (r: bool)
      requires rt.Valid() && Attached(rt)
      reads this, rt, rt.Repr
      ensures r <==> HandleOps.Done(rt, coro)
    {
      HandleOps.Done(rt, coro)
    }

    /** The sentinel test as evidently intended: an iterator whose handle is null (the one
        `begin()` returns for a completed generator, or one advanced past the end) is at the
        end; for any other iterator it agrees with `EqualsEnd`. */
    function AtEnd(rt: Runtime<T>): (r: bool)
      requires rt.Valid() && (IsNonNull(coro) ==> Attached(rt))
      reads this, rt, rt.Repr
      ensures !IsNonNull(coro) ==> r
      ensures IsNonNull(coro) ==> (r <==> EqualsEnd(rt))
    {
      !IsNonNull(coro) || HandleOps.Done(rt, coro)
    }

    /** `operator!=(default_sentinel_t, iterator)` as written: it returns `done()` without
        negating it, so it always agrees with `==`. */
    function NotEqualsEndAsWritten(rt: Runtime<T>): (r: bool)
      requires rt.Valid() && Attached(rt)
      reads this, rt, rt.Repr
      ensures r == EqualsEnd(rt)
    {
      HandleOps.Done(rt, coro)
    }

    /** `operator!=` as evidently intended: the negation of `==`. */
    function NotEqualsEnd(rt: Runtime<T>): (r: bool)
      requires rt.Valid() && Attached(rt)
      reads this, rt, rt.Repr
      ensures r == !EqualsEnd(rt)
    {
      !HandleOps.Done(rt, coro)
    }

    /** `operator*` / `operator->`: the promise's `value_`, which while the frame is suspended
        at a yield is the value that yield produced. */
    function Deref(rt: Runtime<T>): (v: T)
      requires rt.Valid() && Attached(rt)
      reads this, rt, rt.Repr
      ensures var f := rt.frames[coro.address]; 1 <= f.pos <= |f.body| ==> v == f.body[f.pos - 1]
    {
      HandleOps.PromiseOf(rt, coro).value
    }
  }

  /** `generator<T>`: owns at most one handle; move-only. */
  class Generator<T> {
    var coro: Handle

    /** `generator() = default`: owns nothing. */
    constructor Default()
      ensures coro == Null
    {
      coro := Null;
    }

    /** `explicit generator(promise_type&)`, reached through `get_return_object`: owns the
        handle of the frame that contains the promise. */
    constructor FromPromise(p: Promise<T>)
      ensures coro == HandleOps.FromPromise(p)
    {
      coro := HandleOps.FromPromise(p);
    }

    /** Move constructor: takes the handle and leaves the source owning nothing. */
    constructor Move(rhs: Generator<T>)
      modifies rhs
      ensures coro == old(rhs.coro) && rhs.coro == Null
    {
      coro := rhs.coro;
      new;
      rhs.coro := Null;
    }

    /** Move assignment as written: takes the handle unless it is a self-assignment, and does
        NOT destroy the handle this generator owned before. */
    method MoveAssign(rhs: Generator<T>)
      modifies this, rhs
      ensures rhs == this ==> coro == old(coro)
      ensures rhs != this ==> coro == old(rhs.coro) && rhs.coro == Null
    {
      if rhs != this {
        coro := rhs.coro;
        rhs.coro := Null;
      }
    }

    /** Move assignment as evidently intended: the handle owned before is destroyed first, so
        no frame is left without an owner. */
    method MoveAssignReleasing(rt: Runtime<T>, rhs: Generator<T>)
      requires rt.Valid()
      requires rhs != this && IsNonNull(coro) ==> HandleOps.Usable(rt, coro) && !rt.frames[coro.address].destroyed
      modifies this, rhs
      modifies if rhs != this && IsNonNull(coro) && coro.address in rt.frames then {rt.frames[coro.address]} else {}
      ensures rt.Valid()
      ensures rhs == this ==> coro == old(coro)
      ensures rhs != this ==> coro == old(rhs.coro) && rhs.coro == Null
      ensures rhs != this && IsNonNull(old(coro)) ==> rt.frames[old(coro).address].destroyed
      ensures rhs != this && IsNonNull(old(coro)) ==>
        rt.frames[old(coro).address].State() == old(rt.frames[coro.address].State()).(destroyed := true)
    {
      if rhs != this {
        if IsNonNull(coro) {
          HandleOps.Destroy(rt, coro);
        }
        coro := rhs.coro;
        rhs.coro := Null;
      }
    }

    /** `begin()`: on a non-null, not-done handle resumes exactly once and returns an iterator
        over the same handle; on a done handle returns the null iterator without resuming; on
        a null handle returns an iterator over the null handle. */
    method Begin(rt: Runtime<T>) returns (it: Iterator<T>, o: Outcome)
      requires rt.Valid()
      requires IsNonNull(coro) ==> HandleOps.Usable(rt, coro) && Live(rt.frames[coro.address].State())
      modifies if IsNonNull(coro) && coro.address in rt.frames
               then {rt.frames[coro.address] as object, rt.frames[coro.address].promise} else {}
      ensures fresh(it) && rt.Valid()
      ensures !IsNonNull(coro) ==> it.coro == Null && o == Suspended
      ensures IsNonNull(coro) ==> var f := rt.frames[coro.address];
        Cursor(IsNonNull(it.coro), f.State()) == Began(old(f.State())) && (o == Failed <==> f.faulted)
      ensures IsNonNull(it.coro) ==> it.coro == coro
    {
      if IsNonNull(coro) {
        if HandleOps.Done(rt, coro) {
          it := new Iterator.Default();
          o := Suspended;
          return;
        }
        o := HandleOps.Resume(rt, coro);
      } else {
        o := Suspended;
      }
      it := new Iterator(coro);
    }

    /** `end()`. */
    function End(): Sentinel {
      DefaultSentinel
    }

    /** `empty()`: the owned frame is done; `done()` demands a non-null handle. */
    function Empty(rt: Runtime<T>): (r: bool)
      requires rt.Valid() && HandleOps.Usable(rt, coro) && Live(rt.frames[coro.address].State())
      reads this, rt, rt.Repr
      ensures r <==> HandleOps.Done(rt, coro)
    {
      HandleOps.Done(rt, coro)
    }

    /** The destructor: destroys the owned handle if and only if it is non-null. */
    method Destruct(rt: Runtime<T>)
      requires rt.Valid()
      requires IsNonNull(coro) ==> HandleOps.Usable(rt, coro) && !rt.frames[coro.address].destroyed
      modifies if IsNonNull(coro) && coro.address in rt.frames then {rt.frames[coro.address]} else {}
      ensures rt.Valid()
      ensures IsNonNull(coro) ==> rt.frames[coro.address].destroyed
      ensures IsNonNull(coro) ==>
        rt.frames[coro.address].State() == old(rt.frames[coro.address].State()).(destroyed := true)
    {
      if IsNonNull(coro) {
        HandleOps.Destroy(rt, coro);
      }
    }
  }
  /** Calling a generator coroutine: the engine allocates the frame with its promise,
      `get_return_object` wraps the promise's handle in a generator, and `initial_suspend`
      returns control to the caller before the body runs. */
  method Invoke<T>(rt: Runtime<T>, body: seq<T>, throws: bool, init: T) returns (g: Generator<T>, f: Frame<T>)
    requires rt.Valid()
    modifies rt
    ensures rt.Valid() && fresh(g) && fresh(f) && fresh(f.promise)
    ensures f.address !in old(rt.frames) && rt.frames == old(rt.frames)[f.address := f]
    ensures rt.Repr == old(rt.Repr) + {f, f.promise} && g !in rt.Repr
    ensures IsNonNull(g.coro) && g.coro.address == f.address
    ensures f.State() == Fresh(body, throws, init)
  {
    f := rt.Spawn(body, throws, init);
    g := new Generator.FromPromise(f.promise);
  }
}
