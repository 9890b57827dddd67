/** The operations of `coroutine_handle` that reach through the handle into its frame:
    `resume`, `destroy`, `done` (all three asserting a non-null handle, which is all that the
    polyfill's `is_suspended` checks) and the typed handle's `promise` / `from_promise`.
    Frames are looked up in the engine by the handle's address. */
module HandleOps {
  import opened Handles
  import opened CoroSpec
  import opened Frames

  /** The handle is non-null and names a frame the engine allocated. */
  ghost predicate Usable<T>(rt: Runtime<T>, h: Handle)
    reads rt
  {
    IsNonNull(h) && h.address in rt.frames
  }

  /** `done()`: the body has produced all its values and returned. */
  function Done<T>(rt: Runtime<T>, h: Handle): (r: bool)
    requires rt.Valid() && Usable(rt, h) && Live(rt.frames[h.address].State())
    reads rt, rt.Repr
    ensures r <==> rt.frames[h.address].pos > |rt.frames[h.address].body|
  {
    IsDone(rt.frames[h.address].State())
  }

  /** `resume()`: requires a non-null handle whose frame is not done; runs the frame to its
      next suspend point and leaves every other frame alone. */
  method Resume<T>(rt: Runtime<T>, h: Handle) returns (o: Outcome)
    requires rt.Valid() && Usable(rt, h)
    requires Live(rt.frames[h.address].State()) && !IsDone(rt.frames[h.address].State())
    modifies rt.frames[h.address], rt.frames[h.address].promise
    ensures rt.Valid()
    ensures rt.frames[h.address].State() == Resumed(old(rt.frames[h.address].State()))
    ensures o == Failed <==> rt.frames[h.address].faulted
  {
    var f := rt.frames[h.address];
    o := f.Resume();
    assert forall a | a in rt.frames && a != h.address :: rt.frames[a] != f && rt.frames[a].promise != f.promise;
  }

  /** `destroy()`: requires a non-null handle; frees its frame, which must not have been
      freed before. */
  method Destroy<T>(rt: Runtime<T>, h: Handle)
    requires rt.Valid() && Usable(rt, h) && !rt.frames[h.address].destroyed
    modifies rt.frames[h.address]
    ensures rt.Valid() && rt.frames[h.address].destroyed
    ensures rt.frames[h.address].State() == old(rt.frames[h.address].State()).(destroyed := true)
  {
    var f := rt.frames[h.address];
    f.Destroy();
    assert forall a | a in rt.frames && a != h.address :: rt.frames[a] != f;
  }

  /** `promise()`: the promise that lives in the handle's frame. */
  function PromiseOf<T>(rt: Runtime<T>, h: Handle): (p: Promise<T>)
    requires rt.Valid() && Usable(rt, h)
    reads rt, rt.Repr
    ensures p in rt.Promises() && p.home == h.address
  {
    rt.frames[h.address].promise
  }

  /** `from_promise(p)`: the handle of the frame that contains `p`. */
  function FromPromise<T>(p: Promise<T>): (h: Handle)
    ensures h.address == p.home
  {
    Handle(p.home)
  }

  /** `from_promise` and `promise` are inverse lookups: the promise of the handle made from
      `p` is `p` itself, and the handle made from a handle's promise is that handle. */
  lemma PromiseRoundTrip<T>(rt: Runtime<T>, p: Promise<T>, h: Handle)
    requires rt.Valid() && p in rt.Promises()
    ensures Usable(rt, FromPromise(p)) && PromiseOf(rt, FromPromise(p)) == p
    ensures Usable(rt, h) ==> FromPromise(PromiseOf(rt, h)) == h
  {
    var a :| a in rt.frames && rt.frames[a].promise == p;
    assert rt.frames[a].Valid();
  }
}
