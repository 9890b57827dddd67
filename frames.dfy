/** The coroutine frames of `generator<T>` coroutines and the engine that owns them. The
    compiler builtins `__builtin_coro_resume`, `__builtin_coro_destroy`, `__builtin_coro_done`
    and `__builtin_coro_promise` act on these objects; each frame carries the state that
    `CoroSpec.Coro` describes, and every method here is proved against that description. */
module Frames {
  import opened Handles
  import opened Awaiters
  import opened CoroSpec

  /** `generator<T>::promise_type`: lives inside its frame and holds the pending `value_`. */
  class Promise<T> {
    /** The address of the frame that contains this promise. */
    const home: Address
    var value: T

    constructor (home: Address, init: T)
      ensures this.home == home && value == init
    {
      this.home := home;
      value := init;
    }

    /** `initial_suspend`: `suspend_always`, so the body does not run before the first resume. */
    function InitialSuspend(): (aw: Awaiter)
      ensures !AwaitReady(aw)
    {
      SuspendAlways
    }

    /** `final_suspend`: `suspend_always`, so a finished frame is kept until it is destroyed. */
    function FinalSuspend(): (aw: Awaiter)
      ensures !AwaitReady(aw)
    {
      SuspendAlways
    }

    /** `yield_value`: store the value and suspend. */
    method YieldValue(v: T) returns (aw: Awaiter)
      modifies this
      ensures value == v && !AwaitReady(aw)
    {
      value := v;
      aw := SuspendAlways;
    }
  }

  /** One coroutine frame: the body's yields, the suspension point, and the promise. */
  class Frame<T> {
    const address: Address
    const body: seq<T>
    const throws: bool
    const promise: Promise<T>
    var pos: nat
    var destroyed: bool
    var faulted: bool

    /** The frame's abstract state. */
    function State(): Coro<T>
      reads this, promise
    {
      Coro(body, throws, pos, promise.value, destroyed, faulted)
    }

    ghost predicate Valid()
      reads this, promise
    {
      address != NullAddress && promise.home == address && Wf(State())
    }

    /** Calling the coroutine: allocate the frame with its promise and stop at the initial
        suspend point, since `initial_suspend` is never ready. */
    constructor (address: Address, body: seq<T>, throws: bool, init: T)
      requires address != NullAddress
      ensures Valid() && fresh(promise)
      ensures this.address == address && State() == Fresh(body, throws, init)
    {
      this.address := address;
      this.body := body;
      this.throws := throws;
      var p := new Promise(address, init);
      // `initial_suspend` returns `suspend_always`: the frame stops before the body runs
      promise := p;
      pos := 0;
      destroyed := false;
      faulted := false;
    }

    /** `__builtin_coro_resume`: run the body to its next suspend point. */
    method Resume() returns (o: Outcome)
      requires Valid() && Live(State()) && !IsDone(State())
      modifies this, promise
      ensures Valid() && State() == Resumed(old(State()))
      ensures o == Failed <==> faulted
    {
      if pos < |body| {
        // `yield_value` returns `suspend_always`: control goes back to the resumer
        var aw := promise.YieldValue(body[pos]);
        pos := pos + 1;
        o := Suspended;
      } else if throws {
        // `unhandled_exception` rethrows; the exception reaches the resumer
        faulted := true;
        o := Failed;
      } else {
        // `return_void`, then `final_suspend`, which returns `suspend_always`: the frame
        // stays allocated
        pos := pos + 1;
        o := Suspended;
      }
    }

    /** `__builtin_coro_destroy`: free the frame; a frame is freed at most once. */
    method Destroy()
      requires Valid() && !destroyed
      modifies this
      ensures Valid() && State() == old(State()).(destroyed := true)
    {
      destroyed := true;
    }
  }

  /** The execution engine: every frame it has allocated, by address. Addresses are handed
      out in increasing order and never reused. */
  class Runtime<T> {
    var frames: map<Address, Frame<T>>
    var next: Address
    /** The frames and promises the engine has allocated. */
    ghost var Repr: set<object>

    ghost predicate Valid()
      reads this, Repr
    {
      0 < next &&
      forall a | a in frames ::
        0 < a < next && frames[a].address == a &&
        frames[a] in Repr && frames[a].promise in Repr && frames[a].Valid()
    }

    /** The promises of all allocated frames. */
    ghost function Promises(): set<Promise<T>>
      reads this
    {
      set a | a in frames :: frames[a].promise
    }

    constructor ()
      ensures Valid() && frames == map[]
    {
      frames := map[];
      next := 1;
      Repr := {};
    }

    /** Calling a generator coroutine: a new frame at a new address, at its initial suspend. */
    method Spawn(body: seq<T>, throws: bool, init: T) returns (f: Frame<T>)
      requires Valid()
      modifies this
      ensures Valid() && f.Valid() && fresh(f) && fresh(f.promise)
      ensures f.address !in old(frames) && frames == old(frames)[f.address := f]
      ensures Repr == old(Repr) + {f, f.promise}
      ensures f.State() == Fresh(body, throws, init)
    {
      f := new Frame(next, body, throws, init);
      frames := frames[next := f];
      next := next + 1;
      Repr := Repr + {f, f.promise};
    }
  }
}
