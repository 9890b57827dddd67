/** The abstract state machine of one `generator<T>` coroutine frame and of an iterator over it.
    The frame classes and the generator's methods are proved against these functions; the
    lemmas here state what iterating a generator produces.

    A frame's body yields `body[0], ..., body[n-1]` in order and then either returns
    (`return_void`) or throws. Its suspension point `pos` is 0 at the initial suspend,
    k in 1..n at the k-th `co_yield`, and n+1 at the final suspend (`done()`). */
module CoroSpec {

  /** What a resumer sees: control came back at a suspend point, or the body threw and
      `unhandled_exception` rethrew to the resumer. */
  datatype Outcome = Suspended | Failed

  /** One frame: the body, the suspension point, the promise's `value_`, whether the frame
      was destroyed, and whether the body's exception escaped it. */
  datatype Coro<T> = Coro(body: seq<T>, throws: bool, pos: nat, value: T, destroyed: bool, faulted: bool)

  /** The frame may still be resumed or queried: not destroyed, no escaped exception. */
  predicate Live<T>(c: Coro<T>) {
    !c.destroyed && !c.faulted
  }

  /** `done()`: suspended at the final suspend point. */
  predicate IsDone<T>(c: Coro<T>) {
    c.pos == |c.body| + 1
  }

  /** The frame invariant: the suspension point is in range, and while suspended at a yield
      the promise holds the value that yield passed to `yield_value`. */
  ghost predicate Wf<T>(c: Coro<T>) {
    c.pos <= |c.body| + 1 &&
    (1 <= c.pos <= |c.body| ==> c.value == c.body[c.pos - 1])
  }

  /** A frame just created by calling the coroutine: `initial_suspend` is `suspend_always`,
      so the body has not run and `value_` still holds its initial value. */
  function Fresh<T>(body: seq<T>, throws: bool, init: T): (c: Coro<T>)
    ensures Wf(c) && Live(c) && !IsDone(c)
    ensures c.pos == 0 && c.value == init && c.body == body && c.throws == throws
  {
    Coro(body, throws, 0, init, false, false)
  }

  /** One `resume`: run to the next `co_yield` (storing its value in `value_`), or to the
      final suspend point, or out through the body's exception. */
  function Resumed<T>(c: Coro<T>): (r: Coro<T>)
    requires Wf(c) && Live(c) && !IsDone(c)
    ensures Wf(r) && r.body == c.body && r.throws == c.throws && !r.destroyed
    ensures r.faulted <==> c.pos == |c.body| && c.throws
    ensures !r.faulted ==> r.pos == c.pos + 1
  {
    if c.pos < |c.body| then c.(pos := c.pos + 1, value := c.body[c.pos])
    else if c.throws then c.(faulted := true)
    else c.(pos := c.pos + 1)
  }

  /** An iterator's view: whether its handle is non-null, and the frame it was made over
      (the frame outlives the iterator's handle being nulled). */
  datatype Cursor<T> = Cursor(attached: bool, coro: Coro<T>)

  /** `generator::begin()` on a non-null handle: a completed frame gives the null iterator,
      otherwise the frame is resumed once and the iterator keeps the handle. */
  function Began<T>(c: Coro<T>): (cur: Cursor<T>)
    requires Wf(c) && Live(c)
    ensures Wf(cur.coro)
  {
    if IsDone(c) then Cursor(false, c) else Cursor(true, Resumed(c))
  }

  /** `iterator::operator++()`: a completed frame nulls the handle, otherwise one resume. */
  function Advanced<T>(cur: Cursor<T>): (r: Cursor<T>)
    requires cur.attached && Wf(cur.coro) && Live(cur.coro)
    ensures Wf(r.coro)
  {
    if IsDone(cur.coro) then cur.(attached := false) else Cursor(true, Resumed(cur.coro))
  }

  /** `k` further increments. It stops once the handle is null or the frame unusable,
      because `++` is not defined there: on a null handle its `done()` check fails. */
  function Walk<T>(cur: Cursor<T>, k: nat): (r: Cursor<T>)
    requires Wf(cur.coro)
    ensures Wf(r.coro)
    decreases k
  {
    if k == 0 || !cur.attached || !Live(cur.coro) then cur else Walk(Advanced(cur), k - 1)
  }

  /** The frame after its body has run to suspension point `j` without failing. */
  function At<T>(body: seq<T>, throws: bool, init: T, j: nat): (c: Coro<T>)
    requires j <= |body| + 1
    ensures Wf(c) && Live(c) && c.pos == j
  {
    Coro(body, throws, j,
         if j == 0 then init
         else if j <= |body| then body[j - 1]
         else if |body| == 0 then init
         else body[|body| - 1],
         false, false)
  }

  /** One resume moves a frame of a non-throwing body from point `j` to point `j + 1`. */
  lemma ResumedAt<T>(body: seq<T>, init: T, j: nat)
    requires j <= |body|
    ensures Resumed(At(body, false, init, j)) == At(body, false, init, j + 1)
  {
  }

  /** From the k-th yield, further increments step through the remaining yields, stop at
      the final suspend, and one increment more nulls the iterator's handle. */
  lemma {:induction false} WalkFrom<T>(body: seq<T>, init: T, j: nat, k: nat)
    requires 1 <= j <= |body| + 1 && j + k <= |body| + 2
    decreases k
    ensures Walk(Cursor(true, At(body, false, init, j)), k) ==
            if j + k <= |body| + 1 then Cursor(true, At(body, false, init, j + k))
            else Cursor(false, At(body, false, init, |body| + 1))
  {
    var cur := Cursor(true, At(body, false, init, j));
    if k > 0 {
      if j == |body| + 1 {
        assert Advanced(cur) == Cursor(false, At(body, false, init, |body| + 1));
        assert Walk(Cursor(false, At(body, false, init, |body| + 1)), k - 1) == Cursor(false, At(body, false, init, |body| + 1));
      } else {
        ResumedAt(body, init, j);
        assert Advanced(cur) == Cursor(true, At(body, false, init, j + 1));
        WalkFrom(body, init, j + 1, k - 1);
      }
    }
  }

  /** The iteration sequence of a generator whose body yields `body` and returns: after
      `begin()` and k increments the iterator is not at the end and dereferences to
      `body[k]`; after n increments it equals the end sentinel; one increment more nulls it. */
  lemma IterationSequence<T>(body: seq<T>, init: T, k: nat)
    ensures k < |body| ==>
      var cur := Walk(Began(Fresh(body, false, init)), k);
      cur.attached && !IsDone(cur.coro) && cur.coro.value == body[k]
    ensures var cur := Walk(Began(Fresh(body, false, init)), |body|);
      cur.attached && IsDone(cur.coro)
    ensures !Walk(Began(Fresh(body, false, init)), |body| + 1).attached
  {
    assert Fresh(body, false, init) == At(body, false, init, 0);
    ResumedAt(body, init, 0);
    assert Began(Fresh(body, false, init)) == Cursor(true, At(body, false, init, 1));
    if k < |body| {
      WalkFrom(body, init, 1, k);
    }
    WalkFrom(body, init, 1, |body|);
    WalkFrom(body, init, 1, |body| + 1);
  }

  /** The body's exception escapes through the resume that runs past its last yield (the
      first resume, from `begin()`, when nothing is yielded); every earlier resume suspends. */
  lemma FailureSurfaces<T>(body: seq<T>, init: T, j: nat)
    requires j <= |body|
    ensures Resumed(At(body, true, init, j)).faulted <==> j == |body|
    ensures j == |body| ==> !Live(Resumed(At(body, true, init, j)))
    ensures |body| == 0 ==> Began(Fresh(body, true, init)).coro.faulted
  {
    if |body| == 0 {
      assert Fresh(body, true, init) == At(body, true, init, 0);
    }
  }

  /** Laziness: a fresh generator is not done even when its body yields nothing, so
      `empty()` is false until `begin()` has run the body; after that it is done. */
  lemma EmptyBodyDoneOnlyAfterBegin<T>(init: T, throws: bool)
    ensures !IsDone(Fresh([], throws, init))
    ensures !throws ==> var cur := Began(Fresh([], throws, init)); cur.attached && IsDone(cur.coro)
  {
  }

  /** `begin()` on a frame that has already completed yields an iterator with a null handle,
      over the unchanged frame; nothing is resumed. */
  lemma CompletedBeginDetaches<T>(c: Coro<T>)
    requires Wf(c) && Live(c) && IsDone(c)
    ensures Began(c) == Cursor(false, c)
  {
  }
}
