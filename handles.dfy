/** The address-valued part of `coroutine_handle<void>` and `coroutine_handle<Promise>`:
    a handle is nothing but the address of a coroutine frame (null when it refers to none).
    Both handle kinds share this representation; the typed operations that need a frame
    (`promise`, `from_promise`) live in module HandleOps. */
module Handles {

  /** A raw `void*`; 0 plays the role of `nullptr`. */
  type Address = nat

  const NullAddress: Address := 0

  /** `coroutine_handle<P>`: its only field is `handle_`, the frame address. */
  datatype Handle = Handle(address: Address)

  /** The handle built by the default constructor, by `coroutine_handle(nullptr)`
      and left by `= nullptr`. */
  const Null: Handle := Handle(NullAddress)

  /** `from_address(addr)` (both the `void*` and the `nullptr_t` overload). */
  function FromAddress(a: Address): (h: Handle)
    ensures IsNonNull(h) <==> a != NullAddress
  {
    Handle(a)
  }

  /** `explicit operator bool`. */
  predicate IsNonNull(h: Handle): (r: bool)
    ensures r <==> h != Null
  {
    h.address != NullAddress
  }

  /** `operator==`: compares the addresses. */
  predicate Equal(a: Handle, b: Handle): (r: bool)
    ensures r <==> a == b
  {
    a.address == b.address
  }

  /** `operator<`: `less<void*>` on the addresses. */
  predicate Less(a: Handle, b: Handle): (r: bool)
    ensures r ==> a != b
    ensures a != b && !r ==> b.address < a.address
  {
    a.address < b.address
  }

  /** `hash<coroutine_handle<T>>`: `hash<void*>` of the address. The pointer hash belongs
      to the standard library, so it is a parameter here. */
  function Hash(h: Handle, hashPointer: Address -> nat): (r: nat)
    ensures forall b: Handle :: Equal(h, b) ==> r == hashPointer(b.address)
  {
    hashPointer(h.address)
  }

  /** `from_address(a).address() == a`, and a handle is rebuilt from its own address. */
  lemma AddressRoundTrip(a: Address, h: Handle)
    ensures FromAddress(a).address == a
    ensures FromAddress(h.address) == h
  {
  }

  /** Every way of spelling "no frame" gives the same null handle, which converts to false. */
  lemma NullForms()
    ensures FromAddress(NullAddress) == Null
    ensures Null.address == NullAddress
    ensures !IsNonNull(Null)
  {
  }

  /** Two handles are equal exactly when their addresses are, so `==` is identity of handles. */
  lemma EqualIffSameAddress(a: Handle, b: Handle)
    ensures Equal(a, b) <==> a.address == b.address
    ensures Equal(a, b) <==> a == b
  {
  }

  /** `<` is a strict total order consistent with `==`, so handles can key ordered containers. */
  lemma LessIsStrictTotalOrder(a: Handle, b: Handle, c: Handle)
    ensures !Less(a, a)
    ensures Less(a, b) && Less(b, c) ==> Less(a, c)
    ensures Less(a, b) || Equal(a, b) || Less(b, a)
    ensures !(Less(a, b) && Equal(a, b)) && !(Less(a, b) && Less(b, a))
  {
  }

  /** Equal handles hash equally, whatever the pointer hash is. */
  lemma EqualHandlesHashEqual(a: Handle, b: Handle, hashPointer: Address -> nat)
    requires Equal(a, b)
    ensures Hash(a, hashPointer) == Hash(b, hashPointer)
  {
  }
}

/** `suspend_never` and `suspend_always`: the two stateless awaiters. Their `await_suspend`
    and `await_resume` do nothing, so only `await_ready` carries behaviour. */
module Awaiters {

  datatype Awaiter = SuspendNever | SuspendAlways

  /** `await_ready`: true for `suspend_never` (continue at once), false for `suspend_always`. */
  predicate AwaitReady(aw: Awaiter): (r: bool)
    ensures r <==> aw == SuspendNever
  {
    match aw
    case SuspendNever => true
    case SuspendAlways => false
  }

  lemma AwaitReadyValues()
    ensures AwaitReady(SuspendNever)
    ensures !AwaitReady(SuspendAlways)
  {
  }
}
