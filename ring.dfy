/** The shared-memory rings (`compat_qxl_ring_create`, `_push`, `_pop`; src/compat/compat-qxl.h).
    Their bodies are not part of this model: a ring is a bounded FIFO of the capacity it was
    created with. */
module Rings {
  import opened Protocol

  class Ring<T> {
    /** The elements pushed and not yet popped, oldest first. */
    var items: seq<T>
    /** `n_elements` given to `compat_qxl_ring_create`. */
    const capacity: nat
    /** `prod_notify`: the port written to wake the consumer (0 for the release ring). */
    const notifyPort: int

    ghost predicate Valid()
      reads this
    {
      |items| <= capacity
    }

    constructor (capacity: nat, notifyPort: int)
      ensures Valid()
      ensures items == [] && this.capacity == capacity && this.notifyPort == notifyPort
    {
      this.capacity := capacity;
      this.notifyPort := notifyPort;
      items := [];
    }

    predicate IsFull()
      reads this
    {
      |items| >= capacity
    }

    /** `compat_qxl_ring_push`: pushing onto a full ring is the caller's error. */
    method Push(x: T)
      requires Valid() && !IsFull()
      modifies this
      ensures Valid()
      ensures items == old(items) + [x]
    {
      items := items + [x];
    }

    /** `compat_qxl_ring_pop`: never blocks; reports an empty ring with `None`. */
    method Pop() returns (r: Option<T>)
      requires Valid()
      modifies this
      ensures Valid()
      ensures old(items) == [] ==> r == None && items == []
      ensures old(items) != [] ==> r == Some(old(items)[0]) && items == old(items)[1..]
    {
      if items == [] {
        r := None;
      } else {
        r := Some(items[0]);
        items := items[1..];
      }
    }
  }
}
