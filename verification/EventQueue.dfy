/** The Core 0 to Core 1 event queue: admitted on the same floor, never evicted, taken in order. */
module EventQueue {
  import opened Common

  class EventQueue<T> {
    const floor: int
    const heap: nat -> int              // what successive gc.mem_free() calls return
    const core1: nat -> nat             // how many events Core 1 takes at each release of the lock

    var readings: nat
    var releases: nat

    var queue: seq<T>
    var highWatermark: nat
    var rejected: nat
    var locked: bool

    ghost var admitted: seq<T>          // every event retained, in order
    ghost var taken: seq<T>             // every event Core 1 has taken, in order
    ghost var offered: nat

    /** Nothing admitted is lost or reordered, and every offer is admitted or counted as rejected. */
    ghost predicate Valid()
      reads this
    {
      && admitted == taken + queue
      && |queue| <= highWatermark <= |admitted|
      && offered == |admitted| + rejected
    }

    constructor (floor: int, heap: nat -> int, core1: nat -> nat)
      ensures Valid() && !locked && admitted == [] && offered == 0
      ensures this.floor == floor && this.heap == heap
    {
      this.floor, this.heap, this.core1 := floor, heap, core1;
      readings, releases, queue, highWatermark, rejected, locked := 0, 0, [], 0, 0, false;
      admitted, taken, offered := [], [], 0;
    }

    method MemFree() returns (free: int)
      modifies `readings
      ensures free == heap(old(readings)) && readings == old(readings) + 1
    {
      free := heap(readings);
      readings := readings + 1;
    }

    /** `take` */
    method Take() returns (event: Option<T>)
      requires Valid() && !locked
      modifies `queue, `taken
      ensures Valid()
      ensures old(queue) == [] ==> event.None? && queue == [] && taken == old(taken)
      ensures old(queue) != [] ==>
                event == Some(old(queue)[0]) && queue == old(queue)[1..] && taken == old(taken) + [old(queue)[0]]
    {
      if queue == [] {
        return None;
      }
      event := Some(queue[0]);
      taken := taken + [queue[0]];
      queue := queue[1..];
    }

    /** Leaving the queue lock: Core 1 may then take. */
    method Unlock()
      requires Valid() && locked
      modifies `locked, `releases, `queue, `taken
      ensures Valid() && !locked && old(taken) <= taken
    {
      locked := false;
      var n := core1(releases);
      releases := releases + 1;
      for i := 0 to n
        invariant Valid() && !locked && old(taken) <= taken
      {
        var _ := Take();
      }
    }

    /** `_count_rejection` */
    method CountRejection()
      requires Valid() && !locked
      modifies `locked, `releases, `queue, `taken, `rejected, `offered
      ensures Valid() && !locked && rejected == old(rejected) + 1 && offered == old(offered) + 1
      ensures old(taken) <= taken
    {
      locked := true;
      rejected, offered := rejected + 1, offered + 1;
      Unlock();
    }

    /** The event, in the queue already, stays there. */
    method Retain(ghost event: T)
      requires locked && queue != [] && queue[|queue| - 1] == event
      requires admitted + [event] == taken + queue && |queue| - 1 <= highWatermark <= |admitted|
      requires offered == |admitted| + rejected
      modifies `highWatermark, `locked, `releases, `queue, `taken, `admitted, `offered
      ensures Valid() && !locked && offered == old(offered) + 1
      ensures admitted == old(admitted) + [event] && old(taken) <= taken
      ensures highWatermark == if |old(queue)| > old(highWatermark) then |old(queue)| else old(highWatermark)
    {
      admitted, offered := admitted + [event], offered + 1;
      if |queue| > highWatermark {
        highWatermark := |queue|;
      }
      Unlock();
    }

    /** The event is taken out of the queue again and counted as rejected. */
    method Withdraw(ghost event: T)
      requires locked && queue != [] && queue[|queue| - 1] == event
      requires admitted + [event] == taken + queue && |queue| - 1 <= highWatermark <= |admitted|
      requires offered == |admitted| + rejected
      modifies `locked, `releases, `queue, `taken, `rejected, `offered
      ensures Valid() && !locked && offered == old(offered) + 1 && rejected == old(rejected) + 1
      ensures old(taken) <= taken
    {
      ghost var all := taken + queue;
      assert all[..|all| - 1] == taken + queue[..|queue| - 1];
      queue := queue[..|queue| - 1];
      Unlock();
      CountRejection();
    }

    /** `put`: whether the event is admitted is decided by the two readings that follow the chance to
        collect, the second taken with the event retained; a rejected event leaves no trace but the
        count, and the watermark is the longest the queue has been with an event retained. */
    method Put(event: T) returns (admits: bool)
      requires Valid() && !locked
      modifies this
      ensures Valid() && !locked && offered == old(offered) + 1
      ensures admits <==> heap(old(readings) + 1) >= floor && heap(old(readings) + 2) >= floor
      ensures admitted == if admits then old(admitted) + [event] else old(admitted)
      ensures rejected == if admits then old(rejected) else old(rejected) + 1
      ensures highWatermark
              == if admits && |old(queue)| + 1 > old(highWatermark) then |old(queue)| + 1 else old(highWatermark)
      ensures old(taken) <= taken
    {
      var free := MemFree();
      free := MemFree();
      if free < floor {
        CountRejection();
        return false;
      }
      locked := true;
      queue := queue + [event];
      free := MemFree();
      if free < floor {
        Withdraw(event);
        return false;
      }
      Retain(event);
      return true;
    }
  }
}
