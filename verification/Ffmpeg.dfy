/** The one-shot process slots of cameras/ffmpeg.ts: a counter of free slots and a queue of waiters. */
module Ffmpeg {
  import opened Semaphore

  const FFMPEG_MAX_CONCURRENT: nat := 4

  class FfmpegSlots {
    var free: int
    var waiters: seq<Call>
    /** The protocol state the two fields implement. */
    ghost var sem: Sem

    ghost predicate Valid()
      reads this
    {
      && sem.Inv() && sem.limit == FFMPEG_MAX_CONCURRENT
      && waiters == sem.queue
      && free == FFMPEG_MAX_CONCURRENT - |sem.holders|
    }

    constructor ()
      ensures Valid() && sem == Sem(FFMPEG_MAX_CONCURRENT, {}, [], [])
    {
      free, waiters := FFMPEG_MAX_CONCURRENT, [];
      sem := Sem(FFMPEG_MAX_CONCURRENT, {}, [], []);
    }

    /** The synchronous part of acquiring; `granted` tells whether the caller goes on without waiting. */
    method Acquire(c: Call) returns (granted: bool)
      requires Valid() && Enabled(sem, Arrive(c))
      modifies this
      ensures Valid() && sem == old(sem).Acquire(c)
      ensures granted <==> c in sem.holders
      ensures free + |sem.holders| == FFMPEG_MAX_CONCURRENT
    {
      StepKeepsInv(sem, Arrive(c));
      sem := sem.Acquire(c);
      if free > 0 {
        free := free - 1;
        return true;
      }
      waiters := waiters + [c];
      granted := false;
      assert sem.Arrivals()[|sem.Arrivals()| - 1] == c;
    }

    /** Gives the slot of c to the head of the queue, or back; the clamp to the maximum never changes the count. */
    method Release(c: Call) returns (woken: seq<Call>)
      requires Valid() && Enabled(sem, Finish(c))
      modifies this
      ensures Valid() && sem == old(sem).Release(c)
      ensures woken == old(sem.queue[..if sem.queue == [] then 0 else 1])
      ensures free == if old(sem.queue) == [] then old(free) + 1 else old(free)
    {
      StepKeepsInv(sem, Finish(c));
      sem := sem.Release(c);
      if waiters != [] {
        woken := [waiters[0]];
        waiters := waiters[1..];
        return;
      }
      woken := [];
      free := if FFMPEG_MAX_CONCURRENT < free + 1 then FFMPEG_MAX_CONCURRENT else free + 1;
    }
  }
}
