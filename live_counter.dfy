/**
 * The live waitlist counter: `fetchCount` updates the total, a short-lived
 * growth badge and the loading flag (src/components/LiveCounter.tsx).
 *
 * The mount effect, the INSERT subscription and the 30-second poll all call
 * the `fetchCount` of the first render, whose `count` is 0. `FetchCountWith`
 * takes that remembered count as `seenCount`; the three event methods pass 0
 * as the source does, and `FetchCountCurrent` is the corrected handler that
 * reads the live count.
 */
module LiveCounter {
  import opened Wrappers

  /** The answer of the `count: 'exact'` query. */
  datatype CountReply = CountError | CountAnswer(total: Option<int>)

  /** The count the first render's closure remembers. */
  const MountCount := 0

  /** The growth badge for a fetch that returns `total` to a handler that saw `seen`: set only when both are positive growth over a positive count. */
  function GrowthBadge(seen: int, total: int): (g: int)
    ensures g != 0 <==> seen > 0 && total > seen
    ensures g != 0 ==> g == total - seen && g > 0
  {
    if total - seen > 0 && seen > 0 then total - seen else 0
  }

  /** With the count remembered at mount, no total ever produces a badge. */
  lemma MountClosureNeverShowsGrowth(total: int)
    ensures GrowthBadge(MountCount, total) == 0
  {
  }

  /**
   * The counter after the first load of 5 and a later insert that brings the
   * total to 7: the handler as written shows no badge, the corrected one
   * shows +2.
   */
  lemma GrowthLostAfterFirstLoad()
    ensures GrowthBadge(MountCount, 7) == 0
    ensures GrowthBadge(5, 7) == 2
  {
  }

  class Counter {
    var count: int
    var isLoading: bool
    var recentGrowth: int
    /** Timers scheduled to reset `recentGrowth` that have not fired yet. */
    var pendingClears: nat

    constructor ()
      ensures count == 0 && isLoading && recentGrowth == 0 && pendingClears == 0
    {
      count, isLoading, recentGrowth, pendingClears := 0, true, 0, 0;
    }

    /**
     * The body of `fetchCount`, reading the count its closure saw as
     * `seenCount`. An error or a null total keeps `count`; a badge is shown,
     * and a reset scheduled, only for growth over a positive seen count.
     */
    method FetchCountWith(reply: CountReply, seenCount: int)
      modifies this
      ensures !isLoading
      ensures reply.CountError? || reply.total.None? ==>
        count == old(count) && recentGrowth == old(recentGrowth) && pendingClears == old(pendingClears)
      ensures reply.CountAnswer? && reply.total.Some? ==>
        count == reply.total.value
        && (GrowthBadge(seenCount, reply.total.value) != 0 ==>
              recentGrowth == GrowthBadge(seenCount, reply.total.value) && pendingClears == old(pendingClears) + 1)
        && (GrowthBadge(seenCount, reply.total.value) == 0 ==>
              recentGrowth == old(recentGrowth) && pendingClears == old(pendingClears))
    {
      if reply.CountAnswer? && reply.total.Some? {
        var growth := reply.total.value - seenCount;
        if growth > 0 && seenCount > 0 {
          recentGrowth := growth;
          pendingClears := pendingClears + 1;
        }
        count := reply.total.value;
      }
      isLoading := false;
    }

    /** The mount effect's first fetch. */
    method OnMount(reply: CountReply)
      modifies this
      ensures !isLoading && recentGrowth == old(recentGrowth) && pendingClears == old(pendingClears)
      ensures count == if reply.CountAnswer? && reply.total.Some? then reply.total.value else old(count)
    {
      FetchCountWith(reply, MountCount);
    }

    /** A realtime INSERT event on the signup table (as written: the mount closure's fetch). */
    method OnInsertEvent(reply: CountReply)
      modifies this
      ensures !isLoading && recentGrowth == old(recentGrowth) && pendingClears == old(pendingClears)
      ensures count == if reply.CountAnswer? && reply.total.Some? then reply.total.value else old(count)
    {
      FetchCountWith(reply, MountCount);
    }

    /** The 30-second poll (as written: the mount closure's fetch). */
    method OnPoll(reply: CountReply)
      modifies this
      ensures !isLoading && recentGrowth == old(recentGrowth) && pendingClears == old(pendingClears)
      ensures count == if reply.CountAnswer? && reply.total.Some? then reply.total.value else old(count)
    {
      FetchCountWith(reply, MountCount);
    }

    /** Corrected handler: the fetch reads the count currently shown. */
    method FetchCountCurrent(reply: CountReply)
      modifies this
      ensures !isLoading
      ensures reply.CountAnswer? && reply.total.Some? && old(count) > 0 && reply.total.value > old(count) ==>
        count == reply.total.value && recentGrowth == reply.total.value - old(count) && pendingClears == old(pendingClears) + 1
      ensures reply.CountAnswer? && reply.total.Some? && (old(count) <= 0 || reply.total.value <= old(count)) ==>
        count == reply.total.value && recentGrowth == old(recentGrowth) && pendingClears == old(pendingClears)
      ensures reply.CountError? || reply.total.None? ==>
        count == old(count) && recentGrowth == old(recentGrowth) && pendingClears == old(pendingClears)
    {
      FetchCountWith(reply, count);
    }

    /** A scheduled 3-second reset fires. */
    method ClearGrowth()
      requires pendingClears > 0
      modifies this
      ensures recentGrowth == 0 && pendingClears == old(pendingClears) - 1
      ensures count == old(count) && isLoading == old(isLoading)
    {
      recentGrowth := 0;
      pendingClears := pendingClears - 1;
    }

    /** The badge is drawn while `recentGrowth` is positive. */
    predicate ShowsGrowth()
      reads this
    {
      recentGrowth > 0
    }
  }
}
