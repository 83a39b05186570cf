/**
 A buffer marked B_INVAL is out of the cache: no call brings it back but one of buf_getblk that returns it by a miss,
 under another request, whatever calls are made and whoever makes them.  Only a task that had gone to sleep on it
 before can still be handed it (module Woken).
 */
module ErrorContainment {
  import opened CacheModel
  import opened CacheInvariant
  import opened IoOutcome
  import opened Runs
  import opened Effects

  /** Some call of the run returned buffer j. */
  ghost predicate Returned(c: Cache, run: seq<Call>, j: nat)
    requires Shaped(c) && Runnable(c, run)
  {
    exists n :: 0 <= n < |run| && Acquired(StateAt(c, run, n), run[n]) == Some(j)
  }

  lemma ReturnedStep(c: Cache, run: seq<Call>, j: nat)
    requires Shaped(c) && Runnable(c, run) && run != []
    ensures Returned(c, run, j) <==> Acquired(c, run[0]) == Some(j) || Returned(Step(c, run[0]), run[1..], j)
  {
    hide Acquired, Step, Callable;
    var d, rest := Step(c, run[0]), run[1..];
    assert StateAt(c, run, 0) == c;
    assert forall n :: 0 <= n < |rest| ==> StateAt(c, run, n + 1) == StateAt(d, rest, n) && rest[n] == run[n + 1];
    assert forall n :: 1 <= n < |run| ==> StateAt(c, run, n) == StateAt(d, rest, n - 1) && run[n] == rest[n - 1];
  }

  lemma {:induction false} UnreturnedStays(c: Cache, run: seq<Call>, j: nat)
    requires WellFormed(c) && Runnable(c, run)
    requires j < |c.bufs| && c.bufs[j].flags.inval && !Returned(c, run, j)
    ensures Exec(c, run).bufs[j].flags.inval
    decreases |run|
  {
    if run != [] {
      StepKeeps(c, run[0]);
      StepEffect(c, run[0], j);
      ReturnedStep(c, run, j);
      UnreturnedStays(Step(c, run[0]), run[1..], j);
    }
  }

  /** In any run at all, an invalid buffer stays invalid until buf_getblk returns it. */
  lemma InvalidUntilReturned(c: Cache, run: seq<Call>, j: nat)
    requires WellFormed(c) && Runnable(c, run)
    requires j < |c.bufs| && c.bufs[j].flags.inval
    requires forall n :: 0 <= n < |run| ==> Acquired(StateAt(c, run, n), run[n]) != Some(j)
    ensures Exec(c, run).bufs[j].flags.inval
  {
    UnreturnedStays(c, run, j);
  }

  /** A call that does not sleep returns it by a miss: with a new request and without B_CACHE, so bread reads it. */
  lemma InvalidNeverHit(c: Cache, k: Key, size: nat, io: Completion)
    requires WellFormed(c) && Getblk(c, k, size).1.Got?
    requires c.bufs[Getblk(c, k, size).1.i].flags.inval
    ensures var (d, g) := Getblk(c, k, size);
            !d.bufs[g.i].flags.cache && MissOf(c.bufs[g.i], d.bufs[g.i], k, size)
    ensures var (e, r) := Bread(c, k, size, io);
            && r == Read(Getblk(c, k, size).1.i, Status(io))
            && e.bufs[r.i].data == if io.error == OK then Cell(c.disk, k) else io.junk
  {
    GetblkReturns(c, k, size);
    BreadTouches(c, k, size, io);
    BreadReturns(c, k, size, io);
  }

  /**
   A failed bread: its error code is not OK exactly when the read of the
   medium failed; then the buffer is invalid, and no later run hits it before it has been returned by a miss.
   */
  lemma FailedReadIsContained(c: Cache, k: Key, size: nat, io: Completion, run: seq<Call>)
    requires WellFormed(c) && Bread(c, k, size, io).1.Read?
    requires Runnable(Bread(c, k, size, io).0, run)
    ensures var (d, r) := Bread(c, k, size, io);
            && (r.status != OK <==> io.error != OK && !d.bufs[r.i].flags.cache)
            && (r.status != OK ==>
                  && d.bufs[r.i].error == r.status && d.bufs[r.i].flags.inval
                  && ((forall n :: 0 <= n < |run| ==> Acquired(StateAt(d, run, n), run[n]) != Some(r.i)) ==>
                      Exec(d, run).bufs[r.i].flags.inval))
  {
    BreadReturns(c, k, size, io);
    BreadKeeps(c, k, size, io);
    var (d, r) := Bread(c, k, size, io);
    if r.status != OK && !Returned(d, run, r.i) {
      UnreturnedStays(d, run, r.i);
    }
  }

  /** A failed synchronous bwrite: released, but invalid, with the error recorded. */
  lemma FailedWriteIsContained(c: Cache, i: nat, io: Completion, run: seq<Call>)
    requires WellFormed(c) && HasRequest(c, i) && Quiet(c, i)
    requires c.bufs[i].flags.busy && !c.bufs[i].flags.inval
    requires Runnable(Bwrite(c, i, io).0, run)
    ensures var (d, status) := Bwrite(c, i, io);
            && (status != OK <==> io.error != OK)
            && (status != OK ==>
                  && d.bufs[i].error == status && d.bufs[i].flags.inval && !d.bufs[i].flags.busy
                  && ((forall n :: 0 <= n < |run| ==> Acquired(StateAt(d, run, n), run[n]) != Some(i)) ==>
                      Exec(d, run).bufs[i].flags.inval))
  {
    BwriteReturns(c, i, io);
    BwriteKeeps(c, i, io);
    var (d, status) := Bwrite(c, i, io);
    if status != OK && !Returned(d, run, i) {
      UnreturnedStays(d, run, i);
    }
  }
}
