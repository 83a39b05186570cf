/**
 No note of a sleeper is lost.  B_WANTED, which buf_getblk sets before it sleeps on a buffer, stays on the locked buffer
 until the buffer's semaphore is given, whatever calls are made and whoever makes them.
 */
module Wakeups {
  import opened CacheModel
  import opened CacheInvariant
  import opened Runs

  /** B_WANTED stands on locked buffers only, and not beside a full semaphore. */
  predicate Noted(b: Buf) {
    b.flags.wanted ==> b.flags.busy && !b.sem
  }

  /** Where a sleeper was noted or the semaphore given, it is again one or the other. */
  predicate Wakes(b: Buf, b': Buf) {
    Noted(b) ==> Noted(b') && (b.flags.wanted || b.sem ==> b'.flags.wanted || b'.sem)
  }

  ghost predicate AllWake(c: Cache, d: Cache) {
    |d.bufs| == |c.bufs| && forall i :: 0 <= i < |c.bufs| ==> Wakes(c.bufs[i], d.bufs[i])
  }

  lemma Trans(c: Cache, d: Cache, e: Cache)
    requires AllWake(c, d) && AllWake(d, e)
    ensures AllWake(c, e)
  {
    forall i | 0 <= i < |c.bufs|
      ensures Wakes(c.bufs[i], e.bufs[i])
    {
      assert Wakes(d.bufs[i], e.bufs[i]);
    }
  }

  lemma GetblkWakes(c: Cache, k: Key, size: nat)
    requires WellFormed(c)
    ensures AllWake(c, Getblk(c, k, size).0)
  {
    hide Getblk, Matching, Touch, FindFirst, FindLastIdle;
    GetblkPass(c, k, size);
    match Incore(c, k)
    case None => MissWakes(c, k);
    case Some(i) =>
      if (!c.bufs[i].flags.busy || c.bufs[i].sem) && c.bufs[i].size != size {
        RetryIsMiss(c, k, size, i);
        DiscardKeeps(c, i);
        DiscardWakes(c, i);
        MissWakes(Discard(c, i), k);
        Trans(c, Discard(c, i), Miss(Discard(c, i), k).0);
      }
  }

  lemma DiscardWakes(c: Cache, i: nat)
    requires Shaped(c) && i < |c.bufs|
    ensures AllWake(c, Discard(c, i))
  {
  }

  lemma MissWakes(c: Cache, k: Key)
    requires WellFormed(c)
    ensures AllWake(c, Miss(c, k).0)
  {
    if Miss(c, k).1.Got? {
      MissReturns(c, k);
    }
  }

  lemma DoneWakes(c: Cache, i: nat, error: int)
    requires Shaped(c) && i < |c.bufs|
    ensures AllWake(c, BufDone(c, i, error))
  {
  }

  lemma StrategyWakes(c: Cache, i: nat, io: Completion)
    requires Shaped(c) && HasRequest(c, i)
    ensures AllWake(c, Strategy(c, i, io))
  {
    hide BufDone;
    var t := Transfer(c, i, io);
    assert AllWake(c, t);
    if io.ViaBuf? {
      DoneWakes(t, i, io.error);
      Trans(c, t, Strategy(c, i, io));
    }
  }

  lemma WaitWakes(c: Cache, i: nat)
    requires Shaped(c) && Completed(c, i)
    ensures AllWake(c, BufWait(c, i).0)
  {
    hide Reap, Fail;
    var d := c;
    if !c.bufs[i].flags.done {
      d := Reap(c, i);
      ReapWakes(c, i);
    }
    FailWakes(d, i);
    Trans(c, d, Fail(d, i));
  }

  lemma ReapWakes(c: Cache, i: nat)
    requires Shaped(c) && HasRequest(c, i)
    ensures AllWake(c, Reap(c, i))
  {
    hide BufDone;
    var b := c.bufs[i];
    var e := SetBuf(c, i, b.(bio := Some(b.bio.value.(sem := false)),
                             flags := b.flags.(error := b.flags.error || b.bio.value.error != OK)));
    DoneWakes(e, i, OK);
    Trans(c, e, Reap(c, i));
  }

  lemma FailWakes(c: Cache, i: nat)
    requires Shaped(c) && i < |c.bufs|
    ensures AllWake(c, Fail(c, i))
  {
  }

  lemma ReadWakes(c: Cache, i: nat, io: Completion)
    requires Shaped(c) && HasRequest(c, i)
    ensures AllWake(c, ReadIn(c, i, io).0)
  {
    hide Strategy, BufWait;
    var d := SetBuf(c, i, Reading(c.bufs[i]));
    StrategyWakes(d, i, io);
    StrategyCompletes(d, i, io);
    var e := Strategy(d, i, io);
    WaitWakes(e, i);
    Trans(c, d, e);
    Trans(c, e, BufWait(e, i).0);
  }

  lemma WriteWakes(c: Cache, i: nat, io: Completion)
    requires Shaped(c) && HasRequest(c, i)
    ensures AllWake(c, Bwrite(c, i, io).0)
  {
    hide Strategy, BufWait;
    if !c.bufs[i].flags.inval {
      var d := SetBuf(c, i, Writing(c.bufs[i]));
      StrategyWakes(d, i, io);
      StrategyCompletes(d, i, io);
      var e := Strategy(d, i, io);
      Trans(c, d, e);
      if !c.bufs[i].flags.async {
        WaitWakes(e, i);
        var f := BufWait(e, i).0;
        Trans(c, e, f);
        Trans(c, f, Brelse(f, i));
      }
    }
  }

  lemma StepWakes(c: Cache, a: Call)
    requires WellFormed(c) && Callable(c, a)
    ensures AllWake(c, Step(c, a))
  {
    hide Getblk, Bwrite, BufWait, ReadIn;
    match a
    case Get(k, size) => GetblkWakes(c, k, size);
    case Fetch(k, size, io) =>
      GetblkWakes(c, k, size);
      var (d, g) := Getblk(c, k, size);
      if g.Got? && !d.bufs[g.i].flags.cache {
        ReadWakes(d, g.i, io);
        Trans(c, d, ReadIn(d, g.i, io).0);
      }
    case Edit(_, _) =>
    case Scrap(_) =>
    case Swap(_, _) =>
    case Store(i, io) => WriteWakes(c, i, io);
    case StoreAsync(i, io) =>
      var d := SetFlags(c, i, c.bufs[i].flags.(async := true));
      WriteWakes(d, i, io);
      Trans(c, d, Bwrite(d, i, io).0);
    case Wait(i) => WaitWakes(c, i);
    case Release(_) =>
  }

  /** After some call of the run the semaphore of buffer j was full. */
  ghost predicate Given(c: Cache, run: seq<Call>, j: nat)
    requires Shaped(c) && Runnable(c, run) && j < |c.bufs|
  {
    exists n :: 0 < n <= |run| && StateAt(c, run, n).bufs[j].sem
  }

  lemma GivenStep(c: Cache, run: seq<Call>, j: nat)
    requires Shaped(c) && Runnable(c, run) && run != [] && j < |c.bufs|
    ensures Given(c, run, j) <==> Step(c, run[0]).bufs[j].sem || Given(Step(c, run[0]), run[1..], j)
  {
    hide Step, Callable;
    var d, rest := Step(c, run[0]), run[1..];
    assert StateAt(c, run, 1) == StateAt(d, rest, 0) == d;
    assert forall n :: 0 <= n <= |rest| ==> StateAt(c, run, n + 1) == StateAt(d, rest, n);
    assert forall n :: 1 <= n <= |run| ==> StateAt(c, run, n) == StateAt(d, rest, n - 1);
  }

  lemma {:induction false} NoteStays(c: Cache, run: seq<Call>, j: nat)
    requires WellFormed(c) && Runnable(c, run)
    requires j < |c.bufs| && Noted(c.bufs[j]) && c.bufs[j].flags.wanted
    ensures Given(c, run, j) || (Exec(c, run).bufs[j].flags.wanted && Exec(c, run).bufs[j].flags.busy)
    decreases |run|
  {
    if run != [] {
      StepKeeps(c, run[0]);
      StepWakes(c, run[0]);
      assert Wakes(c.bufs[j], Step(c, run[0]).bufs[j]);
      GivenStep(c, run, j);
      if !Step(c, run[0]).bufs[j].sem {
        NoteStays(Step(c, run[0]), run[1..], j);
      }
    }
  }

  /**
   In any run, the semaphore of buffer j is given before the note of a sleeper goes away; until
   then the buffer stays locked.
   */
  lemma NoLostWakeup(c: Cache, run: seq<Call>, j: nat)
    requires WellFormed(c) && Runnable(c, run)
    requires j < |c.bufs| && c.bufs[j].flags.wanted && c.bufs[j].flags.busy && !c.bufs[j].sem
    ensures (exists n :: 0 < n <= |run| && StateAt(c, run, n).bufs[j].sem) ||
            (Exec(c, run).bufs[j].flags.wanted && Exec(c, run).bufs[j].flags.busy)
  {
    hide Given, Noted, Step;
    assert Noted(c.bufs[j]) by { NotedWhen(c.bufs[j]); }
    NoteStays(c, run, j);
    if Given(c, run, j) {
      var n := GivenWhen(c, run, j);
    }
  }

  lemma NotedWhen(b: Buf)
    requires b.flags.busy && !b.sem
    ensures Noted(b)
  {
  }

  lemma GivenWhen(c: Cache, run: seq<Call>, j: nat) returns (n: nat)
    requires Shaped(c) && Runnable(c, run) && j < |c.bufs| && Given(c, run, j)
    ensures 0 < n <= |run| && StateAt(c, run, n).bufs[j].sem
  {
    hide Step, Callable;
    n :| 0 < n <= |run| && StateAt(c, run, n).bufs[j].sem;
  }

  /** Every buffer of a new mount is noted, and every run keeps it so. */
  lemma {:induction false} NotedThroughout(c: Cache, run: seq<Call>, j: nat)
    requires WellFormed(c) && Runnable(c, run)
    requires j < |c.bufs| && Noted(c.bufs[j])
    ensures Noted(Exec(c, run).bufs[j])
    decreases |run|
  {
    if run != [] {
      StepKeeps(c, run[0]);
      StepWakes(c, run[0]);
      assert Wakes(c.bufs[j], Step(c, run[0]).bufs[j]);
      NotedThroughout(Step(c, run[0]), run[1..], j);
    }
  }

  /** A buf_getblk that sleeps leaves its note on the buffer; a release of the buffer then gives the semaphore. */
  lemma SleeperIsNoted(c: Cache, k: Key, size: nat)
    requires WellFormed(c) && Getblk(c, k, size).1.Sleeping?
    ensures var (d, g) := Getblk(c, k, size);
            && g.i < |d.bufs| && d.bufs[g.i].flags.wanted && Noted(d.bufs[g.i]) && Matches(c.bufs[g.i], k)
            && var e := Brelse(d, g.i);
               e.bufs[g.i].sem && !e.bufs[g.i].flags.busy && !e.bufs[g.i].flags.wanted
  {
    hide Getblk, Matching, FindFirst, FindLastIdle;
    GetblkPass(c, k, size);
    match Incore(c, k)
    case None =>
    case Some(i) =>
      if (!c.bufs[i].flags.busy || c.bufs[i].sem) && c.bufs[i].size != size {
        RetryIsMiss(c, k, size, i);
      }
  }
}
