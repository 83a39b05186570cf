/**
 Who holds a buffer.  Locks balance releases and held buffers are pinned in every run, but for the buffers that a call
 takes from their holder.  In an orderly run a completion is there exactly while an asynchronous write is under way.
 */
module Holds {
  import opened CacheModel
  import opened CacheInvariant
  import opened IoOutcome
  import opened Runs
  import opened Effects

  /** No valid copy of the block is locked: buf_getblk will neither wait nor take it from a holder. */
  ghost predicate Unclaimed(c: Cache, k: Key) {
    forall i :: 0 <= i < |c.bufs| && Matches(c.bufs[i], k) ==> !c.bufs[i].flags.busy
  }

  // ----------------------------------------------------------------- gets

  /** What buf_getblk does to the buffers: besides the one returned, at most a copy of another size changes. */
  ghost predicate Acquires(c: Cache, d: Cache, i: nat, k: Key, size: nat)
    requires |d.bufs| == |c.bufs| && i < |c.bufs|
  {
    && (HitOf(c.bufs[i], d.bufs[i], k, size) || MissOf(c.bufs[i], d.bufs[i], k, size))
    && (c.bufs[i].flags.busy ==> Seizable(c, i, k))
    && forall j :: 0 <= j < |c.bufs| && j != i ==>
         d.bufs[j] == c.bufs[j] || Dropped(c.bufs[j], d.bufs[j], k, size)
  }

  /** A valid copy of another size, idle or taken from its holder, marked B_INVAL and released. */
  predicate Dropped(b: Buf, b': Buf, k: Key, size: nat) {
    && Unfit(b, k, size)
    && b' == b.(flags := b.flags.(busy := false, inval := true, cache := true, wanted := false, async := false),
                sem := b'.sem, stamp := b'.stamp)
  }

  /** A call that goes to sleep only leaves its note. */
  predicate Noting(b: Buf, b': Buf) {
    b.flags.busy && !b.sem && b' == b.(flags := b.flags.(wanted := true))
  }

  lemma DiscardDrops(c: Cache, k: Key, size: nat, i: nat)
    requires Shaped(c) && i < |c.bufs| && Unfit(c.bufs[i], k, size)
    ensures Dropped(c.bufs[i], Discard(c, i).bufs[i], k, size)
  {
  }

  lemma GetAcquires(c: Cache, k: Key, size: nat)
    requires WellFormed(c)
    ensures var (d, g) := Getblk(c, k, size);
            && (g.Sleeping? ==>
                  && g.i < |c.bufs| && Matches(c.bufs[g.i], k)
                  && d == SetBuf(c, g.i, d.bufs[g.i]) && Noting(c.bufs[g.i], d.bufs[g.i]))
            && (g.Got? ==> Acquires(c, d, g.i, k, size))
            && (g.NoBuffers? ==> d == c)
  {
    hide Getblk, Matching, Touch, FindFirst, FindLastIdle;
    GetblkPass(c, k, size);
    if Getblk(c, k, size).1.Got? {
      GetblkReturns(c, k, size);
      GetEffect(c, k, size, Getblk(c, k, size).1.i);
    }
    match Incore(c, k)
    case None =>
      if Miss(c, k).1.Got? { MissReturns(c, k); }
    case Some(i) =>
      IncoreExact(c, k, i);
      if (!c.bufs[i].flags.busy || c.bufs[i].sem) && c.bufs[i].size != size {
        RetryIsMiss(c, k, size, i);
        DiscardKeeps(c, i);
        DiscardDrops(c, k, size, i);
        MissReturns(Discard(c, i), k);
      }
  }

  // ------------------------------------------------------------- pinning

  /** Nothing has changed but that a sleeper may have left its note. */
  predicate SameBut(b: Buf, b': Buf) {
    b' == b.(flags := b.flags.(wanted := b'.flags.wanted))
  }

  lemma GetPins(c: Cache, k: Key, size: nat, j: nat)
    requires WellFormed(c) && j < |c.bufs| && c.bufs[j].flags.busy
    ensures var (d, g) := Getblk(c, k, size);
            SameBut(c.bufs[j], d.bufs[j]) && g != Got(j) <==> !Seizable(c, j, k)
  {
    hide Getblk;
    GetEffect(c, k, size, j);
    GetAcquires(c, k, size);
  }

  lemma AskPins(c: Cache, a: Call, j: nat)
    requires WellFormed(c) && Asks(a) && j < |c.bufs| && c.bufs[j].flags.busy
    ensures SameBut(c.bufs[j], Step(c, a).bufs[j]) && Acquired(c, a) != Some(j) <==> !Seizable(c, j, a.k)
  {
    GetPins(c, a.k, a.size, j);
    hide Getblk, Bread, SameBut, Seizable;
    if a.Fetch? { BreadTouches(c, a.k, a.size, a.io); }
  }

  /**
   A call that does not name a locked buffer leaves it to its holder, unchanged in every field but for the note of a
   sleeper, exactly if it does not ask for the block while the buffer's semaphore is full.
   */
  lemma PinnedExact(c: Cache, a: Call, j: nat)
    requires WellFormed(c) && Callable(c, a)
    requires j < |c.bufs| && c.bufs[j].flags.busy && j !in Named(a)
    ensures SameBut(c.bufs[j], Step(c, a).bufs[j]) && Acquired(c, a) != Some(j) <==> Seized(c, a) != Some(j)
  {
    SeizedIs(c, a, j);
    if Asks(a) {
      AskPins(c, a, j);
    } else {
      NamedOnly(c, a, j);
    }
  }

  /** No call of the run names the buffer or takes it. */
  ghost predicate LeftAlone(c: Cache, run: seq<Call>, j: nat)
    requires Shaped(c) && Runnable(c, run)
  {
    forall n :: 0 <= n < |run| ==> j !in Named(run[n]) && Seized(StateAt(c, run, n), run[n]) != Some(j)
  }

  lemma LeftAloneStep(c: Cache, run: seq<Call>, j: nat)
    requires Shaped(c) && Runnable(c, run) && run != [] && LeftAlone(c, run, j)
    ensures j !in Named(run[0]) && Seized(c, run[0]) != Some(j)
    ensures LeftAlone(Step(c, run[0]), run[1..], j)
  {
    hide Seized, Step, Callable, Named;
    var d, rest := Step(c, run[0]), run[1..];
    assert StateAt(c, run, 0) == c;
    assert forall n :: 0 <= n < |rest| ==> StateAt(c, run, n + 1) == StateAt(d, rest, n) && rest[n] == run[n + 1];
  }

  lemma {:induction false} LeftAlonePins(c: Cache, run: seq<Call>, j: nat)
    requires WellFormed(c) && Runnable(c, run) && LeftAlone(c, run, j)
    requires j < |c.bufs| && c.bufs[j].flags.busy
    ensures SameBut(c.bufs[j], Exec(c, run).bufs[j])
    decreases |run|
  {
    if run != [] {
      LeftAloneStep(c, run, j);
      PinnedExact(c, run[0], j);
      StepKeeps(c, run[0]);
      LeftAlonePins(Step(c, run[0]), run[1..], j);
    }
  }

  /** Over any run a locked buffer stays as its holder left it, while no call names it or takes it. */
  lemma PinnedThroughout(c: Cache, run: seq<Call>, j: nat)
    requires WellFormed(c) && Runnable(c, run) && j < |c.bufs| && c.bufs[j].flags.busy
    requires forall n :: 0 <= n < |run| ==> j !in Named(run[n]) && Seized(StateAt(c, run, n), run[n]) != Some(j)
    ensures var b, b' := c.bufs[j], Exec(c, run).bufs[j];
            b' == b.(flags := b.flags.(wanted := b'.flags.wanted))
  {
    LeftAlonePins(c, run, j);
  }

  // ---------------------------------------------------- gets and releases

  ghost function Busy(c: Cache): set<nat> {
    set i: nat | i < |c.bufs| && c.bufs[i].flags.busy
  }

  /** The locked buffer that a call gives up. */
  function Released(c: Cache, a: Call): (r: Option<nat>)
    requires Callable(c, a)
    ensures r.Some? ==> r.value < |c.bufs|
  {
    if (a.Store? || a.StoreAsync? || a.Wait? || a.Release?) && c.bufs[a.i].flags.busy && GivesUp(c, a, a.i)
    then Some(a.i) else None
  }

  /** The locked buffers change by the one acquired, or by the one released. */
  ghost predicate Moves(c: Cache, d: Cache, acquired: Option<nat>, released: Option<nat>) {
    && (acquired.None? || released.None?)
    && match acquired
       case Some(i) => i !in Busy(c) && Busy(d) == Busy(c) + {i}
       case None =>
         match released
         case Some(i) => i in Busy(c) && Busy(d) == Busy(c) - {i}
         case None => Busy(d) == Busy(c)
  }

  /** The other way in which they change: a locked buffer is taken, and it or an idle one is returned instead. */
  ghost predicate Passes(c: Cache, d: Cache, seized: nat, acquired: Option<nat>) {
    && seized in Busy(c) && acquired.Some?
    && (acquired.value == seized || acquired.value !in Busy(c))
    && Busy(d) == Busy(c) - {seized} + {acquired.value}
  }

  lemma SeizedIsBusy(c: Cache, a: Call)
    requires WellFormed(c) && Seized(c, a).Some?
    ensures Seized(c, a).value in Busy(c) && Acquired(c, a).Some?
  {
    hide Getblk, FindFirst;
    GetblkPass(c, a.k, a.size);
    var i := Seized(c, a).value;
    if c.bufs[i].size != a.size { RetryIsMiss(c, a.k, a.size, i); }
  }

  /** The locked buffers after a call. */
  lemma BusyAfter(c: Cache, a: Call, i: nat)
    requires WellFormed(c) && Callable(c, a)
    ensures i in Busy(Step(c, a)) <==>
            Acquired(c, a) == Some(i) || (i in Busy(c) && Released(c, a) != Some(i) && Seized(c, a) != Some(i))
    ensures Acquired(c, a) == Some(i) && i in Busy(c) ==> Seized(c, a) == Some(i)
  {
    if i < |c.bufs| { StepEffect(c, a, i); }
    hide Step, Getblk, Incore;
    AcquiredInRange(c, a);
  }

  lemma AcquiredInRange(c: Cache, a: Call)
    requires Shaped(c)
    ensures Acquired(c, a).Some? ==> Acquired(c, a).value < |c.bufs|
    ensures Acquired(c, a).Some? || Seized(c, a).Some? ==> Asks(a)
    ensures Callable(c, a) && Released(c, a).Some? ==> !Asks(a) && Released(c, a).value in Busy(c)
  {
  }

  /**
   Every call that returns a buffer, whether its read succeeded or failed, locks exactly that one, which was idle, every
   release unlocks exactly one, which was locked, and no call does both: exactly if the call takes no buffer
   from its holder.
   */
  lemma LocksExact(c: Cache, a: Call)
    requires WellFormed(c) && Callable(c, a)
    ensures Moves(c, Step(c, a), Acquired(c, a), Released(c, a)) <==> Seized(c, a).None?
    ensures Seized(c, a).Some? ==>
              Passes(c, Step(c, a), Seized(c, a).value, Acquired(c, a)) && Released(c, a).None?
  {
    hide Step, Acquired, Released, Seized, Busy;
    forall i: nat
      ensures i in Busy(Step(c, a)) <==>
              Acquired(c, a) == Some(i) || (i in Busy(c) && Released(c, a) != Some(i) && Seized(c, a) != Some(i))
      ensures Acquired(c, a) == Some(i) && i in Busy(c) ==> Seized(c, a) == Some(i)
    {
      BusyAfter(c, a, i);
    }
    AcquiredInRange(c, a);
    if Seized(c, a).Some? { SeizedIsBusy(c, a); }
  }

  /** The same in numbers. */
  lemma CountAfter(c: Cache, a: Call)
    requires WellFormed(c) && Callable(c, a)
    ensures |Busy(Step(c, a))| == |Busy(c)| + (if Acquired(c, a).Some? then 1 else 0)
                                - (if Released(c, a).Some? then 1 else 0) - (if Seized(c, a).Some? then 1 else 0)
  {
    hide Step, Acquired, Released, Seized, Busy;
    LocksExact(c, a);
    AcquiredInRange(c, a);
  }

  datatype Kind = Getting | Releasing | Seizing

  predicate IsOf(c: Cache, a: Call, kind: Kind)
    requires Shaped(c) && Callable(c, a)
  {
    match kind
    case Getting => Acquired(c, a).Some?
    case Releasing => Released(c, a).Some?
    case Seizing => Seized(c, a).Some?
  }

  /** The calls of a run that return a buffer, that give one up, that take one from its holder. */
  function Calls(c: Cache, run: seq<Call>, kind: Kind): set<nat>
    requires Shaped(c) && Runnable(c, run)
  {
    set n | 0 <= n < |run| && IsOf(StateAt(c, run, n), run[n], kind)
  }

  lemma CallsShift(c: Cache, run: seq<Call>, kind: Kind, n: nat)
    requires Shaped(c) && Runnable(c, run) && run != []
    ensures n in Calls(c, run, kind) <==>
            if n == 0 then IsOf(c, run[0], kind) else n - 1 in Calls(Step(c, run[0]), run[1..], kind)
  {
    hide Step, Callable, IsOf;
  }

  lemma CallsStep(c: Cache, run: seq<Call>, kind: Kind)
    requires Shaped(c) && Runnable(c, run) && run != []
    ensures |Calls(c, run, kind)| == |Calls(Step(c, run[0]), run[1..], kind)| + if IsOf(c, run[0], kind) then 1 else 0
  {
    hide Step, Callable, IsOf, Calls;
    var s := Calls(Step(c, run[0]), run[1..], kind);
    var t := set n | n in s :: n + 1;
    forall n: nat
      ensures n in Calls(c, run, kind) <==> if n == 0 then IsOf(c, run[0], kind) else n - 1 in s
    {
      CallsShift(c, run, kind, n);
    }
    assert forall n: nat :: n in t <==> 1 <= n && n - 1 in s;
    assert Calls(c, run, kind) == t + if IsOf(c, run[0], kind) then {0} else {};
    ShiftKeepsSize(s, t);
  }

  lemma {:induction false} ShiftKeepsSize(s: set<nat>, t: set<nat>)
    requires forall n :: n in t <==> 1 <= n && n - 1 in s
    ensures |t| == |s|
  {
    if s != {} {
      var x :| x in s;
      assert x + 1 in t && (x + 1) - 1 == x;
      ShiftKeepsSize(s - {x}, t - {x + 1});
    } else {
      assert t == {};
    }
  }

  /**
   In every run the locked buffers are gets minus releases, less one for each time that a buffer was taken from its
   holder.
   */
  lemma {:induction false} HoldsConserved(c: Cache, run: seq<Call>)
    requires WellFormed(c) && Runnable(c, run)
    ensures |Busy(Exec(c, run))| == |Busy(c)| + |Calls(c, run, Getting)|
                                   - |Calls(c, run, Releasing)| - |Calls(c, run, Seizing)|
    decreases |run|
  {
    if run != [] {
      hide Step, Acquired, Released, Seized, Busy, Calls;
      CountAfter(c, run[0]);
      StepKeeps(c, run[0]);
      HoldsConserved(Step(c, run[0]), run[1..]);
      CallsStep(c, run, Getting);
      CallsStep(c, run, Releasing);
      CallsStep(c, run, Seizing);
    } else {
      assert forall kind :: Calls(c, run, kind) == {};
    }
  }

  // ------------------------------------------------------- settled states

  /** An asynchronous write has been started on the buffer and its completion not yet taken. */
  predicate UnderWay(b: Buf) {
    b.flags.async
  }

  /**
   The completion token of a buffer: its request's semaphore is full exactly
   while an asynchronous write is under way, and then the buffer is locked and valid.
   */
  predicate Settled(b: Buf) {
    && (b.flags.async ==> b.flags.busy && !b.flags.done && !b.flags.inval && !b.flags.error && b.key.Some?)
    && (b.key.Some? ==> b.bio.Some? && (b.bio.value.sem <==> b.flags.async))
  }

  ghost predicate AllSettled(c: Cache) {
    forall i :: 0 <= i < |c.bufs| ==> Settled(c.bufs[i])
  }

  /** No write is under way on a copy of another size, that buf_getblk would drop. */
  ghost predicate Droppable(c: Cache, k: Key, size: nat) {
    forall i :: 0 <= i < |c.bufs| && UnderWay(c.bufs[i]) ==> !Unfit(c.bufs[i], k, size)
  }

  /** The discipline: use only what you hold, and do not ask for another size while a write is under way. */
  ghost predicate Orderly(c: Cache, a: Call) {
    && Callable(c, a)
    && match a
       case Get(k, size) => Droppable(c, k, size)
       case Fetch(k, size, _) => Droppable(c, k, size)
       case Edit(i, _) => Held(c, i)
       case Scrap(i) => Held(c, i)
       case Swap(i, j) => Held(c, i) && Held(c, j)
       case Store(i, _) => Held(c, i)
       case StoreAsync(i, _) => Held(c, i)
       case Wait(_) => true
       case Release(i) => !c.bufs[i].flags.async
  }

  lemma OneSettles(c: Cache, d: Cache, i: nat)
    requires AllSettled(c) && OnlyBuf(c, d, i)
    requires i < |d.bufs| ==> Settled(d.bufs[i])
    ensures AllSettled(d)
  {
  }

  lemma GetSettles(c: Cache, k: Key, size: nat)
    requires WellFormed(c) && AllSettled(c) && Droppable(c, k, size)
    ensures AllSettled(Getblk(c, k, size).0)
  {
    hide Getblk;
    GetAcquires(c, k, size);
  }

  lemma FetchSettles(c: Cache, k: Key, size: nat, io: Completion)
    requires WellFormed(c) && AllSettled(c) && Droppable(c, k, size)
    ensures AllSettled(Bread(c, k, size, io).0)
  {
    hide Getblk, Bread;
    GetSettles(c, k, size);
    BreadTouches(c, k, size, io);
    var (d, r) := Bread(c, k, size, io);
    if r.Read? {
      BreadReturns(c, k, size, io);
      OneSettles(Getblk(c, k, size).0, d, r.i);
    }
  }

  lemma StoreSettles(c: Cache, i: nat, io: Completion)
    requires Shaped(c) && AllSettled(c) && Held(c, i)
    ensures AllSettled(Bwrite(c, i, io).0)
  {
    if !c.bufs[i].flags.inval { BwriteReturns(c, i, io); }
    OneSettles(c, Bwrite(c, i, io).0, i);
  }

  lemma StoreAsyncSettles(c: Cache, i: nat, io: Completion)
    requires Shaped(c) && AllSettled(c) && Held(c, i)
    ensures AllSettled(StartWrite(c, i, io))
  {
    if !c.bufs[i].flags.inval { StartWriteReturns(c, i, io); }
    OneSettles(c, StartWrite(c, i, io), i);
  }

  lemma WaitSettles(c: Cache, i: nat)
    requires Shaped(c) && AllSettled(c) && Completed(c, i)
    ensures AllSettled(BufWait(c, i).0)
  {
    if c.bufs[i].flags.done { WaitRechecks(c, i); } else { WaitReaps(c, i); }
    OneSettles(c, BufWait(c, i).0, i);
  }

  lemma StepSettles(c: Cache, a: Call)
    requires WellFormed(c) && AllSettled(c) && Orderly(c, a)
    ensures AllSettled(Step(c, a))
  {
    match a
    case Get(k, size) => GetSettles(c, k, size);
    case Fetch(k, size, io) => FetchSettles(c, k, size, io);
    case Edit(i, _) => OneSettles(c, Step(c, a), i);
    case Scrap(i) => OneSettles(c, Step(c, a), i);
    case Swap(i, j) =>
    case Store(i, io) => StoreSettles(c, i, io);
    case StoreAsync(i, io) => StoreAsyncSettles(c, i, io);
    case Wait(i) => WaitSettles(c, i);
    case Release(i) => OneSettles(c, Step(c, a), i);
  }

  // ---------------------------------------------------------- orderly runs

  ghost predicate OrderlyRun(c: Cache, run: seq<Call>)
    requires Shaped(c)
    decreases |run|
  {
    run == [] || (Orderly(c, run[0]) && OrderlyRun(Step(c, run[0]), run[1..]))
  }

  lemma {:induction false} OrderlyRunnable(c: Cache, run: seq<Call>)
    requires Shaped(c) && OrderlyRun(c, run)
    ensures Runnable(c, run)
    decreases |run|
  {
    if run != [] { OrderlyRunnable(Step(c, run[0]), run[1..]); }
  }

  /**
   No stale completion and none lost: after any orderly run, with errors on any I/O,
   the request of a buffer has a completion to take exactly when a write is under way.
   */
  lemma {:induction false} TokensBalance(c: Cache, run: seq<Call>)
    requires WellFormed(c) && AllSettled(c) && OrderlyRun(c, run)
    ensures Runnable(c, run) && WellFormed(Exec(c, run)) && AllSettled(Exec(c, run))
    decreases |run|
  {
    OrderlyRunnable(c, run);
    if run != [] {
      StepKeeps(c, run[0]);
      StepSettles(c, run[0]);
      TokensBalance(Step(c, run[0]), run[1..]);
    }
  }

  // ------------------------------------------------- synchronous runs

  ghost predicate AllQuiet(c: Cache) {
    forall i :: 0 <= i < |c.bufs| ==> Calm(c.bufs[i])
  }

  lemma QuietGet(c: Cache, k: Key, size: nat)
    requires WellFormed(c) && AllQuiet(c)
    ensures AllQuiet(Getblk(c, k, size).0)
  {
    hide Getblk;
    GetAcquires(c, k, size);
  }

  lemma OneQuiet(c: Cache, d: Cache, i: nat)
    requires AllQuiet(c) && OnlyBuf(c, d, i) && (i < |d.bufs| ==> Quiet(d, i))
    ensures AllQuiet(d)
  {
  }

  lemma QuietStep(c: Cache, a: Call)
    requires WellFormed(c) && AllQuiet(c) && Callable(c, a) && !a.StoreAsync?
    ensures AllQuiet(Step(c, a))
  {
    hide Getblk, Bread, Bwrite, BufWait, SwapData;
    match a
    case Get(k, size) => QuietGet(c, k, size);
    case Fetch(k, size, io) =>
      QuietGet(c, k, size);
      BreadTouches(c, k, size, io);
      var (d, r) := Bread(c, k, size, io);
      if r.Read? {
        BreadReturns(c, k, size, io);
        OneQuiet(Getblk(c, k, size).0, d, r.i);
      }
    case Edit(i, _) => OneQuiet(c, Step(c, a), i);
    case Scrap(i) => OneQuiet(c, Step(c, a), i);
    case Swap(i, j) => SwapDataExchanges(c, i, j);
    case Store(i, io) =>
      if c.bufs[i].flags.inval { QuietRelease(c, i, io); } else { BwriteReturns(c, i, io); }
      OneQuiet(c, Step(c, a), i);
    case Wait(i) =>
      WaitRechecks(c, i);
      OneQuiet(c, Step(c, a), i);
    case Release(i) => OneQuiet(c, Step(c, a), i);
  }

  lemma QuietRelease(c: Cache, i: nat, io: Completion)
    requires Shaped(c) && HasRequest(c, i) && AllQuiet(c) && c.bufs[i].flags.inval
    ensures OnlyBuf(c, Bwrite(c, i, io).0, i) && Quiet(Bwrite(c, i, io).0, i)
  {
  }

  /**
   Without buf_startwrite no discipline is needed: after any run at all, with errors on any I/O and whoever holds what,
   no request has a completion left over and no buffer is B_ASYNC.
   */
  lemma {:induction false} SyncTokens(c: Cache, run: seq<Call>)
    requires WellFormed(c) && AllQuiet(c) && Runnable(c, run)
    requires forall n :: 0 <= n < |run| ==> !run[n].StoreAsync?
    ensures AllQuiet(Exec(c, run))
    decreases |run|
  {
    if run != [] {
      StepKeeps(c, run[0]);
      QuietStep(c, run[0]);
      SyncTokens(Step(c, run[0]), run[1..]);
    }
  }
}
