/**
 What a task returns that was woken in buf_getblk.  It locks the buffer it slept on without another look at it: by then
 the buffer may be another block's, marked B_INVAL, or locked again.
 */
module Woken {
  import opened CacheModel
  import opened CacheInvariant
  import opened IoOutcome
  import opened Runs
  import opened Effects
  import opened Holds
  import opened Sleepers

  /**
   The woken task returns a valid copy of the block it asked for exactly if another buf_incore would have
   found that buffer again: the look that the code does not take.
   */
  lemma ResumedExact(s: Crowd, i: nat, k: Key, size: nat)
    requires Sound(s) && Enabled(s, Resume(i, k, size)) && i < |s.c.bufs| && s.c.bufs[i].size == size
    ensures var b := Next(s, Resume(i, k, size)).c.bufs[i];
            && b.flags.busy && b.flags.cache && b.data == s.c.bufs[i].data
            && (Matches(b, k) <==> Incore(s.c, k) == Some(i))
  {
    IncoreExact(s.c, k, i);
  }

  /** Whether the buffer is a valid copy of the block after a step, if it is known whether it was one before. */
  predicate OwnAfter(s: Crowd, e: Event, i: nat, k: Key, own: bool)
    requires Sized(s) && i < |s.c.bufs|
  {
    match e
    case Do(a) =>
      if Acquired(s.c, a) == Some(i) then a.k == k && !FailsToRead(s.c, a) else own && !Marks(s.c, a, i)
    case Resume(j, _, size) => own && (j == i ==> s.c.bufs[i].size == size)
  }

  /** The same for whether it is locked. */
  predicate LockedAfter(s: Crowd, e: Event, i: nat, locked: bool)
    requires Sized(s) && i < |s.c.bufs|
  {
    match e
    case Do(a) =>
      Acquired(s.c, a) == Some(i) || (locked && !GivesUp(s.c, a, i) && Seized(s.c, a) != Some(i))
    case Resume(j, _, size) => if j == i then s.c.bufs[i].size == size else locked
  }

  /** The same for whether it is marked B_INVAL. */
  predicate InvalidAfter(s: Crowd, e: Event, i: nat, inval: bool)
    requires Sized(s) && i < |s.c.bufs|
  {
    match e
    case Do(a) => if Acquired(s.c, a) == Some(i) then FailsToRead(s.c, a) else inval || Marks(s.c, a, i)
    case Resume(j, _, size) => inval || (j == i && s.c.bufs[i].size != size)
  }

  /** One step, exactly. */
  lemma EventEffect(s: Crowd, e: Event, i: nat, k: Key)
    requires Sound(s) && Enabled(s, e) && i < |s.c.bufs|
    ensures var b, b' := s.c.bufs[i], Next(s, e).c.bufs[i];
            && (Matches(b', k) <==> OwnAfter(s, e, i, k, Matches(b, k)))
            && (b'.flags.busy <==> LockedAfter(s, e, i, b.flags.busy))
            && (b'.flags.inval <==> InvalidAfter(s, e, i, b.flags.inval))
  {
    if e.Do? {
      hide Step, Acquired, Seized, FailsToRead, Marks, GivesUp, HandOver, SleepsOn;
      CallEffect(s, e.a, i);
      hide Next;
    }
  }

  lemma CallEffect(s: Crowd, a: Call, i: nat)
    requires Sound(s) && Callable(s.c, a) && i < |s.c.bufs|
    ensures Effect(s.c, a, i)
    ensures var b, b' := Next(s, Do(a)).c.bufs[i], Step(s.c, a).bufs[i]; b == b'.(sem := b.sem)
  {
    StepEffect(s.c, a, i);
    NextAt(s, a, i);
  }

  /** The last call that returned the buffer was for the block, and no later step has marked it B_INVAL. */
  predicate StillOwn(s: Crowd, run: seq<Event>, i: nat, k: Key, own: bool)
    requires Sized(s) && Able(s, run) && i < |s.c.bufs|
    decreases |run|
  {
    if run == [] then own else StillOwn(Next(s, run[0]), run[1..], i, k, OwnAfter(s, run[0], i, k, own))
  }

  /** The last step that locked the buffer came after the last that unlocked it. */
  predicate StillLocked(s: Crowd, run: seq<Event>, i: nat, locked: bool)
    requires Sized(s) && Able(s, run) && i < |s.c.bufs|
    decreases |run|
  {
    if run == [] then locked else StillLocked(Next(s, run[0]), run[1..], i, LockedAfter(s, run[0], i, locked))
  }

  lemma {:induction false} RunEffect(s: Crowd, run: seq<Event>, i: nat, k: Key)
    requires Sound(s) && Able(s, run) && i < |s.c.bufs|
    ensures var b, b' := s.c.bufs[i], After(s, run).c.bufs[i];
            && (Matches(b', k) <==> StillOwn(s, run, i, k, Matches(b, k)))
            && (b'.flags.busy <==> StillLocked(s, run, i, b.flags.busy))
    decreases |run|
  {
    if run != [] {
      NextKeeps(s, run[0]);
      EventEffect(s, run[0], i, k);
      RunEffect(Next(s, run[0]), run[1..], i, k);
    }
  }

  /**
   A task that went to sleep on the locked valid copy of its block, whatever ran since, and that goes on: it returns
   B_CACHE and the data that are in the buffer.  It returns a valid copy of its block exactly if the buffer was last
   returned for that block and not marked B_INVAL since, and it is a second holder exactly if somebody has locked the
   buffer since it was last unlocked.
   */
  lemma WokenExact(s: Crowd, run: seq<Event>, i: nat, k: Key, size: nat)
    requires Sound(s) && Able(s, run) && i < |s.c.bufs| && Matches(s.c.bufs[i], k) && s.c.bufs[i].flags.busy
    requires Enabled(After(s, run), Resume(i, k, size)) && After(s, run).c.bufs[i].size == size
    ensures var b, b' := After(s, run).c.bufs[i], Next(After(s, run), Resume(i, k, size)).c.bufs[i];
            && b'.flags.cache && b'.flags.busy && b'.data == b.data
            && (Matches(b', k) <==> StillOwn(s, run, i, k, true))
            && (b.flags.busy <==> StillLocked(s, run, i, true))
  {
    RunSound(s, run);
    RunEffect(s, run, i, k);
    ResumedExact(After(s, run), i, k, size);
    EventEffect(After(s, run), Resume(i, k, size), i, k);
  }

  /** No call of the run returns the buffer. */
  ghost predicate Unreturned(s: Crowd, run: seq<Event>, i: nat)
    requires Sized(s) && Able(s, run)
  {
    forall n :: 0 <= n < |run| && run[n].Do? ==> Acquired(At(s, run, n).c, run[n].a) != Some(i)
  }

  lemma UnreturnedStep(s: Crowd, run: seq<Event>, i: nat)
    requires Sized(s) && Able(s, run) && run != [] && Unreturned(s, run, i)
    ensures run[0].Do? ==> Acquired(s.c, run[0].a) != Some(i)
    ensures Unreturned(Next(s, run[0]), run[1..], i)
  {
    hide Acquired, Next, Enabled;
    var t, rest := Next(s, run[0]), run[1..];
    assert At(s, run, 0) == s;
    assert forall n :: 0 <= n < |rest| ==> At(s, run, n + 1) == At(t, rest, n) && rest[n] == run[n + 1];
  }

  lemma {:induction false} UnreturnedStays(s: Crowd, run: seq<Event>, i: nat)
    requires Sound(s) && Able(s, run) && i < |s.c.bufs| && s.c.bufs[i].flags.inval && Unreturned(s, run, i)
    ensures After(s, run).c.bufs[i].flags.inval
    decreases |run|
  {
    if run != [] {
      NextKeeps(s, run[0]);
      UnreturnedStep(s, run, i);
      EventEffect(s, run[0], i, Key(0, 0));
      UnreturnedStays(Next(s, run[0]), run[1..], i);
    }
  }

  /** With sleepers too, a buffer stays B_INVAL until a call returns it; tasks that slept on it do not bring it back. */
  lemma InvalidStays(s: Crowd, run: seq<Event>, i: nat)
    requires Sound(s) && Able(s, run) && i < |s.c.bufs| && s.c.bufs[i].flags.inval
    requires forall n :: 0 <= n < |run| && run[n].Do? ==> Acquired(At(s, run, n).c, run[n].a) != Some(i)
    ensures After(s, run).c.bufs[i].flags.inval
  {
    UnreturnedStays(s, run, i);
  }

  /** The buffer that a step returns to its caller. */
  function Returned(s: Crowd, e: Event): Option<nat>
    requires Sized(s)
  {
    match e
    case Do(a) => Acquired(s.c, a)
    case Resume(i, _, size) => if i < |s.c.bufs| && s.c.bufs[i].size == size then Some(i) else None
  }

  /**
   A step returns a buffer that is locked already, with or without sleeping, exactly if it takes the buffer from its
   holder, the size being right or all others being locked, or if a woken task of that size finds it locked.
   */
  lemma SecondHolderStep(s: Crowd, e: Event, i: nat)
    requires Sound(s) && Enabled(s, e) && i < |s.c.bufs|
    ensures Returned(s, e) == Some(i) && s.c.bufs[i].flags.busy <==>
            match e
            case Do(a) =>
              && Asks(a) && Seizable(s.c, i, a.k)
              && (s.c.bufs[i].size == a.size || forall j: nat :: j < |s.c.bufs| && j != i ==> s.c.bufs[j].flags.busy)
            case Resume(j, _, size) => j == i && s.c.bufs[i].size == size && s.c.bufs[i].flags.busy
  {
    if e.Do? && Asks(e.a) { TakesExact(s.c, e.a.k, e.a.size, i); }
  }

  /** When buf_getblk, without sleeping, returns a buffer that is locked. */
  lemma TakesExact(c: Cache, k: Key, size: nat, i: nat)
    requires WellFormed(c) && i < |c.bufs|
    ensures Getblk(c, k, size).1 == Got(i) && c.bufs[i].flags.busy <==>
            Seizable(c, i, k) &&
            (c.bufs[i].size == size || forall j: nat :: j < |c.bufs| && j != i ==> c.bufs[j].flags.busy)
  {
    hide Getblk, Matching, FindFirst, FindLastIdle;
    GetblkPass(c, k, size);
    IncoreExact(c, k, i);
    GetEffect(c, k, size, i);
    if Seizable(c, i, k) && c.bufs[i].size != size {
      RetryIsMiss(c, k, size, i);
      VictimAfterDiscard(c, i);
    }
  }

  /** The victim after the copy in buffer i was discarded is i itself only if all others are locked. */
  lemma VictimAfterDiscard(c: Cache, i: nat)
    requires WellFormed(c) && i < |c.bufs|
    ensures Victim(Discard(c, i)) == Some(i) <==> forall j: nat :: j < |c.bufs| && j != i ==> c.bufs[j].flags.busy
    ensures Victim(Discard(c, i)).Some?
  {
    var d := Discard(c, i);
    DiscardKeeps(c, i);
    VictimExists(d);
    VictimIsOldestIdle(d, i);
    assert forall j: nat :: j < |c.bufs| && j != i ==> d.bufs[j].stamp < d.bufs[i].stamp;
  }

  // ------------------------------------------------------- it does happen

  /**
   A failed write is served.  The holder's bwrite fails, marks the buffer B_INVAL and wakes a task; the bread of that
   task returns OK with B_CACHE, and with data that are not on the medium.
   */
  lemma WokenGetsFailedWrite(s: Crowd, i: nat, k: Key, io: Completion)
    requires Queue(s, i) && s.asleep[i] > 0 && Matches(s.c.bufs[i], k) && io.error != OK
    ensures var t, last := Next(s, Do(Store(i, io))), Resume(i, k, s.c.bufs[i].size);
            && Enabled(t, last)
            && Cell(t.c.disk, k) == io.junk
            && var b := Next(t, last).c.bufs[i];
               b.flags.cache && b.flags.busy && b.flags.inval && b.key == Some(k) && b.data == s.c.bufs[i].data
  {
    hide Bwrite;
    BwriteReturns(s.c, i, io);
    NextAt(s, Store(i, io), i);
  }

  /** Released and returned by a hit before the woken task runs: that one is then a second holder, b_sem being empty. */
  lemma WokenIsSecond(s: Crowd, i: nat, k: Key)
    requires Queue(s, i) && s.c.bufs[i].flags.wanted && s.asleep[i] > 0 && Matches(s.c.bufs[i], k)
    ensures var size := s.c.bufs[i].size;
            var t := Next(s, Do(Release(i)));
            && Callable(t.c, Get(k, size)) && Acquired(t.c, Get(k, size)) == Some(i) && !t.c.bufs[i].flags.busy
            && var u, last := Next(t, Do(Get(k, size))), Resume(i, k, size);
               && Enabled(u, last) && u.c.bufs[i].flags.busy && Returned(u, last) == Some(i)
               && !Seizable(u.c, i, k)
  {
    hide Next, Getblk, Incore;
    var size := s.c.bufs[i].size;
    ReleasedAt(s, i, i);
    var t := Next(s, Do(Release(i)));
    ReleasedEmpty(s, i);
    HitAgain(t, i, k);
  }

  lemma ReleasedEmpty(s: Crowd, i: nat)
    requires Queue(s, i) && s.c.bufs[i].flags.wanted && s.asleep[i] > 0
    ensures Sound(Next(s, Do(Release(i)))) && !Next(s, Do(Release(i))).c.bufs[i].sem
  {
    NextKeeps(s, Do(Release(i)));
    NextAt(s, Release(i), i);
    hide Next, HandOver;
  }

  lemma HitAgain(t: Crowd, i: nat, k: Key)
    requires Sound(t) && i < |t.c.bufs| && Matches(t.c.bufs[i], k) && !t.c.bufs[i].flags.busy && !t.c.bufs[i].sem
    ensures var a := Get(k, t.c.bufs[i].size);
            && Acquired(t.c, a) == Some(i)
            && var u := Next(t, Do(a));
               && u.woken[i] == t.woken[i] && u.c.bufs[i].flags.busy && !u.c.bufs[i].sem
               && u.c.bufs[i].size == t.c.bufs[i].size
  {
    IncoreExact(t.c, k, i);
    GetblkPass(t.c, k, t.c.bufs[i].size);
    NextAt(t, Get(k, t.c.bufs[i].size), i);
    hide Next, Getblk;
  }

  /**
   Released before the woken task runs, the only idle buffer is taken for another block, and
   the woken task then returns that block with B_CACHE, as a second holder.
   */
  lemma ResumedGetsOther(s: Crowd, i: nat, own: Key, k: Key, size: nat)
    requires Queue(s, i) && s.c.bufs[i].flags.wanted && s.asleep[i] > 0
    requires forall j: nat :: j < |s.c.bufs| && j != i ==> s.c.bufs[j].flags.busy
    requires Incore(s.c, k) == None && s.c.bufs[i].key == Some(own) && own != k
    ensures var t := Next(s, Do(Release(i)));
            && Enabled(t, Do(Get(k, size)))
            && var u, last := Next(t, Do(Get(k, size))), Resume(i, own, s.c.bufs[i].size);
               && Enabled(u, last)
               && var b := Next(u, last).c.bufs[i];
                  && b.key == Some(k) && b.key != s.c.bufs[i].key
                  && b.flags.cache && b.flags.busy && b.data == s.c.bufs[i].data
  {
    hide Next;
    ReleasedAlone(s, i, k);
    TakenAgain(Next(s, Do(Release(i))), i, own, k, size);
  }

  /** After the release the buffer is idle, alone so, with a woken task on its way. */
  lemma ReleasedAlone(s: Crowd, i: nat, k: Key)
    requires Queue(s, i) && s.c.bufs[i].flags.wanted && s.asleep[i] > 0 && Incore(s.c, k) == None
    requires forall j: nat :: j < |s.c.bufs| && j != i ==> s.c.bufs[j].flags.busy
    ensures var t := Next(s, Do(Release(i)));
            && Sound(t) && t.woken[i] == 1 && Incore(t.c, k) == None && Victim(t.c) == Some(i)
            && t.c.bufs[i].size == s.c.bufs[i].size && t.c.bufs[i].data == s.c.bufs[i].data
  {
    hide Next;
    var a := Release(i);
    NextKeeps(s, Do(a));
    forall j: nat | j < |s.c.bufs|
      ensures var b := Next(s, Do(a)).c.bufs[j]; !Matches(b, k) && (b.flags.busy <==> j != i)
    {
      IncoreExact(s.c, k, j);
      ReleasedAt(s, i, j);
    }
    ReleasedAt(s, i, i);
    hide Queue;
    VictimExists(Next(s, Do(a)).c);
  }

  lemma ReleasedAt(s: Crowd, i: nat, j: nat)
    requires Queue(s, i) && s.c.bufs[i].flags.wanted && s.asleep[i] > 0 && j < |s.c.bufs|
    ensures var b, t := s.c.bufs[j], Next(s, Do(Release(i)));
            && t.c.bufs[j] == b.(flags := t.c.bufs[j].flags, sem := t.c.bufs[j].sem, stamp := t.c.bufs[j].stamp)
            && t.c.bufs[j].flags.busy == (b.flags.busy && j != i) && t.c.bufs[j].flags.inval == b.flags.inval
            && (j == i ==> t.woken[i] == 1)
  {
    NextAt(s, Release(i), j);
    hide Next, HandOver;
  }

  lemma TakenAgain(t: Crowd, i: nat, own: Key, k: Key, size: nat)
    requires Sound(t) && i < |t.c.bufs| && t.woken[i] > 0
    requires Incore(t.c, k) == None && Victim(t.c) == Some(i)
    ensures var u := Next(t, Do(Get(k, size)));
            && Enabled(u, Resume(i, own, t.c.bufs[i].size))
            && var b := Next(u, Resume(i, own, t.c.bufs[i].size)).c.bufs[i];
               b.key == Some(k) && b.flags.cache && b.flags.busy && b.data == t.c.bufs[i].data
  {
  }
}
