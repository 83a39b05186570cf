/**
 Where the code does not keep what its comments promise, and exactly when it does.
 */
module Limits {
  import opened CacheModel
  import opened CacheInvariant
  import opened IoOutcome
  import opened Runs
  import opened Effects
  import opened Holds
  import opened Coherence
  import opened Woken

  // ------------------------------------------- asynchronous writes that fail

  /**
   buf_done releases a buffer whose asynchronous write it reports as failed without marking it
   B_INVAL.  The next bread of the block returns OK and the data that never reached the medium.
   */
  lemma FailedAsyncWriteIsServed(s: Session, i: nat, error: int, junk: Data, io: Completion)
    requires Coherent(s) && Held(s.c, i) && !s.c.bufs[i].flags.inval && error != OK
    ensures var k := s.c.bufs[i].key.value;
            var d := StartWrite(s.c, i, ViaBuf(error, junk));
            var (e, r) := Bread(d, k, s.c.bufs[i].size, io);
            && r == Read(i, OK) && e.bufs[i].data == s.c.bufs[i].data
            && Cell(e.disk, k) == junk
  {
    StepKeeps(s.c, StoreAsync(i, ViaBuf(error, junk)));
    StartWriteReturns(s.c, i, ViaBuf(error, junk));
    var d := StartWrite(s.c, i, ViaBuf(error, junk));
    IncoreExact(d, s.c.bufs[i].key.value, i);
  }

  /** After buf_done has released the buffer, the next client sees its data, whether they reached the medium or not. */
  lemma AsyncWriteShows(s: Session, i: nat, error: int, junk: Data)
    requires Coherent(s) && Held(s.c, i) && !s.c.bufs[i].flags.inval
    ensures var k, size, d := s.c.bufs[i].key.value, s.c.bufs[i].size, StartWrite(s.c, i, ViaBuf(error, junk));
            && Observed(d, Get(k, size)) == [Saw(k, s.c.bufs[i].data)]
            && Cell(d.disk, k) == if error == OK then s.c.bufs[i].data else junk
  {
    var k, size, d := s.c.bufs[i].key.value, s.c.bufs[i].size, StartWrite(s.c, i, ViaBuf(error, junk));
    StepKeeps(s.c, StoreAsync(i, ViaBuf(error, junk)));
    StartWriteReturns(s.c, i, ViaBuf(error, junk));
    hide StartWrite, Getblk;
    IncoreExact(d, k, i);
    GetblkPass(d, k, size);
  }

  /** The block shows what the medium holds, whatever the write has left there, exactly when the write did not fail. */
  lemma AsyncWriteExact(s: Session, i: nat, error: int)
    requires Coherent(s) && Held(s.c, i) && !s.c.bufs[i].flags.inval
    ensures (forall junk ::
               var d := StartWrite(s.c, i, ViaBuf(error, junk));
               Explains(d.disk, Observed(d, Get(s.c.bufs[i].key.value, s.c.bufs[i].size)))) <==>
            error == OK
  {
    hide StartWrite, Observed;
    forall junk {
      AsyncWriteShows(s, i, error, junk);
    }
    var junk: Data := s.c.bufs[i].data + [0];
    AsyncWriteShows(s, i, error, junk);
    var k := s.c.bufs[i].key.value;
    assert !Explains(StartWrite(s.c, i, ViaBuf(error, junk)).disk, [Saw(k, s.c.bufs[i].data)]) <==> error != OK;
  }

  /** The session with other data in buffer i. */
  function Holding(s: Session, i: nat, data: Data): Session
    requires i < |s.c.bufs|
  {
    s.(c := SetBuf(s.c, i, s.c.bufs[i].(data := data)))
  }

  /**
   The rule for clients is needed.  Whatever the holder may have put in the buffer, releasing it keeps the cache
   true exactly when the holder has read or written it after he got it without B_CACHE or changed it, or has set
   B_INVAL.
   */
  lemma ReleaseExact(s: Session, i: nat)
    requires Coherent(s) && Held(s.c, i)
    ensures (forall x :: (i in s.dirty || x == s.c.bufs[i].data) ==> Coherent(Next(Holding(s, i, x), Release(i)))) <==>
            i !in s.dirty || s.c.bufs[i].flags.inval
  {
    forall x | i in s.dirty || x == s.c.bufs[i].data
      ensures Coherent(Holding(s, i, x))
    {
      UpdateKeeps(s.c, i, s.c.bufs[i].(data := x));
    }
    if i !in s.dirty || s.c.bufs[i].flags.inval {
      forall x | i in s.dirty || x == s.c.bufs[i].data
        ensures Coherent(Next(Holding(s, i, x), Release(i)))
      {
        NextCoheres(Holding(s, i, x), Release(i));
      }
    } else {
      var x: Data := Cell(s.c.disk, s.c.bufs[i].key.value) + [0];
      var t := Next(Holding(s, i, x), Release(i));
      assert Trusted(t, i) && t.c.bufs[i].data == x;
    }
  }

  /**
   A block got without B_CACHE and released unread is a hit for the next bread, with status OK and the data of
   the block that the buffer held before, exactly when the victim has the size asked for; else it is read.
   */
  lemma UnreadBlockIsServed(c: Cache, k: Key, size: nat, io: Completion)
    requires WellFormed(c) && Getblk(c, k, size).1.Got?
    requires var (d, g) := Getblk(c, k, size); !d.bufs[g.i].flags.cache
    ensures var (d, g) := Getblk(c, k, size);
            var (e, r) := Bread(Brelse(d, g.i), k, size, io);
            && r.Read?
            && (e.bufs[r.i].flags.cache <==> c.bufs[g.i].size == size)
            && (e.bufs[r.i].flags.cache ==> r == Read(g.i, OK) && e.bufs[g.i].data == c.bufs[g.i].data)
            && (!e.bufs[r.i].flags.cache ==>
                  r.status == Status(io) && e.bufs[r.i].data == if io.error == OK then Cell(c.disk, k) else io.junk)
  {
    var (d, g) := Getblk(c, k, size);
    GetblkReturns(c, k, size);
    GetblkKeeps(c, k, size);
    BrelseKeeps(d, g.i);
    var f := Brelse(d, g.i);
    ReleasedIsHit(d, k, size, g.i);
    BreadTouches(f, k, size, io);
    BreadReturns(f, k, size, io);
  }

  /** The valid copy, once released, is returned by the next buf_getblk of its size and dropped by one of another. */
  lemma ReleasedIsHit(d: Cache, k: Key, size: nat, i: nat)
    requires WellFormed(d) && i < |d.bufs| && Matches(d.bufs[i], k) && d.bufs[i].flags.busy
    ensures var (e, g) := Getblk(Brelse(d, i), k, size);
            && g.Got?
            && (e.bufs[g.i].flags.cache <==> d.bufs[i].size == size)
            && (e.bufs[g.i].flags.cache ==> g.i == i && e.bufs[i].data == d.bufs[i].data)
  {
    hide Getblk, Matching, FindFirst, FindLastIdle;
    var f := Brelse(d, i);
    BrelseKeeps(d, i);
    IncoreExact(f, k, i);
    GetblkPass(f, k, size);
    if f.bufs[i].size != size {
      RetryIsMiss(f, k, size, i);
      DiscardKeeps(f, i);
      MissReturns(Discard(f, i), k);
    }
  }

  /** Through bio_done the failure is contained once buf_wait has been called. */
  lemma WaitedAsyncWriteIsContained(s: Session, i: nat, error: int, junk: Data)
    requires Coherent(s) && Held(s.c, i) && !s.c.bufs[i].flags.inval && error != OK
    ensures var d := StartWrite(s.c, i, ViaBio(error, junk));
            && Completed(d, i)
            && var (e, status) := BufWait(d, i);
               status == EIO && e.bufs[i].flags.inval && !e.bufs[i].flags.busy
  {
    StartWriteReturns(s.c, i, ViaBio(error, junk));
    WaitReaps(StartWrite(s.c, i, ViaBio(error, junk)), i);
  }

  // ------------------------------------------------------- two holders

  /**
   A call of buf_getblk that does not sleep returns a buffer that is already locked exactly when the valid copy is
   locked, its semaphore is full, and it is of the requested size or the only buffer that can be had.
   */
  lemma SecondHolderExact(c: Cache, k: Key, size: nat)
    requires WellFormed(c)
    ensures (Getblk(c, k, size).1.Got? && c.bufs[Getblk(c, k, size).1.i].flags.busy) <==>
            exists i: nat :: i < |c.bufs| && Seizable(c, i, k) &&
              (c.bufs[i].size == size || forall j: nat :: j < |c.bufs| && j != i ==> c.bufs[j].flags.busy)
  {
    hide Getblk;
    forall i: nat | i < |c.bufs|
      ensures Getblk(c, k, size).1 == Got(i) && c.bufs[i].flags.busy <==>
              Seizable(c, i, k) &&
              (c.bufs[i].size == size || forall j: nat :: j < |c.bufs| && j != i ==> c.bufs[j].flags.busy)
    {
      TakesExact(c, k, size, i);
    }
  }

  /**
   buf_done gives the semaphore at the end of a read even though nobody waits for it.  So after every bread that reads
   the medium, the locked buffer can be taken from its holder: a second client that asks for the block is
   handed it with B_CACHE exactly if he asks for the size that it has.
   */
  lemma ReadBlockHasTwoHolders(c: Cache, k: Key, size: nat, io: Completion, size2: nat)
    requires WellFormed(c) && io.error == OK
    requires var (d, r) := Bread(c, k, size, io);
             r.Read? && !d.bufs[r.i].flags.cache
    ensures var (d, r) := Bread(c, k, size, io);
            && Seizable(d, r.i, k)
            && var (e, g) := Getblk(d, k, size2);
               g == Got(r.i) && e.bufs[r.i].flags.cache <==> d.bufs[r.i].size == size2
  {
    BreadReturns(c, k, size, io);
    BreadKeeps(c, k, size, io);
    var (d, r) := Bread(c, k, size, io);
    hide Bread, Getblk, Incore;
    IncoreExact(d, k, r.i);
    GetblkPass(d, k, size2);
    if d.bufs[r.i].size != size2 && Getblk(d, k, size2).1 == Got(r.i) { GetblkReturns(d, k, size2); }
  }

  /**
   A locked buffer is taken from its holder, being unlocked or returned as another client's cleared buffer, exactly
   if somebody asks for its block in another size while its semaphore is full.
   */
  lemma OtherSizeExact(c: Cache, k: Key, size: nat, i: nat)
    requires WellFormed(c) && i < |c.bufs| && c.bufs[i].flags.busy
    ensures var (d, g) := Getblk(c, k, size);
            (!d.bufs[i].flags.busy || (g == Got(i) && !d.bufs[i].flags.cache)) <==>
            Matches(c.bufs[i], k) && c.bufs[i].sem && c.bufs[i].size != size
  {
    hide Getblk;
    GetEffect(c, k, size, i);
    if Getblk(c, k, size).1 == Got(i) {
      GetblkReturns(c, k, size);
    } else if Matches(c.bufs[i], k) && c.bufs[i].sem {
      TakesExact(c, k, size, i);
    }
  }

  /**
   A second client may be handed a buffer that a client holds, whatever data that one may have put in it, exactly if the
   holder has read or written it since he got it without B_CACHE or changed it: otherwise data are seen that were never
   written.
   */
  lemma ShareExact(s: Session, k: Key, i: nat)
    requires Coherent(s) && i < |s.c.bufs| && Seizable(s.c, i, k) && Held(s.c, i)
    ensures (forall x :: (i in s.dirty || x == s.c.bufs[i].data) ==>
                           Explains(s.c.disk, Observed(Holding(s, i, x).c, Get(k, s.c.bufs[i].size)))) <==>
            i !in s.dirty
  {
    forall x
      ensures Observed(Holding(s, i, x).c, Get(k, s.c.bufs[i].size)) == [Saw(k, x)]
    {
      var c := Holding(s, i, x).c;
      UpdateKeeps(s.c, i, s.c.bufs[i].(data := x));
      IncoreExact(c, k, i);
      GetblkPass(c, k, s.c.bufs[i].size);
      hide Getblk;
    }
    hide Observed;
    var y: Data := Cell(s.c.disk, k) + [0];
    assert !Explains(s.c.disk, [Saw(k, y)]);
    if i !in s.dirty {
      assert Trusted(s, i);
      assert Explains(s.c.disk, [Saw(k, s.c.bufs[i].data)]);
    }
  }

  /**
   buf_getblk leaves a completion behind that nobody will take exactly if it drops a buffer of another size under its
   asynchronous write, and returns another one.
   */
  lemma TokenLeftExact(c: Cache, k: Key, size: nat)
    requires WellFormed(c) && AllSettled(c)
    ensures !AllSettled(Getblk(c, k, size).0) <==>
            exists i: nat :: i < |c.bufs| && UnderWay(c.bufs[i]) && Unfit(c.bufs[i], k, size) &&
              !forall j: nat :: j < |c.bufs| && j != i ==> c.bufs[j].flags.busy
  {
    hide Getblk;
    GetAcquires(c, k, size);
    var (d, g) := Getblk(c, k, size);
    forall i: nat | i < |c.bufs|
      ensures !Settled(d.bufs[i]) <==>
              && UnderWay(c.bufs[i]) && Unfit(c.bufs[i], k, size)
              && !forall j: nat :: j < |c.bufs| && j != i ==> c.bufs[j].flags.busy
    {
      TakesExact(c, k, size, i);
      GetEffect(c, k, size, i);
    }
  }

  // ------------------------------------------------------ other sizes

  /**
   A block cached in another size: the old copy is not returned and does not stay valid, the medium is
   not written, and bread reads the block again.
   */
  lemma OtherSizeIsReread(c: Cache, k: Key, size: nat, i: nat, io: Completion)
    requires WellFormed(c) && i < |c.bufs| && Matches(c.bufs[i], k)
    requires c.bufs[i].size != size && (c.bufs[i].flags.busy ==> c.bufs[i].sem)
    ensures var (d, r) := Bread(c, k, size, io);
            && r.Read? && r.status == Status(io) && d.disk == c.disk
            && !d.bufs[r.i].flags.cache
            && d.bufs[r.i].data == (if io.error == OK then Cell(c.disk, k) else io.junk)
            && (r.i != i ==> d.bufs[i].flags.inval)
  {
    IncoreExact(c, k, i);
    RetryIsMiss(c, k, size, i);
    DiscardKeeps(c, i);
    MissReturns(Discard(c, i), k);
    BreadTouches(c, k, size, io);
    BreadReturns(c, k, size, io);
  }
}
