/**
 The routines of src/fs/bio.c, statement by statement on the flag word: what each leaves in every field, with b_flags as
 the word of B_ constants that the C code computes with.
 */
module Routines {
  import opened Recency
  import opened CacheModel
  import opened CacheInvariant
  import opened IoOutcome
  import opened Runs
  import opened Effects

  // include/fs/buf.h
  const B_BUSY: bv8 := 0x01
  const B_DONE: bv8 := 0x02
  const B_INVAL: bv8 := 0x04
  const B_READ: bv8 := 0x08
  const B_ASYNC: bv8 := 0x10
  const B_ERROR: bv8 := 0x20
  const B_CACHE: bv8 := 0x40
  const B_WANTED: bv8 := 0x80

  function Bit(on: bool, mask: bv8): bv8 {
    if on then mask else 0
  }

  /** b_flags. */
  function Word(f: Flags): bv8 {
    Bit(f.busy, B_BUSY) | Bit(f.done, B_DONE) | Bit(f.inval, B_INVAL) | Bit(f.read, B_READ)
    | Bit(f.async, B_ASYNC) | Bit(f.error, B_ERROR) | Bit(f.cache, B_CACHE) | Bit(f.wanted, B_WANTED)
  }

  /** The tests that the C code makes on b_flags. */
  function FlagsOf(w: bv8): Flags {
    Flags(w & B_BUSY != 0, w & B_DONE != 0, w & B_INVAL != 0, w & B_READ != 0,
          w & B_ASYNC != 0, w & B_ERROR != 0, w & B_CACHE != 0, w & B_WANTED != 0)
  }

  /** The word and the flags say the same. */
  lemma WordIsFlags(f: Flags, w: bv8)
    ensures FlagsOf(Word(f)) == f && Word(FlagsOf(w)) == w
  {
  }

  /** The buffer with another flag word. */
  function With(b: Buf, w: bv8): Buf {
    b.(flags := FlagsOf(w))
  }

  // The assignments to b_flags that the routines make.

  lemma Releasing(f: Flags)
    ensures FlagsOf(Word(f) & !(B_WANTED | B_BUSY | B_ASYNC)) == f.(wanted := false, busy := false, async := false)
    ensures FlagsOf((Word(f) | (B_CACHE | B_INVAL)) & !(B_WANTED | B_BUSY | B_ASYNC))
         == f.(cache := true, inval := true, wanted := false, busy := false, async := false)
  {
  }

  lemma Locking(f: Flags)
    ensures FlagsOf(Word(f) | (B_BUSY | B_CACHE)) == f.(busy := true, cache := true)
    ensures FlagsOf(Word(f) | B_WANTED | (B_BUSY | B_CACHE)) == f.(wanted := true, busy := true, cache := true)
    ensures FlagsOf(Word(f) | B_WANTED) == f.(wanted := true)
    ensures FlagsOf(B_BUSY) == NO_FLAGS.(busy := true) && FlagsOf(0) == NO_FLAGS
  {
  }

  lemma Starting(f: Flags)
    ensures FlagsOf((Word(f) | B_READ) & !(B_DONE | B_ERROR | B_INVAL))
         == f.(read := true, done := false, error := false, inval := false)
    ensures FlagsOf(Word(f) & !(B_READ | B_DONE | B_ERROR)) == f.(read := false, done := false, error := false)
    ensures FlagsOf(Word(f) | B_ASYNC) == f.(async := true)
    ensures (Word(f) | B_ASYNC) & (B_BUSY | B_INVAL) == 0 <==> !f.busy && !f.inval
  {
  }

  lemma Ending(f: Flags)
    ensures FlagsOf(Word(f) | B_DONE) == f.(done := true)
    ensures FlagsOf((Word(f) | B_DONE) & !B_WANTED) == f.(done := true, wanted := false)
  {
  }

  lemma Failing(f: Flags)
    ensures FlagsOf(Word(f) | B_ERROR) == f.(error := true)
    ensures FlagsOf(Word(f) | B_INVAL) == f.(inval := true)
    ensures FlagsOf(Word(f) | (B_INVAL | B_ERROR)) == f.(inval := true, error := true)
  {
  }

  lemma Tests(f: Flags)
    ensures f.busy == (Word(f) & B_BUSY != 0) && f.done == (Word(f) & B_DONE != 0)
    ensures f.inval == (Word(f) & B_INVAL != 0) && f.error == (Word(f) & B_ERROR != 0)
    ensures f.async == (Word(f) & B_ASYNC != 0)
    ensures f.cache == (Word(f) & B_CACHE != 0) && f.wanted == (Word(f) & B_WANTED != 0)
  {
  }

  /** d is c but for buffer i, which is now b; if it was put at the head of the list, with the newest stamp. */
  ghost predicate Leaves(c: Cache, d: Cache, i: nat, b: Buf, moved: bool)
    requires i < |c.bufs|
  {
    && d.disk == c.disk
    && d.bufs == c.bufs[i := if moved then b.(stamp := c.clock) else b.(stamp := c.bufs[i].stamp)]
    && d.lru == (if moved then MoveToFront(c.lru, i) else c.lru)
    && d.clock == (if moved then c.clock + 1 else c.clock)
  }

  /** brelse: nothing on an idle buffer. */
  lemma BrelseDoes(c: Cache, i: nat)
    requires Shaped(c) && i < |c.bufs|
    ensures var b, d := c.bufs[i], Brelse(c, i);
            var w := Word(b.flags);
            if w & B_BUSY == 0 then d == c
            else Leaves(c, d, i, With(b, w & !(B_WANTED | B_BUSY | B_ASYNC)).(sem := b.sem || w & B_WANTED != 0), true)
  {
    Tests(c.bufs[i].flags);
    Releasing(c.bufs[i].flags);
    hide Word, FlagsOf;
  }

  // ------------------------------------------------------------ buf_getblk

  /** A hit: asleep in semTake, or returned, having taken a full semaphore if it was locked. */
  lemma HitDoes(c: Cache, k: Key, size: nat, i: nat)
    requires WellFormed(c) && Incore(c, k) == Some(i) && i < |c.bufs|
    ensures var b, (d, g) := c.bufs[i], Getblk(c, k, size);
            var w := Word(b.flags);
            if w & B_BUSY != 0 && !b.sem then g == Sleeping(i) && Leaves(c, d, i, With(b, w | B_WANTED), false)
            else if b.size != size then true
            else
              && g == Got(i)
              && if w & B_BUSY != 0
                 then Leaves(c, d, i, With(b, w | B_WANTED | (B_BUSY | B_CACHE)).(sem := false), false)
                 else Leaves(c, d, i, With(b, w | (B_BUSY | B_CACHE)), false)
  {
    Tests(c.bufs[i].flags);
    Locking(c.bufs[i].flags);
    hide Word, FlagsOf, Getblk;
    GetblkPass(c, k, size);
  }

  /** The copy of another size: B_INVAL, then brelse by way of bwrite, which gives the semaphore if B_WANTED is set. */
  lemma DiscardDoes(c: Cache, i: nat)
    requires Shaped(c) && i < |c.bufs| && (c.bufs[i].flags.busy ==> c.bufs[i].sem)
    ensures var b, d := c.bufs[i], Discard(c, i);
            var w := Word(b.flags);
            Leaves(c, d, i, With(b, (w | (B_CACHE | B_INVAL)) & !(B_WANTED | B_BUSY | B_ASYNC))
                            .(sem := b.sem || w & B_WANTED != 0), true)
  {
    var b := c.bufs[i];
    Tests(b.flags);
    Releasing(b.flags);
    hide Word, FlagsOf, MoveToFront;
    var e := Locked(Waited(b)).(flags := Locked(Waited(b)).flags.(inval := true));
    assert Discard(c, i) == Touch(SetBuf(c, i, Unlocked(e)), i);
  }

  /** A hit of another size: the copy is dropped, by this call or another if it is wanted; the search then misses. */
  lemma MismatchDoes(c: Cache, k: Key, size: nat, i: nat)
    requires WellFormed(c) && Incore(c, k) == Some(i) && i < |c.bufs|
    requires c.bufs[i].size != size && (c.bufs[i].flags.busy ==> c.bufs[i].sem)
    ensures Getblk(c, k, size) == Getblk(Discard(c, i), k, size) && Incore(Discard(c, i), k) == None
  {
    hide Getblk;
    RetryIsMiss(c, k, size, i);
    GetblkPass(c, k, size);
  }

  /** A miss: buf_new, the key, bio_new, and the head of the list; with no idle buffer, nothing. */
  lemma MissDoes(c: Cache, k: Key, size: nat)
    requires WellFormed(c) && Incore(c, k) == None
    ensures var (d, g) := Getblk(c, k, size);
            match Victim(c)
            case None => g == NoBuffers && d == c
            case Some(i) =>
              && i < |c.bufs| && g == Got(i)
              && var b, q := c.bufs[i], Bio(false, false, 0);
                 Leaves(c, d, i, Buf(FlagsOf(B_BUSY), Some(k), b.size, b.data, Some(q), b.sem, 0, b.stamp), true)
  {
    Locking(NO_FLAGS);
    hide Word, FlagsOf, Getblk;
    GetblkPass(c, k, size);
  }

  // ---------------------------------------------------------- completion

  /** bio_done on the buffer's request. */
  lemma BioDoneDoes(c: Cache, i: nat, error: int)
    requires Shaped(c) && HasRequest(c, i)
    ensures var q := Bio(c.bufs[i].bio.value.read, true, error);
            Leaves(c, BioDone(c, i, error), i, c.bufs[i].(bio := Some(q)), false)
  {
  }

  /** buf_done: the error, B_DONE, and either brelse or the semaphore. */
  lemma BufDoneDoes(c: Cache, i: nat, error: int)
    requires Shaped(c) && i < |c.bufs|
    ensures var b, d := c.bufs[i], BufDone(c, i, error);
            var w := Word(b.flags);
            if w & B_ASYNC == 0 then
              Leaves(c, d, i, With(b, (w | B_DONE) & !B_WANTED).(error := error, sem := true), false)
            else d == Brelse(SetBuf(c, i, With(b, w | B_DONE).(error := error)), i)
  {
    Tests(c.bufs[i].flags);
    Ending(c.bufs[i].flags);
    hide Word, FlagsOf, Brelse;
  }

  /** The transfer: a read fills the data area, a write the medium. */
  lemma TransferDoes(c: Cache, i: nat, io: Completion)
    requires Shaped(c) && HasRequest(c, i)
    ensures var b, k, d := c.bufs[i], c.bufs[i].key.value, Transfer(c, i, io);
            if b.bio.value.read then
              var data := if io.error != 0 then io.junk else if k in c.disk then c.disk[k] else [];
              Leaves(c, d, i, b.(data := data), false)
            else
              d == c.(disk := c.disk[k := if io.error != 0 then io.junk else b.data])
  {
  }

  /** buf_wait before B_DONE: bio_wait, B_ERROR if it returns an error, buf_done; then as after B_DONE. */
  lemma WaitTakes(c: Cache, i: nat)
    requires Shaped(c) && Completed(c, i) && Word(c.bufs[i].flags) & B_DONE == 0
    ensures HasRequest(c, i)
    ensures var b, q := c.bufs[i], c.bufs[i].bio.value;
            var w := Word(b.flags);
            var e := With(b, if q.error != 0 then w | B_ERROR else w).(bio := Some(Bio(q.read, false, q.error)));
            var d := BufDone(SetBuf(c, i, e), i, 0);
            Completed(d, i) && BufWait(c, i) == BufWait(d, i)
  {
    var b := c.bufs[i];
    Tests(b.flags);
    hide Word, FlagsOf, Reap, BufDone, BufWait;
    ReapDoes(c, i);
    WaitReaped(c, i);
  }

  lemma ReapDoes(c: Cache, i: nat)
    requires Shaped(c) && HasRequest(c, i)
    ensures var b, q := c.bufs[i], c.bufs[i].bio.value;
            var w := Word(b.flags);
            var e := With(b, if q.error != 0 then w | B_ERROR else w).(bio := Some(Bio(q.read, false, q.error)));
            Reap(c, i) == BufDone(SetBuf(c, i, e), i, 0)
  {
    var f := c.bufs[i].flags;
    Failing(f);
    WordIsFlags(f, 0);
    hide Word, FlagsOf, BufDone;
    assert f.(error := f.error) == f;
  }

  lemma WaitReaped(c: Cache, i: nat)
    requires Shaped(c) && Completed(c, i) && !c.bufs[i].flags.done
    ensures Completed(Reap(c, i), i) && BufWait(c, i) == BufWait(Reap(c, i), i)
  {
    var b := c.bufs[i];
    DoneEffect(SetBuf(c, i, b.(bio := Some(b.bio.value.(sem := false)),
                               flags := b.flags.(error := b.flags.error || b.bio.value.error != OK))), i, OK);
    hide BufDone, Fail;
  }

  /** The error branch of buf_wait. */
  lemma FailDoes(c: Cache, i: nat)
    requires Shaped(c) && i < |c.bufs|
    ensures var b := c.bufs[i];
            var w, error := Word(b.flags), if b.error == 0 then 5 else b.error;
            Leaves(c, Fail(c, i), i,
                   With(b, if b.error == 0 then w | B_INVAL else w | (B_INVAL | B_ERROR)).(error := error),
                   w & B_INVAL == 0)
  {
    FailWord(c.bufs[i]);
    Tests(c.bufs[i].flags);
    hide Word, With, Fail, MoveToFront;
    FailEnds(c, i);
    FailRest(c, i);
  }

  lemma FailWord(b: Buf)
    ensures var w := Word(b.flags);
            With(b, if b.error == 0 then w | B_INVAL else w | (B_INVAL | B_ERROR)) ==
            b.(flags := b.flags.(inval := true, error := b.flags.error || b.error != 0))
  {
    Failing(b.flags);
    hide Word, FlagsOf;
  }

  lemma FailRest(c: Cache, i: nat)
    requires Shaped(c) && i < |c.bufs|
    ensures Fail(c, i).clock == if c.bufs[i].flags.inval then c.clock else c.clock + 1
    ensures Fail(c, i).bufs == c.bufs[i := Fail(c, i).bufs[i]]
  {
  }

  /** buf_wait after B_DONE: OK, or the error, with B_INVAL and, the first time, the head of the list. */
  lemma WaitTells(c: Cache, i: nat)
    requires Shaped(c) && Completed(c, i) && Word(c.bufs[i].flags) & B_DONE != 0
    ensures var b := c.bufs[i];
            BufWait(c, i) == if Word(b.flags) & B_ERROR == 0 && b.error == 0 then (c, 0)
                             else (Fail(c, i), if b.error == 0 then 5 else b.error)
  {
    Tests(c.bufs[i].flags);
    hide Word, MoveToFront;
  }

  // ------------------------------------------------ bread, bwrite, startwrite

  /** bread after a hit does nothing more; after a miss it starts the read and waits. */
  lemma BreadDoes(c: Cache, k: Key, size: nat, io: Completion)
    requires WellFormed(c) && Getblk(c, k, size).1.Got?
    ensures var (d, g) := Getblk(c, k, size);
            var b := d.bufs[g.i];
            var w := Word(b.flags);
            if w & B_CACHE != 0 then Bread(c, k, size, io) == (d, Read(g.i, 0))
            else
              && b.bio.Some?
              && var q := Bio(true, b.bio.value.sem, b.bio.value.error);
                 var e := SetBuf(d, g.i, With(b, (w | B_READ) & !(B_DONE | B_ERROR | B_INVAL)).(bio := Some(q)));
                 && HasRequest(e, g.i) && Completed(Strategy(e, g.i, io), g.i)
                 && var (r, status) := BufWait(Strategy(e, g.i, io), g.i);
                    Bread(c, k, size, io) == (r, Read(g.i, status))
  {
    var (d, g) := Getblk(c, k, size);
    var b := d.bufs[g.i];
    Tests(b.flags);
    Starting(b.flags);
    hide Word, FlagsOf, Getblk, Strategy, BufWait;
    if !b.flags.cache {
      StrategyCompletes(SetBuf(d, g.i, Reading(b)), g.i, io);
    }
  }

  /** bwrite of a B_INVAL buffer is brelse: status OK, no transfer, and the buffer unlocked. */
  lemma BwriteInvalid(c: Cache, i: nat, io: Completion)
    requires Shaped(c) && HasRequest(c, i) && Word(c.bufs[i].flags) & B_INVAL != 0
    ensures Bwrite(c, i, io) == (Brelse(c, i), 0)
    ensures var d := Bwrite(c, i, io).0;
            d.disk == c.disk && !d.bufs[i].flags.busy && d.bufs[i].data == c.bufs[i].data
  {
    Tests(c.bufs[i].flags);
    hide Word;
  }

  /**
   bwrite of a valid buffer: the write; then, unless B_ASYNC was set on entry, buf_wait, whose status it returns, and
   brelse.  With B_ASYNC the status is OK, whatever becomes of the write.
   */
  lemma BwriteDoes(c: Cache, i: nat, io: Completion)
    requires Shaped(c) && HasRequest(c, i) && Word(c.bufs[i].flags) & B_INVAL == 0
    ensures var b, q := c.bufs[i], c.bufs[i].bio.value;
            var w := Word(b.flags);
            var e := SetBuf(c, i, With(b, w & !(B_READ | B_DONE | B_ERROR)).(bio := Some(Bio(false, q.sem, q.error))));
            && HasRequest(e, i)
            && var d := Strategy(e, i, io);
               if w & B_ASYNC != 0 then Bwrite(c, i, io) == (d, 0)
               else Completed(d, i) && Bwrite(c, i, io) == (Brelse(BufWait(d, i).0, i), BufWait(d, i).1)
  {
    var b := c.bufs[i];
    Tests(b.flags);
    Starting(b.flags);
    hide Word, FlagsOf, Strategy, BufWait, Brelse;
    StrategyCompletes(SetBuf(c, i, Writing(b)), i, io);
  }

  /** buf_startwrite: B_ASYNC, then bwrite, which does nothing on a valid idle buffer. */
  lemma StartWriteDoes(c: Cache, i: nat, io: Completion)
    requires Shaped(c) && HasRequest(c, i)
    ensures var w := Word(c.bufs[i].flags) | B_ASYNC;
            var d := SetBuf(c, i, With(c.bufs[i], w));
            && HasRequest(d, i)
            && StartWrite(c, i, io) == if w & (B_BUSY | B_INVAL) == 0 then d else Bwrite(d, i, io).0
  {
    Starting(c.bufs[i].flags);
    hide Word, FlagsOf, Bwrite;
  }

  // --------------------------------------------------------- mountBufAlloc

  /** A new mount: no flag, no key, no request, an empty semaphore, zeros; the first buffer heads the list. */
  lemma MountDoes(n: nat, size: nat, disk: map<Key, Data>, i: nat)
    requires i < n
    ensures var c := Fresh(n, size, disk);
            var b := c.bufs[i];
            && |c.bufs| == n && |c.lru| == n && c.lru[i] == i && c.disk == disk
            && b == Buf(FlagsOf(0), None, size, b.data, None, false, 0, b.stamp)
            && |b.data| == size && forall p :: 0 <= p < size ==> b.data[p] == 0
  {
    Locking(NO_FLAGS);
    hide Word, FlagsOf;
  }

  // ------------------------------------------------------- what follows

  /**
   The semaphore of a new buffer is empty: of two tasks that ask a new mount for the same block, the first gets the
   buffer at the tail of the list and the second sleeps on it, whatever the sizes.
   */
  lemma NewMountLocks(n: nat, size: nat, disk: map<Key, Data>, k: Key, s1: nat, s2: nat)
    requires n > 0
    ensures var (d, g) := Getblk(Fresh(n, size, disk), k, s1);
            g == Got(n - 1) && Getblk(d, k, s2).1 == Sleeping(n - 1)
  {
    var c := Fresh(n, size, disk);
    FreshWellFormed(n, size, disk);
    var v := n - 1;
    VictimIsOldestIdle(c, v);
    assert Incore(c, k) == None;
    assert !c.bufs[v].sem;
    hide Fresh, Getblk;
    FirstLocks(c, k, s1, v, s2);
  }

  /** A miss locks the victim, and its semaphore, if empty, keeps others waiting. */
  lemma FirstLocks(c: Cache, k: Key, s1: nat, v: nat, s2: nat)
    requires WellFormed(c) && Incore(c, k) == None && Victim(c) == Some(v) && v < |c.bufs|
    ensures var (d, g) := Getblk(c, k, s1);
            g == Got(v) && (!c.bufs[v].sem <==> Getblk(d, k, s2).1 == Sleeping(v))
  {
    hide Getblk;
    GetblkPass(c, k, s1);
    GetblkKeeps(c, k, s1);
    MissReturns(c, k);
    var d := Getblk(c, k, s1).0;
    IncoreExact(d, k, v);
    GetblkPass(d, k, s2);
    if c.bufs[v].sem { GetblkOutcome(d, k, s2); }
  }

  /** A second holder takes the semaphore with the buffer: a third task, of any size, sleeps. */
  lemma ThirdSleeps(c: Cache, k: Key, size: nat, i: nat, size2: nat)
    requires WellFormed(c) && i < |c.bufs| && Seizable(c, i, k) && c.bufs[i].size == size
    ensures var (d, g) := Getblk(c, k, size);
            && g == Got(i) && !d.bufs[i].sem && d.bufs[i].flags.wanted
            && Getblk(d, k, size2).1 == Sleeping(i)
  {
    IncoreExact(c, k, i);
    GetblkPass(c, k, size);
    GetblkKeeps(c, k, size);
    hide Getblk;
    var d := Getblk(c, k, size).0;
    IncoreExact(d, k, i);
    GetblkPass(d, k, size2);
  }
}
