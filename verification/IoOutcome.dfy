/**
 What one I/O does, from the call of VOP_STRATEGY to the return of buf_wait: the
 closed form that the run theorems use.
 */
module IoOutcome {
  import opened Recency
  import opened CacheModel
  import opened CacheInvariant

  /** The error code that buf_wait returns: bio_wait's own code is replaced by EIO. */
  function Status(io: Completion): int {
    if io.error == OK then OK else if io.ViaBio? then EIO else io.error
  }

  /** Only buffer i, and of the medium only the cell of key k, may differ. */
  ghost predicate OnlyBuf(c: Cache, d: Cache, i: nat) {
    |d.bufs| == |c.bufs| && forall j :: 0 <= j < |c.bufs| && j != i ==> d.bufs[j] == c.bufs[j]
  }

  /** No asynchronous write, and no completion left over in the request. */
  predicate Calm(b: Buf) {
    !b.flags.async && (b.bio.Some? ==> !b.bio.value.sem)
  }

  predicate Quiet(c: Cache, i: nat) {
    i < |c.bufs| && Calm(c.bufs[i])
  }

  /** The state of a buffer after a synchronous I/O: every completion was consumed. */
  ghost predicate Finished(b: Buf, b': Buf, io: Completion) {
    && b'.key == b.key && b'.size == b.size
    && b'.flags.busy == b.flags.busy && b'.flags.cache == b.flags.cache
    && !b'.flags.async && b'.flags.done && !b'.flags.wanted && b'.sem
    && b'.bio.Some? && !b'.bio.value.sem
    && b'.error == Status(io)
    && (b'.flags.inval <==> io.error != OK)
    && (b'.flags.error <==> io.error != OK)
  }

  /** A request just started on buffer i, without a left-over completion. */
  predicate Started(c: Cache, i: nat) {
    && HasRequest(c, i) && Quiet(c, i)
    && var f := c.bufs[i].flags; !f.done && !f.error && !f.inval
  }

  /** The effect of completion and buf_wait on a state whose transfer has been made. */
  ghost predicate Ends(t: Cache, i: nat, io: Completion, d: Cache, status: int)
    requires i < |t.bufs|
  {
    && status == Status(io)
    && OnlyBuf(t, d, i)
    && Finished(t.bufs[i], d.bufs[i], io)
    && d.bufs[i].data == t.bufs[i].data && d.disk == t.disk
    && d.lru == (if io.error == OK then t.lru else MoveToFront(t.lru, i))
  }

  lemma FailEnds(c: Cache, i: nat)
    requires Shaped(c) && i < |c.bufs|
    ensures var d, b := Fail(c, i), c.bufs[i];
            && OnlyBuf(c, d, i) && d.disk == c.disk
            && d.lru == (if b.flags.inval then c.lru else MoveToFront(c.lru, i))
            && d.bufs[i] == b.(flags := b.flags.(inval := true, error := b.flags.error || b.error != OK),
                               error := if b.error == OK then EIO else b.error,
                               stamp := if b.flags.inval then b.stamp else c.clock)
  {
  }

  lemma EndsViaBio(t: Cache, i: nat, io: Completion)
    requires Shaped(t) && Started(t, i) && io.ViaBio?
    ensures Completed(BioDone(t, i, io.error), i)
    ensures var (d, status) := BufWait(BioDone(t, i, io.error), i);
            Ends(t, i, io, d, status)
  {
    var r := Reap(BioDone(t, i, io.error), i);
    assert OnlyBuf(t, r, i) && r.lru == t.lru;
    if io.error != OK {
      FailEnds(r, i);
    }
  }

  lemma EndsViaBuf(t: Cache, i: nat, io: Completion)
    requires Shaped(t) && Started(t, i) && io.ViaBuf?
    ensures Completed(BufDone(t, i, io.error), i)
    ensures var (d, status) := BufWait(BufDone(t, i, io.error), i);
            Ends(t, i, io, d, status)
  {
    var r := BufDone(t, i, io.error);
    assert OnlyBuf(t, r, i) && r.lru == t.lru;
    if io.error != OK {
      FailEnds(r, i);
    }
  }

  lemma SyncIo(c: Cache, i: nat, io: Completion)
    requires Shaped(c) && Started(c, i)
    ensures Completed(Strategy(c, i, io), i)
    ensures var (d, status) := BufWait(Strategy(c, i, io), i);
            Ends(Transfer(c, i, io), i, io, d, status)
  {
    if io.ViaBio? {
      EndsViaBio(Transfer(c, i, io), i, io);
    } else {
      EndsViaBuf(Transfer(c, i, io), i, io);
    }
  }

  lemma ReadInReturns(c: Cache, i: nat, io: Completion)
    requires Shaped(c) && HasRequest(c, i) && Quiet(c, i)
    ensures var (d, status) := ReadIn(c, i, io);
            && status == Status(io)
            && OnlyBuf(c, d, i) && d.disk == c.disk
            && Finished(c.bufs[i], d.bufs[i], io)
            && d.bufs[i].data == (if io.error == OK then Cell(c.disk, c.bufs[i].key.value) else io.junk)
            && d.lru == (if io.error == OK then c.lru else MoveToFront(c.lru, i))
  {
    SyncIo(SetBuf(c, i, Reading(c.bufs[i])), i, io);
  }

  /** A synchronous write of a valid buffer releases it, and stores its data or the junk of the failure. */
  lemma BwriteReturns(c: Cache, i: nat, io: Completion)
    requires Shaped(c) && HasRequest(c, i) && Quiet(c, i)
    requires c.bufs[i].flags.busy && !c.bufs[i].flags.inval
    ensures var (d, status) := Bwrite(c, i, io);
            var b, b' := c.bufs[i], d.bufs[i];
            && status == Status(io)
            && OnlyBuf(c, d, i)
            && d.disk == c.disk[b.key.value := if io.error == OK then b.data else io.junk]
            && Finished(b, b'.(flags := b'.flags.(busy := true)), io)
            && !b'.flags.busy && b'.data == b.data
            && d.lru == MoveToFront(if io.error == OK then c.lru else MoveToFront(c.lru, i), i)
  {
    SyncIo(SetBuf(c, i, Writing(c.bufs[i])), i, io);
  }

  /** bread: a hit returns at once; a miss reads the block into the buffer. */
  lemma BreadReturns(c: Cache, k: Key, size: nat, io: Completion)
    requires WellFormed(c) && Bread(c, k, size, io).1.Read?
    ensures var (d, r) := Bread(c, k, size, io);
            var b' := d.bufs[r.i];
            && b'.key == Some(k) && b'.flags.busy
            && d.disk == c.disk
            && (b'.flags.cache ==> HitOf(c.bufs[r.i], b', k, size) && r.status == OK && d == SetBuf(c, r.i, b'))
            && (!b'.flags.cache ==>
                  && r.status == Status(io) && Finished(b', b', io)
                  && b'.size == c.bufs[r.i].size
                  && b'.data == if io.error == OK then Cell(c.disk, k) else io.junk)
  {
    var (e, g) := Getblk(c, k, size);
    GetblkReturns(c, k, size);
    if !e.bufs[g.i].flags.cache {
      ReadInReturns(e, g.i, io);
    }
  }

  // ------------------------------------------------------ asynchronous writes

  /** The write is under way: locked, its completion waiting in the request. */
  ghost predicate Flying(b: Buf, b': Buf, io: Completion) {
    && b'.key == b.key && b'.size == b.size && b'.data == b.data
    && b'.flags.busy && b'.flags.async && !b'.flags.done && !b'.flags.inval && !b'.flags.error
    && b'.flags.wanted == b.flags.wanted && b'.sem == b.sem
    && b'.bio == Some(Bio(false, true, io.error))
  }

  /** buf_done has released the buffer, keeping only the error code. */
  ghost predicate Landed(b: Buf, b': Buf, io: Completion) {
    && b'.key == b.key && b'.size == b.size && b'.data == b.data && b'.flags.cache == b.flags.cache
    && !b'.flags.busy && !b'.flags.async && b'.flags.done && !b'.flags.inval && !b'.flags.error
    && !b'.flags.wanted && b'.error == io.error
    && b.bio.Some? && b'.bio == Some(b.bio.value.(read := false))
  }

  lemma StartWriteReturns(c: Cache, i: nat, io: Completion)
    requires Shaped(c) && HasRequest(c, i) && Quiet(c, i)
    requires c.bufs[i].flags.busy && !c.bufs[i].flags.inval
    ensures var d := StartWrite(c, i, io);
            var b, b' := c.bufs[i], d.bufs[i];
            && OnlyBuf(c, d, i)
            && d.disk == c.disk[b.key.value := if io.error == OK then b.data else io.junk]
            && (io.ViaBio? ==> Flying(b, b', io) && d.lru == c.lru)
            && (io.ViaBuf? ==> Landed(b, b', io) && d.lru == MoveToFront(c.lru, i))
  {
  }

  /** buf_wait on a write under way: it is released; an error marks it B_INVAL. */
  lemma WaitReaps(c: Cache, i: nat)
    requires Shaped(c) && Completed(c, i)
    requires var b := c.bufs[i];
             b.flags.busy && b.flags.async && !b.flags.done && !b.flags.inval && !b.flags.error && b.bio.Some?
    ensures var (d, status) := BufWait(c, i);
            var b, b' := c.bufs[i], d.bufs[i];
            && OnlyBuf(c, d, i) && d.disk == c.disk
            && status == (if b.bio.value.error == OK then OK else EIO)
            && b'.key == b.key && b'.size == b.size && b'.data == b.data && b'.flags.cache == b.flags.cache
            && !b'.flags.busy && !b'.flags.async && b'.flags.done && !b'.flags.wanted
            && b'.bio == Some(b.bio.value.(sem := false)) && b'.error == status
            && (b'.flags.inval <==> status != OK)
  {
    var r := Reap(c, i);
    assert OnlyBuf(c, r, i) && r.disk == c.disk;
    if c.bufs[i].bio.value.error != OK {
      FailEnds(r, i);
    }
  }

  /** buf_wait after the end of the I/O: a recorded error marks the buffer B_INVAL. */
  lemma WaitRechecks(c: Cache, i: nat)
    requires Shaped(c) && Completed(c, i) && c.bufs[i].flags.done
    ensures var (d, status) := BufWait(c, i);
            var b, b' := c.bufs[i], d.bufs[i];
            && OnlyBuf(c, d, i) && d.disk == c.disk
            && (status == OK <==> !Failed(b))
            && (status == OK ==> d == c)
            && b' == b.(flags := b.flags.(inval := b.flags.inval || Failed(b), error := b'.flags.error),
                        error := b'.error, stamp := b'.stamp)
  {
    if Failed(c.bufs[i]) {
      FailEnds(c, i);
    }
  }

  /** bread touches only the buffer that buf_getblk returned. */
  lemma BreadTouches(c: Cache, k: Key, size: nat, io: Completion)
    requires WellFormed(c)
    ensures var (d, g) := Getblk(c, k, size);
            var (e, r) := Bread(c, k, size, io);
            && (g.Got? <==> r.Read?)
            && (g.Got? ==> r.i == g.i && OnlyBuf(d, e, g.i))
            && (!g.Got? ==> e == d)
  {
    var (d, g) := Getblk(c, k, size);
    if g.Got? && !d.bufs[g.i].flags.cache {
      GetblkReturns(c, k, size);
      ReadInReturns(d, g.i, io);
    }
  }
}
