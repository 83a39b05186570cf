/**
 Two levels on one list.  The strategy routines of a file (src/fs/rt11fs/rt11VopsLib.c) serve a file buffer through a
 second buffer for the physical block, exchanging the data areas of the two with buf_swapdata.
 */
module FileStrategy {
  import opened CacheModel
  import opened CacheInvariant
  import opened IoOutcome
  import opened Runs
  import opened Effects
  import opened Holds
  import opened Coherence

  /** The calls of the write strategy for file buffer i, when buf_getblk returns buffer t for the physical block. */
  function WriteCalls(i: nat, t: nat, p: Key, size: nat, io: Completion): seq<Call> {
    [Get(p, size), Swap(i, t), StoreAsync(t, io), Wait(t), Swap(i, t), Scrap(t), Release(t)]
  }

  /** The calls of the read strategy, when the bread of the physical block has returned OK with buffer t. */
  function ReadCalls(i: nat, t: nat, p: Key, size: nat, io: Completion): seq<Call> {
    [Fetch(p, size, io)] + ([Swap(t, i)] + [Scrap(t), Release(t)])
  }

  /** A locked file buffer whose request has just been started, synchronous or not, and that is not completed yet. */
  predicate Asked(c: Cache, i: nat) {
    HasRequest(c, i) && c.bufs[i].flags.busy && !c.bufs[i].flags.inval && !c.bufs[i].bio.value.sem
  }

  /** A file buffer that its strategy is called for. */
  ghost predicate Served(c: Cache, i: nat, p: Key) {
    && WellFormed(c) && Asked(c, i) && Unclaimed(c, p)
    && forall j :: 0 <= j < |c.bufs| && j != i ==> Settled(c.bufs[j])
  }

  /** The second buffer once buf_getblk has returned it: another one, locked, calm, in nobody's hands. */
  lemma SecondBuffer(c: Cache, i: nat, p: Key, size: nat)
    requires Served(c, i, p) && Getblk(c, p, size).1.Got?
    ensures var (d, g) := Getblk(c, p, size);
            && g.i != i && Held(d, g.i) && Quiet(d, g.i) && !d.bufs[g.i].flags.inval
            && d.bufs[i] == c.bufs[i] && WellFormed(d)
  {
    GetAcquires(c, p, size);
    GetblkKeeps(c, p, size);
  }

  /** Writing the data of i through t: from the exchange to the end of buf_wait. */
  ghost predicate Wrote(d: Cache, e: Cache, i: nat, t: nat, io: Completion)
    requires i < |d.bufs| && t < |d.bufs|
  {
    && |e.bufs| == |d.bufs|
    && (forall j :: 0 <= j < |d.bufs| && j != i && j != t ==> e.bufs[j] == d.bufs[j])
    && HasRequest(e, i) && HasRequest(e, t)
    && ContentOf(e.bufs[i]) == ContentOf(d.bufs[t])
    && e.bufs[i] == d.bufs[i].(data := e.bufs[i].data, size := e.bufs[i].size, bio := e.bufs[i].bio)
    && e.bufs[t].data == d.bufs[i].data && e.bufs[t].size == d.bufs[i].size && e.bufs[t].key == d.bufs[t].key
    && !e.bufs[t].flags.busy
  }

  lemma WriteOut(d: Cache, i: nat, t: nat, io: Completion)
    requires WellFormed(d) && i != t && Asked(d, i) && Held(d, t) && Quiet(d, t) && !d.bufs[t].flags.inval
    ensures var s := SwapData(d, i, t);
            && HasRequest(s, t)
            && Completed(StartWrite(s, t, io), t)
            && var (e, status) := BufWait(StartWrite(s, t, io), t);
               && status == Status(io) && Wrote(d, e, i, t, io)
               && e.disk == d.disk[d.bufs[t].key.value := if io.error == OK then d.bufs[i].data else io.junk]
  {
    hide StartWrite, BufWait;
    var s := SwapData(d, i, t);
    StartWriteReturns(s, t, io);
    var w := StartWrite(s, t, io);
    if io.ViaBio? { WaitReaps(w, t); } else { WaitAgain(w, t, io.error); }
  }

  /** buf_wait after buf_done has released the buffer. */
  lemma WaitAgain(c: Cache, i: nat, error: int)
    requires Shaped(c) && Completed(c, i) && c.bufs[i].flags.done && c.bufs[i].error == error && !c.bufs[i].flags.error
    ensures var (d, status) := BufWait(c, i);
            && status == error && OnlyBuf(c, d, i) && d.disk == c.disk
            && d.bufs[i].data == c.bufs[i].data && d.bufs[i].size == c.bufs[i].size && d.bufs[i].bio == c.bufs[i].bio
            && d.bufs[i].key == c.bufs[i].key && d.bufs[i].flags.busy == c.bufs[i].flags.busy
  {
    if error != OK { FailEnds(c, i); }
  }

  /**
   The write strategy writes the file buffer's data to the physical block, gives the file buffer its data, size and
   everything else back, and leaves the second buffer unlocked and out of the cache.  Its status is that of the write.
   No other buffer changes but an idle copy of the block in another size, which is dropped.
   */
  lemma WriteThrough(c: Cache, i: nat, p: Key, size: nat, io: Completion)
    requires Served(c, i, p) && Getblk(c, p, size).1.Got?
    ensures var t := Getblk(c, p, size).1.i;
            var run := WriteCalls(i, t, p, size, io);
            && t < |c.bufs| && t != i && !c.bufs[t].flags.busy
            && Runnable(c, run)
            && var e := Exec(c, run);
               && e.disk == c.disk[p := if io.error == OK then c.bufs[i].data else io.junk]
               && |e.bufs| == |c.bufs| && e.bufs[i] == c.bufs[i].(bio := e.bufs[i].bio)
               && !e.bufs[t].flags.busy && e.bufs[t].flags.inval
               && forall j :: 0 <= j < |c.bufs| && j != i && j != t ==>
                    e.bufs[j] == c.bufs[j] || Dropped(c.bufs[j], e.bufs[j], p, size)
    ensures var t := Getblk(c, p, size).1.i;
            var s := SwapData(Getblk(c, p, size).0, i, t);
            HasRequest(s, t) && Completed(StartWrite(s, t, io), t) && BufWait(StartWrite(s, t, io), t).1 == Status(io)
  {
    hide Getblk, StartWrite, BufWait, Runnable, Exec;
    var (d, g) := Getblk(c, p, size);
    var t := g.i;
    SecondBuffer(c, i, p, size);
    GetAcquires(c, p, size);
    WriteOut(d, i, t, io);
    var s := SwapData(d, i, t);
    var w := StartWrite(s, t, io);
    var e := BufWait(w, t).0;
    var f := SwapData(e, i, t);
    var x := SetFlags(f, t, f.bufs[t].flags.(inval := true));
    Chain7(c, i, t, p, size, io, d, s, w, e, f, x);
    assert Brelse(x, t) == x;
    assert f.bufs[i] == d.bufs[i].(bio := f.bufs[i].bio);
  }

  lemma Chain7(c: Cache, i: nat, t: nat, p: Key, size: nat, io: Completion,
               d: Cache, s: Cache, w: Cache, e: Cache, f: Cache, x: Cache)
    requires Shaped(c) && d == Getblk(c, p, size).0
    requires HasRequest(d, i) && HasRequest(d, t) && s == SwapData(d, i, t)
    requires HasRequest(s, t) && w == StartWrite(s, t, io)
    requires Completed(w, t) && e == BufWait(w, t).0
    requires HasRequest(e, i) && HasRequest(e, t) && f == SwapData(e, i, t)
    requires x == SetFlags(f, t, f.bufs[t].flags.(inval := true))
    ensures var run := WriteCalls(i, t, p, size, io);
            Runnable(c, run) && Exec(c, run) == Brelse(x, t)
  {
    hide Getblk, SwapData, StartWrite, BufWait, Brelse, Runnable, Exec;
    var rest := [StoreAsync(t, io), Wait(t), Swap(i, t), Scrap(t), Release(t)];
    WriteTail(s, i, t, io, w, e, f, x);
    RunnableCons(d, Swap(i, t), rest);
    RunnableCons(c, Get(p, size), [Swap(i, t)] + rest);
    assert WriteCalls(i, t, p, size, io) == [Get(p, size)] + ([Swap(i, t)] + rest);
  }

  lemma WriteTail(s: Cache, i: nat, t: nat, io: Completion, w: Cache, e: Cache, f: Cache, x: Cache)
    requires Shaped(s) && HasRequest(s, t) && w == StartWrite(s, t, io)
    requires Completed(w, t) && e == BufWait(w, t).0
    requires HasRequest(e, i) && HasRequest(e, t) && f == SwapData(e, i, t)
    requires x == SetFlags(f, t, f.bufs[t].flags.(inval := true))
    ensures var run := [StoreAsync(t, io), Wait(t), Swap(i, t), Scrap(t), Release(t)];
            Runnable(s, run) && Exec(s, run) == Brelse(x, t)
  {
    hide StartWrite, BufWait, Brelse, Runnable, Exec;
    DropsSecond(f, t, x);
    hide SwapData;
    var r2 := [Scrap(t), Release(t)];
    var r3 := [Swap(i, t)] + r2;
    var r4 := [Wait(t)] + r3;
    var r5 := [StoreAsync(t, io)] + r4;
    RunnableCons(e, Swap(i, t), r2);
    RunnableCons(w, Wait(t), r3);
    RunnableCons(s, StoreAsync(t, io), r4);
    assert r5 == [StoreAsync(t, io), Wait(t), Swap(i, t), Scrap(t), Release(t)];
  }

  /** The last two calls of both strategies. */
  lemma DropsSecond(f: Cache, t: nat, x: Cache)
    requires Shaped(f) && t < |f.bufs| && f.bufs[t].key.Some? && x == SetFlags(f, t, f.bufs[t].flags.(inval := true))
    ensures Runnable(f, [Scrap(t), Release(t)]) && Exec(f, [Scrap(t), Release(t)]) == Brelse(x, t)
  {
    hide Brelse;
    assert Runnable(Brelse(x, t), []) && Exec(Brelse(x, t), []) == Brelse(x, t);
    hide Runnable, Exec;
    RunnableCons(x, Release(t), []);
    RunnableCons(f, Scrap(t), [Release(t)]);
  }

  // ---------------------------------------------------------------- read

  /**
   The read strategy, when the physical block could be read: the file buffer gets the data of the block and the size of
   the second buffer, which is left unlocked and out of the cache; the medium is unchanged.
   */
  lemma ReadThrough(s: Session, i: nat, p: Key, size: nat, io: Completion)
    requires Coherent(s) && Served(s.c, i, p) && Sharable(s, p, size)
    requires Bread(s.c, p, size, io).1.Read? && Bread(s.c, p, size, io).1.status == OK
    ensures var t := Bread(s.c, p, size, io).1.i;
            var run := ReadCalls(i, t, p, size, io);
            && t < |s.c.bufs| && t != i && !s.c.bufs[t].flags.busy
            && Runnable(s.c, run)
            && var e := Exec(s.c, run);
               && e.disk == s.c.disk && |e.bufs| == |s.c.bufs|
               && e.bufs[i].data == Cell(s.c.disk, p)
               && e.bufs[i] == s.c.bufs[i].(data := e.bufs[i].data, size := e.bufs[i].size, bio := e.bufs[i].bio)
               && !e.bufs[t].flags.busy && e.bufs[t].flags.inval && e.bufs[t].data == s.c.bufs[i].data
               && forall j :: 0 <= j < |s.c.bufs| && j != i && j != t ==>
                    e.bufs[j] == s.c.bufs[j] || Dropped(s.c.bufs[j], e.bufs[j], p, size)
  {
    hide Getblk, Bread, Runnable, Exec;
    var c := s.c;
    var (d, r) := Bread(c, p, size, io);
    var t := r.i;
    ReadHolds(s, i, p, size, io);
    var f := SwapData(d, t, i);
    var x := SetFlags(f, t, f.bufs[t].flags.(inval := true));
    var e := Brelse(x, t);
    ReadTail(c, d, i, t, p, size, io, f, x);
    assert e.bufs[i] == f.bufs[i];
    assert f.bufs[i] == c.bufs[i].(data := d.bufs[t].data, size := d.bufs[t].size, bio := d.bufs[t].bio);
  }

  lemma ReadHolds(s: Session, i: nat, p: Key, size: nat, io: Completion)
    requires Coherent(s) && Served(s.c, i, p) && Sharable(s, p, size) && Bread(s.c, p, size, io).1.Read?
    ensures var (d, r) := Bread(s.c, p, size, io);
            && r.i < |s.c.bufs| && r.i != i && !s.c.bufs[r.i].flags.busy && d.bufs[i] == s.c.bufs[i]
            && HasRequest(d, r.i) && d.bufs[r.i].flags.busy && d.disk == s.c.disk
            && (r.status == OK ==> d.bufs[r.i].data == Cell(s.c.disk, p))
            && (r.status != OK ==> d.bufs[r.i].flags.inval)
            && forall j :: 0 <= j < |s.c.bufs| && j != r.i ==>
                 d.bufs[j] == s.c.bufs[j] || Dropped(s.c.bufs[j], d.bufs[j], p, size)
  {
    hide Getblk, Bread;
    GetAcquires(s.c, p, size);
    BreadTouches(s.c, p, size, io);
    BreadReturns(s.c, p, size, io);
    BreadKeeps(s.c, p, size, io);
    ReadIsFromDisk(s, p, size, io);
  }

  lemma ReadTail(c: Cache, d: Cache, i: nat, t: nat, p: Key, size: nat, io: Completion, f: Cache, x: Cache)
    requires Shaped(c) && d == Bread(c, p, size, io).0
    requires HasRequest(d, i) && HasRequest(d, t) && f == SwapData(d, t, i)
    requires x == SetFlags(f, t, f.bufs[t].flags.(inval := true))
    ensures Runnable(c, ReadCalls(i, t, p, size, io)) && Exec(c, ReadCalls(i, t, p, size, io)) == Brelse(x, t)
  {
    hide Bread, Brelse, Runnable, Exec;
    DropsSecond(f, t, x);
    assert Step(d, Swap(t, i)) == f && Step(c, Fetch(p, size, io)) == d;
    hide SwapData, Step;
    var r2 := [Scrap(t), Release(t)];
    RunnableCons(d, Swap(t, i), r2);
    RunnableCons(c, Fetch(p, size, io), [Swap(t, i)] + r2);
  }

  /** The state in which the read strategy calls buf_done on the file buffer: after a failed bread, at once. */
  ghost function BeforeDone(s: Session, i: nat, p: Key, size: nat, io: Completion): (e: Cache)
    requires Coherent(s) && Served(s.c, i, p) && Sharable(s, p, size) && Bread(s.c, p, size, io).1.Read?
    ensures Shaped(e)
  {
    var (d, r) := Bread(s.c, p, size, io);
    if r.status != OK then d
    else
      ReadThrough(s, i, p, size, io);
      Exec(s.c, ReadCalls(i, r.i, p, size, io))
  }

  /**
   The read strategy gives back every lock that it takes exactly if the physical block could be read: after a failed
   bread it returns without brelse, and the second buffer stays locked, in nobody's hands.
   */
  lemma ReadLeaksExact(s: Session, i: nat, p: Key, size: nat, io: Completion)
    requires Coherent(s) && Served(s.c, i, p) && Sharable(s, p, size) && Bread(s.c, p, size, io).1.Read?
    ensures var r := Bread(s.c, p, size, io).1;
            && r.i !in Busy(s.c)
            && Busy(BeforeDone(s, i, p, size, io)) == if r.status == OK then Busy(s.c) else Busy(s.c) + {r.i}
    ensures Bread(s.c, p, size, io).1.status != OK <==>
            io.error != OK && !Bread(s.c, p, size, io).0.bufs[Bread(s.c, p, size, io).1.i].flags.cache
  {
    hide Getblk, Bread;
    ReadHolds(s, i, p, size, io);
    BreadReturns(s.c, p, size, io);
    if Bread(s.c, p, size, io).1.status == OK { ReadThrough(s, i, p, size, io); }
  }

  // ----------------------------------------- bread and bwrite of a file block

  /** bread has missed file block f and prepared its buffer: the state in which it calls the strategy. */
  ghost function Prepared(s: Session, f: Key, size: nat): (m: Session)
    requires Coherent(s) && Getblk(s.c, f, size).1.Got?
    requires var (d, g) := Getblk(s.c, f, size); !d.bufs[g.i].flags.cache
  {
    var (d, g) := Getblk(s.c, f, size);
    Session(SetBuf(d, g.i, Reading(d.bufs[g.i])), s.dirty + {g.i})
  }

  lemma PreparedServed(s: Session, f: Key, size: nat, p: Key, psize: nat)
    requires Coherent(s) && Sharable(s, f, size) && Droppable(s.c, f, size) && Getblk(s.c, f, size).1.Got?
    requires var (d, g) := Getblk(s.c, f, size); !d.bufs[g.i].flags.cache
    requires f != p && Unclaimed(s.c, p) && Sharable(s, p, psize)
    ensures var m, i := Prepared(s, f, size), Getblk(s.c, f, size).1.i;
            && Coherent(m) && Served(m.c, i, p) && Sharable(m, p, psize) && m.c.disk == s.c.disk
            && m.c.bufs[i].key == Some(f) && !m.c.bufs[i].flags.async && !m.c.bufs[i].flags.error
  {
    hide Getblk;
    var (d, g) := Getblk(s.c, f, size);
    var m := Prepared(s, f, size);
    GetCoheres(s, f, size);
    GetAcquires(s.c, f, size);
    GetDisk(s.c, f, size);
    UpdateKeeps(d, g.i, Reading(d.bufs[g.i]));
    OneSettles(d, m.c, g.i);
    LocalKeeps(Next(s, Get(f, size)), m, g.i);
  }

  /** The end of the strategy and of bread: buf_done, then buf_wait. */
  lemma DoneAndWaited(c: Cache, i: nat, error: int)
    requires Shaped(c) && HasRequest(c, i) && !c.bufs[i].flags.async && !c.bufs[i].flags.error && !c.bufs[i].flags.inval
    ensures Completed(BufDone(c, i, error), i)
    ensures var (d, status) := BufWait(BufDone(c, i, error), i);
            && status == error && d.disk == c.disk && OnlyBuf(c, d, i)
            && d.bufs[i].data == c.bufs[i].data && d.bufs[i].key == c.bufs[i].key
            && d.bufs[i].flags.busy == c.bufs[i].flags.busy && (d.bufs[i].flags.inval <==> error != OK)
  {
    DoneEffect(c, i, error);
    var e := BufDone(c, i, error);
    assert e.bufs[i].data == c.bufs[i].data && e.disk == c.disk;
    hide BufDone;
    if error != OK { FailEnds(e, i); }
  }

  /**
   A bread of a file block that is not cached, through the read strategy.  It returns OK exactly if the bread of the
   physical block does, and then the data of the physical block, under the key of the file block; the
   medium is unchanged.  Otherwise it returns the error of that bread, and its buffer is B_INVAL.
   */
  lemma FileBread(s: Session, f: Key, size: nat, p: Key, psize: nat, io: Completion)
    requires Coherent(s) && Sharable(s, f, size) && Droppable(s.c, f, size) && Getblk(s.c, f, size).1.Got?
    requires var (d, g) := Getblk(s.c, f, size); !d.bufs[g.i].flags.cache
    requires f != p && Unclaimed(s.c, p) && Sharable(s, p, psize)
    requires Bread(Prepared(s, f, size).c, p, psize, io).1.Read?
    ensures var m, i := Prepared(s, f, size), Getblk(s.c, f, size).1.i;
            && Coherent(m) && Served(m.c, i, p) && Sharable(m, p, psize)
            && var inner := Bread(m.c, p, psize, io).1.status;
               var done := BufDone(BeforeDone(m, i, p, psize, io), i, inner);
               && Completed(done, i)
               && var (e, status) := BufWait(done, i);
                  && status == inner && e.disk == s.c.disk
                  && e.bufs[i].key == Some(f) && e.bufs[i].flags.busy
                  && (status == OK ==> e.bufs[i].data == Cell(s.c.disk, p) && !e.bufs[i].flags.inval)
                  && (status != OK ==> e.bufs[i].flags.inval)
  {
    hide Getblk, Bread, BufDone, BufWait;
    var m, i := Prepared(s, f, size), Getblk(s.c, f, size).1.i;
    PreparedServed(s, f, size, p, psize);
    BeforeDoneKeeps(m, i, p, psize, io);
    DoneAndWaited(BeforeDone(m, i, p, psize, io), i, Bread(m.c, p, psize, io).1.status);
  }

  /** The file buffer when the read strategy calls buf_done. */
  lemma BeforeDoneKeeps(m: Session, i: nat, p: Key, psize: nat, io: Completion)
    requires Coherent(m) && Served(m.c, i, p) && Sharable(m, p, psize) && Bread(m.c, p, psize, io).1.Read?
    ensures var e := BeforeDone(m, i, p, psize, io);
            && HasRequest(e, i) && e.bufs[i].flags == m.c.bufs[i].flags && e.bufs[i].key == m.c.bufs[i].key
            && e.disk == m.c.disk
            && (Bread(m.c, p, psize, io).1.status == OK ==> e.bufs[i].data == Cell(m.c.disk, p))
  {
    hide Getblk, Bread;
    if Bread(m.c, p, psize, io).1.status == OK {
      ReadThrough(m, i, p, psize, io);
      RunKeeps(m.c, ReadCalls(i, Bread(m.c, p, psize, io).1.i, p, psize, io));
    } else {
      ReadHolds(m, i, p, psize, io);
    }
  }

  /**
   A synchronous bwrite of a held file buffer, through the write strategy.  It returns the status of the physical write,
   stores the data in the physical block, or what the failed write leaves there, and releases the buffer, which
   keeps its data and is B_INVAL exactly if the write failed.
   */
  lemma FileBwrite(c: Cache, i: nat, p: Key, psize: nat, io: Completion)
    requires WellFormed(c) && AllSettled(c) && Held(c, i) && !c.bufs[i].flags.inval && Unclaimed(c, p)
    requires Getblk(SetBuf(c, i, Writing(c.bufs[i])), p, psize).1.Got?
    ensures var d := SetBuf(c, i, Writing(c.bufs[i]));
            && Shaped(d) && Served(d, i, p)
            && var run := WriteCalls(i, Getblk(d, p, psize).1.i, p, psize, io);
               && Runnable(d, run)
               && var done := BufDone(Exec(d, run), i, Status(io));
                  && Completed(done, i)
                  && var (e, status) := BufWait(done, i);
                     var r := Brelse(e, i);
                     && status == Status(io)
                     && r.disk == c.disk[p := if io.error == OK then c.bufs[i].data else io.junk]
                     && !r.bufs[i].flags.busy && (r.bufs[i].flags.inval <==> io.error != OK)
                     && r.bufs[i].data == c.bufs[i].data && r.bufs[i].key == c.bufs[i].key
  {
    hide Getblk, BufDone, BufWait, Exec, Runnable;
    var d := SetBuf(c, i, Writing(c.bufs[i]));
    UpdateKeeps(c, i, Writing(c.bufs[i]));
    WriteThrough(d, i, p, psize, io);
    var run := WriteCalls(i, Getblk(d, p, psize).1.i, p, psize, io);
    RunKeeps(d, run);
    DoneAndWaited(Exec(d, run), i, Status(io));
  }
}
