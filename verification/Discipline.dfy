/**
 The discipline of module Coherence is one that clients can follow: reading a block, changing it, and writing a whole
 block, as the file systems do, are polite runs, and they show and store what they should.
 */
module Discipline {
  import opened CacheModel
  import opened CacheInvariant
  import opened IoOutcome
  import opened Runs
  import opened Effects
  import opened Holds
  import opened Coherence

  lemma PoliteCons(s: Session, a: Call, rest: seq<Call>)
    requires Shaped(s.c) && Polite(s, a) && PoliteRun(Next(s, a), rest)
    ensures PoliteRun(s, [a] + rest) && Runnable(s.c, [a] + rest)
    ensures Runnable(Step(s.c, a), rest) && End(s, [a] + rest) == End(Next(s, a), rest)
    ensures Trace(s.c, [a] + rest) == Observed(s.c, a) + Trace(Step(s.c, a), rest)
  {
    hide Next, Observed;
    PoliteRunnable(Next(s, a), rest);
    assert ([a] + rest)[1..] == rest;
    PoliteRunnable(s, [a] + rest);
  }

  /** bread, then brelse: also after a failed read. */
  lemma ReadIsPolite(s: Session, k: Key, size: nat, io: Completion)
    requires Coherent(s) && Unclaimed(s.c, k) && Sharable(s, k, size) && Bread(s.c, k, size, io).1.Read?
    ensures var i := Bread(s.c, k, size, io).1.i;
            var run := [Fetch(k, size, io), Release(i)];
            && PoliteRun(s, run) && Runnable(s.c, run) && End(s, run).dirty == s.dirty
            && Trace(s.c, run) == Observed(s.c, Fetch(k, size, io))
  {
    hide Getblk, Bread, Brelse;
    var i := Bread(s.c, k, size, io).1.i;
    FetchIsPolite(s, k, size, io);
    var t := Next(s, Fetch(k, size, io));
    assert Polite(t, Release(i)) && i !in s.dirty;
    PoliteCons(t, Release(i), []);
    PoliteCons(s, Fetch(k, size, io), [Release(i)]);
    assert Next(t, Release(i)).dirty == s.dirty;
  }

  lemma FetchIsPolite(s: Session, k: Key, size: nat, io: Completion)
    requires Coherent(s) && Unclaimed(s.c, k) && Sharable(s, k, size) && Bread(s.c, k, size, io).1.Read?
    ensures var i, t := Bread(s.c, k, size, io).1.i, Next(s, Fetch(k, size, io));
            && Polite(s, Fetch(k, size, io)) && Coherent(t) && t.dirty == s.dirty
            && Held(t.c, i) && i !in s.dirty && t.c.bufs[i].key == Some(k)
            && (t.c.bufs[i].flags.inval <==> Bread(s.c, k, size, io).1.status != OK)
  {
    hide Getblk, Bread;
    NextCoheres(s, Fetch(k, size, io));
    BreadReturns(s.c, k, size, io);
    BreadTouches(s.c, k, size, io);
    GetAcquires(s.c, k, size);
    StepKeeps(s.c, Fetch(k, size, io));
  }

  /** A held buffer, changed and written by a synchronous bwrite. */
  lemma ChangeIsPolite(s: Session, i: nat, data: Data, out: Completion)
    requires Coherent(s) && Held(s.c, i) && !s.c.bufs[i].flags.inval
    ensures var k, run := s.c.bufs[i].key.value, [Edit(i, data), Store(i, out)];
            && PoliteRun(s, run) && Runnable(s.c, run) && End(s, run).dirty == s.dirty - {i}
            && Trace(s.c, run) == [Wrote(k, data, out)]
            && End(s, run).c.disk == s.c.disk[k := if out.error == OK then data else out.junk]
  {
    hide Bwrite, Step, Dirty, Observed, Polite;
    EditIsPolite(s, i, data);
    var t := Next(s, Edit(i, data));
    StoreIsPolite(t, i, out);
    var u := Next(t, Store(i, out));
    assert PoliteRun(u, []) && End(u, []) == u && Trace(u.c, []) == [];
    PoliteCons(t, Store(i, out), []);
    PoliteCons(s, Edit(i, data), [Store(i, out)]);
    assert [Edit(i, data)] + [Store(i, out)] == [Edit(i, data), Store(i, out)];
    assert [Store(i, out)] + [] == [Store(i, out)];
  }

  lemma EditIsPolite(s: Session, i: nat, data: Data)
    requires Coherent(s) && Held(s.c, i) && !s.c.bufs[i].flags.inval
    ensures var t := Next(s, Edit(i, data));
            && Polite(s, Edit(i, data)) && Coherent(t) && t.dirty == s.dirty + {i} && t.c.disk == s.c.disk
            && Held(t.c, i) && t.c.bufs[i] == s.c.bufs[i].(data := data) && Observed(s.c, Edit(i, data)) == []
  {
    NextCoheres(s, Edit(i, data));
  }

  lemma StoreIsPolite(t: Session, i: nat, out: Completion)
    requires Coherent(t) && Held(t.c, i) && !t.c.bufs[i].flags.inval
    ensures var u, k := Next(t, Store(i, out)), t.c.bufs[i].key.value;
            && Polite(t, Store(i, out)) && u.dirty == t.dirty - {i}
            && Observed(t.c, Store(i, out)) == [Wrote(k, t.c.bufs[i].data, out)]
            && u.c.disk == t.c.disk[k := if out.error == OK then t.c.bufs[i].data else out.junk]
  {
    hide Bwrite;
    BwriteReturns(t.c, i, out);
  }

  /** Read, change and write: the client sees the medium, and the medium ends with what he wrote. */
  lemma UpdateIsPolite(s: Session, k: Key, size: nat, io: Completion, data: Data, out: Completion)
    requires Coherent(s) && Unclaimed(s.c, k) && Sharable(s, k, size) && Bread(s.c, k, size, io).1.Read?
    requires io.error == OK
    ensures var i := Bread(s.c, k, size, io).1.i;
            var run := [Fetch(k, size, io), Edit(i, data), Store(i, out)];
            && PoliteRun(s, run) && Runnable(s.c, run) && End(s, run).dirty == s.dirty
            && Trace(s.c, run) == [Saw(k, Cell(s.c.disk, k)), Wrote(k, data, out)]
            && End(s, run).c.disk == s.c.disk[k := if out.error == OK then data else out.junk]
  {
    hide Getblk, Bread, Bwrite, Sharable, Unclaimed;
    var i := Bread(s.c, k, size, io).1.i;
    FetchIsPolite(s, k, size, io);
    BreadShows(s, k, size, io);
    BreadReturns(s.c, k, size, io);
    ReadIsFromDisk(s, k, size, io);
    var t := Next(s, Fetch(k, size, io));
    ChangeIsPolite(t, i, data, out);
    PoliteCons(s, Fetch(k, size, io), [Edit(i, data), Store(i, out)]);
    assert [Fetch(k, size, io)] + [Edit(i, data), Store(i, out)] == [Fetch(k, size, io), Edit(i, data), Store(i, out)];
  }

  /** Writing a whole block without reading it: buf_getblk, the data, bwrite. */
  lemma OverwriteIsPolite(s: Session, k: Key, size: nat, data: Data, out: Completion)
    requires Coherent(s) && Unclaimed(s.c, k) && Sharable(s, k, size) && Getblk(s.c, k, size).1.Got?
    ensures var i := Getblk(s.c, k, size).1.i;
            var run := [Get(k, size), Edit(i, data), Store(i, out)];
            && PoliteRun(s, run) && Runnable(s.c, run) && End(s, run).dirty == s.dirty
            && End(s, run).c.disk == s.c.disk[k := if out.error == OK then data else out.junk]
  {
    hide Getblk, Bwrite, Sharable;
    var i := Getblk(s.c, k, size).1.i;
    var t := Next(s, Get(k, size));
    GetAcquires(s.c, k, size);
    GetDisk(s.c, k, size);
    NextCoheres(s, Get(k, size));
    GetEffect(s.c, k, size, i);
    ChangeIsPolite(t, i, data, out);
    PoliteCons(s, Get(k, size), [Edit(i, data), Store(i, out)]);
    assert [Get(k, size)] + [Edit(i, data), Store(i, out)] == [Get(k, size), Edit(i, data), Store(i, out)];
  }
}
