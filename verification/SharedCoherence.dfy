/**
 Transparency with sleepers.  Clients may also ask for locked blocks, sleep, be woken and go on; what they see through
 the cache is still what a store without a cache would show them, if a woken task finds its own block, up to date.
 */
module SharedCoherence {
  import opened CacheModel
  import opened CacheInvariant
  import opened IoOutcome
  import opened Runs
  import opened Effects
  import opened Holds
  import opened Wakeups
  import opened Sleepers
  import opened Woken
  import C = Coherence

  /** The tasks, and the held buffers whose data need not be those of the medium. */
  datatype Company = Company(s: Crowd, dirty: set<nat>)

  function Alone(m: Company): C.Session {
    C.Session(m.s.c, m.dirty)
  }

  /**
   The discipline of Coherence, and its counterpart for a woken task: of the size asked for, the buffer is a valid copy
   of the task's block that holds what the medium holds; of another size, nothing in it waits to be written.
   */
  ghost predicate Polite(m: Company, e: Event)
    requires Sized(m.s)
  {
    && Enabled(m.s, e)
    && match e
       case Do(a) => C.Polite(Alone(m), a)
       case Resume(i, k, size) =>
         && i < |m.s.c.bufs|
         && if m.s.c.bufs[i].size == size then Matches(m.s.c.bufs[i], k) && C.Trusted(Alone(m), i)
            else i !in m.dirty && !UnderWay(m.s.c.bufs[i])
  }

  function Advance(m: Company, e: Event): (r: Company)
    requires Sized(m.s) && Enabled(m.s, e)
    ensures Sized(r.s)
  {
    Company(Next(m.s, e), if e.Do? then C.Dirty(Alone(m), e.a) else m.dirty)
  }

  /** What the clients see of a step; a woken task sees the block that it asked for. */
  function Observed(s: Crowd, e: Event): seq<C.Event>
    requires Sized(s) && Enabled(s, e)
  {
    match e
    case Do(a) => C.Observed(s.c, a)
    case Resume(i, k, size) => if s.c.bufs[i].size == size then [C.Saw(k, s.c.bufs[i].data)] else []
  }

  ghost predicate Coherent(m: Company) {
    Sound(m.s) && C.Coherent(Alone(m))
  }

  /** Only the semaphores differ. */
  ghost predicate Alike(c: Cache, d: Cache) {
    && |d.bufs| == |c.bufs| && d.disk == c.disk
    && forall i :: 0 <= i < |c.bufs| ==> d.bufs[i] == c.bufs[i].(sem := d.bufs[i].sem)
  }

  lemma AlikeCoheres(s: C.Session, t: C.Session)
    requires C.Coherent(s) && Alike(s.c, t.c) && t.dirty == s.dirty && WellFormed(t.c)
    ensures C.Coherent(t)
  {
    forall i: nat | i < |t.c.bufs| && C.Trusted(t, i)
      ensures t.c.bufs[i].data == Cell(t.c.disk, t.c.bufs[i].key.value)
    {
      assert C.Trusted(s, i);
    }
  }

  lemma HandOverAlike(s: Crowd)
    requires Sized(s)
    ensures Alike(s.c, HandOver(s).c)
  {
  }

  lemma ResumeCoheres(m: Company, i: nat, k: Key, size: nat)
    requires Coherent(m) && Polite(m, Resume(i, k, size))
    ensures C.Coherent(C.Session(Resumed(m.s.c, i, size), m.dirty))
  {
    var s, t := Alone(m), C.Session(Resumed(m.s.c, i, size), m.dirty);
    ResumedKeeps(s.c, i, size);
    OneSettles(s.c, t.c, i);
    assert C.Trusted(t, i) ==> C.Trusted(s, i);
    C.LocalKeeps(s, t, i);
  }

  /** Every polite step, of a task making a call or of one going on, keeps the cache coherent. */
  lemma AdvanceCoheres(m: Company, e: Event)
    requires Coherent(m) && Polite(m, e)
    ensures Coherent(Advance(m, e))
  {
    NextKeeps(m.s, e);
    match e
    case Do(a) =>
      C.NextCoheres(Alone(m), a);
      HandOverAlike(m.s.(c := Step(m.s.c, a)));
      AlikeCoheres(C.Next(Alone(m), a), Alone(Advance(m, e)));
    case Resume(i, k, size) =>
      var c := Resumed(m.s.c, i, size);
      ResumeCoheres(m, i, k, size);
      HandOverAlike(m.s.(c := c, woken := m.s.woken[i := m.s.woken[i] - 1]));
      AlikeCoheres(C.Session(c, m.dirty), Alone(Advance(m, e)));
  }

  /** A polite woken task of the size of its buffer sees the data of the medium. */
  lemma WokenSees(m: Company, i: nat, k: Key, size: nat)
    requires Coherent(m) && Polite(m, Resume(i, k, size)) && m.s.c.bufs[i].size == size
    ensures Observed(m.s, Resume(i, k, size)) == [C.Saw(k, Cell(m.s.c.disk, k))]
  {
  }

  lemma ObservedIsTrue(m: Company, e: Event)
    requires Coherent(m) && Polite(m, e)
    ensures C.Explains(m.s.c.disk, Observed(m.s, e))
    ensures C.Final(m.s.c.disk, Observed(m.s, e)) == Next(m.s, e).c.disk
  {
    match e
    case Do(a) =>
      C.ObservedIsTrue(Alone(m), a);
      HandOverAlike(m.s.(c := Step(m.s.c, a)));
    case Resume(i, k, size) =>
      HandOverAlike(m.s.(c := Resumed(m.s.c, i, size), woken := m.s.woken[i := m.s.woken[i] - 1]));
  }

  // ------------------------------------------------------------------ runs

  ghost predicate PoliteRun(m: Company, run: seq<Event>)
    requires Sized(m.s)
    decreases |run|
  {
    run == [] || (Polite(m, run[0]) && PoliteRun(Advance(m, run[0]), run[1..]))
  }

  lemma {:induction false} PoliteAble(m: Company, run: seq<Event>)
    requires Sized(m.s) && PoliteRun(m, run)
    ensures Able(m.s, run)
    decreases |run|
  {
    if run != [] { PoliteAble(Advance(m, run[0]), run[1..]); }
  }

  function Trace(s: Crowd, run: seq<Event>): seq<C.Event>
    requires Sized(s) && Able(s, run)
    decreases |run|
  {
    if run == [] then [] else Observed(s, run[0]) + Trace(Next(s, run[0]), run[1..])
  }

  function End(m: Company, run: seq<Event>): (r: Company)
    requires Sized(m.s) && Able(m.s, run)
    ensures r.s == After(m.s, run)
    decreases |run|
  {
    if run == [] then m else End(Advance(m, run[0]), run[1..])
  }

  /**
   Transparency.  For every polite run of any number of tasks that sleep, are woken and go on, with any errors of reads
   and writes: all that is seen through the cache is what a store without a cache, given the same writes, would
   show, and the medium ends as that store does.
   */
  lemma {:induction false} Transparent(m: Company, run: seq<Event>)
    requires Coherent(m) && PoliteRun(m, run)
    ensures Able(m.s, run) && Coherent(End(m, run))
    ensures C.Explains(m.s.c.disk, Trace(m.s, run))
    ensures C.Final(m.s.c.disk, Trace(m.s, run)) == After(m.s, run).c.disk
    decreases |run|
  {
    PoliteAble(m, run);
    if run != [] {
      hide Polite, Next, Observed;
      var t := Advance(m, run[0]);
      AdvanceCoheres(m, run[0]);
      ObservedIsTrue(m, run[0]);
      Transparent(t, run[1..]);
      C.ExplainsConcat(m.s.c.disk, Observed(m.s, run[0]), Trace(t.s, run[1..]));
    }
  }

  /** So it is on a new mount. */
  lemma TransparentOnNewMount(n: nat, size: nat, disk: map<Key, Data>, run: seq<Event>)
    requires PoliteRun(Company(Opening(n, size, disk), {}), run)
    ensures var s := Opening(n, size, disk);
            && Able(s, run)
            && C.Explains(disk, Trace(s, run)) && C.Final(disk, Trace(s, run)) == After(s, run).c.disk
  {
    OpeningSound(n, size, disk);
    C.FreshCoherent(n, size, disk);
    Transparent(Company(Opening(n, size, disk), {}), run);
  }

  /**
   A task that sleeps on a block sees what its holder then writes: the holder's change and bwrite and the woken task's
   return are a polite run, and show first the write and then its data.
   */
  lemma SleeperSeesWrite(m: Company, i: nat, data: Data, out: Completion)
    requires Coherent(m) && Held(m.s.c, i) && !m.s.c.bufs[i].flags.inval && out.error == OK
    requires m.s.asleep[i] > 0
    ensures var k := m.s.c.bufs[i].key.value;
            var run := [Do(Edit(i, data)), Do(Store(i, out)), Resume(i, k, m.s.c.bufs[i].size)];
            && PoliteRun(m, run) && Able(m.s, run)
            && Trace(m.s, run) == [C.Wrote(k, data, out), C.Saw(k, data)]
  {
    hide Polite, Advance, Observed, Step;
    var k, size := m.s.c.bufs[i].key.value, m.s.c.bufs[i].size;
    EditStep(m, i, data);
    var t := Advance(m, Do(Edit(i, data)));
    StoreStep(t, i, out);
    var u := Advance(t, Do(Store(i, out)));
    PoliteCons(u, Resume(i, k, size), []);
    PoliteCons(t, Do(Store(i, out)), [Resume(i, k, size)]);
    PoliteCons(m, Do(Edit(i, data)), [Do(Store(i, out)), Resume(i, k, size)]);
    assert [Do(Edit(i, data))] + [Do(Store(i, out)), Resume(i, k, size)]
        == [Do(Edit(i, data)), Do(Store(i, out)), Resume(i, k, size)];
    assert [Do(Store(i, out))] + [Resume(i, k, size)] == [Do(Store(i, out)), Resume(i, k, size)];
    assert [Resume(i, k, size)] + [] == [Resume(i, k, size)];
  }

  lemma PoliteCons(m: Company, e: Event, rest: seq<Event>)
    requires Sized(m.s) && Polite(m, e) && PoliteRun(Advance(m, e), rest)
    ensures PoliteRun(m, [e] + rest) && Able(m.s, [e] + rest)
    ensures Able(Advance(m, e).s, rest) && Trace(m.s, [e] + rest) == Observed(m.s, e) + Trace(Advance(m, e).s, rest)
  {
    hide Next, Observed;
    PoliteAble(Advance(m, e), rest);
    assert ([e] + rest)[1..] == rest;
    PoliteAble(m, [e] + rest);
  }

  lemma EditStep(m: Company, i: nat, data: Data)
    requires Coherent(m) && Held(m.s.c, i) && !m.s.c.bufs[i].flags.inval
    ensures var e := Do(Edit(i, data));
            && Polite(m, e) && Observed(m.s, e) == []
            && var t := Advance(m, e);
               && Coherent(t) && Held(t.s.c, i)
               && t.s.c.bufs[i] == m.s.c.bufs[i].(data := data, sem := t.s.c.bufs[i].sem)
               && t.s.asleep[i] == m.s.asleep[i] && (m.s.asleep[i] > 0 ==> t.s.woken[i] == m.s.woken[i])
  {
    AdvanceCoheres(m, Do(Edit(i, data)));
    NextAt(m.s, Edit(i, data), i);
  }

  lemma StoreStep(t: Company, i: nat, out: Completion)
    requires Coherent(t) && Held(t.s.c, i) && !t.s.c.bufs[i].flags.inval && out.error == OK && t.s.asleep[i] > 0
    ensures var e, b := Do(Store(i, out)), t.s.c.bufs[i];
            && Polite(t, e) && Observed(t.s, e) == [C.Wrote(b.key.value, b.data, out)]
            && var u, last := Advance(t, e), Resume(i, b.key.value, b.size);
               && Sized(u.s) && Polite(u, last) && Observed(u.s, last) == [C.Saw(b.key.value, b.data)]
  {
    hide Bwrite;
    BwriteReturns(t.s.c, i, out);
    NextAt(t.s, Store(i, out), i);
  }
}
