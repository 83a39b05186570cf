/**
 The cache is transparent.  Clients that write back what they change see, through
 the cache, what a store without any cache would show them.
 */
module Coherence {
  import opened CacheModel
  import opened CacheInvariant
  import opened IoOutcome
  import opened Runs
  import opened Effects
  import opened Holds

  /** A mount, and the held buffers whose data need not be those of the medium: not yet read, or changed. */
  datatype Session = Session(c: Cache, dirty: set<nat>)

  /**
   A valid copy of the block that buf_getblk does not wait for is not one that waits to be written; if it is of the size
   asked for, no asynchronous write of it has failed either.
   */
  ghost predicate Sharable(s: Session, k: Key, size: nat) {
    forall i: nat :: i < |s.c.bufs| && Matches(s.c.bufs[i], k) && (s.c.bufs[i].flags.busy ==> s.c.bufs[i].sem) ==>
                       i !in s.dirty && (s.c.bufs[i].size == size ==> !Doomed(s.c.bufs[i]))
  }

  /**
   The client discipline: write or read a buffer before releasing it, after it was obtained without B_CACHE or changed,
   and do not ask for it before; after an asynchronous write has failed, call buf_wait before asking for the block.
   */
  ghost predicate Polite(s: Session, a: Call) {
    && Orderly(s.c, a)
    && match a
       case Get(k, size) => Sharable(s, k, size)
       case Fetch(k, size, _) => Sharable(s, k, size)
       case Release(i) => i !in s.dirty || s.c.bufs[i].flags.inval
       case _ => true
  }

  function Dirty(s: Session, a: Call): set<nat>
    requires Shaped(s.c)
  {
    match a
    case Get(k, size) =>
      (match Getblk(s.c, k, size)
       case (d, Got(i)) => if d.bufs[i].flags.cache then s.dirty else s.dirty + {i}
       case _ => s.dirty)
    case Edit(i, _) => s.dirty + {i}
    case Swap(i, j) => s.dirty + {i, j}
    case Store(i, _) => s.dirty - {i}
    case StoreAsync(i, _) => s.dirty - {i}
    case Release(i) => s.dirty - {i}
    case _ => s.dirty
  }

  function Next(s: Session, a: Call): (r: Session)
    requires Shaped(s.c) && Callable(s.c, a)
    ensures Shaped(r.c)
  {
    Session(Step(s.c, a), Dirty(s, a))
  }

  /** An asynchronous write has failed without a buf_wait yet: it is under way, or buf_done has released it. */
  predicate Doomed(b: Buf) {
    (UnderWay(b) && b.bio.Some? && b.bio.value.error != OK) || (b.flags.done && b.error != OK)
  }

  predicate Trusted(s: Session, i: nat)
    requires i < |s.c.bufs|
  {
    s.c.bufs[i].key.Some? && !s.c.bufs[i].flags.inval && i !in s.dirty && !Doomed(s.c.bufs[i])
  }

  /** Nobody holds a buffer whose asynchronous write has failed, unless it is marked B_INVAL. */
  predicate Sane(b: Buf) {
    b.flags.busy && !b.flags.async && !b.flags.inval ==> !Doomed(b)
  }

  /** Every buffer that is keyed, valid and not in somebody's hands holds what the medium holds. */
  ghost predicate Coherent(s: Session) {
    && WellFormed(s.c) && AllSettled(s.c)
    && (forall i :: i in s.dirty ==> Held(s.c, i))
    && (forall i :: 0 <= i < |s.c.bufs| ==> Sane(s.c.bufs[i]))
    && (forall i: nat :: i < |s.c.bufs| && Trusted(s, i) ==>
                           s.c.bufs[i].data == Cell(s.c.disk, s.c.bufs[i].key.value))
  }

  lemma FreshCoherent(n: nat, size: nat, disk: map<Key, Data>)
    ensures Coherent(Session(Fresh(n, size, disk), {}))
  {
    FreshWellFormed(n, size, disk);
  }

  // --------------------------------------------------- every call keeps it

  /** A change of buffer i alone; if the medium changes, it is in the cell of the valid buffer i. */
  ghost predicate Local(s: Session, t: Session, i: nat) {
    && i < |s.c.bufs| && OnlyBuf(s.c, t.c, i)
    && (forall j :: j != i ==> (j in t.dirty <==> j in s.dirty))
    && (t.c.disk == s.c.disk ||
        (s.c.bufs[i].key.Some? && !s.c.bufs[i].flags.inval &&
         var k := s.c.bufs[i].key.value;
         t.c.disk == s.c.disk[k := Cell(t.c.disk, k)]))
  }

  lemma LocalKeeps(s: Session, t: Session, i: nat)
    requires Coherent(s) && Local(s, t, i) && WellFormed(t.c) && AllSettled(t.c)
    requires i in t.dirty ==> Held(t.c, i)
    requires i < |t.c.bufs| ==> Sane(t.c.bufs[i])
    requires Trusted(t, i) ==> t.c.bufs[i].data == Cell(t.c.disk, t.c.bufs[i].key.value)
    ensures Coherent(t)
  {
    forall j: nat | j < |t.c.bufs| && Trusted(t, j) && j != i
      ensures t.c.bufs[j].data == Cell(t.c.disk, t.c.bufs[j].key.value)
    {
      assert Trusted(s, j);
    }
  }

  lemma GetDisk(c: Cache, k: Key, size: nat)
    requires Shaped(c)
    ensures Getblk(c, k, size).0.disk == c.disk
  {
  }

  lemma GetCoheres(s: Session, k: Key, size: nat)
    requires Coherent(s) && Sharable(s, k, size) && Droppable(s.c, k, size)
    ensures Coherent(Next(s, Get(k, size)))
  {
    hide Getblk;
    var t := Next(s, Get(k, size));
    GetDisk(s.c, k, size);
    GetblkKeeps(s.c, k, size);
    GetSettles(s.c, k, size);
    GetAcquires(s.c, k, size);
    forall j: nat | j < |t.c.bufs| && Trusted(t, j)
      ensures t.c.bufs[j].data == Cell(t.c.disk, t.c.bufs[j].key.value)
    {
      assert Trusted(s, j);
    }
  }

  /** A bread that returns OK returns the data of the medium, and leaves the medium alone. */
  lemma ReadIsFromDisk(s: Session, k: Key, size: nat, io: Completion)
    requires Coherent(s) && Sharable(s, k, size)
    ensures var (d, r) := Bread(s.c, k, size, io);
            && d.disk == s.c.disk
            && (r.Read? && r.status == OK ==> d.bufs[r.i].data == Cell(s.c.disk, k))
  {
    GetAcquires(s.c, k, size);
    BreadTouches(s.c, k, size, io);
    var (d, r) := Bread(s.c, k, size, io);
    if r.Read? {
      BreadReturns(s.c, k, size, io);
      if d.bufs[r.i].flags.cache {
        assert Trusted(s, r.i);
      }
    }
  }

  lemma FetchCoheres(s: Session, k: Key, size: nat, io: Completion)
    requires Coherent(s) && Sharable(s, k, size) && Droppable(s.c, k, size)
    ensures Coherent(Next(s, Fetch(k, size, io)))
  {
    hide Getblk, Bread;
    var g := Next(s, Get(k, size));
    var t := Next(s, Fetch(k, size, io));
    GetCoheres(s, k, size);
    GetAcquires(s.c, k, size);
    BreadTouches(s.c, k, size, io);
    var r := Bread(s.c, k, size, io).1;
    if r.Read? {
      BreadKeeps(s.c, k, size, io);
      FetchSettles(s.c, k, size, io);
      ReadIsFromDisk(s, k, size, io);
      BreadReturns(s.c, k, size, io);
      LocalKeeps(g, t, r.i);
    }
  }

  lemma StoreCoheres(s: Session, i: nat, io: Completion)
    requires Coherent(s) && Held(s.c, i)
    ensures Coherent(Next(s, Store(i, io)))
  {
    hide BufWait, Strategy;
    var t := Next(s, Store(i, io));
    BwriteKeeps(s.c, i, io);
    StoreSettles(s.c, i, io);
    if !s.c.bufs[i].flags.inval { BwriteReturns(s.c, i, io); }
    LocalKeeps(s, t, i);
  }

  lemma StoreAsyncCoheres(s: Session, i: nat, io: Completion)
    requires Coherent(s) && Polite(s, StoreAsync(i, io))
    ensures Coherent(Next(s, StoreAsync(i, io)))
  {
    var t := Next(s, StoreAsync(i, io));
    StepKeeps(s.c, StoreAsync(i, io));
    StoreAsyncSettles(s.c, i, io);
    if !s.c.bufs[i].flags.inval { StartWriteReturns(s.c, i, io); }
    LocalKeeps(s, t, i);
  }

  lemma WaitCoheres(s: Session, i: nat)
    requires Coherent(s) && Completed(s.c, i)
    ensures Coherent(Next(s, Wait(i)))
  {
    var t := Next(s, Wait(i));
    BufWaitKeeps(s.c, i);
    WaitSettles(s.c, i);
    if s.c.bufs[i].flags.done { WaitRechecks(s.c, i); } else { WaitReaps(s.c, i); }
    assert Trusted(t, i) ==> Trusted(s, i);
    LocalKeeps(s, t, i);
  }

  lemma SwapCoheres(s: Session, i: nat, j: nat)
    requires Coherent(s) && Polite(s, Swap(i, j))
    ensures Coherent(Next(s, Swap(i, j)))
  {
    var t := Next(s, Swap(i, j));
    StepKeeps(s.c, Swap(i, j));
    StepSettles(s.c, Swap(i, j));
    forall n: nat | n < |t.c.bufs| && Trusted(t, n)
      ensures t.c.bufs[n].data == Cell(t.c.disk, t.c.bufs[n].key.value)
    {
      assert Trusted(s, n);
    }
  }

  /** Every call of a polite client keeps the cache coherent. */
  lemma NextCoheres(s: Session, a: Call)
    requires Coherent(s) && Polite(s, a)
    ensures Coherent(Next(s, a))
  {
    hide Getblk, Bread, Bwrite, StartWrite, BufWait;
    StepKeeps(s.c, a);
    StepSettles(s.c, a);
    match a
    case Get(k, size) => GetCoheres(s, k, size);
    case Fetch(k, size, io) => FetchCoheres(s, k, size, io);
    case Edit(i, _) => LocalKeeps(s, Next(s, a), i);
    case Scrap(i) => LocalKeeps(s, Next(s, a), i);
    case Swap(i, j) => SwapCoheres(s, i, j);
    case Store(i, io) => StoreCoheres(s, i, io);
    case StoreAsync(i, io) => StoreAsyncCoheres(s, i, io);
    case Wait(i) => WaitCoheres(s, i);
    case Release(i) =>
      assert Trusted(Next(s, a), i) ==> Trusted(s, i);
      LocalKeeps(s, Next(s, a), i);
  }

  // ------------------------------------------- the store without a cache

  /** What clients see: the data of a block, or a write of it with its outcome. */
  datatype Event = Saw(k: Key, data: Data) | Wrote(k: Key, data: Data, io: Completion)

  /** A store without a cache obeys a write at once; a failed write leaves its junk. */
  function Obey(store: map<Key, Data>, e: Event): map<Key, Data> {
    match e
    case Saw(_, _) => store
    case Wrote(k, data, io) => store[k := if io.error == OK then data else io.junk]
  }

  function Final(store: map<Key, Data>, trace: seq<Event>): map<Key, Data>
    decreases |trace|
  {
    if trace == [] then store else Final(Obey(store, trace[0]), trace[1..])
  }

  /** Everything seen in the trace is what the store without a cache holds at that moment. */
  predicate Explains(store: map<Key, Data>, trace: seq<Event>)
    decreases |trace|
  {
    trace == [] ||
    (&& (trace[0].Saw? ==> trace[0].data == Cell(store, trace[0].k))
     && Explains(Obey(store, trace[0]), trace[1..]))
  }

  /** What clients see of a call: a bread that returns OK, a buffer with B_CACHE, a write that reaches VOP_STRATEGY. */
  function Observed(c: Cache, a: Call): seq<Event>
    requires Shaped(c) && Callable(c, a)
  {
    match a
    case Get(k, size) =>
      (match Getblk(c, k, size)
       case (d, Got(i)) => if d.bufs[i].flags.cache then [Saw(k, d.bufs[i].data)] else []
       case _ => [])
    case Fetch(k, size, io) =>
      (match Bread(c, k, size, io)
       case (d, Read(i, status)) => if status == OK then [Saw(k, d.bufs[i].data)] else []
       case _ => [])
    case Store(i, io) => if c.bufs[i].flags.inval then [] else [Wrote(c.bufs[i].key.value, c.bufs[i].data, io)]
    case StoreAsync(i, io) => if c.bufs[i].flags.inval then [] else [Wrote(c.bufs[i].key.value, c.bufs[i].data, io)]
    case _ => []
  }

  ghost predicate PoliteRun(s: Session, run: seq<Call>)
    requires Shaped(s.c)
    decreases |run|
  {
    run == [] || (Polite(s, run[0]) && PoliteRun(Next(s, run[0]), run[1..]))
  }

  function End(s: Session, run: seq<Call>): (t: Session)
    requires Shaped(s.c) && Runnable(s.c, run)
    ensures t.c == Exec(s.c, run)
    decreases |run|
  {
    if run == [] then s else End(Next(s, run[0]), run[1..])
  }

  function Trace(c: Cache, run: seq<Call>): seq<Event>
    requires Shaped(c) && Runnable(c, run)
    decreases |run|
  {
    if run == [] then [] else Observed(c, run[0]) + Trace(Step(c, run[0]), run[1..])
  }

  /**
   What a bread that returns a buffer shows: the data of the medium, if the read succeeds or a valid copy of the size is
   there and not in the way; otherwise it fails, and shows nothing.
   */
  lemma BreadShows(s: Session, k: Key, size: nat, io: Completion)
    requires Coherent(s) && Sharable(s, k, size) && Bread(s.c, k, size, io).1.Read?
    ensures Observed(s.c, Fetch(k, size, io)) ==
            if io.error == OK || exists i: nat :: i < |s.c.bufs| && Matches(s.c.bufs[i], k) && s.c.bufs[i].size == size
            then [Saw(k, Cell(s.c.disk, k))] else []
  {
    hide Getblk, Bread;
    ReadIsFromDisk(s, k, size, io);
    BreadReturns(s.c, k, size, io);
    BreadTouches(s.c, k, size, io);
    HitIsCopy(s.c, k, size, io);
  }

  lemma HitIsCopy(c: Cache, k: Key, size: nat, io: Completion)
    requires WellFormed(c) && Bread(c, k, size, io).1.Read?
    ensures var (d, r) := Bread(c, k, size, io);
            d.bufs[r.i].flags.cache <==>
            exists i: nat :: i < |c.bufs| && Matches(c.bufs[i], k) && c.bufs[i].size == size
  {
    BreadReturns(c, k, size, io);
    BreadTouches(c, k, size, io);
    hide Bread, Getblk;
    GetblkPass(c, k, size);
    forall i: nat | i < |c.bufs| && Matches(c.bufs[i], k)
      ensures Incore(c, k) == Some(i)
    {
      IncoreExact(c, k, i);
    }
    if Incore(c, k) == None { GetblkReturns(c, k, size); }
  }

  lemma ObservedIsTrue(s: Session, a: Call)
    requires Coherent(s) && Polite(s, a)
    ensures Explains(s.c.disk, Observed(s.c, a))
    ensures Final(s.c.disk, Observed(s.c, a)) == Step(s.c, a).disk
  {
    match a
    case Get(k, size) =>
      GetAcquires(s.c, k, size);
      var (d, g) := Getblk(s.c, k, size);
      if g.Got? && d.bufs[g.i].flags.cache {
        assert Trusted(s, g.i);
      }
    case Fetch(k, size, io) => ReadIsFromDisk(s, k, size, io);
    case Edit(_, _) =>
    case Scrap(_) =>
    case Swap(_, _) =>
    case Store(i, io) =>
      if !s.c.bufs[i].flags.inval { BwriteReturns(s.c, i, io); }
    case StoreAsync(i, io) =>
      if !s.c.bufs[i].flags.inval { StartWriteReturns(s.c, i, io); }
    case Wait(i) =>
      if s.c.bufs[i].flags.done { WaitRechecks(s.c, i); } else { WaitReaps(s.c, i); }
    case Release(_) =>
  }

  lemma {:induction false} ExplainsConcat(store: map<Key, Data>, a: seq<Event>, b: seq<Event>)
    ensures Explains(store, a + b) <==> Explains(store, a) && Explains(Final(store, a), b)
    ensures Final(store, a + b) == Final(Final(store, a), b)
    decreases |a|
  {
    if a == [] {
      assert a + b == b;
    } else {
      assert (a + b)[1..] == a[1..] + b;
      ExplainsConcat(Obey(store, a[0]), a[1..], b);
    }
  }

  lemma {:induction false} PoliteRunnable(s: Session, run: seq<Call>)
    requires Shaped(s.c) && PoliteRun(s, run)
    ensures Runnable(s.c, run)
    decreases |run|
  {
    if run != [] { PoliteRunnable(Next(s, run[0]), run[1..]); }
  }

  /**
   Transparency.  For every polite run of any clients, with any errors of reads and writes:
   all that is seen through the cache is what a store without a cache, given
   the same writes, would show; and the medium ends as that store does.
   */
  lemma {:induction false} Transparent(s: Session, run: seq<Call>)
    requires Coherent(s) && PoliteRun(s, run)
    ensures Runnable(s.c, run) && Coherent(End(s, run))
    ensures Explains(s.c.disk, Trace(s.c, run))
    ensures Final(s.c.disk, Trace(s.c, run)) == Exec(s.c, run).disk
    decreases |run|
  {
    PoliteRunnable(s, run);
    if run != [] {
      var t := Next(s, run[0]);
      NextCoheres(s, run[0]);
      ObservedIsTrue(s, run[0]);
      Transparent(t, run[1..]);
      ExplainsConcat(s.c.disk, Observed(s.c, run[0]), Trace(t.c, run[1..]));
    }
  }

  lemma {:induction false} CellUnchanged(store: map<Key, Data>, trace: seq<Event>, k: Key)
    requires forall n :: 0 <= n < |trace| ==> !(trace[n].Wrote? && trace[n].k == k)
    ensures Cell(Final(store, trace), k) == Cell(store, k)
    decreases |trace|
  {
    if trace != [] {
      assert !(trace[0].Wrote? && trace[0].k == k);
      CellUnchanged(Obey(store, trace[0]), trace[1..], k);
    }
  }

  lemma ExplainedWrite(store: map<Key, Data>, t: seq<Event>, p: nat, q: nat)
    requires Explains(store, t) && p < q < |t|
    requires t[p].Wrote? && t[p].io.error == OK && t[q].Saw? && t[q].k == t[p].k
    requires forall n :: p < n < q ==> !(t[n].Wrote? && t[n].k == t[p].k)
    ensures t[q].data == t[p].data
  {
    var between := t[p + 1..q];
    var at := Final(store, t[..p]);
    assert t[..p] + t[p..] == t && t[p + 1..] == between + t[q..];
    ExplainsConcat(store, t[..p], t[p..]);
    assert t[p..][1..] == t[p + 1..];
    ExplainsConcat(Obey(at, t[p]), between, t[q..]);
    assert forall n :: 0 <= n < |between| ==> between[n] == t[p + 1 + n];
    CellUnchanged(Obey(at, t[p]), between, t[p].k);
  }

  /** In a polite run, what is seen of a block is what the last write of it stored. */
  lemma SeesLastWrite(s: Session, run: seq<Call>, p: nat, q: nat)
    requires Coherent(s) && PoliteRun(s, run) && Runnable(s.c, run)
    requires p < q < |Trace(s.c, run)|
    requires var t := Trace(s.c, run);
             && t[p].Wrote? && t[p].io.error == OK && t[q].Saw? && t[q].k == t[p].k
             && forall n :: p < n < q ==> !(t[n].Wrote? && t[n].k == t[p].k)
    ensures Trace(s.c, run)[q].data == Trace(s.c, run)[p].data
  {
    Transparent(s, run);
    ExplainedWrite(s.c.disk, Trace(s.c, run), p, q);
  }
}
