/**
 What each of the nine calls does to each buffer: exactly when it locks and unlocks it, marks it B_INVAL, gives it
 a key, or takes it from its holder.  No client discipline is assumed, and all conditions are on the state before.
 */
module Effects {
  import opened CacheModel
  import opened CacheInvariant
  import opened IoOutcome
  import opened Runs

  /** The buffers that a call names. */
  function Named(a: Call): set<nat> {
    match a
    case Get(_, _) => {}
    case Fetch(_, _, _) => {}
    case Edit(i, _) => {i}
    case Scrap(i) => {i}
    case Swap(i, j) => {i, j}
    case Store(i, _) => {i}
    case StoreAsync(i, _) => {i}
    case Wait(i) => {i}
    case Release(i) => {i}
  }

  predicate Asks(a: Call) {
    a.Get? || a.Fetch?
  }

  /** The buffer that a call returned to its caller. */
  function Acquired(c: Cache, a: Call): Option<nat>
    requires Shaped(c)
  {
    if Asks(a) then (match Getblk(c, a.k, a.size).1 case Got(i) => Some(i) case _ => None) else None
  }

  /** The buffer on which a call goes to sleep. */
  function SleepsOn(c: Cache, a: Call): (r: Option<nat>)
    requires Shaped(c)
  {
    if Asks(a) then (match Getblk(c, a.k, a.size).1 case Sleeping(i) => Some(i) case _ => None) else None
  }

  /** A client holds the valid copy of the block, and its semaphore is full: buf_getblk will not wait for it. */
  predicate Seizable(c: Cache, i: nat, k: Key)
    requires i < |c.bufs|
  {
    Matches(c.bufs[i], k) && c.bufs[i].flags.busy && c.bufs[i].sem
  }

  /** The locked buffer that a call takes from its holder. */
  function Seized(c: Cache, a: Call): (r: Option<nat>)
    requires Shaped(c)
    ensures r.Some? ==> r.value < |c.bufs|
  {
    if !Asks(a) then None
    else
      match Incore(c, a.k)
      case Some(i) => if c.bufs[i].flags.busy && c.bufs[i].sem then Some(i) else None
      case None => None
  }

  lemma SeizedIs(c: Cache, a: Call, i: nat)
    requires WellFormed(c) && i < |c.bufs|
    ensures Seized(c, a) == Some(i) <==> Asks(a) && Seizable(c, i, a.k)
  {
    if Asks(a) {
      IncoreExact(c, a.k, i);
    }
  }

  /** The call unlocks the buffer if it is locked: a write that ends, the wait for a write under way, a release. */
  predicate GivesUp(c: Cache, a: Call, i: nat)
    requires i < |c.bufs|
  {
    var f := c.bufs[i].flags;
    match a
    case Store(j, io) => j == i && (f.inval || !f.async || io.ViaBuf?)
    case StoreAsync(j, io) => j == i && (f.inval || io.ViaBuf?)
    case Wait(j) => j == i && !f.done && f.async
    case Release(j) => j == i
    case _ => false
  }

  /** A valid copy of another size, that buf_getblk does not wait for. */
  predicate Unfit(b: Buf, k: Key, size: nat) {
    Matches(b, k) && b.size != size && (b.flags.busy ==> b.sem)
  }

  /** The call marks the buffer B_INVAL. */
  predicate Marks(c: Cache, a: Call, i: nat)
    requires i < |c.bufs|
  {
    var b := c.bufs[i];
    match a
    case Get(k, size) => Unfit(b, k, size)
    case Fetch(k, size, _) => Unfit(b, k, size)
    case Scrap(j) => j == i
    case Store(j, io) => j == i && !b.flags.inval && !b.flags.async && io.error != OK
    case Wait(j) =>
      j == i && if b.flags.done then Failed(b) else b.flags.error || (b.bio.Some? && b.bio.value.error != OK)
    case _ => false
  }

  /** The call is a bread that has to read the medium and fails. */
  predicate FailsToRead(c: Cache, a: Call)
    requires Shaped(c)
  {
    a.Fetch? && a.io.error != OK &&
    match Getblk(c, a.k, a.size)
    case (d, Got(i)) => !d.bufs[i].flags.cache
    case _ => false
  }

  // ------------------------------------------------------- writes and waits

  /** What matters of a buffer after a call that does not return it. */
  predicate Becomes(b: Buf, b': Buf, busy: bool, sem: bool, inval: bool) {
    b'.key == b.key && b'.flags.busy == busy && b'.sem == sem && b'.flags.inval == inval
  }

  lemma DoneEffect(c: Cache, i: nat, error: int)
    requires Shaped(c) && i < |c.bufs|
    ensures var b, d := c.bufs[i], BufDone(c, i, error);
            var b' := d.bufs[i];
            && OnlyBuf(c, d, i)
            && Becomes(b, b', b.flags.busy && !b.flags.async,
                       if b.flags.async then b.sem || (b.flags.busy && b.flags.wanted) else true, b.flags.inval)
            && b'.error == error && b'.flags.done && b'.flags.error == b.flags.error
            && (!b.flags.async ==> !b'.flags.async && !b'.flags.wanted)
  {
  }

  lemma ReapEffect(c: Cache, i: nat)
    requires Shaped(c) && HasRequest(c, i)
    ensures var b, d := c.bufs[i], Reap(c, i);
            var b' := d.bufs[i];
            && OnlyBuf(c, d, i)
            && Becomes(b, b', b.flags.busy && !b.flags.async,
                       if b.flags.async then b.sem || (b.flags.busy && b.flags.wanted) else true, b.flags.inval)
            && b'.error == OK && b'.flags.error == (b.flags.error || b.bio.value.error != OK)
            && (!b.flags.async ==> !b'.flags.wanted)
  {
    hide BufDone;
    var b := c.bufs[i];
    DoneEffect(SetBuf(c, i, b.(bio := Some(b.bio.value.(sem := false)),
                               flags := b.flags.(error := b.flags.error || b.bio.value.error != OK))), i, OK);
  }

  lemma WaitEffect(c: Cache, i: nat)
    requires Shaped(c) && Completed(c, i)
    ensures var b, d := c.bufs[i], BufWait(c, i).0;
            && OnlyBuf(c, d, i)
            && Becomes(b, d.bufs[i], b.flags.busy && (b.flags.done || !b.flags.async),
                       if b.flags.done then b.sem
                       else if b.flags.async then b.sem || (b.flags.busy && b.flags.wanted) else true,
                       b.flags.inval || Marks(c, Wait(i), i))
            && (b.flags.done ==> d.bufs[i].flags.wanted == b.flags.wanted)
            && (!b.flags.done && !b.flags.async ==> !d.bufs[i].flags.wanted)
  {
    hide Reap, Fail;
    var d := c;
    if !c.bufs[i].flags.done {
      d := Reap(c, i);
      ReapEffect(c, i);
    }
    FailEnds(d, i);
  }

  lemma StrategyEffect(c: Cache, i: nat, io: Completion)
    requires Shaped(c) && HasRequest(c, i) && !c.bufs[i].flags.done
    ensures var b, d := c.bufs[i], Strategy(c, i, io);
            var b' := d.bufs[i];
            && OnlyBuf(c, d, i)
            && Becomes(b, b', b.flags.busy && (io.ViaBio? || !b.flags.async),
                       if io.ViaBio? then b.sem
                       else if b.flags.async then b.sem || (b.flags.busy && b.flags.wanted) else true, b.flags.inval)
            && b'.flags.done == io.ViaBuf? && b'.flags.error == b.flags.error
            && (if io.ViaBuf? then b'.error == io.error else b'.bio.Some? && b'.bio.value.error == io.error)
            && (!b.flags.async ==> !b'.flags.async)
            && (io.ViaBuf? && !b.flags.async ==> !b'.flags.wanted)
  {
    hide BufDone;
    var t := Transfer(c, i, io);
    if io.ViaBuf? { DoneEffect(t, i, io.error); }
  }

  /** bwrite. */
  lemma StoreEffect(c: Cache, i: nat, io: Completion)
    requires Shaped(c) && Callable(c, Store(i, io))
    ensures var b, d := c.bufs[i], Bwrite(c, i, io).0;
            var given := b.sem || (b.flags.busy && b.flags.wanted);
            && OnlyBuf(c, d, i)
            && Becomes(b, d.bufs[i], b.flags.busy && !GivesUp(c, Store(i, io), i),
                       if b.flags.inval || (b.flags.async && io.ViaBuf?) then given else b.sem || !b.flags.async,
                       b.flags.inval || Marks(c, Store(i, io), i))
  {
    hide Strategy, BufWait;
    var b := c.bufs[i];
    if !b.flags.inval {
      var d := SetBuf(c, i, Writing(b));
      StrategyEffect(d, i, io);
      if !b.flags.async {
        StrategyCompletes(d, i, io);
        WaitEffect(Strategy(d, i, io), i);
      }
    }
  }

  /** buf_startwrite. */
  lemma StoreAsyncEffect(c: Cache, i: nat, io: Completion)
    requires Shaped(c) && HasRequest(c, i)
    ensures var b, d := c.bufs[i], StartWrite(c, i, io);
            && OnlyBuf(c, d, i)
            && Becomes(b, d.bufs[i], b.flags.busy && !GivesUp(c, StoreAsync(i, io), i),
                       b.sem || (b.flags.busy && b.flags.wanted && GivesUp(c, StoreAsync(i, io), i)), b.flags.inval)
  {
    hide Bwrite;
    var b := c.bufs[i];
    if b.flags.busy || b.flags.inval { StoreEffect(SetFlags(c, i, b.flags.(async := true)), i, io); }
  }

  // ----------------------------------------------------------------- gets

  /** What buf_getblk does to a buffer, returned or not. */
  lemma GetEffect(c: Cache, k: Key, size: nat, i: nat)
    requires WellFormed(c) && i < |c.bufs|
    ensures var (d, g) := Getblk(c, k, size);
            var b, b' := c.bufs[i], d.bufs[i];
            if g == Got(i) then
              b'.key == Some(k) && b'.flags.busy && !b'.flags.inval && (b.flags.busy ==> Seizable(c, i, k))
            else
              && b'.key == b.key
              && (b'.flags.busy <==> b.flags.busy && !Seizable(c, i, k))
              && (b'.flags.inval <==> b.flags.inval || Unfit(b, k, size))
  {
    hide Getblk, Matching, Touch, FindFirst, FindLastIdle;
    GetblkPass(c, k, size);
    IncoreExact(c, k, i);
    match Incore(c, k)
    case None =>
      if Miss(c, k).1.Got? { MissReturns(c, k); }
    case Some(j) =>
      IncoreExact(c, k, j);
      if (!c.bufs[j].flags.busy || c.bufs[j].sem) && c.bufs[j].size != size {
        RetryIsMiss(c, k, size, j);
        DiscardKeeps(c, j);
        MissReturns(Discard(c, j), k);
      }
  }

  // ------------------------------------------------------------ every call

  ghost predicate Effect(c: Cache, a: Call, i: nat)
    requires Shaped(c) && Callable(c, a) && i < |c.bufs|
  {
    var b, b' := c.bufs[i], Step(c, a).bufs[i];
    if Acquired(c, a) == Some(i) then
      && b'.key == Some(a.k) && b'.flags.busy
      && (b'.flags.inval <==> FailsToRead(c, a))
      && (b.flags.busy ==> Seized(c, a) == Some(i))
    else
      && b'.key == b.key
      && (b'.flags.busy <==> b.flags.busy && !GivesUp(c, a, i) && Seized(c, a) != Some(i))
      && (b'.flags.inval <==> b.flags.inval || Marks(c, a, i))
  }

  lemma FetchEffect(c: Cache, k: Key, size: nat, io: Completion, i: nat)
    requires WellFormed(c) && i < |c.bufs|
    ensures Effect(c, Fetch(k, size, io), i)
  {
    hide Getblk, ReadIn;
    GetEffect(c, k, size, i);
    SeizedIs(c, Fetch(k, size, io), i);
    BreadTouches(c, k, size, io);
    if Getblk(c, k, size).1 == Got(i) {
      BreadReturns(c, k, size, io);
      GetblkReturns(c, k, size);
    }
  }

  /** Every call has exactly these effects on locks, marks and keys. */
  lemma StepEffect(c: Cache, a: Call, i: nat)
    requires WellFormed(c) && Callable(c, a) && i < |c.bufs|
    ensures Effect(c, a, i)
  {
    hide Getblk, Bread, Bwrite, BufWait, StartWrite, Incore;
    match a
    case Get(k, size) =>
      GetEffect(c, k, size, i);
      SeizedIs(c, a, i);
    case Fetch(k, size, io) => FetchEffect(c, k, size, io, i);
    case Edit(_, _) =>
    case Scrap(_) =>
    case Swap(_, _) =>
    case Store(j, io) => StoreEffect(c, j, io);
    case StoreAsync(j, io) => StoreAsyncEffect(c, j, io);
    case Wait(j) => WaitEffect(c, j);
    case Release(_) =>
  }

  /** A call that asks for no block changes only buffers that it names. */
  lemma NamedOnly(c: Cache, a: Call, j: nat)
    requires Shaped(c) && Callable(c, a) && j < |c.bufs| && j !in Named(a) && !Asks(a)
    ensures Step(c, a).bufs[j] == c.bufs[j]
  {
    hide Bwrite, BufWait, StartWrite;
    match a
    case Edit(_, _) =>
    case Scrap(_) =>
    case Swap(_, _) =>
    case Store(i, io) => StoreEffect(c, i, io);
    case StoreAsync(i, io) => StoreAsyncEffect(c, i, io);
    case Wait(i) => WaitEffect(c, i);
    case Release(_) =>
  }
}
