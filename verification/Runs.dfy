/**
 Runs: sequences of calls made on one mount.  Every call is atomic, as under the
 mount lock.  The outcome of each I/O is part of the call.
 */
module Runs {
  import opened CacheModel
  import opened CacheInvariant

  datatype Call =
    | Get(k: Key, size: nat)                    // buf_getblk
    | Fetch(k: Key, size: nat, io: Completion)  // bread
    | Edit(i: nat, data: Data)                  // a client changes the data
    | Scrap(i: nat)                             // a client sets B_INVAL
    | Swap(i: nat, j: nat)                      // buf_swapdata
    | Store(i: nat, io: Completion)             // bwrite
    | StoreAsync(i: nat, io: Completion)        // buf_startwrite
    | Wait(i: nat)                              // buf_wait
    | Release(i: nat)                           // brelse

  /** A client has locked the buffer, and no asynchronous write of it is under way. */
  predicate Held(c: Cache, i: nat) {
    HasRequest(c, i) && c.bufs[i].flags.busy && !c.bufs[i].flags.async
  }

  /**
   What the C code itself needs in order to run, to return a value and not to block: a buffer of the mount; where it
   follows b_vp or b_bio, a key and a request; a completion to wait for.  No client discipline: anyone may call anything
   on any buffer, whoever has locked it.
   */
  predicate Callable(c: Cache, a: Call) {
    match a
    case Get(_, _) => true
    case Fetch(_, _, _) => true
    case Edit(i, _) => i < |c.bufs|
    case Scrap(i) => i < |c.bufs|
    case Swap(i, j) => HasRequest(c, i) && HasRequest(c, j)
    case Store(i, _) => HasRequest(c, i) && (c.bufs[i].flags.busy || c.bufs[i].flags.inval)
    case StoreAsync(i, _) => HasRequest(c, i)
    case Wait(i) => Completed(c, i)
    case Release(i) => i < |c.bufs| && c.bufs[i].key.Some?
  }

  function Step(c: Cache, a: Call): (r: Cache)
    requires Shaped(c) && Callable(c, a)
    ensures Shaped(r) && |r.bufs| == |c.bufs|
  {
    match a
    case Get(k, size) => Getblk(c, k, size).0
    case Fetch(k, size, io) => Bread(c, k, size, io).0
    case Edit(i, data) => SetBuf(c, i, c.bufs[i].(data := data))
    case Scrap(i) => SetFlags(c, i, c.bufs[i].flags.(inval := true))
    case Swap(i, j) => SwapData(c, i, j)
    case Store(i, io) => Bwrite(c, i, io).0
    case StoreAsync(i, io) => StartWrite(c, i, io)
    case Wait(i) => BufWait(c, i).0
    case Release(i) => Brelse(c, i)
  }

  predicate Runnable(c: Cache, run: seq<Call>)
    requires Shaped(c)
    decreases |run|
  {
    run == [] || (Callable(c, run[0]) && Runnable(Step(c, run[0]), run[1..]))
  }

  function Exec(c: Cache, run: seq<Call>): (r: Cache)
    requires Shaped(c) && Runnable(c, run)
    ensures Shaped(r) && |r.bufs| == |c.bufs|
    decreases |run|
  {
    if run == [] then c else Exec(Step(c, run[0]), run[1..])
  }

  /** The state after n calls of the run. */
  function StateAt(c: Cache, run: seq<Call>, n: nat): (r: Cache)
    requires Shaped(c) && Runnable(c, run) && n <= |run|
    ensures Shaped(r) && |r.bufs| == |c.bufs|
    ensures n < |run| ==> Callable(r, run[n])
    decreases |run|
  {
    if n == 0 then c else StateAt(Step(c, run[0]), run[1..], n - 1)
  }

  lemma {:induction false} StateAtEnd(c: Cache, run: seq<Call>)
    requires Shaped(c) && Runnable(c, run)
    ensures StateAt(c, run, |run|) == Exec(c, run)
    decreases |run|
  {
    if run != [] { StateAtEnd(Step(c, run[0]), run[1..]); }
  }

  lemma RunnableCons(c: Cache, a: Call, rest: seq<Call>)
    requires Shaped(c) && Callable(c, a) && Runnable(Step(c, a), rest)
    ensures Runnable(c, [a] + rest) && Exec(c, [a] + rest) == Exec(Step(c, a), rest)
  {
    assert ([a] + rest)[1..] == rest;
  }

  lemma StepKeeps(c: Cache, a: Call)
    requires WellFormed(c) && Callable(c, a)
    ensures WellFormed(Step(c, a))
  {
    match a
    case Get(k, size) => GetblkKeeps(c, k, size);
    case Fetch(k, size, io) => BreadKeeps(c, k, size, io);
    case Edit(i, data) => UpdateKeeps(c, i, c.bufs[i].(data := data));
    case Scrap(i) => UpdateKeeps(c, i, c.bufs[i].(flags := c.bufs[i].flags.(inval := true)));
    case Swap(i, j) => SwapDataKeeps(c, i, j);
    case Store(i, io) => BwriteKeeps(c, i, io);
    case StoreAsync(i, io) =>
      var b := c.bufs[i].(flags := c.bufs[i].flags.(async := true));
      UpdateKeeps(c, i, b);
      if c.bufs[i].flags.busy || c.bufs[i].flags.inval {
        BwriteKeeps(SetBuf(c, i, b), i, io);
      }
    case Wait(i) => BufWaitKeeps(c, i);
    case Release(i) => BrelseKeeps(c, i);
  }

  /**
   In every state that any calls lead to, whatever the I/O errors and whoever holds
   what: the list is a permutation of the buffers in the order of their last move to the head,
   and no key has two valid copies.
   */
  lemma {:induction false} RunKeeps(c: Cache, run: seq<Call>)
    requires WellFormed(c) && Runnable(c, run)
    ensures WellFormed(Exec(c, run))
    decreases |run|
  {
    if run != [] {
      StepKeeps(c, run[0]);
      RunKeeps(Step(c, run[0]), run[1..]);
    }
  }

  /** In every reachable state buf_new would take the idle buffer untouched for the longest time. */
  lemma ReachableVictim(n: nat, size: nat, disk: map<Key, Data>, run: seq<Call>, i: nat)
    requires Runnable(Fresh(n, size, disk), run) && i < n
    ensures var c := Exec(Fresh(n, size, disk), run);
            Victim(c) == Some(i) <==>
              && !c.bufs[i].flags.busy
              && forall j: nat :: j < n && j != i && !c.bufs[j].flags.busy ==> c.bufs[i].stamp < c.bufs[j].stamp
  {
    FreshWellFormed(n, size, disk);
    RunKeeps(Fresh(n, size, disk), run);
    VictimIsOldestIdle(Exec(Fresh(n, size, disk), run), i);
  }

  /** In every reachable state buf_incore finds the one valid copy of the block, if there is one. */
  lemma ReachableIncore(n: nat, size: nat, disk: map<Key, Data>, run: seq<Call>, k: Key, i: nat)
    requires Runnable(Fresh(n, size, disk), run) && i < n
    ensures var c := Exec(Fresh(n, size, disk), run);
            && (Incore(c, k) == Some(i) <==> Matches(c.bufs[i], k))
            && (Matches(c.bufs[i], k) ==> forall j: nat :: j < n && j != i ==> !Matches(c.bufs[j], k))
  {
    FreshWellFormed(n, size, disk);
    RunKeeps(Fresh(n, size, disk), run);
    var c := Exec(Fresh(n, size, disk), run);
    forall j: nat | j < n
      ensures Incore(c, k) == Some(j) <==> Matches(c.bufs[j], k)
    {
      IncoreExact(c, k, j);
    }
  }
}
