/**
 Runs on the heap: any sequence of calls on a mount of BufferCache goes through
 the states of the run on values, and its clients see the same, so the theorems about runs hold of the heap.
 */
module HeapRuns {
  import opened BufferCache
  import opened Coherence
  import opened Runs
  import opened Effects
  import M = CacheModel

  /** Every data area and request in use is one that the mount knows. */
  lemma AtHome(m: Mount)
    requires m.Valid()
    ensures M.Shaped(m.model) && |m.model.bufs| == |m.bufs| && m.model.disk == m.disk
    ensures forall i :: 0 <= i < |m.bufs| ==>
              m.bufs[i].data in m.home && (m.bufs[i].bio != null ==> m.bufs[i].bio in m.home)
  {
  }

  /** Buffer i of the heap is buffer i of the model. */
  lemma Same(m: Mount, i: nat)
    requires m.Valid() && i < |m.bufs|
    ensures |m.model.bufs| == |m.bufs| && m.Mine(m.bufs[i]) && m.bufs[i].id == i
    ensures m.bufs[i].View() == m.model.bufs[i]
  {
  }

  /** Data areas and requests have one buffer each. */
  lemma NothingShared(m: Mount, i: nat, j: nat)
    requires m.Valid() && i < j < |m.bufs|
    ensures m.bufs[i] != m.bufs[j] && m.bufs[i].data != m.bufs[j].data
    ensures m.bufs[i].bio != null ==> m.bufs[i].bio != m.bufs[j].bio
  {
  }

  /** Every request points at the data area of its buffer. */
  lemma RequestFitsArea(m: Mount, i: nat)
    requires m.Valid() && i < |m.bufs|
    ensures m.bufs[i].bio != null ==> m.bufs[i].bio.data == m.bufs[i].data
  {
  }

  /** What a client that writes the buffer back lets the store without a cache see. */
  method Writes(m: Mount, i: nat, io: M.Completion) returns (seen: seq<Event>)
    requires m.Valid() && i < |m.bufs| && i < |m.model.bufs| && m.model.bufs[i].key.Some?
    ensures var b := m.model.bufs[i];
            seen == if b.flags.inval then [] else [Wrote(b.key.value, b.data, io)]
  {
    Same(m, i);
    var bp := m.bufs[i];
    if bp.flags.inval {
      return [];
    }
    return [Wrote(M.Key(bp.vp.value, bp.lblkno), bp.data.bytes, io)];
  }

  /** A request for a block, made on the heap: what its client sees, and on which buffer it goes to sleep. */
  method Ask(m: Mount, a: Call) returns (seen: seq<Event>, slept: M.Option<nat>)
    requires m.Valid() && Asks(a)
    modifies m, m.bufs, m.buflist, m.Nodes(), m.home.Keys
    ensures m.Valid() && M.Shaped(old(m.model))
    ensures m.model == Step(old(m.model), a)
    ensures seen == Observed(old(m.model), a) && slept == SleepsOn(old(m.model), a)
    ensures fresh(m.home.Keys - old(m.home.Keys))
  {
    hide M.Getblk, M.ReadIn, Mount.Shown, Mount.Queued, Mount.Valid;
    AtHome(m);
    seen, slept := [], M.None;
    if a.Get? {
      var got, bp := m.BufGetblk(a.k, a.size);
      if bp != null {
        Same(m, got.i);
        seen := if bp.flags.cache then [Saw(a.k, bp.data.bytes)] else [];
      }
      slept := if got.Sleeping? then M.Some(got.i) else M.None;
    } else {
      var result, bp := m.Bread(a.k, a.size, a.io);
      if bp != null {
        Same(m, result.i);
        seen := if result.status == M.OK then [Saw(a.k, bp.data.bytes)] else [];
      }
      slept := if result.ReadSleeping? then M.Some(result.i) else M.None;
    }
  }

  /** A call of a run, made on the heap: what its client sees, and on which buffer it goes to sleep. */
  method Perform(m: Mount, a: Call) returns (seen: seq<Event>, slept: M.Option<nat>)
    requires m.Valid() && M.Shaped(m.model) && Callable(m.model, a)
    modifies m, m.bufs, m.buflist, m.Nodes(), m.home.Keys
    ensures m.Valid() && M.Shaped(old(m.model)) && Callable(old(m.model), a)
    ensures m.model == Step(old(m.model), a)
    ensures seen == Observed(old(m.model), a) && slept == SleepsOn(old(m.model), a)
    ensures fresh(m.home.Keys - old(m.home.Keys))
  {
    hide M.Getblk, M.Bread, M.SwapData, M.Bwrite, M.StartWrite, M.BufWait, M.Brelse;
    hide Mount.Shown, Mount.Queued, Mount.Valid;
    AtHome(m);
    if Asks(a) {
      seen, slept := Ask(m, a);
      return;
    }
    seen, slept := [], M.None;
    match a
    case Edit(i, data) =>
      Same(m, i);
      m.FillArea(m.bufs[i], data);
    case Scrap(i) =>
      Same(m, i);
      m.SetFlags(m.bufs[i], m.bufs[i].flags.(inval := true));
    case Swap(i, j) =>
      Same(m, i);
      Same(m, j);
      m.BufSwapdata(m.bufs[i], m.bufs[j]);
    case Store(i, io) =>
      Same(m, i);
      seen := Writes(m, i, io);
      var status := m.Bwrite(m.bufs[i], io);
    case StoreAsync(i, io) =>
      Same(m, i);
      seen := Writes(m, i, io);
      m.BufStartwrite(m.bufs[i], io);
    case Wait(i) =>
      Same(m, i);
      var status := m.BufWait(m.bufs[i]);
    case Release(i) =>
      Same(m, i);
      m.Brelse(m.bufs[i]);
  }

  lemma TraceStep(c: M.Cache, run: seq<Call>, n: nat)
    requires M.Shaped(c) && n < |run| && Runnable(c, run[n..])
    ensures Callable(c, run[n]) && Runnable(Step(c, run[n]), run[n + 1..])
    ensures Exec(c, run[n..]) == Exec(Step(c, run[n]), run[n + 1..])
    ensures Trace(c, run[n..]) == Observed(c, run[n]) + Trace(Step(c, run[n]), run[n + 1..])
  {
    assert run[n..][1..] == run[n + 1..];
  }

  /** A run, made on the heap, and what its clients see. */
  method Execute(m: Mount, run: seq<Call>) returns (seen: seq<Event>)
    requires m.Valid() && M.Shaped(m.model) && Runnable(m.model, run)
    modifies m, m.bufs, m.buflist, m.Nodes(), m.home.Keys
    ensures m.Valid() && M.Shaped(old(m.model)) && Runnable(old(m.model), run)
    ensures m.model == Exec(old(m.model), run) && seen == Trace(old(m.model), run)
    ensures fresh(m.home.Keys - old(m.home.Keys))
  {
    hide Step, Callable, Observed, Mount.Shown, Mount.Queued, Mount.Valid;
    seen := [];
    for n := 0 to |run|
      invariant m.Valid() && M.Shaped(m.model) && Runnable(m.model, run[n..])
      invariant Exec(m.model, run[n..]) == Exec(old(m.model), run)
      invariant seen + Trace(m.model, run[n..]) == Trace(old(m.model), run)
      invariant fresh(m.home.Keys - old(m.home.Keys))
    {
      TraceStep(m.model, run, n);
      var more, slept := Perform(m, run[n]);
      seen := seen + more;
    }
  }

  lemma FreshServes(n: nat, size: nat, disk: map<M.Key, M.Data>, run: seq<Call>)
    requires PoliteRun(Session(M.Fresh(n, size, disk), {}), run)
    ensures Runnable(M.Fresh(n, size, disk), run)
    ensures Explains(disk, Trace(M.Fresh(n, size, disk), run))
    ensures Final(disk, Trace(M.Fresh(n, size, disk), run)) == Exec(M.Fresh(n, size, disk), run).disk
  {
    FreshCoherent(n, size, disk);
    Transparent(Session(M.Fresh(n, size, disk), {}), run);
  }

  /**
   Transparency on the heap.  A new mount makes the run; its clients see the trace of the run, which in any polite run
   and with any errors is what a store without a cache would show them; the medium ends as that store does.
   */
  method Serve(n: nat, size: nat, disk: map<M.Key, M.Data>, run: seq<Call>)
      returns (seen: seq<Event>, final: map<M.Key, M.Data>)
    requires PoliteRun(Session(M.Fresh(n, size, disk), {}), run)
    ensures Runnable(M.Fresh(n, size, disk), run)
    ensures seen == Trace(M.Fresh(n, size, disk), run) && final == Exec(M.Fresh(n, size, disk), run).disk
    ensures Explains(disk, seen) && final == Final(disk, seen)
  {
    hide Mount.Valid, M.Fresh, Runnable, Trace, Exec, Explains, Final;
    FreshServes(n, size, disk, run);
    var m := new Mount(n, size, disk);
    seen := Execute(m, run);
    AtHome(m);
    final := m.disk;
  }
}
