/**
 Runs with sleepers on the heap: tasks that sleep in buf_getblk, are woken and go on, over a mount of BufferCache.
 */
module HeapSleepers {
  import opened BufferCache
  import opened Runs
  import opened Effects
  import opened Sleepers
  import opened HeapRuns
  import M = CacheModel
  import C = Coherence
  import T = SharedCoherence

  ghost predicate Room(m: Mount, asleep: seq<nat>, woken: seq<nat>)
    reads m
  {
    M.Shaped(m.model) && |asleep| == |woken| == |m.bufs| == |m.model.bufs|
  }

  /** semGive on one semaphore. */
  ghost function HandOne(s: Crowd, i: nat): (r: Crowd)
    requires Sized(s) && i < |s.c.bufs|
    ensures Sized(r) && |r.c.bufs| == |s.c.bufs|
  {
    if Hands(s, i) then
      Crowd(M.SetBuf(s.c, i, s.c.bufs[i].(sem := false)),
            s.asleep[i := s.asleep[i] - 1], s.woken[i := s.woken[i] + 1])
    else s
  }

  ghost function HandFirst(s: Crowd, n: nat): (r: Crowd)
    requires Sized(s) && n <= |s.c.bufs|
    ensures Sized(r) && |r.c.bufs| == |s.c.bufs|
  {
    if n == 0 then s else HandOne(HandFirst(s, n - 1), n - 1)
  }

  lemma {:induction false} HandFirstAt(s: Crowd, n: nat, i: nat)
    requires Sized(s) && n <= |s.c.bufs| && i < |s.c.bufs|
    ensures var r, h := HandFirst(s, n), if i < n then HandOver(s) else s;
            r.c.bufs[i] == h.c.bufs[i] && r.asleep[i] == h.asleep[i] && r.woken[i] == h.woken[i]
  {
    if n > 0 {
      HandFirstAt(s, n - 1, i);
      HandFirstAt(s, n - 1, n - 1);
    }
  }

  lemma {:induction false} HandFirstRest(s: Crowd, n: nat)
    requires Sized(s) && n <= |s.c.bufs|
    ensures HandFirst(s, n).c == s.c.(bufs := HandFirst(s, n).c.bufs)
  {
    if n > 0 { HandFirstRest(s, n - 1); }
  }

  lemma HandAll(s: Crowd)
    requires Sized(s)
    ensures HandFirst(s, |s.c.bufs|) == HandOver(s)
  {
    hide HandFirst;
    var n := |s.c.bufs|;
    var r, h := HandFirst(s, n), HandOver(s);
    forall i: nat | i < n
      ensures r.c.bufs[i] == h.c.bufs[i] && r.asleep[i] == h.asleep[i] && r.woken[i] == h.woken[i]
    {
      HandFirstAt(s, n, i);
    }
    HandFirstRest(s, n);
    assert r.c.bufs == h.c.bufs && r.asleep == h.asleep && r.woken == h.woken;
  }

  method Hand(m: Mount, i: nat, asleep: seq<nat>, woken: seq<nat>) returns (asleep': seq<nat>, woken': seq<nat>)
    requires m.Valid() && Room(m, asleep, woken) && i < |m.bufs|
    modifies m`model, m.bufs`sem
    ensures m.Valid() && Room(m, asleep', woken') && old(Room(m, asleep, woken))
    ensures Crowd(m.model, asleep', woken') == HandOne(Crowd(old(m.model), asleep, woken), i)
  {
    hide Mount.Shown, Mount.Queued, Mount.Valid;
    asleep', woken' := asleep, woken;
    Same(m, i);
    if asleep[i] > 0 && m.bufs[i].sem {
      m.SetSem(m.bufs[i], false);
      asleep' := asleep[i := asleep[i] - 1];
      woken' := woken[i := woken[i] + 1];
    }
  }

  /** semGive of the calls just made: a full semaphore with sleepers is handed to one of them. */
  method HandOverAll(m: Mount, asleep: seq<nat>, woken: seq<nat>) returns (asleep': seq<nat>, woken': seq<nat>)
    requires m.Valid() && Room(m, asleep, woken)
    modifies m`model, m.bufs`sem
    ensures m.Valid() && Room(m, asleep', woken') && old(Room(m, asleep, woken))
    ensures Crowd(m.model, asleep', woken') == HandOver(Crowd(old(m.model), asleep, woken))
  {
    hide Mount.Shown, Mount.Queued, Mount.Valid, HandOne, HandOver;
    asleep', woken' := asleep, woken;
    ghost var s := Crowd(m.model, asleep, woken);
    for i := 0 to |m.bufs|
      invariant m.Valid() && Room(m, asleep', woken')
      invariant Crowd(m.model, asleep', woken') == HandFirst(s, i)
    {
      asleep', woken' := Hand(m, i, asleep', woken');
    }
    HandAll(s);
  }

  /** A woken task goes on. */
  method GoOn(m: Mount, i: nat, size: nat)
    requires m.Valid() && i < |m.bufs|
    modifies m`model, m.bufs`flags, m.bufs`sem, m.bufs`stamp, m.buflist, m.Nodes()
    ensures m.Valid() && M.Shaped(old(m.model)) && |old(m.model).bufs| == |m.bufs|
    ensures m.model == Resumed(old(m.model), i, size)
  {
    hide Mount.Shown, Mount.Queued, Mount.Valid, M.Brelse;
    AtHome(m);
    Same(m, i);
    var bp := m.bufs[i];
    ghost var c := m.model;
    m.SetFlags(bp, bp.flags.(busy := true, cache := true));
    Same(m, i);
    if bp.size != size {
      m.SetFlags(bp, bp.flags.(inval := true));
      ghost var b := M.Locked(c.bufs[i]);
      assert m.model == M.SetBuf(c, i, b.(flags := b.flags.(inval := true)));
      m.Brelse(bp);
    }
  }

  /** A step of a run, made on the heap, and what its client sees. */
  method Take(m: Mount, asleep: seq<nat>, woken: seq<nat>, e: Event)
      returns (asleep': seq<nat>, woken': seq<nat>, seen: seq<C.Event>)
    requires m.Valid() && Room(m, asleep, woken) && Enabled(Crowd(m.model, asleep, woken), e)
    modifies m, m.bufs, m.buflist, m.Nodes(), m.home.Keys
    ensures m.Valid() && Room(m, asleep', woken') && old(Room(m, asleep, woken))
    ensures Enabled(Crowd(old(m.model), asleep, woken), e)
    ensures Crowd(m.model, asleep', woken') == Next(Crowd(old(m.model), asleep, woken), e)
    ensures seen == T.Observed(Crowd(old(m.model), asleep, woken), e)
    ensures fresh(m.home.Keys - old(m.home.Keys))
  {
    hide Mount.Shown, Mount.Queued, Mount.Valid, Step, SleepsOn, Resumed, HandOver;
    match e
    case Do(a) =>
      var slept;
      seen, slept := Perform(m, a);
      AtHome(m);
      asleep', woken' := HandOverAll(m, asleep, woken);
      if slept.Some? && slept.value < |asleep'| {
        asleep' := asleep'[slept.value := asleep'[slept.value] + 1];
      }
    case Resume(i, k, size) =>
      Same(m, i);
      seen := if m.bufs[i].size == size then [C.Saw(k, m.bufs[i].data.bytes)] else [];
      GoOn(m, i, size);
      AtHome(m);
      asleep', woken' := HandOverAll(m, asleep, woken[i := woken[i] - 1]);
  }

  /** A run with sleepers, made on the heap, and what its clients see. */
  method ExecuteAll(m: Mount, asleep: seq<nat>, woken: seq<nat>, run: seq<Event>)
      returns (asleep': seq<nat>, woken': seq<nat>, seen: seq<C.Event>)
    requires m.Valid() && Room(m, asleep, woken) && Able(Crowd(m.model, asleep, woken), run)
    modifies m, m.bufs, m.buflist, m.Nodes(), m.home.Keys
    ensures m.Valid() && Room(m, asleep', woken') && old(Room(m, asleep, woken))
    ensures Able(Crowd(old(m.model), asleep, woken), run)
    ensures Crowd(m.model, asleep', woken') == After(Crowd(old(m.model), asleep, woken), run)
    ensures seen == T.Trace(Crowd(old(m.model), asleep, woken), run)
    ensures fresh(m.home.Keys - old(m.home.Keys))
  {
    hide Mount.Shown, Mount.Queued, Mount.Valid, Next, Enabled, T.Observed;
    asleep', woken', seen := asleep, woken, [];
    ghost var s := Crowd(m.model, asleep, woken);
    for n := 0 to |run|
      invariant m.Valid() && Room(m, asleep', woken') && Able(Crowd(m.model, asleep', woken'), run[n..])
      invariant After(Crowd(m.model, asleep', woken'), run[n..]) == After(s, run)
      invariant seen + T.Trace(Crowd(m.model, asleep', woken'), run[n..]) == T.Trace(s, run)
      invariant fresh(m.home.Keys - old(m.home.Keys))
    {
      EventStep(Crowd(m.model, asleep', woken'), run, n);
      var more;
      asleep', woken', more := Take(m, asleep', woken', run[n]);
      seen := seen + more;
    }
  }

  lemma EventStep(s: Crowd, run: seq<Event>, n: nat)
    requires Sized(s) && n < |run| && Able(s, run[n..])
    ensures Enabled(s, run[n]) && Able(Next(s, run[n]), run[n + 1..])
    ensures After(s, run[n..]) == After(Next(s, run[n]), run[n + 1..])
    ensures T.Trace(s, run[n..]) == T.Observed(s, run[n]) + T.Trace(Next(s, run[n]), run[n + 1..])
  {
    hide Next, Enabled, T.Observed;
    assert run[n..][1..] == run[n + 1..];
  }

  /**
   Transparency on the heap, with sleepers.  Tasks that read, change, write and wait, that ask for locked blocks, sleep
   and go on, see on a new mount what a store without a cache would show them, and the medium ends as that store does.
   */
  method ServeAll(n: nat, size: nat, disk: map<M.Key, M.Data>, run: seq<Event>)
      returns (seen: seq<C.Event>, final: map<M.Key, M.Data>)
    requires T.PoliteRun(T.Company(Opening(n, size, disk), {}), run)
    ensures Able(Opening(n, size, disk), run)
    ensures seen == T.Trace(Opening(n, size, disk), run) && final == After(Opening(n, size, disk), run).c.disk
    ensures C.Explains(disk, seen) && final == C.Final(disk, seen)
  {
    T.TransparentOnNewMount(n, size, disk, run);
    hide Mount.Valid, M.Fresh, Able, T.Trace, After, C.Explains, C.Final;
    var none := seq(n, i requires 0 <= i < n => 0);
    var m := new Mount(n, size, disk);
    AtHome(m);
    var asleep, woken;
    asleep, woken, seen := ExecuteAll(m, none, none, run);
    AtHome(m);
    final := m.disk;
  }
}
