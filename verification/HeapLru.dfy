/**
 Exact LRU on the heap: what the buffers of a mount hold after any sequence of uses, and how often they read the medium.
 */
module HeapLru {
  import opened BufferCache
  import opened CacheInvariant
  import opened IoOutcome
  import opened LruInclusion
  import opened HeapRuns
  import ListLib
  import M = CacheModel

  /** The end of one use: the buffer is released, or changed and written. */
  method Finish(m: Mount, a: Access, bp: Buf)
    requires m.Valid() && m.Mine(bp) && bp.bio != null && bp.vp.Some? && bp.flags.busy
    modifies m, m.bufs, m.buflist, m.Nodes(), m.home.Keys
    ensures m.Valid() && M.Shaped(old(m.model)) && M.HasRequest(old(m.model), bp.id) && m.home == old(m.home)
    ensures var c := old(m.model);
            m.model == if a.Look? then M.Brelse(c, bp.id)
                       else M.Bwrite(M.SetBuf(c, bp.id, c.bufs[bp.id].(data := a.data)), bp.id, a.out).0
  {
    hide M.Bwrite, M.Brelse, Mount.Shown, Mount.Queued, Mount.Valid;
    AtHome(m);
    Same(m, bp.id);
    if a.Look? {
      m.Brelse(bp);
    } else {
      m.FillArea(bp, a.data);
      Same(m, bp.id);
      var status := m.Bwrite(bp, a.out);
    }
  }

  /** One use of a block, made on the heap; and whether it had to read the medium. */
  method UseBlock(m: Mount, size: nat, a: Access) returns (missed: bool)
    requires m.Valid() && WellFormed(m.model)
    modifies m, m.bufs, m.buflist, m.Nodes(), m.home.Keys
    ensures m.Valid() && WellFormed(old(m.model)) && WellFormed(m.model)
    ensures m.model == Use(old(m.model), size, a) && missed == Reads(old(m.model), size, a)
    ensures fresh(m.home.Keys - old(m.home.Keys))
  {
    hide M.Bread, M.Bwrite, M.Brelse, Mount.Shown, Mount.Queued, Mount.Valid;
    AtHome(m);
    UseIsRun(m.model, size, a);
    BreadKeeps(m.model, a.k, size, a.io);
    ghost var c := m.model;
    var result, bp := m.Bread(a.k, size, a.io);
    missed := false;
    if bp != null {
      BreadReturns(c, a.k, size, a.io);
      Same(m, result.i);
      missed := !bp.flags.cache;
      Finish(m, a, bp);
    }
  }

  /** The blocks in the buffers of a mount, from the head of the list. */
  method Holding(m: Mount, size: nat, ghost ks: seq<M.Key>) returns (held: seq<M.Key>)
    requires m.Valid() && Resting(m.model, size) && HoldsKeys(m.model, ks)
    ensures held == ks
  {
    hide Mount.Shown, Mount.Queued, Mount.Valid;
    ghost var p := 0;
    held := [];
    AtHome(m);
    m.AtPlace(0);
    var node := m.buflist.head;
    while node != null
      invariant 0 <= p <= |m.bufs| && node == ListLib.List.At(m.buflist.nodes, p)
      invariant held == ks[..if p < |ks| then p else |ks|]
      decreases |m.bufs| - p
    {
      m.AtPlace(p);
      Same(m, node.elem);
      var bp := m.bufs[node.elem];
      if bp.vp.Some? {
        held := held + [M.Key(bp.vp.value, bp.lblkno)];
      }
      node := node.next;
      p := p + 1;
    }
    m.AtPlace(p);
  }

  /**
   The uses of blocks on a new mount of n buffers.  In the end the buffers hold the n blocks used last, the latest
   at the head of the list; the medium was read once for each use of a block that was not among them.
   */
  method Replay(n: nat, size: nat, disk: map<M.Key, M.Data>, uses: seq<Access>)
      returns (held: seq<M.Key>, misses: nat)
    requires n > 0 && AllSucceed(uses)
    ensures held == Take(Latest(uses), n)
    ensures misses == |PlacesNotAmong(uses, n)|
  {
    hide Mount.Valid, M.Fresh;
    ghost var c := M.Fresh(n, size, disk);
    FreshWellFormed(n, size, disk);
    var m := new Mount(n, size, disk);
    misses := 0;
    for u := 0 to |uses|
      invariant m.Valid() && fresh(m) && fresh(m.bufs) && fresh(m.buflist) && fresh(m.Nodes()) && fresh(m.home.Keys)
      invariant WellFormed(m.model) && m.model == UseAll(c, size, uses[..u])
      invariant misses == Misses(c, size, uses[..u])
    {
      var missed := UseBlock(m, size, uses[u]);
      assert uses[..u + 1][..u] == uses[..u];
      misses := misses + if missed then 1 else 0;
    }
    assert uses[..|uses|] == uses;
    ExactLru(n, size, disk, uses);
    MissesExact(n, size, disk, uses);
    held := Holding(m, size, Take(Latest(uses), n));
  }

  /** No Belady anomaly on the heap. */
  method Compare(n: nat, m: nat, size: nat, disk: map<M.Key, M.Data>, uses: seq<Access>)
      returns (held: seq<M.Key>, more: seq<M.Key>, misses: nat, fewer: nat)
    requires 0 < n <= m && AllSucceed(uses)
    ensures held <= more && fewer <= misses
    ensures held == Take(Latest(uses), n) && more == Take(Latest(uses), m)
    ensures misses == |PlacesNotAmong(uses, n)| && fewer == |PlacesNotAmong(uses, m)|
  {
    held, misses := Replay(n, size, disk, uses);
    more, fewer := Replay(m, size, disk, uses);
    NoBeladyAnomaly(n, m, size, disk, uses);
    MissesExact(n, size, disk, uses);
    MissesExact(m, size, disk, uses);
  }
}
