/**
 The buffer cache of src/fs/bio.c on the heap: buffers, I/O requests, data areas and the
 linked list of a mount.  The ghost field model is the state on values; every method
 is proved to change it as the function of the same name in module CacheModel does.
 */
module BufferCache {
  import opened Recency
  import opened CacheInvariant
  import opened ListLib
  import M = CacheModel

  /** The data area of a buffer. */
  class Area {
    var bytes: M.Data

    constructor (bytes: M.Data)
      ensures this.bytes == bytes
    {
      this.bytes := bytes;
    }
  }

  /** struct bio. */
  class Bio {
    var data: Area
    var read: bool
    var sem: bool
    var error: int

    /** The request that bio_new makes: cleared, its semaphore empty. */
    constructor (data: Area, read: bool)
      ensures this.data == data && this.read == read && !sem && error == M.OK
    {
      this.data, this.read, sem, error := data, read, false, M.OK;
    }

    /** bio_wait: with an empty semaphore it would block. */
    method Wait() returns (status: int)
      requires sem
      modifies this`sem
      ensures !sem && status == error
    {
      sem := false;
      if error != M.OK {
        return error;
      }
      return M.OK;
    }

    /** bio_done, on a request without completion function. */
    method Done(error: int)
      modifies this`sem, this`error
      ensures sem && this.error == error
    {
      this.error := error;
      sem := true;
    }
  }

  ghost function KeyOf(vp: M.Option<nat>, lblkno: int): M.Option<M.Key> {
    if vp.None? then M.None else M.Some(M.Key(vp.value, lblkno))
  }

  ghost function RequestOf(bio: Bio?): M.Option<M.Bio>
    reads bio
  {
    if bio == null then M.None else M.Some(M.Bio(bio.read, bio.sem, bio.error))
  }

  /** struct buf.  id is its place in mnt_bufs; its list node carries it, so that each is found from the other. */
  class Buf {
    const id: nat
    const node: ListNode<nat>
    var lblkno: int
    var flags: M.Flags
    var size: nat
    var vp: M.Option<nat>
    var bio: Bio?
    var data: Area
    var sem: bool
    var error: int
    ghost var stamp: int

    /** A buffer of mountBufAlloc: everything cleared but its size and its data area. */
    constructor (id: nat, size: nat, ghost stamp: int)
      ensures this.id == id && this.size == size && flags == M.NO_FLAGS && vp == M.None && lblkno == 0
      ensures bio == null && !sem && error == M.OK && this.stamp == stamp
      ensures fresh(node) && node.elem == id && fresh(data) && data.bytes == seq(size, _ => 0)
    {
      this.id, this.size, flags, vp, lblkno := id, size, M.NO_FLAGS, M.None, 0;
      bio, sem, error, this.stamp := null, false, M.OK, stamp;
      node := new ListNode<nat>(id);
      data := new Area(seq(size, _ => 0));
    }

    /** The buffer as a value. */
    ghost function View(): M.Buf
      reads this, bio, data
    {
      M.Buf(flags, KeyOf(vp, lblkno), size, data.bytes, RequestOf(bio), sem, error, stamp)
    }

    /** The data area and the request are at home in this buffer, and the request points at the data area. */
    ghost predicate Owns(home: map<object, nat>)
      reads this, bio
    {
      && data in home && home[data] == id
      && (bio != null ==> bio in home && home[bio] == id && bio.data == data)
    }

    /** Buffer i of mnt_bufs, in order, is b. */
    ghost predicate Shows(i: nat, home: map<object, nat>, b: M.Buf)
      reads this, bio, data
    {
      id == i && node.elem == i && Owns(home) && View() == b
    }
  }

  /** The buffers and data areas of mountBufAlloc, all cleared. */
  method AllocBufs(n: nat, size: nat) returns (bufs: seq<Buf>, ghost home: map<object, nat>)
    ensures |bufs| == n
    ensures forall i :: 0 <= i < n ==> bufs[i].node.elem == i
    ensures fresh(home.Keys)
    ensures forall i :: 0 <= i < n ==> fresh(bufs[i]) && fresh(bufs[i].node)
    ensures forall i :: 0 <= i < n ==> bufs[i].Shows(i, home, M.FreshBuf(size, -i))
  {
    bufs, home := [], map[];
    while |bufs| < n
      invariant |bufs| <= n && fresh(home.Keys)
      invariant forall i :: 0 <= i < |bufs| ==> fresh(bufs[i]) && fresh(bufs[i].node)
      invariant forall i :: 0 <= i < |bufs| ==> bufs[i].Shows(i, home, M.FreshBuf(size, -i))
    {
      var bp := new Buf(|bufs|, size, -|bufs|);
      home := home[bp.data := |bufs|];
      bufs := bufs + [bp];
    }
  }

  class Mount {
    const bufs: seq<Buf>
    const buflist: List<nat>
    /** The medium behind the strategy routines. */
    var disk: map<M.Key, M.Data>
    ghost var model: M.Cache
    /** The one buffer that each data area and each request belongs to. */
    ghost var home: map<object, nat>

    /** A buffer of this mount. */
    ghost predicate Mine(bp: Buf) {
      bp.id < |bufs| && bufs[bp.id] == bp
    }

    ghost function Nodes(): set<object> {
      set i | 0 <= i < |bufs| :: bufs[i].node
    }

    lemma NodesOnly()
      ensures forall o: object :: o in Nodes() ==> o is ListNode<nat>
    {
    }

    /** The list runs through the nodes of the buffers in a given order. */
    ghost predicate Queued(lru: seq<nat>)
      reads buflist, Nodes()
    {
      && Permutation(lru, |bufs|)
      && |buflist.nodes| == |bufs|
      && (forall p :: 0 <= p < |bufs| ==> buflist.nodes[p] == bufs[lru[p]].node && buflist.nodes[p] in Nodes())
      && buflist.Valid()
    }

    ghost predicate Shown(c: M.Cache)
      reads *
    {
      && |c.bufs| == |bufs| && c.disk == disk
      && forall i :: 0 <= i < |bufs| ==> bufs[i].Shows(i, home, c.bufs[i])
    }

    ghost predicate Valid()
      reads *
    {
      Shown(model) && Queued(model.lru)
    }

    lemma Mirror(bp: Buf)
      requires Valid() && Mine(bp)
      ensures bp.id < |model.bufs| && bp.View() == model.bufs[bp.id] && bp.Owns(home)
      ensures M.Shaped(model) && |model.bufs| == |bufs| && model.disk == disk
    {
    }

    /** mountBufAlloc: n buffers of one size, added to an empty list. */
    constructor (n: nat, size: nat, disk: map<M.Key, M.Data>)
      ensures Valid() && |bufs| == n
      ensures model == M.Fresh(n, size, disk)
      ensures fresh(bufs) && fresh(buflist) && fresh(Nodes()) && fresh(home.Keys)
    {
      hide Queued, Buf.Shows, List.Valid;
      var bs;
      ghost var h;
      bs, h := AllocBufs(n, size);
      bufs, home := bs, h;
      buflist := new List<nat>();
      this.disk := disk;
      model := M.Fresh(n, size, disk);
      new;
      NodesOnly();
      LinkAll(model.lru);
    }

    /** The listAdd calls of mountBufAlloc. */
    method LinkAll(ghost lru: seq<nat>)
      requires buflist.Valid() && buflist.nodes == []
      requires forall i :: 0 <= i < |bufs| ==> bufs[i].node.elem == i
      requires |lru| == |bufs| && forall i :: 0 <= i < |lru| ==> lru[i] == i
      modifies buflist, Nodes()
      ensures Queued(lru)
    {
      hide List.Valid;
      for i := 0 to |bufs|
        invariant buflist.Valid() && |buflist.nodes| == i
        invariant forall j :: 0 <= j < i ==> buflist.nodes[j] == bufs[j].node && buflist.nodes[j] in Nodes()
      {
        var status := buflist.Add(bufs[i].node);
      }
      forall i: nat | i < |bufs|
        ensures i in lru
      {
        assert lru[i] == i;
      }
    }

    // ------------------------------------------------------ small updates

    /** Assigns b_flags. */
    method SetFlags(bp: Buf, flags: M.Flags)
      requires Valid() && Mine(bp)
      modifies bp`flags, this`model
      ensures Valid()
      ensures bp.flags == flags
      ensures model == M.SetBuf(old(model), bp.id, old(model).bufs[bp.id].(flags := flags))
    {
      hide Queued;
      NodesOnly();
      bp.flags := flags;
      model := M.SetBuf(model, bp.id, model.bufs[bp.id].(flags := flags));
      assert Shown(model);
    }

    /** Gives or takes b_sem. */
    method SetSem(bp: Buf, sem: bool)
      requires Valid() && Mine(bp)
      modifies bp`sem, this`model
      ensures Valid()
      ensures bp.sem == sem
      ensures model == M.SetBuf(old(model), bp.id, old(model).bufs[bp.id].(sem := sem))
    {
      hide Queued;
      NodesOnly();
      bp.sem := sem;
      model := M.SetBuf(model, bp.id, model.bufs[bp.id].(sem := sem));
      assert Shown(model);
    }

    /** Assigns b_error. */
    method SetError(bp: Buf, error: int)
      requires Valid() && Mine(bp)
      modifies bp`error, this`model
      ensures Valid()
      ensures bp.error == error
      ensures model == M.SetBuf(old(model), bp.id, old(model).bufs[bp.id].(error := error))
    {
      hide Queued;
      NodesOnly();
      bp.error := error;
      model := M.SetBuf(model, bp.id, model.bufs[bp.id].(error := error));
      assert Shown(model);
    }

    /** Assigns b_vp and b_lblkno. */
    method SetKey(bp: Buf, vp: M.Option<nat>, lblkno: int)
      requires Valid() && Mine(bp)
      modifies bp`vp, bp`lblkno, this`model
      ensures Valid()
      ensures bp.vp == vp && bp.lblkno == lblkno
      ensures model == M.SetBuf(old(model), bp.id, old(model).bufs[bp.id].(key := KeyOf(vp, lblkno)))
    {
      hide Queued;
      NodesOnly();
      bp.vp, bp.lblkno := vp, lblkno;
      model := M.SetBuf(model, bp.id, model.bufs[bp.id].(key := KeyOf(vp, lblkno)));
      assert Shown(model);
    }

    /** listRemove and listInsert at the head. */
    method Requeue(bp: Buf)
      requires Queued(model.lru) && Mine(bp) && bp.node.elem == bp.id
      modifies buflist, Nodes()
      ensures Queued(MoveToFront(model.lru, bp.id))
    {
      hide List.Valid, Permutation, MoveToFront;
      ghost var p := PlaceInFront(model.lru, |bufs|, bp.id);
      assert forall n :: n in buflist.nodes ==> n in Nodes();
      buflist.MoveToHead(bp.node, p);
    }

    /** The model follows: the buffer is first in the list, and newest. */
    ghost method Stamp(bp: Buf)
      requires Shown(model) && Mine(bp) && M.Shaped(model) && Queued(MoveToFront(model.lru, bp.id))
      modifies bp`stamp, this`model
      ensures Valid()
      ensures model == M.Touch(old(model), bp.id)
    {
      hide Queued, MoveToFront;
      NodesOnly();
      bp.stamp := model.clock;
      model := M.Touch(model, bp.id);
      assert Shown(model);
    }

    method PutAtHead(bp: Buf)
      requires Valid() && Mine(bp)
      modifies buflist, Nodes(), bp`stamp, this`model
      ensures Valid()
      ensures model == M.Touch(old(model), bp.id)
    {
      Mirror(bp);
      hide Queued, MoveToFront;
      Requeue(bp);
      Stamp(bp);
    }

    // -------------------------------------------------------------- brelse

    method Brelse(bp: Buf)
      requires Valid() && Mine(bp)
      modifies bp`flags, bp`sem, bp`stamp, buflist, Nodes(), this`model
      ensures Valid()
      ensures model == M.Brelse(old(model), bp.id)
    {
      hide Shown, Queued, MoveToFront;
      Mirror(bp);
      if !bp.flags.busy {
        return;
      }
      if bp.flags.wanted {
        SetFlags(bp, bp.flags.(wanted := false));
        SetSem(bp, true);
      }
      PutAtHead(bp);
      SetFlags(bp, bp.flags.(wanted := false, busy := false, async := false));
      assert model.bufs == M.Brelse(old(model), bp.id).bufs;
    }

    // ------------------------------------------------- buf_incore and buf_new

    /** The node at place p of the list, and the buffer that it is part of. */
    lemma AtPlace(p: int)
      requires Valid() && -1 <= p <= |bufs|
      ensures M.Shaped(model) && |model.lru| == |bufs|
      ensures p == 0 ==> List.At(buflist.nodes, p) == buflist.head
      ensures p == |bufs| - 1 ==> List.At(buflist.nodes, p) == buflist.tail
      ensures List.At(buflist.nodes, p) != null <==> 0 <= p < |bufs|
      ensures 0 <= p < |bufs| ==>
                var i, node := model.lru[p], List.At(buflist.nodes, p);
                && i < |bufs| && node.elem == i && Mine(bufs[i]) && bufs[i].id == i
                && node.next == List.At(buflist.nodes, p + 1) && node.prev == List.At(buflist.nodes, p - 1)
    {
    }

    /** From the head of the list to the first valid copy of the block. */
    method BufIncore(k: M.Key) returns (bp: Buf?)
      requires Valid()
      ensures M.Shaped(model)
      ensures match M.Incore(model, k)
              case Some(i) => i < |bufs| && bp == bufs[i] && Mine(bufs[i]) && bufs[i].id == i
              case None => bp == null
    {
      hide Shown, Queued;
      ghost var p := 0;
      AtPlace(p);
      var node := buflist.head;
      while node != null
        invariant 0 <= p <= |bufs| && node == List.At(buflist.nodes, p)
        invariant M.Incore(model, k) == M.FindFirst(model.bufs, model.lru[p..], k)
        decreases |bufs| - p
      {
        AtPlace(p);
        bp := bufs[node.elem];
        Mirror(bp);
        if bp.lblkno == k.blkno && bp.vp == M.Some(k.vp) && !bp.flags.inval {
          return bp;
        }
        node := node.next;
        p := p + 1;
      }
      AtPlace(p);
      return null;
    }

    /** The part of buf_new that clears the buffer found. */
    method Clear(bp: Buf)
      requires Valid() && Mine(bp)
      modifies bp`flags, bp`vp, bp`lblkno, bp`error, this`model
      ensures Valid() && bp.id < |old(model).bufs|
      ensures model == M.SetBuf(old(model), bp.id, M.Emptied(old(model).bufs[bp.id]))
    {
      hide Shown, Queued;
      Mirror(bp);
      SetFlags(bp, M.NO_FLAGS.(busy := true));
      SetKey(bp, M.None, 0);
      SetError(bp, M.OK);
    }

    /** From the tail of the list to the last idle buffer, which is locked and loses its key. */
    method BufNew() returns (bp: Buf?)
      requires Valid()
      modifies bufs`flags, bufs`vp, bufs`lblkno, bufs`error, this`model
      ensures Valid() && M.Shaped(old(model))
      ensures match M.Victim(old(model))
              case Some(i) =>
                && i < |bufs| && bp == bufs[i] && Mine(bufs[i]) && bufs[i].id == i
                && i < |old(model).bufs| && model == M.SetBuf(old(model), i, M.Emptied(old(model).bufs[i]))
              case None => bp == null && model == old(model)
    {
      hide Shown, Queued, M.FindLastIdle;
      ghost var p := |bufs| - 1;
      AtPlace(p);
      assert model.lru[..p + 1] == model.lru;
      var node := buflist.tail;
      while node != null
        invariant -1 <= p < |bufs| && node == List.At(buflist.nodes, p)
        invariant Valid() && model == old(model)
        invariant M.Victim(model) == M.FindLastIdle(model.bufs, model.lru[..p + 1])
        decreases p + 1
      {
        AtPlace(p);
        bp := bufs[node.elem];
        Mirror(bp);
        LastIdleStep(model.bufs, model.lru, p);
        if !bp.flags.busy {
          Clear(bp);
          return bp;
        }
        node := node.prev;
        p := p - 1;
      }
      AtPlace(p);
      assert M.FindLastIdle(model.bufs, []) == M.None;
      return null;
    }

    // ---------------------------------------------------------- buf_getblk

    /** bio_new: a request of its own for the buffer, not shared with any other. */
    method BioNew(bp: Buf)
      requires Valid() && Mine(bp)
      modifies bp`bio, this`home, this`model
      ensures Valid() && fresh(bp.bio)
      ensures fresh(home.Keys - old(home.Keys))
      ensures model == M.SetBuf(old(model), bp.id,
                old(model).bufs[bp.id].(bio := M.Some(M.Bio(old(model).bufs[bp.id].flags.read, false, M.OK))))
    {
      hide Queued;
      NodesOnly();
      ghost var b := model.bufs[bp.id];
      bp.bio := new Bio(bp.data, bp.flags.read);
      home := home[bp.bio := bp.id];
      model := M.SetBuf(model, bp.id, b.(bio := M.Some(M.Bio(b.flags.read, false, M.OK))));
      assert Shown(model);
    }

    /** The part of buf_getblk that takes a buffer for a block without a valid copy. */
    method TakeNew(k: M.Key) returns (got: M.Got, bp: Buf?)
      requires Valid()
      modifies bufs`flags, bufs`vp, bufs`lblkno, bufs`error, bufs`bio, bufs`stamp,
               buflist, Nodes(), this`home, this`model
      ensures Valid() && M.Shaped(old(model))
      ensures fresh(home.Keys - old(home.Keys))
      ensures (model, got) == M.Miss(old(model), k)
      ensures match got
              case Got(i) => i < |bufs| && bp == bufs[i] && Mine(bufs[i]) && bufs[i].id == i && fresh(bufs[i].bio)
              case _ => bp == null
    {
      hide Shown, Queued, MoveToFront;
      bp := BufNew();
      if bp == null {
        return M.NoBuffers, null;
      }
      ghost var b := old(model).bufs[bp.id];
      SetKey(bp, M.Some(k.vp), k.blkno);
      BioNew(bp);
      assert model.bufs == old(model).bufs[bp.id := M.Assigned(b, k)];
      PutAtHead(bp);
      return M.Got(bp.id), bp;
    }

    /** The part of buf_getblk that drops the locked copy of another size: bwrite then only releases it. */
    method Drop(bp: Buf, ghost c: M.Cache)
      requires Valid() && Mine(bp) && M.Shaped(c) && bp.id < |c.bufs|
      requires model == M.SetBuf(c, bp.id, M.Locked(M.Waited(c.bufs[bp.id])))
      modifies bp`flags, bp`sem, bp`stamp, buflist, Nodes(), this`model
      ensures Valid()
      ensures model == M.Discard(c, bp.id)
    {
      hide Shown, Queued, MoveToFront;
      Mirror(bp);
      SetFlags(bp, bp.flags.(inval := true));
      Brelse(bp);
      ghost var b := M.Locked(M.Waited(c.bufs[bp.id]));
      assert M.SetBuf(M.SetBuf(c, bp.id, b), bp.id, b.(flags := b.flags.(inval := true)))
          == M.SetBuf(c, bp.id, b.(flags := b.flags.(inval := true)));
    }

    /** The part of buf_getblk that locks a valid copy; false if it has to sleep in semTake. */
    method Lock(bp: Buf) returns (locked: bool)
      requires Valid() && Mine(bp)
      modifies bp`flags, bp`sem, this`model
      ensures Valid() && bp.id < |old(model).bufs|
      ensures var b := old(model).bufs[bp.id];
              && locked == (b.flags.busy ==> b.sem)
              && model == M.SetBuf(old(model), bp.id,
                            if locked then M.Locked(M.Waited(b)) else b.(flags := b.flags.(wanted := true)))
    {
      hide Shown, Queued;
      Mirror(bp);
      if bp.flags.busy {
        SetFlags(bp, bp.flags.(wanted := true));
        if !bp.sem {
          return false;
        }
        SetSem(bp, false);
      }
      SetFlags(bp, bp.flags.(busy := true, cache := true));
      return true;
    }

    method BufGetblk(k: M.Key, size: nat) returns (got: M.Got, bp: Buf?)
      requires Valid()
      modifies bufs`flags, bufs`sem, bufs`vp, bufs`lblkno, bufs`error, bufs`bio, bufs`stamp,
               buflist, Nodes(), this`home, this`model
      ensures Valid() && M.Shaped(old(model))
      ensures fresh(home.Keys - old(home.Keys))
      ensures (model, got) == M.Getblk(old(model), k, size)
      ensures match got
              case Got(i) =>
                && i < |bufs| && bp == bufs[i] && Mine(bufs[i]) && bufs[i].id == i
                && (!bufs[i].flags.cache ==> fresh(bufs[i].bio))
              case _ => bp == null
    {
      hide Shown, Queued, M.Getblk, M.Matching, M.Touch, M.FindFirst, M.Miss, M.Discard;
      AtPlace(-1);
      while true
        invariant Valid() && home == old(home) && M.Shaped(model)
        invariant M.Getblk(model, k, size) == M.Getblk(old(model), k, size)
        decreases M.Matching(model, k)
      {
        ghost var c := model;
        GetblkPass(c, k, size);
        bp := BufIncore(k);
        if bp == null {
          got, bp := TakeNew(k);
          return;
        }
        Mirror(bp);
        var locked := Lock(bp);
        if !locked {
          return M.Sleeping(bp.id), null;
        }
        Mirror(bp);
        if bp.size == size {
          return M.Got(bp.id), bp;
        }
        Drop(bp, c);
        AtPlace(-1);
      }
    }

    // -------------------------------------------------------- I/O completion

    /** A read request fills the data area. */
    method FillArea(bp: Buf, bytes: M.Data)
      requires Valid() && Mine(bp)
      modifies bp.data`bytes, this`model
      ensures Valid()
      ensures model == M.SetBuf(old(model), bp.id, old(model).bufs[bp.id].(data := bytes))
    {
      hide Queued;
      NodesOnly();
      bp.data.bytes := bytes;
      model := M.SetBuf(model, bp.id, model.bufs[bp.id].(data := bytes));
      assert forall i :: 0 <= i < |bufs| && i != bp.id ==> bufs[i].data != bp.data;
      assert Shown(model);
    }

    /** A write request fills a cell of the medium. */
    method FillCell(k: M.Key, bytes: M.Data)
      requires Valid()
      modifies this`disk, this`model
      ensures Valid()
      ensures model == old(model).(disk := old(model).disk[k := bytes])
    {
      hide Queued;
      NodesOnly();
      disk := disk[k := bytes];
      model := model.(disk := model.disk[k := bytes]);
      assert Shown(model);
    }

    /** Assigns bio_flags of the buffer's request. */
    method Direct(bp: Buf, read: bool)
      requires Valid() && Mine(bp) && bp.bio != null
      modifies bp.bio`read, this`model
      ensures Valid() && bp.bio.read == read
      ensures model == M.SetBuf(old(model), bp.id,
                old(model).bufs[bp.id].(bio := M.Some(M.Bio(read, bp.bio.sem, bp.bio.error))))
    {
      hide Queued;
      NodesOnly();
      bp.bio.read := read;
      model := M.SetBuf(model, bp.id, model.bufs[bp.id].(bio := M.Some(M.Bio(read, bp.bio.sem, bp.bio.error))));
      assert forall i :: 0 <= i < |bufs| && i != bp.id ==> bufs[i].bio != bp.bio;
      assert Shown(model);
    }

    /** bio_done on the buffer's request. */
    method BioDone(bp: Buf, error: int)
      requires Valid() && Mine(bp) && bp.bio != null && bp.vp.Some?
      modifies bp.bio`sem, bp.bio`error, this`model
      ensures Valid() && M.HasRequest(old(model), bp.id)
      ensures model == M.BioDone(old(model), bp.id, error)
    {
      hide Queued;
      NodesOnly();
      bp.bio.Done(error);
      model := M.BioDone(model, bp.id, error);
      assert forall i :: 0 <= i < |bufs| && i != bp.id ==> bufs[i].bio != bp.bio;
      assert Shown(model);
    }

    /** bio_wait on the buffer's request. */
    method BioWait(bp: Buf) returns (status: int)
      requires Valid() && Mine(bp) && bp.bio != null && bp.bio.sem
      modifies bp.bio`sem, this`model
      ensures Valid() && status == bp.bio.error
      ensures model == M.SetBuf(old(model), bp.id,
                old(model).bufs[bp.id].(bio := M.Some(M.Bio(bp.bio.read, false, bp.bio.error))))
    {
      hide Queued;
      NodesOnly();
      status := bp.bio.Wait();
      model := M.SetBuf(model, bp.id, model.bufs[bp.id].(bio := M.Some(M.Bio(bp.bio.read, false, bp.bio.error))));
      assert forall i :: 0 <= i < |bufs| && i != bp.id ==> bufs[i].bio != bp.bio;
      assert Shown(model);
    }

    method BufDone(bp: Buf, error: int)
      requires Valid() && Mine(bp)
      modifies bp`flags, bp`sem, bp`error, bp`stamp, buflist, Nodes(), this`model
      ensures Valid() && M.Shaped(old(model)) && bp.id < |old(model).bufs|
      ensures model == M.BufDone(old(model), bp.id, error)
    {
      hide Shown, Queued, M.Brelse;
      Mirror(bp);
      SetError(bp, error);
      SetFlags(bp, bp.flags.(done := true));
      ghost var b := old(model).bufs[bp.id];
      assert model.bufs == old(model).bufs[bp.id := b.(error := error, flags := b.flags.(done := true))];
      Mirror(bp);
      if bp.flags.async {
        Brelse(bp);
      } else {
        SetFlags(bp, bp.flags.(wanted := false));
        SetSem(bp, true);
        assert model.bufs == M.BufDone(old(model), bp.id, error).bufs;
      }
    }

    /** The transfer that VOP_STRATEGY makes between the data area and the medium. */
    method Transfer(bp: Buf, io: M.Completion)
      requires Valid() && Mine(bp) && bp.bio != null && bp.vp.Some?
      modifies bp.data`bytes, this`disk, this`model
      ensures Valid() && M.HasRequest(old(model), bp.id)
      ensures model == M.Transfer(old(model), bp.id, io)
    {
      hide Shown, Queued;
      Mirror(bp);
      var k := M.Key(bp.vp.value, bp.lblkno);
      if bp.bio.read {
        FillArea(bp, if io.error == M.OK then M.Cell(disk, k) else io.junk);
      } else {
        FillCell(k, if io.error == M.OK then bp.data.bytes else io.junk);
      }
    }

    /** VOP_STRATEGY: the transfer and its completion, both as the caller of the run chooses. */
    method Strategy(bp: Buf, io: M.Completion)
      requires Valid() && Mine(bp) && bp.bio != null && bp.vp.Some?
      modifies bp`flags, bp`sem, bp`error, bp`stamp, bp.data`bytes, bp.bio`sem, bp.bio`error,
               buflist, Nodes(), this`disk, this`model
      ensures Valid() && M.Shaped(old(model)) && M.HasRequest(old(model), bp.id)
      ensures model == M.Strategy(old(model), bp.id, io)
    {
      hide Shown, Queued, M.Transfer, M.BioDone, M.BufDone;
      Mirror(bp);
      Transfer(bp, io);
      Mirror(bp);
      if io.ViaBio? {
        BioDone(bp, io.error);
      } else {
        BufDone(bp, io.error);
      }
    }

    // -------------------------------------------------------------- buf_wait

    /** The part of buf_wait that waits for the request and keeps its result. */
    method NoteResult(bp: Buf)
      requires Valid() && Mine(bp) && bp.bio != null && bp.bio.sem
      modifies bp`flags, bp.bio`sem, this`model
      ensures Valid() && bp.id < |old(model).bufs| && old(model).bufs[bp.id].bio.Some?
      ensures var b := old(model).bufs[bp.id];
              model == M.SetBuf(old(model), bp.id,
                         b.(bio := M.Some(b.bio.value.(sem := false)),
                            flags := b.flags.(error := b.flags.error || b.bio.value.error != M.OK)))
    {
      hide Shown, Queued;
      Mirror(bp);
      var status := BioWait(bp);
      if status != M.OK {
        SetFlags(bp, bp.flags.(error := true));
      }
    }

    /** The part of buf_wait that takes the completion of the request. */
    method Reap(bp: Buf)
      requires Valid() && Mine(bp) && bp.bio != null && bp.vp.Some? && bp.bio.sem
      modifies bp`flags, bp`sem, bp`error, bp`stamp, bp.bio`sem, buflist, Nodes(), this`model
      ensures Valid() && M.Shaped(old(model)) && M.HasRequest(old(model), bp.id)
      ensures model == M.Reap(old(model), bp.id)
    {
      hide Shown, Queued, M.BufDone;
      Mirror(bp);
      NoteResult(bp);
      BufDone(bp, M.OK);
    }

    /** The part of buf_wait that marks the buffer after an error. */
    method Fail(bp: Buf)
      requires Valid() && Mine(bp)
      modifies bp`flags, bp`error, bp`stamp, buflist, Nodes(), this`model
      ensures Valid() && M.Shaped(old(model)) && bp.id < |old(model).bufs|
      ensures model == M.Fail(old(model), bp.id)
    {
      hide Shown, Queued, M.Touch;
      Mirror(bp);
      if !bp.flags.inval {
        SetFlags(bp, bp.flags.(inval := true));
        PutAtHead(bp);
      }
      Mirror(bp);
      if bp.error == M.OK {
        SetError(bp, M.EIO);
      } else {
        SetFlags(bp, bp.flags.(error := true));
      }
    }

    method BufWait(bp: Buf) returns (status: int)
      requires Valid() && Mine(bp) && bp.vp.Some?
      requires bp.flags.done || (bp.bio != null && bp.bio.sem)
      modifies bp`flags, bp`sem, bp`error, bp`stamp, bp.bio, buflist, Nodes(), this`model
      ensures Valid() && M.Shaped(old(model)) && M.Completed(old(model), bp.id)
      ensures (model, status) == M.BufWait(old(model), bp.id)
    {
      hide Shown, Queued, M.Reap, M.Fail;
      Mirror(bp);
      if !bp.flags.done {
        Reap(bp);
      }
      Mirror(bp);
      if bp.flags.error || bp.error != M.OK {
        Fail(bp);
        Mirror(bp);
        return bp.error;
      }
      return M.OK;
    }

    // ------------------------------------------ bread, bwrite, buf_startwrite

    /** The part of bread that sets up the request. */
    method StartRead(bp: Buf)
      requires Valid() && Mine(bp) && bp.bio != null
      modifies bp`flags, bp.bio`read, this`model
      ensures Valid() && bp.id < |old(model).bufs| && old(model).bufs[bp.id].bio.Some?
      ensures model == M.SetBuf(old(model), bp.id, M.Reading(old(model).bufs[bp.id]))
    {
      hide Shown, Queued;
      Mirror(bp);
      SetFlags(bp, bp.flags.(read := true));
      SetFlags(bp, bp.flags.(done := false, error := false, inval := false));
      Direct(bp, true);
    }

    /** The part of bread that reads the block into the buffer. */
    method ReadIn(bp: Buf, io: M.Completion) returns (status: int)
      requires Valid() && Mine(bp) && bp.bio != null && bp.vp.Some?
      modifies bp`flags, bp`sem, bp`error, bp`stamp, bp.data`bytes, bp.bio, buflist, Nodes(), this`disk, this`model
      ensures Valid() && M.Shaped(old(model)) && M.HasRequest(old(model), bp.id)
      ensures (model, status) == M.ReadIn(old(model), bp.id, io)
    {
      hide Shown, Queued, M.Strategy, M.BufWait;
      Mirror(bp);
      StartRead(bp);
      M.StrategyCompletes(model, bp.id, io);
      Strategy(bp, io);
      Mirror(bp);
      status := BufWait(bp);
    }

    method Bread(k: M.Key, size: nat, io: M.Completion) returns (result: M.ReadResult, bp: Buf?)
      requires Valid()
      modifies bufs`flags, bufs`sem, bufs`vp, bufs`lblkno, bufs`error, bufs`bio, bufs`stamp,
               set i | 0 <= i < |bufs| :: bufs[i].data, buflist, Nodes(), this`disk, this`home, this`model
      ensures Valid() && M.Shaped(old(model))
      ensures fresh(home.Keys - old(home.Keys))
      ensures (model, result) == M.Bread(old(model), k, size, io)
      ensures match result
              case Read(i, _) => i < |bufs| && bp == bufs[i] && Mine(bufs[i])
              case _ => bp == null
    {
      hide Shown, Queued, M.Getblk, M.ReadIn;
      var got;
      got, bp := BufGetblk(k, size);
      match got
      case Sleeping(i) => return M.ReadSleeping(i), bp;
      case NoBuffers => return M.ReadNoBuffers, bp;
      case Got(i) =>
        Mirror(bp);
        if bp.flags.cache {
          return M.Read(i, M.OK), bp;
        }
        var status := ReadIn(bp, io);
        return M.Read(i, status), bp;
    }

    /** The part of bwrite that sets up the request. */
    method PrepareWrite(bp: Buf)
      requires Valid() && Mine(bp) && bp.bio != null
      modifies bp`flags, bp.bio`read, this`model
      ensures Valid() && bp.id < |old(model).bufs| && old(model).bufs[bp.id].bio.Some?
      ensures model == M.SetBuf(old(model), bp.id, M.Writing(old(model).bufs[bp.id]))
    {
      hide Shown, Queued;
      Mirror(bp);
      SetFlags(bp, bp.flags.(read := false, done := false, error := false));
      Direct(bp, false);
    }

    method Bwrite(bp: Buf, io: M.Completion) returns (status: int)
      requires Valid() && Mine(bp) && bp.bio != null && bp.vp.Some? && (bp.flags.busy || bp.flags.inval)
      modifies bp`flags, bp`sem, bp`error, bp`stamp, bp.data`bytes, bp.bio, buflist, Nodes(), this`disk, this`model
      ensures Valid() && M.Shaped(old(model)) && M.HasRequest(old(model), bp.id)
      ensures (model, status) == M.Bwrite(old(model), bp.id, io)
    {
      hide Shown, Queued, M.Strategy, M.BufWait, M.Brelse;
      Mirror(bp);
      var oldflags := bp.flags;
      if oldflags.inval {
        Brelse(bp);
        return M.OK;
      }
      PrepareWrite(bp);
      M.StrategyCompletes(model, bp.id, io);
      Strategy(bp, io);
      if !oldflags.async {
        Mirror(bp);
        status := BufWait(bp);
        Brelse(bp);
        return status;
      }
      return M.OK;
    }

    method BufStartwrite(bp: Buf, io: M.Completion)
      requires Valid() && Mine(bp) && bp.bio != null && bp.vp.Some?
      modifies bp`flags, bp`sem, bp`error, bp`stamp, bp.data`bytes, bp.bio, buflist, Nodes(), this`disk, this`model
      ensures Valid() && M.Shaped(old(model)) && M.HasRequest(old(model), bp.id)
      ensures model == M.StartWrite(old(model), bp.id, io)
    {
      hide Shown, Queued, M.Bwrite;
      Mirror(bp);
      SetFlags(bp, bp.flags.(async := true));
      if bp.flags.busy || bp.flags.inval {
        var status := Bwrite(bp, io);
      }
    }

    // ---------------------------------------------------------- buf_swapdata

    /** The body of buf_swapdata. */
    method Exchange(b1: Buf, b2: Buf)
      requires Queued(model.lru)
      modifies b1`data, b1`size, b1`bio, b2`data, b2`size, b2`bio
      ensures b1.data == old(b2.data) && b2.data == old(b1.data)
      ensures b1.size == old(b2.size) && b2.size == old(b1.size)
      ensures b1.bio == old(b2.bio) && b2.bio == old(b1.bio)
      ensures Queued(model.lru)
    {
      hide Queued;
      NodesOnly();
      var data := b2.data;
      b2.data := b1.data;
      b1.data := data;

      var size := b2.size;
      b2.size := b1.size;
      b1.size := size;

      var bio := b2.bio;
      b2.bio := b1.bio;
      b1.bio := bio;
    }

    /** All buffers but two are shown, and these have each other's data area, size and request. */
    ghost predicate Crossed(b1: Buf, b2: Buf)
      requires Mine(b1) && Mine(b2)
      reads *
    {
      && |model.bufs| == |bufs| && model.disk == disk
      && b1.data in home && home[b1.data] == b2.id && b2.data in home && home[b2.data] == b1.id
      && (b1.bio != null ==> b1.bio in home && home[b1.bio] == b2.id && b1.bio.data == b1.data)
      && (b2.bio != null ==> b2.bio in home && home[b2.bio] == b1.id && b2.bio.data == b2.data)
      && b1.node.elem == b1.id && b2.node.elem == b2.id
      && (var a, b := model.bufs[b1.id], model.bufs[b2.id];
          && b1.View() == a.(data := b.data, size := b.size, bio := b.bio)
          && b2.View() == b.(data := a.data, size := a.size, bio := a.bio))
      && forall i :: 0 <= i < |bufs| && i != b1.id && i != b2.id ==> bufs[i].Shows(i, home, model.bufs[i])
    }

    /** Where the data areas and requests belong after the exchange. */
    ghost function NewHome(b1: Buf, b2: Buf): (h: map<object, nat>)
      reads this, b1, b2
    {
      var h := home[b1.data := b1.id][b2.data := b2.id];
      var h1 := if b1.bio != null then h[b1.bio := b1.id] else h;
      if b2.bio != null then h1[b2.bio := b2.id] else h1
    }

    lemma NewHomeFits(b1: Buf, b2: Buf)
      requires Mine(b1) && Mine(b2) && Crossed(b1, b2)
      ensures NewHome(b1, b2).Keys == home.Keys
      ensures b1.Owns(NewHome(b1, b2)) && b2.Owns(NewHome(b1, b2))
      ensures forall i :: 0 <= i < |bufs| && i != b1.id && i != b2.id ==> bufs[i].Owns(NewHome(b1, b2))
    {
    }

    /** The data areas and requests change home, and the model follows. */
    ghost method Rehome(b1: Buf, b2: Buf)
      requires Mine(b1) && Mine(b2) && Crossed(b1, b2) && Queued(model.lru) && M.Shaped(model)
      modifies this`home, this`model
      ensures Valid()
      ensures home.Keys == old(home.Keys)
      ensures model == M.SwapData(old(model), b1.id, b2.id)
    {
      hide Queued, NewHome, Buf.Owns;
      NodesOnly();
      NewHomeFits(b1, b2);
      home, model := NewHome(b1, b2), M.SwapData(model, b1.id, b2.id);
    }

    method BufSwapdata(b1: Buf, b2: Buf)
      requires Valid() && Mine(b1) && Mine(b2)
      modifies b1`data, b1`size, b1`bio, b2`data, b2`size, b2`bio, this`home, this`model
      ensures Valid() && M.Shaped(old(model)) && b1.id < |old(model).bufs| && b2.id < |old(model).bufs|
      ensures home.Keys == old(home.Keys)
      ensures b1.data == old(b2.data) && b2.data == old(b1.data)
      ensures b1.bio == old(b2.bio) && b2.bio == old(b1.bio)
      ensures model == M.SwapData(old(model), b1.id, b2.id)
    {
      Mirror(b1);
      hide Queued;
      Exchange(b1, b2);
      Rehome(b1, b2);
    }
  }
}
