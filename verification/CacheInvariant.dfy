/**
 What every operation of the cache keeps: the list holds each buffer once, in the order
 of the times at which the buffers were put at its head, and no two valid buffers
 have the same key.
 */
module CacheInvariant {
  import opened Recency
  import opened CacheModel

  ghost predicate Permutation(s: seq<nat>, n: nat) {
    Ids(s, n) && |s| == n && NoDup(s) && forall i: nat :: i < n ==> i in s
  }

  /** Where an element is, and what moving it to the front does. */
  lemma PlaceInFront(s: seq<nat>, n: nat, i: nat) returns (p: nat)
    requires Permutation(s, n) && i < n
    ensures Ids(s, n) && |s| == n && p < n && s[p] == i
    ensures Permutation(MoveToFront(s, i), n) && MoveToFront(s, i) == [i] + (s[..p] + s[p + 1..])
  {
    assert i in s;
    p :| p < n && s[p] == i;
    RemoveAt(s, p);
    MoveToFrontKeepsNoDup(s, i);
  }

  /** The list holds every buffer once. */
  ghost predicate Listed(c: Cache) {
    Permutation(c.lru, |c.bufs|)
  }

  ghost predicate Stamped(c: Cache)
    requires Shaped(c)
  {
    && (forall i :: 0 <= i < |c.bufs| ==> c.bufs[i].stamp < c.clock)
    && (forall p, q :: 0 <= p < q < |c.lru| ==> c.bufs[c.lru[q]].stamp < c.bufs[c.lru[p]].stamp)
  }

  ghost predicate Unique(c: Cache) {
    forall i, j :: 0 <= i < j < |c.bufs| && c.bufs[i].key.Some? && !c.bufs[i].flags.inval ==>
                     !Matches(c.bufs[j], c.bufs[i].key.value)
  }

  ghost predicate Requested(c: Cache) {
    forall i :: 0 <= i < |c.bufs| && c.bufs[i].key.Some? ==> c.bufs[i].bio.Some?
  }

  ghost predicate WellFormed(c: Cache) {
    Listed(c) && Stamped(c) && Unique(c) && Requested(c)
  }

  /** The only buffer that b may collide with is the one it replaces. */
  ghost predicate Fits(c: Cache, i: nat, b: Buf)
    requires i < |c.bufs|
  {
    && b.stamp == c.bufs[i].stamp
    && (b.key.Some? ==> b.bio.Some?)
    && (b.key.Some? && !b.flags.inval ==>
          forall j :: 0 <= j < |c.bufs| && j != i ==> !Matches(c.bufs[j], b.key.value))
  }

  lemma SetBufKeeps(c: Cache, i: nat, b: Buf)
    requires WellFormed(c) && i < |c.bufs| && Fits(c, i, b)
    ensures WellFormed(SetBuf(c, i, b))
  {
    var d := SetBuf(c, i, b);
    assert forall j :: 0 <= j < |c.bufs| ==> d.bufs[j].stamp == c.bufs[j].stamp;
  }

  lemma SameKeyFits(c: Cache, i: nat, b: Buf)
    requires WellFormed(c) && i < |c.bufs|
    requires b.stamp == c.bufs[i].stamp && b.key == c.bufs[i].key
    requires c.bufs[i].flags.inval ==> b.flags.inval
    requires b.key.Some? ==> b.bio.Some?
    ensures Fits(c, i, b)
  {
  }

  /** A change that keeps the key and does not clear B_INVAL. */
  lemma UpdateKeeps(c: Cache, i: nat, b: Buf)
    requires WellFormed(c) && i < |c.bufs|
    requires b.stamp == c.bufs[i].stamp && b.key == c.bufs[i].key
    requires c.bufs[i].flags.inval ==> b.flags.inval
    requires b.key.Some? ==> b.bio.Some?
    ensures WellFormed(SetBuf(c, i, b))
  {
    SameKeyFits(c, i, b);
    SetBufKeeps(c, i, b);
  }

  lemma TouchKeeps(c: Cache, i: nat)
    requires WellFormed(c) && i < |c.bufs|
    ensures WellFormed(Touch(c, i))
  {
    InList(c, i);
    var p :| 0 <= p < |c.lru| && c.lru[p] == i;
    MoveToFrontAt(c.lru, p);
    MoveToFrontKeepsNoDup(c.lru, i);
    TouchStamps(c, p);
  }

  lemma TouchStamps(c: Cache, p: nat)
    requires WellFormed(c) && p < |c.lru|
    ensures Stamped(Touch(c, c.lru[p]))
  {
    hide Unique, Requested, MoveToFront;
    var i := c.lru[p];
    var d := Touch(c, i);
    MoveToFrontAt(c.lru, p);
    assert forall j :: 0 <= j < |c.bufs| && j != i ==> d.bufs[j] == c.bufs[j];
    forall q, r | 0 <= q < r < |d.lru|
      ensures d.bufs[d.lru[r]].stamp < d.bufs[d.lru[q]].stamp
    {
      if q == 0 {
        assert d.lru[r] != i;
      } else {
        var q', r' := if q <= p then q - 1 else q, if r <= p then r - 1 else r;
        assert c.lru[q'] != i && c.lru[r'] != i;
      }
    }
  }

  lemma BrelseKeeps(c: Cache, i: nat)
    requires WellFormed(c) && i < |c.bufs|
    ensures WellFormed(Brelse(c, i))
  {
    if c.bufs[i].flags.busy {
      UpdateKeeps(c, i, Unlocked(c.bufs[i]));
      TouchKeeps(SetBuf(c, i, Unlocked(c.bufs[i])), i);
    }
  }

  // ------------------------------------------------------ the two searches

  lemma InList(c: Cache, i: nat)
    requires Listed(c) && i < |c.bufs|
    ensures exists p :: 0 <= p < |c.lru| && c.lru[p] == i
  {
    assert i in c.lru;
  }

  /** buf_incore finds a valid copy exactly when there is one, and there is no other. */
  lemma IncoreExact(c: Cache, k: Key, i: nat)
    requires WellFormed(c) && i < |c.bufs|
    ensures Incore(c, k) == Some(i) <==> Matches(c.bufs[i], k)
  {
    InList(c, i);
  }

  /** buf_incore returns the first valid copy from the head, and none if there is none. */
  lemma {:induction false} FindFirstIsFirst(bufs: seq<Buf>, s: seq<nat>, k: Key)
    requires Ids(s, |bufs|)
    ensures match FindFirst(bufs, s, k)
            case Some(i) => exists p :: 0 <= p < |s| && s[p] == i && Matches(bufs[i], k)
                                        && forall q :: 0 <= q < p ==> !Matches(bufs[s[q]], k)
            case None => forall p :: 0 <= p < |s| ==> !Matches(bufs[s[p]], k)
  {
    if s != [] {
      if Matches(bufs[s[0]], k) {
        assert FindFirst(bufs, s, k) == Some(s[0]);
      } else {
        FindFirstIsFirst(bufs, s[1..], k);
        if FindFirst(bufs, s[1..], k).Some? {
          var p :| 0 <= p < |s[1..]| && s[1..][p] == FindFirst(bufs, s[1..], k).value
                   && forall q :: 0 <= q < p ==> !Matches(bufs[s[1..][q]], k);
          assert s[p + 1] == s[1..][p];
          assert forall q :: 0 < q < p + 1 ==> s[q] == s[1..][q - 1];
        }
      }
    }
  }

  /** One step of the search from the tail. */
  lemma LastIdleStep(bufs: seq<Buf>, s: seq<nat>, p: nat)
    requires Ids(s, |bufs|) && p < |s|
    ensures FindLastIdle(bufs, s[..p + 1]) ==
            if !bufs[s[p]].flags.busy then Some(s[p]) else FindLastIdle(bufs, s[..p])
  {
    assert s[..p + 1][..p] == s[..p];
  }

  lemma {:induction false} FindLastIdleIsLast(bufs: seq<Buf>, s: seq<nat>) returns (p: nat)
    requires Ids(s, |bufs|) && FindLastIdle(bufs, s).Some?
    ensures p < |s| && FindLastIdle(bufs, s) == Some(s[p])
    ensures forall q :: p < q < |s| ==> bufs[s[q]].flags.busy
  {
    var last := |s| - 1;
    if bufs[s[last]].flags.busy {
      p := FindLastIdleIsLast(bufs, s[..last]);
    } else {
      p := last;
    }
  }

  /** buf_new takes the buffer that has been off the head for the longest time of all that are idle. */
  lemma VictimIsOldestIdle(c: Cache, i: nat)
    requires WellFormed(c) && i < |c.bufs|
    ensures Victim(c) == Some(i) <==>
            && !c.bufs[i].flags.busy
            && forall j: nat :: j < |c.bufs| && j != i && !c.bufs[j].flags.busy ==> c.bufs[i].stamp < c.bufs[j].stamp
  {
    InList(c, i);
    if Victim(c).Some? {
      var p := FindLastIdleIsLast(c.bufs, c.lru);
      forall j: nat | j < |c.bufs| && j != c.lru[p] && !c.bufs[j].flags.busy
        ensures c.bufs[c.lru[p]].stamp < c.bufs[j].stamp
      {
        InList(c, j);
      }
    }
  }

  lemma VictimExists(c: Cache)
    requires WellFormed(c)
    ensures Victim(c).Some? <==> exists i: nat :: i < |c.bufs| && !c.bufs[i].flags.busy
  {
    forall i: nat | i < |c.bufs| && !c.bufs[i].flags.busy
      ensures Victim(c).Some?
    {
      InList(c, i);
    }
  }

  // ------------------------------------------------------------ buf_getblk

  lemma DiscardKeeps(c: Cache, i: nat)
    requires WellFormed(c) && i < |c.bufs|
    ensures WellFormed(Discard(c, i))
    ensures var b := Discard(c, i).bufs[i];
            !b.flags.busy && b.flags.inval && b == c.bufs[i].(flags := b.flags, sem := b.sem, stamp := b.stamp)
    ensures forall j :: 0 <= j < |c.bufs| && j != i ==> Discard(c, i).bufs[j] == c.bufs[j]
  {
    var b := Locked(Waited(c.bufs[i]));
    var b' := b.(flags := b.flags.(inval := true));
    UpdateKeeps(c, i, b');
    BrelseKeeps(SetBuf(c, i, b'), i);
  }

  /** One pass of the retry loop. */
  lemma GetblkPass(c: Cache, k: Key, size: nat)
    requires Shaped(c)
    ensures match Incore(c, k)
            case None => Getblk(c, k, size) == Miss(c, k)
            case Some(i) =>
              var b := c.bufs[i];
              if b.flags.busy && !b.sem then
                Getblk(c, k, size) == (SetFlags(c, i, b.flags.(wanted := true)), Sleeping(i))
              else if b.size == size then
                Getblk(c, k, size) == (SetBuf(c, i, Locked(Waited(b))), Got(i))
              else
                && Getblk(c, k, size) == Getblk(Discard(c, i), k, size)
                && Matching(Discard(c, i), k) < Matching(c, k)
  {
    match Incore(c, k)
    case None =>
    case Some(i) => assert i in Matching(c, k) && i !in Matching(Discard(c, i), k);
  }

  lemma MissKeeps(c: Cache, k: Key)
    requires WellFormed(c) && Incore(c, k) == None
    ensures WellFormed(Miss(c, k).0)
  {
    match Victim(c)
    case None =>
    case Some(i) =>
      forall j | 0 <= j < |c.bufs|
        ensures !Matches(c.bufs[j], k)
      {
        IncoreExact(c, k, j);
      }
      SetBufKeeps(c, i, Assigned(c.bufs[i], k));
      TouchKeeps(SetBuf(c, i, Assigned(c.bufs[i], k)), i);
  }

  /**
   The retry loop ends after at most two passes.  A copy of another size is the only one,
   so once it is discarded the second pass is a miss; and the discarded buffer is idle, so the second pass
   finds a victim even if every other buffer is busy.
   */
  lemma RetryIsMiss(c: Cache, k: Key, size: nat, i: nat)
    requires WellFormed(c) && Incore(c, k) == Some(i)
    requires !c.bufs[i].flags.busy || c.bufs[i].sem
    requires c.bufs[i].size != size
    ensures i < |c.bufs| && Incore(Discard(c, i), k) == None
    ensures Getblk(c, k, size) == Miss(Discard(c, i), k)
    ensures Getblk(c, k, size).1.Got?
  {
    var d := Discard(c, i);
    DiscardKeeps(c, i);
    IncoreExact(c, k, i);
    forall j | 0 <= j < |c.bufs|
      ensures !Matches(d.bufs[j], k)
    {
      IncoreExact(c, k, j);
    }
    VictimExists(d);
  }

  lemma GetblkKeeps(c: Cache, k: Key, size: nat)
    requires WellFormed(c)
    ensures WellFormed(Getblk(c, k, size).0)
  {
    match Incore(c, k)
    case None => MissKeeps(c, k);
    case Some(i) =>
      var b := c.bufs[i];
      if b.flags.busy && !b.sem {
        UpdateKeeps(c, i, b.(flags := b.flags.(wanted := true)));
      } else if b.size != size {
        RetryIsMiss(c, k, size, i);
        DiscardKeeps(c, i);
        MissKeeps(Discard(c, i), k);
      } else {
        UpdateKeeps(c, i, Locked(Waited(b)));
      }
  }

  /** When buf_getblk returns a buffer, when it sleeps, and when it spins. */
  lemma GetblkOutcome(c: Cache, k: Key, size: nat)
    requires WellFormed(c)
    ensures Getblk(c, k, size).1.Sleeping? <==>
            exists i: nat :: i < |c.bufs| && Matches(c.bufs[i], k) && c.bufs[i].flags.busy && !c.bufs[i].sem
    ensures Getblk(c, k, size).1.NoBuffers? <==>
            forall i: nat :: i < |c.bufs| ==> !Matches(c.bufs[i], k) && c.bufs[i].flags.busy
    ensures Getblk(c, k, size).1.NoBuffers? ==> Getblk(c, k, size).0 == c
  {
    forall i: nat | i < |c.bufs|
      ensures Incore(c, k) == Some(i) <==> Matches(c.bufs[i], k)
    {
      IncoreExact(c, k, i);
    }
    VictimExists(c);
    if Incore(c, k).Some? {
      var i := Incore(c, k).value;
      if (!c.bufs[i].flags.busy || c.bufs[i].sem) && c.bufs[i].size != size {
        RetryIsMiss(c, k, size, i);
      }
    }
  }

  /** The buffer returned by a hit: the valid copy that was there, now locked. */
  predicate HitOf(b: Buf, b': Buf, k: Key, size: nat) {
    b'.flags.cache && Matches(b, k) && b.size == size && b' == Locked(Waited(b))
  }

  /** The buffer returned by a miss: nothing known about it but its key. */
  predicate MissOf(b: Buf, b': Buf, k: Key, size: nat) {
    && b' == Assigned(b, k).(stamp := b'.stamp, sem := b'.sem)
    && !(Matches(b, k) && b.size == size)
  }

  lemma MissReturns(c: Cache, k: Key)
    requires WellFormed(c) && Miss(c, k).1.Got?
    ensures var (d, g) := Miss(c, k);
            && g.i < |c.bufs| && !c.bufs[g.i].flags.busy
            && d.bufs[g.i] == Assigned(c.bufs[g.i], k).(stamp := c.clock)
            && d.lru == MoveToFront(c.lru, g.i) && d.clock == c.clock + 1 && d.disk == c.disk
            && forall j :: 0 <= j < |c.bufs| && j != g.i ==> d.bufs[j] == c.bufs[j]
  {
  }

  /**
   A buffer is returned with B_CACHE exactly when it is a valid copy of the requested size that was there before.
   It has the requested size exactly when it is such a copy or the victim happens to have it.
   */
  lemma GetblkReturns(c: Cache, k: Key, size: nat)
    requires WellFormed(c) && Getblk(c, k, size).1.Got?
    ensures var (d, g) := Getblk(c, k, size);
            if d.bufs[g.i].flags.cache
            then HitOf(c.bufs[g.i], d.bufs[g.i], k, size) && d == SetBuf(c, g.i, d.bufs[g.i])
            else MissOf(c.bufs[g.i], d.bufs[g.i], k, size)
    ensures var (d, g) := Getblk(c, k, size);
            d.bufs[g.i].size == size <==> d.bufs[g.i].flags.cache || c.bufs[g.i].size == size
  {
    hide Getblk, Matching, Touch, FindFirst, FindLastIdle;
    GetblkPass(c, k, size);
    match Incore(c, k)
    case None =>
      var i := Getblk(c, k, size).1.i;
      IncoreExact(c, k, i);
      MissReturns(c, k);
    case Some(i) =>
      if c.bufs[i].size != size {
        RetryIsMiss(c, k, size, i);
        DiscardKeeps(c, i);
        MissReturns(Discard(c, i), k);
        var j := Getblk(c, k, size).1.i;
        IncoreExact(c, k, j);
      }
  }

  // ------------------------------------------------------------ completion

  lemma BufDoneKeeps(c: Cache, i: nat, error: int)
    requires WellFormed(c) && i < |c.bufs|
    ensures WellFormed(BufDone(c, i, error))
  {
    var b := c.bufs[i];
    var d := b.(error := error, flags := b.flags.(done := true));
    if b.flags.async {
      UpdateKeeps(c, i, d);
      BrelseKeeps(SetBuf(c, i, d), i);
    } else {
      UpdateKeeps(c, i, d.(sem := true, flags := d.flags.(wanted := false)));
    }
  }

  lemma StrategyKeeps(c: Cache, i: nat, io: Completion)
    requires WellFormed(c) && HasRequest(c, i)
    ensures WellFormed(Strategy(c, i, io))
  {
    var t := Transfer(c, i, io);
    if c.bufs[i].bio.value.read {
      UpdateKeeps(c, i, t.bufs[i]);
    } else {
      assert t.bufs == c.bufs && t.lru == c.lru;
    }
    if io.ViaBio? {
      UpdateKeeps(t, i, BioDone(t, i, io.error).bufs[i]);
    } else {
      BufDoneKeeps(t, i, io.error);
    }
  }

  lemma BufWaitKeeps(c: Cache, i: nat)
    requires WellFormed(c) && Completed(c, i)
    ensures WellFormed(BufWait(c, i).0)
  {
    var d := c;
    if !c.bufs[i].flags.done {
      d := Reap(c, i);
      var b := c.bufs[i];
      var b' := b.(bio := Some(b.bio.value.(sem := false)),
                   flags := b.flags.(error := b.flags.error || b.bio.value.error != OK));
      UpdateKeeps(c, i, b');
      BufDoneKeeps(SetBuf(c, i, b'), i, OK);
    }
    if Failed(d.bufs[i]) {
      FailKeeps(d, i);
    }
  }

  lemma FailKeeps(c: Cache, i: nat)
    requires WellFormed(c) && i < |c.bufs|
    ensures WellFormed(Fail(c, i))
  {
    var b := c.bufs[i];
    var d := c;
    if !b.flags.inval {
      var b' := b.(flags := b.flags.(inval := true));
      UpdateKeeps(c, i, b');
      TouchKeeps(SetBuf(c, i, b'), i);
      d := Touch(SetBuf(c, i, b'), i);
    }
    UpdateKeeps(d, i, Fail(c, i).bufs[i]);
  }

  lemma BreadKeeps(c: Cache, k: Key, size: nat, io: Completion)
    requires WellFormed(c)
    ensures WellFormed(Bread(c, k, size, io).0)
  {
    var (d, g) := Getblk(c, k, size);
    GetblkKeeps(c, k, size);
    if g.Got? && !d.bufs[g.i].flags.cache {
      var b := Reading(d.bufs[g.i]);
      UpdateKeeps(d, g.i, b);
      var e := SetBuf(d, g.i, b);
      StrategyKeeps(e, g.i, io);
      StrategyCompletes(e, g.i, io);
      BufWaitKeeps(Strategy(e, g.i, io), g.i);
    }
  }

  lemma BwriteKeeps(c: Cache, i: nat, io: Completion)
    requires WellFormed(c) && HasRequest(c, i)
    ensures WellFormed(Bwrite(c, i, io).0)
  {
    var b := c.bufs[i];
    if b.flags.inval {
      BrelseKeeps(c, i);
    } else {
      UpdateKeeps(c, i, Writing(b));
      var d := SetBuf(c, i, Writing(b));
      StrategyKeeps(d, i, io);
      if !b.flags.async {
        StrategyCompletes(d, i, io);
        var e := Strategy(d, i, io);
        BufWaitKeeps(e, i);
        BrelseKeeps(BufWait(e, i).0, i);
      }
    }
  }

  lemma SwapDataKeeps(c: Cache, i: nat, j: nat)
    requires WellFormed(c) && HasRequest(c, i) && HasRequest(c, j)
    ensures WellFormed(SwapData(c, i, j))
  {
    var a, b := c.bufs[i], c.bufs[j];
    var a' := a.(data := b.data, size := b.size, bio := b.bio);
    UpdateKeeps(c, i, a');
    UpdateKeeps(SetBuf(c, i, a'), j, b.(data := a.data, size := a.size, bio := a.bio));
  }

  /** What buf_swapdata exchanges. */
  datatype Content = Content(data: Data, size: nat, bio: Option<Bio>)

  function ContentOf(b: Buf): Content {
    Content(b.data, b.size, b.bio)
  }

  function Contents(bufs: seq<Buf>): (r: seq<Content>) {
    seq(|bufs|, n requires 0 <= n < |bufs| => ContentOf(bufs[n]))
  }

  /** A second buf_swapdata undoes the first; nothing exchanged is lost or duplicated, and nothing else changes. */
  lemma SwapDataExchanges(c: Cache, i: nat, j: nat)
    requires Shaped(c) && i < |c.bufs| && j < |c.bufs|
    ensures var d := SwapData(c, i, j);
            && SwapData(d, i, j) == c && SwapData(c, j, i) == d
            && multiset(Contents(d.bufs)) == multiset(Contents(c.bufs))
            && ContentOf(d.bufs[i]) == ContentOf(c.bufs[j]) && ContentOf(d.bufs[j]) == ContentOf(c.bufs[i])
            && forall n :: 0 <= n < |c.bufs| ==>
                 && (n != i && n != j ==> d.bufs[n] == c.bufs[n])
                 && var b, b' := c.bufs[n], d.bufs[n]; b == b'.(data := b.data, size := b.size, bio := b.bio)
  {
    var d := SwapData(c, i, j);
    assert SwapData(d, i, j).bufs == c.bufs;
    assert SwapData(c, j, i).bufs == d.bufs;
    var s := Contents(c.bufs);
    assert Contents(d.bufs) == s[i := s[j]][j := s[i]];
  }

  lemma FreshWellFormed(n: nat, size: nat, disk: map<Key, Data>)
    ensures WellFormed(Fresh(n, size, disk))
  {
    var c := Fresh(n, size, disk);
    forall i: nat | i < |c.bufs|
      ensures i in c.lru
    {
      assert c.lru[i] == i;
    }
  }
}
