/**
 The cache is exactly least-recently-used.  One client reads and writes blocks of the
 buffers' size, with I/O that succeeds: then n buffers hold the n blocks used last, and more
 buffers never read the medium more often.
 */
module LruInclusion {
  import opened Recency
  import opened CacheModel
  import opened CacheInvariant
  import opened IoOutcome
  import opened Runs
  import opened Effects
  import opened Holds

  /** One use of a block: read it and release it, or read it, change it and write it. */
  datatype Access = Look(k: Key, io: Completion) | Change(k: Key, data: Data, io: Completion, out: Completion)

  predicate Succeeds(a: Access) {
    a.io.error == OK && (a.Change? ==> a.out.error == OK)
  }

  /** The calls of the client for one use. */
  ghost function Use(c: Cache, size: nat, a: Access): (r: Cache)
    requires WellFormed(c)
    ensures Shaped(r) && |r.bufs| == |c.bufs|
  {
    BreadKeeps(c, a.k, size, a.io);
    match Bread(c, a.k, size, a.io)
    case (d, Read(i, _)) =>
      BreadReturns(c, a.k, size, a.io);
      if a.Look? then Brelse(d, i)
      else Bwrite(SetBuf(d, i, d.bufs[i].(data := a.data)), i, a.out).0
    case (d, _) => d
  }

  /** The use had to read the medium. */
  predicate Reads(c: Cache, size: nat, a: Access)
    requires Shaped(c)
  {
    match Bread(c, a.k, size, a.io)
    case (d, Read(i, _)) => !d.bufs[i].flags.cache
    case _ => false
  }

  /** Between two uses: nothing is locked, no copy is invalid, every buffer has the same size. */
  ghost predicate Resting(c: Cache, size: nat) {
    && WellFormed(c) && AllSettled(c)
    && forall i :: 0 <= i < |c.bufs| ==>
         var b := c.bufs[i];
         !b.flags.busy && b.size == size && (b.key.Some? ==> !b.flags.inval)
  }

  /** The list, from its head, holds the blocks ks; the other buffers have no key yet. */
  ghost predicate HoldsKeys(c: Cache, ks: seq<Key>)
    requires Shaped(c)
  {
    && |ks| <= |c.lru|
    && (forall p :: 0 <= p < |ks| ==> c.bufs[c.lru[p]].key == Some(ks[p]))
    && (forall p :: |ks| <= p < |c.lru| ==> c.bufs[c.lru[p]].key == None)
  }

  function Take<T>(s: seq<T>, n: nat): (r: seq<T>) {
    if |s| <= n then s else s[..n]
  }

  // ------------------------------------------------------------- one use

  lemma HeldKeysDiffer(c: Cache, size: nat, ks: seq<Key>)
    requires Resting(c, size) && HoldsKeys(c, ks)
    ensures NoDup(ks)
  {
    forall p, q | 0 <= p < q < |ks|
      ensures ks[p] != ks[q]
    {
      assert c.lru[p] != c.lru[q];
    }
  }

  lemma IncoreAtKey(c: Cache, size: nat, ks: seq<Key>, k: Key)
    requires Resting(c, size) && HoldsKeys(c, ks)
    ensures k in ks ==> exists p :: 0 <= p < |ks| && ks[p] == k && Incore(c, k) == Some(c.lru[p])
    ensures k !in ks ==> Incore(c, k) == None
  {
    if k in ks {
      var p :| 0 <= p < |ks| && ks[p] == k;
      IncoreExact(c, k, c.lru[p]);
    } else {
      forall i: nat | i < |c.bufs|
        ensures !Matches(c.bufs[i], k)
      {
        InList(c, i);
      }
    }
  }

  lemma VictimIsTail(c: Cache)
    requires Listed(c) && |c.bufs| > 0
    requires forall i :: 0 <= i < |c.bufs| ==> !c.bufs[i].flags.busy
    ensures Victim(c) == Some(c.lru[|c.lru| - 1])
  {
  }

  /** Bread locks the block's buffer: the one that has it, or the tail of the list. */
  ghost predicate Opened(c: Cache, d: Cache, i: nat, k: Key, size: nat) {
    && Shaped(d) && OnlyBuf(c, d, i) && HasRequest(d, i)
    && d.bufs[i].key == Some(k) && d.bufs[i].size == size
    && d.bufs[i].flags.busy && !d.bufs[i].flags.inval && Quiet(d, i)
  }

  lemma OpensHit(c: Cache, size: nat, ks: seq<Key>, k: Key, io: Completion) returns (p: nat)
    requires Resting(c, size) && HoldsKeys(c, ks) && k in ks
    ensures p < |ks| && ks[p] == k
    ensures var (d, r) := Bread(c, k, size, io);
            && r == Read(c.lru[p], OK) && d.bufs[c.lru[p]].flags.cache
            && Opened(c, d, c.lru[p], k, size) && d.lru == c.lru
  {
    IncoreAtKey(c, size, ks, k);
    p :| 0 <= p < |ks| && ks[p] == k && Incore(c, k) == Some(c.lru[p]);
  }

  lemma OpensMiss(c: Cache, size: nat, ks: seq<Key>, k: Key, io: Completion)
    requires Resting(c, size) && HoldsKeys(c, ks) && k !in ks && |c.bufs| > 0 && io.error == OK
    ensures var (d, r) := Bread(c, k, size, io);
            var i := c.lru[|c.lru| - 1];
            && r == Read(i, OK) && !d.bufs[i].flags.cache
            && Opened(c, d, i, k, size) && d.lru == MoveToFront(c.lru, i)
  {
    IncoreAtKey(c, size, ks, k);
    VictimIsTail(c);
    MissReturns(c, k);
    var (d, g) := Getblk(c, k, size);
    ReadInReturns(d, g.i, io);
  }

  /** Releasing or writing the locked buffer puts it at the head, idle and valid. */
  lemma Closes(d: Cache, i: nat, a: Access)
    requires Shaped(d) && HasRequest(d, i) && Quiet(d, i) && Succeeds(a)
    requires d.bufs[i].flags.busy && !d.bufs[i].flags.inval
    ensures var e := if a.Look? then Brelse(d, i)
                     else Bwrite(SetBuf(d, i, d.bufs[i].(data := a.data)), i, a.out).0;
            && OnlyBuf(d, e, i) && e.lru == MoveToFront(d.lru, i)
            && e.bufs[i].key == d.bufs[i].key && e.bufs[i].size == d.bufs[i].size
            && !e.bufs[i].flags.busy && !e.bufs[i].flags.inval
  {
    if a.Change? {
      BwriteReturns(SetBuf(d, i, d.bufs[i].(data := a.data)), i, a.out);
    }
  }

  lemma UseKeeps(c: Cache, size: nat, a: Access)
    requires WellFormed(c) && AllSettled(c) && Unclaimed(c, a.k)
    requires Bread(c, a.k, size, a.io).1.Read?
    ensures WellFormed(Use(c, size, a)) && AllSettled(Use(c, size, a))
  {
    hide Bread, Bwrite, Getblk;
    var (d, r) := Bread(c, a.k, size, a.io);
    BreadKeeps(c, a.k, size, a.io);
    FetchSettles(c, a.k, size, a.io);
    BreadReturns(c, a.k, size, a.io);
    var i := r.i;
    GetAcquires(c, a.k, size);
    BreadTouches(c, a.k, size, a.io);
    if a.Look? {
      BrelseKeeps(d, i);
      OneSettles(d, Brelse(d, i), i);
    } else {
      var b := d.bufs[i].(data := a.data);
      UpdateKeeps(d, i, b);
      OneSettles(d, SetBuf(d, i, b), i);
      BwriteKeeps(SetBuf(d, i, b), i, a.out);
      StoreSettles(SetBuf(d, i, b), i, a.out);
    }
  }

  /** The keys after the buffer of k has come to the head: from place p, or, for a new block, from the tail. */
  lemma KeysMove(c: Cache, e: Cache, ks: seq<Key>, k: Key, p: nat)
    requires Listed(c) && Shaped(e) && HoldsKeys(c, ks) && NoDup(ks) && p < |c.lru|
    requires OnlyBuf(c, e, c.lru[p]) && e.lru == MoveToFront(c.lru, c.lru[p]) && e.bufs[c.lru[p]].key == Some(k)
    requires if k in ks then p < |ks| && ks[p] == k else p == |c.lru| - 1
    ensures HoldsKeys(e, Take(MoveToFront(ks, k), |c.lru|))
  {
    hide MoveToFront;
    MoveToFrontAt(c.lru, p);
    if k in ks {
      MoveToFrontAt(ks, p);
    } else {
      MoveNewToFront(ks, k);
    }
    var kept := Take(MoveToFront(ks, k), |c.lru|);
    forall q | 0 <= q < |e.lru|
      ensures e.bufs[e.lru[q]].key == (if q < |kept| then Some(kept[q]) else None)
    {
      if q > 0 {
        var q' := if q <= p then q - 1 else q;
        assert e.lru[q] == c.lru[q'] && c.lru[q'] != c.lru[p];
      }
    }
  }

  lemma FrontStays<T(!new)>(s: seq<T>, x: T)
    ensures MoveToFront(MoveToFront(s, x), x) == MoveToFront(s, x)
  {
  }

  /**
   One use: the n blocks kept are the used block and then the others, in their order; the
   medium is read exactly when the block was not among them.
   */
  lemma UseIsLru(c: Cache, size: nat, a: Access, ks: seq<Key>)
    requires Resting(c, size) && HoldsKeys(c, ks) && |c.bufs| > 0 && Succeeds(a)
    ensures Resting(Use(c, size, a), size)
    ensures HoldsKeys(Use(c, size, a), Take(MoveToFront(ks, a.k), |c.bufs|))
    ensures Reads(c, size, a) <==> a.k !in ks
  {
    hide Bread, Bwrite, Brelse, MoveToFront;
    var p := |c.lru| - 1;
    if a.k in ks {
      p := OpensHit(c, size, ks, a.k, a.io);
    } else {
      OpensMiss(c, size, ks, a.k, a.io);
      FrontStays(c.lru, c.lru[p]);
    }
    var d := Bread(c, a.k, size, a.io).0;
    Closes(d, c.lru[p], a);
    UseKeeps(c, size, a);
    HeldKeysDiffer(c, size, ks);
    KeysMove(c, Use(c, size, a), ks, a.k, p);
  }

  // ------------------------------------------------------------ many uses

  predicate AllSucceed(uses: seq<Access>) {
    forall n :: 0 <= n < |uses| ==> Succeeds(uses[n])
  }

  /** The distinct blocks used, the latest first: no cache, no buffers. */
  function Latest(uses: seq<Access>): seq<Key> {
    if uses == [] then [] else MoveToFront(Latest(uses[..|uses| - 1]), uses[|uses| - 1].k)
  }

  ghost function UseAll(c: Cache, size: nat, uses: seq<Access>): (r: Cache)
    requires WellFormed(c)
    ensures Shaped(r) && |r.bufs| == |c.bufs|
  {
    if uses == [] then c
    else
      var d := UseAll(c, size, uses[..|uses| - 1]);
      if WellFormed(d) then Use(d, size, uses[|uses| - 1]) else d
  }

  /** How many of the uses read the medium. */
  ghost function Misses(c: Cache, size: nat, uses: seq<Access>): nat
    requires WellFormed(c)
  {
    if uses == [] then 0
    else
      var d := UseAll(c, size, uses[..|uses| - 1]);
      Misses(c, size, uses[..|uses| - 1])
      + if WellFormed(d) && Reads(d, size, uses[|uses| - 1]) then 1 else 0
  }

  lemma TakeOfMoveOld(s: seq<Key>, p: nat, n: nat)
    requires NoDup(s) && p < |s| && 0 < n < |s|
    ensures Take(MoveToFront(Take(s, n), s[p]), n) == Take(MoveToFront(s, s[p]), n)
  {
    hide MoveToFront;
    MoveToFrontAt(s, p);
    var t := s[..n];
    if p < n {
      MoveToFrontAt(t, p);
    } else {
      MoveNewToFront(t, s[p]);
    }
  }

  lemma MoveNewToFront(s: seq<Key>, k: Key)
    requires k !in s
    ensures MoveToFront(s, k) == [k] + s
  {
    RemoveAbsent(s, k);
  }

  lemma TakeOfMove(s: seq<Key>, k: Key, n: nat)
    requires NoDup(s) && n > 0
    ensures Take(MoveToFront(Take(s, n), k), n) == Take(MoveToFront(s, k), n)
  {
    hide MoveToFront;
    if |s| > n {
      if k in s {
        var p :| 0 <= p < |s| && s[p] == k;
        TakeOfMoveOld(s, p, n);
      } else {
        MoveNewToFront(s, k);
        MoveNewToFront(s[..n], k);
      }
    }
  }

  lemma {:induction false} LatestNoDup(uses: seq<Access>)
    ensures NoDup(Latest(uses))
  {
    if uses != [] {
      LatestNoDup(uses[..|uses| - 1]);
      MoveToFrontKeepsNoDup(Latest(uses[..|uses| - 1]), uses[|uses| - 1].k);
    }
  }

  /** Exact LRU: n fresh buffers hold the n blocks used last, the latest at the head. */
  lemma {:induction false} ExactLru(n: nat, size: nat, disk: map<Key, Data>, uses: seq<Access>)
    requires n > 0 && AllSucceed(uses)
    ensures WellFormed(Fresh(n, size, disk))
    ensures var c := UseAll(Fresh(n, size, disk), size, uses);
            Resting(c, size) && HoldsKeys(c, Take(Latest(uses), n))
  {
    FreshWellFormed(n, size, disk);
    if uses != [] {
      var before, a := uses[..|uses| - 1], uses[|uses| - 1];
      ExactLru(n, size, disk, before);
      var d := UseAll(Fresh(n, size, disk), size, before);
      UseIsLru(d, size, a, Take(Latest(before), n));
      LatestNoDup(before);
      TakeOfMove(Latest(before), a.k, n);
    }
  }

  /** How many uses are of a block that is not among the n blocks used last: no cache, no buffers. */
  function NotAmong(uses: seq<Access>, n: nat): nat {
    if uses == [] then 0
    else
      var before := uses[..|uses| - 1];
      NotAmong(before, n) + if uses[|uses| - 1].k in Take(Latest(before), n) then 0 else 1
  }

  /** The places of these uses. */
  function PlacesNotAmong(uses: seq<Access>, n: nat): set<nat> {
    set u | 0 <= u < |uses| && uses[u].k !in Take(Latest(uses[..u]), n)
  }

  lemma {:induction false} NotAmongCounts(uses: seq<Access>, n: nat)
    ensures NotAmong(uses, n) == |PlacesNotAmong(uses, n)|
  {
    hide Latest, Take;
    if uses != [] {
      var last := |uses| - 1;
      var before := uses[..last];
      NotAmongCounts(before, n);
      assert forall u :: 0 <= u < last ==> before[..u] == uses[..u];
      assert PlacesNotAmong(uses, n) ==
             PlacesNotAmong(before, n) + if uses[last].k in Take(Latest(before), n) then {} else {last};
    }
  }

  /** The medium is read for exactly these uses. */
  lemma {:induction false} MissesExact(n: nat, size: nat, disk: map<Key, Data>, uses: seq<Access>)
    requires n > 0 && AllSucceed(uses)
    ensures WellFormed(Fresh(n, size, disk))
    ensures Misses(Fresh(n, size, disk), size, uses) == NotAmong(uses, n) == |PlacesNotAmong(uses, n)|
  {
    FreshWellFormed(n, size, disk);
    NotAmongCounts(uses, n);
    if uses != [] {
      var before := uses[..|uses| - 1];
      MissesExact(n, size, disk, before);
      ExactLru(n, size, disk, before);
      UseIsLru(UseAll(Fresh(n, size, disk), size, before), size, uses[|uses| - 1], Take(Latest(before), n));
    }
  }

  /** The blocks in n buffers are the first of those in m buffers, at every moment. */
  lemma Inclusion(n: nat, m: nat, size: nat, disk: map<Key, Data>, uses: seq<Access>, p: nat)
    requires 0 < n <= m && AllSucceed(uses) && p < n
    ensures WellFormed(Fresh(n, size, disk)) && WellFormed(Fresh(m, size, disk))
    ensures var c, d := UseAll(Fresh(n, size, disk), size, uses), UseAll(Fresh(m, size, disk), size, uses);
            && Listed(c) && Listed(d)
            && c.bufs[c.lru[p]].key == d.bufs[d.lru[p]].key
  {
    ExactLru(n, size, disk, uses);
    ExactLru(m, size, disk, uses);
  }

  /** No Belady anomaly: m buffers never read the medium more often than n <= m buffers do. */
  lemma {:induction false} NoBeladyAnomaly(n: nat, m: nat, size: nat, disk: map<Key, Data>, uses: seq<Access>)
    requires 0 < n <= m && AllSucceed(uses)
    ensures WellFormed(Fresh(n, size, disk)) && WellFormed(Fresh(m, size, disk))
    ensures Misses(Fresh(m, size, disk), size, uses) <= Misses(Fresh(n, size, disk), size, uses)
  {
    FreshWellFormed(n, size, disk);
    FreshWellFormed(m, size, disk);
    if uses != [] {
      var before, a := uses[..|uses| - 1], uses[|uses| - 1];
      NoBeladyAnomaly(n, m, size, disk, before);
      ExactLru(n, size, disk, before);
      ExactLru(m, size, disk, before);
      UseIsLru(UseAll(Fresh(n, size, disk), size, before), size, a, Take(Latest(before), n));
      UseIsLru(UseAll(Fresh(m, size, disk), size, before), size, a, Take(Latest(before), m));
    }
  }

  // --------------------------------------------------- uses as runs of calls

  /** The calls that one use makes. */
  function Calls(c: Cache, size: nat, a: Access): seq<Call>
    requires Shaped(c)
  {
    match Bread(c, a.k, size, a.io).1
    case Read(i, _) =>
      if a.Look? then [Fetch(a.k, size, a.io), Release(i)]
      else [Fetch(a.k, size, a.io), Edit(i, a.data), Store(i, a.out)]
    case _ => [Fetch(a.k, size, a.io)]
  }

  lemma UseIsRun(c: Cache, size: nat, a: Access)
    requires WellFormed(c)
    ensures Runnable(c, Calls(c, size, a)) && Exec(c, Calls(c, size, a)) == Use(c, size, a)
    ensures WellFormed(Use(c, size, a))
  {
    hide Bread, Bwrite, Brelse;
    BreadKeeps(c, a.k, size, a.io);
    var (d, r) := Bread(c, a.k, size, a.io);
    var fetch := Fetch(a.k, size, a.io);
    if r.Read? {
      BreadReturns(c, a.k, size, a.io);
      if a.Look? {
        BrelseKeeps(d, r.i);
        RunnableCons(d, Release(r.i), []);
        RunnableCons(c, fetch, [Release(r.i)]);
      } else {
        var b := d.bufs[r.i].(data := a.data);
        var e := SetBuf(d, r.i, b);
        UpdateKeeps(d, r.i, b);
        BwriteKeeps(e, r.i, a.out);
        RunnableCons(e, Store(r.i, a.out), []);
        RunnableCons(d, Edit(r.i, a.data), [Store(r.i, a.out)]);
        RunnableCons(c, fetch, [Edit(r.i, a.data), Store(r.i, a.out)]);
      }
    } else {
      RunnableCons(c, fetch, []);
    }
  }

  lemma {:induction false} ExecConcat(c: Cache, r1: seq<Call>, r2: seq<Call>)
    requires Shaped(c) && Runnable(c, r1) && Runnable(Exec(c, r1), r2)
    ensures Runnable(c, r1 + r2) && Exec(c, r1 + r2) == Exec(Exec(c, r1), r2)
    decreases |r1|
  {
    hide Step, Callable;
    if r1 == [] {
      assert r1 + r2 == r2;
    } else {
      assert (r1 + r2)[1..] == r1[1..] + r2;
      ExecConcat(Step(c, r1[0]), r1[1..], r2);
    }
  }

  /** The calls of all uses. */
  ghost function AllCalls(c: Cache, size: nat, uses: seq<Access>): seq<Call>
    requires WellFormed(c)
  {
    if uses == [] then []
    else AllCalls(c, size, uses[..|uses| - 1]) + Calls(UseAll(c, size, uses[..|uses| - 1]), size, uses[|uses| - 1])
  }

  /** So what is proved of uses is proved of runs. */
  lemma {:induction false} UsesAreRun(c: Cache, size: nat, uses: seq<Access>)
    requires WellFormed(c)
    ensures WellFormed(UseAll(c, size, uses))
    ensures Runnable(c, AllCalls(c, size, uses)) && Exec(c, AllCalls(c, size, uses)) == UseAll(c, size, uses)
  {
    if uses != [] {
      var before, a := uses[..|uses| - 1], uses[|uses| - 1];
      UsesAreRun(c, size, before);
      UseIsRun(UseAll(c, size, before), size, a);
      ExecConcat(c, AllCalls(c, size, before), Calls(UseAll(c, size, before), size, a));
    }
  }
}
