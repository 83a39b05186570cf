/**
 The buffer cache of src/fs/bio.c on values.  One function per C routine gives
 the state after the routine and what it returns.  The methods of module
 BufferCache are proved against these functions; the properties of the cache are
 proved about them.
 */
module CacheModel {
  import opened Recency

  datatype Option<+T> = None | Some(value: T)

  const OK := 0
  const EIO := 5

  type Byte = b: int | 0 <= b < 256
  type Data = seq<Byte>

  /** A vnode of the mount and a logical block number. */
  datatype Key = Key(vp: nat, blkno: int)

  /** b_flags, one field for each B_ constant of include/fs/buf.h. */
  datatype Flags = Flags(busy: bool, done: bool, inval: bool, read: bool,
                         async: bool, error: bool, cache: bool, wanted: bool)

  const NO_FLAGS := Flags(false, false, false, false, false, false, false, false)

  /** A block I/O request: its direction, its semaphore (true when full), its error. */
  datatype Bio = Bio(read: bool, sem: bool, error: int)

  /**
   A buffer.  The field stamp is not in the C code: it records when the
   buffer was last put at the head of the list.
   */
  datatype Buf = Buf(flags: Flags, key: Option<Key>, size: nat, data: Data, bio: Option<Bio>,
                     sem: bool, error: int, stamp: int)

  /** A mount: its buffers, the order of its buffer list (head first), the medium. */
  datatype Cache = Cache(bufs: seq<Buf>, lru: seq<nat>, disk: map<Key, Data>, clock: int)

  function Cell(disk: map<Key, Data>, k: Key): Data {
    if k in disk then disk[k] else []
  }

  ghost predicate Ids(s: seq<nat>, n: nat) {
    forall p :: 0 <= p < |s| ==> s[p] < n
  }

  ghost predicate Shaped(c: Cache) {
    Ids(c.lru, |c.bufs|)
  }

  function SetBuf(c: Cache, i: nat, b: Buf): Cache
    requires i < |c.bufs|
  {
    c.(bufs := c.bufs[i := b])
  }

  function SetFlags(c: Cache, i: nat, f: Flags): Cache
    requires i < |c.bufs|
  {
    SetBuf(c, i, c.bufs[i].(flags := f))
  }

  /** listRemove, then listInsert at the head. */
  function Touch(c: Cache, i: nat): (r: Cache)
    requires Shaped(c) && i < |c.bufs|
    ensures Shaped(r) && |r.bufs| == |c.bufs|
  {
    assert forall p :: 0 <= p < |MoveToFront(c.lru, i)| ==> MoveToFront(c.lru, i)[p] in MoveToFront(c.lru, i);
    c.(bufs := c.bufs[i := c.bufs[i].(stamp := c.clock)],
       lru := MoveToFront(c.lru, i), clock := c.clock + 1)
  }

  // --------------------------------------------------------------- brelse

  function Unlocked(b: Buf): Buf {
    b.(sem := b.sem || b.flags.wanted,
       flags := b.flags.(wanted := false, busy := false, async := false))
  }

  function Brelse(c: Cache, i: nat): (r: Cache)
    requires Shaped(c) && i < |c.bufs|
    ensures Shaped(r) && |r.bufs| == |c.bufs|
  {
    if c.bufs[i].flags.busy then Touch(SetBuf(c, i, Unlocked(c.bufs[i])), i) else c
  }

  // ------------------------------------------------- buf_incore and buf_new

  predicate Matches(b: Buf, k: Key) {
    b.key == Some(k) && !b.flags.inval
  }

  function FindFirst(bufs: seq<Buf>, s: seq<nat>, k: Key): (r: Option<nat>)
    requires Ids(s, |bufs|)
    ensures r.Some? ==> r.value in s && Matches(bufs[r.value], k)
    ensures r.None? ==> forall p :: 0 <= p < |s| ==> !Matches(bufs[s[p]], k)
  {
    if s == [] then None
    else if Matches(bufs[s[0]], k) then Some(s[0])
    else FindFirst(bufs, s[1..], k)
  }

  function FindLastIdle(bufs: seq<Buf>, s: seq<nat>): (r: Option<nat>)
    requires Ids(s, |bufs|)
    ensures r.Some? ==> r.value in s && !bufs[r.value].flags.busy
    ensures r.None? ==> forall p :: 0 <= p < |s| ==> bufs[s[p]].flags.busy
  {
    if s == [] then None
    else
      var last := s[|s| - 1];
      var rest := s[..|s| - 1];
      if !bufs[last].flags.busy then Some(last) else FindLastIdle(bufs, rest)
  }

  function Incore(c: Cache, k: Key): (r: Option<nat>)
    requires Shaped(c)
  {
    FindFirst(c.bufs, c.lru, k)
  }

  function Victim(c: Cache): (r: Option<nat>)
    requires Shaped(c)
  {
    FindLastIdle(c.bufs, c.lru)
  }

  /** The victim as buf_new leaves it: locked, without a key. */
  function Emptied(b: Buf): Buf {
    b.(flags := NO_FLAGS.(busy := true), key := None, error := OK)
  }

  /** The victim as buf_getblk leaves it, with the request made by bio_new. */
  function Assigned(b: Buf, k: Key): Buf {
    Emptied(b).(key := Some(k), bio := Some(Bio(false, false, OK)))
  }

  // ------------------------------------------------------------ buf_getblk

  /** Sleeping: asleep in semTake.  NoBuffers: going round the retry loop. */
  datatype Got = Got(i: nat) | Sleeping(i: nat) | NoBuffers

  ghost function Matching(c: Cache, k: Key): set<nat> {
    set i: nat | i < |c.bufs| && Matches(c.bufs[i], k)
  }

  /** The matching buffer after the B_BUSY test: a full semaphore was taken. */
  function Waited(b: Buf): Buf {
    if b.flags.busy then b.(sem := false, flags := b.flags.(wanted := true)) else b
  }

  function Locked(b: Buf): Buf {
    b.(flags := b.flags.(busy := true, cache := true))
  }

  /** The copy of another size is marked B_INVAL and given to bwrite, which releases it. */
  function Discard(c: Cache, i: nat): (r: Cache)
    requires Shaped(c) && i < |c.bufs|
    ensures Shaped(r) && |r.bufs| == |c.bufs|
    ensures r.disk == c.disk
  {
    var b := Locked(Waited(c.bufs[i]));
    Brelse(SetBuf(c, i, b.(flags := b.flags.(inval := true))), i)
  }

  /** A miss: what buf_getblk does when no valid copy is in the list. */
  function Miss(c: Cache, k: Key): (r: (Cache, Got))
    requires Shaped(c)
    ensures Shaped(r.0) && |r.0.bufs| == |c.bufs| && r.0.disk == c.disk
    ensures r.1.Got? ==> r.1.i < |c.bufs| &&
                         var b := r.0.bufs[r.1.i];
                         b.flags.busy && Matches(b, k) && b.bio.Some?
  {
    match Victim(c)
    case Some(i) => (Touch(SetBuf(c, i, Assigned(c.bufs[i], k)), i), Got(i))
    case None => (c, NoBuffers)
  }

  function Getblk(c: Cache, k: Key, size: nat): (r: (Cache, Got))
    requires Shaped(c)
    ensures Shaped(r.0) && |r.0.bufs| == |c.bufs| && r.0.disk == c.disk
    ensures r.1.Got? ==> r.1.i < |c.bufs| &&
                         var b := r.0.bufs[r.1.i];
                         b.flags.busy && Matches(b, k) && (!b.flags.cache ==> b.bio.Some?)
    decreases Matching(c, k)
  {
    match Incore(c, k)
    case Some(i) =>
      var b := c.bufs[i];
      if b.flags.busy && !b.sem then
        (SetFlags(c, i, b.flags.(wanted := true)), Sleeping(i))
      else if b.size != size then
        var d := Discard(c, i);
        assert i in Matching(c, k) && i !in Matching(d, k);
        Getblk(d, k, size)
      else
        (SetBuf(c, i, Locked(Waited(b))), Got(i))
    case None => Miss(c, k)
  }

  // ------------------------------------------------------- I/O completion

  /**
   How VOP_STRATEGY ends: through bio_done on the request, or through buf_done on
   the buffer.  When the error is not OK the target of the transfer (the data area of a
   read, the disk cell of a write) holds junk.
   */
  datatype Completion = ViaBio(error: int, junk: Data) | ViaBuf(error: int, junk: Data)

  predicate HasRequest(c: Cache, i: nat) {
    i < |c.bufs| && c.bufs[i].key.Some? && c.bufs[i].bio.Some?
  }

  function Transfer(c: Cache, i: nat, io: Completion): Cache
    requires HasRequest(c, i)
  {
    var b := c.bufs[i];
    var k := b.key.value;
    if b.bio.value.read then
      SetBuf(c, i, b.(data := if io.error == OK then Cell(c.disk, k) else io.junk))
    else
      c.(disk := c.disk[k := if io.error == OK then b.data else io.junk])
  }

  function BioDone(c: Cache, i: nat, error: int): Cache
    requires HasRequest(c, i)
  {
    var b := c.bufs[i];
    SetBuf(c, i, b.(bio := Some(b.bio.value.(error := error, sem := true))))
  }

  function BufDone(c: Cache, i: nat, error: int): (r: Cache)
    requires Shaped(c) && i < |c.bufs|
    ensures Shaped(r) && |r.bufs| == |c.bufs|
  {
    var b := c.bufs[i];
    var d := b.(error := error, flags := b.flags.(done := true));
    if b.flags.async then Brelse(SetBuf(c, i, d), i)
    else SetBuf(c, i, d.(sem := true, flags := d.flags.(wanted := false)))
  }

  function Strategy(c: Cache, i: nat, io: Completion): (r: Cache)
    requires Shaped(c) && HasRequest(c, i)
    ensures Shaped(r) && |r.bufs| == |c.bufs|
  {
    var t := Transfer(c, i, io);
    if io.ViaBio? then BioDone(t, i, io.error) else BufDone(t, i, io.error)
  }

  // -------------------------------------------------------------- buf_wait

  /** The I/O is over, or its completion is there to be taken: buf_wait does not block. */
  predicate Completed(c: Cache, i: nat) {
    && i < |c.bufs| && c.bufs[i].key.Some?
    && (c.bufs[i].flags.done || (c.bufs[i].bio.Some? && c.bufs[i].bio.value.sem))
  }

  /** bio_wait, then buf_done without an error of its own. */
  function Reap(c: Cache, i: nat): (r: Cache)
    requires Shaped(c) && HasRequest(c, i)
    ensures Shaped(r) && |r.bufs| == |c.bufs|
  {
    var b := c.bufs[i];
    var q := b.bio.value;
    var failed := b.flags.error || q.error != OK;
    BufDone(SetBuf(c, i, b.(bio := Some(q.(sem := false)), flags := b.flags.(error := failed))), i, OK)
  }

  predicate Failed(b: Buf) {
    b.flags.error || b.error != OK
  }

  /** An error marks the buffer B_INVAL, moving it to the head the first time. */
  function Fail(c: Cache, i: nat): (r: Cache)
    requires Shaped(c) && i < |c.bufs|
    ensures Shaped(r) && |r.bufs| == |c.bufs|
  {
    var f := c.bufs[i].flags;
    var d := if f.inval then c else Touch(SetFlags(c, i, f.(inval := true)), i);
    var b := d.bufs[i];
    if b.error == OK then SetBuf(d, i, b.(error := EIO))
    else SetFlags(d, i, b.flags.(error := true))
  }

  function BufWait(c: Cache, i: nat): (r: (Cache, int))
    requires Shaped(c) && Completed(c, i)
    ensures Shaped(r.0) && |r.0.bufs| == |c.bufs|
  {
    var d := if c.bufs[i].flags.done then c else Reap(c, i);
    if Failed(d.bufs[i]) then
      var e := Fail(d, i);
      (e, e.bufs[i].error)
    else (d, OK)
  }

  // ------------------------------------------- bread, bwrite, buf_startwrite

  datatype ReadResult = Read(i: nat, status: int) | ReadSleeping(i: nat) | ReadNoBuffers

  /** The buffer as bread prepares it for VOP_STRATEGY. */
  function Reading(b: Buf): Buf
    requires b.bio.Some?
  {
    b.(flags := b.flags.(read := true, done := false, error := false, inval := false),
       bio := Some(b.bio.value.(read := true)))
  }

  /** The buffer as bwrite prepares it for VOP_STRATEGY. */
  function Writing(b: Buf): Buf
    requires b.bio.Some?
  {
    b.(flags := b.flags.(read := false, done := false, error := false),
       bio := Some(b.bio.value.(read := false)))
  }

  lemma StrategyCompletes(c: Cache, i: nat, io: Completion)
    requires Shaped(c) && HasRequest(c, i)
    ensures Completed(Strategy(c, i, io), i)
  {
  }

  function ReadIn(c: Cache, i: nat, io: Completion): (r: (Cache, int))
    requires Shaped(c) && HasRequest(c, i)
    ensures Shaped(r.0) && |r.0.bufs| == |c.bufs|
  {
    var d := SetBuf(c, i, Reading(c.bufs[i]));
    StrategyCompletes(d, i, io);
    BufWait(Strategy(d, i, io), i)
  }

  function Bread(c: Cache, k: Key, size: nat, io: Completion): (r: (Cache, ReadResult))
    requires Shaped(c)
    ensures Shaped(r.0) && |r.0.bufs| == |c.bufs|
    ensures r.1.Read? ==> r.1.i < |c.bufs|
  {
    var (d, g) := Getblk(c, k, size);
    match g
    case Got(i) =>
      if d.bufs[i].flags.cache then (d, Read(i, OK))
      else
        var (e, status) := ReadIn(d, i, io);
        (e, Read(i, status))
    case Sleeping(i) => (d, ReadSleeping(i))
    case NoBuffers => (d, ReadNoBuffers)
  }

  /** For a buffer that is locked or B_INVAL; on any other the C function returns without a value. */
  function Bwrite(c: Cache, i: nat, io: Completion): (r: (Cache, int))
    requires Shaped(c) && HasRequest(c, i)
    ensures Shaped(r.0) && |r.0.bufs| == |c.bufs|
  {
    var b := c.bufs[i];
    if b.flags.inval then (Brelse(c, i), OK)
    else
      var d := SetBuf(c, i, Writing(b));
      var e := Strategy(d, i, io);
      if b.flags.async then (e, OK)
      else
        StrategyCompletes(d, i, io);
        var (f, status) := BufWait(e, i);
        (Brelse(f, i), status)
  }

  function StartWrite(c: Cache, i: nat, io: Completion): (r: Cache)
    requires Shaped(c) && HasRequest(c, i)
    ensures Shaped(r) && |r.bufs| == |c.bufs|
  {
    var b := c.bufs[i];
    var d := SetFlags(c, i, b.flags.(async := true));
    if b.flags.busy || b.flags.inval then Bwrite(d, i, io).0 else d
  }

  // ---------------------------------------------------------- buf_swapdata

  function SwapData(c: Cache, i: nat, j: nat): (r: Cache)
    requires Shaped(c) && i < |c.bufs| && j < |c.bufs|
    ensures Shaped(r) && |r.bufs| == |c.bufs|
  {
    var a, b := c.bufs[i], c.bufs[j];
    SetBuf(SetBuf(c, i, a.(data := b.data, size := b.size, bio := b.bio)),
           j, b.(data := a.data, size := a.size, bio := a.bio))
  }

  // --------------------------------------------------------- mountBufAlloc

  /** mountBufAlloc on an empty list: n buffers of one size, the first allocated at the head. */
  function FreshBuf(size: nat, stamp: int): Buf {
    Buf(NO_FLAGS, None, size, seq(size, _ => 0), None, false, OK, stamp)
  }

  function Fresh(n: nat, size: nat, disk: map<Key, Data>): (c: Cache)
    ensures Shaped(c)
  {
    Cache(seq(n, i requires 0 <= i < n => FreshBuf(size, -i)), seq(n, i requires 0 <= i < n => i), disk, 1)
  }
}
