/**
 Tasks asleep in buf_getblk, counted.  B_WANTED notes that there are sleepers, not how many, and semGive on b_sem
 wakes one.  This module says exactly which calls leave a task asleep beside an unlocked buffer, and what a woken task
 returns.
 */
module Sleepers {
  import opened CacheModel
  import opened CacheInvariant
  import opened IoOutcome
  import opened Runs
  import opened Effects
  import opened Holds
  import opened Wakeups

  /** For each buffer, the tasks asleep on its semaphore, and those woken that have not run yet. */
  datatype Crowd = Crowd(c: Cache, asleep: seq<nat>, woken: seq<nat>)

  /** A task makes a call; or a woken task goes on in buf_getblk, where it asked for a block and a size. */
  datatype Event = Do(a: Call) | Resume(i: nat, k: Key, size: nat)

  ghost predicate Sized(s: Crowd) {
    Shaped(s.c) && |s.asleep| == |s.c.bufs| && |s.woken| == |s.c.bufs|
  }

  /** Nobody sleeps on a full semaphore. */
  ghost predicate Sound(s: Crowd) {
    && Sized(s) && WellFormed(s.c)
    && forall i: nat :: i < |s.c.bufs| ==> Noted(s.c.bufs[i]) && (s.asleep[i] > 0 ==> !s.c.bufs[i].sem)
  }

  predicate Enabled(s: Crowd, e: Event)
    requires Sized(s)
  {
    match e
    case Do(a) => Callable(s.c, a)
    case Resume(i, _, _) => i < |s.woken| && s.woken[i] > 0
  }

  // ------------------------------------------------------------ the steps

  /** semGive on a semaphore with sleepers hands it to one of them instead of filling it. */
  predicate Hands(s: Crowd, i: nat)
    requires Sized(s) && i < |s.c.bufs|
  {
    s.asleep[i] > 0 && s.c.bufs[i].sem
  }

  /**
   The gives of one call, handed over at its end: a call gives the semaphore of a buffer with sleepers at most
   once, for B_WANTED is cleared by each give.
   */
  function HandOver(s: Crowd): (r: Crowd)
    requires Sized(s)
    ensures Sized(r) && |r.c.bufs| == |s.c.bufs|
  {
    var n := |s.c.bufs|;
    Crowd(s.c.(bufs := seq(n, i requires 0 <= i < n =>
                     var b := s.c.bufs[i]; if Hands(s, i) then b.(sem := false) else b)),
          seq(n, i requires 0 <= i < n => if Hands(s, i) then s.asleep[i] - 1 else s.asleep[i]),
          seq(n, i requires 0 <= i < n => if Hands(s, i) then s.woken[i] + 1 else s.woken[i]))
  }

  /**
   The woken task, from semTake on: it locks the buffer without another look at it, and drops it if the size is
   wrong.  The retry that follows a drop is a new call.
   */
  function Resumed(c: Cache, i: nat, size: nat): (r: Cache)
    requires Shaped(c) && i < |c.bufs|
    ensures Shaped(r) && |r.bufs| == |c.bufs|
  {
    var b := Locked(c.bufs[i]);
    if b.size == size then SetBuf(c, i, b)
    else Brelse(SetBuf(c, i, b.(flags := b.flags.(inval := true))), i)
  }

  function Next(s: Crowd, e: Event): (t: Crowd)
    requires Sized(s) && Enabled(s, e)
    ensures Sized(t) && |t.c.bufs| == |s.c.bufs|
  {
    match e
    case Do(a) =>
      var t := HandOver(s.(c := Step(s.c, a)));
      (match SleepsOn(s.c, a)
       case Some(i) => if i < |t.asleep| then t.(asleep := t.asleep[i := t.asleep[i] + 1]) else t
       case None => t)
    case Resume(i, _, size) =>
      HandOver(s.(c := Resumed(s.c, i, size), woken := s.woken[i := s.woken[i] - 1]))
  }

  lemma HandOverKeeps(s: Crowd)
    requires Sized(s) && WellFormed(s.c)
    requires forall i: nat :: i < |s.c.bufs| ==> Noted(s.c.bufs[i])
    ensures Sound(HandOver(s))
  {
    var d := HandOver(s).c;
    assert forall i :: 0 <= i < |d.bufs| ==> d.bufs[i] == s.c.bufs[i].(sem := d.bufs[i].sem);
  }

  lemma ResumedKeeps(c: Cache, i: nat, size: nat)
    requires WellFormed(c) && i < |c.bufs|
    ensures WellFormed(Resumed(c, i, size)) && AllWake(c, Resumed(c, i, size))
  {
    var b := Locked(c.bufs[i]);
    if b.size == size {
      UpdateKeeps(c, i, b);
    } else {
      var b' := b.(flags := b.flags.(inval := true));
      UpdateKeeps(c, i, b');
      BrelseKeeps(SetBuf(c, i, b'), i);
    }
  }

  lemma SleepsOnLocked(c: Cache, a: Call)
    requires WellFormed(c) && Callable(c, a) && SleepsOn(c, a).Some?
    ensures var i := SleepsOn(c, a).value;
            i < |c.bufs| && Step(c, a).bufs[i].flags.wanted && Step(c, a).bufs[i].flags.busy && !Step(c, a).bufs[i].sem
    ensures var i := SleepsOn(c, a).value;
            (a.Get? || a.Fetch?) && Matches(c.bufs[i], a.k)
  {
    SleeperIsNoted(c, a.k, a.size);
  }

  /** Every step, of any task, keeps the semaphores of sleepers empty and the notes in order. */
  lemma NextKeeps(s: Crowd, e: Event)
    requires Sound(s) && Enabled(s, e)
    ensures Sound(Next(s, e))
  {
    hide Step, SleepsOn, Resumed, HandOver;
    match e
    case Do(a) =>
      StepKeeps(s.c, a);
      StepWakes(s.c, a);
      HandOverKeeps(s.(c := Step(s.c, a)));
      if SleepsOn(s.c, a).Some? {
        SleepsOnLocked(s.c, a);
        NextAt(s, a, SleepsOn(s.c, a).value);
      }
    case Resume(i, _, size) =>
      ResumedKeeps(s.c, i, size);
      HandOverKeeps(s.(c := Resumed(s.c, i, size), woken := s.woken[i := s.woken[i] - 1]));
  }

  /** One buffer after a call. */
  lemma NextAt(s: Crowd, a: Call, i: nat)
    requires Sized(s) && Callable(s.c, a) && i < |s.c.bufs|
    ensures var b', t := Step(s.c, a).bufs[i], Next(s, Do(a));
            var hands := s.asleep[i] > 0 && b'.sem;
            && t.c.bufs[i] == (if hands then b'.(sem := false) else b')
            && t.woken[i] == s.woken[i] + (if hands then 1 else 0)
            && t.asleep[i] == s.asleep[i] - (if hands then 1 else 0) + (if SleepsOn(s.c, a) == Some(i) then 1 else 0)
  {
    hide Step, SleepsOn;
  }

  /** A task goes to sleep exactly when it asks for a block whose valid copy is locked, its semaphore empty. */
  lemma SleepsExact(c: Cache, a: Call, i: nat)
    requires WellFormed(c) && i < |c.bufs|
    ensures SleepsOn(c, a) == Some(i) <==>
            Asks(a) && Matches(c.bufs[i], a.k) && c.bufs[i].flags.busy && !c.bufs[i].sem
  {
    if Asks(a) {
      GetAcquires(c, a.k, a.size);
      hide Getblk;
      IncoreExact(c, a.k, i);
      GetblkPass(c, a.k, a.size);
    }
  }

  /**
   No task is lost: a step adds one to those asleep or woken on a buffer exactly if a task goes to sleep on it, and
   takes one away exactly if a woken one goes on; and a give with sleepers moves exactly one.
   */
  lemma TasksConserved(s: Crowd, e: Event, i: nat)
    requires Sound(s) && Enabled(s, e) && i < |s.c.bufs|
    ensures var t := Next(s, e);
            var slept := e.Do? && SleepsOn(s.c, e.a) == Some(i);
            var resumed := e.Resume? && e.i == i;
            var handed := s.asleep[i] > 0 && (if e.Do? then Gives(s.c, e.a, i)
                                              else resumed && s.c.bufs[i].size != e.size && s.c.bufs[i].flags.wanted);
            && t.asleep[i] == s.asleep[i] + (if slept then 1 else 0) - (if handed then 1 else 0)
            && t.woken[i] == s.woken[i] + (if handed then 1 else 0) - (if resumed then 1 else 0)
  {
    if e.Do? {
      NextAt(s, e.a, i);
      if s.asleep[i] > 0 { GivesExact(s.c, e.a, i); }
      hide Next, Step, SleepsOn, Gives;
    }
  }

  // ------------------------------------------- which calls wake a sleeper

  /**
   The call gives the empty semaphore of buffer i: it ends a read or a synchronous write of it, or
   unlocks it while B_WANTED is set.
   */
  predicate Gives(c: Cache, a: Call, i: nat)
    requires Shaped(c) && i < |c.bufs|
  {
    var f := c.bufs[i].flags;
    match a
    case Fetch(k, size, _) =>
      var (d, g) := Getblk(c, k, size);
      g == Got(i) && !d.bufs[i].flags.cache
    case Store(j, io) => j == i && if f.inval || (f.async && io.ViaBuf?) then f.wanted else !f.async
    case StoreAsync(j, io) => j == i && f.wanted && (f.inval || io.ViaBuf?)
    case Wait(j) => j == i && !f.done && (f.async ==> f.wanted)
    case Release(j) => j == i && f.wanted
    case _ => false
  }

  lemma DiscardGives(c: Cache, j: nat, i: nat)
    requires WellFormed(c) && j < |c.bufs| && i < |c.bufs|
    requires !c.bufs[i].sem && Noted(c.bufs[i]) && (c.bufs[j].flags.busy ==> c.bufs[j].sem)
    ensures var b := Discard(c, j).bufs[i];
            !b.sem && Noted(b) && b.flags.busy == c.bufs[i].flags.busy
  {
  }

  lemma MissGives(c: Cache, k: Key, i: nat)
    requires WellFormed(c) && i < |c.bufs| && !c.bufs[i].sem
    ensures var (d, g) := Miss(c, k);
            !d.bufs[i].sem && d.bufs[i].flags.busy == (c.bufs[i].flags.busy || g == Got(i))
            && (g == Got(i) ==> !c.bufs[i].flags.busy)
  {
    if Miss(c, k).1.Got? { MissReturns(c, k); }
  }

  lemma GetGives(c: Cache, k: Key, size: nat, i: nat)
    requires WellFormed(c) && i < |c.bufs| && !c.bufs[i].sem && Noted(c.bufs[i])
    ensures !Getblk(c, k, size).0.bufs[i].sem
  {
    hide Getblk, Miss, Discard, Matching, FindFirst, FindLastIdle;
    GetblkPass(c, k, size);
    match Incore(c, k)
    case None => MissGives(c, k, i);
    case Some(j) =>
      if (!c.bufs[j].flags.busy || c.bufs[j].sem) && c.bufs[j].size != size {
        RetryIsMiss(c, k, size, j);
        DiscardKeeps(c, j);
        DiscardGives(c, j, i);
        MissGives(Discard(c, j), k, i);
      }
  }

  /** Exactly these calls give an empty semaphore, on which somebody may sleep. */
  lemma GivesExact(c: Cache, a: Call, i: nat)
    requires WellFormed(c) && Callable(c, a) && i < |c.bufs| && !c.bufs[i].sem && Noted(c.bufs[i])
    ensures Step(c, a).bufs[i].sem <==> Gives(c, a, i)
  {
    hide Getblk, Bread, Bwrite, BufWait, StartWrite;
    match a
    case Get(k, size) => GetGives(c, k, size, i);
    case Fetch(k, size, io) => FetchGives(c, k, size, io, i);
    case Edit(_, _) =>
    case Scrap(_) =>
    case Swap(_, _) =>
    case Store(j, io) => StoreEffect(c, j, io);
    case StoreAsync(j, io) => StoreAsyncEffect(c, j, io);
    case Wait(j) => WaitEffect(c, j);
    case Release(_) =>
  }

  lemma FetchGives(c: Cache, k: Key, size: nat, io: Completion, i: nat)
    requires WellFormed(c) && i < |c.bufs| && !c.bufs[i].sem && Noted(c.bufs[i])
    ensures Step(c, Fetch(k, size, io)).bufs[i].sem <==> Gives(c, Fetch(k, size, io), i)
  {
    hide Getblk, ReadIn;
    GetGives(c, k, size, i);
    BreadTouches(c, k, size, io);
    var (d, g) := Getblk(c, k, size);
    if g == Got(i) && !d.bufs[i].flags.cache {
      GetblkReturns(c, k, size);
      ReadInReturns(d, i, io);
    }
  }

  // ----------------------------------------------------------- stranded

  /** A task sleeps on the buffer, nobody holds it, and nobody is on the way to it. */
  predicate Stranded(s: Crowd, i: nat)
    requires Sized(s) && i < |s.c.bufs|
  {
    s.asleep[i] > 0 && s.woken[i] == 0 && !s.c.bufs[i].flags.busy
  }

  /**
   The step leaves a task behind.  All of this can be known before the step: there is a sleeper, nobody
   woken is still on the way, and the step unlocks the buffer without giving its semaphore.
   */
  predicate Leaves(s: Crowd, e: Event, i: nat)
    requires Sized(s) && i < |s.c.bufs|
  {
    && s.asleep[i] > 0
    && match e
       case Do(a) => s.woken[i] == 0 && s.c.bufs[i].flags.busy && GivesUp(s.c, a, i) && !Gives(s.c, a, i)
       case Resume(j, _, size) =>
         j == i && s.woken[i] == 1 && s.c.bufs[i].size != size && !s.c.bufs[i].flags.wanted
  }

  /** The step locks the buffer again, or wakes one of its sleepers. */
  predicate Rescues(s: Crowd, e: Event, i: nat)
    requires Sized(s) && i < |s.c.bufs|
  {
    e.Do? && (Gives(s.c, e.a, i) || Acquired(s.c, e.a) == Some(i))
  }

  /** Tasks are stranded by exactly the steps that leave one behind, and rescued by exactly the steps that rescue. */
  lemma StrandsExact(s: Crowd, e: Event, i: nat)
    requires Sound(s) && Enabled(s, e) && i < |s.c.bufs|
    ensures !Stranded(s, i) ==> (Stranded(Next(s, e), i) <==> Leaves(s, e, i))
    ensures Stranded(s, i) ==> (!Stranded(Next(s, e), i) <==> Rescues(s, e, i))
  {
    match e
    case Do(a) =>
      hide Step, SleepsOn, HandOver, Gives, GivesUp, Acquired, Seized;
      NextAt(s, a, i);
      if SleepsOn(s.c, a).Some? { SleepsOnLocked(s.c, a); }
      StepEffect(s.c, a, i);
      SeizedIs(s.c, a, i);
      if s.asleep[i] > 0 { GivesExact(s.c, a, i); }
    case Resume(j, _, size) =>
  }

  // ---------------------------------------------------------------- runs

  predicate Able(s: Crowd, run: seq<Event>)
    requires Sized(s)
    decreases |run|
  {
    run == [] || (Enabled(s, run[0]) && Able(Next(s, run[0]), run[1..]))
  }

  function After(s: Crowd, run: seq<Event>): (t: Crowd)
    requires Sized(s) && Able(s, run)
    ensures Sized(t) && |t.c.bufs| == |s.c.bufs|
    decreases |run|
  {
    if run == [] then s else After(Next(s, run[0]), run[1..])
  }

  /** A new mount, without sleepers. */
  function Opening(n: nat, size: nat, disk: map<Key, Data>): (s: Crowd)
    ensures Sized(s) && |s.c.bufs| == n
  {
    var none := seq(n, i requires 0 <= i < n => 0);
    Crowd(Fresh(n, size, disk), none, none)
  }

  lemma OpeningSound(n: nat, size: nat, disk: map<Key, Data>)
    ensures Sound(Opening(n, size, disk))
  {
    FreshWellFormed(n, size, disk);
  }

  lemma {:induction false} RunSound(s: Crowd, run: seq<Event>)
    requires Sound(s) && Able(s, run)
    ensures Sound(After(s, run))
    decreases |run|
  {
    if run != [] {
      NextKeeps(s, run[0]);
      RunSound(Next(s, run[0]), run[1..]);
    }
  }

  /** The situation after n steps of the run. */
  function At(s: Crowd, run: seq<Event>, n: nat): (t: Crowd)
    requires Sized(s) && Able(s, run) && n <= |run|
    ensures Sized(t) && |t.c.bufs| == |s.c.bufs|
    ensures n < |run| ==> Enabled(t, run[n])
    decreases |run|
  {
    if n == 0 then s else At(Next(s, run[0]), run[1..], n - 1)
  }

  /** At every moment of every run the situation is sound, and a step leads from each to the next. */
  lemma {:induction false} AtKeeps(s: Crowd, run: seq<Event>, n: nat)
    requires Sound(s) && Able(s, run) && n <= |run|
    ensures Sound(At(s, run, n))
    ensures n < |run| ==> At(s, run, n + 1) == Next(At(s, run, n), run[n])
    ensures n == |run| ==> At(s, run, n) == After(s, run)
    decreases |run|
  {
    if n > 0 {
      NextKeeps(s, run[0]);
      AtKeeps(Next(s, run[0]), run[1..], n - 1);
    }
  }

  /** Step n of the run leaves a task behind. */
  ghost predicate LeavesAt(s: Crowd, run: seq<Event>, n: nat, i: nat)
    requires Sized(s) && Able(s, run) && n < |run| && i < |s.c.bufs|
  {
    !Stranded(At(s, run, n), i) && Leaves(At(s, run, n), run[n], i)
  }

  lemma LeavesThen(s: Crowd, run: seq<Event>, n: nat, i: nat)
    requires Sound(s) && Able(s, run) && n < |run| && i < |s.c.bufs|
    ensures LeavesAt(s, run, n, i) <==> !Stranded(At(s, run, n), i) && Stranded(At(s, run, n + 1), i)
  {
    hide Stranded, Leaves, Next;
    AtKeeps(s, run, n);
    StrandsExact(At(s, run, n), run[n], i);
  }

  /** In any run, a task is stranded on a buffer at some moment if and only if some step leaves one behind. */
  lemma StrandedExact(s: Crowd, run: seq<Event>, i: nat)
    requires Sound(s) && Able(s, run) && i < |s.c.bufs| && !Stranded(s, i)
    ensures (exists n :: 0 <= n <= |run| && Stranded(At(s, run, n), i)) <==>
            (exists n :: 0 <= n < |run| && LeavesAt(s, run, n, i))
  {
    hide Stranded, LeavesAt, At, Able;
    if n :| 0 <= n <= |run| && Stranded(At(s, run, n), i) {
      var m := FirstStranded(s, run, i, n);
      LeavesThen(s, run, m, i);
    }
    if n :| 0 <= n < |run| && LeavesAt(s, run, n, i) {
      LeavesThen(s, run, n, i);
    }
  }

  lemma {:induction false} FirstStranded(s: Crowd, run: seq<Event>, i: nat, n: nat) returns (m: nat)
    requires Sized(s) && Able(s, run) && i < |s.c.bufs| && n <= |run| && !Stranded(s, i) && Stranded(At(s, run, n), i)
    ensures m < n && !Stranded(At(s, run, m), i) && Stranded(At(s, run, m + 1), i)
  {
    m := n - 1;
    if Stranded(At(s, run, n - 1), i) {
      m := FirstStranded(s, run, i, n - 1);
    }
  }

  /** The same for every run of a new mount. */
  lemma StrandedOnNewMount(n: nat, size: nat, disk: map<Key, Data>, run: seq<Event>, i: nat)
    requires Able(Opening(n, size, disk), run) && i < n
    ensures Sound(After(Opening(n, size, disk), run))
    ensures var s := Opening(n, size, disk);
            (exists m :: 0 <= m <= |run| && Stranded(At(s, run, m), i)) <==>
            (exists m :: 0 <= m < |run| && LeavesAt(s, run, m, i))
  {
    OpeningSound(n, size, disk);
    RunSound(Opening(n, size, disk), run);
    StrandedExact(Opening(n, size, disk), run, i);
  }

  // --------------------------------------------------- a queue of sleepers

  /** How a holder gives the buffer up: brelse, or a synchronous bwrite. */
  datatype Turn = Leave | Write(io: Completion)

  function Made(i: nat, turn: Turn): Call {
    if turn.Leave? then Release(i) else Store(i, turn.io)
  }

  predicate Clean(turn: Turn) {
    turn.Write? ==> turn.io.error == OK
  }

  /** The holder takes its turn, then the task it woke, and so on until nobody is woken. */
  ghost function Relay(s: Crowd, i: nat, k: Key, turns: seq<Turn>): (t: Crowd)
    requires Sized(s) && i < |s.c.bufs|
    ensures Sized(t) && |t.c.bufs| == |s.c.bufs|
    decreases |turns|
  {
    if turns == [] || !Callable(s.c, Made(i, turns[0])) then s
    else
      var t := Next(s, Do(Made(i, turns[0])));
      if t.woken[i] == 0 then t else Relay(Next(t, Resume(i, k, t.c.bufs[i].size)), i, k, turns[1..])
  }

  /** A held buffer, without a completion left over, that nobody is on the way to. */
  ghost predicate Queue(s: Crowd, i: nat) {
    && Sound(s) && HasRequest(s.c, i) && Quiet(s.c, i)
    && s.c.bufs[i].flags.busy && s.woken[i] == 0
  }

  /** The buffer after one turn. */
  lemma TurnEnds(s: Crowd, i: nat, turn: Turn)
    requires Queue(s, i) && s.asleep[i] > 0
    ensures Callable(s.c, Made(i, turn))
    ensures var b, t := s.c.bufs[i], Next(s, Do(Made(i, turn)));
            var b' := t.c.bufs[i];
            && t.woken[i] == (if b.flags.wanted || (turn.Write? && !b.flags.inval) then 1 else 0)
            && t.asleep[i] == s.asleep[i] - t.woken[i]
            && HasRequest(t.c, i) && Quiet(t.c, i) && !b'.sem && !b'.flags.wanted
            && (b'.flags.inval <==> b.flags.inval || !Clean(turn))
  {
    hide HandOver, Next, Bwrite, Brelse;
    NextAt(s, Made(i, turn), i);
    MadeEnds(s.c, i, turn);
  }

  /** The same, before the semaphore is handed over. */
  lemma MadeEnds(c: Cache, i: nat, turn: Turn)
    requires Shaped(c) && HasRequest(c, i) && Quiet(c, i) && c.bufs[i].flags.busy && !c.bufs[i].sem
    ensures Callable(c, Made(i, turn))
    ensures var b, b', d := c.bufs[i], Step(c, Made(i, turn)).bufs[i], Step(c, Made(i, turn));
            && (b'.sem <==> b.flags.wanted || (turn.Write? && !b.flags.inval))
            && HasRequest(d, i) && Quiet(d, i) && !b'.flags.wanted
            && (b'.flags.inval <==> b.flags.inval || !Clean(turn))
  {
    if turn.Write? && !c.bufs[i].flags.inval {
      hide Bwrite;
      BwriteReturns(c, i, turn.io);
    }
  }

  /** One turn, and the turn passed on. */
  lemma OneTurn(s: Crowd, i: nat, k: Key, turn: Turn)
    requires Queue(s, i) && s.asleep[i] > 0
    ensures Callable(s.c, Made(i, turn))
    ensures var b, t := s.c.bufs[i], Next(s, Do(Made(i, turn)));
            var gives := b.flags.wanted || (turn.Write? && !b.flags.inval);
            && t.woken[i] == (if gives then 1 else 0)
            && t.asleep[i] == s.asleep[i] - t.woken[i]
            && (gives ==>
                  var u := Next(t, Resume(i, k, t.c.bufs[i].size));
                  && Queue(u, i) && u.asleep[i] == t.asleep[i] && !u.c.bufs[i].flags.wanted
                  && (u.c.bufs[i].flags.inval <==> b.flags.inval || !Clean(turn)))
  {
    hide Next, Clean;
    TurnEnds(s, i, turn);
    NextKeeps(s, Do(Made(i, turn)));
    var t := Next(s, Do(Made(i, turn)));
    if t.woken[i] > 0 { TurnPassed(t, i, k); }
  }

  lemma TurnPassed(t: Crowd, i: nat, k: Key)
    requires Sound(t) && HasRequest(t.c, i) && Quiet(t.c, i) && t.woken[i] == 1
    requires !t.c.bufs[i].sem && !t.c.bufs[i].flags.wanted
    ensures var u := Next(t, Resume(i, k, t.c.bufs[i].size));
            && Queue(u, i) && u.asleep[i] == t.asleep[i] && !u.c.bufs[i].flags.wanted
            && u.c.bufs[i].flags.inval == t.c.bufs[i].flags.inval
  {
    NextKeeps(t, Resume(i, k, t.c.bufs[i].size));
  }

  /** After the note is used up, a sleeper is woken by each synchronous write of a valid buffer and by nothing else. */
  lemma {:induction false} RelayTail(s: Crowd, i: nat, k: Key, turns: seq<Turn>)
    requires Queue(s, i) && !s.c.bufs[i].flags.wanted && s.asleep[i] <= |turns|
    ensures Relay(s, i, k, turns).asleep[i] == 0 <==>
            s.asleep[i] == 0 ||
            (&& !s.c.bufs[i].flags.inval
             && (forall p :: 0 <= p < s.asleep[i] ==> turns[p].Write?)
             && (forall p :: 0 <= p < s.asleep[i] - 1 ==> Clean(turns[p])))
    decreases |turns|
  {
    hide Next;
    if s.asleep[i] > 0 {
      OneTurn(s, i, k, turns[0]);
      if turns[0].Write? && !s.c.bufs[i].flags.inval {
        var t := Next(s, Do(Made(i, turns[0])));
        RelayTail(Next(t, Resume(i, k, t.c.bufs[i].size)), i, k, turns[1..]);
        assert forall p :: 0 <= p < |turns| - 1 ==> turns[1..][p] == turns[p + 1];
      }
    } else if turns != [] {
      RelayEmpty(s, i, k, turns);
    }
  }

  lemma RelayEmpty(s: Crowd, i: nat, k: Key, turns: seq<Turn>)
    requires Queue(s, i) && s.asleep[i] == 0 && turns != []
    ensures Relay(s, i, k, turns).asleep[i] == 0
  {
    var a := Made(i, turns[0]);
    NextAt(s, a, i);
  }

  /**
   The whole queue.  Of n tasks asleep on a held buffer, noted by B_WANTED, the first is woken by whatever way the
   holder gives the buffer up.  All are woken exactly if each of the next n - 1 holders gives it up by a synchronous
   write and it is still valid then: not B_INVAL at first, and no write before the last has failed.
   */
  lemma RelayExact(s: Crowd, i: nat, k: Key, turns: seq<Turn>)
    requires Queue(s, i) && s.c.bufs[i].flags.wanted && 0 < s.asleep[i] <= |turns|
    ensures Relay(s, i, k, turns).asleep[i] == 0 <==>
            s.asleep[i] == 1 ||
            (&& !s.c.bufs[i].flags.inval
             && (forall p :: 1 <= p < s.asleep[i] ==> turns[p].Write?)
             && (forall p :: 0 <= p < s.asleep[i] - 1 ==> Clean(turns[p])))
  {
    hide Next;
    OneTurn(s, i, k, turns[0]);
    var t := Next(s, Do(Made(i, turns[0])));
    RelayTail(Next(t, Resume(i, k, t.c.bufs[i].size)), i, k, turns[1..]);
    var n := s.asleep[i];
    assert forall p :: 0 <= p < |turns| - 1 ==> turns[1..][p] == turns[p + 1];
    assert forall p :: 1 <= p < n ==> turns[p] == turns[1..][p - 1];
  }
}
