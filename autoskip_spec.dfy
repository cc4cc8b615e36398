/**
 * The frame-sampling and matching pipeline of the autoskip analysis, as values.
 *
 * One `State` holds what the program keeps between the decoder's callbacks and the
 * analysis loop: the single "current" buffer slot, the alternate-frame counter, the
 * handoff queue, the loop's frame number, which buffers exist and which were disposed,
 * the cancellation flag and a log of the raised `MatchFound` events. Every callback of
 * the decoder and every turn of the analysis loop is one step function below; a real
 * run, with its two threads, is an arbitrary sequence of these steps (`Run`).
 */
module AutoskipSpec {
  import opened Wrappers
  import Stride

  /** A frame buffer: one memory-mapped file with its view accessor, by identity. */
  type BufferId = nat

  /**
   * The exact comparer applied to the picture the decoder wrote into a buffer and to the
   * reference image (given as the profile's encoded bytes): its total normalised difference.
   */
  type Comparator = (BufferId, Bytes) -> real

  /** A frame matches when its normalised difference is strictly below this. */
  const MatchThreshold: real := 0.05

  const Int64Min: int := -0x8000_0000_0000_0000
  const Int64Max: int := 0x7FFF_FFFF_FFFF_FFFF
  const Int32Min: int := -0x8000_0000
  const Int32Max: int := 0x7FFF_FFFF

  predicate InLong(x: int) { Int64Min <= x <= Int64Max }
  predicate InInt32(x: int) { Int32Min <= x <= Int32Max }

  /** `x++` on a C# `long`, which wraps from the largest value to the smallest. */
  function Inc64(x: int): (r: int)
    requires InLong(x)
    ensures InLong(r)
    ensures x < Int64Max ==> r == x + 1
    ensures x == Int64Max ==> r == Int64Min
  {
    if x == Int64Max then Int64Min else x + 1
  }

  /** `x++` on a C# `int`. */
  function Inc32(x: int): (r: int)
    requires InInt32(x)
    ensures InInt32(r)
    ensures x < Int32Max ==> r == x + 1
    ensures x == Int32Max ==> r == Int32Min
  {
    if x == Int32Max then Int32Min else x + 1
  }

  /**
   * `FrameCounter % 2 == 0`. C# truncates the remainder toward zero and Dafny does not,
   * but both remainders are zero for exactly the even numbers.
   */
  predicate Even(c: int) { c % 2 == 0 }

  /** Incrementing the frame counter flips its parity, also where it wraps around. */
  lemma Inc64FlipsParity(x: int)
    requires InLong(x)
    ensures Even(Inc64(x)) <==> !Even(x)
  {
  }

  datatype State = State(
    current: Option<BufferId>,    // CurrentMappedFile and CurrentMappedViewAccessor
    frameCounter: int,            // FrameCounter, a static long
    queue: seq<BufferId>,         // FilesToProcess, head first
    frameNumber: int,             // the analysis loop's frameNumber
    sizes: map<BufferId, nat>,    // every buffer ever created, with its size in bytes
    released: set<BufferId>,      // buffers whose Dispose has been called
    cancelled: bool,              // no analysis loop is running (its token is cancelled)
    stopRequests: nat,            // calls of Stop on the analysis player
    hasPlayer: bool,              // mediaPlayer is not null
    matches: seq<int>,            // one entry per raised MatchFound: the frame number
    reference: Bytes,             // introScreenshot
    nextId: BufferId,             // identity of the next buffer to be created
    abandoned: set<BufferId>,     // buffers dropped from the slot without Dispose
    enqueued: seq<BufferId>,      // history: every buffer ever enqueued, in order
    processed: seq<BufferId>)     // history: every buffer ever dequeued, in order

  /** The program's state before any frame has been decoded and before any grab. */
  function Initial(): (s: State)
    ensures |s.sizes| == 0 && |s.enqueued| == 0 && s.current.None? && s.frameCounter == 0
    ensures s.cancelled && !s.hasPlayer && s.stopRequests == 0 && |s.matches| == 0
  {
    State(None, 0, [], 0, map[], {}, true, 0, false, [], [], 0, {}, [], [])
  }

  predicate NoDup(q: seq<BufferId>)
  {
    forall i, j :: 0 <= i < j < |q| ==> q[i] != q[j]
  }

  /** `id` is held somewhere: disposed, queued, in the slot or abandoned. */
  ghost predicate Held(s: State, id: BufferId)
  {
    id in s.released || id in s.queue || s.current == Some(id) || id in s.abandoned
  }

  /** `id` is held in exactly one of those four places. */
  ghost predicate HeldOnce(s: State, id: BufferId)
  {
    var r, q, c, a := id in s.released, id in s.queue, s.current == Some(id), id in s.abandoned;
    && (r || q || c || a)
    && !(r && q) && !(r && c) && !(r && a)
    && !(q && c) && !(q && a) && !(c && a)
  }

  /**
   * The pipeline's invariant: counters stay in their C# ranges, every buffer has the
   * size `Lock` gives it, the queue is the not-yet-dequeued suffix of the enqueue history
   * (FIFO, no buffer twice), and every buffer ever created is in exactly one place of
   * ownership.
   */
  ghost predicate Inv(s: State)
  {
    && InLong(s.frameCounter) && InInt32(s.frameNumber)
    && (forall id :: id in s.sizes ==> id < s.nextId && s.sizes[id] == Stride.BufferSize as nat)
    && s.enqueued == s.processed + s.queue
    && NoDup(s.enqueued)
    && (forall i :: 0 <= i < |s.processed| ==> s.processed[i] in s.released)
    && (forall id :: id in s.sizes ==> HeldOnce(s, id))
    && (forall id :: Held(s, id) ==> id in s.sizes)
  }

  /** `Lock`: a new buffer of `Pitch * Lines` bytes is created and put into the slot. */
  function Lock(s: State): (t: State)
    ensures t.current.Some? && t.current.value in t.sizes && t.sizes[t.current.value] == Stride.BufferSize as nat
    ensures s.current.Some? ==> s.current.value in t.abandoned
    ensures t.queue == s.queue && t.released == s.released && t.frameCounter == s.frameCounter
  {
    var id := s.nextId;
    s.(current := Some(id),
       sizes := s.sizes[id := Stride.BufferSize as nat],
       nextId := id + 1,
       abandoned := if s.current.Some? then s.abandoned + {s.current.value} else s.abandoned)
  }

  /**
   * `Display`: on an even counter the slot's buffer goes to the tail of the queue, on an
   * odd one it is disposed; the slot is emptied and the counter incremented either way.
   */
  function Display(s: State): (t: State)
    requires s.current.Some? && InLong(s.frameCounter)
    ensures InLong(t.frameCounter) && t.frameNumber == s.frameNumber
  {
    var id := s.current.value;
    var even := Even(s.frameCounter);
    s.(queue := if even then s.queue + [id] else s.queue,
       enqueued := if even then s.enqueued + [id] else s.enqueued,
       released := if even then s.released else s.released + {id},
       current := None,
       frameCounter := Inc64(s.frameCounter))
  }

  /**
   * One turn of `CompareFrames`. A cancelled loop does nothing; on an empty queue it waits.
   * Otherwise it dequeues the head, compares it with the reference, and on a difference
   * below the threshold raises `MatchFound`, disposes the buffer and stops the player;
   * then it disposes the buffer (a second disposal, on a match, changes nothing) and
   * counts the frame.
   */
  function CompareStep(s: State, cmp: Comparator): (t: State)
    requires InInt32(s.frameNumber)
    ensures InInt32(t.frameNumber) && t.frameCounter == s.frameCounter
  {
    if s.cancelled || |s.queue| == 0 then s
    else
      var file := s.queue[0];
      var matched := cmp(file, s.reference) < MatchThreshold;
      s.(queue := s.queue[1..],
         processed := s.processed + [file],
         released := s.released + {file},
         matches := if matched then s.matches + [s.frameNumber] else s.matches,
         stopRequests := if matched then s.stopRequests + 1 else s.stopRequests,
         frameNumber := Inc32(s.frameNumber))
  }

  /** The analysis player reports Stopped: the loop's token is cancelled. */
  function Stopped(s: State): (t: State)
    ensures t.cancelled
    ensures t.queue == s.queue && t.released == s.released && t.current == s.current
    ensures t.stopRequests == s.stopRequests && t.matches == s.matches
  {
    s.(cancelled := true)
  }

  /** The public `introScreenshot` field is assigned. */
  function SetReference(s: State, reference: Bytes): (t: State)
    ensures t.reference == reference
    ensures t.queue == s.queue && t.current == s.current && t.cancelled == s.cancelled
    ensures t.frameNumber == s.frameNumber && t.stopRequests == s.stopRequests
  {
    s.(reference := reference)
  }

  /**
   * `StartGrab` with the reference already handed over: the first grab creates the
   * analysis player, a later one stops the existing player first; then a fresh token and
   * a fresh analysis loop whose frame number starts at 0. The slot, the frame counter and
   * the queue are static and are left as they are.
   */
  function StartGrab(s: State, reference: Bytes): (t: State)
    ensures !t.cancelled && t.frameNumber == 0 && t.reference == reference && t.hasPlayer
    ensures t.stopRequests == s.stopRequests + 1 <==> s.hasPlayer
    ensures t.stopRequests >= s.stopRequests
    ensures t.queue == s.queue && t.current == s.current && t.frameCounter == s.frameCounter
    ensures t.released == s.released && t.matches == s.matches
  {
    s.(stopRequests := if s.hasPlayer then s.stopRequests + 1 else s.stopRequests,
       hasPlayer := true,
       reference := reference, cancelled := false, frameNumber := 0)
  }

  // ---------------------------------------------------------------------------------
  // Each step keeps the invariant.

  lemma InitialInv()
    ensures Inv(Initial())
  {
  }

  lemma LockInv(s: State)
    requires Inv(s)
    ensures Inv(Lock(s))
  {
    var t := Lock(s);
    assert s.nextId !in s.sizes;
    assert !Held(s, s.nextId);
    forall id | id in t.sizes ensures HeldOnce(t, id) {
      if id != s.nextId {
        assert id in s.sizes;
        assert HeldOnce(s, id);
      }
    }
    forall id | Held(t, id) ensures id in t.sizes {
      if id != s.nextId {
        assert Held(s, id);
      }
    }
  }

  lemma DisplayInv(s: State)
    requires Inv(s) && s.current.Some?
    ensures Inv(Display(s))
  {
    var t := Display(s);
    var id := s.current.value;
    assert HeldOnce(s, id);
    if Even(s.frameCounter) {
      assert t.enqueued == t.processed + t.queue;
      forall i | 0 <= i < |s.enqueued| ensures s.enqueued[i] != id {
        assert s.enqueued[i] in s.processed || s.enqueued[i] in s.queue;
      }
    }
    forall x | x in t.sizes ensures HeldOnce(t, x) {
      assert HeldOnce(s, x);
    }
    forall x | Held(t, x) ensures x in t.sizes {
      if x != id { assert Held(s, x); }
    }
  }

  lemma CompareStepInv(s: State, cmp: Comparator)
    requires Inv(s)
    ensures Inv(CompareStep(s, cmp))
  {
    if !s.cancelled && |s.queue| > 0 {
      var t := CompareStep(s, cmp);
      var file := s.queue[0];
      assert s.queue == [file] + t.queue;
      assert t.enqueued == t.processed + t.queue;
      forall i | 0 <= i < |t.queue| ensures t.queue[i] != file {
        assert s.enqueued[|s.processed|] == file;
        assert s.enqueued[|s.processed| + 1 + i] == t.queue[i];
      }
      assert file !in t.queue;
      forall x | x in t.sizes ensures HeldOnce(t, x) {
        assert HeldOnce(s, x);
      }
      forall x | Held(t, x) ensures x in t.sizes {
        if x != file { assert Held(s, x); }
      }
    }
  }

  lemma StoppedInv(s: State)
    requires Inv(s)
    ensures Inv(Stopped(s))
  {
    var t := Stopped(s);
    forall x | x in t.sizes ensures HeldOnce(t, x) { assert HeldOnce(s, x); }
    forall x | Held(t, x) ensures x in t.sizes { assert Held(s, x); }
  }

  lemma SetReferenceInv(s: State, reference: Bytes)
    requires Inv(s)
    ensures Inv(SetReference(s, reference))
  {
    var t := SetReference(s, reference);
    forall x | x in t.sizes ensures HeldOnce(t, x) { assert HeldOnce(s, x); }
    forall x | Held(t, x) ensures x in t.sizes { assert Held(s, x); }
  }

  lemma StartGrabInv(s: State, reference: Bytes)
    requires Inv(s)
    ensures Inv(StartGrab(s, reference))
  {
    var t := StartGrab(s, reference);
    forall x | x in t.sizes ensures HeldOnce(t, x) { assert HeldOnce(s, x); }
    forall x | Held(t, x) ensures x in t.sizes { assert Held(s, x); }
  }

  // ---------------------------------------------------------------------------------
  // Runs: the decoder thread and the analysis loop interleaved one atomic step at a time.

  datatype Event = LockEvent | DisplayEvent | CompareEvent | StoppedEvent | GrabEvent(reference: Bytes)

  /** The counters are within their C# types. */
  predicate Ranges(s: State) { InLong(s.frameCounter) && InInt32(s.frameNumber) }

  /** The decoder calls `Display` only for a picture it has locked. */
  predicate Enabled(s: State, e: Event) { e.DisplayEvent? ==> s.current.Some? }

  function Next(s: State, e: Event, cmp: Comparator): (t: State)
    requires Ranges(s) && Enabled(s, e)
    ensures Ranges(t)
  {
    match e
    case LockEvent => Lock(s)
    case DisplayEvent => Display(s)
    case CompareEvent => CompareStep(s, cmp)
    case StoppedEvent => Stopped(s)
    case GrabEvent(reference) => StartGrab(s, reference)
  }

  /** Every step of `es` is enabled where it is taken. */
  predicate Feasible(s: State, es: seq<Event>, cmp: Comparator)
    requires Ranges(s)
    decreases |es|
  {
    |es| == 0 || (Enabled(s, es[0]) && Feasible(Next(s, es[0], cmp), es[1..], cmp))
  }

  function Run(s: State, es: seq<Event>, cmp: Comparator): (t: State)
    requires Ranges(s) && Feasible(s, es, cmp)
    ensures Ranges(t)
    decreases |es|
  {
    if |es| == 0 then s else Run(Next(s, es[0], cmp), es[1..], cmp)
  }

  predicate Prefix<T(==)>(a: seq<T>, b: seq<T>) { |a| <= |b| && b[..|a|] == a }

  lemma PrefixTrans<T>(a: seq<T>, b: seq<T>, c: seq<T>)
    requires Prefix(a, b) && Prefix(b, c)
    ensures Prefix(a, c)
  {
    assert c[..|a|] == c[..|b|][..|a|];
  }

  lemma NextInv(s: State, e: Event, cmp: Comparator)
    requires Inv(s) && Enabled(s, e)
    ensures Inv(Next(s, e, cmp))
  {
    match e
    case LockEvent => LockInv(s);
    case DisplayEvent => DisplayInv(s);
    case CompareEvent => CompareStepInv(s, cmp);
    case StoppedEvent => StoppedInv(s);
    case GrabEvent(reference) => StartGrabInv(s, reference);
  }

  /** One step only adds to the histories, the disposals and the buffers created. */
  lemma NextGrows(s: State, e: Event, cmp: Comparator)
    requires Ranges(s) && Enabled(s, e)
    ensures var t := Next(s, e, cmp);
      && Prefix(s.enqueued, t.enqueued) && Prefix(s.processed, t.processed)
      && Prefix(s.matches, t.matches) && s.released <= t.released
      && s.sizes.Keys <= t.sizes.Keys && s.stopRequests <= t.stopRequests
  {
    var t := Next(s, e, cmp);
    assert t.enqueued[..|s.enqueued|] == s.enqueued;
    assert t.processed[..|s.processed|] == s.processed;
    assert t.matches[..|s.matches|] == s.matches;
  }

  /**
   * Along any interleaving the invariant holds, so buffers leave the queue in the order
   * they entered it, none twice, and every buffer ever created is in exactly one place;
   * the histories only grow.
   */
  lemma {:induction false} RunInv(s: State, es: seq<Event>, cmp: Comparator)
    requires Inv(s) && Feasible(s, es, cmp)
    ensures var t := Run(s, es, cmp);
      && Inv(t)
      && Prefix(t.processed, t.enqueued) && NoDup(t.enqueued)
      && Prefix(s.enqueued, t.enqueued) && Prefix(s.processed, t.processed)
      && Prefix(s.matches, t.matches) && s.released <= t.released
      && s.stopRequests <= t.stopRequests
    decreases |es|
  {
    if |es| > 0 {
      var u := Next(s, es[0], cmp);
      NextInv(s, es[0], cmp);
      NextGrows(s, es[0], cmp);
      RunInv(u, es[1..], cmp);
      var t := Run(s, es, cmp);
      PrefixTrans(s.enqueued, u.enqueued, t.enqueued);
      PrefixTrans(s.processed, u.processed, t.processed);
      PrefixTrans(s.matches, u.matches, t.matches);
    } else {
      assert s.enqueued[..|s.processed|] == s.processed;
    }
  }

  // ---------------------------------------------------------------------------------
  // The alternate-frame decimator.

  /** One decoded picture: `Lock` followed by `Display`. */
  function Frame(s: State): (t: State)
    requires InLong(s.frameCounter)
    ensures InLong(t.frameCounter)
  {
    Display(Lock(s))
  }

  /** `k` decoded pictures in a row. */
  function Frames(s: State, k: nat): (t: State)
    requires InLong(s.frameCounter)
    ensures InLong(t.frameCounter)
    decreases k
  {
    if k == 0 then s else Frames(Frame(s), k - 1)
  }

  /**
   * How many of `k` pictures the decimator forwards when the first of them meets an even
   * counter (`even`) or an odd one: every other picture, starting with the even ones.
   */
  function Forwarded(even: bool, k: nat): (n: nat)
    ensures n <= k
    decreases k
  {
    if k == 0 then 0 else (if even then 1 else 0) + Forwarded(!even, k - 1)
  }

  /** The forwarded count in closed form: ceil(k/2) from an even counter, floor(k/2) otherwise. */
  lemma {:induction false} ForwardedClosedForm(even: bool, k: nat)
    ensures Forwarded(even, k) == if even then (k + 1) / 2 else k / 2
    decreases k
  {
    if k > 0 {
      ForwardedClosedForm(!even, k - 1);
    }
  }

  lemma ParityStep(k: int)
    ensures Even(k) <==> !Even(k - 1)
  {
  }

  /** Buffers not yet created have not been disposed either. */
  predicate FreshIds(s: State)
  {
    forall id :: id in s.released ==> id < s.nextId
  }

  lemma InvFreshIds(s: State)
    requires Inv(s)
    ensures FreshIds(s)
  {
    forall id | id in s.released ensures id < s.nextId {
      assert Held(s, id);
    }
  }

  /** One decoded picture: forwarded on an even counter, disposed on an odd one. */
  lemma FrameEffect(s: State)
    requires InLong(s.frameCounter) && FreshIds(s)
    ensures var u := Frame(s);
      && FreshIds(u) && u.current.None?
      && (Even(s.frameCounter) ==> u.queue == s.queue + [s.nextId] && u.released == s.released)
      && (!Even(s.frameCounter) ==>
            u.queue == s.queue && u.released == s.released + {s.nextId} && s.nextId !in s.released)
      && (Even(u.frameCounter) <==> !Even(s.frameCounter))
  {
    Inc64FlipsParity(s.frameCounter);
  }

  /** `k` decoded pictures keep the invariant and leave the analysis side alone. */
  lemma {:induction false} FramesInv(s: State, k: nat)
    requires Inv(s) && s.current.None?
    ensures var t := Frames(s, k);
      && Inv(t) && t.current.None?
      && t.processed == s.processed && t.matches == s.matches
      && t.frameNumber == s.frameNumber && t.cancelled == s.cancelled
    decreases k
  {
    if k > 0 {
      LockInv(s);
      DisplayInv(Lock(s));
      FramesInv(Frame(s), k - 1);
    }
  }

  /** Over `k` decoded pictures, `Forwarded(c, k)` new buffers join the tail of the queue. */
  lemma {:induction false} FramesQueue(s: State, k: nat)
    requires InLong(s.frameCounter) && FreshIds(s)
    ensures var t := Frames(s, k);
      && |t.queue| == |s.queue| + Forwarded(Even(s.frameCounter), k)
      && t.queue[..|s.queue|] == s.queue
    decreases k
  {
    if k == 0 {
      assert s.queue[..|s.queue|] == s.queue;
    } else {
      var u := Frame(s);
      FrameEffect(s);
      FramesQueue(u, k - 1);
      var t := Frames(u, k - 1);
      assert t.queue[..|s.queue|] == t.queue[..|u.queue|][..|s.queue|];
    }
  }

  /** Over `k` decoded pictures the ones not forwarded are disposed, and parity follows `k`. */
  lemma {:induction false} FramesReleased(s: State, k: nat)
    requires InLong(s.frameCounter) && FreshIds(s)
    ensures var t := Frames(s, k);
      && s.released <= t.released
      && |t.released| == |s.released| + (k - Forwarded(Even(s.frameCounter), k))
      && (Even(t.frameCounter) <==> (Even(s.frameCounter) <==> Even(k)))
    decreases k
  {
    if k > 0 {
      var u := Frame(s);
      FrameEffect(s);
      FramesReleased(u, k - 1);
      ParityStep(k);
    }
  }

  /**
   * Over `k` decoded pictures the decimator appends `Forwarded(c, k)` new buffers to the
   * tail of the queue, leaving the earlier entries alone, and disposes the other ones.
   * From counter 0 that is ceil(k/2) enqueued and floor(k/2) disposed.
   */
  lemma FramesCount(s: State, k: nat)
    requires InLong(s.frameCounter) && FreshIds(s)
    ensures var t := Frames(s, k);
      && |t.queue| == |s.queue| + Forwarded(Even(s.frameCounter), k)
      && t.queue[..|s.queue|] == s.queue
      && s.released <= t.released
      && |t.released| == |s.released| + (k - Forwarded(Even(s.frameCounter), k))
      && (Even(t.frameCounter) <==> (Even(s.frameCounter) <==> Even(k)))
  {
    FramesQueue(s, k);
    FramesReleased(s, k);
  }

  /** From a fresh start, `k` pictures put ceil(k/2) buffers in the queue. */
  lemma FramesFromStart(k: nat)
    ensures |Frames(Initial(), k).queue| == (k + 1) / 2
    ensures |Frames(Initial(), k).released| == k / 2
  {
    FramesCount(Initial(), k);
    ForwardedClosedForm(true, k);
  }

  // ---------------------------------------------------------------------------------
  // The analysis loop.

  /** `n` turns of the analysis loop with nothing else happening in between. */
  function CompareSteps(s: State, cmp: Comparator, n: nat): (t: State)
    requires InInt32(s.frameNumber)
    ensures InInt32(t.frameNumber)
    decreases n
  {
    if n == 0 then s else CompareSteps(CompareStep(s, cmp), cmp, n - 1)
  }

  /** `n + 1` turns are `n` turns followed by one more. */
  lemma {:induction false} CompareStepsSnoc(s: State, cmp: Comparator, n: nat)
    requires InInt32(s.frameNumber)
    ensures CompareSteps(s, cmp, n + 1) == CompareStep(CompareSteps(s, cmp, n), cmp)
    decreases n
  {
    if n > 0 {
      CompareStepsSnoc(CompareStep(s, cmp), cmp, n - 1);
    }
  }

  /**
   * The frame numbers for which `MatchFound` is raised when `files` are compared in order,
   * the first of them being frame `first`.
   */
  function MatchLog(files: seq<BufferId>, first: int, cmp: Comparator, reference: Bytes): (log: seq<int>)
    requires InInt32(first)
    ensures |log| <= |files|
  {
    if |files| == 0 then []
    else
      (if cmp(files[0], reference) < MatchThreshold then [first] else [])
      + MatchLog(files[1..], Inc32(first), cmp, reference)
  }

  /** No event is raised exactly when every compared frame is at or above the threshold. */
  lemma {:induction false} MatchLogEmpty(files: seq<BufferId>, first: int, cmp: Comparator, reference: Bytes)
    requires InInt32(first)
    ensures MatchLog(files, first, cmp, reference) == []
        <==> forall i :: 0 <= i < |files| ==> cmp(files[i], reference) >= MatchThreshold
  {
    if |files| > 0 {
      MatchLogEmpty(files[1..], Inc32(first), cmp, reference);
      assert forall i :: 1 <= i < |files| ==> files[i] == files[1..][i - 1];
    }
  }

  /** Comparing a non-empty run of files: the head's event, if any, then the rest's. */
  lemma MatchLogCons(files: seq<BufferId>, first: int, cmp: Comparator, reference: Bytes)
    requires InInt32(first) && |files| > 0
    ensures MatchLog(files, first, cmp, reference)
         == (if cmp(files[0], reference) < MatchThreshold then [first] else [])
            + MatchLog(files[1..], Inc32(first), cmp, reference)
  {
  }

  /**
   * While not cancelled, `n` turns dequeue the first `n` queued buffers in order and count
   * each of them as processed.
   */
  lemma {:induction false} CompareStepsQueue(s: State, cmp: Comparator, n: nat)
    requires InInt32(s.frameNumber) && !s.cancelled && n <= |s.queue|
    ensures var t := CompareSteps(s, cmp, n);
      t.processed == s.processed + s.queue[..n] && t.queue == s.queue[n..]
    decreases n
  {
    if n > 0 {
      var u := CompareStep(s, cmp);
      CompareStepDequeues(s, cmp);
      CompareStepsQueue(u, cmp, n - 1);
      var t := CompareSteps(u, cmp, n - 1);
      assert CompareSteps(s, cmp, n) == t;
      assert u.queue[..n - 1] == s.queue[1..n];
      assert s.queue[..n] == [s.queue[0]] + s.queue[1..n];
      assert t.processed == s.processed + ([s.queue[0]] + s.queue[1..n]);
      assert u.queue[n - 1..] == s.queue[n..];
    } else {
      assert s.queue[..0] == [];
      assert s.queue[0..] == s.queue;
    }
  }

  /**
   * The same `n` turns raise `MatchFound` (and request a stop) for exactly the
   * below-threshold ones among those buffers, numbered from the current frame number.
   */
  lemma {:induction false} CompareStepsMatches(s: State, cmp: Comparator, n: nat)
    requires InInt32(s.frameNumber) && !s.cancelled && n <= |s.queue|
    ensures var t := CompareSteps(s, cmp, n);
      var log := MatchLog(s.queue[..n], s.frameNumber, cmp, s.reference);
      t.matches == s.matches + log && t.stopRequests == s.stopRequests + |log|
    decreases n
  {
    if n > 0 {
      var u := CompareStep(s, cmp);
      CompareStepMatchIff(s, cmp);
      CompareStepsMatches(u, cmp, n - 1);
      assert s.queue[..n][1..] == u.queue[..n - 1];
      MatchLogCons(s.queue[..n], s.frameNumber, cmp, s.reference);
    }
  }

  /** Both of the above, together. */
  lemma CompareStepsEffect(s: State, cmp: Comparator, n: nat)
    requires InInt32(s.frameNumber) && !s.cancelled && n <= |s.queue|
    ensures var t := CompareSteps(s, cmp, n);
      var log := MatchLog(s.queue[..n], s.frameNumber, cmp, s.reference);
      && t.processed == s.processed + s.queue[..n]
      && t.queue == s.queue[n..]
      && t.matches == s.matches + log
      && t.stopRequests == s.stopRequests + |log|
  {
    CompareStepsQueue(s, cmp, n);
    CompareStepsMatches(s, cmp, n);
  }

  /**
   * The same `n` turns dispose exactly the `n` dequeued buffers, keep the session going
   * and leave the decoder's side of the state alone.
   */
  lemma {:induction false} CompareStepsFrame(s: State, cmp: Comparator, n: nat)
    requires InInt32(s.frameNumber) && !s.cancelled && n <= |s.queue|
    ensures var t := CompareSteps(s, cmp, n);
      && s.released <= t.released
      && (forall i :: 0 <= i < n ==> s.queue[i] in t.released)
      && (forall x :: x in t.released ==> x in s.released || x in s.queue[..n])
      && !t.cancelled && t.reference == s.reference
      && t.frameCounter == s.frameCounter && t.current == s.current && t.sizes == s.sizes
      && |t.queue| == |s.queue| - n && (n < |s.queue| ==> t.queue[0] == s.queue[n])
    decreases n
  {
    if n > 0 {
      var u := CompareStep(s, cmp);
      CompareStepMatchIff(s, cmp);
      CompareStepsFrame(u, cmp, n - 1);
      var t := CompareSteps(u, cmp, n - 1);
      forall i | 0 <= i < n ensures s.queue[i] in t.released {
        if i > 0 { assert s.queue[i] == u.queue[i - 1]; }
      }
      forall x | x in t.released ensures x in s.released || x in s.queue[..n] {
        if x !in u.released {
          assert x in u.queue[..n - 1];
          assert u.queue[..n - 1] == s.queue[1..n];
        }
      }
    }
  }

  /** A frame raises `MatchFound`, and asks the player to stop, iff it is below 0.05. */
  lemma CompareStepMatchIff(s: State, cmp: Comparator)
    requires InInt32(s.frameNumber) && !s.cancelled && |s.queue| > 0
    ensures var t := CompareStep(s, cmp);
      var below := cmp(s.queue[0], s.reference) < MatchThreshold;
      && (below ==> t.matches == s.matches + [s.frameNumber] && t.stopRequests == s.stopRequests + 1)
      && (!below ==> t.matches == s.matches && t.stopRequests == s.stopRequests)
      && t.queue == s.queue[1..] && t.processed == s.processed + [s.queue[0]]
      && t.released == s.released + {s.queue[0]} && t.frameNumber == Inc32(s.frameNumber)
  {
  }

  /** A turn that dequeues moves the head of the queue to the processed history. */
  lemma CompareStepDequeues(s: State, cmp: Comparator)
    requires InInt32(s.frameNumber) && !s.cancelled && |s.queue| > 0
    ensures var t := CompareStep(s, cmp);
      t.queue == s.queue[1..] && t.processed == s.processed + [s.queue[0]] && !t.cancelled
  {
  }

  /** With an empty queue, or once cancelled, a turn dequeues nothing and changes nothing. */
  lemma IdleCompareStep(s: State, cmp: Comparator)
    requires InInt32(s.frameNumber) && (s.cancelled || |s.queue| == 0)
    ensures CompareStep(s, cmp) == s
  {
  }

  /**
   * Nothing gates `MatchFound`: two below-threshold frames dequeued before the Stopped
   * report arrives raise it twice and ask for two stops.
   */
  lemma RepeatedMatch(s: State, cmp: Comparator)
    requires InInt32(s.frameNumber) && !s.cancelled && |s.queue| >= 2
    requires cmp(s.queue[0], s.reference) < MatchThreshold
    requires cmp(s.queue[1], s.reference) < MatchThreshold
    ensures var t := CompareStep(CompareStep(s, cmp), cmp);
      t.matches == s.matches + [s.frameNumber, Inc32(s.frameNumber)]
      && t.stopRequests == s.stopRequests + 2
  {
    var u := CompareStep(s, cmp);
    assert u.queue[0] == s.queue[1];
  }

  // ---------------------------------------------------------------------------------
  // Cancellation and sessions.

  predicate NoGrab(es: seq<Event>) { forall i :: 0 <= i < |es| ==> !es[i].GrabEvent? }

  /**
   * Once cancelled, and until the next `StartGrab`, the loop dequeues and compares
   * nothing, raises no event and disposes nothing that is queued: the queue is not
   * drained, it can only grow.
   */
  lemma {:induction false} CancelledRun(s: State, es: seq<Event>, cmp: Comparator)
    requires Inv(s) && s.cancelled && NoGrab(es) && Feasible(s, es, cmp)
    ensures var t := Run(s, es, cmp);
      && t.cancelled
      && t.processed == s.processed && t.matches == s.matches
      && t.stopRequests == s.stopRequests
      && Prefix(s.queue, t.queue)
      && (forall i :: 0 <= i < |s.queue| ==> s.queue[i] !in t.released)
    decreases |es|
  {
    if |es| > 0 {
      var u := Next(s, es[0], cmp);
      NextInv(s, es[0], cmp);
      assert NoGrab(es[1..]) by {
        forall i | 0 <= i < |es[1..]| ensures !es[1..][i].GrabEvent? { assert es[1..][i] == es[i + 1]; }
      }
      assert !es[0].GrabEvent?;
      assert Prefix(s.queue, u.queue) by {
        assert u.queue[..|s.queue|] == s.queue;
      }
      forall i | 0 <= i < |s.queue| ensures s.queue[i] !in u.released {
        assert s.queue[i] in s.queue;
        assert HeldOnce(s, s.queue[i]);
        if es[0].DisplayEvent? {
          assert s.current != Some(s.queue[i]);
        }
      }
      CancelledRun(u, es[1..], cmp);
      var t := Run(s, es, cmp);
      PrefixTrans(s.queue, u.queue, t.queue);
      forall i | 0 <= i < |s.queue| ensures s.queue[i] !in t.released {
        assert s.queue[i] == u.queue[i];
      }
    } else {
      assert s.queue[..|s.queue|] == s.queue;
      forall i | 0 <= i < |s.queue| ensures s.queue[i] !in s.released {
        assert s.queue[i] in s.queue;
        assert HeldOnce(s, s.queue[i]);
      }
    }
  }

  /**
   * Nothing is reset between sessions: `StartGrab` keeps the frame counter, the slot and
   * the queue, so the first frame a new session compares is one left over from the
   * previous session when such a frame is queued.
   */
  lemma StaleFrameNextSession(s: State, reference: Bytes, cmp: Comparator)
    requires InInt32(s.frameNumber) && |s.queue| > 0
    ensures var g := StartGrab(s, reference);
      && g.frameCounter == s.frameCounter && g.queue == s.queue && g.current == s.current
      && g.frameNumber == 0 && !g.cancelled
      && CompareStep(g, cmp).processed == s.processed + [s.queue[0]]
  {
  }

  /**
   * The analysis player is created by the first grab and kept: the first grab stops
   * nothing, and every later grab stops the existing player once before it plays again.
   */
  lemma GrabStopsExistingPlayer(s: State, first: Bytes, second: Bytes)
    ensures StartGrab(Initial(), first).stopRequests == 0
    ensures var g := StartGrab(s, first);
      && g.hasPlayer
      && StartGrab(g, second).stopRequests == g.stopRequests + 1
  {
  }
}
