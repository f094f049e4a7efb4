// The bounded buffer of proxylab-handout/sbuf.c: every interleaving of any number of
// threads that enqueue and dequeue, one semaphore operation or shared access a step.
module BoundedBuffer {
  import opened Arith

  // Where a thread is.  x is the item to enqueue or just dequeued, i the index it works
  // on.  The names say what it does next.
  datatype Pc =
    | Idle
    // sbuf_enque
    | EWaitSlot(x: int)            // P(&sp->slots)
    | EWaitMutex(x: int)           // P(&sp->mutex)
    | EReadRear(x: int)            // read sp->rear
    | EBumpRear(x: int, i: int)    // store sp->rear + 1
    | EStore(x: int, i: int)       // store into sp->buf
    | EUnlock                      // V(&sp->mutex)
    | EPost                        // V(&sp->items)
    // sbuf_deque
    | DWaitItem                    // P(&sp->items)
    | DWaitMutex                   // P(&sp->mutex)
    | DReadFront                   // read sp->front
    | DBumpFront(i: int)           // store sp->front + 1
    | DLoad(i: int)                // load from sp->buf
    | DUnlock(x: int)              // V(&sp->mutex)
    | DPost(x: int)                // V(&sp->slots)

  // What an idle thread calls next.
  datatype Call = Enque(item: int) | Deque

  // The sbuf_t, the threads, and the items stored and loaded so far, in order.
  datatype State = State(n: nat, buf: seq<int>, front: int, rear: int, mutex: int, slots: int, items: int,
                         threads: seq<Pc>, stored: seq<int>, loaded: seq<int>)

  // sbuf_init, with any number of threads.
  function Init(n: nat, count: nat): State
  {
    State(n, seq(n, _ => 0), 0, 0, 1, n, 0, seq(count, _ => Idle), [], [])
  }

  // A thread waits in P on a semaphore that is 0.
  predicate Blocked(s: State, t: nat)
    requires t < |s.threads|
  {
    match s.threads[t]
      case EWaitSlot(_) => s.slots <= 0
      case EWaitMutex(_) => s.mutex <= 0
      case DWaitItem => s.items <= 0
      case DWaitMutex => s.mutex <= 0
      case _ => false
  }

  // C's index into the buffer.
  function Slot(s: State, i: int): int
    requires s.n > 0
  {
    i % s.n
  }

  // One step of thread t; a blocked thread stays where it is.
  function Step(s: State, t: nat, call: Call): State
    requires t < |s.threads| && s.n > 0 && |s.buf| == s.n
  {
    if Blocked(s, t) then s
    else
      var go := (pc: Pc) => s.threads[t := pc];
      match s.threads[t]
        case Idle => s.(threads := go(match call case Enque(x) => EWaitSlot(x) case Deque => DWaitItem))
        case EWaitSlot(x) => s.(slots := s.slots - 1, threads := go(EWaitMutex(x)))
        case EWaitMutex(x) => s.(mutex := s.mutex - 1, threads := go(EReadRear(x)))
        case EReadRear(x) => s.(threads := go(EBumpRear(x, s.rear)))
        case EBumpRear(x, i) => s.(rear := i + 1, threads := go(EStore(x, i)))
        case EStore(x, i) => s.(buf := s.buf[Slot(s, i) := x], stored := s.stored + [x], threads := go(EUnlock))
        case EUnlock => s.(mutex := s.mutex + 1, threads := go(EPost))
        case EPost => s.(items := s.items + 1, threads := go(Idle))
        case DWaitItem => s.(items := s.items - 1, threads := go(DWaitMutex))
        case DWaitMutex => s.(mutex := s.mutex - 1, threads := go(DReadFront))
        case DReadFront => s.(threads := go(DBumpFront(s.front)))
        case DBumpFront(i) => s.(front := i + 1, threads := go(DLoad(i)))
        case DLoad(i) =>
          var x := s.buf[Slot(s, i)];
          s.(loaded := s.loaded + [x], threads := go(DUnlock(x)))
        case DUnlock(x) => s.(mutex := s.mutex + 1, threads := go(DPost(x)))
        case DPost(_) => s.(slots := s.slots + 1, threads := go(Idle))
  }

  // -------------------------------------------------------------------- counting

  // Which threads hold the mutex.
  function Holds(pc: Pc): nat
  {
    if pc.EReadRear? || pc.EBumpRear? || pc.EStore? || pc.EUnlock? || pc.DReadFront? || pc.DBumpFront? ||
      pc.DLoad? || pc.DUnlock?
    then 1 else 0
  }

  // Past P(slots) and not yet stored; stored and not yet past V(items).
  function Storing(pc: Pc): nat { if pc.EWaitMutex? || pc.EReadRear? || pc.EBumpRear? || pc.EStore? then 1 else 0 }
  function Stored(pc: Pc): nat { if pc.EUnlock? || pc.EPost? then 1 else 0 }

  // Past P(items) and not yet loaded; loaded and not yet past V(slots).
  function Loading(pc: Pc): nat { if pc.DWaitMutex? || pc.DReadFront? || pc.DBumpFront? || pc.DLoad? then 1 else 0 }
  function Loaded(pc: Pc): nat { if pc.DUnlock? || pc.DPost? then 1 else 0 }

  // With the counter already moved and the access still to come.
  function RearAhead(pc: Pc): nat { if pc.EStore? then 1 else 0 }
  function FrontAhead(pc: Pc): nat { if pc.DLoad? then 1 else 0 }

  // In an operation, between its two semaphores.
  function InFlight(pc: Pc): nat { Storing(pc) + Stored(pc) + Loading(pc) + Loaded(pc) }

  function Count(ts: seq<Pc>, f: Pc -> nat): nat
  {
    if ts == [] then 0 else f(ts[0]) + Count(ts[1..], f)
  }

  lemma {:induction false} CountUpdate(ts: seq<Pc>, t: nat, pc: Pc, f: Pc -> nat)
    requires t < |ts|
    ensures Count(ts[t := pc], f) == Count(ts, f) - f(ts[t]) + f(pc)
    ensures Count(ts, f) >= f(ts[t])
    decreases |ts|
  {
    if t > 0 {
      assert ts[t := pc][1..] == ts[1..][t-1 := pc];
      CountUpdate(ts[1..], t - 1, pc, f);
    } else {
      assert ts[t := pc][1..] == ts[1..];
    }
  }

  lemma CountTwo(ts: seq<Pc>, t: nat, u: nat, f: Pc -> nat)
    requires t < |ts| && u < |ts| && t != u && f(Idle) == 0
    ensures Count(ts, f) >= f(ts[t]) + f(ts[u])
  {
    CountUpdate(ts, t, Idle, f);
    CountUpdate(ts[t := Idle], u, Idle, f);
  }

  lemma {:induction false} CountZero(ts: seq<Pc>, f: Pc -> nat)
    requires forall t | 0 <= t < |ts| :: f(ts[t]) == 0
    ensures Count(ts, f) == 0
  {
    if ts != [] { CountZero(ts[1..], f); }
  }

  lemma {:induction false} CountSum(ts: seq<Pc>)
    ensures Count(ts, InFlight) == Count(ts, Storing) + Count(ts, Stored) + Count(ts, Loading) + Count(ts, Loaded)
    ensures Count(ts, RearAhead) <= Count(ts, Storing) && Count(ts, FrontAhead) <= Count(ts, Loading)
  {
    if ts != [] { CountSum(ts[1..]); }
  }

  // ------------------------------------------------------------------- invariant

  // The counts: slots, items and operations under way add up to n; whoever holds the
  // mutex is alone; the semaphore values and counters say how far the operations are.
  ghost predicate Counts(s: State)
  {
    && s.n > 0 && |s.buf| == s.n
    && 0 <= s.slots && 0 <= s.items && 0 <= s.mutex
    && s.mutex + Count(s.threads, Holds) == 1
    && s.slots + s.items + Count(s.threads, Storing) + Count(s.threads, Stored)
       + Count(s.threads, Loading) + Count(s.threads, Loaded) == s.n
    && |s.stored| == |s.loaded| + s.items + Count(s.threads, Stored) + Count(s.threads, Loading)
    && s.rear == |s.stored| + Count(s.threads, RearAhead)
    && s.front == |s.loaded| + Count(s.threads, FrontAhead)
  }

  // What a thread in the middle of an access remembers.
  ghost predicate LocalOk(s: State, pc: Pc)
  {
    match pc
      case EBumpRear(_, i) => i == s.rear
      case EStore(_, i) => i == |s.stored|
      case DBumpFront(i) => i == s.front
      case DLoad(i) => i == |s.loaded|
      case _ => true
  }

  ghost predicate Locals(s: State)
  {
    forall t | 0 <= t < |s.threads| :: LocalOk(s, s.threads[t])
  }

  // The buffer holds the items stored and not yet loaded, and what was loaded is what
  // was stored, in order.
  ghost predicate Contents(s: State)
  {
    && s.n > 0 && |s.buf| == s.n && |s.loaded| <= |s.stored|
    && s.loaded == s.stored[..|s.loaded|]
    && forall k | |s.loaded| <= k < |s.stored| :: s.buf[Slot(s, k)] == s.stored[k]
  }

  ghost predicate Inv(s: State) { Counts(s) && Locals(s) && Contents(s) }

  lemma InitOk(n: nat, count: nat)
    requires n > 0
    ensures Inv(Init(n, count))
  {
    var ts := Init(n, count).threads;
    CountZero(ts, Holds);
    CountZero(ts, Storing);
    CountZero(ts, Stored);
    CountZero(ts, Loading);
    CountZero(ts, Loaded);
    CountZero(ts, RearAhead);
    CountZero(ts, FrontAhead);
  }

  // All counts after thread t moves to pc.
  lemma Move(ts: seq<Pc>, t: nat, pc: Pc)
    requires t < |ts|
    ensures var us := ts[t := pc];
      && Count(us, Holds) == Count(ts, Holds) - Holds(ts[t]) + Holds(pc)
      && Count(us, Storing) == Count(ts, Storing) - Storing(ts[t]) + Storing(pc)
      && Count(us, Stored) == Count(ts, Stored) - Stored(ts[t]) + Stored(pc)
      && Count(us, Loading) == Count(ts, Loading) - Loading(ts[t]) + Loading(pc)
      && Count(us, Loaded) == Count(ts, Loaded) - Loaded(ts[t]) + Loaded(pc)
      && Count(us, RearAhead) == Count(ts, RearAhead) - RearAhead(ts[t]) + RearAhead(pc)
      && Count(us, FrontAhead) == Count(ts, FrontAhead) - FrontAhead(ts[t]) + FrontAhead(pc)
    ensures Count(ts, Holds) >= Holds(ts[t]) && Count(ts, Storing) >= Storing(ts[t])
    ensures Count(ts, Loading) >= Loading(ts[t])
    ensures Count(ts, RearAhead) >= RearAhead(ts[t]) && Count(ts, FrontAhead) >= FrontAhead(ts[t])
  {
    CountUpdate(ts, t, pc, Holds);
    CountUpdate(ts, t, pc, Storing);
    CountUpdate(ts, t, pc, Stored);
    CountUpdate(ts, t, pc, Loading);
    CountUpdate(ts, t, pc, Loaded);
    CountUpdate(ts, t, pc, RearAhead);
    CountUpdate(ts, t, pc, FrontAhead);
  }

  // The mutex section is exclusive.
  lemma Exclusive(s: State, t: nat, u: nat)
    requires Counts(s) && t < |s.threads| && u < |s.threads| && Holds(s.threads[t]) == 1 && Holds(s.threads[u]) == 1
    ensures t == u
  {
    if t != u { CountTwo(s.threads, t, u, Holds); }
  }

  predicate InDeque(pc: Pc)
  {
    pc.DWaitItem? || pc.DWaitMutex? || pc.DReadFront? || pc.DBumpFront? || pc.DLoad? || pc.DUnlock? || pc.DPost?
  }

  lemma EnqueCounts(s: State, t: nat, call: Call)
    requires Counts(s) && t < |s.threads| && LocalOk(s, s.threads[t]) && !Blocked(s, t) && !InDeque(s.threads[t])
    ensures Counts(Step(s, t, call))
  {
    hide Count;
    var pc := Step(s, t, call).threads[t];
    assert Step(s, t, call).threads == s.threads[t := pc];
    Move(s.threads, t, pc);
  }

  lemma DequeCounts(s: State, t: nat, call: Call)
    requires Counts(s) && t < |s.threads| && LocalOk(s, s.threads[t]) && !Blocked(s, t) && InDeque(s.threads[t])
    ensures Counts(Step(s, t, call))
  {
    hide Count;
    var pc := Step(s, t, call).threads[t];
    assert Step(s, t, call).threads == s.threads[t := pc];
    Move(s.threads, t, pc);
  }

  lemma StepCounts(s: State, t: nat, call: Call)
    requires Counts(s) && Locals(s) && t < |s.threads|
    ensures Counts(Step(s, t, call))
  {
    hide Count, InDeque, LocalOk;
    assert LocalOk(s, s.threads[t]);
    if !Blocked(s, t) {
      if InDeque(s.threads[t]) { DequeCounts(s, t, call); } else { EnqueCounts(s, t, call); }
    }
  }

  // Only the thread in the mutex section changes what others remember, and there is no
  // other one there.
  lemma StepLocals(s: State, t: nat, call: Call)
    requires Counts(s) && Locals(s) && t < |s.threads|
    ensures Locals(Step(s, t, call))
  {
    hide Count, Counts;
    CountsShape(s);
    var s' := Step(s, t, call);
    forall u | 0 <= u < |s'.threads| ensures LocalOk(s', s'.threads[u]) {
      assert LocalOk(s, s.threads[u]) && LocalOk(s, s.threads[t]);
      if u == t {
        OwnLocal(s, t, call);
      } else if Holds(s.threads[t]) == 1 && Holds(s.threads[u]) == 1 {
        Exclusive(s, t, u);
      }
    }
  }

  lemma CountsShape(s: State)
    requires Counts(s)
    ensures s.n > 0 && |s.buf| == s.n
  {
  }

  lemma OwnLocal(s: State, t: nat, call: Call)
    requires Counts(s) && t < |s.threads| && LocalOk(s, s.threads[t])
    ensures LocalOk(Step(s, t, call), Step(s, t, call).threads[t])
  {
    hide Count;
    // a thread between the read and the store of a counter is the only one in the section
    NotAhead(s, t);
  }

  // If t holds the mutex, no other thread is between moving a counter and using it.
  lemma NotAhead(s: State, t: nat)
    requires Counts(s) && t < |s.threads|
    ensures s.threads[t].EReadRear? || s.threads[t].EBumpRear? ==> s.rear == |s.stored|
    ensures s.threads[t].DReadFront? || s.threads[t].DBumpFront? ==> s.front == |s.loaded|
  {
    if Holds(s.threads[t]) == 1 && RearAhead(s.threads[t]) + FrontAhead(s.threads[t]) == 0 {
      var us := s.threads[t := Idle];
      Move(s.threads, t, Idle);
      AheadHolds(us);
    }
  }

  lemma {:induction false} AheadHolds(ts: seq<Pc>)
    ensures Count(ts, RearAhead) + Count(ts, FrontAhead) <= Count(ts, Holds)
  {
    if ts != [] { AheadHolds(ts[1..]); }
  }

  // Distinct indices less than n apart use distinct slots.
  lemma SlotsDiffer(n: int, i: int, k: int)
    requires n > 0 && k < i < k + n
    ensures i % n != k % n
  {
    Quotient(i, n);
    Quotient(k, n);
    var d := i / n - k / n;
    assert i - k == d * n + (i % n - k % n);
    MulSign(d, n);
  }

  // The slot a producer is about to store into is free, and the item a consumer is
  // about to load has been stored and not loaded.
  lemma AccessIsSafe(s: State, t: nat)
    requires Counts(s) && Locals(s) && t < |s.threads|
    ensures s.threads[t].EStore? ==>
      |s.stored| - |s.loaded| < s.n
      && forall k | |s.loaded| <= k < |s.stored| :: Slot(s, k) != Slot(s, s.threads[t].i)
    ensures s.threads[t].DLoad? ==> s.threads[t].i == |s.loaded| < |s.stored|
  {
    hide Count;
    Move(s.threads, t, Idle);
    assert LocalOk(s, s.threads[t]);
    if s.threads[t].EStore? {
      forall k | |s.loaded| <= k < |s.stored| ensures Slot(s, k) != Slot(s, s.threads[t].i) {
        SlotsDiffer(s.n, |s.stored|, k);
      }
    }
  }

  lemma StepContents(s: State, t: nat, call: Call)
    requires Inv(s) && t < |s.threads|
    ensures Contents(Step(s, t, call))
  {
    hide Count, Counts;
    CountsShape(s);
    AccessIsSafe(s, t);
    var s' := Step(s, t, call);
    match s.threads[t]
      case EStore(x, i) =>
        assert LocalOk(s, s.threads[t]);
        assert s'.stored[..|s.loaded|] == s.stored[..|s.loaded|];
      case DLoad(i) =>
        assert s.stored[..|s.loaded| + 1] == s.stored[..|s.loaded|] + [s.stored[|s.loaded|]];
      case _ =>
        assert s'.stored == s.stored && s'.loaded == s.loaded && s'.buf == s.buf;
  }

  // ------------------------------------------------------------------------- runs

  // Any schedule of any threads and calls.
  function Run(s: State, schedule: seq<(nat, Call)>): (r: State)
    requires s.n > 0 && |s.buf| == s.n && forall e <- schedule :: e.0 < |s.threads|
    ensures r.n == s.n && |r.buf| == s.n && |r.threads| == |s.threads|
    decreases |schedule|
  {
    if schedule == [] then s
    else
      var last := schedule[|schedule|-1];
      var before := Run(s, schedule[..|schedule|-1]);
      assert last in schedule;
      Step(before, last.0, last.1)
  }

  // In every interleaving: the semaphores and the operations under way add up to n,
  // at most one thread is in the mutex section, rear stays between front and front + n,
  // and what was dequeued is the beginning of what was enqueued, in order, with the
  // rest in the buffer.
  lemma {:induction false} AlwaysOk(n: nat, count: nat, schedule: seq<(nat, Call)>)
    requires n > 0 && forall e <- schedule :: e.0 < count
    ensures Inv(Run(Init(n, count), schedule))
    decreases |schedule|
  {
    hide Counts, Locals, Contents, Step;
    if schedule == [] {
      InitOk(n, count);
    } else {
      var last := schedule[|schedule|-1];
      assert last in schedule;
      AlwaysOk(n, count, schedule[..|schedule|-1]);
      var s := Run(Init(n, count), schedule[..|schedule|-1]);
      StepCounts(s, last.0, last.1);
      StepLocals(s, last.0, last.1);
      StepContents(s, last.0, last.1);
    }
  }

  lemma Promises(n: nat, count: nat, schedule: seq<(nat, Call)>)
    requires n > 0 && forall e <- schedule :: e.0 < count
    ensures var s := Run(Init(n, count), schedule);
      && s.slots + s.items + Count(s.threads, InFlight) == n
      && 0 <= s.rear - s.front <= n
      && s.loaded <= s.stored && |s.stored| - |s.loaded| <= n
      && (forall t, u | 0 <= t < u < count :: Holds(s.threads[t]) + Holds(s.threads[u]) <= 1)
  {
    hide Step;
    AlwaysOk(n, count, schedule);
    var s := Run(Init(n, count), schedule);
    CountSum(s.threads);
    AheadHolds(s.threads);
    forall t, u | 0 <= t < u < count ensures Holds(s.threads[t]) + Holds(s.threads[u]) <= 1 {
      CountTwo(s.threads, t, u, Holds);
    }
  }

  // ------------------------------------------------------------- calls and answers

  // The item a thread was called with and has not stored yet.
  function Pending(pc: Pc): seq<int>
  {
    match pc
      case EWaitSlot(x) => [x]
      case EWaitMutex(x) => [x]
      case EReadRear(x) => [x]
      case EBumpRear(x, _) => [x]
      case EStore(x, _) => [x]
      case _ => []
  }

  // The item a thread has loaded and not handed to its caller yet.
  function Carried(pc: Pc): seq<int>
  {
    match pc
      case DUnlock(x) => [x]
      case DPost(x) => [x]
      case _ => []
  }

  // What a step of thread t shows to callers: the item of the enqueue it begins, the
  // item of the dequeue it ends.
  function Asked(s: State, t: nat, call: Call): seq<int>
    requires t < |s.threads|
  {
    if s.threads[t].Idle? && call.Enque? then [call.item] else []
  }

  function Answered(s: State, t: nat): seq<int>
    requires t < |s.threads|
  {
    if s.threads[t].DPost? then [s.threads[t].x] else []
  }

  // Everything that happened, with the thread that did it.
  datatype History = History(asked: seq<(nat, int)>, stores: seq<(nat, int)>, loads: seq<(nat, int)>,
                             answered: seq<(nat, int)>)

  function Tagged(t: nat, xs: seq<int>): seq<(nat, int)> { seq(|xs|, i requires 0 <= i < |xs| => (t, xs[i])) }

  // The items a step appended to a sequence.
  function New(before: seq<int>, after: seq<int>): seq<int>
  {
    if |before| <= |after| then after[|before|..] else []
  }

  function Watch(s: State, schedule: seq<(nat, Call)>): History
    requires s.n > 0 && |s.buf| == s.n && forall e <- schedule :: e.0 < |s.threads|
    decreases |schedule|
  {
    if schedule == [] then History([], [], [], [])
    else
      var (t, call) := schedule[|schedule|-1];
      var rest := schedule[..|schedule|-1];
      var h, before, after := Watch(s, rest), Run(s, rest), Run(s, schedule);
      assert schedule[|schedule|-1] in schedule;
      History(h.asked + Tagged(t, Asked(before, t, call)),
              h.stores + Tagged(t, New(before.stored, after.stored)),
              h.loads + Tagged(t, New(before.loaded, after.loaded)),
              h.answered + Tagged(t, Answered(before, t)))
  }

  // The items of a log, and those of one thread.
  function Items(log: seq<(nat, int)>): (r: seq<int>)
    ensures |r| == |log|
  {
    seq(|log|, i requires 0 <= i < |log| => log[i].1)
  }

  function Of(log: seq<(nat, int)>, t: nat): seq<int>
  {
    if log == [] then []
    else Of(log[..|log|-1], t) + if log[|log|-1].0 == t then [log[|log|-1].1] else []
  }

  // What all threads together hold.
  function Held(ts: seq<Pc>, f: Pc -> seq<int>): multiset<int>
  {
    if ts == [] then multiset{} else multiset(f(ts[0])) + Held(ts[1..], f)
  }

  lemma Shift(a: multiset<int>, b: multiset<int>, c: multiset<int>, x: multiset<int>, y: multiset<int>)
    requires b + x == c + y
    ensures (a + b) + x == (a + c) + y
  {
    assert (a + b) + x == a + (b + x) == a + (c + y);
  }

  lemma {:induction false} HeldUpdate(ts: seq<Pc>, t: nat, pc: Pc, f: Pc -> seq<int>)
    requires t < |ts|
    ensures Held(ts[t := pc], f) + multiset(f(ts[t])) == Held(ts, f) + multiset(f(pc))
    decreases |ts|
  {
    if t > 0 {
      assert ts[t := pc][1..] == ts[1..][t-1 := pc] && ts[t := pc][0] == ts[0];
      HeldUpdate(ts[1..], t - 1, pc, f);
      Shift(multiset(f(ts[0])), Held(ts[1..][t-1 := pc], f), Held(ts[1..], f), multiset(f(ts[t])), multiset(f(pc)));
    } else {
      assert ts[t := pc][1..] == ts[1..];
    }
  }

  lemma {:induction false} HeldNone(ts: seq<Pc>, f: Pc -> seq<int>)
    requires forall t | 0 <= t < |ts| :: f(ts[t]) == []
    ensures Held(ts, f) == multiset{}
  {
    if ts != [] { HeldNone(ts[1..], f); }
  }

  lemma {:induction false} OfTagged(log: seq<(nat, int)>, t: nat, xs: seq<int>, u: nat)
    ensures Of(log + Tagged(t, xs), u) == Of(log, u) + if t == u then xs else []
    ensures Items(log + Tagged(t, xs)) == Items(log) + xs
    decreases |xs|
  {
    if xs == [] {
      assert log + Tagged(t, xs) == log;
    } else {
      var ys, x := xs[..|xs|-1], xs[|xs|-1];
      var all := log + Tagged(t, xs);
      assert all[..|all|-1] == log + Tagged(t, ys) && all[|all|-1] == (t, x);
      OfTagged(log, t, ys, u);
      assert xs == ys + [x];
    }
  }

  // One step hands an item on: from the call to the thread to the buffer, and from the
  // buffer to the thread to its caller.
  lemma StepHands(s: State, t: nat, call: Call)
    requires t < |s.threads| && s.n > 0 && |s.buf| == s.n
    ensures var s' := Step(s, t, call);
      && |s'.threads| == |s.threads| && s'.threads == s.threads[t := s'.threads[t]]
      && s'.stored == s.stored + New(s.stored, s'.stored) && s'.loaded == s.loaded + New(s.loaded, s'.loaded)
      && Pending(s.threads[t]) + Asked(s, t, call) == New(s.stored, s'.stored) + Pending(s'.threads[t])
      && Carried(s.threads[t]) + New(s.loaded, s'.loaded) == Answered(s, t) + Carried(s'.threads[t])
  {
    var s' := Step(s, t, call);
    if !Blocked(s, t) {
      assert s'.threads == s.threads[t := s'.threads[t]];
    }
  }

  // Thread by thread, in order, and over all threads: what came in went out or is held.
  ghost predicate Handed(came: seq<(nat, int)>, went: seq<(nat, int)>, ts: seq<Pc>, f: Pc -> seq<int>)
  {
    && (forall t | 0 <= t < |ts| :: Of(came, t) == Of(went, t) + f(ts[t]))
    && multiset(Items(came)) == multiset(Items(went)) + Held(ts, f)
  }

  lemma StepHanded(came: seq<(nat, int)>, went: seq<(nat, int)>, ts: seq<Pc>, f: Pc -> seq<int>,
                   t: nat, pc: Pc, xs: seq<int>, ys: seq<int>)
    requires t < |ts| && Handed(came, went, ts, f) && f(ts[t]) + xs == ys + f(pc)
    ensures Handed(came + Tagged(t, xs), went + Tagged(t, ys), ts[t := pc], f)
  {
    hide Of, Items, Held, Tagged;
    var us, came', went' := ts[t := pc], came + Tagged(t, xs), went + Tagged(t, ys);
    forall u | 0 <= u < |us| ensures Of(came', u) == Of(went', u) + f(us[u]) {
      OfTagged(came, t, xs, u);
      OfTagged(went, t, ys, u);
      if t == u { Relay(Of(went, t), f(ts[t]), xs, ys, f(pc)); }
    }
    OfTagged(came, t, xs, t);
    OfTagged(went, t, ys, t);
    HeldUpdate(ts, t, pc, f);
    assert multiset(f(ts[t])) + multiset(xs) == multiset(ys) + multiset(f(pc)) by {
      assert multiset(f(ts[t]) + xs) == multiset(ys + f(pc));
    }
    assert multiset(Items(came')) == multiset(Items(came)) + multiset(xs);
    assert multiset(Items(went')) == multiset(Items(went)) + multiset(ys);
    Balance(multiset(Items(went)), Held(ts, f), Held(us, f), multiset(f(ts[t])), multiset(f(pc)), multiset(xs),
            multiset(ys));
  }

  lemma Balance(w: multiset<int>, h: multiset<int>, h': multiset<int>, p: multiset<int>, q: multiset<int>,
                x: multiset<int>, y: multiset<int>)
    requires h' + p == h + q && p + x == y + q
    ensures (w + h) + x == (w + y) + h'
  {
    forall i ensures h'[i] + p[i] == h[i] + q[i] && p[i] + x[i] == y[i] + q[i] {
      assert (h' + p)[i] == (h + q)[i] && (p + x)[i] == (y + q)[i];
    }
  }

  lemma Relay(log: seq<int>, p: seq<int>, a: seq<int>, n: seq<int>, q: seq<int>)
    requires p + a == n + q
    ensures (log + p) + a == (log + n) + q
  {
    assert (log + p) + a == log + (p + a) == log + (n + q);
  }

  // Every item is where the history says.
  ghost predicate Traced(h: History, s: State)
  {
    && Items(h.stores) == s.stored && Items(h.loads) == s.loaded
    && Handed(h.asked, h.stores, s.threads, Pending) && Handed(h.loads, h.answered, s.threads, Carried)
  }

  // In every interleaving, each enqueue stores the item it was called with and each
  // dequeue hands back the item it loaded.
  lemma {:induction false} AlwaysTraced(n: nat, count: nat, schedule: seq<(nat, Call)>)
    requires n > 0 && forall e <- schedule :: e.0 < count
    ensures Traced(Watch(Init(n, count), schedule), Run(Init(n, count), schedule))
    decreases |schedule|
  {
    hide Step, Handed, Items, New, Tagged, Asked, Answered;
    if schedule == [] {
      NothingHanded(n, count);
    } else {
      var (t, call) := schedule[|schedule|-1];
      var rest := schedule[..|schedule|-1];
      assert schedule[|schedule|-1] in schedule;
      AlwaysTraced(n, count, rest);
      var h, s := Watch(Init(n, count), rest), Run(Init(n, count), rest);
      var s' := Step(s, t, call);
      StepHands(s, t, call);
      StepHanded(h.asked, h.stores, s.threads, Pending, t, s'.threads[t], Asked(s, t, call), New(s.stored, s'.stored));
      StepHanded(h.loads, h.answered, s.threads, Carried, t, s'.threads[t], New(s.loaded, s'.loaded), Answered(s, t));
      OfTagged(h.stores, t, New(s.stored, s'.stored), t);
      OfTagged(h.loads, t, New(s.loaded, s'.loaded), t);
    }
  }

  lemma NothingHanded(n: nat, count: nat)
    ensures Traced(History([], [], [], []), Init(n, count))
  {
    HeldNone(Init(n, count).threads, Pending);
    HeldNone(Init(n, count).threads, Carried);
  }

  // What callers see, in every interleaving.  Loads are a beginning of the stores; each
  // thread stores the items it was called with and hands back the items it loaded, in
  // order; and over all threads nothing is lost, made up or handed out twice.
  lemma CallersSeeABuffer(n: nat, count: nat, schedule: seq<(nat, Call)>)
    requires n > 0 && forall e <- schedule :: e.0 < count
    ensures var h, s := Watch(Init(n, count), schedule), Run(Init(n, count), schedule);
      && Items(h.loads) <= Items(h.stores)
      && (forall t | 0 <= t < count :: Of(h.asked, t) == Of(h.stores, t) + Pending(s.threads[t]))
      && (forall t | 0 <= t < count :: Of(h.loads, t) == Of(h.answered, t) + Carried(s.threads[t]))
      && multiset(Items(h.asked)) == multiset(Items(h.stores)) + Held(s.threads, Pending)
      && multiset(Items(h.loads)) == multiset(Items(h.answered)) + Held(s.threads, Carried)
  {
    hide Run, Watch, Of, Items, Held, Counts, Locals;
    AlwaysTraced(n, count, schedule);
    AlwaysOk(n, count, schedule);
  }

  // Once every call has returned, the answers are the first items stored, and the items
  // stored are those of the calls.
  lemma WhenAllReturned(n: nat, count: nat, schedule: seq<(nat, Call)>)
    requires n > 0 && forall e <- schedule :: e.0 < count
    requires forall t | 0 <= t < count :: Run(Init(n, count), schedule).threads[t].Idle?
    ensures var h := Watch(Init(n, count), schedule);
      && |h.answered| <= |h.stores|
      && multiset(Items(h.answered)) == multiset(Items(h.stores)[..|h.answered|])
      && multiset(Items(h.asked)) == multiset(Items(h.stores))
  {
    hide Run, Watch, Of, Items, Held, Counts, Locals;
    var h, ts := Watch(Init(n, count), schedule), Run(Init(n, count), schedule).threads;
    CallersSeeABuffer(n, count, schedule);
    HeldNone(ts, Pending);
    HeldNone(ts, Carried);
    assert |multiset(Items(h.loads))| == |h.loads| && |multiset(Items(h.answered))| == |h.answered|;
    assert Items(h.loads) == Items(h.stores)[..|h.answered|];
  }

  // With one producing and one consuming thread the answers are a beginning of the
  // items enqueued, in order, at every moment.
  lemma Queue(n: nat, count: nat, schedule: seq<(nat, Call)>, p: nat, c: nat)
    requires n > 0 && p < count && c < count && forall e <- schedule :: e.0 < count
    requires forall e <- schedule :: e.0 == if e.1.Enque? then p else c
    ensures var h := Watch(Init(n, count), schedule); Items(h.answered) <= Items(h.asked)
  {
    hide Run, Watch, Of, Items, Held, Pending, Carried;
    var h := Watch(Init(n, count), schedule);
    CallersSeeABuffer(n, count, schedule);
    AlwaysRoles(n, count, schedule, p, c);
    AllBy(h.asked, p);
    AllBy(h.stores, p);
    AllBy(h.loads, c);
    AllBy(h.answered, c);
  }

  ghost predicate By(log: seq<(nat, int)>, t: nat) { forall i | 0 <= i < |log| :: log[i].0 == t }

  lemma {:induction false} AllBy(log: seq<(nat, int)>, t: nat)
    requires By(log, t)
    ensures Of(log, t) == Items(log)
  {
    if log != [] {
      AllBy(log[..|log|-1], t);
      assert Items(log) == Items(log[..|log|-1]) + [log[|log|-1].1];
    }
  }

  ghost predicate Roles(s: State, p: nat, c: nat)
  {
    forall t | 0 <= t < |s.threads| ::
      s.threads[t].Idle? || (if InDeque(s.threads[t]) then t == c else t == p)
  }

  lemma {:induction false} AlwaysRoles(n: nat, count: nat, schedule: seq<(nat, Call)>, p: nat, c: nat)
    requires n > 0 && forall e <- schedule :: e.0 < count && e.0 == if e.1.Enque? then p else c
    ensures Roles(Run(Init(n, count), schedule), p, c)
    ensures var h := Watch(Init(n, count), schedule);
      By(h.asked, p) && By(h.stores, p) && By(h.loads, c) && By(h.answered, c)
    decreases |schedule|
  {
    hide Step, Asked, Answered, New, InDeque;
    if schedule != [] {
      var (t, call) := schedule[|schedule|-1];
      var rest := schedule[..|schedule|-1];
      assert schedule[|schedule|-1] in schedule;
      AlwaysRoles(n, count, rest, p, c);
      StepRoles(Run(Init(n, count), rest), t, call, p, c);
    }
  }

  lemma StepRoles(s: State, t: nat, call: Call, p: nat, c: nat)
    requires t < |s.threads| && s.n > 0 && |s.buf| == s.n && Roles(s, p, c) && t == if call.Enque? then p else c
    ensures var s' := Step(s, t, call);
      && Roles(s', p, c)
      && (Asked(s, t, call) != [] ==> t == p) && (New(s.stored, s'.stored) != [] ==> t == p)
      && (Answered(s, t) != [] ==> t == c) && (New(s.loaded, s'.loaded) != [] ==> t == c)
  {
  }

  // ---------------------------------------------------------------------- deadlock

  // No thread can move.
  ghost predicate Stuck(s: State)
  {
    forall t | 0 <= t < |s.threads| :: s.threads[t].Idle? || Blocked(s, t)
  }

  // Threads only ever all block for the obvious reason: all of them enqueue into a full
  // buffer, or all of them dequeue from an empty one.  A waiting producer and a waiting
  // consumer are never both stuck.
  lemma StuckReason(n: nat, count: nat, schedule: seq<(nat, Call)>)
    requires n > 0 && forall e <- schedule :: e.0 < count
    requires Stuck(Run(Init(n, count), schedule))
    ensures var s := Run(Init(n, count), schedule);
      || (forall t | 0 <= t < count :: s.threads[t].Idle?)
      || (s.items == n && |s.stored| - |s.loaded| == n
          && forall t | 0 <= t < count :: s.threads[t].Idle? || s.threads[t].EWaitSlot?)
      || (s.slots == n && s.stored == s.loaded
          && forall t | 0 <= t < count :: s.threads[t].Idle? || s.threads[t].DWaitItem?)
  {
    hide Run;
    AlwaysOk(n, count, schedule);
    StuckCounts(Run(Init(n, count), schedule));
  }

  lemma StuckCounts(s: State)
    requires Inv(s) && Stuck(s)
    ensures s.slots + s.items == s.n && |s.stored| == |s.loaded| + s.items
    ensures forall t | 0 <= t < |s.threads| ::
      s.threads[t].Idle? || (s.threads[t].EWaitSlot? && s.slots == 0) || (s.threads[t].DWaitItem? && s.items == 0)
    ensures s.items == 0 ==> s.stored == s.loaded
  {
    var ts := s.threads;
    forall t | 0 <= t < |ts| ensures Holds(ts[t]) == 0 {
      assert ts[t].Idle? || Blocked(s, t);
    }
    CountZero(ts, Holds);
    forall t | 0 <= t < |ts|
      ensures ts[t].Idle? || (ts[t].EWaitSlot? && s.slots == 0) || (ts[t].DWaitItem? && s.items == 0)
    {
      assert ts[t].Idle? || Blocked(s, t);
    }
    CountZero(ts, Storing);
    CountZero(ts, Stored);
    CountZero(ts, Loading);
    CountZero(ts, Loaded);
  }
}
