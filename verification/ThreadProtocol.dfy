/** Who frees the record of a callback thread: all interleavings of creating and destroying threads, of callbacks,
    and of threads that end (library/meids_local_calls.c). Whatever happens under the mutex is one step. */
module ThreadProtocol {
  import opened Defines
  import opened Memory
  import opened ThreadList

  /** The mutex callbackContextMutex; a thread holds it around its callback. */
  datatype Mutex = Unlocked | Held(thread: int, calling: bool)

  /** A thread that another thread has cancelled: its function and the address of its record, which was freed. */
  datatype Victim = Victim(kind: Kind, p: Ptr)

  /** `list` are the records on the list, `pending` the arguments of threads that have not begun, `orphans` the records
      taken off the list by their own thread, `killed` the threads that another thread has cancelled, `late` those of
      them that called back after that, `freed` the freed records, and `births` the number of records made. */
  datatype State = State(list: seq<Rec>, pending: seq<Pending>, orphans: seq<Orphan>, killed: map<int, Victim>,
                         late: map<int, Ptr>,
                         freed: seq<Rec>, births: nat, mutex: Mutex)

  datatype Step =
    | Create(caller: int, p: Ptr, args: Ptr, kind: Kind, device: int, subdevice: int, flags: int, thread: int)
    | Begin(thread: int)                  // a new thread takes its arguments
    | Destroy(caller: int, device: int, subdevice: int)
    | Enter(thread: int)                  // a thread locks the mutex and calls back
    | Return(thread: int, result: bool)   // the callback returns
    | Leave(thread: int)                  // a thread ends that destroyed itself
    | Vanish(thread: int)                 // a cancelled thread ends

  const START := State([], [], [], map[], map[], [], 0, Unlocked)

  ghost function Recs(s: seq<Orphan>): seq<Rec> {
    if s == [] then [] else [s[0].rec] + Recs(s[1..])
  }

  /** Records are counted by their number or by their thread. */
  datatype Key = Id(id: int) | OfThread(thread: int)

  predicate HasKey(r: Rec, key: Key) {
    match key
    case Id(id) => r.id == id
    case OfThread(thread) => r.thread == thread
  }

  ghost function Count(l: seq<Rec>, key: Key): nat {
    if l == [] then 0 else (if HasKey(l[0], key) then 1 else 0) + Count(l[1..], key)
  }

  /** The threads that have a record of their own. */
  ghost function Running(s: State): seq<Rec> {
    s.list + Recs(s.orphans)
  }

  ghost predicate Busy(s: State, thread: int) {
    Count(Running(s), OfThread(thread)) > 0 || thread in s.killed || thread in s.late
  }

  ghost predicate IsPending(s: seq<Pending>, thread: int) {
    exists k :: 0 <= k < |s| && s[k].thread == thread
  }

  ghost function PendingIndex(s: seq<Pending>, thread: int): (k: nat)
    requires IsPending(s, thread)
    ensures k < |s| && s[k].thread == thread
  {
    var k :| 0 <= k < |s| && s[k].thread == thread;
    k
  }

  /** A thread may lock the mutex if it is free, or if it holds it and the mutex may be locked again by its holder. */
  ghost predicate CanLock(s: State, caller: int, relock: bool) {
    if s.mutex.Unlocked? then !Busy(s, caller) else s.mutex.calling && caller == s.mutex.thread && relock
  }

  ghost predicate Owned(s: seq<Orphan>, thread: int) {
    exists k :: 0 <= k < |s| && s[k].rec.thread == thread
  }

  /** A thread that was cancelled while it waited for the mutex still calls back, as it has switched cancellation
      off. */
  ghost predicate Enabled(s: State, step: Step, relock: bool) {
    match step
    case Create(caller, p, args, _, _, _, _, thread) =>
      && CanLock(s, caller, relock)
      && IsFree(s.list, s.pending, s.orphans, p)
      && IsFree(s.list, s.pending, s.orphans, args)
      && p != args
      && !Busy(s, thread)
    case Begin(thread) => IsPending(s.pending, thread)
    case Destroy(caller, _, _) => CanLock(s, caller, relock)
    case Enter(thread) =>
      && s.mutex.Unlocked?
      && !IsPending(s.pending, thread)
      && (Count(s.list, OfThread(thread)) > 0 || thread in s.killed)
    case Return(thread, _) => s.mutex == Held(thread, true)
    case Leave(thread) => Owned(s.orphans, thread) && !IsPending(s.pending, thread) && s.mutex != Held(thread, true)
    case Vanish(thread) =>
      && (thread in s.killed || thread in s.late)
      && !IsPending(s.pending, thread)
      && s.mutex != Held(thread, true)
  }

  ghost function Index(s: seq<Orphan>, thread: int): (k: nat)
    requires Owned(s, thread)
    ensures k < |s| && s[k].rec.thread == thread
  {
    var k :| 0 <= k < |s| && s[k].rec.thread == thread;
    k
  }

  /** These leave their loop with the mutex still locked if the callback did not return zero. */
  predicate LeavesLocked(kind: Kind) {
    kind == Irq || kind == StreamStart
  }

  /** The record of the thread is off the list, which makes the thread leave its loop. A cancelled thread does not see
      this if another record is listed at the address of its own one by now. */
  ghost predicate StaysLocked(s: State, thread: int, result: bool) {
    && result
    && (Owned(s.orphans, thread) ==> LeavesLocked(s.orphans[Index(s.orphans, thread)].rec.kind))
    && (thread in s.killed ==> LeavesLocked(s.killed[thread].kind) && !IsListed(s.list, s.killed[thread].p))
    && (Owned(s.orphans, thread) || thread in s.killed)
  }

  ghost function Victims(others: seq<Rec>): map<int, Victim> {
    if others == [] then map[] else Victims(others[1..])[others[0].thread := Victim(others[0].kind, others[0].p)]
  }

  /** A thread that called back late finds 1 at the address of its record: the address was used for the record of
      another thread, which has destroyed itself. */
  ghost predicate FindsOne(s: State, thread: int) {
    thread in s.late && IsOrphan(s.orphans, s.late[thread])
  }

  ghost function OrphanAt(orphans: seq<Orphan>, p: Ptr): (o: Orphan)
    requires IsOrphan(orphans, p)
    ensures o in orphans && o.rec.p == p
  {
    var k :| 0 <= k < |orphans| && orphans[k].rec.p == p;
    orphans[k]
  }

  ghost function Do(s: State, step: Step, relock: bool): State
    requires Enabled(s, step, relock)
  {
    match step
    case Create(_, p, args, kind, device, subdevice, flags, thread) =>
      s.(list := [Rec(s.births, p, kind, device, subdevice, thread)] + s.list,
         pending := s.pending + [Pending(args, thread, p, flags)],
         births := s.births + 1)
    case Begin(thread) =>
      var k := PendingIndex(s.pending, thread);
      s.(pending := s.pending[..k] + s.pending[k + 1..])
    case Destroy(caller, device, subdevice) =>
      var others := OthersMatched(s.list, device, subdevice, caller);
      s.(list := Unmatched(s.list, device, subdevice),
         orphans := s.orphans + OwnMatched(s.list, device, subdevice, caller),
         killed := s.killed + Victims(others), freed := s.freed + others)
    case Enter(thread) => s.(mutex := Held(thread, true))
    case Return(thread, result) =>
      s.(mutex := if StaysLocked(s, thread, result) then Held(thread, false) else Unlocked,
         killed := s.killed - {thread},
         late := if thread in s.killed then s.late[thread := s.killed[thread].p] else s.late)
    case Leave(thread) =>
      var k := Index(s.orphans, thread);
      s.(orphans := s.orphans[..k] + s.orphans[k + 1..], freed := s.freed + [s.orphans[k].rec])
    case Vanish(thread) =>
      s.(killed := s.killed - {thread}, late := s.late - {thread},
         freed := if FindsOne(s, thread) then s.freed + [OrphanAt(s.orphans, s.late[thread]).rec] else s.freed)
  }

  // The invariant.

  function Once(b: bool): nat {
    if b then 1 else 0
  }

  /** Every record made is in exactly one place, once: on the list, off it in the hands of its thread, or freed. */
  ghost predicate InOnePlace(s: State) {
    forall id ::
      Count(s.list, Id(id)) + Count(Recs(s.orphans), Id(id)) + Count(s.freed, Id(id)) == Once(0 <= id < s.births)
  }

  /** Every thread has at most one record, and a cancelled one has none. */
  ghost predicate OneRecordEach(s: State) {
    forall t ::
      Count(s.list, OfThread(t)) + Count(Recs(s.orphans), OfThread(t)) + (if t in s.killed then 1 else 0)
          + (if t in s.late then 1 else 0) <= 1
  }

  /** Every thread takes its arguments once, and none ends before that. */
  ghost predicate ArgsOnce(s: State) {
    && (forall k :: 0 <= k < |s.pending| ==> Busy(s, s.pending[k].thread))
    && (forall j, k :: 0 <= j < k < |s.pending| ==> s.pending[j].thread != s.pending[k].thread)
  }

  /** A callback is running in a thread that has not ended. */
  ghost predicate CallerRuns(s: State) {
    s.mutex.Held? && s.mutex.calling ==>
      Count(s.list, OfThread(s.mutex.thread)) + Count(Recs(s.orphans), OfThread(s.mutex.thread))
          + (if s.mutex.thread in s.killed then 1 else 0) == 1
  }

  /** No late read frees the record of another thread. */
  ghost predicate Safe(s: State, step: Step) {
    step.Vanish? ==> !FindsOne(s, step.thread)
  }

  ghost predicate Inv(s: State) {
    InOnePlace(s) && OneRecordEach(s) && ArgsOnce(s) && CallerRuns(s)
  }

  // Counting.

  lemma {:induction false} CountConcat(a: seq<Rec>, b: seq<Rec>, key: Key)
    ensures Count(a + b, key) == Count(a, key) + Count(b, key)
  {
    if a == [] {
      assert a + b == b;
    } else {
      CountConcat(a[1..], b, key);
      assert (a + b)[1..] == a[1..] + b;
    }
  }

  lemma {:induction false} RecsConcat(a: seq<Orphan>, b: seq<Orphan>)
    ensures Recs(a + b) == Recs(a) + Recs(b)
  {
    hide Recs;
    if a == [] {
      Nothing(Id(0));
      assert a + b == b;
    } else {
      var o, l := a[0], a[1..];
      RecsConcat(l, b);
      RecsOne(o, l);
      RecsOne(o, l + b);
      assert a == [o] + l && a + b == [o] + (l + b);
    }
  }

  lemma CountOne(x: Rec, l: seq<Rec>, key: Key)
    ensures Count([x] + l, key) == (if HasKey(x, key) then 1 else 0) + Count(l, key)
    ensures Count([] + l, key) == Count(l, key)
  {
    assert ([x] + l)[1..] == l && [] + l == l;
  }

  lemma FirstRecord(x: Rec, l: seq<Rec>, device: int, subdevice: int, self: int)
    ensures var matches, own := Matches(device, subdevice, x), x.thread == self;
            && Unmatched([x] + l, device, subdevice) == (if matches then [] else [x]) + Unmatched(l, device, subdevice)
            && OthersMatched([x] + l, device, subdevice, self)
               == (if matches && !own then [x] else []) + OthersMatched(l, device, subdevice, self)
            && OwnMatched([x] + l, device, subdevice, self)
               == (if matches && own then [Orphan(x, First(l))] else []) + OwnMatched(l, device, subdevice, self)
  {
    assert ([x] + l)[1..] == l;
  }

  lemma RecsOne(o: Orphan, s: seq<Orphan>)
    ensures Recs([o] + s) == [o.rec] + Recs(s) && Recs([] + s) == Recs(s)
  {
    assert ([o] + s)[1..] == s && [] + s == s;
  }

  /** Destroying splits the list into three parts. */
  lemma {:induction false} Parts(list: seq<Rec>, device: int, subdevice: int, self: int, key: Key)
    ensures Count(list, key) == Count(Unmatched(list, device, subdevice), key)
            + Count(Recs(OwnMatched(list, device, subdevice, self)), key)
                                + Count(OthersMatched(list, device, subdevice, self), key)
  {
    hide Unmatched, OwnMatched, OthersMatched, Matches, HasKey, Count, Recs;
    if list == [] {
      NothingLeft(device, subdevice, self);
      NoOthers(device, subdevice, self);
      Nothing(key);
    } else {
      var x, l := list[0], list[1..];
      Parts(l, device, subdevice, self, key);
      assert list == [x] + l;
      FirstRecord(x, l, device, subdevice, self);
      RecsOne(Orphan(x, First(l)), OwnMatched(l, device, subdevice, self));
      CountOne(x, l, key);
      CountOne(x, Unmatched(l, device, subdevice), key);
      CountOne(x, OthersMatched(l, device, subdevice, self), key);
      CountOne(x, Recs(OwnMatched(l, device, subdevice, self)), key);
    }
  }

  lemma NoOthers(device: int, subdevice: int, self: int)
    ensures OthersMatched([], device, subdevice, self) == []
  {
  }

  lemma {:induction false} CountedIsListed(l: seq<Rec>, key: Key)
    ensures Count(l, key) > 0 <==> exists r :: r in l && HasKey(r, key)
  {
    if l == [] {
    } else {
      CountedIsListed(l[1..], key);
      assert forall r :: r in l <==> r == l[0] || r in l[1..];
    }
  }

  lemma {:induction false} OwnedCounts(s: seq<Orphan>, thread: int)
    ensures Owned(s, thread) <==> Count(Recs(s), OfThread(thread)) > 0
  {
    if s == [] {
    } else {
      OwnedCounts(s[1..], thread);
      CountOne(s[0].rec, Recs(s[1..]), OfThread(thread));
      if Owned(s, thread) {
        var k :| 0 <= k < |s| && s[k].rec.thread == thread;
        assert k > 0 ==> s[1..][k - 1].rec.thread == thread;
      } else {
        assert s[0].rec.thread != thread;
        forall k | 0 <= k < |s[1..]| ensures s[1..][k].rec.thread != thread {
          assert s[k + 1].rec.thread != thread;
        }
      }
    }
  }

  lemma CountRemoved(s: seq<Orphan>, k: nat, key: Key)
    requires k < |s|
    ensures Count(Recs(s), key) == Count(Recs(s[..k] + s[k + 1..]), key) + if HasKey(s[k].rec, key) then 1 else 0
  {
    assert s == s[..k] + ([s[k]] + s[k + 1..]);
    RecsConcat(s[..k], [s[k]] + s[k + 1..]);
    RecsConcat([s[k]], s[k + 1..]);
    RecsConcat(s[..k], s[k + 1..]);
    assert Recs([s[k]]) == [s[k].rec];
    CountConcat(Recs(s[..k]), [s[k].rec] + Recs(s[k + 1..]), key);
    CountConcat(Recs(s[..k]), Recs(s[k + 1..]), key);
    CountOne(s[k].rec, Recs(s[k + 1..]), key);
  }

  lemma {:induction false} KindsOf(l: seq<Rec>, thread: int)
    ensures thread in Victims(l) <==> Count(l, OfThread(thread)) > 0
  {
    if l == [] {
    } else {
      KindsOf(l[1..], thread);
    }
  }

  lemma BusyCounts(s: State)
    ensures forall t :: Busy(s, t) <==>
              Count(s.list, OfThread(t)) + Count(Recs(s.orphans), OfThread(t)) > 0 || t in s.killed || t in s.late
  {
    forall t ensures Count(Running(s), OfThread(t)) == Count(s.list, OfThread(t))
        + Count(Recs(s.orphans), OfThread(t)) {
      CountConcat(s.list, Recs(s.orphans), OfThread(t));
    }
  }

  // What each step keeps.

  lemma CreateKeeps(s: State, step: Step, relock: bool)
    requires Inv(s) && step.Create? && Enabled(s, step, relock)
    ensures Inv(Do(s, step, relock))
  {
    hide Count, Recs;
    var r := Rec(s.births, step.p, step.kind, step.device, step.subdevice, step.thread);
    var s' := Do(s, step, relock);
    BusyCounts(s);
    BusyCounts(s');
    forall id ensures Count(s'.list, Id(id)) == Count(s.list, Id(id)) + if id == s.births then 1 else 0 {
      CountOne(r, s.list, Id(id));
    }
    forall t ensures Count(s'.list, OfThread(t)) == Count(s.list, OfThread(t)) + if t == step.thread then 1 else 0 {
      CountOne(r, s.list, OfThread(t));
    }
  }

  lemma DestroyKeeps(s: State, step: Step, relock: bool)
    requires Inv(s) && step.Destroy? && Enabled(s, step, relock)
    ensures Inv(Do(s, step, relock))
  {
    hide Count, Recs, Busy, Unmatched, OwnMatched, OthersMatched, Victims;
    var s', device, subdevice, self := Do(s, step, relock), step.device, step.subdevice, step.caller;
    var others, own := OthersMatched(s.list, device, subdevice, self), OwnMatched(s.list, device, subdevice, self);
    BusyCounts(s);
    BusyCounts(s');
    RecsConcat(s.orphans, own);
    forall key ensures Count(s.list, key) == Count(s'.list, key) + Count(Recs(own), key) + Count(others, key)
               ensures Count(Recs(s'.orphans), key) == Count(Recs(s.orphans), key) + Count(Recs(own), key)
               ensures Count(s'.freed, key) == Count(s.freed, key) + Count(others, key) {
      Parts(s.list, device, subdevice, self, key);
      CountConcat(Recs(s.orphans), Recs(own), key);
      CountConcat(s.freed, others, key);
    }
    forall t ensures t in s'.killed <==> t in s.killed || Count(others, OfThread(t)) > 0 {
      KindsOf(others, t);
    }
    OthersAreOthers(s.list, device, subdevice, self);
    CountedIsListed(others, OfThread(self));
  }

  lemma {:induction false} OthersAreOthers(list: seq<Rec>, device: int, subdevice: int, self: int)
    ensures forall r :: r in OthersMatched(list, device, subdevice, self) ==>
            r in list && Matches(device, subdevice, r) && r.thread != self
  {
    if list == [] {
    } else {
      OthersAreOthers(list[1..], device, subdevice, self);
    }
  }

  lemma LeaveKeeps(s: State, step: Step, relock: bool)
    requires Inv(s) && step.Leave? && Enabled(s, step, relock)
    ensures Inv(Do(s, step, relock))
  {
    hide Count, Recs;
    var s', k := Do(s, step, relock), Index(s.orphans, step.thread);
    var r := s.orphans[k].rec;
    BusyCounts(s);
    BusyCounts(s');
    forall key ensures Count(Recs(s.orphans), key) == Count(Recs(s'.orphans), key) + (if HasKey(r, key) then 1 else 0)
               ensures Count(s'.freed, key) == Count(s.freed, key) + if HasKey(r, key) then 1 else 0 {
      CountRemoved(s.orphans, k, key);
      CountConcat(s.freed, [r], key);
      CountOne(r, [], key);
      assert [r] + [] == [r] && Count([], key) == 0 by {
        Nothing(key);
      }
    }
  }

  lemma Nothing(key: Key)
    ensures Count([], key) == 0 && Recs([]) == []
  {
  }

  lemma BeginKeeps(s: State, step: Step, relock: bool)
    requires Inv(s) && step.Begin? && Enabled(s, step, relock)
    ensures Inv(Do(s, step, relock))
  {
    hide Count, Recs, Busy;
    BusyCounts(s);
    BusyCounts(Do(s, step, relock));
  }

  lemma OtherKeeps(s: State, step: Step, relock: bool)
    requires Inv(s) && (step.Enter? || step.Return? || step.Vanish?) && Enabled(s, step, relock) && Safe(s, step)
    ensures Inv(Do(s, step, relock))
  {
    hide Count, Recs, Busy, StaysLocked, Owned, FindsOne;
    BusyCounts(s);
    BusyCounts(Do(s, step, relock));
  }

  lemma StepKeeps(s: State, step: Step, relock: bool)
    requires Inv(s) && Enabled(s, step, relock) && Safe(s, step)
    ensures Inv(Do(s, step, relock))
  {
    hide Count, Recs, Inv, Do;
    match step
    case Create(_, _, _, _, _, _, _, _) => CreateKeeps(s, step, relock);
    case Begin(_) => BeginKeeps(s, step, relock);
    case Destroy(_, _, _) => DestroyKeeps(s, step, relock);
    case Leave(_) => LeaveKeeps(s, step, relock);
    case _ => OtherKeeps(s, step, relock);
  }

  // Runs.

  ghost predicate CanRun(s: State, steps: seq<Step>, relock: bool)
    decreases |steps|
  {
    steps == [] || (Enabled(s, steps[0], relock) && CanRun(Do(s, steps[0], relock), steps[1..], relock))
  }

  ghost function Run(s: State, steps: seq<Step>, relock: bool): State
    requires CanRun(s, steps, relock)
    decreases |steps|
  {
    if steps == [] then s else Run(Do(s, steps[0], relock), steps[1..], relock)
  }

  ghost predicate RunIsSafe(s: State, steps: seq<Step>, relock: bool)
    requires CanRun(s, steps, relock)
    decreases |steps|
  {
    steps == [] || (Safe(s, steps[0]) && RunIsSafe(Do(s, steps[0], relock), steps[1..], relock))
  }

  lemma {:induction false} RunKeeps(s: State, steps: seq<Step>, relock: bool)
    requires Inv(s) && CanRun(s, steps, relock) && RunIsSafe(s, steps, relock)
    ensures Inv(Run(s, steps, relock))
    decreases |steps|
  {
    hide Inv, Enabled, Do, Safe;
    if steps == [] {
    } else {
      StepKeeps(s, steps[0], relock);
      RunKeeps(Do(s, steps[0], relock), steps[1..], relock);
    }
  }

  lemma StartIsFine()
    ensures Inv(START)
  {
    Nothing(Id(0));
  }

  /** After any run from the start in which no late read finds 1: every record ever made is either on the list, or taken
      off by its own thread and not freed, or freed, and nowhere twice. */
  lemma EveryRecordInOnePlace(steps: seq<Step>, relock: bool)
    requires CanRun(START, steps, relock) && RunIsSafe(START, steps, relock)
    ensures InOnePlace(Run(START, steps, relock)) && OneRecordEach(Run(START, steps, relock))
    ensures ArgsOnce(Run(START, steps, relock))
  {
    hide Run, CanRun, RunIsSafe, InOnePlace, OneRecordEach, ArgsOnce, CallerRuns;
    StartIsFine();
    RunKeeps(START, steps, relock);
  }

  /** When all threads have ended, every record made has been freed, once, and so have all arguments. */
  lemma NothingLeaks(steps: seq<Step>, relock: bool, id: nat)
    requires CanRun(START, steps, relock) && RunIsSafe(START, steps, relock)
    requires var s := Run(START, steps, relock); (forall t :: !Busy(s, t)) && id < s.births
    ensures Count(Run(START, steps, relock).freed, Id(id)) == 1
    ensures Run(START, steps, relock).pending == []
  {
    hide Run, CanRun, RunIsSafe, Count, Recs;
    var s := Run(START, steps, relock);
    EveryRecordInOnePlace(steps, relock);
    BusyCounts(s);
    if s.pending != [] {
      SomebodyPending(s);
    }
    NoThreads(s.list);
    NoThreads(Recs(s.orphans));
    Nothing(Id(id));
  }

  lemma SomebodyPending(s: State)
    requires ArgsOnce(s) && s.pending != []
    ensures Busy(s, s.pending[0].thread)
  {
    hide Busy;
  }

  lemma NoThreads(l: seq<Rec>)
    ensures (forall t :: Count(l, OfThread(t)) == 0) ==> l == []
  {
    if l != [] {
      assert Count(l, OfThread(l[0].thread)) > 0;
    }
  }

  // Which records are destroyed.

  /** Destroying keeps exactly the records that do not match. */
  lemma {:induction false} UnmatchedAreKept(list: seq<Rec>, device: int, subdevice: int)
    ensures forall r :: r in Unmatched(list, device, subdevice) <==> r in list && !Matches(device, subdevice, r)
    ensures device < 0 ==> Unmatched(list, device, subdevice) == []
  {
    if list == [] {
    } else {
      UnmatchedAreKept(list[1..], device, subdevice);
      assert forall r :: r in list <==> r == list[0] || r in list[1..];
    }
  }

  /** And it keeps their order: the kept records of a concatenation are those of its parts. */
  lemma {:induction false} UnmatchedInOrder(a: seq<Rec>, b: seq<Rec>, device: int, subdevice: int)
    ensures Unmatched(a + b, device, subdevice) == Unmatched(a, device, subdevice) + Unmatched(b, device, subdevice)
  {
    hide Matches, Unmatched, OwnMatched, OthersMatched;
    if a == [] {
      NothingLeft(device, subdevice, 0);
      assert a + b == b;
    } else {
      var x, l := a[0], a[1..];
      UnmatchedInOrder(l, b, device, subdevice);
      FirstRecord(x, l, device, subdevice, 0);
      FirstRecord(x, l + b, device, subdevice, 0);
      assert a == [x] + l && a + b == [x] + (l + b);
    }
  }

  // Locking again.

  /** If the holder cannot lock the mutex again, a thread never gets to destroy itself, and no late read finds 1. */
  lemma {:induction false} NoOrphansWithoutRelock(s: State, steps: seq<Step>)
    requires Inv(s) && s.orphans == [] && CanRun(s, steps, false)
    ensures Run(s, steps, false).orphans == [] && RunIsSafe(s, steps, false)
    decreases |steps|
  {
    hide Inv, Enabled, Do;
    if steps == [] {
    } else {
      assert Safe(s, steps[0]);
      StepKeeps(s, steps[0], false);
      NoOrphanStep(s, steps[0]);
      NoOrphansWithoutRelock(Do(s, steps[0], false), steps[1..]);
    }
  }

  lemma NoOrphanStep(s: State, step: Step)
    requires Inv(s) && s.orphans == [] && Enabled(s, step, false)
    ensures Do(s, step, false).orphans == []
  {
    hide Inv, Count, Unmatched, OthersMatched;
    if step.Destroy? {
      CountConcat(s.list, Recs(s.orphans), OfThread(step.caller));
      NotOwn(s.list, step.device, step.subdevice, step.caller);
    }
  }

  lemma {:induction false} NotOwn(list: seq<Rec>, device: int, subdevice: int, self: int)
    requires Count(list, OfThread(self)) == 0
    ensures OwnMatched(list, device, subdevice, self) == []
  {
    if list == [] {
    } else {
      NotOwn(list[1..], device, subdevice, self);
    }
  }

  /** A thread destroys its own record in its callback. */
  function SelfDestruction(p: Ptr, args: Ptr, kind: Kind, device: nat, subdevice: nat, caller: int, thread: int,
                           result: bool): seq<Step> {
    [Create(caller, p, args, kind, device, subdevice, 0, thread)]
    + ([Begin(thread)] + ([Enter(thread)] + ([Destroy(thread, device, subdevice)] + ([Return(thread, result)] + []))))
  }

  /** A thread is destroyed by another one while it waits for the mutex, and then calls back. */
  function LateCallback(p: Ptr, args: Ptr, kind: Kind, device: nat, subdevice: nat, caller: int, thread: int,
                        result: bool): seq<Step> {
    [Create(caller, p, args, kind, device, subdevice, 0, thread)]
    + ([Begin(thread)] + ([Destroy(caller, device, subdevice)] + ([Enter(thread)] + ([Return(thread, result)] + []))))
  }

  /** No thread is there, but some may be about to end. */
  ghost predicate Quiet(s: State) {
    s.list == [] && s.pending == [] && s.orphans == [] && s.mutex == Unlocked
  }

  ghost function With(s: State, r: Rec): State {
    s.(list := [r], births := s.births + 1)
  }

  lemma QuietBusy(s: State)
    requires Quiet(s)
    ensures forall t :: Busy(s, t) <==> t in s.killed || t in s.late
  {
    assert Running(s) == [];
  }

  /** A thread is created and begins. */
  lemma OneThread(s0: State, p: Ptr, args: Ptr, kind: Kind, device: nat, subdevice: nat, caller: int, thread: int,
                  after: seq<Step>, relock: bool)
    returns (r: Rec, s: State)
    requires Quiet(s0) && p != NULL && args != NULL && p != args && !Busy(s0, caller) && !Busy(s0, thread)
    ensures r == Rec(s0.births, p, kind, device, subdevice, thread) && s == With(s0, r)
    ensures var steps := [Create(caller, p, args, kind, device, subdevice, 0, thread)] + ([Begin(thread)] + after);
            && (CanRun(s0, steps, relock) <==> CanRun(s, after, relock))
            && (CanRun(s0, steps, relock) ==> Run(s0, steps, relock) == Run(s, after, relock))
    ensures forall t :: Busy(s, t) <==> t == thread || Busy(s0, t)
    ensures Count(s.list, OfThread(thread)) > 0
  {
    hide CanRun, Run, Count;
    var create := Create(caller, p, args, kind, device, subdevice, 0, thread);
    r := Rec(s0.births, p, kind, device, subdevice, thread);
    assert [r] + [] == [r];
    var s1 := Do(s0, create, relock);
    assert s1.list == [r] && s1.pending == [Pending(args, thread, p, 0)] && s1.pending[0].thread == thread;
    assert IsPending(s1.pending, thread) && PendingIndex(s1.pending, thread) == 0;
    s := Do(s1, Begin(thread), relock);
    assert s.pending == [];
    FirstStep(s0, create, [Begin(thread)] + after, relock);
    FirstStep(s1, Begin(thread), after, relock);
    QuietBusy(s0);
    forall t ensures Busy(s, t) <==> t == thread || Busy(s0, t) {
      CountOne(r, [], OfThread(t));
      Nothing(OfThread(t));
      assert Running(s) == [r] && [r] + [] == [r];
    }
    CountOne(r, [], OfThread(thread));
  }

  /** The only thread is destroyed by another one. */
  lemma Killed(s0: State, r: Rec, caller: int, relock: bool) returns (s: State)
    requires Quiet(s0) && r.device >= 0 && r.subdevice >= 0 && caller != r.thread && !Busy(With(s0, r), caller)
    ensures var destroy := Destroy(caller, r.device, r.subdevice);
            Enabled(With(s0, r), destroy, relock) && s == Do(With(s0, r), destroy, relock)
    ensures Quiet(s) && s.killed == s0.killed[r.thread := Victim(r.kind, r.p)] && s.late == s0.late
  {
    hide Count, Unmatched, OwnMatched, OthersMatched, Victims, Busy;
    s := Do(With(s0, r), Destroy(caller, r.device, r.subdevice), relock);
    OneMatches(r, caller);
    OneVictim(r);
  }

  /** The only thread destroys itself in its callback, if the mutex can be locked again. */
  lemma OwnEnd(s0: State, r: Rec, relock: bool) returns (s: State)
    requires Quiet(s0) && r.device >= 0 && r.subdevice >= 0 && !Busy(s0, r.thread)
    ensures var enter, destroy := Enter(r.thread), Destroy(r.thread, r.device, r.subdevice);
            && Enabled(With(s0, r), enter, relock)
            && (Enabled(Do(With(s0, r), enter, relock), destroy, relock) <==> relock)
            && (relock ==> s == Do(Do(With(s0, r), enter, relock), destroy, relock))
    ensures relock ==> s == s0.(births := s0.births + 1, orphans := [Orphan(r, NULL)], mutex := Held(r.thread, true))
  {
    hide Unmatched, OwnMatched, OthersMatched;
    var enter, destroy := Enter(r.thread), Destroy(r.thread, r.device, r.subdevice);
    QuietBusy(s0);
    CountOne(r, [], OfThread(r.thread));
    var s1 := Do(With(s0, r), enter, relock);
    s := s1;
    if relock {
      OneMatches(r, r.thread);
      NoVictims(s0.killed);
      s := Do(s1, destroy, relock);
      assert s.freed == s0.freed + [] == s0.freed;
    }
  }

  lemma NoVictims(killed: map<int, Victim>)
    ensures killed + Victims([]) == killed
  {
  }

  lemma StartIsQuiet()
    ensures Quiet(START) && forall t :: !Busy(START, t)
  {
    QuietBusy(START);
  }

  /** The first run needs a mutex that can be locked again; it ends with the mutex locked exactly for the two kinds of
      threads that leave their loop too early, and a result other than zero. */
  lemma SelfDestructionRuns(p: Ptr, args: Ptr, kind: Kind, device: nat, subdevice: nat, caller: int, thread: int,
                            result: bool, relock: bool)
    requires p != NULL && args != NULL && p != args
    ensures var steps := SelfDestruction(p, args, kind, device, subdevice, caller, thread, result);
            && (CanRun(START, steps, relock) <==> relock)
            && (relock ==> |Run(START, steps, relock).orphans| == 1)
            && (relock ==> Run(START, steps, relock).mutex ==
                           if result && kind in {Irq, StreamStart} then Held(thread, false) else Unlocked)
  {
    hide CanRun, Run, Count, Owned, Busy;
    var enter, destroy, back := Enter(thread), Destroy(thread, device, subdevice), Return(thread, result);
    StartIsQuiet();
    var r, s1 := OneThread(START, p, args, kind, device, subdevice, caller, thread,
                           [enter] + ([destroy] + ([back] + [])), relock);
    var s3 := OwnEnd(START, r, relock);
    FirstStep(s1, enter, [destroy] + ([back] + []), relock);
    FirstStep(Do(s1, enter, relock), destroy, [back] + [], relock);
    if relock {
      OwnsOne(Orphan(r, NULL));
      FirstStep(s3, back, [], relock);
      FirstStep(Do(s3, back, relock), back, [], relock);
    }
  }

  /** The second run needs nothing of the mutex, and it ends with the mutex locked in the same cases. */
  lemma LateCallbackRuns(p: Ptr, args: Ptr, kind: Kind, device: nat, subdevice: nat, caller: int, thread: int,
                         result: bool, relock: bool)
    requires p != NULL && args != NULL && p != args && caller != thread
    ensures var steps := LateCallback(p, args, kind, device, subdevice, caller, thread, result);
            && CanRun(START, steps, relock)
            && Run(START, steps, relock).mutex ==
               if result && kind in {Irq, StreamStart} then Held(thread, false) else Unlocked
  {
    hide CanRun, Run, Count, Owned, Busy;
    var enter, destroy, back := Enter(thread), Destroy(caller, device, subdevice), Return(thread, result);
    StartIsQuiet();
    var r, s1 := OneThread(START, p, args, kind, device, subdevice, caller, thread,
                           [destroy] + ([enter] + ([back] + [])), relock);
    var s2 := Killed(START, r, caller, relock);
    var s3 := Do(s2, enter, relock);
    NoneOwned(thread);
    FirstStep(s1, destroy, [enter] + ([back] + []), relock);
    FirstStep(s2, enter, [back] + [], relock);
    FirstStep(s3, back, [], relock);
    FirstStep(Do(s3, back, relock), back, [], relock);
  }

  lemma OneMatches(r: Rec, self: int)
    requires r.device >= 0 && r.subdevice >= 0
    ensures Unmatched([r], r.device, r.subdevice) == []
    ensures OwnMatched([r], r.device, r.subdevice, self) == if r.thread == self then [Orphan(r, NULL)] else []
    ensures OthersMatched([r], r.device, r.subdevice, self) == if r.thread == self then [] else [r]
    ensures Victims([]) == map[]
  {
  }

  lemma OneVictim(r: Rec)
    ensures Victims([r]) == map[r.thread := Victim(r.kind, r.p)]
  {
    assert [r][1..] == [];
  }

  lemma NoneOwned(thread: int)
    ensures !Owned([], thread)
  {
  }

  lemma FirstStep(s: State, step: Step, after: seq<Step>, relock: bool)
    ensures CanRun(s, [], relock) && Run(s, [], relock) == s
    ensures CanRun(s, [step] + after, relock)
            <==> Enabled(s, step, relock) && CanRun(Do(s, step, relock), after, relock)
    ensures CanRun(s, [step] + after, relock) ==>
            Run(s, [step] + after, relock) == Run(Do(s, step, relock), after, relock)
  {
  }

  lemma OwnsOne(o: Orphan)
    ensures Owned([o], o.rec.thread) && Index([o], o.rec.thread) == 0
  {
    assert [o][0].rec.thread == o.rec.thread;
  }

  /** Once the mutex is left locked it stays so: nothing is created, destroyed or called back any more. */
  lemma {:induction false} LockedForever(s: State, steps: seq<Step>, relock: bool)
    requires s.mutex.Held? && !s.mutex.calling && CanRun(s, steps, relock)
    ensures Run(s, steps, relock).mutex == s.mutex && Run(s, steps, relock).list == s.list
    ensures forall k :: 0 <= k < |steps| ==> steps[k].Begin? || steps[k].Leave? || steps[k].Vanish?
    decreases |steps|
  {
    if steps == [] {
    } else {
      LockedForever(Do(s, steps[0], relock), steps[1..], relock);
      forall k | 0 <= k < |steps| ensures steps[k].Begin? || steps[k].Leave? || steps[k].Vanish? {
        assert k > 0 ==> steps[k] == steps[1..][k - 1];
      }
    }
  }

  // Which callbacks can leave the mutex locked.

  /** No thread that is ever created with a kind outside `kinds` returns anything but zero from a callback. */
  ghost predicate Disciplined(steps: seq<Step>, kinds: set<Kind>) {
    forall j, k :: 0 <= j < |steps| && 0 <= k < |steps| && steps[j].Create? && steps[k] == Return(steps[j].thread, true)
                   ==> steps[j].kind in kinds
  }

  /** The threads created in the steps, with their kinds. */
  ghost predicate CreatesIn(steps: seq<Step>, made: set<(int, Kind)>) {
    forall k :: 0 <= k < |steps| && steps[k].Create? ==> (steps[k].thread, steps[k].kind) in made
  }

  ghost predicate ReturnsFree(steps: seq<Step>, made: set<(int, Kind)>) {
    forall k, kind :: 0 <= k < |steps| && steps[k].Return? && steps[k].result && (steps[k].thread, kind) in made ==>
                      !LeavesLocked(kind)
  }

  /** Every record and every cancelled thread comes from a creation, and the mutex is held for a callback only. */
  ghost predicate Known(s: State, made: set<(int, Kind)>) {
    && (forall r :: r in s.list ==> (r.thread, r.kind) in made)
    && (forall o :: o in s.orphans ==> (o.rec.thread, o.rec.kind) in made)
    && (forall t :: t in s.killed ==> (t, s.killed[t].kind) in made)
    && (s.mutex.Held? ==> s.mutex.calling)
  }

  lemma {:induction false} OwnAreListed(list: seq<Rec>, device: int, subdevice: int, self: int)
    ensures forall o :: o in OwnMatched(list, device, subdevice, self) ==> o.rec in list
  {
    if list == [] {
    } else {
      OwnAreListed(list[1..], device, subdevice, self);
    }
  }

  lemma {:induction false} VictimsAreListed(others: seq<Rec>)
    ensures forall t :: t in Victims(others) ==>
            exists r :: r in others && r.thread == t && r.kind == Victims(others)[t].kind
  {
    if others == [] {
    } else {
      VictimsAreListed(others[1..]);
      assert others[0] in others && forall r :: r in others[1..] ==> r in others;
    }
  }

  lemma KnownStep(s: State, step: Step, relock: bool, made: set<(int, Kind)>)
    requires Enabled(s, step, relock) && Known(s, made) && CreatesIn([step], made) && ReturnsFree([step], made)
    ensures Known(Do(s, step, relock), made)
  {
    hide Unmatched, OwnMatched, OthersMatched, Victims, CanLock, Busy, Owned, Count, IsListed;
    assert [step][0] == step;
    if step.Destroy? {
      var others := OthersMatched(s.list, step.device, step.subdevice, step.caller);
      UnmatchedAreKept(s.list, step.device, step.subdevice);
      OwnAreListed(s.list, step.device, step.subdevice, step.caller);
      OthersAreOthers(s.list, step.device, step.subdevice, step.caller);
      VictimsAreListed(others);
    }
    if step.Return? && Owned(s.orphans, step.thread) {
      assert s.orphans[Index(s.orphans, step.thread)] in s.orphans;
    }
  }

  /** Over all runs: the mutex is never left locked if no thread of the two kinds returns anything but zero. */
  lemma {:induction false} MutexStaysFree(s: State, steps: seq<Step>, relock: bool, made: set<(int, Kind)>)
    requires CanRun(s, steps, relock) && Known(s, made) && CreatesIn(steps, made) && ReturnsFree(steps, made)
    ensures Known(Run(s, steps, relock), made)
    decreases |steps|
  {
    hide Known, Enabled, Do;
    if steps == [] {
    } else {
      var after := steps[1..];
      assert forall k :: 0 <= k < |after| ==> after[k] == steps[k + 1];
      assert [steps[0]][0] == steps[0];
      KnownStep(s, steps[0], relock, made);
      MutexStaysFree(Do(s, steps[0], relock), after, relock, made);
    }
  }

  lemma DisciplinedStaysFree(steps: seq<Step>, relock: bool, kinds: set<Kind>)
    requires CanRun(START, steps, relock) && Disciplined(steps, kinds)
    requires forall kind :: kind in kinds ==> !LeavesLocked(kind)
    ensures var m := Run(START, steps, relock).mutex; m.Held? ==> m.calling
  {
    hide CanRun, Run;
    var made := set k | 0 <= k < |steps| && steps[k].Create? :: (steps[k].thread, steps[k].kind);
    MutexStaysFree(START, steps, relock, made);
  }

  /** If the callbacks of threads of the given kinds may return anything, and the other ones return zero, the mutex is
      never left locked in any run exactly if neither of the two kinds is among the given ones. Whether it can be locked
      again makes no difference. */
  lemma NeverLeftLockedExactly(relock: bool, kinds: set<Kind>)
    ensures (forall steps :: CanRun(START, steps, relock) && Disciplined(steps, kinds) ==>
               (Run(START, steps, relock).mutex.Held? ==> Run(START, steps, relock).mutex.calling))
            <==> Irq !in kinds && StreamStart !in kinds
  {
    hide CanRun, Run, Disciplined;
    if Irq !in kinds && StreamStart !in kinds {
      forall steps | CanRun(START, steps, relock) && Disciplined(steps, kinds)
        ensures Run(START, steps, relock).mutex.Held? ==> Run(START, steps, relock).mutex.calling {
        DisciplinedStaysFree(steps, relock, kinds);
      }
    } else {
      var kind := if Irq in kinds then Irq else StreamStart;
      var steps := LateCallback(1, 2, kind, 0, 0, 0, 1, true);
      LateCallbackRuns(1, 2, kind, 0, 0, 0, 1, true, relock);
      OneKindIsDisciplined(kind, kinds);
    }
  }

  lemma OneKindIsDisciplined(kind: Kind, kinds: set<Kind>)
    requires kind in kinds
    ensures Disciplined(LateCallback(1, 2, kind, 0, 0, 0, 1, true), kinds)
  {
    var steps := LateCallback(1, 2, kind, 0, 0, 0, 1, true);
    assert steps == [Create(0, 1, 2, kind, 0, 0, 0, 1), Begin(1), Destroy(0, 0, 0), Enter(1), Return(1, true)];
  }

  // Late reads.

  lemma NoFindWithoutRelock(steps: seq<Step>, thread: int)
    requires CanRun(START, steps, false)
    ensures !FindsOne(Run(START, steps, false), thread)
  {
    hide CanRun, Run, Inv;
    StartIsFine();
    NoOrphansWithoutRelock(START, steps);
  }

  /** Thread `first` is cancelled while it waits for the mutex, its address is used again for thread `second`, which
      destroys itself, and then `first` calls back. */
  function Reuse(p: Ptr, args: Ptr, kind: Kind, caller: int, first: int, second: int, last: seq<Step>): seq<Step> {
    [Create(caller, p, args, kind, 0, 0, 0, first)] + ([Begin(first)] + ([Destroy(caller, 0, 0)]
    + ([Create(caller, p, args, kind, 0, 0, 0, second)] + ([Begin(second)] + ([Enter(second)] + ([Destroy(second, 0, 0)]
    + AfterReuse(first, second, last)))))))
  }

  function AfterReuse(first: int, second: int, last: seq<Step>): seq<Step> {
    [Return(second, false)] + ([Enter(first)] + ([Return(first, false)] + last))
  }

  /** This run needs a mutex that can be locked again, and then the late read of the first thread finds 1; when it ends,
      the record of the second thread is freed, which still is to free it. */
  lemma ReuseRuns(p: Ptr, args: Ptr, kind: Kind, caller: int, first: int, second: int, relock: bool)
    requires p != NULL && args != NULL && p != args && caller != first && caller != second && first != second
    ensures var found, ended := Reuse(p, args, kind, caller, first, second, []),
            Reuse(p, args, kind, caller, first, second, [Vanish(first)]);
            && (CanRun(START, found, relock) <==> relock)
            && (CanRun(START, ended, relock) <==> relock)
            && (relock ==> FindsOne(Run(START, found, relock), first) && !InOnePlace(Run(START, ended, relock)))
  {
    ReuseRun(p, args, kind, caller, first, second, relock, []);
    ReuseRun(p, args, kind, caller, first, second, relock, [Vanish(first)]);
  }

  lemma ReuseRun(p: Ptr, args: Ptr, kind: Kind, caller: int, first: int, second: int, relock: bool, last: seq<Step>)
    requires p != NULL && args != NULL && p != args && caller != first && caller != second && first != second
    requires last == [] || last == [Vanish(first)]
    ensures var steps := Reuse(p, args, kind, caller, first, second, last);
            && (CanRun(START, steps, relock) <==> relock)
            && (relock && last == [] ==> FindsOne(Run(START, steps, relock), first))
            && (relock && last != [] ==> !InOnePlace(Run(START, steps, relock)))
  {
    hide CanRun, Run, Count, Owned, Busy, IsOrphan, IsListed, InOnePlace, FindsOne;
    var destroy1, destroy2, enter2 := Destroy(caller, 0, 0), Destroy(second, 0, 0), Enter(second);
    var end := AfterReuse(first, second, last);
    var third := [Create(caller, p, args, kind, 0, 0, 0, second)] + ([Begin(second)] + ([enter2] + ([destroy2] + end)));
    StartIsQuiet();
    var r1, s1 := OneThread(START, p, args, kind, 0, 0, caller, first, [destroy1] + third, relock);
    var s2 := Killed(START, r1, caller, relock);
    QuietBusy(s2);
    FirstStep(s1, destroy1, third, relock);
    var r2, s3 := OneThread(s2, p, args, kind, 0, 0, caller, second, [enter2] + ([destroy2] + end), relock);
    var s4 := OwnEnd(s2, r2, relock);
    FirstStep(s3, enter2, [destroy2] + end, relock);
    FirstStep(Do(s3, enter2, relock), destroy2, end, relock);
    if relock {
      LateEnd(s4, r2, first, last, relock);
    }
  }

  lemma LateEnd(s: State, r: Rec, first: int, last: seq<Step>, relock: bool)
    requires s.list == [] && s.pending == [] && s.orphans == [Orphan(r, NULL)] && s.mutex == Held(r.thread, true)
    requires first != r.thread && first in s.killed && s.killed[first].p == r.p
    requires last == [] || last == [Vanish(first)]
    ensures CanRun(s, AfterReuse(first, r.thread, last), relock)
    ensures last == [] ==> FindsOne(Run(s, AfterReuse(first, r.thread, last), relock), first)
    ensures last != [] ==> !InOnePlace(Run(s, AfterReuse(first, r.thread, last), relock))
  {
    hide CanRun, Run, Count, Owned, InOnePlace;
    var back, enter, end, vanish := Return(r.thread, false), Enter(first), Return(first, false), Vanish(first);
    var s1 := Do(s, back, relock);
    var s2 := Do(s1, enter, relock);
    var s3 := Do(s2, end, relock);
    assert s3.orphans[0].rec.p == r.p;
    var s4 := Do(s3, vanish, relock);
    assert s4.freed == s3.freed + [r];
    FreedTwice(s4, r);
    FirstStep(s, back, [enter] + ([end] + last), relock);
    FirstStep(s1, enter, [end] + last, relock);
    FirstStep(s2, end, last, relock);
    FirstStep(s3, vanish, [], relock);
    FirstStep(s4, vanish, [], relock);
    assert [vanish] + [] == [vanish];
  }

  lemma FreedTwice(s: State, r: Rec)
    requires s.orphans == [Orphan(r, NULL)] && r in s.freed
    ensures !InOnePlace(s)
  {
    hide Count;
    assert s.orphans == [Orphan(r, NULL)] + [];
    RecsOne(Orphan(r, NULL), []);
    Nothing(Id(r.id));
    CountOne(r, [], Id(r.id));
    CountedIsListed(s.freed, Id(r.id));
  }

  /** A late read can find 1 exactly if the mutex can be locked again by its holder. */
  lemma LateReadsFindOneExactly(relock: bool)
    ensures (exists steps, thread :: CanRun(START, steps, relock) && FindsOne(Run(START, steps, relock), thread))
            <==> relock
  {
    hide CanRun, Run, FindsOne;
    if relock {
      ReuseRuns(1, 2, Irq, 0, 1, 2, relock);
      var steps := Reuse(1, 2, Irq, 0, 1, 2, []);
      assert CanRun(START, steps, relock) && FindsOne(Run(START, steps, relock), 1);
    } else {
      forall steps, thread | CanRun(START, steps, relock) ensures !FindsOne(Run(START, steps, relock), thread) {
        NoFindWithoutRelock(steps, thread);
      }
    }
  }

  /** Every record is in one place after every run exactly if the mutex cannot be locked again by its holder. */
  lemma RecordsInOnePlaceExactly(relock: bool)
    ensures (forall steps :: CanRun(START, steps, relock) ==> InOnePlace(Run(START, steps, relock))) <==> !relock
  {
    hide CanRun, Run, InOnePlace, Inv;
    if relock {
      ReuseRuns(1, 2, Irq, 0, 1, 2, relock);
      assert CanRun(START, Reuse(1, 2, Irq, 0, 1, 2, [Vanish(1)]), relock);
    } else {
      forall steps | CanRun(START, steps, relock) ensures InOnePlace(Run(START, steps, relock)) {
        StartIsFine();
        NoOrphansWithoutRelock(START, steps);
        EveryRecordInOnePlace(steps, relock);
      }
    }
  }

  // In words.

  lemma {:induction false} CountedTwice(l: seq<Rec>, i: nat, j: nat, key: Key)
    requires i < j < |l| && HasKey(l[i], key) && HasKey(l[j], key)
    ensures Count(l, key) >= 2
  {
    if i == 0 {
      CountedIsListed(l[1..], key);
      assert l[1..][j - 1] == l[j] && l[j] in l[1..];
    } else {
      CountedTwice(l[1..], i - 1, j - 1, key);
    }
  }

  lemma {:induction false} RecsAt(s: seq<Orphan>)
    ensures |Recs(s)| == |s| && forall k :: 0 <= k < |s| ==> Recs(s)[k] == s[k].rec
  {
    if s == [] {
    } else {
      RecsAt(s[1..]);
    }
  }

  lemma CountedIsAt(l: seq<Rec>, id: int)
    ensures Count(l, Id(id)) > 0 <==> exists k :: 0 <= k < |l| && l[k].id == id
  {
    hide Count;
    CountedIsListed(l, Id(id));
    if Count(l, Id(id)) > 0 {
      var r :| r in l && HasKey(r, Id(id));
      var k :| 0 <= k < |l| && l[k] == r;
      assert l[k].id == id;
    }
    if exists k :: 0 <= k < |l| && l[k].id == id {
      var k :| 0 <= k < |l| && l[k].id == id;
      assert l[k] in l && HasKey(l[k], Id(id));
    }
  }

  /** One place for every record: put the list, the records off it and the freed ones in a row, and every number given
      so far is found in it, no other number is, and none is found twice. */
  lemma OnePlaceInWords(s: State, id: int)
    requires InOnePlace(s)
    ensures var all := s.list + Recs(s.orphans) + s.freed;
            && (0 <= id < s.births <==> exists k :: 0 <= k < |all| && all[k].id == id)
            && (forall i, j :: 0 <= i < j < |all| ==> all[i].id != all[j].id)
  {
    hide Count, Recs, InOnePlace;
    var all := s.list + Recs(s.orphans) + s.freed;
    RowCounts(s, id);
    CountedIsAt(all, id);
    forall i, j | 0 <= i < j < |all| ensures all[i].id != all[j].id {
      if all[i].id == all[j].id {
        RowCounts(s, all[i].id);
        CountedTwice(all, i, j, Id(all[i].id));
      }
    }
  }

  lemma RowCounts(s: State, id: int)
    requires InOnePlace(s)
    ensures Count(s.list + Recs(s.orphans) + s.freed, Id(id)) == if 0 <= id < s.births then 1 else 0
  {
    hide Count, Recs;
    CountConcat(s.list, Recs(s.orphans), Id(id));
    CountConcat(s.list + Recs(s.orphans), s.freed, Id(id));
  }

  // The steps are what the code does.

  /** `p` is the address a thread looks at for its own record, and `kind` the function it runs. */
  ghost predicate IsOwn(s: State, thread: int, kind: Kind, p: Ptr) {
    if Owned(s.orphans, thread) then
      var r := s.orphans[Index(s.orphans, thread)].rec;
      r.kind == kind && r.p == p
    else if thread in s.killed then s.killed[thread] == Victim(kind, p)
    else exists k :: 0 <= k < |s.list| && s.list[k].thread == thread && s.list[k].kind == kind && s.list[k].p == p
  }

  /** The four loops behind the callback. Two of them look for the cancellation before they unlock the mutex, if the
      callback did not return zero. `stale` is what is read where there is no record any more, and `later` what the
      field holds at the second look, after the mutex is unlocked. */
  method CallbackReturns(heap: Heap<Cell>, kind: Kind, record: Ptr, result: bool, stale: int, later: int)
    returns (locked: bool, leaves: bool)
    ensures locked <==> result && CancelAt(heap.cells, record, stale) != 0 && (kind == Irq || kind == StreamStart)
    ensures leaves <==> locked || later != 0
  {
    locked, leaves := false, later != 0;
    match kind
    case Irq =>
      if result {
        if CancelAt(heap.cells, record, stale) != 0 {
          return true, true;
        }
      }
    case StreamStart =>
      if result {
        if CancelAt(heap.cells, record, stale) != 0 {
          return true, true;
        }
      }
    case StreamStop =>
    case StreamNewValues =>
  }

  /** What the first look finds: the record is off the list, unless it has become another one that is listed. */
  lemma CancelIsSeen(cells: map<Ptr, Cell>, head: Ptr, s: State, rest: map<Ptr, Cell>, thread: int, kind: Kind, p: Ptr,
                     stale: int, result: bool)
    requires InMemory(cells, head, s.list, s.pending, s.orphans, rest) && p !in rest && stale != 0
    requires OneRecordEach(s) && IsOwn(s, thread, kind, p)
    ensures StaysLocked(s, thread, result) <==>
            result && CancelAt(cells, p, stale) != 0 && (kind == Irq || kind == StreamStart)
  {
    hide InMemory, Count, Recs;
    LiveCancel(cells, head, s.list, s.pending, s.orphans, rest, p);
    OwnedCounts(s.orphans, thread);
    if Owned(s.orphans, thread) {
      assert IsOrphan(s.orphans, s.orphans[Index(s.orphans, thread)].rec.p);
    } else if thread !in s.killed {
      assert IsListed(s.list, p);
    }
  }

  /** Each step that touches memory takes the memory of a state to the memory of the next state; the addresses of a new
      record and its arguments are chosen by the allocation. `p` is the record of a thread that ends or whose callback
      returns, or the arguments of one that begins, and `stale` what a cancelled thread reads where its record was, if
      there is no record there any more. `locked` says whether a thread leaves its loop with the mutex locked. */
  method Perform(heap: Heap<Cell>, context: LocalContext, step: Step, p: Ptr, kind: Kind, late: bool, stale: int,
                 ghost s: State, ghost relock: bool, ghost rest: map<Ptr, Cell>)
    returns (ghost done: Step, locked: bool)
    requires (heap as object) != context
    requires InMemory(heap.cells, context.activeThreads, s.list, s.pending, s.orphans, rest)
    requires Enabled(s, step, relock)
    requires step.Begin? ==> p == s.pending[PendingIndex(s.pending, step.thread)].p
    requires step.Leave? ==> p == s.orphans[Index(s.orphans, step.thread)].rec.p
    requires step.Return? ==>
               OneRecordEach(s) && IsOwn(s, step.thread, kind, p) && p !in rest && stale != 0
    requires step.Vanish? ==> late == (step.thread in s.late)
    requires step.Vanish? && step.thread in s.late ==>
             p == s.late[step.thread] && p !in rest && !FindsOne(s, step.thread) && stale != 1
    modifies heap, context
    ensures if step.Create? then done.Create? && done == step.(p := done.p, args := done.args) else done == step
    ensures Enabled(s, done, relock)
    ensures var next := Do(s, done, relock); InMemory(heap.cells, context.activeThreads, next.list, next.pending,
                                                      next.orphans, rest)
    ensures step.Return? ==> (locked <==> Do(s, step, relock).mutex.Held?)
  {
    hide InMemory, CanLock, Busy, IsFree, Owned, Unmatched, OwnMatched, OthersMatched, StaysLocked, Victims, IsOwn,
        OneRecordEach;
    done, locked := step, false;
    match step
    case Create(caller, _, _, kind, device, subdevice, flags, thread) =>
      ghost var r, a;
      var err;
      ghost var cells: map<Ptr, Cell>, head := heap.cells, context.activeThreads;
      err, r, a := CreateThread(heap, context, device, subdevice, flags, true, thread, s.births, kind, s.list,
                                s.pending, s.orphans, rest);
      UnusedIsFree(cells, head, s.list, s.pending, s.orphans, rest, r.p);
      UnusedIsFree(cells, head, s.list, s.pending, s.orphans, rest, a.p);
      done := step.(p := r.p, args := a.p);
    case Begin(thread) =>
      var instance, flags := ThreadBegin(heap, context, p, PendingIndex(s.pending, thread), s.list, s.pending,
                                         s.orphans, rest);
    case Destroy(caller, device, subdevice) =>
      ghost var cancelled;
      var err;
      err, cancelled := DestroyThread(heap, context, device, subdevice, caller, s.list, s.pending, s.orphans, rest);
    case Return(thread, result) =>
      var leaves;
      locked, leaves := CallbackReturns(heap, kind, p, result, stale, stale);
      CancelIsSeen(heap.cells, context.activeThreads, s, rest, thread, kind, p, stale, result);
    case Leave(thread) =>
      ThreadEnd(heap, context, p, false, 0, Index(s.orphans, thread), s.list, s.pending, s.orphans, rest);
    case Vanish(thread) =>
      if late {
        ThreadEnd(heap, context, p, true, stale, 0, s.list, s.pending, s.orphans, rest);
      }
    case _ =>
  }
}
