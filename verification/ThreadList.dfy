/** The list of callback threads of a context: doCreateThread_Local, doDestroyThread_Local and the end of the thread
    functions (library/meids_local_calls.c). */
module ThreadList {
  import opened Defines
  import opened Memory
  import opened Ownership
  import opened Sequences

  /** threadsList_t, and the arguments of a new thread, threadContext_t, without the callback. */
  datatype Cell =
    | Record(next: Ptr, device: int, subdevice: int, thread: int, cancel: int)
    | Args(instance: Ptr, flags: int)

  /** The function a thread runs. */
  datatype Kind = Irq | StreamStart | StreamStop | StreamNewValues

  /** A record on the list: its address and contents, the function of its thread, and a number of its own, as an
      address may be used again. */
  datatype Rec = Rec(id: nat, p: Ptr, kind: Kind, device: int, subdevice: int, thread: int)

  /** A record that its own thread has taken off the list; it keeps its old successor. */
  datatype Orphan = Orphan(rec: Rec, next: Ptr)

  /** The arguments of a thread that has not begun to run. */
  datatype Pending = Pending(p: Ptr, thread: int, instance: Ptr, flags: int)

  ghost function First(l: seq<Rec>): Ptr {
    if l == [] then NULL else l[0].p
  }

  ghost function NodeAt(l: seq<Rec>, i: nat): Node<Cell>
    requires i < |l|
  {
    Node(l[i].p, Record(First(l[i + 1..]), l[i].device, l[i].subdevice, l[i].thread, 0))
  }

  ghost function ListLayout(l: seq<Rec>): Layout<Cell> {
    seq(|l|, i requires 0 <= i < |l| => NodeAt(l, i))
  }

  ghost function OrphanNode(o: Orphan): Node<Cell> {
    Node(o.rec.p, Record(o.next, o.rec.device, o.rec.subdevice, o.rec.thread, 1))
  }

  ghost function OrphanLayout(s: seq<Orphan>): Layout<Cell> {
    seq(|s|, i requires 0 <= i < |s| => OrphanNode(s[i]))
  }

  ghost function PendingLayout(s: seq<Pending>): Layout<Cell> {
    seq(|s|, i requires 0 <= i < |s| => Node(s[i].p, Args(s[i].instance, s[i].flags)))
  }

  class LocalContext {
    var activeThreads: Ptr
  }

  /** What is in memory: the list, the arguments of new threads, and the records that were taken off the list but not
      freed. */
  ghost predicate InMemory(cells: map<Ptr, Cell>, head: Ptr, list: seq<Rec>, pending: seq<Pending>,
                           orphans: seq<Orphan>, rest: map<Ptr, Cell>) {
    head == First(list) && Owns(cells, ListLayout(list) + PendingLayout(pending) + OrphanLayout(orphans), rest)
  }

  // Creating.

  /** doCreateThread_Local; `started` says whether pthread_create succeeded, and `thread` is the new thread. */
  method CreateThread(heap: Heap<Cell>, context: LocalContext, device: int, subdevice: int, flags: int, started: bool,
                      thread: int,
                      ghost id: nat, ghost kind: Kind,
                      ghost list: seq<Rec>, ghost pending: seq<Pending>, ghost orphans: seq<Orphan>,
                          ghost rest: map<Ptr, Cell>)
    returns (err: int, ghost r: Rec, ghost a: Pending)
    requires (heap as object) != context && InMemory(heap.cells, context.activeThreads, list, pending, orphans, rest)
    modifies heap, context
    ensures err == if started then ERRNO_SUCCESS else ERRNO_START_THREAD
    ensures r == Rec(id, r.p, kind, device, subdevice, thread) && r.p != NULL && r.p !in old(heap.cells)
    ensures a == Pending(a.p, thread, r.p, flags) && a.p != NULL && a.p !in old(heap.cells) && a.p != r.p
    ensures if started then InMemory(heap.cells, context.activeThreads, [r] + list, pending + [a], orphans, rest)
            else heap.cells == old(heap.cells) && context.activeThreads == old(context.activeThreads)
  {
    hide Owns, ListLayout, OrphanLayout, PendingLayout;
    ghost var before: map<Ptr, Cell> := heap.cells;
    var threadArgs := heap.Alloc(Args(NULL, 0));
    var newThread := heap.Alloc(Record(NULL, 0, 0, 0, 0));
    r := Rec(id, newThread, kind, device, subdevice, thread);
    a := Pending(threadArgs, thread, newThread, flags);
    heap.Write(newThread, Record(NULL, device, subdevice, 0, 0));
    heap.Write(threadArgs, Args(newThread, flags));
    if !started {
      heap.Free(newThread);
      heap.Free(threadArgs);
      assert heap.cells == before;
      return ERRNO_START_THREAD, r, a;
    }
    heap.Write(newThread, heap.cells[newThread].(thread := thread, next := context.activeThreads));
    context.activeThreads := newThread;
    assert heap.cells == before[threadArgs := Args(newThread, flags)][newThread := Record(First(list), device,
            subdevice, thread, 0)];
    Handed(before, a, list, pending, orphans, rest);
    Pushed(before[threadArgs := Args(newThread, flags)], r, list, PendingLayout(pending + [a]), OrphanLayout(orphans),
           rest);
    return ERRNO_SUCCESS, r, a;
  }

  lemma Handed(cells: map<Ptr, Cell>, a: Pending, list: seq<Rec>, pending: seq<Pending>, orphans: seq<Orphan>,
               rest: map<Ptr, Cell>)
    requires Owns(cells, ListLayout(list) + PendingLayout(pending) + OrphanLayout(orphans), rest) && a.p != NULL
    requires a.p !in cells
    ensures Owns(cells[a.p := Args(a.instance, a.flags)],
                 ListLayout(list) + PendingLayout(pending + [a]) + OrphanLayout(orphans), rest)
  {
    hide Owns, ListLayout, OrphanLayout;
    var n := Node(a.p, Args(a.instance, a.flags));
    OwnsAppend(cells, ListLayout(list) + PendingLayout(pending) + OrphanLayout(orphans), rest, n.p, n.cell);
    OwnsRotate(cells[n.p := n.cell], ListLayout(list) + PendingLayout(pending), OrphanLayout(orphans), [n], rest);
    assert ListLayout(list) + PendingLayout(pending) + [n] == ListLayout(list) + PendingLayout(pending + [a]);
  }

  lemma Pushed(cells: map<Ptr, Cell>, r: Rec, list: seq<Rec>, args: Layout<Cell>, others: Layout<Cell>,
               rest: map<Ptr, Cell>)
    requires Owns(cells, ListLayout(list) + args + others, rest) && r.p != NULL && r.p !in cells
    ensures Owns(cells[r.p := Record(First(list), r.device, r.subdevice, r.thread, 0)],
                 ListLayout([r] + list) + args + others, rest)
  {
    hide Owns;
    var n := NodeAt([r] + list, 0);
    assert ([r] + list)[1..] == list;
    OwnsAppend(cells, ListLayout(list) + args + others, rest, n.p, n.cell);
    OwnsSwap(cells[n.p := n.cell], ListLayout(list) + args + others, [n], rest);
    forall i | 0 <= i < |list| ensures NodeAt([r] + list, i + 1) == NodeAt(list, i) {
      assert ([r] + list)[i + 2..] == list[i + 1..];
    }
    assert [n] + (ListLayout(list) + args + others) == ListLayout([r] + list) + args + others;
  }

  /** The beginning of a thread function: the arguments are copied and freed. */
  method ThreadBegin(heap: Heap<Cell>, context: LocalContext, arg: Ptr,
                     ghost k: nat, ghost list: seq<Rec>, ghost pending: seq<Pending>, ghost orphans: seq<Orphan>,
                         ghost rest: map<Ptr, Cell>)
    returns (instance: Ptr, flags: int)
    requires k < |pending| && arg == pending[k].p
    requires InMemory(heap.cells, context.activeThreads, list, pending, orphans, rest)
    modifies heap
    ensures instance == pending[k].instance && flags == pending[k].flags
    ensures InMemory(heap.cells, context.activeThreads, list, pending[..k] + pending[k + 1..], orphans, rest)
  {
    hide Owns, First;
    ghost var layout := ListLayout(list) + PendingLayout(pending) + OrphanLayout(orphans);
    OwnsAt(heap.cells, layout, rest, |list| + k);
    OwnsFree(heap.cells, layout, rest, |list| + k);
    assert layout[..|list| + k] + layout[|list| + k + 1..]
        == ListLayout(list) + PendingLayout(pending[..k] + pending[k + 1..]) + OrphanLayout(orphans);
    instance, flags := heap.cells[arg].instance, heap.cells[arg].flags;
    heap.Free(arg);
  }

  // Destroying.

  /** The records that are destroyed; a negative number stands for any. */
  predicate Matches(device: int, subdevice: int, r: Rec) {
    device < 0 || (r.device == device && (subdevice < 0 || r.subdevice == subdevice))
  }

  function Unmatched(list: seq<Rec>, device: int, subdevice: int): seq<Rec> {
    if list == [] then []
    else (if Matches(device, subdevice, list[0]) then [] else [list[0]]) + Unmatched(list[1..], device, subdevice)
  }

  /** The destroyed record of the calling thread is not freed; that thread does it later. */
  ghost function OwnMatched(list: seq<Rec>, device: int, subdevice: int, self: int): seq<Orphan> {
    if list == [] then []
    else (if Matches(device, subdevice, list[0]) && list[0].thread == self then [Orphan(list[0], First(list[1..]))]
          else [])
         + OwnMatched(list[1..], device, subdevice, self)
  }

  /** doDestroyThread_Local under its mutex, called by thread `self`. */
  method DestroyThread(heap: Heap<Cell>, context: LocalContext, device: int, subdevice: int, self: int,
                       ghost list: seq<Rec>, ghost pending: seq<Pending>, ghost orphans: seq<Orphan>,
                           ghost rest: map<Ptr, Cell>)
    returns (err: int, ghost cancelled: seq<int>)
    requires (heap as object) != context && InMemory(heap.cells, context.activeThreads, list, pending, orphans, rest)
    modifies heap, context
    ensures err == ERRNO_SUCCESS
    ensures InMemory(heap.cells, context.activeThreads, Unmatched(list, device, subdevice), pending,
                     orphans + OwnMatched(list, device, subdevice, self), rest)
    ensures cancelled == Threads(OthersMatched(list, device, subdevice, self))
  {
    hide Owns, ListLayout, OrphanLayout, PendingLayout, Matches, Unmatched, OwnMatched, OthersMatched, Threads,
        Relinked;
    ghost var kept: seq<Rec>, todo, taken := [], list, orphans;
    cancelled := [];
    var place: Ptr := NULL;  // NULL stands for the address of activeThreads, p for the address of p->next
    var active := context.activeThreads;
    assert kept + todo == list && kept + Unmatched(todo, device, subdevice) == Unmatched(list, device, subdevice);
    assert cancelled + Threads(OthersMatched(todo, device, subdevice, self))
        == Threads(OthersMatched(list, device, subdevice, self));
    while active != NULL
      invariant active == First(todo) && place == LastOf(kept)
      invariant InMemory(heap.cells, context.activeThreads, kept + todo, pending, taken, rest)
      invariant kept + Unmatched(todo, device, subdevice) == Unmatched(list, device, subdevice)
      invariant taken + OwnMatched(todo, device, subdevice, self) == orphans + OwnMatched(list, device, subdevice, self)
      invariant cancelled + Threads(OthersMatched(todo, device, subdevice, self))
                == Threads(OthersMatched(list, device, subdevice, self))
      decreases |todo|
    {
      ghost var x, after := todo[0], todo[1..];
      ghost var cells: map<Ptr, Cell> := heap.cells;
      Look(cells, kept, todo, PendingLayout(pending), taken, rest);
      OneRecord(todo, device, subdevice, self);
      assert todo == [x] + after;
      Compared(device, subdevice, x);
      if device < 0 || (heap.cells[active].device == device
                        && (subdevice < 0 || heap.cells[active].subdevice == subdevice)) {
        var deleteThread := active;
        Unlink(cells, kept, x, after, PendingLayout(pending), taken, rest);
        active := heap.cells[deleteThread].next;
        if place == NULL {
          context.activeThreads := active;
        } else {
          heap.Write(place, heap.cells[place].(next := active));
        }
        HeadOf(kept, after);
        assert heap.cells == Relinked(cells, kept, First(after)) by {
          LinkTurned(cells, kept, First(after));
        }
        if heap.cells[deleteThread].thread == self {
          AppendPrepend(taken, Orphan(x, First(after)), OwnMatched(after, device, subdevice, self));
          heap.Write(deleteThread, heap.cells[deleteThread].(cancel := 1));
          taken := taken + [Orphan(x, First(after))];
        } else {
          heap.Write(deleteThread, heap.cells[deleteThread].(cancel := 2));
          AppendPrepend(cancelled, x.thread, Threads(OthersMatched(after, device, subdevice, self)));
          cancelled := cancelled + [heap.cells[deleteThread].thread];  // pthread_cancel
          heap.Free(deleteThread);
          assert heap.cells == Relinked(cells, kept, First(after)) - {x.p};
        }
      } else {
        place := active;
        active := heap.cells[active].next;
        AppendPrepend(kept, x, after);
        AppendPrepend(kept, x, Unmatched(after, device, subdevice));
        kept := kept + [x];
      }
      todo := after;
    }
    Look(heap.cells, kept, todo, PendingLayout(pending), taken, rest);
    NothingLeft(device, subdevice, self);
    assert todo == [] && kept + [] == kept && taken + [] == taken && cancelled + [] == cancelled;
    err := ERRNO_SUCCESS;
  }

  lemma Compared(device: int, subdevice: int, r: Rec)
    ensures Matches(device, subdevice, r)
            <==> device < 0 || (r.device == device && (subdevice < 0 || r.subdevice == subdevice))
  {
  }

  lemma NothingLeft(device: int, subdevice: int, self: int)
    ensures Unmatched([], device, subdevice) == [] && OwnMatched([], device, subdevice, self) == []
    ensures Threads(OthersMatched([], device, subdevice, self)) == []
  {
  }

  lemma OneRecord(todo: seq<Rec>, device: int, subdevice: int, self: int)
    requires todo != []
    ensures var x, after := todo[0], todo[1..]; var matches := Matches(device, subdevice, x);
            && Unmatched(todo, device, subdevice) == (if matches then [] else [x]) + Unmatched(after, device, subdevice)
            && OwnMatched(todo, device, subdevice, self)
               == (if matches && x.thread == self then [Orphan(x, First(after))] else [])
                   + OwnMatched(after, device, subdevice, self)
            && Threads(OthersMatched(todo, device, subdevice, self))
               == (if matches && x.thread != self then [x.thread] else [])
                   + Threads(OthersMatched(after, device, subdevice, self))
  {
  }

  lemma HeadOf(kept: seq<Rec>, after: seq<Rec>)
    ensures First(kept + after) == if kept == [] then First(after) else First(kept)
  {
  }

  lemma LinkTurned(cells: map<Ptr, Cell>, kept: seq<Rec>, next: Ptr)
    requires kept != [] ==> LastOf(kept) in cells && cells[LastOf(kept)].Record?
    ensures Relinked(cells, kept, next) == if kept == [] then cells
            else cells[LastOf(kept) := cells[LastOf(kept)].(next := next)]
  {
  }

  ghost function OthersMatched(list: seq<Rec>, device: int, subdevice: int, self: int): seq<Rec> {
    if list == [] then []
    else (if Matches(device, subdevice, list[0]) && list[0].thread != self then [list[0]] else [])
         + OthersMatched(list[1..], device, subdevice, self)
  }

  ghost function Threads(list: seq<Rec>): (r: seq<int>)
    ensures |r| == |list|
  {
    seq(|list|, i requires 0 <= i < |list| => list[i].thread)
  }

  ghost function LastOf(l: seq<Rec>): Ptr {
    if l == [] then NULL else l[|l| - 1].p
  }

  /** The record behind `kept` can be read. */
  lemma Look(cells: map<Ptr, Cell>, kept: seq<Rec>, todo: seq<Rec>, args: Layout<Cell>, taken: seq<Orphan>,
             rest: map<Ptr, Cell>)
    requires Owns(cells, ListLayout(kept + todo) + args + OrphanLayout(taken), rest)
    ensures todo != [] ==> todo[0].p != NULL && todo[0].p in cells && cells[todo[0].p] == NodeAt(todo, 0).cell
  {
    hide Owns;
    if todo != [] {
      var l := kept + todo;
      assert l[|kept| + 1..] == todo[1..];
      OwnsAt(cells, ListLayout(l) + args + OrphanLayout(taken), rest, |kept|);
    }
  }

  /** Memory after the link to x is turned around x. */
  ghost function Relinked(cells: map<Ptr, Cell>, kept: seq<Rec>, next: Ptr): map<Ptr, Cell>
    requires kept != [] ==> LastOf(kept) in cells && cells[LastOf(kept)].Record?
  {
    if kept == [] then cells else cells[LastOf(kept) := cells[LastOf(kept)].(next := next)]
  }

  lemma Unlink(cells: map<Ptr, Cell>, kept: seq<Rec>, x: Rec, after: seq<Rec>, args: Layout<Cell>, taken: seq<Orphan>,
               rest: map<Ptr, Cell>)
    requires Owns(cells, ListLayout(kept + ([x] + after)) + args + OrphanLayout(taken), rest)
    ensures x.p != NULL && x.p in cells && (kept != [] ==> LastOf(kept) != NULL && LastOf(kept) != x.p)
    ensures kept != [] ==> LastOf(kept) in cells && cells[LastOf(kept)].Record?
    ensures var m, c := Relinked(cells, kept, First(after)), Record(First(after), x.device, x.subdevice, x.thread, 1);
            && Owns(m - {x.p}, ListLayout(kept + after) + args + OrphanLayout(taken), rest)
            && Owns(m[x.p := c], ListLayout(kept + after) + args + OrphanLayout(taken + [Orphan(x, First(after))]),
                    rest)
  {
    hide Owns, ListLayout, OrphanLayout, Relinked;
    AppendAssociates(ListLayout(kept + ([x] + after)), args, OrphanLayout(taken));
    AppendAssociates(ListLayout(kept + after), args, OrphanLayout(taken));
    TakeOut(cells, kept, x, after, args + OrphanLayout(taken), rest);
    MakeOrphan(Relinked(cells, kept, First(after)), ListLayout(kept + after) + args, taken, Orphan(x, First(after)),
               rest);
  }

  lemma TakeOut(cells: map<Ptr, Cell>, kept: seq<Rec>, x: Rec, after: seq<Rec>, others: Layout<Cell>,
                rest: map<Ptr, Cell>)
    requires Owns(cells, ListLayout(kept + ([x] + after)) + others, rest)
    ensures x.p != NULL && x.p in cells && (kept != [] ==> LastOf(kept) != NULL && LastOf(kept) != x.p)
    ensures kept != [] ==> LastOf(kept) in cells && cells[LastOf(kept)].Record?
    ensures Owns(Relinked(cells, kept, First(after)) - {x.p}, ListLayout(kept + after) + others, rest)
  {
    hide Owns;
    var k, l := |kept|, kept + ([x] + after);
    var layout := ListLayout(l) + others;
    Skipped(kept, x, after);
    OwnsAt(cells, layout, rest, k);
    if k > 0 {
      OwnsAt(cells, layout, rest, k - 1);
      OwnsDistinct(cells, layout, rest, k - 1, k);
      var c := layout[k - 1].cell.(next := First(after));
      OwnsWrite(cells, layout, rest, k - 1, c);
      var w := layout[k - 1 := Node(LastOf(kept), c)];
      OwnsFree(cells[LastOf(kept) := c], w, rest, k);
      assert w[..k] + w[k + 1..] == ListLayout(kept + after) + others;
    } else {
      OwnsFree(cells, layout, rest, k);
      assert layout[..k] + layout[k + 1..] == ListLayout(kept + after) + others;
    }
  }

  lemma MakeOrphan(m: map<Ptr, Cell>, list: Layout<Cell>, taken: seq<Orphan>, o: Orphan, rest: map<Ptr, Cell>)
    requires Owns(m - {o.rec.p}, list + OrphanLayout(taken), rest) && o.rec.p != NULL
    ensures Owns(m[o.rec.p := OrphanNode(o).cell], list + OrphanLayout(taken + [o]), rest)
  {
    hide Owns;
    var p, c := o.rec.p, OrphanNode(o).cell;
    OwnsAppend(m - {p}, list + OrphanLayout(taken), rest, p, c);
    assert (m - {p})[p := c] == m[p := c];
    assert list + OrphanLayout(taken) + [Node(p, c)] == list + OrphanLayout(taken + [o]);
  }

  /** Taking out x changes the successor of the record before it and nothing else. */
  lemma Skipped(kept: seq<Rec>, x: Rec, after: seq<Rec>)
    ensures var l, s, k := kept + ([x] + after), kept + after, |kept|;
            && (forall i :: 0 <= i < k - 1 ==> NodeAt(s, i) == NodeAt(l, i))
            && (k > 0 ==> NodeAt(s, k - 1) == NodeAt(l, k - 1).(cell := NodeAt(l, k - 1).cell.(next := First(after))))
            && (forall i :: k <= i < |s| ==> NodeAt(s, i) == NodeAt(l, i + 1))
  {
  }

  /** What a read of the field `cancel` finds at an address: the field of a live record, or `stale` where there is no
      record any more. */
  function CancelAt(cells: map<Ptr, Cell>, p: Ptr, stale: int): int {
    if p in cells && cells[p].Record? then cells[p].cancel else stale
  }

  /** Some thread has taken the record at p off the list and not freed it. */
  ghost predicate IsOrphan(orphans: seq<Orphan>, p: Ptr) {
    exists k :: 0 <= k < |orphans| && orphans[k].rec.p == p
  }

  ghost predicate IsListed(list: seq<Rec>, p: Ptr) {
    exists k :: 0 <= k < |list| && list[k].p == p
  }

  ghost predicate IsArgs(pending: seq<Pending>, p: Ptr) {
    exists k :: 0 <= k < |pending| && pending[k].p == p
  }

  /** An address at which there is nothing yet. */
  ghost predicate IsFree(list: seq<Rec>, pending: seq<Pending>, orphans: seq<Orphan>, p: Ptr) {
    p != NULL && !IsListed(list, p) && !IsArgs(pending, p) && !IsOrphan(orphans, p)
  }

  lemma UnusedIsFree(cells: map<Ptr, Cell>, head: Ptr, list: seq<Rec>, pending: seq<Pending>, orphans: seq<Orphan>,
                     rest: map<Ptr, Cell>, p: Ptr)
    requires InMemory(cells, head, list, pending, orphans, rest) && p != NULL && p !in cells
    ensures IsFree(list, pending, orphans, p)
  {
    hide Owns;
    var layout := ListLayout(list) + PendingLayout(pending) + OrphanLayout(orphans);
    forall k | 0 <= k < |layout| ensures layout[k].p in cells {
      OwnsAt(cells, layout, rest, k);
    }
    forall k | 0 <= k < |list| ensures list[k].p != p {
      assert layout[k].p == list[k].p;
    }
    forall k | 0 <= k < |pending| ensures pending[k].p != p {
      assert layout[|list| + k].p == pending[k].p;
    }
    forall k | 0 <= k < |orphans| ensures orphans[k].rec.p != p {
      assert layout[|list| + |pending| + k].p == orphans[k].rec.p;
    }
  }

  /** Every cell that is not part of the rest has a place in the layout. */
  lemma {:induction false} HasPlace(cells: map<Ptr, Cell>, l: Layout<Cell>, rest: map<Ptr, Cell>, p: Ptr)
    returns (k: nat)
    requires Owns(cells, l, rest) && p in cells && p !in rest
    ensures k < |l| && l[k].p == p
    decreases |l|
  {
    var n := |l| - 1;
    if l[n].p == p {
      k := n;
    } else {
      k := HasPlace(cells - {l[n].p}, l[..n], rest, p);
    }
  }

  /** A live record at p reads 0 if it is listed, and 1 if it is an orphan. */
  lemma LiveCancel(cells: map<Ptr, Cell>, head: Ptr, list: seq<Rec>, pending: seq<Pending>, orphans: seq<Orphan>,
                   rest: map<Ptr, Cell>, p: Ptr)
    requires InMemory(cells, head, list, pending, orphans, rest) && p !in rest
    ensures IsOrphan(orphans, p) ==> CancelAt(cells, p, 2) == 1
    ensures IsListed(list, p) ==> CancelAt(cells, p, 2) == 0
    ensures p in cells && cells[p].Record? ==> IsOrphan(orphans, p) || IsListed(list, p)
  {
    hide Owns;
    var layout := ListLayout(list) + PendingLayout(pending) + OrphanLayout(orphans);
    if IsOrphan(orphans, p) {
      var k :| 0 <= k < |orphans| && orphans[k].rec.p == p;
      OwnsAt(cells, layout, rest, |list| + |pending| + k);
    }
    if IsListed(list, p) {
      var k :| 0 <= k < |list| && list[k].p == p;
      OwnsAt(cells, layout, rest, k);
    }
    if p in cells && cells[p].Record? {
      var k := HasPlace(cells, layout, rest, p);
      OwnsAt(cells, layout, rest, k);
      if k < |list| {
        assert list[k].p == p;
      } else {
        var o := k - |list| - |pending|;
        assert o >= 0;
        assert orphans[o].rec.p == p;
      }
    }
  }

  /** The end of a thread function. A thread that was cancelled by another one has no record any more and still looks at
      its old address; this frees nothing as long as no other thread's record is waiting there to be freed, and `stale`,
      which is 2 unless the memory was used for something else, is not 1. */
  method ThreadEnd(heap: Heap<Cell>, context: LocalContext, record: Ptr, cancelled: bool, stale: int,
                   ghost k: nat, ghost list: seq<Rec>, ghost pending: seq<Pending>, ghost orphans: seq<Orphan>,
                   ghost rest: map<Ptr, Cell>)
    requires InMemory(heap.cells, context.activeThreads, list, pending, orphans, rest)
    requires if cancelled then record !in rest && !IsOrphan(orphans, record) && stale != 1
             else k < |orphans| && record == orphans[k].rec.p
    modifies heap
    ensures InMemory(heap.cells, context.activeThreads, list, pending,
                     if cancelled then orphans else orphans[..k] + orphans[k + 1..], rest)
  {
    hide Owns, First, IsOrphan, IsListed;
    if cancelled {
      LiveCancel(heap.cells, context.activeThreads, list, pending, orphans, rest, record);
    } else {
      ghost var layout := ListLayout(list) + PendingLayout(pending) + OrphanLayout(orphans);
      ghost var i := |list| + |pending| + k;
      OwnsAt(heap.cells, layout, rest, i);
      OwnsFree(heap.cells, layout, rest, i);
      assert layout[..i] + layout[i + 1..]
          == ListLayout(list) + PendingLayout(pending) + OrphanLayout(orphans[..k] + orphans[k + 1..]);
    }
    if CancelAt(heap.cells, record, stale) == 1 {
      heap.Free(record);
    }
  }

  // In words.

  /** Destroying: a record is kept exactly if neither the device is negative nor the numbers agree, a negative subdevice
      standing for any; of the others, the thread itself keeps its own records, and the other threads are cancelled. */
  lemma {:induction false} DestroyedRecords(list: seq<Rec>, device: int, subdevice: int, self: int, r: Rec)
    ensures var hit := device < 0 || (r.device == device && (subdevice < 0 || r.subdevice == subdevice));
            && (r in Unmatched(list, device, subdevice) <==> r in list && !hit)
            && (r in OthersMatched(list, device, subdevice, self) <==> r in list && hit && r.thread != self)
            && ((exists o :: o in OwnMatched(list, device, subdevice, self) && o.rec == r) <==>
                r in list && hit && r.thread == self)
  {
    hide Matches, First;
    if list == [] {
    } else {
      var x, l := list[0], list[1..];
      DestroyedRecords(l, device, subdevice, self, r);
      Compared(device, subdevice, x);
      OneRecord(list, device, subdevice, self);
      assert r in list <==> r == x || r in l;
      var own := OwnMatched(l, device, subdevice, self);
      if Matches(device, subdevice, x) && x.thread == self {
        assert OwnMatched(list, device, subdevice, self) == [Orphan(x, First(l))] + own;
        assert forall o :: o in [Orphan(x, First(l))] + own <==> o == Orphan(x, First(l)) || o in own;
      }
    }
  }

  /** The list, the arguments and the records taken off the list, in memory: listed records lead to each other and read
      0, the others read 1. */
  lemma ThreadsInMemory(cells: map<Ptr, Cell>, head: Ptr, list: seq<Rec>, pending: seq<Pending>, orphans: seq<Orphan>,
                        rest: map<Ptr, Cell>)
    requires InMemory(cells, head, list, pending, orphans, rest)
    ensures head == if list == [] then NULL else list[0].p
    ensures forall k :: 0 <= k < |list| ==>
              && list[k].p != NULL && list[k].p in cells && list[k].p !in rest && cells[list[k].p].Record?
              && cells[list[k].p].device == list[k].device && cells[list[k].p].subdevice == list[k].subdevice
              && cells[list[k].p].thread == list[k].thread && cells[list[k].p].cancel == 0
    ensures forall k, next :: 0 <= k < next < |list| && next == k + 1 ==> cells[list[k].p].next == list[next].p
    ensures list != [] ==> cells[list[|list| - 1].p].next == NULL
    ensures forall k :: 0 <= k < |pending| ==>
              && pending[k].p != NULL && pending[k].p in cells && pending[k].p !in rest
              && cells[pending[k].p] == Args(pending[k].instance, pending[k].flags)
    ensures forall k :: 0 <= k < |orphans| ==>
              var r := orphans[k].rec;
              r.p != NULL && r.p in cells && r.p !in rest
              && cells[r.p] == Record(orphans[k].next, r.device, r.subdevice, r.thread, 1)
  {
    hide Owns;
    var layout := ListLayout(list) + PendingLayout(pending) + OrphanLayout(orphans);
    forall k | 0 <= k < |list|
      ensures list[k].p != NULL && list[k].p in cells && list[k].p !in rest
      ensures cells[list[k].p] == NodeAt(list, k).cell {
      OwnsAt(cells, layout, rest, k);
    }
    forall k | 0 <= k < |pending|
      ensures pending[k].p != NULL && pending[k].p in cells && pending[k].p !in rest
      ensures cells[pending[k].p] == Args(pending[k].instance, pending[k].flags) {
      OwnsAt(cells, layout, rest, |list| + k);
    }
    forall k | 0 <= k < |orphans|
      ensures orphans[k].rec.p != NULL && orphans[k].rec.p in cells && orphans[k].rec.p !in rest
      ensures cells[orphans[k].rec.p] == OrphanNode(orphans[k]).cell {
      OwnsAt(cells, layout, rest, |list| + |pending| + k);
    }
  }
}
