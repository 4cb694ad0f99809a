/** The linked list of addresses and the functions that build it through pointers to its tail: CreateInit, CleanInit,
    DestroyInit and SearchInit (library/meids_init.c). */
module AddressList {
  import opened Defines
  import opened Memory
  import opened Ownership
  import opened Sequences
  import opened AddressFile

  /** addr_list_t; the copy of the address is part of the cell. */
  datatype Cell = Addr(addr: string, flag: int, next: Ptr)

  datatype Item = Item(p: Ptr, entry: Entry)

  /** A variable holding the head of a list. A place in a list is the address of a `next` field, given by its cell, or
      the address of this variable, given by NULL. */
  class Root {
    var head: Ptr
    constructor ()
      ensures head == NULL
    {
      head := NULL;
    }
  }

  ghost function Entries(l: seq<Item>): (r: seq<Entry>)
    ensures |r| == |l|
  {
    seq(|l|, i requires 0 <= i < |l| => l[i].entry)
  }

  ghost function FirstOr(l: seq<Item>, next: Ptr): Ptr {
    if l == [] then next else l[0].p
  }

  ghost function CellAt(l: seq<Item>, i: nat, next: Ptr): Cell
    requires i < |l|
  {
    Addr(l[i].entry.addr, l[i].entry.flag, if i + 1 < |l| then l[i + 1].p else next)
  }

  /** The cells of a list whose last cell points to `next`. */
  ghost function Layout(l: seq<Item>, next: Ptr): Ownership.Layout<Cell> {
    seq(|l|, i requires 0 <= i < |l| => Node(l[i].p, CellAt(l, i, next)))
  }

  ghost function LastPlace(l: seq<Item>): Ptr {
    if l == [] then NULL else l[|l| - 1].p
  }

  ghost predicate InMemory(cells: map<Ptr, Cell>, head: Ptr, l: seq<Item>, others: Ownership.Layout<Cell>,
                           rest: map<Ptr, Cell>) {
    head == FirstOr(l, NULL) && Owns(cells, Layout(l, NULL) + others, rest)
  }

  /** What memory holds: the variable leads to the first cell, every cell to the next one and the last one nowhere. */
  lemma ListInMemory(cells: map<Ptr, Cell>, head: Ptr, l: seq<Item>, rest: map<Ptr, Cell>)
    requires InMemory(cells, head, l, [], rest)
    ensures head == (if l == [] then NULL else l[0].p)
    ensures forall k :: 0 <= k < |l| ==> l[k].p != NULL && l[k].p in cells && l[k].p !in rest
    ensures forall k :: 0 <= k < |l| ==>
              cells[l[k].p].addr == l[k].entry.addr && cells[l[k].p].flag == l[k].entry.flag
    ensures forall k, next :: 0 <= k < next < |l| && next == k + 1 ==> cells[l[k].p].next == l[next].p
    ensures l != [] ==> cells[l[|l| - 1].p].next == NULL
    ensures forall k :: 0 <= k < |l| ==> Entries(l)[k] == l[k].entry
  {
    hide Owns;
    var layout := Layout(l, NULL) + [];
    forall k | 0 <= k < |l|
      ensures l[k].p != NULL && l[k].p in cells && l[k].p !in rest && cells[l[k].p] == CellAt(l, k, NULL) {
      OwnsAt(cells, layout, rest, k);
    }
  }

  /** The list and the rest are all there is in memory, and the list does not meet itself. */
  lemma ListIsApart(cells: map<Ptr, Cell>, head: Ptr, l: seq<Item>, rest: map<Ptr, Cell>)
    requires InMemory(cells, head, l, [], rest)
    ensures forall i, j :: 0 <= i < j < |l| ==> l[i].p != l[j].p
    ensures forall p :: p in rest ==> p in cells && cells[p] == rest[p]
    ensures forall p :: p in cells && p !in rest ==> exists k :: 0 <= k < |l| && l[k].p == p
  {
    hide Owns, CellAt;
    var layout := Layout(l, NULL) + [];
    OwnsHas(cells, layout, rest);
    forall i, j | 0 <= i < j < |l| ensures l[i].p != l[j].p {
      OwnsDistinct(cells, layout, rest, i, j);
    }
    forall p | p in cells && p !in rest ensures exists k :: 0 <= k < |l| && l[k].p == p {
      OwnsAll(cells, layout, rest, p);
      var k :| 0 <= k < |layout| && layout[k].p == p;
      assert l[k].p == p;
    }
  }

  // Reading and writing at a place.

  /** Memory after `next` is written at the end of l. */
  ghost function Linked(cells: map<Ptr, Cell>, l: seq<Item>, next: Ptr): map<Ptr, Cell>
    requires l != [] ==> LastPlace(l) in cells
  {
    if l == [] then cells else cells[LastPlace(l) := cells[LastPlace(l)].(next := next)]
  }

  /** The pointer behind l, in a list that goes on with `after`. */
  method Read(heap: Heap<Cell>, root: Root, place: Ptr, ghost l: seq<Item>, ghost after: seq<Item>,
              ghost others: Ownership.Layout<Cell>, ghost rest: map<Ptr, Cell>)
    returns (p: Ptr)
    requires place == LastPlace(l) && InMemory(heap.cells, root.head, l + after, others, rest)
    ensures p == FirstOr(after, NULL)
    ensures after != [] ==> p != NULL && p in heap.cells && heap.cells[p] == CellAt(after, 0, NULL)
  {
    hide Owns;
    ghost var all := l + after;
    if l != [] {
      OwnsAt(heap.cells, Layout(all, NULL) + others, rest, |l| - 1);
    }
    if after != [] {
      OwnsAt(heap.cells, Layout(all, NULL) + others, rest, |l|);
    }
    p := if place == NULL then root.head else heap.cells[place].next;
  }

  method Write(heap: Heap<Cell>, root: Root, place: Ptr, p: Ptr, ghost l: seq<Item>)
    requires (heap as object) != root && place == LastPlace(l)
    requires l != [] ==> place != NULL && place in heap.cells
    modifies heap, root
    ensures heap.cells == Linked(old(heap.cells), l, p)
    ensures root.head == if l == [] then p else old(root.head)
  {
    if place == NULL {
      root.head := p;
    } else {
      heap.Write(place, heap.cells[place].(next := p));
    }
  }

  /** Writing at the end of l relinks a list whose memory is otherwise the same. */
  lemma Relink(cells: map<Ptr, Cell>, l: seq<Item>, was: Ptr, next: Ptr, others: Ownership.Layout<Cell>,
               rest: map<Ptr, Cell>)
    requires Owns(cells, Layout(l, was) + others, rest)
    ensures l != [] ==> LastPlace(l) != NULL && LastPlace(l) in cells
    ensures Owns(Linked(cells, l, next), Layout(l, next) + others, rest)
  {
    hide Owns;
    if l != [] {
      var k, layout := |l| - 1, Layout(l, was) + others;
      OwnsAt(cells, layout, rest, k);
      OwnsWrite(cells, layout, rest, k, CellAt(l, k, next));
      assert layout[k := Node(l[k].p, CellAt(l, k, next))] == Layout(l, next) + others;
    } else {
      assert Layout(l, was) == Layout(l, next);
    }
  }

  lemma LayoutConcat(a: seq<Item>, b: seq<Item>, next: Ptr)
    ensures Layout(a + b, next) == Layout(a, FirstOr(b, next)) + Layout(b, next)
    ensures FirstOr(a + b, next) == FirstOr(a, FirstOr(b, next))
    ensures Entries(a + b) == Entries(a) + Entries(b)
  {
  }

  // Searching.

  method SearchInit(heap: Heap<Cell>, p: Ptr, addr: string, ghost l: seq<Item>, ghost k: nat,
                    ghost layout: Ownership.Layout<Cell>, ghost rest: map<Ptr, Cell>)
    returns (r: nat)
    requires k <= |l| && p == FirstOr(l[k..], NULL) && Owns(heap.cells, Layout(l, NULL) + layout, rest)
    ensures r == Search(addr, Entries(l)[k..])
    decreases |l| - k
  {
    hide Owns;
    if k < |l| {
      OwnsAt(heap.cells, Layout(l, NULL) + layout, rest, k);
    }
    if p == NULL {
      return 0;
    }
    if addr == "" {
      return 0;
    }
    assert Entries(l)[k..][1..] == Entries(l)[k + 1..];
    if heap.cells[p].addr == addr {
      return 1;
    }
    r := SearchInit(heap, heap.cells[p].next, addr, l, k + 1, layout, rest);
    r := if r > 0 then r + 1 else r;
  }

  // Appending and removing at the end.

  /** A new cell in front of everything else, linked to the end of l. */
  lemma Grow(cells: map<Ptr, Cell>, l: seq<Item>, x: Item, others: Ownership.Layout<Cell>, rest: map<Ptr, Cell>)
    requires Owns(cells, Layout(l, NULL) + others, rest) && x.p != NULL && x.p !in cells
    ensures l != [] ==> LastPlace(l) != NULL && LastPlace(l) in cells
    ensures Owns(Linked(cells, l, x.p)[x.p := CellAt([x], 0, NULL)], Layout(l + [x], NULL) + others, rest)
  {
    hide Owns, Layout, CellAt;
    Relink(cells, l, NULL, x.p, others, rest);
    LayoutConcat(l, [x], NULL);
    OneCell(x, NULL);
    var n := Node(x.p, CellAt([x], 0, NULL));
    var w := Linked(cells, l, x.p);
    OwnsAppend(w, Layout(l, x.p) + others, rest, n.p, n.cell);
    OwnsRotate(w[n.p := n.cell], Layout(l, x.p), others, [n], rest);
  }

  lemma OneCell(x: Item, next: Ptr)
    ensures Layout([x], next) == [Node(x.p, CellAt([x], 0, next))] && Entries([x]) == [x.entry]
  {
  }

  /** The last cell is freed and the end pulled back. */
  lemma Shrink(cells: map<Ptr, Cell>, l: seq<Item>, x: Item, others: Ownership.Layout<Cell>, rest: map<Ptr, Cell>)
    requires Owns(cells, Layout(l + [x], NULL) + others, rest)
    ensures x.p in cells && (l != [] ==> LastPlace(l) != NULL && LastPlace(l) in cells - {x.p})
    ensures Owns(Linked(cells - {x.p}, l, NULL), Layout(l, NULL) + others, rest)
  {
    hide Owns, Layout, CellAt;
    LayoutConcat(l, [x], NULL);
    OneCell(x, NULL);
    var c := CellAt([x], 0, NULL);
    assert Layout(l, x.p) + [Node(x.p, c)] + others == Layout(l, x.p) + ([Node(x.p, c)] + others);
    OwnsFreeAt(cells, Layout(l, x.p), x.p, c, others, rest);
    Relink(cells - {x.p}, l, x.p, NULL, others, rest);
  }

  /** Appending a cell at the place behind l. */
  method Append(heap: Heap<Cell>, root: Root, place: Ptr, entry: Entry, ghost l: seq<Item>,
                ghost others: Ownership.Layout<Cell>, ghost rest: map<Ptr, Cell>)
    returns (p: Ptr)
    requires (heap as object) != root && place == LastPlace(l) && InMemory(heap.cells, root.head, l, others, rest)
    modifies heap, root
    ensures p != NULL && InMemory(heap.cells, root.head, l + [Item(p, entry)], others, rest)
  {
    hide Owns, Layout;
    ghost var before: map<Ptr, Cell> := heap.cells;
    p := heap.Alloc(Addr("", 0, NULL));
    Grow(before, l, Item(p, entry), others, rest);
    Write(heap, root, place, p, l);
    heap.Write(p, heap.cells[p].(addr := entry.addr));
    heap.Write(p, heap.cells[p].(flag := entry.flag, next := NULL));
    assert heap.cells == Linked(before, l, p)[p := CellAt([Item(p, entry)], 0, NULL)];
  }

  /** DestroyInit frees the rest of a list from its end, and leaves NULL at the place. */
  method DestroyInit(heap: Heap<Cell>, root: Root, place: Ptr, ghost l: seq<Item>, ghost after: seq<Item>,
                     ghost others: Ownership.Layout<Cell>, ghost rest: map<Ptr, Cell>)
    requires (heap as object) != root && place == LastPlace(l)
    requires InMemory(heap.cells, root.head, l + after, others, rest)
    modifies heap, root
    ensures InMemory(heap.cells, root.head, l, others, rest)
    decreases |after|
  {
    hide Owns, Layout;
    var p := Read(heap, root, place, l, after, others, rest);
    if p != NULL {
      ghost var x := after[0];
      assert l + after == l + [x] + after[1..];
      var next := Read(heap, root, p, l + [x], after[1..], others, rest);
      if next != NULL {
        DestroyInit(heap, root, p, l + [x], after[1..], others, rest);
      } else {
        assert l + [x] + after[1..] == l + [x];
      }
      Shrink(heap.cells, l, x, others, rest);
      heap.Free(p);
      Write(heap, root, place, NULL, l);
    } else {
      assert l + after == l;
    }
  }

  /** Two lists become one. */
  lemma Attach(cells: map<Ptr, Cell>, l: seq<Item>, m: seq<Item>, rest: map<Ptr, Cell>)
    requires Owns(cells, Layout(l, NULL) + Layout(m, NULL), rest)
    ensures l != [] ==> LastPlace(l) != NULL && LastPlace(l) in cells
    ensures Owns(Linked(cells, l, FirstOr(m, NULL)), Layout(l + m, NULL) + [], rest)
  {
    hide Owns, Layout;
    Relink(cells, l, NULL, FirstOr(m, NULL), Layout(m, NULL), rest);
    LayoutConcat(l, m, NULL);
    assert Layout(l + m, NULL) + [] == Layout(l + m, NULL);
  }

  // Removing duplicates.

  lemma SearchTellsSeen(addr: string, list: seq<Entry>)
    ensures Search(addr, list) > 0 <==> addr != "" && addr in Addrs(list)
  {
    SearchIsFirst(addr, list);
    ListedAddr(addr, list);
  }

  lemma UnseenStep(list: seq<Entry>, k: nat, kept: seq<Entry>)
    requires k < |list|
    ensures var e := list[k];
            if e.addr != "" && e.addr in Addrs(kept)
                then Unseen(list[k..], Addrs(kept)) == Unseen(list[k + 1..], Addrs(kept))
            else kept + Unseen(list[k..], Addrs(kept)) == kept + [e] + Unseen(list[k + 1..], Addrs(kept + [e]))
  {
    AddrsConcat(kept, [list[k]]);
    assert Addrs([list[k]]) == {list[k].addr};
    assert list[k..][1..] == list[k + 1..];
  }

  /** CleanInit on the list from a place on: a list of the first occurrences takes its place. */
  method CleanInit(heap: Heap<Cell>, root: Root, place: Ptr, ghost l: seq<Item>, ghost part: seq<Item>,
                   ghost rest: map<Ptr, Cell>)
    returns (err: int, ghost m: seq<Item>)
    requires (heap as object) != root && place == LastPlace(l) && InMemory(heap.cells, root.head, l + part, [], rest)
    modifies heap, root
    ensures err == ERRNO_SUCCESS && InMemory(heap.cells, root.head, l + m, [], rest)
    ensures Entries(m) == Dedup(Entries(part))
  {
    hide Owns, Layout, Unseen, Addrs, CellAt;
    var newRoot := new Root();
    var newPlace: Ptr, at := NULL, place;
    ghost var k := 0;
    m := [];
    NoCells(part);
    ghost var all := l + part;
    assert Layout(all, NULL) + [] == Layout(all, NULL) + Layout(m, NULL);
    SplitAt(l, part, 0);
    var p := Read(heap, root, at, l + part[..0], part[0..], Layout(m, NULL), rest);
    while p != NULL
      invariant k <= |part| && at == LastPlace(l + part[..k]) && p == FirstOr(part[k..], NULL)
      invariant k < |part| ==> p != NULL
      invariant newPlace == LastPlace(m) && newRoot.head == FirstOr(m, NULL)
      invariant InMemory(heap.cells, root.head, all, Layout(m, NULL), rest)
      invariant Entries(m) + Unseen(Entries(part)[k..], Addrs(Entries(m))) == Dedup(Entries(part))
      decreases |part| - k
    {
      SplitAt(l, part, k);
      p := Read(heap, root, at, l + part[..k], part[k..], Layout(m, NULL), rest);
      OwnsSwap(heap.cells, Layout(all, NULL), Layout(m, NULL), rest);
      var entry := Entry(heap.cells[p].addr, heap.cells[p].flag);
      TheCell(part, k);
      var found := SearchInit(heap, newRoot.head, entry.addr, m, 0, Layout(all, NULL), rest);
      SearchTellsSeen(entry.addr, Entries(m)[0..]);
      UnseenStep(Entries(part), k, Entries(m));
      if found == 0 {
        newPlace := Append(heap, newRoot, newPlace, entry, m, Layout(all, NULL), rest);
        LayoutConcat(m, [Item(newPlace, entry)], NULL);
        OneCell(Item(newPlace, entry), NULL);
        m := m + [Item(newPlace, entry)];
      }
      OwnsSwap(heap.cells, Layout(m, NULL), Layout(all, NULL), rest);
      k := k + 1;
      at := p;
      SplitAt(l, part, k);
      p := Read(heap, root, at, l + part[..k], part[k..], Layout(m, NULL), rest);
    }
    NothingUnseen(Entries(part)[k..], Addrs(Entries(m)));
    assert Entries(m) + [] == Entries(m);
    DestroyInit(heap, root, place, l, part, Layout(m, NULL), rest);
    Attach(heap.cells, l, m, rest);
    LayoutConcat(l, m, NULL);
    Write(heap, root, place, newRoot.head, l);
    err := ERRNO_SUCCESS;
  }

  lemma NoCells(part: seq<Item>)
    ensures Layout([], NULL) == [] && Entries([]) == []
    ensures [] + Unseen(Entries(part)[0..], Addrs([])) == Dedup(Entries(part))
  {
    assert Entries(part)[0..] == Entries(part) && Addrs([]) == {};
  }

  lemma NothingUnseen(list: seq<Entry>, seen: set<string>)
    ensures list == [] ==> Unseen(list, seen) == []
  {
  }

  lemma SplitAt(l: seq<Item>, part: seq<Item>, k: nat)
    requires k <= |part|
    ensures l + part[..k] + part[k..] == l + part
    ensures k == 0 ==> l + part[..k] == l
    ensures k > 0 ==> LastPlace(l + part[..k]) == part[k - 1].p
  {
  }

  lemma TheCell(part: seq<Item>, k: nat)
    requires k < |part|
    ensures Entries(part)[k] == Entry(CellAt(part[k..], 0, NULL).addr, CellAt(part[k..], 0, NULL).flag)
    ensures Entries(part)[k..] != []
  {
  }

  // Reading a file.

  lemma CollectStep(lines: seq<Line>, i: nat, mode: Mode)
    requires i < |lines|
    ensures Collect(lines[i..], mode) ==
            match MeaningOf(lines[i].command)
            case Nothing => Collect(lines[i + 1..], mode)
            case Section(m) => Collect(lines[i + 1..], m)
            case Address =>
              (if mode.nested then
                 (if lines[i].target.Missing? then [] else Dedup(Collect(lines[i].target.lines, PLAIN_MODE)))
               else [Entry(lines[i].command, mode.flag)]) + Collect(lines[i + 1..], mode)
  {
    assert lines[i..][0] == lines[i] && lines[i..][1..] == lines[i + 1..];
  }

  /** CreateInit: the addresses of the file are put at the place, which must hold NULL. */
  method CreateInit(heap: Heap<Cell>, root: Root, place: Ptr, file: File, ghost l: seq<Item>, ghost after: seq<Item>,
                    ghost rest: map<Ptr, Cell>)
    returns (err: int, ghost m: seq<Item>)
    requires (heap as object) != root && place == LastPlace(l) && InMemory(heap.cells, root.head, l + after, [], rest)
    modifies heap, root
    ensures after != [] ==> err == ERRNO_INVALID_POINTER && heap.cells == old(heap.cells) && root.head == old(root.head)
    ensures after == [] ==> err == ERRNO_SUCCESS && InMemory(heap.cells, root.head, l + m, [], rest)
    ensures after == [] && file.Missing? ==> m == []
    ensures after == [] && file.File? ==> Entries(m) == Dedup(Collect(file.lines, PLAIN_MODE))
    ensures after == [] && file.File? ==> Entries(m) == Dedup(Flatten(file.lines, PLAIN_MODE))
    decreases file, 1
  {
    hide InMemory, Layout, Dedup, Collect, Flatten, CellAt, LastPlace;
    m := [];
    var p := Read(heap, root, place, l, after, [], rest);
    if p != NULL {
      return ERRNO_INVALID_POINTER, m;
    }
    NoCells([]);
    NoLines(PLAIN_MODE);
    Behind(l, [], []);
    if file.Missing? {
      return ERRNO_SUCCESS, m;
    }
    CollectedIsFlattened(file.lines);
    m := ReadLines(heap, root, place, file, l, rest);
    err, m := CleanInit(heap, root, place, l, m, rest);
  }

  /** The loop over the lines. */
  method ReadLines(heap: Heap<Cell>, root: Root, place: Ptr, file: File, ghost l: seq<Item>, ghost rest: map<Ptr, Cell>)
    returns (ghost m: seq<Item>)
    requires (heap as object) != root && place == LastPlace(l) && InMemory(heap.cells, root.head, l, [], rest)
    requires file.File?
    modifies heap, root
    ensures InMemory(heap.cells, root.head, l + m, [], rest)
    ensures Entries(m) == Collect(file.lines, PLAIN_MODE)
    decreases file, 0
  {
    hide InMemory, Owns, Layout, Dedup, Collect, Flatten, CellAt, LastPlace, Entries;
    m := [];
    NoCells([]);
    Behind(l, [], []);
    var at, mode := place, PLAIN_MODE;
    var i := 0;
    assert file.lines[0..] == file.lines && [] + Collect(file.lines, PLAIN_MODE) == Collect(file.lines, PLAIN_MODE);
    while i < |file.lines|
      invariant 0 <= i <= |file.lines| && at == LastPlace(l + m)
      invariant InMemory(heap.cells, root.head, l + m, [], rest)
      invariant Entries(m) + Collect(file.lines[i..], mode) == Collect(file.lines, PLAIN_MODE)
    {
      var command := file.lines[i].command;
      CollectStep(file.lines, i, mode);
      if command != "" && command[0] != '#' {
        if StartsWith(command, "local:") {
          mode := Mode(OPEN_LOCAL, false);
        } else if StartsWith(command, "pci:") {
          mode := Mode(OPEN_PCI, false);
        } else if StartsWith(command, "usb:") {
          mode := Mode(OPEN_USB, false);
        } else if StartsWith(command, "detect:") {
          mode := Mode(OPEN_NO_FLAGS, true);
        } else if mode.nested {
          ghost var added;
          var ignored;
          assert l + m + [] == l + m;
          ignored, added := CreateInit(heap, root, at, file.lines[i].target, l + m, [], rest);
          Behind(l, m, added);
          AppendAssociates(Entries(m), Entries(added), Collect(file.lines[i + 1..], mode));
          at := ToEnd(heap, root, at, l + m, added, rest);
          m := m + added;
        } else {
          at := Append(heap, root, at, Entry(command, mode.flag), l + m, [], rest);
          Behind(l, m, [Item(at, Entry(command, mode.flag))]);
          AppendAssociates(Entries(m), [Entry(command, mode.flag)], Collect(file.lines[i + 1..], mode));
          OneCell(Item(at, Entry(command, mode.flag)), NULL);
          m := m + [Item(at, Entry(command, mode.flag))];
        }
      }
      i := i + 1;
    }
    NoLines(mode);
    assert file.lines[i..] == [] && Entries(m) + [] == Entries(m);
  }

  lemma NoLines(mode: Mode)
    ensures Collect([], mode) == [] && Dedup([]) == []
  {
  }

  lemma Behind(l: seq<Item>, m: seq<Item>, added: seq<Item>)
    ensures l + m + added == l + (m + added) && l + [] == l && m + [] == m
    ensures Entries(m + added) == Entries(m) + Entries(added)
    ensures added != [] ==> LastPlace(l + m + added) == added[|added| - 1].p
  {
  }

  /** The place moves on to the end of the list. */
  method ToEnd(heap: Heap<Cell>, root: Root, place: Ptr, ghost l: seq<Item>, ghost after: seq<Item>,
               ghost rest: map<Ptr, Cell>)
    returns (at: Ptr)
    requires place == LastPlace(l) && InMemory(heap.cells, root.head, l + after, [], rest)
    ensures at == LastPlace(l + after)
  {
    hide Owns, Layout, CellAt;
    at := place;
    ghost var k := 0;
    SplitAt(l, after, 0);
    var p := Read(heap, root, at, l + after[..0], after[0..], [], rest);
    while p != NULL
      invariant k <= |after| && at == LastPlace(l + after[..k]) && p == FirstOr(after[k..], NULL)
      invariant k < |after| ==> p != NULL
      decreases |after| - k
    {
      k := k + 1;
      at := p;
      SplitAt(l, after, k);
      p := Read(heap, root, at, l + after[..k], after[k..], [], rest);
    }
    assert after[..k] == after;
  }
}
