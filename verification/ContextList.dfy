/** The list of driver contexts: library/meids_internal.c, context_list_init, ContextAppend, ContextRemove. A list
    ends in a node with neither successor nor context. */
module ContextList {
  import opened Defines
  import opened Memory
  import opened Ownership

  datatype ListCell = ListNode(next: Ptr, context: Handle)

  /** A chain of nodes: all but the last carry `contexts`, the last one `tail`. The last node has no successor, or,
      when the list is damaged, itself. */
  datatype Chain = Chain(ptrs: seq<Ptr>, contexts: seq<Handle>, tail: Handle, looped: bool)

  ghost predicate Shaped(l: Chain) {
    |l.ptrs| == |l.contexts| + 1
  }

  /** A proper list: it ends in one (NULL, NULL) node. */
  ghost function Proper(ptrs: seq<Ptr>, contexts: seq<Handle>): Chain {
    Chain(ptrs, contexts, NULL, false)
  }

  ghost function CellAt(l: Chain, i: nat): ListCell
    requires Shaped(l) && i < |l.ptrs|
  {
    if i < |l.contexts| then ListNode(l.ptrs[i + 1], l.contexts[i])
    else ListNode(if l.looped then l.ptrs[i] else NULL, l.tail)
  }

  ghost function ChainLayout(l: Chain): Layout<ListCell>
    requires Shaped(l)
  {
    seq(|l.ptrs|, i requires 0 <= i < |l.ptrs| => Node(l.ptrs[i], CellAt(l, i)))
  }

  ghost predicate Nodes(cells: map<Ptr, ListCell>, l: Chain)
    requires Shaped(l)
  {
    && (forall i :: 0 <= i < |l.ptrs| ==> l.ptrs[i] != NULL && l.ptrs[i] in cells && cells[l.ptrs[i]] == CellAt(l, i))
    && forall i, j :: 0 <= i < j < |l.ptrs| ==> l.ptrs[i] != l.ptrs[j]
  }

  lemma OwnsNodes(cells: map<Ptr, ListCell>, l: Chain, rest: map<Ptr, ListCell>)
    requires Shaped(l) && Owns(cells, ChainLayout(l), rest)
    ensures Nodes(cells, l)
  {
    hide Owns;
    var layout := ChainLayout(l);
    forall i | 0 <= i < |l.ptrs| ensures l.ptrs[i] != NULL && l.ptrs[i] in cells && cells[l.ptrs[i]] == CellAt(l, i) {
      OwnsAt(cells, layout, rest, i);
    }
    forall i, j | 0 <= i < j < |l.ptrs| ensures l.ptrs[i] != l.ptrs[j] {
      OwnsDistinct(cells, layout, rest, i, j);
      assert layout[i].p == l.ptrs[i] && layout[j].p == l.ptrs[j];
    }
  }

  /** context_list_init; `given` says whether the pointer to the list head is there. */
  method ContextListInit(heap: Heap<ListCell>, given: bool) returns (err: int, head: Ptr)
    modifies heap
    ensures !given ==> err == ERRNO_INTERNAL && heap.cells == old(heap.cells)
    ensures given ==> err == 0 && Owns(heap.cells, ChainLayout(Proper([head], [])), old(heap.cells))
  {
    if !given {
      return ERRNO_INTERNAL, NULL;
    }
    head := heap.Alloc(ListNode(NULL, NULL));
    OwnsAppend(old(heap.cells), [], old(heap.cells), head, ListNode(NULL, NULL));
    assert ChainLayout(Proper([head], [])) == [] + [Node(head, ListNode(NULL, NULL))];
    err := 0;
  }

  const ERROR_NOT_FOUND := -4

  /** Appending puts the context into the old end node, which gets a new end node as its successor. A damaged list
      is left as it is, and the new node is freed again. */
  method ContextAppend(heap: Heap<ListCell>, context: Handle, head: Ptr, ghost l: Chain, ghost rest: map<Ptr, ListCell>)
    returns (err: int, ghost l': Chain)
    requires head != NULL ==> Shaped(l) && head == l.ptrs[0] && Owns(heap.cells, ChainLayout(l), rest)
    modifies heap
    ensures err != ERRNO_SUCCESS ==> heap.cells == old(heap.cells)
    ensures head == NULL ==> err == ERRNO_INVALID_POINTER
    ensures head != NULL ==> err == if l.looped || l.tail != NULL then ERRNO_INTERNAL else ERRNO_SUCCESS
    ensures err == ERRNO_SUCCESS ==> Shaped(l')
    ensures err == ERRNO_SUCCESS ==>
            && l'.ptrs == l.ptrs + [l'.ptrs[|l'.ptrs| - 1]] && l' == Proper(l'.ptrs, l.contexts + [context])
            && Owns(heap.cells, ChainLayout(l'), rest)
  {
    hide Owns, ChainLayout;
    l' := l;
    if head == NULL {
      return ERRNO_INVALID_POINTER, l;
    }
    OwnsNodes(heap.cells, l, rest);
    ghost var before: map<Ptr, ListCell>, n := heap.cells, |l.contexts|;
    var newInstance := heap.Alloc(ListNode(NULL, NULL));
    var place := head;
    ghost var i := 0;
    while heap.cells[place].next != NULL
      invariant 0 <= i <= n && place == l.ptrs[i]
      invariant heap.cells == before[newInstance := ListNode(NULL, NULL)]
      decreases n - i
    {
      if i < n {
        i := i + 1;
      }
      place := heap.cells[place].next;
      if place == heap.cells[place].next {
        heap.Free(newInstance);
        return ERRNO_INTERNAL, l;
      }
    }
    if heap.cells[place].context != NULL {
      heap.Free(newInstance);
      return ERRNO_INTERNAL, l;
    }
    heap.Write(place, ListNode(newInstance, context));  // both fields of the node are assigned
    err, l' := ERRNO_SUCCESS, Proper(l.ptrs + [newInstance], l.contexts + [context]);
    Linked(before, l, rest, newInstance, context);
  }

  lemma Linked(before: map<Ptr, ListCell>, l: Chain, rest: map<Ptr, ListCell>, p: Ptr, context: Handle)
    requires Shaped(l) && Owns(before, ChainLayout(l), rest) && !l.looped && l.tail == NULL
    requires p != NULL && p !in before
    ensures var last := l.ptrs[|l.contexts|];
            Owns(before[p := ListNode(NULL, NULL)][last := ListNode(p, context)],
                 ChainLayout(Proper(l.ptrs + [p], l.contexts + [context])), rest)
  {
    hide Owns;
    var n := |l.contexts|;
    var layout, last := ChainLayout(l), l.ptrs[n];
    OwnsAt(before, layout, rest, n);
    OwnsWrite(before, layout, rest, n, ListNode(p, context));
    OwnsAppend(before[last := ListNode(p, context)], layout[n := Node(last, ListNode(p, context))], rest, p,
               ListNode(NULL, NULL));
    assert before[last := ListNode(p, context)][p := ListNode(NULL, NULL)]
        == before[p := ListNode(NULL, NULL)][last := ListNode(p, context)];
    assert layout[n := Node(last, ListNode(p, context))] + [Node(p, ListNode(NULL, NULL))]
        == ChainLayout(Proper(l.ptrs + [p], l.contexts + [context]));
  }

  datatype Outcome = StillRunning | Returned(err: int)

  ghost function ContextAt(l: Chain, i: nat): Handle
    requires Shaped(l) && i < |l.ptrs|
  {
    if i < |l.contexts| then l.contexts[i] else l.tail
  }

  /** The node that the next field of node i leads to; the end node of a damaged list leads to itself. */
  ghost function Following(l: Chain, i: nat): nat {
    if i < |l.contexts| then i + 1 else i
  }

  ghost predicate IsEnd(l: Chain, i: nat) {
    i == |l.contexts| && !l.looped
  }

  /** ContextRemove looks at the first node and then, again and again, at the one behind it, so this is when it comes to
      an end. */
  ghost predicate Ends(l: Chain, context: Handle)
    requires Shaped(l)
  {
    IsEnd(l, 0) || ContextAt(l, 0) == context || IsEnd(l, Following(l, 0)) || ContextAt(l, Following(l, 0)) == context
  }

  ghost function Without(l: Chain, k: nat): Chain
    requires Shaped(l) && k < |l.contexts|
  {
    l.(ptrs := l.ptrs[..k + 1] + l.ptrs[k + 2..], contexts := l.contexts[..k] + l.contexts[k + 1..])
  }

  /** Memory after the node behind node k was pulled forward and freed. */
  ghost function Pulled(cells: map<Ptr, ListCell>, l: Chain, k: nat): map<Ptr, ListCell>
    requires Shaped(l) && k < |l.ptrs|
  {
    cells[l.ptrs[k] := CellAt(l, Following(l, k))] - {l.ptrs[Following(l, k)]}
  }

  /** Node k is the first match among the two nodes that are looked at. */
  ghost predicate IsMatch(l: Chain, context: Handle, k: nat)
    requires Shaped(l)
  {
    (k == 0 || (k == Following(l, 0) && ContextAt(l, 0) != context)) && !IsEnd(l, k) && ContextAt(l, k) == context
  }

  /** Removing pulls the successor of the node forward and frees the successor. `guards` is how often the loop
      condition may be looked at; a run that is still going after two looks is still going after any number. If the
      successor is an end node that leads to itself, the memory that is left is not a list any more. */
  method ContextRemove(heap: Heap<ListCell>, context: Handle, head: Ptr, guards: nat, ghost l: Chain,
                       ghost rest: map<Ptr, ListCell>)
    returns (r: Outcome, ghost l': Chain)
    requires head != NULL ==> Shaped(l) && head == l.ptrs[0] && Owns(heap.cells, ChainLayout(l), rest)
    modifies heap
    ensures head == NULL || context == NULL ==> r == Returned(ERRNO_INVALID_POINTER)
    ensures head != NULL && context != NULL && guards >= 2 ==> (r.Returned? <==> Ends(l, context))
    ensures r != Returned(0) ==> heap.cells == old(heap.cells)
    ensures r == Returned(0) ==> head != NULL && context != NULL
    ensures r == Returned(0) ==>
            exists k: nat ::
              && IsMatch(l, context, k)
              && heap.cells == Pulled(old(heap.cells), l, k)
                        && (Following(l, k) < |l.contexts| || !l.looped ==>
                              k < |l.contexts| && l' == Without(l, k) && Owns(heap.cells, ChainLayout(l'), rest))
    ensures head != NULL && context != NULL && r.Returned? && r != Returned(0) ==>
            context !in l.contexts && r.err == if l.tail != NULL then ERRNO_INTERNAL else ERROR_NOT_FOUND
  {
    hide Owns, ChainLayout;
    l' := l;
    if head == NULL || context == NULL {
      return Returned(ERRNO_INVALID_POINTER), l;
    }
    OwnsNodes(heap.cells, l, rest);
    var place, left := head, guards;
    ghost var i := 0;
    while left > 0
      invariant (i == 0 || i == Following(l, 0)) && place == l.ptrs[i]
      invariant left == guards ==> i == 0
      invariant left < guards ==> i == Following(l, 0) && !IsEnd(l, 0) && ContextAt(l, 0) != context
      invariant left + 2 <= guards ==> !IsEnd(l, i) && ContextAt(l, i) != context
      invariant heap.cells == old(heap.cells)
      invariant left <= guards
    {
      left := left - 1;
      assert heap.cells[place] == CellAt(l, i) && heap.cells[place].context == ContextAt(l, i);
      if heap.cells[place].next == NULL {
        assert IsEnd(l, i);
        if heap.cells[place].context != NULL {
          return Returned(ERRNO_INTERNAL), l;
        }
        return Returned(ERROR_NOT_FOUND), l;
      }
      if heap.cells[place].context == context {
        var toRemove := heap.cells[place].next;
        assert toRemove == l.ptrs[Following(l, i)] && IsMatch(l, context, i);
        if i < |l.contexts| && (i + 1 < |l.contexts| || !l.looped) {
          Unlinked(heap.cells, l, rest, i);
          l' := Without(l, i);
        }
        heap.Write(place, heap.cells[toRemove]);  // both fields of the successor are copied
        heap.Free(toRemove);
        return Returned(0), l';
      }
      place := heap.cells[head].next;
      i := Following(l, 0);
    }
    r := StillRunning;
  }

  /** On a proper list: the first occurrence is removed, and the list stays proper. */
  lemma ProperRemoval(l: Chain, context: Handle, k: nat)
    requires Shaped(l) && !l.looped && context != NULL && l.tail == NULL && IsMatch(l, context, k)
    ensures k < |l.contexts| && l.contexts[k] == context && context !in l.contexts[..k]
    ensures Without(l, k).contexts == l.contexts[..k] + l.contexts[k + 1..]
    ensures !Without(l, k).looped && Without(l, k).tail == NULL
  {
  }

  /** And the call returns exactly if the list has fewer than two contexts or the context is one of the first two. */
  lemma ProperEnds(l: Chain, context: Handle)
    requires Shaped(l) && !l.looped && context != NULL && l.tail == NULL
    ensures Ends(l, context) <==> |l.contexts| < 2 || context in l.contexts[..2]
  {
  }

  lemma Unlinked(cells: map<Ptr, ListCell>, l: Chain, rest: map<Ptr, ListCell>, k: nat)
    requires Shaped(l) && k < |l.contexts| && (k + 1 < |l.contexts| || !l.looped) && Owns(cells, ChainLayout(l), rest)
    ensures Owns(cells[l.ptrs[k] := CellAt(l, k + 1)] - {l.ptrs[k + 1]}, ChainLayout(Without(l, k)), rest)
  {
    hide Owns;
    var layout := ChainLayout(l);
    OwnsWrite(cells, layout, rest, k, CellAt(l, k + 1));
    var written := layout[k := Node(l.ptrs[k], CellAt(l, k + 1))];
    OwnsFree(cells[l.ptrs[k] := CellAt(l, k + 1)], written, rest, k + 1);
    assert written[..k + 1] + written[k + 2..] == ChainLayout(Without(l, k));
  }

  // In words.

  /** A list in memory: every node leads to the next one and carries its context; the end node leads nowhere, or to
      itself in a damaged list. */
  lemma ListInMemory(cells: map<Ptr, ListCell>, l: Chain, rest: map<Ptr, ListCell>)
    requires Shaped(l) && Owns(cells, ChainLayout(l), rest)
    ensures |l.ptrs| == |l.contexts| + 1
    ensures forall i :: 0 <= i < |l.ptrs| ==> l.ptrs[i] != NULL && l.ptrs[i] in cells && l.ptrs[i] !in rest
    ensures forall i, j :: 0 <= i < j < |l.ptrs| ==> l.ptrs[i] != l.ptrs[j]
    ensures forall i, j :: 0 <= i < |l.contexts| && j == i + 1 ==>
              cells[l.ptrs[i]] == ListNode(l.ptrs[j], l.contexts[i])
    ensures var last := l.ptrs[|l.contexts|]; cells[last] == ListNode(if l.looped then last else NULL, l.tail)
  {
    hide Owns;
    var layout := ChainLayout(l);
    OwnsNodes(cells, l, rest);
    forall i | 0 <= i < |l.ptrs| ensures l.ptrs[i] !in rest {
      OwnsAt(cells, layout, rest, i);
    }
  }

  /** The list and the rest are all there is in memory. */
  lemma ListIsApart(cells: map<Ptr, ListCell>, l: Chain, rest: map<Ptr, ListCell>)
    requires Shaped(l) && Owns(cells, ChainLayout(l), rest)
    ensures forall p :: p in rest ==> p in cells && cells[p] == rest[p]
    ensures forall p :: p in cells && p !in rest ==> p in l.ptrs
  {
    hide Owns, CellAt;
    var layout := ChainLayout(l);
    OwnsHas(cells, layout, rest);
    forall p | p in cells && p !in rest ensures p in l.ptrs {
      OwnsAll(cells, layout, rest, p);
      var k :| 0 <= k < |layout| && layout[k].p == p;
      assert l.ptrs[k] == p;
    }
  }

  /** When ContextRemove comes to an end, and at which node it removes, by the number of contexts. */
  lemma RemovalCases(l: Chain, context: Handle, k: nat)
    requires Shaped(l)
    ensures var n, c := |l.contexts|, l.contexts;
            && (n == 0 ==> (Ends(l, context) <==> !l.looped || l.tail == context))
            && (n == 1 ==> (Ends(l, context) <==> c[0] == context || !l.looped || l.tail == context))
            && (n >= 2 ==> (Ends(l, context) <==> c[0] == context || c[1] == context))
            && (n == 0 ==> (IsMatch(l, context, k) <==> k == 0 && l.looped && l.tail == context))
            && (n == 1 ==> (IsMatch(l, context, k) <==>
                            || (k == 0 && c[0] == context)
                            || (k == 1 && c[0] != context && l.looped && l.tail == context)))
            && (n >= 2 ==> (IsMatch(l, context, k) <==>
                            (k == 0 && c[0] == context) || (k == 1 && c[0] != context && c[1] == context)))
  {
  }

  /** What a removal does to memory: node k becomes what the node behind it was, and that one is freed. An end node that
      leads to itself is freed. */
  lemma RemovalInMemory(cells: map<Ptr, ListCell>, l: Chain, k: nat)
    requires Shaped(l) && Nodes(cells, l) && k <= |l.contexts|
    ensures k < |l.contexts| ==>
              var p, q := l.ptrs[k], l.ptrs[k + 1];
              && Pulled(cells, l, k).Keys == cells.Keys - {q}
              && Pulled(cells, l, k)[p] == cells[q]
              && forall x :: x in cells && x != p && x != q ==> Pulled(cells, l, k)[x] == cells[x]
    ensures k == |l.contexts| ==> Pulled(cells, l, k) == cells - {l.ptrs[k]}
  {
  }
}
