/** The C heap as explicit memory: a map from live pointers to the cells they point at. Reading a pointer that
    was freed or never allocated, and freeing it, are precondition failures. */
module Memory {
  import opened Defines

  type Ptr = nat

  class Heap<C> {
    var cells: map<Ptr, C>

    constructor ()
      ensures cells == map[]
    {
      cells := map[];
    }

    /** calloc, or malloc: any address that is not in use, possibly one that was freed before. */
    method Alloc(c: C) returns (p: Ptr)
      modifies this
      ensures p != NULL && p !in old(cells)
      ensures cells == old(cells)[p := c]
    {
      FreshPtrExists(cells.Keys);
      p :| p != NULL && p !in cells.Keys;
      cells := cells[p := c];
    }

    method Write(p: Ptr, c: C)
      requires p in cells
      modifies this
      ensures cells == old(cells)[p := c]
    {
      cells := cells[p := c];
    }

    method Free(p: Ptr)
      requires p in cells
      modifies this
      ensures cells == old(cells) - {p}
    {
      cells := cells - {p};
    }
  }

  lemma FreshPtrExists(used: set<Ptr>)
    ensures exists p: Ptr :: p != NULL && p !in used
  {
    var bound := UpperBound(used);
    assert bound + 1 != NULL && bound + 1 !in used;
  }

  lemma {:induction false} UpperBound(used: set<Ptr>) returns (bound: Ptr)
    ensures forall p :: p in used ==> p <= bound
  {
    if used == {} {
      bound := 0;
    } else {
      var p :| p in used;
      var b := UpperBound(used - {p});
      bound := if p > b then p else b;
      assert forall q :: q in used ==> q == p || q in used - {p};
    }
  }
}

/** Who owns which cells. A layout lists the cells of a data structure; `Owns(whole, l, rest)` says that memory
    `whole` consists of exactly the cells of `l`, all at different addresses, and the unrelated memory `rest`. */
module Ownership {
  import opened Defines
  import opened Memory

  datatype Node<C> = Node(p: Ptr, cell: C)

  type Layout<C> = seq<Node<C>>

  ghost predicate Owns<C>(whole: map<Ptr, C>, l: Layout<C>, rest: map<Ptr, C>)
    decreases |l|
  {
    if l == [] then whole == rest
    else
      var x := l[|l| - 1];
      && x.p != NULL && x.p in whole && whole[x.p] == x.cell
      && Owns(whole - {x.p}, l[..|l| - 1], rest)
  }

  /** The cells of `l` are in memory, with these contents. */
  ghost predicate Has<C>(whole: map<Ptr, C>, l: Layout<C>)
    decreases |l|
  {
    l != [] ==>
      var x := l[|l| - 1];
      && x.p != NULL && x.p in whole && whole[x.p] == x.cell
      && Has(whole, l[..|l| - 1])
  }

  lemma {:induction false} HasAt<C>(whole: map<Ptr, C>, l: Layout<C>, k: nat)
    requires k < |l| && Has(whole, l)
    ensures l[k].p != NULL && l[k].p in whole && whole[l[k].p] == l[k].cell
    decreases |l|
  {
    if k == |l| - 1 {
    } else {
      HasAt(whole, l[..|l| - 1], k);
    }
  }

  lemma {:induction false} HasConcat<C>(whole: map<Ptr, C>, l1: Layout<C>, l2: Layout<C>)
    ensures Has(whole, l1 + l2) <==> Has(whole, l1) && Has(whole, l2)
    decreases |l2|
  {
    if l2 == [] {
      assert l1 + l2 == l1;
    } else {
      HasConcat(whole, l1, l2[..|l2| - 1]);
      assert (l1 + l2)[..|l1 + l2| - 1] == l1 + l2[..|l2| - 1];
    }
  }

  lemma {:induction false} HasExtends<C>(whole: map<Ptr, C>, part: map<Ptr, C>, l: Layout<C>)
    requires Extends(whole, part) && Has(part, l)
    ensures Has(whole, l)
    decreases |l|
  {
    if l == [] {
    } else {
      HasExtends(whole, part, l[..|l| - 1]);
    }
  }

  /** `whole` still contains everything `part` does. */
  ghost predicate Extends<C>(whole: map<Ptr, C>, part: map<Ptr, C>) {
    forall p :: p in part ==> p in whole && whole[p] == part[p]
  }

  lemma {:induction false} OwnsHas<C>(whole: map<Ptr, C>, l: Layout<C>, rest: map<Ptr, C>)
    requires Owns(whole, l, rest)
    ensures Has(whole, l) && Extends(whole, rest)
    decreases |l|
  {
    if l == [] {
    } else {
      var n := |l| - 1;
      OwnsHas(whole - {l[n].p}, l[..n], rest);
      HasExtends(whole, whole - {l[n].p}, l[..n]);
    }
  }

  /** What ownership says of the k-th cell: it is there, and it is not part of the rest. */
  lemma {:induction false} OwnsAt<C>(whole: map<Ptr, C>, l: Layout<C>, rest: map<Ptr, C>, k: nat)
    requires k < |l| && Owns(whole, l, rest)
    ensures l[k].p != NULL && l[k].p in whole && whole[l[k].p] == l[k].cell && l[k].p !in rest
    ensures Extends(whole, rest)
    decreases |l|
  {
    OwnsHas(whole, l, rest);
    HasAt(whole, l, k);
    var n := |l| - 1;
    OwnsHas(whole - {l[n].p}, l[..n], rest);
    if k == n {
    } else {
      OwnsAt(whole - {l[n].p}, l[..n], rest, k);
    }
  }

  lemma OwnsAppend<C>(whole: map<Ptr, C>, l: Layout<C>, rest: map<Ptr, C>, p: Ptr, c: C)
    requires Owns(whole, l, rest) && p != NULL && p !in whole
    ensures Owns(whole[p := c], l + [Node(p, c)], rest)
  {
    assert whole[p := c] - {p} == whole;
    assert (l + [Node(p, c)])[..|l|] == l;
  }

  /** A cell at `q` outside the layout changes. */
  lemma OwnsRelink<C>(whole: map<Ptr, C>, l: Layout<C>, base: map<Ptr, C>, q: Ptr, old_q: C, new_q: C)
    requires Owns(whole, l, base[q := old_q])
    ensures q in whole && whole[q] == old_q && Extends(whole, base[q := old_q])
    ensures Owns(whole[q := new_q], l, base[q := new_q])
  {
    OwnsHas(whole, l, base[q := old_q]);
    OwnsWriteRest(whole, l, base[q := old_q], q, new_q);
    assert base[q := old_q][q := new_q] == base[q := new_q];
  }

  lemma OwnsTwo<C>(base: map<Ptr, C>, p: Ptr, c: C, q: Ptr, d: C)
    requires p !in base && q !in base && p != q && p != NULL && q != NULL
    ensures Owns(base[p := c][q := d], [Node(p, c), Node(q, d)], base)
  {
  }

  /** Ownership composes: `mid` plus `l2` is `whole`, and `rest` plus `l1` is `mid`. */
  lemma {:induction false} OwnsConcat<C>(whole: map<Ptr, C>, l1: Layout<C>, l2: Layout<C>, mid: map<Ptr, C>,
                                         rest: map<Ptr, C>)
    requires Owns(whole, l2, mid) && Owns(mid, l1, rest)
    ensures Owns(whole, l1 + l2, rest)
    decreases |l2|
  {
    if l2 == [] {
      assert l1 + l2 == l1;
    } else {
      OwnsConcat(whole - {l2[|l2| - 1].p}, l1, l2[..|l2| - 1], mid, rest);
      assert (l1 + l2)[..|l1 + l2| - 1] == l1 + l2[..|l2| - 1];
    }
  }

  lemma {:induction false} OwnsWriteRest<C>(whole: map<Ptr, C>, l: Layout<C>, rest: map<Ptr, C>, p: Ptr, c: C)
    requires p in rest && Owns(whole, l, rest)
    ensures Owns(whole[p := c], l, rest[p := c])
    decreases |l|
  {
    if l == [] {
    } else {
      var q := l[|l| - 1].p;
      OwnsHas(whole - {q}, l[..|l| - 1], rest);
      OwnsWriteRest(whole - {q}, l[..|l| - 1], rest, p, c);
      assert (whole - {q})[p := c] == whole[p := c] - {q};
    }
  }

  lemma {:induction false} OwnsWrite<C>(whole: map<Ptr, C>, l: Layout<C>, rest: map<Ptr, C>, k: nat, c: C)
    requires k < |l| && Owns(whole, l, rest)
    ensures Owns(whole[l[k].p := c], l[k := Node(l[k].p, c)], rest)
    decreases |l|
  {
    var n := |l| - 1;
    var p := l[k].p;
    if k == n {
      assert whole[p := c] - {p} == whole - {p};
      assert l[k := Node(p, c)][..n] == l[..n];
    } else {
      OwnsAt(whole - {l[n].p}, l[..n], rest, k);
      OwnsWrite(whole - {l[n].p}, l[..n], rest, k, c);
      assert (whole - {l[n].p})[p := c] == whole[p := c] - {l[n].p};
      assert l[k := Node(p, c)][..n] == l[..n][k := Node(p, c)];
    }
  }

  /** The first cell of a layout is overwritten. */
  lemma OwnsWriteHead<C>(whole: map<Ptr, C>, p: Ptr, c: C, tail: Layout<C>, rest: map<Ptr, C>, d: C)
    requires Owns(whole, [Node(p, c)] + tail, rest)
    ensures p in whole && whole[p] == c && p !in rest && Extends(whole, rest)
    ensures Owns(whole[p := d], [Node(p, d)] + tail, rest)
  {
    var l := [Node(p, c)] + tail;
    OwnsAt(whole, l, rest, 0);
    OwnsWrite(whole, l, rest, 0, d);
    assert l[0 := Node(p, d)] == [Node(p, d)] + tail;
  }

  // The same steps for a struct at `p` followed by the parts `tail` it owns.

  lemma OwnsAppendTail<C>(whole: map<Ptr, C>, h: Node<C>, tail: Layout<C>, rest: map<Ptr, C>, q: Ptr, d: C)
    requires Owns(whole, [h] + tail, rest) && q != NULL && q !in whole
    ensures Owns(whole[q := d], [h] + (tail + [Node(q, d)]), rest)
  {
    OwnsAppend(whole, [h] + tail, rest, q, d);
    assert [h] + tail + [Node(q, d)] == [h] + (tail + [Node(q, d)]);
  }

  lemma OwnsConcatTail<C>(whole: map<Ptr, C>, h: Node<C>, tail: Layout<C>, l: Layout<C>, mid: map<Ptr, C>,
                          rest: map<Ptr, C>)
    requires Owns(whole, l, mid) && Owns(mid, [h] + tail, rest)
    ensures Owns(whole, [h] + (tail + l), rest)
  {
    OwnsConcat(whole, [h] + tail, l, mid, rest);
    assert [h] + tail + l == [h] + (tail + l);
  }

  lemma OwnsWriteLast<C>(whole: map<Ptr, C>, h: Node<C>, tail: Layout<C>, q: Ptr, c: C, rest: map<Ptr, C>, d: C)
    requires Owns(whole, [h] + (tail + [Node(q, c)]), rest)
    ensures q in whole && whole[q] == c && q !in rest
    ensures Owns(whole[q := d], [h] + (tail + [Node(q, d)]), rest)
  {
    var l := [h] + (tail + [Node(q, c)]);
    OwnsAt(whole, l, rest, |l| - 1);
    OwnsWrite(whole, l, rest, |l| - 1, d);
    assert l[|l| - 1 := Node(q, d)] == [h] + (tail + [Node(q, d)]);
  }

  lemma {:induction false} OwnsFree<C>(whole: map<Ptr, C>, l: Layout<C>, rest: map<Ptr, C>, k: nat)
    requires k < |l| && Owns(whole, l, rest)
    ensures Owns(whole - {l[k].p}, l[..k] + l[k + 1..], rest)
    decreases |l|
  {
    var n := |l| - 1;
    var p := l[k].p;
    if k == n {
      assert l[..k] + l[k + 1..] == l[..n];
    } else {
      OwnsFree(whole - {l[n].p}, l[..n], rest, k);
      assert (whole - {l[n].p}) - {p} == whole - {p} - {l[n].p};
      assert (l[..k] + l[k + 1..])[..n - 1] == l[..n][..k] + l[..n][k + 1..];
      OwnsAt(whole - {l[n].p}, l[..n], rest, k);
    }
  }

  // Freeing and writing in the middle.

  lemma OwnsFreeAt<C>(whole: map<Ptr, C>, pre: Layout<C>, q: Ptr, c: C, post: Layout<C>, rest: map<Ptr, C>)
    requires Owns(whole, pre + ([Node(q, c)] + post), rest)
    ensures q in whole && whole[q] == c
    ensures Owns(whole - {q}, pre + post, rest)
  {
    var l := pre + ([Node(q, c)] + post);
    OwnsAt(whole, l, rest, |pre|);
    OwnsFree(whole, l, rest, |pre|);
    assert l[..|pre|] + l[|pre| + 1..] == pre + post;
  }

  lemma OwnsWriteSecond<C>(whole: map<Ptr, C>, h: Node<C>, q: Ptr, c: C, post: Layout<C>, rest: map<Ptr, C>, d: C)
    requires Owns(whole, [h] + ([Node(q, c)] + post), rest)
    ensures q in whole && whole[q] == c && q !in rest
    ensures Owns(whole[q := d], [h] + ([Node(q, d)] + post), rest)
  {
    var l := [h] + ([Node(q, c)] + post);
    OwnsAt(whole, l, rest, 1);
    OwnsWrite(whole, l, rest, 1, d);
    assert l[1 := Node(q, d)] == [h] + ([Node(q, d)] + post);
  }

  lemma OwnsFreeThird<C>(whole: map<Ptr, C>, h: Node<C>, t: Node<C>, q: Ptr, c: C, post: Layout<C>, rest: map<Ptr, C>)
    requires Owns(whole, [h] + ([t] + ([Node(q, c)] + post)), rest)
    ensures q != NULL && q in whole && whole[q] == c
    ensures Owns(whole - {q}, [h] + ([t] + post), rest)
  {
    var l := [h] + ([t] + ([Node(q, c)] + post));
    assert l == [h, t] + ([Node(q, c)] + post);
    OwnsAt(whole, l, rest, 2);
    OwnsFreeAt(whole, [h, t], q, c, post, rest);
    assert [h, t] + post == [h] + ([t] + post);
  }

  /** The order of two parts does not matter. */
  lemma OwnsSwap<C>(whole: map<Ptr, C>, l1: Layout<C>, l2: Layout<C>, rest: map<Ptr, C>)
    requires Owns(whole, l1 + l2, rest)
    ensures Owns(whole, l2 + l1, rest)
  {
    hide Owns, Minus;
    assert l1 + l2 == [] + (l1 + l2);
    OwnsExtract(whole, [], l1, l2, rest);
    assert [] + l2 == l2;
    OwnsConcat(whole, l2, l1, Minus(whole, l1), rest);
  }

  lemma OwnsRotate<C>(whole: map<Ptr, C>, l1: Layout<C>, l2: Layout<C>, l3: Layout<C>, rest: map<Ptr, C>)
    requires Owns(whole, l1 + l2 + l3, rest)
    ensures Owns(whole, l1 + l3 + l2, rest)
  {
    hide Owns, Minus;
    assert l1 + l2 + l3 == l1 + (l2 + l3);
    OwnsExtract(whole, l1, l2, l3, rest);
    OwnsConcat(whole, l1 + l3, l2, Minus(whole, l2), rest);
  }

  lemma {:induction false} OwnsDistinct<C>(whole: map<Ptr, C>, l: Layout<C>, rest: map<Ptr, C>, i: nat, j: nat)
    requires i < j < |l| && Owns(whole, l, rest)
    ensures l[i].p != l[j].p
    decreases |l|
  {
    var n := |l| - 1;
    if j < n {
      OwnsDistinct(whole - {l[n].p}, l[..n], rest, i, j);
    } else {
      OwnsAt(whole - {l[n].p}, l[..n], rest, i);
    }
  }

  /** Memory without the cells of a layout. */
  ghost function Minus<C>(whole: map<Ptr, C>, l: Layout<C>): map<Ptr, C>
    decreases |l|
  {
    if l == [] then whole else Minus(whole - {l[|l| - 1].p}, l[..|l| - 1])
  }

  /** A part of a layout can be taken out: it is owned in front of everything else. */
  lemma {:induction false} OwnsExtract<C>(whole: map<Ptr, C>, pre: Layout<C>, l: Layout<C>, post: Layout<C>,
                                          rest: map<Ptr, C>)
    requires Owns(whole, pre + (l + post), rest)
    ensures Owns(whole, l, Minus(whole, l))
    ensures Owns(Minus(whole, l), pre + post, rest)
    decreases |l|
  {
    if l == [] {
      assert l + post == post;
    } else {
      var n := |l| - 1;
      assert pre + (l + post) == (pre + l[..n]) + ([Node(l[n].p, l[n].cell)] + post);
      OwnsAt(whole, pre + (l + post), rest, |pre| + n);
      OwnsFreeAt(whole, pre + l[..n], l[n].p, l[n].cell, post, rest);
      assert (pre + l[..n]) + post == pre + (l[..n] + post);
      OwnsExtract(whole - {l[n].p}, pre, l[..n], post, rest);
    }
  }

  /** Memory consists of the cells of the layout and of the rest. */
  lemma {:induction false} OwnsAll<C>(whole: map<Ptr, C>, l: Layout<C>, rest: map<Ptr, C>, p: Ptr)
    requires Owns(whole, l, rest) && p in whole && p !in rest
    ensures exists k :: 0 <= k < |l| && l[k].p == p
    decreases |l|
  {
    var n := |l| - 1;
    if p == l[n].p {
    } else {
      OwnsAll(whole - {l[n].p}, l[..n], rest, p);
      var k :| 0 <= k < n && l[..n][k].p == p;
      assert l[k].p == p;
    }
  }

  lemma {:induction false} OwnsFrom<C>(whole: map<Ptr, C>, l: Layout<C>, rest: map<Ptr, C>)
    requires forall k :: 0 <= k < |l| ==> l[k].p != NULL && l[k].p in whole && whole[l[k].p] == l[k].cell
    requires forall k :: 0 <= k < |l| ==> l[k].p !in rest
    requires forall i, j :: 0 <= i < j < |l| ==> l[i].p != l[j].p
    requires Extends(whole, rest)
    requires forall p :: p in whole && p !in rest ==> exists k :: 0 <= k < |l| && l[k].p == p
    ensures Owns(whole, l, rest)
    decreases |l|
  {
    hide Owns, Extends;
    if l == [] {
      OwnsNothing(whole, rest);
    } else {
      var n := |l| - 1;
      var q, part := l[n].p, whole - {l[n].p};
      forall p | p in part && p !in rest ensures exists k :: 0 <= k < n && l[..n][k].p == p {
        var k :| 0 <= k < |l| && l[k].p == p;
        assert l[..n][k].p == p;
      }
      OwnsLast(whole, l, rest);
      OwnsFrom(part, l[..n], rest);
    }
  }

  lemma OwnsNothing<C>(whole: map<Ptr, C>, rest: map<Ptr, C>)
    requires Extends(whole, rest) && forall p :: p in whole ==> p in rest
    ensures Owns(whole, [], rest)
  {
    assert whole == rest;
  }

  /** One cell more. */
  lemma OwnsLast<C>(whole: map<Ptr, C>, l: Layout<C>, rest: map<Ptr, C>)
    requires l != []
    requires var x := l[|l| - 1]; x.p != NULL && x.p in whole && whole[x.p] == x.cell && x.p !in rest
    ensures Extends(whole, rest) ==> Extends(whole - {l[|l| - 1].p}, rest)
    ensures Owns(whole - {l[|l| - 1].p}, l[..|l| - 1], rest) ==> Owns(whole, l, rest)
  {
  }

  /** What ownership means: the cells of the layout and those of the rest are at different addresses and make up all of
      memory. */
  lemma OwnsExactly<C>(whole: map<Ptr, C>, l: Layout<C>, rest: map<Ptr, C>)
    ensures Owns(whole, l, rest) <==>
            && (forall k :: 0 <= k < |l| ==>
                  l[k].p != NULL && l[k].p in whole && whole[l[k].p] == l[k].cell && l[k].p !in rest)
            && (forall i, j :: 0 <= i < j < |l| ==> l[i].p != l[j].p)
            && (forall p :: p in rest ==> p in whole && whole[p] == rest[p])
            && (forall p :: p in whole && p !in rest ==> exists k :: 0 <= k < |l| && l[k].p == p)
  {
    hide Owns;
    if Owns(whole, l, rest) {
      OwnsHas(whole, l, rest);
      forall k | 0 <= k < |l|
        ensures l[k].p != NULL && l[k].p in whole && whole[l[k].p] == l[k].cell && l[k].p !in rest {
        OwnsAt(whole, l, rest, k);
      }
      forall i, j | 0 <= i < j < |l| ensures l[i].p != l[j].p {
        OwnsDistinct(whole, l, rest, i, j);
      }
      forall p | p in whole && p !in rest ensures exists k :: 0 <= k < |l| && l[k].p == p {
        OwnsAll(whole, l, rest, p);
      }
    } else if && (forall k :: 0 <= k < |l| ==>
                    l[k].p != NULL && l[k].p in whole && whole[l[k].p] == l[k].cell && l[k].p !in rest)
              && (forall i, j :: 0 <= i < j < |l| ==> l[i].p != l[j].p)
              && (forall p :: p in rest ==> p in whole && whole[p] == rest[p])
              && (forall p :: p in whole && p !in rest ==> exists k :: 0 <= k < |l| && l[k].p == p) {
      OwnsFrom(whole, l, rest);
    }
  }
}

/** NUL-terminated strings in character buffers. */
module CString {

  const NUL := '\0'

  /** The buffer `s` holds the C string `text`, which is what strlen and strcpy see of it. */
  ghost predicate Holds(s: seq<char>, text: string) {
    && |text| < |s|
    && s[|text|] == NUL
    && forall k :: 0 <= k < |text| ==> s[k] == text[k] && text[k] != NUL
  }

  method StrLen(s: seq<char>, ghost text: string) returns (n: nat)
    requires Holds(s, text)
    ensures n == |text|
  {
    n := 0;
    while s[n] != NUL
      invariant n <= |text|
      decreases |text| - n
    {
      n := n + 1;
    }
  }
}
