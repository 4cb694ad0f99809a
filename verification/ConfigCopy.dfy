/** Deep copying of the configuration store: copy_me_cfg_*, ConfigDuplicate, ConfigJoin, ConfigAppend. */
module ConfigCopy {
  import opened Defines
  import opened Memory
  import opened Ownership
  import opened CString
  import opened DeviceTree

  function Nulls(n: nat): seq<Ptr> {
    seq(n, _ => NULL)
  }

  /** table[i] = p, inside the table. */
  method SetSlot(heap: Heap<Cell>, table: Ptr, i: nat, p: Ptr)
    requires table in heap.cells && heap.cells[table].TableCell?
    requires i < |heap.cells[table].slots|
    modifies heap
    ensures heap.cells == old(heap.cells)[table := TableCell(old(heap.cells)[table].slots[i := p])]
  {
    heap.Write(table, TableCell(heap.cells[table].slots[i := p]));
  }

  /** strcpy into a buffer that is one character longer than the string. */
  method StrCpy(heap: Heap<Cell>, dst: Ptr, src: Ptr, ghost t: Text)
    requires t.Text? && TextOk(t) && src in heap.cells && heap.cells[src] == TextCell(t.chars)
    requires dst in heap.cells && dst != src && heap.cells[dst].TextCell? && |heap.cells[dst].chars| == |t.text| + 1
    modifies heap
    ensures dst in heap.cells && heap.cells[dst].TextCell? && |heap.cells[dst].chars| == |t.text| + 1
    ensures Holds(heap.cells[dst].chars, t.text)
    ensures heap.cells == old(heap.cells)[dst := heap.cells[dst]]
  {
    ghost var base: map<Ptr, Cell>, buffer := heap.cells, heap.cells[dst].chars;
    var i := 0;
    while heap.cells[src].chars[i] != NUL
      invariant 0 <= i <= |t.text| && |buffer| == |t.text| + 1
      invariant heap.cells == base[dst := TextCell(buffer)]
      invariant forall k :: 0 <= k < i ==> buffer[k] == t.text[k]
      decreases |t.text| - i
    {
      heap.Write(dst, TextCell(heap.cells[dst].chars[i := heap.cells[src].chars[i]]));
      WriteTwice(base, dst, TextCell(buffer), heap.cells[dst]);
      buffer := heap.cells[dst].chars;
      i := i + 1;
    }
    heap.Write(dst, TextCell(heap.cells[dst].chars[i := NUL]));
    WriteTwice(base, dst, TextCell(buffer), heap.cells[dst]);
  }

  lemma WriteTwice(m: map<Ptr, Cell>, p: Ptr, a: Cell, b: Cell)
    ensures m[p := a][p := b] == m[p := b]
  {
  }

  /** calloc(strlen(src) + 1) followed by strcpy. */
  method StrDup(heap: Heap<Cell>, src: Ptr, ghost t: Text) returns (dst: Ptr, ghost copy: Text)
    requires t.Text? && src == t.p && TextOk(t) && Has(heap.cells, TextLayout(t))
    modifies heap
    ensures copy.Text? && copy.p == dst && TextOk(copy) && copy.text == t.text && |copy.chars| == |t.text| + 1
    ensures Owns(heap.cells, TextLayout(copy), old(heap.cells))
  {
    hide Has;
    ghost var base: map<Ptr, Cell> := heap.cells;
    HasAt(base, TextLayout(t), 0);
    var n := StrLen(heap.cells[src].chars, t.text);
    dst := heap.Alloc(TextCell(seq(n + 1, _ => NUL)));
    ghost var empty := heap.cells[dst];
    StrCpy(heap, dst, src, t);
    copy := Text(dst, heap.cells[dst].chars, t.text);
    WriteTwice(base, dst, empty, heap.cells[dst]);
    OwnsAppend(base, [], base, dst, heap.cells[dst]);
    assert TextLayout(copy) == [] + [Node(dst, heap.cells[dst])];
  }

  lemma TableHas(source: map<Ptr, Cell>, table: Ptr, slots: seq<Ptr>)
    requires table != NULL && Has(source, TableLayout(table, slots))
    ensures table in source && source[table] == TableCell(slots)
  {
  }

  lemma RangeListStep(before: map<Ptr, Cell>, copies: seq<RangeNode>, base: map<Ptr, Cell>, dst: Ptr, left: nat,
                      copy: RangeNode)
    requires Owns(before, RangesLayout(copies), base[dst := TableCell(RangePtrs(copies) + Nulls(left + 1))])
    requires copy.p != NULL && copy.p !in before
    ensures var slots := (RangePtrs(copies) + Nulls(left + 1))[|copies| := copy.p];
            && slots == RangePtrs(copies + [copy]) + Nulls(left)
            && Owns(before[dst := TableCell(slots)][copy.p := RangeCell(copy.info)], RangesLayout(copies + [copy]),
                    base[dst := TableCell(slots)])
  {
    var slots := RangePtrs(copies) + Nulls(left + 1);
    assert slots[|copies| := copy.p] == RangePtrs(copies + [copy]) + Nulls(left);
    var linked := TableCell(slots[|copies| := copy.p]);
    OwnsRelink(before, RangesLayout(copies), base, dst, TableCell(slots), linked);
    OwnsAppend(before[dst := linked], RangesLayout(copies), base[dst := linked], copy.p, RangeCell(copy.info));
    assert RangesLayout(copies) + [Node(copy.p, RangeCell(copy.info))] == RangesLayout(copies + [copy]);
  }

  /** One round of copy_me_cfg_range_list. */
  method CopyNextRange(heap: Heap<Cell>, src: Ptr, dst: Ptr, i: nat, ghost r: RangeNode, ghost source: map<Ptr, Cell>,
                       ghost copies: seq<RangeNode>, ghost base: map<Ptr, Cell>, ghost left: nat)
    returns (ghost copy: RangeNode)
    requires Extends(heap.cells, source) && r.p in source && source[r.p] == RangeCell(r.info)
    requires src in source && source[src].TableCell? && i < |source[src].slots| && source[src].slots[i] == r.p
    requires i == |copies| && dst !in source
    requires Owns(heap.cells, RangesLayout(copies), base[dst := TableCell(RangePtrs(copies) + Nulls(left + 1))])
    modifies heap
    ensures copy.info == r.info
    ensures Owns(heap.cells, RangesLayout(copies + [copy]),
                 base[dst := TableCell(RangePtrs(copies + [copy]) + Nulls(left))])
    ensures Extends(heap.cells, source)
  {
    hide Owns, RangesLayout;
    ghost var slots := RangePtrs(copies) + Nulls(left + 1);
    ghost var before: map<Ptr, Cell> := heap.cells;
    OwnsRelink(before, RangesLayout(copies), base, dst, TableCell(slots), TableCell(slots));
    var p := heap.Alloc(RangeCell(RangeInfo(0, 0.0, 0.0, 0)));
    SetSlot(heap, dst, i, p);
    heap.Write(p, heap.cells[heap.cells[src].slots[i]]);
    copy := RangeNode(p, r.info);
    RangeListStep(before, copies, base, dst, left, copy);
    assert heap.cells == before[dst := TableCell(slots[i := p])][p := RangeCell(copy.info)];
  }

  method CopyRangeList(heap: Heap<Cell>, src: Ptr, dst: Ptr, count: nat,
                       ghost ranges: seq<RangeNode>, ghost spare: seq<Ptr>, ghost source: map<Ptr, Cell>)
    returns (ghost copies: seq<RangeNode>)
    requires count == |ranges|
    requires Extends(heap.cells, source) && Has(source, RangesLayout(ranges))
    requires count > 0 ==> Has(source, TableLayout(src, RangePtrs(ranges) + spare)) && src != NULL
    requires dst in heap.cells && dst !in source && heap.cells[dst] == TableCell(Nulls(count))
    modifies heap
    ensures RangeValues(copies) == RangeValues(ranges)
    ensures Owns(heap.cells, RangesLayout(copies), old(heap.cells)[dst := TableCell(RangePtrs(copies))])
    ensures Extends(heap.cells, source)
  {
    hide Owns, Has;
    copies := [];
    ghost var base: map<Ptr, Cell> := heap.cells;
    NoCopies(base, dst, count);
    for i := 0 to count
      invariant |copies| == i
      invariant forall k :: 0 <= k < i ==> copies[k].info == ranges[k].info
      invariant Extends(heap.cells, source)
      invariant Owns(heap.cells, RangesLayout(copies), base[dst := TableCell(RangePtrs(copies) + Nulls(count - i))])
    {
      TableHas(source, src, RangePtrs(ranges) + spare);
      HasAt(source, RangesLayout(ranges), i);
      ghost var copy := CopyNextRange(heap, src, dst, i, ranges[i], source, copies, base, count - i - 1);
      copies := copies + [copy];
    }
    assert RangePtrs(copies) + Nulls(0) == RangePtrs(copies);
  }

  /** One round of copy_me_cfg_subdevice_list: fills the new struct at `dst`. */
  method CopySubdevice(heap: Heap<Cell>, src: Ptr, dst: Ptr, ghost s: Subdevice, ghost source: map<Ptr, Cell>)
    returns (ghost copy: Subdevice)
    requires src == s.p && SubdeviceOk(s)
    requires Extends(heap.cells, source) && Has(source, SubdeviceLayout(s))
    requires dst != NULL && dst in heap.cells && dst !in source
    modifies heap
    ensures copy.p == dst && SubdeviceOk(copy) && ValueOfSubdevice(copy) == ValueOfSubdevice(s)
    ensures Owns(heap.cells, SubdeviceLayout(copy), old(heap.cells) - {dst})
    ensures Extends(heap.cells, source)
  {
    hide Owns, Has, RangesLayout;
    SubdeviceHas(source, s);
    ghost var base: map<Ptr, Cell> := heap.cells - {dst};
    heap.Write(dst, heap.cells[src]);
    var table := heap.Alloc(TableCell(Nulls(heap.cells[dst].rangeCount)));
    heap.Write(dst, heap.cells[dst].(rangeList := table));
    ghost var before: map<Ptr, Cell> := heap.cells;
    ghost var ranges := CopyRangeList(heap, heap.cells[src].rangeList, table, heap.cells[dst].rangeCount, s.ranges,
                                      s.spare, source);
    copy := Subdevice(dst, s.info, table, ranges, []);
    assert |ranges| == |RangeValues(ranges)| == |s.ranges|;
    assert RangePtrs(ranges) + [] == RangePtrs(ranges);
    ghost var mid: map<Ptr, Cell> := base[dst := SubdeviceStruct(copy)][table := TableCell(RangePtrs(ranges))];
    assert before[table := TableCell(RangePtrs(ranges))] == mid;
    OwnsTwo(base, dst, SubdeviceStruct(copy), table, TableCell(RangePtrs(ranges)));
    OwnsConcat(heap.cells, [Node(dst, SubdeviceStruct(copy)), Node(table, TableCell(RangePtrs(ranges)))],
               RangesLayout(ranges), mid, base);
    assert SubdeviceLayout(copy) == [Node(dst, SubdeviceStruct(copy)), Node(table, TableCell(RangePtrs(ranges)))]
        + RangesLayout(ranges);
  }

  lemma SubdeviceHas(source: map<Ptr, Cell>, s: Subdevice)
    requires Has(source, SubdeviceLayout(s))
    ensures s.p in source && source[s.p] == SubdeviceStruct(s)
    ensures Has(source, TableLayout(s.table, RangePtrs(s.ranges) + s.spare))
    ensures Has(source, RangesLayout(s.ranges))
  {
    var head, table := [Node(s.p, SubdeviceStruct(s))], TableLayout(s.table, RangePtrs(s.ranges) + s.spare);
    HasConcat(source, head + table, RangesLayout(s.ranges));
    HasConcat(source, head, table);
    HasAt(source, head, 0);
  }

  lemma {:induction false} SubdevicesHas(source: map<Ptr, Cell>, subdevices: seq<Subdevice>, k: nat)
    requires k < |subdevices| && Has(source, SubdevicesLayout(subdevices))
    ensures Has(source, SubdeviceLayout(subdevices[k]))
    decreases |subdevices|
  {
    hide SubdeviceLayout;
    var n := |subdevices| - 1;
    HasConcat(source, SubdevicesLayout(subdevices[..n]), SubdeviceLayout(subdevices[n]));
    if k == n {
    } else {
      SubdevicesHas(source, subdevices[..n], k);
    }
  }

  lemma SubdeviceListStep(before: map<Ptr, Cell>, after: map<Ptr, Cell>, copies: seq<Subdevice>, base: map<Ptr, Cell>,
                          dst: Ptr, left: nat, copy: Subdevice)
    requires Owns(before, SubdevicesLayout(copies), base[dst := TableCell(SubdevicePtrs(copies) + Nulls(left + 1))])
    requires var slots := (SubdevicePtrs(copies) + Nulls(left + 1))[|copies| := copy.p];
             Owns(after, SubdeviceLayout(copy), before[dst := TableCell(slots)])
    ensures Owns(after, SubdevicesLayout(copies + [copy]),
                 base[dst := TableCell(SubdevicePtrs(copies + [copy]) + Nulls(left))])
  {
    var slots := SubdevicePtrs(copies) + Nulls(left + 1);
    assert slots[|copies| := copy.p] == SubdevicePtrs(copies + [copy]) + Nulls(left);
    var linked := TableCell(slots[|copies| := copy.p]);
    OwnsRelink(before, SubdevicesLayout(copies), base, dst, TableCell(slots), linked);
    OwnsConcat(after, SubdevicesLayout(copies), SubdeviceLayout(copy), before[dst := linked], base[dst := linked]);
    assert (copies + [copy])[..|copies|] == copies;
  }

  /** One round of copy_me_cfg_subdevice_list. */
  method CopyNextSubdevice(heap: Heap<Cell>, src: Ptr, dst: Ptr, i: nat, ghost s: Subdevice,
                           ghost source: map<Ptr, Cell>,
                           ghost copies: seq<Subdevice>, ghost base: map<Ptr, Cell>, ghost left: nat)
    returns (ghost copy: Subdevice)
    requires SubdeviceOk(s) && Extends(heap.cells, source) && Has(source, SubdeviceLayout(s))
    requires src in source && source[src].TableCell? && i < |source[src].slots| && source[src].slots[i] == s.p
    requires i == |copies| && dst !in source
    requires Owns(heap.cells, SubdevicesLayout(copies), base[dst := TableCell(SubdevicePtrs(copies) + Nulls(left + 1))])
    modifies heap
    ensures SubdeviceOk(copy) && ValueOfSubdevice(copy) == ValueOfSubdevice(s)
    ensures Owns(heap.cells, SubdevicesLayout(copies + [copy]),
                 base[dst := TableCell(SubdevicePtrs(copies + [copy]) + Nulls(left))])
    ensures Extends(heap.cells, source)
  {
    hide Owns, Has, SubdevicesLayout, SubdeviceLayout, ValueOfSubdevice;
    ghost var slots := SubdevicePtrs(copies) + Nulls(left + 1);
    ghost var before: map<Ptr, Cell> := heap.cells;
    OwnsRelink(before, SubdevicesLayout(copies), base, dst, TableCell(slots), TableCell(slots));
    var p := heap.Alloc(SubdeviceCell(SubdeviceInfo(0, 0, 0, 0, NoExtension), NULL, 0));
    SetSlot(heap, dst, i, p);
    assert heap.cells - {p} == before[dst := TableCell(slots[i := p])];
    copy := CopySubdevice(heap, heap.cells[src].slots[i], p, s, source);
    SubdeviceListStep(before, heap.cells, copies, base, dst, left, copy);
  }

  lemma NoCopies(base: map<Ptr, Cell>, dst: Ptr, count: nat)
    requires dst in base && base[dst] == TableCell(Nulls(count))
    ensures Owns(base, SubdevicesLayout([]), base[dst := TableCell(SubdevicePtrs([]) + Nulls(count))])
    ensures Owns(base, RangesLayout([]), base[dst := TableCell(RangePtrs([]) + Nulls(count))])
  {
    assert SubdevicePtrs([]) + Nulls(count) == Nulls(count) && RangePtrs([]) + Nulls(count) == Nulls(count);
    assert base[dst := TableCell(Nulls(count))] == base;
  }

  method CopySubdeviceList(heap: Heap<Cell>, src: Ptr, dst: Ptr, count: nat,
                           ghost subdevices: seq<Subdevice>, ghost spare: seq<Ptr>, ghost source: map<Ptr, Cell>)
    returns (ghost copies: seq<Subdevice>)
    requires count == |subdevices| && forall k :: 0 <= k < count ==> SubdeviceOk(subdevices[k])
    requires Extends(heap.cells, source) && Has(source, SubdevicesLayout(subdevices))
    requires count > 0 ==> Has(source, TableLayout(src, SubdevicePtrs(subdevices) + spare)) && src != NULL
    requires dst in heap.cells && dst !in source && heap.cells[dst] == TableCell(Nulls(count))
    modifies heap
    ensures SubdeviceValues(copies) == SubdeviceValues(subdevices)
    ensures forall k :: 0 <= k < |copies| ==> SubdeviceOk(copies[k])
    ensures Owns(heap.cells, SubdevicesLayout(copies), old(heap.cells)[dst := TableCell(SubdevicePtrs(copies))])
    ensures Extends(heap.cells, source)
  {
    hide Owns, Has, SubdevicesLayout, SubdeviceLayout, ValueOfSubdevice, SubdeviceOk;
    copies := [];
    ghost var base: map<Ptr, Cell> := heap.cells;
    NoCopies(base, dst, count);
    for i := 0 to count
      invariant |copies| == i
      invariant forall k :: 0 <= k < i ==>
                SubdeviceOk(copies[k]) && ValueOfSubdevice(copies[k]) == ValueOfSubdevice(subdevices[k])
      invariant Extends(heap.cells, source)
      invariant Owns(heap.cells, SubdevicesLayout(copies),
                     base[dst := TableCell(SubdevicePtrs(copies) + Nulls(count - i))])
    {
      TableHas(source, src, SubdevicePtrs(subdevices) + spare);
      SubdevicesHas(source, subdevices, i);
      ghost var copy := CopyNextSubdevice(heap, src, dst, i, subdevices[i], source, copies, base, count - i - 1);
      copies := copies + [copy];
    }
    assert SubdevicePtrs(copies) + Nulls(0) == SubdevicePtrs(copies);
  }

  /** A string that may be missing is copied if it is there; `dst` is the struct, so far with the parts `tail`. */
  method CopyText(heap: Heap<Cell>, src: Ptr, ghost t: Text, ghost dst: Ptr, ghost c: Cell, ghost tail: Layout<Cell>,
                  ghost base: map<Ptr, Cell>)
    returns (p: Ptr, ghost copy: Text)
    requires src == TextPtr(t) && TextOk(t) && Has(base, TextLayout(t))
    requires Owns(heap.cells, [Node(dst, c)] + tail, base)
    modifies heap
    ensures p == TextPtr(copy) && TextOk(copy) && TextValue(copy) == TextValue(t)
    ensures Owns(heap.cells, [Node(dst, c)] + (tail + TextLayout(copy)), base)
    ensures dst in heap.cells && heap.cells[dst] == c && Extends(heap.cells, base)
  {
    p, copy := NULL, NoText;
    OwnsWriteHead(heap.cells, dst, c, tail, base, c);
    if src != NULL {
      ghost var mid: map<Ptr, Cell> := heap.cells;
      p, copy := StrDup(heap, src, t);
      OwnsConcatTail(heap.cells, Node(dst, c), tail, TextLayout(copy), mid, base);
      OwnsWriteHead(heap.cells, dst, c, tail + TextLayout(copy), base, c);
    } else {
      assert tail + TextLayout(copy) == tail;
    }
  }

  /** An assignment to a field of the struct at `dst`. */
  method WriteStruct(heap: Heap<Cell>, dst: Ptr, c: Cell, ghost tail: Layout<Cell>, ghost base: map<Ptr, Cell>)
    requires dst in heap.cells && Owns(heap.cells, [Node(dst, heap.cells[dst])] + tail, base)
    modifies heap
    ensures heap.cells == old(heap.cells)[dst := c]
    ensures Owns(heap.cells, [Node(dst, c)] + tail, base) && Extends(heap.cells, base)
  {
    OwnsWriteHead(heap.cells, dst, heap.cells[dst], tail, base, c);
    heap.Write(dst, c);
    OwnsWriteHead(heap.cells, dst, c, tail, base, c);
  }

  /** copy_me_cfg_desc. */
  method CopyDesc(heap: Heap<Cell>, src: Ptr, dst: Ptr, ghost d: Device, ghost base: map<Ptr, Cell>)
    returns (err: int, ghost name: Text, ghost description: Text)
    requires DeviceOk(d) && src in base && base[src] == DeviceStruct(d)
    requires Has(base, TextLayout(d.name)) && Has(base, TextLayout(d.description))
    requires dst in heap.cells && heap.cells[dst].DeviceCell?
    requires Owns(heap.cells, [Node(dst, heap.cells[dst])] + [], base)
    modifies heap
    ensures TextOk(name) && TextValue(name) == TextValue(d.name)
    ensures TextOk(description) && TextValue(description) == TextValue(d.description)
    ensures Owns(heap.cells,
                 [Node(dst, old(heap.cells)[dst].(name := TextPtr(name), description := TextPtr(description)))]
                             + ([] + TextLayout(name) + TextLayout(description)), base)
    ensures err == if d.name.Text? && d.description.Text? then ERRNO_SUCCESS else ERRNO_INTERNAL
  {
    hide Owns, Has;
    var p;
    WriteStruct(heap, dst, heap.cells[dst].(name := NULL, description := NULL), [], base);
    p, name := CopyText(heap, heap.cells[src].name, d.name, dst, heap.cells[dst], [], base);
    WriteStruct(heap, dst, heap.cells[dst].(name := p), [] + TextLayout(name), base);
    p, description := CopyText(heap, heap.cells[src].description, d.description, dst, heap.cells[dst],
                               [] + TextLayout(name), base);
    WriteStruct(heap, dst, heap.cells[dst].(description := p), [] + TextLayout(name) + TextLayout(description), base);
    var both := heap.cells[dst].name != NULL && heap.cells[dst].description != NULL;
    err := if both then ERRNO_SUCCESS else ERRNO_INTERNAL;
  }

  lemma DeviceHas(source: map<Ptr, Cell>, d: Device)
    requires Has(source, DeviceLayout(d))
    ensures d.p in source && source[d.p] == DeviceStruct(d)
    ensures Has(source, TextLayout(d.name)) && Has(source, TextLayout(d.description)) && Has(source, TextLayout(d.host))
    ensures Has(source, TableLayout(d.table, SubdevicePtrs(d.subdevices) + d.spare))
    ensures Has(source, SubdevicesLayout(d.subdevices))
  {
    var name, description, table := TextLayout(d.name), TextLayout(d.description),
        TableLayout(d.table, SubdevicePtrs(d.subdevices) + d.spare);
    var subdevices := SubdevicesLayout(d.subdevices);
    HasConcat(source, [Node(d.p, DeviceStruct(d))], DeviceParts(d));
    HasAt(source, [Node(d.p, DeviceStruct(d))], 0);
    HasConcat(source, name + description + table + subdevices, TextLayout(d.host));
    HasConcat(source, name + description + table, subdevices);
    HasConcat(source, name + description, table);
    HasConcat(source, name, description);
  }

  predicate Supported(access: AccessType) {
    access in {AccessPci, AccessTcpip, AccessUsb}
  }

  /** calloc of the subdevice table of the struct at `dst`. */
  method AllocSubdeviceTable(heap: Heap<Cell>, dst: Ptr, ghost tail: Layout<Cell>, ghost base: map<Ptr, Cell>)
    returns (t: Ptr)
    requires dst in heap.cells && heap.cells[dst].DeviceCell?
    requires Owns(heap.cells, [Node(dst, heap.cells[dst])] + tail, base)
    modifies heap
    ensures t != NULL && t in heap.cells && t !in base && Extends(heap.cells, base)
    ensures heap.cells[t] == TableCell(Nulls(old(heap.cells)[dst].subdeviceCount))
    ensures dst in heap.cells && heap.cells[dst] == old(heap.cells)[dst].(subdeviceList := t)
    ensures Owns(heap.cells, [Node(dst, heap.cells[dst])] + (tail + [Node(t, heap.cells[t])]), base)
  {
    ghost var before: map<Ptr, Cell> := heap.cells;
    t := heap.Alloc(TableCell(Nulls(heap.cells[dst].subdeviceCount)));
    OwnsAppendTail(before, Node(dst, before[dst]), tail, base, t, heap.cells[t]);
    WriteStruct(heap, dst, heap.cells[dst].(subdeviceList := t), tail + [Node(t, heap.cells[t])], base);
    OwnsWriteLast(heap.cells, Node(dst, heap.cells[dst]), tail, t, heap.cells[t], base, heap.cells[t]);
  }

  lemma TableFilled(before: map<Ptr, Cell>, after: map<Ptr, Cell>, h: Node<Cell>, tail: Layout<Cell>, t: Ptr,
                    empty: Cell, filled: Cell,
                    parts: Layout<Cell>, base: map<Ptr, Cell>)
    requires Owns(before, [h] + (tail + [Node(t, empty)]), base)
    requires Owns(after, parts, before[t := filled])
    ensures Owns(after, [h] + (tail + [Node(t, filled)] + parts), base)
    ensures h.p in after && after[h.p] == h.cell && Extends(after, base)
  {
    OwnsWriteLast(before, h, tail, t, empty, base, filled);
    OwnsConcatTail(after, h, tail + [Node(t, filled)], parts, before[t := filled], base);
    OwnsWriteHead(after, h.p, h.cell, tail + [Node(t, filled)] + parts, base, h.cell);
  }

  /** The subdevice table of a copied device: a new table, filled with copies. */
  method CopySubdeviceTable(heap: Heap<Cell>, src: Ptr, dst: Ptr, ghost d: Device, ghost tail: Layout<Cell>,
                            ghost base: map<Ptr, Cell>)
    returns (ghost table: Ptr, ghost copies: seq<Subdevice>)
    requires DeviceOk(d) && src == d.p && src in base && base[src] == DeviceStruct(d)
    requires Has(base, TableLayout(d.table, SubdevicePtrs(d.subdevices) + d.spare))
    requires Has(base, SubdevicesLayout(d.subdevices))
    requires dst in heap.cells && heap.cells[dst].DeviceCell? && heap.cells[dst].subdeviceCount == |d.subdevices|
    requires Owns(heap.cells, [Node(dst, heap.cells[dst])] + tail, base)
    modifies heap
    ensures table != NULL
    ensures SubdeviceValues(copies) == SubdeviceValues(d.subdevices)
    ensures forall k :: 0 <= k < |copies| ==> SubdeviceOk(copies[k])
    ensures Owns(heap.cells,
                 [Node(dst, old(heap.cells)[dst].(subdeviceList := table))]
                 + (tail + [Node(table, TableCell(SubdevicePtrs(copies)))] + SubdevicesLayout(copies)),
                 base)
    ensures dst in heap.cells && heap.cells[dst] == old(heap.cells)[dst].(subdeviceList := table)
    ensures Extends(heap.cells, base)
  {
    var t := AllocSubdeviceTable(heap, dst, tail, base);
    table := t;
    ghost var before: map<Ptr, Cell> := heap.cells;
    copies := CopySubdeviceList(heap, heap.cells[src].subdeviceList, t, heap.cells[dst].subdeviceCount, d.subdevices,
                                d.spare, base);
    TableFilled(before, heap.cells, Node(dst, before[dst]), tail, t, before[t], TableCell(SubdevicePtrs(copies)),
                SubdevicesLayout(copies), base);
  }

  /** The bus-specific part of copy_me_cfg_entry. */
  method CopyBus(heap: Heap<Cell>, src: Ptr, dst: Ptr, ghost d: Device, ghost tail: Layout<Cell>,
                 ghost base: map<Ptr, Cell>)
    returns (err: int, ghost host: Text, ghost bus: Bus)
    requires DeviceOk(d) && src in base && base[src] == DeviceStruct(d) && Has(base, TextLayout(d.host))
    requires dst in heap.cells && heap.cells[dst].DeviceCell? && heap.cells[dst].info == d.info
    requires heap.cells[dst].bus == d.bus
    requires Owns(heap.cells, [Node(dst, heap.cells[dst])] + tail, base)
    modifies heap
    ensures TextOk(host) && TextValue(host) == TextValue(d.host)
    ensures if d.bus.Remote? then bus == Remote(TextPtr(host)) else bus == d.bus && host.NoText?
    ensures Owns(heap.cells, [Node(dst, old(heap.cells)[dst].(bus := bus))] + (tail + TextLayout(host)), base)
    ensures err == if Supported(d.info.access) then ERRNO_SUCCESS else ERRNO_INTERNAL
  {
    err, host := ERRNO_SUCCESS, NoText;
    assert tail + TextLayout(NoText) == tail;
    OwnsWriteHead(heap.cells, dst, heap.cells[dst], tail, base, heap.cells[dst]);
    match heap.cells[dst].info.access {
      case AccessPci =>  // the three numbers copied here again came with the struct
      case AccessTcpip =>
        if heap.cells[src].bus.host != NULL {
          var p;
          p, host := CopyText(heap, heap.cells[src].bus.host, d.host, dst, heap.cells[dst], tail, base);
          WriteStruct(heap, dst, heap.cells[dst].(bus := Remote(p)), tail + TextLayout(host), base);
        }
      case AccessUsb =>  // likewise the hub number
      case _ =>
        err := ERRNO_INTERNAL;
    }
    bus := heap.cells[dst].bus;
  }

  /** The body of copy_me_cfg_entry after the new struct is in the table: fills the struct at `dst`. */
  method CopyDevice(heap: Heap<Cell>, src: Ptr, dst: Ptr, ghost d: Device, ghost base: map<Ptr, Cell>)
    returns (err: int, ghost copy: Device)
    requires src == d.p && DeviceOk(d) && Has(base, DeviceLayout(d))
    requires dst != NULL && dst in heap.cells && Owns(heap.cells, [Node(dst, heap.cells[dst])] + [], base)
    modifies heap
    ensures copy.p == dst && DeviceOk(copy) && ValueOfDevice(copy) == ValueOfDevice(d)
    ensures Owns(heap.cells, DeviceLayout(copy), base)
    ensures err == if Supported(d.info.access) then ERRNO_SUCCESS else ERRNO_INTERNAL
  {
    hide SubdevicesLayout, Owns, Has;
    ghost var name, description, host, bus, table, subdevices;
    DeviceHas(base, d);
    OwnsWriteHead(heap.cells, dst, heap.cells[dst], [], base, heap.cells[dst]);
    WriteStruct(heap, dst, heap.cells[src], [], base);
    err, name, description := CopyDesc(heap, src, dst, d, base);
    ghost var texts := [] + TextLayout(name) + TextLayout(description);
    ghost var cell := DeviceStruct(d).(name := TextPtr(name), description := TextPtr(description));
    OwnsWriteHead(heap.cells, dst, cell, texts, base, cell);
    table, subdevices := CopySubdeviceTable(heap, src, dst, d, texts, base);
    ghost var tail := texts + [Node(table, TableCell(SubdevicePtrs(subdevices)))] + SubdevicesLayout(subdevices);
    err, host, bus := CopyBus(heap, src, dst, d, tail, base);
    copy := Device(dst, d.info, bus, name, description, host, table, subdevices, []);
    CopiedLayout(copy);
    CopiedValue(d, copy);
  }

  lemma CopiedValue(d: Device, copy: Device)
    requires SubdeviceValues(copy.subdevices) == SubdeviceValues(d.subdevices)
    requires TextValue(copy.name) == TextValue(d.name) && TextValue(copy.description) == TextValue(d.description)
    requires TextValue(copy.host) == TextValue(d.host)
    requires copy.info == d.info && copy.bus.Remote? == d.bus.Remote? && (d.bus.Words? ==> copy.bus == d.bus)
    ensures ValueOfDevice(copy) == ValueOfDevice(d) && |copy.subdevices| == |d.subdevices|
  {
    assert |SubdeviceValues(copy.subdevices)| == |SubdeviceValues(d.subdevices)|;
  }

  lemma CopiedLayout(d: Device)
    requires d.table != NULL && d.spare == []
    ensures DeviceParts(d) == [] + TextLayout(d.name) + TextLayout(d.description)
            + [Node(d.table, TableCell(SubdevicePtrs(d.subdevices)))]
                              + SubdevicesLayout(d.subdevices) + TextLayout(d.host)
  {
    assert SubdevicePtrs(d.subdevices) + d.spare == SubdevicePtrs(d.subdevices);
  }

  /** The configuration `c` with one more device, whose pointer is now in the first spare slot. */
  ghost function WithDevice(c: Config, d: Device): Config
    requires c.spare != []
  {
    Config(c.p, c.table, c.devices + [d], c.spare[1..])
  }

  lemma EntryLinked(before: map<Ptr, Cell>, after: map<Ptr, Cell>, c: Config, copy: Device, base: map<Ptr, Cell>)
    requires ConfigOk(c) && c.table != NULL && c.spare != []
    requires Owns(before, ConfigLayout(c), base)
    requires Owns(after, DeviceLayout(copy),
                  before[c.table := TableCell((DevicePtrs(c.devices) + c.spare)[|c.devices| := copy.p])])
    ensures c.p in after && after[c.p] == ConfigCell(c.table, |c.devices|)
    ensures Owns(after[c.p := ConfigCell(c.table, |c.devices| + 1)], ConfigLayout(WithDevice(c, copy)), base)
    ensures Extends(after[c.p := ConfigCell(c.table, |c.devices| + 1)], base)
  {
    hide DeviceLayout, DevicesLayout, ConfigLayout, Owns, Has, DeviceOk;
    var n, slots, c' := |c.devices|, DevicePtrs(c.devices) + c.spare, WithDevice(c, copy);
    var linked := TableCell(slots[n := copy.p]);
    ConfigLayoutIs(c);
    LinkEntry(before, after, c.p, ConfigCell(c.table, n), ConfigCell(c.table, n + 1), c.table, TableCell(slots), linked,
              DevicesLayout(c.devices), DeviceLayout(copy), base);
    assert slots[n := copy.p] == DevicePtrs(c'.devices) + c'.spare;
    ConfigLayoutIs(c');
    DevicesLayoutAppend(c.devices, copy);
  }

  lemma ConfigLayoutIs(c: Config)
    requires c.table != NULL
    ensures ConfigLayout(c) == [Node(c.p, ConfigCell(c.table, |c.devices|))]
            + ([Node(c.table, TableCell(DevicePtrs(c.devices) + c.spare))] + DevicesLayout(c.devices))
  {
  }

  lemma DevicesLayoutAppend(devices: seq<Device>, d: Device)
    ensures DevicesLayout(devices + [d]) == DevicesLayout(devices) + DeviceLayout(d)
  {
    hide DeviceLayout;
    assert (devices + [d])[..|devices|] == devices;
  }

  /** The same with the layouts as they come: a struct at `p`, its table at `t`, the items so far and the new item. */
  lemma LinkEntry(before: map<Ptr, Cell>, after: map<Ptr, Cell>, p: Ptr, struct: Cell, struct': Cell, t: Ptr,
                  table: Cell, table': Cell,
                  items: Layout<Cell>, item: Layout<Cell>, base: map<Ptr, Cell>)
    requires Owns(before, [Node(p, struct)] + ([Node(t, table)] + items), base)
    requires Owns(after, item, before[t := table'])
    ensures p in after && after[p] == struct
    ensures Owns(after[p := struct'], [Node(p, struct')] + ([Node(t, table')] + (items + item)), base)
    ensures Extends(after[p := struct'], base)
  {
    var l := [Node(p, struct)] + ([Node(t, table)] + items);
    OwnsWrite(before, l, base, 1, table');
    assert l[1 := Node(t, table')] == [Node(p, struct)] + ([Node(t, table')] + items);
    OwnsConcatTail(after, Node(p, struct), [Node(t, table')] + items, item, before[t := table'], base);
    assert [Node(t, table')] + items + item == [Node(t, table')] + (items + item);
    OwnsWriteHead(after, p, struct, [Node(t, table')] + (items + item), base, struct');
    OwnsWriteHead(after[p := struct'], p, struct', [Node(t, table')] + (items + item), base, struct');
  }

  lemma ConfigHas(source: map<Ptr, Cell>, c: Config)
    requires Has(source, ConfigLayout(c))
    ensures c.p in source && source[c.p] == ConfigCell(c.table, |c.devices|)
    ensures Has(source, TableLayout(c.table, DevicePtrs(c.devices) + c.spare))
    ensures Has(source, DevicesLayout(c.devices))
  {
    HasConcat(source, [Node(c.p, ConfigCell(c.table, |c.devices|))], ConfigParts(c));
    HasAt(source, [Node(c.p, ConfigCell(c.table, |c.devices|))], 0);
    HasConcat(source, TableLayout(c.table, DevicePtrs(c.devices) + c.spare), DevicesLayout(c.devices));
  }

  lemma {:induction false} DevicesHas(source: map<Ptr, Cell>, devices: seq<Device>, k: nat)
    requires k < |devices| && Has(source, DevicesLayout(devices))
    ensures Has(source, DeviceLayout(devices[k]))
    decreases |devices|
  {
    hide DeviceLayout;
    var n := |devices| - 1;
    HasConcat(source, DevicesLayout(devices[..n]), DeviceLayout(devices[n]));
    if k == n {
    } else {
      DevicesHas(source, devices[..n], k);
    }
  }

  /** copy_me_cfg_entry: the table must have a spare slot, which the caller takes care of. */
  method CopyEntry(heap: Heap<Cell>, src: Ptr, cfg: Ptr, ghost d: Device, ghost c: Config, ghost base: map<Ptr, Cell>)
    returns (err: int, ghost c': Config)
    requires src == d.p && DeviceOk(d) && Has(base, DeviceLayout(d))
    requires cfg == c.p && ConfigOk(c) && c.table != NULL && c.spare != []
    requires Owns(heap.cells, ConfigLayout(c), base)
    modifies heap
    ensures ConfigOk(c') && c'.p == c.p && c'.table == c.table && |c'.spare| == |c.spare| - 1
    ensures Extends(heap.cells, base)
    ensures Owns(heap.cells, ConfigLayout(c'), base)
    ensures |c'.devices| == |c.devices| + 1 && ValueOf(c'.devices) == ValueOf(c.devices) + [ValueOfDevice(d)]
    ensures err == if Supported(d.info.access) then ERRNO_SUCCESS else ERRNO_INTERNAL
  {
    hide DeviceLayout, DevicesLayout, ConfigLayout, Owns, Has, DeviceOk;
    ghost var before: map<Ptr, Cell> := heap.cells;
    OwnsHas(before, ConfigLayout(c), base);
    ConfigHas(before, c);
    TableHas(before, c.table, DevicePtrs(c.devices) + c.spare);
    var zero := DeviceInfo(NULL, AccessInvalid, 0, 0, 0, 0, 0, PluggedInvalid);
    var p := heap.Alloc(DeviceCell(zero, Words(0, 0, 0), NULL, NULL, NULL, 0));
    SetSlot(heap, heap.cells[cfg].deviceList, heap.cells[cfg].deviceCount, p);

    ghost var mid: map<Ptr, Cell> := heap.cells - {p};
    ghost var copy;
    assert mid == before[c.table := TableCell((DevicePtrs(c.devices) + c.spare)[|c.devices| := p])];
    NewStruct(heap.cells, p, mid);
    SourceStays(before, c, base, mid, d);
    err, copy := CopyDevice(heap, src, p, d, mid);
    EntryLinked(before, heap.cells, c, copy, base);
    heap.Write(cfg, heap.cells[cfg].(deviceCount := heap.cells[cfg].deviceCount + 1));
    c' := WithDevice(c, copy);
    ValueAppend(c.devices, copy);
  }

  lemma ValueAppend(devices: seq<Device>, d: Device)
    ensures ValueOf(devices + [d]) == ValueOf(devices) + [ValueOfDevice(d)]
  {
  }

  lemma NewStruct(whole: map<Ptr, Cell>, p: Ptr, mid: map<Ptr, Cell>)
    requires p != NULL && p in whole && mid == whole - {p}
    ensures Owns(whole, [Node(p, whole[p])] + [], mid)
  {
  }

  /** Writing to the table of the destination leaves the source device alone. */
  lemma SourceStays(before: map<Ptr, Cell>, c: Config, base: map<Ptr, Cell>, mid: map<Ptr, Cell>, d: Device)
    requires c.table != NULL && Owns(before, ConfigLayout(c), base)
    requires forall p :: p in before && p != c.table ==> p in mid && mid[p] == before[p]
    requires Has(base, DeviceLayout(d))
    ensures Has(mid, DeviceLayout(d))
  {
    hide DeviceLayout, DevicesLayout;
    OwnsAt(before, ConfigLayout(c), base, 1);
    HasExtends(mid, base, DeviceLayout(d));
  }

  /** Copying stops after the first entry with an access type the switch does not know. */
  function Kept(devices: seq<DeviceValue>): seq<DeviceValue> {
    if devices == [] then []
    else if Supported(devices[0].info.access) then [devices[0]] + Kept(devices[1..])
    else [devices[0]]
  }

  /** append_me_cfg_device_list. */
  method AppendDeviceList(heap: Heap<Cell>, src: Ptr, cfg: Ptr, ghost s: Config, ghost c: Config,
                          ghost base: map<Ptr, Cell>)
    returns (err: int, ghost c': Config)
    requires src == s.p && ConfigOk(s) && Has(base, ConfigLayout(s))
    requires cfg == c.p && ConfigOk(c) && c.table != NULL && |c.spare| >= |s.devices|
    requires Owns(heap.cells, ConfigLayout(c), base)
    modifies heap
    ensures ConfigOk(c') && c'.p == c.p && c'.table != NULL && |c'.devices| + |c'.spare| == |c.devices| + |c.spare|
    ensures Owns(heap.cells, ConfigLayout(c'), base)
    ensures ValueOf(c'.devices) == ValueOf(c.devices) + Kept(ValueOf(s.devices))
    ensures err == ERRNO_SUCCESS <==> AllSupported(ValueOf(s.devices))
  {
    hide DeviceLayout, DevicesLayout, ConfigLayout, Owns, Has;
    err, c' := ERRNO_SUCCESS, c;
    ghost var goal := ValueOf(c.devices) + Kept(ValueOf(s.devices));
    AppendStart(heap.cells, s, c, base);
    var i := 0;
    while i < heap.cells[src].deviceCount
      invariant 0 <= i <= |s.devices|
      invariant ConfigOk(c') && c'.p == c.p && c'.table != NULL
      invariant |c'.spare| == |c.spare| - i && |c'.devices| == |c.devices| + i
      invariant Owns(heap.cells, ConfigLayout(c'), base)
      invariant Extends(heap.cells, base)
      invariant ValueOf(c'.devices) + Kept(ValueOf(s.devices)[i..]) == goal
      invariant err == ERRNO_SUCCESS && AllSupported(ValueOf(s.devices)[..i])
      decreases |s.devices| - i
    {
      ghost var before := ValueOf(c'.devices);
      TableHas(base, s.table, DevicePtrs(s.devices) + s.spare);
      DevicesHas(base, s.devices, i);
      err, c' := CopyEntry(heap, heap.cells[heap.cells[src].deviceList].slots[i], cfg, s.devices[i], c', base);
      assert ValueOf(s.devices)[i] == ValueOfDevice(s.devices[i]);
      KeptStep(before, ValueOf(s.devices), i);
      if err != ERRNO_SUCCESS {
        return;
      }
      i := i + 1;
    }
    assert ValueOf(s.devices)[i..] == [] && ValueOf(s.devices)[..i] == ValueOf(s.devices);
  }

  lemma AppendStart(whole: map<Ptr, Cell>, s: Config, c: Config, base: map<Ptr, Cell>)
    requires Owns(whole, ConfigLayout(c), base) && Has(base, ConfigLayout(s))
    ensures Extends(whole, base)
    ensures s.p in base && base[s.p] == ConfigCell(s.table, |s.devices|)
    ensures Has(base, TableLayout(s.table, DevicePtrs(s.devices) + s.spare)) && Has(base, DevicesLayout(s.devices))
    ensures ValueOf(s.devices)[0..] == ValueOf(s.devices)
  {
    OwnsHas(whole, ConfigLayout(c), base);
    ConfigHas(base, s);
  }

  predicate AllSupported(devices: seq<DeviceValue>) {
    forall k :: 0 <= k < |devices| ==> Supported(devices[k].info.access)
  }

  /** One more device has been copied onto `done`. */
  lemma KeptStep(done: seq<DeviceValue>, values: seq<DeviceValue>, i: nat)
    requires i < |values|
    ensures Supported(values[i].info.access) ==> done + [values[i]] + Kept(values[i + 1..]) == done + Kept(values[i..])
    ensures !Supported(values[i].info.access) ==>
            done + [values[i]] == done + Kept(values[i..]) && !AllSupported(values)
    ensures AllSupported(values[..i]) && Supported(values[i].info.access) ==> AllSupported(values[..i + 1])
  {
    assert values[i..][1..] == values[i + 1..];
    assert done + [values[i]] + Kept(values[i + 1..]) == done + ([values[i]] + Kept(values[i + 1..]));
  }

  /** calloc of a configuration and of a device table with `size` slots. */
  method AllocConfig(heap: Heap<Cell>, size: nat) returns (cfg: Ptr, ghost c: Config)
    modifies heap
    ensures cfg == c.p && ConfigOk(c) && c.table != NULL && c.devices == [] && |c.spare| == size
    ensures Owns(heap.cells, ConfigLayout(c), old(heap.cells))
  {
    ghost var base: map<Ptr, Cell> := heap.cells;
    cfg := heap.Alloc(ConfigCell(NULL, 0));
    var table := heap.Alloc(TableCell(Nulls(size)));
    heap.Write(cfg, ConfigCell(table, 0));
    c := Config(cfg, table, [], Nulls(size));
    OwnsTwo(base, cfg, ConfigCell(table, 0), table, TableCell(Nulls(size)));
    assert heap.cells == base[cfg := ConfigCell(table, 0)][table := TableCell(Nulls(size))];
    assert DevicePtrs([]) + Nulls(size) == Nulls(size);
    assert ConfigLayout(c) == [Node(cfg, ConfigCell(table, 0)), Node(table, TableCell(Nulls(size)))];
  }

  /** ConfigJoin. The results of the two copying passes are dropped. */
  method ConfigJoin(heap: Heap<Cell>, first: Ptr, second: Ptr, ghost f: Config, ghost s: Config)
    returns (err: int, dest: Ptr, ghost joined: Config)
    requires first == f.p && ConfigOk(f) && Has(heap.cells, ConfigLayout(f))
    requires second == s.p && ConfigOk(s) && Has(heap.cells, ConfigLayout(s))
    modifies heap
    ensures err == ERRNO_SUCCESS && dest == joined.p && ConfigOk(joined)
    ensures Owns(heap.cells, ConfigLayout(joined), old(heap.cells))
    ensures ValueOf(joined.devices) == Kept(ValueOf(f.devices)) + Kept(ValueOf(s.devices))
  {
    hide DeviceLayout, DevicesLayout, ConfigLayout, Owns, Has, ValueOfDevice;
    ghost var base: map<Ptr, Cell> := heap.cells;
    ConfigHas(base, f);
    ConfigHas(base, s);
    var ignored;
    dest, joined := AllocConfig(heap, heap.cells[first].deviceCount + heap.cells[second].deviceCount);
    ignored, joined := AppendDeviceList(heap, first, dest, f, joined, base);
    KeptLength(f.devices, joined.devices);
    ignored, joined := AppendDeviceList(heap, second, dest, s, joined, base);
    err := ERRNO_SUCCESS;
  }

  lemma KeptLength(source: seq<Device>, kept: seq<Device>)
    requires ValueOf(kept) == ValueOf([]) + Kept(ValueOf(source))
    ensures |kept| <= |source|
  {
    KeptIsPrefix(ValueOf(source));
    assert |ValueOf(kept)| == |kept|;
  }

  lemma {:induction false} KeptIsPrefix(devices: seq<DeviceValue>)
    ensures Kept(devices) <= devices
  {
    if devices == [] {
    } else {
      KeptIsPrefix(devices[1..]);
    }
  }

  /** ConfigDuplicate. */
  method ConfigDuplicate(heap: Heap<Cell>, source: Ptr, ghost s: Config)
    returns (err: int, dest: Ptr, ghost copy: Config)
    requires source == s.p && ConfigOk(s) && Has(heap.cells, ConfigLayout(s))
    modifies heap
    ensures err == ERRNO_SUCCESS && dest == copy.p && ConfigOk(copy)
    ensures Owns(heap.cells, ConfigLayout(copy), old(heap.cells))
    ensures ValueOf(copy.devices) == Kept(ValueOf(s.devices))
  {
    hide DeviceLayout, DevicesLayout, ConfigLayout, Owns, Has, ValueOfDevice;
    ghost var base: map<Ptr, Cell> := heap.cells;
    ConfigHas(base, s);
    var ignored;
    dest, copy := AllocConfig(heap, heap.cells[source].deviceCount);
    ignored, copy := AppendDeviceList(heap, source, dest, s, copy, base);
    err := ERRNO_SUCCESS;
  }

  /** ConfigAppend: the table is replaced by one with one more slot, and a copy of the entry goes into the slot. */
  method ConfigAppend(heap: Heap<Cell>, source: Ptr, dest: Ptr, ghost d: Device, ghost c: Config,
                      ghost base: map<Ptr, Cell>)
    returns (err: int, ghost c': Config)
    requires source == d.p && DeviceOk(d) && Has(base, DeviceLayout(d))
    requires dest == c.p && ConfigOk(c) && Owns(heap.cells, ConfigLayout(c), base)
    modifies heap
    ensures ConfigOk(c') && c'.p == c.p && Owns(heap.cells, ConfigLayout(c'), base)
    ensures |c'.devices| == |c.devices| + 1 && ValueOf(c'.devices) == ValueOf(c.devices) + [ValueOfDevice(d)]
    ensures err == if Supported(d.info.access) then ERRNO_SUCCESS else ERRNO_INTERNAL
  {
    hide DeviceLayout, DevicesLayout, ConfigLayout, Owns, Has, DeviceOk;
    ghost var before: map<Ptr, Cell> := heap.cells;
    OwnsHas(before, ConfigLayout(c), base);
    ConfigHas(before, c);
    if c.table != NULL {
      TableHas(before, c.table, DevicePtrs(c.devices) + c.spare);
    }
    var table, count := heap.cells[dest].deviceList, heap.cells[dest].deviceCount;
    var newTable := heap.Alloc(TableCell(Nulls(count + 1)));
    TableReplaced(before, c, newTable, base);
    if table != NULL {
      heap.Write(newTable, TableCell(heap.cells[table].slots[..count] + [NULL]));  // memcpy
      assert (DevicePtrs(c.devices) + c.spare)[..count] == DevicePtrs(c.devices);
      heap.Free(table);
    } else {
      assert Nulls(1) == [NULL] == DevicePtrs(c.devices) + [NULL];
    }
    heap.Write(dest, heap.cells[dest].(deviceList := newTable));
    assert heap.cells == Replaced(before, c, newTable);
    ghost var larger := c.(table := newTable, spare := [NULL]);
    assert ConfigOk(larger);
    err, c' := CopyEntry(heap, source, dest, d, larger, base);
  }

  /** Memory after the table was replaced. */
  ghost function Replaced(whole: map<Ptr, Cell>, c: Config, newTable: Ptr): map<Ptr, Cell> {
    var larger := whole[newTable := TableCell(DevicePtrs(c.devices) + [NULL])];
    (larger - if c.table == NULL then {} else {c.table})[c.p := ConfigCell(newTable, |c.devices|)]
  }

  lemma TableReplaced(whole: map<Ptr, Cell>, c: Config, newTable: Ptr, base: map<Ptr, Cell>)
    requires ConfigOk(c) && Owns(whole, ConfigLayout(c), base) && newTable != NULL && newTable !in whole
    ensures Owns(Replaced(whole, c, newTable), ConfigLayout(c.(table := newTable, spare := [NULL])), base)
    ensures c.p in whole && c.p != newTable && c.p != c.table
  {
    hide DevicesLayout, Owns;
    var head, cell := Node(c.p, ConfigCell(c.table, |c.devices|)), TableCell(DevicePtrs(c.devices) + [NULL]);
    var parts, others := ConfigParts(c), DevicesLayout(c.devices);
    OwnsAt(whole, ConfigLayout(c), base, 0);
    OwnsAppendTail(whole, head, parts, base, newTable, cell);
    var w := whole[newTable := cell];
    if c.table != NULL {
      var was := TableCell(DevicePtrs(c.devices) + c.spare);
      assert parts == [Node(c.table, was)] + others;
      OwnsDistinct(whole, ConfigLayout(c), base, 0, 1);
      assert [head] + (parts + [Node(newTable, cell)]) == [head]
          + ([Node(c.table, was)] + (others + [Node(newTable, cell)]));
      OwnsFreeAt(w, [head], c.table, was, others + [Node(newTable, cell)], base);
      w := w - {c.table};
    } else {
      assert parts == others;
    }
    OwnsWriteHead(w, c.p, head.cell, others + [Node(newTable, cell)], base, ConfigCell(newTable, |c.devices|));
    var h := Node(c.p, ConfigCell(newTable, |c.devices|));
    assert [h] + (others + [Node(newTable, cell)]) == [h] + others + [Node(newTable, cell)];
    OwnsRotate(w[c.p := h.cell], [h], others, [Node(newTable, cell)], base);
    assert Replaced(whole, c, newTable) == w[c.p := h.cell];
    assert [h] + [Node(newTable, cell)] + others == ConfigLayout(c.(table := newTable, spare := [NULL]));
  }
}
