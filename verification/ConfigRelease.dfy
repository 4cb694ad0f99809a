/** Freeing the configuration store: ConfigClean and the clean_me_cfg_* functions. */
module ConfigRelease {
  import opened Defines
  import opened Memory
  import opened Ownership
  import opened DeviceTree
  import ConfigCopy

  /** `if (p) { free(p); field = NULL; }` for a string `t` that the struct at `dev` points at. */
  method FreeField(heap: Heap<Cell>, p: Ptr, dev: Ptr, cleared: Cell, ghost t: Text, ghost c: Cell,
                   ghost post: Layout<Cell>, ghost rest: map<Ptr, Cell>)
    requires p == TextPtr(t) && TextOk(t) && (p == NULL ==> cleared == c)
    requires Owns(heap.cells, [Node(dev, c)] + (TextLayout(t) + post), rest)
    modifies heap
    ensures Owns(heap.cells, [Node(dev, cleared)] + post, rest)
    ensures dev in heap.cells && heap.cells[dev] == cleared
  {
    hide Owns;
    if p != NULL {
      OwnsFreeAt(heap.cells, [Node(dev, c)], p, TextCell(t.chars), post, rest);
      heap.Free(p);
      OwnsWriteHead(heap.cells, dev, c, post, rest, cleared);
      heap.Write(dev, cleared);
    } else {
      assert TextLayout(t) + post == post;
    }
    OwnsWriteHead(heap.cells, dev, cleared, post, rest, cleared);
  }

  lemma RangesLayoutCons(r: RangeNode, ranges: seq<RangeNode>)
    ensures RangesLayout([r] + ranges) == [Node(r.p, RangeCell(r.info))] + RangesLayout(ranges)
  {
  }

  lemma {:induction false} SubdevicesLayoutCons(s: Subdevice, subdevices: seq<Subdevice>)
    ensures SubdevicesLayout([s] + subdevices) == SubdeviceLayout(s) + SubdevicesLayout(subdevices)
    decreases |subdevices|
  {
    hide SubdeviceLayout;
    var n := |subdevices| - 1;
    if subdevices == [] {
      assert ([s] + subdevices)[..0] == [] && [s] + subdevices == [s];
    } else {
      SubdevicesLayoutCons(s, subdevices[..n]);
      assert ([s] + subdevices)[..n + 1] == [s] + subdevices[..n];
    }
  }

  lemma {:induction false} DevicesLayoutCons(d: Device, devices: seq<Device>)
    ensures DevicesLayout([d] + devices) == DeviceLayout(d) + DevicesLayout(devices)
    decreases |devices|
  {
    hide DeviceLayout;
    var n := |devices| - 1;
    if devices == [] {
      assert ([d] + devices)[..0] == [] && [d] + devices == [d];
    } else {
      DevicesLayoutCons(d, devices[..n]);
      assert ([d] + devices)[..n + 1] == [d] + devices[..n];
    }
  }

  /** One round of the loop over the ranges: the range is freed and its slot cleared. */
  method FreeNextRange(heap: Heap<Cell>, table: Ptr, i: nat, ghost head: Node<Cell>, ghost slots: seq<Ptr>,
                       ghost r: RangeNode,
                       ghost post: Layout<Cell>, ghost rest: map<Ptr, Cell>)
    requires i < |slots| && slots[i] == r.p
    requires Owns(heap.cells, [head] + ([Node(table, TableCell(slots))] + ([Node(r.p, RangeCell(r.info))] + post)),
                  rest)
    modifies heap
    ensures Owns(heap.cells, [head] + ([Node(table, TableCell(slots[i := NULL]))] + post), rest)
    ensures head.p in heap.cells && heap.cells[head.p] == head.cell
  {
    hide Owns;
    OwnsWriteSecond(heap.cells, head, table, TableCell(slots), [Node(r.p, RangeCell(r.info))] + post, rest,
                    TableCell(slots[i := NULL]));
    OwnsFreeThird(heap.cells, head, Node(table, TableCell(slots)), r.p, RangeCell(r.info), post, rest);
    if heap.cells[table].slots[i] != NULL {
      heap.Free(heap.cells[table].slots[i]);
      OwnsWriteSecond(heap.cells, head, table, TableCell(slots), post, rest, TableCell(slots[i := NULL]));
      ConfigCopy.SetSlot(heap, table, i, NULL);
    }
    OwnsWriteHead(heap.cells, head.p, head.cell, [Node(table, TableCell(slots[i := NULL]))] + post, rest, head.cell);
  }

  /** clean_me_cfg_subdevice_list, which despite its name cleans one subdevice. */
  method CleanSubdevice(heap: Heap<Cell>, sub: Ptr, ghost s: Subdevice, ghost rest: map<Ptr, Cell>)
    requires sub == s.p && SubdeviceOk(s)
    requires Owns(heap.cells, SubdeviceLayout(s), rest)
    modifies heap
    ensures Owns(heap.cells, [Node(sub, SubdeviceCell(s.info, NULL, |s.ranges|))] + [], rest)
  {
    hide Owns, RangesLayout, SubdeviceLayout;
    ghost var head := Node(sub, SubdeviceStruct(s));
    SubdeviceStart(heap.cells, s, rest);
    if heap.cells[sub].rangeList != NULL {
      var table := heap.cells[sub].rangeList;
      ghost var slots: seq<Ptr> := RangePtrs(s.ranges) + s.spare;
      assert s.ranges[0..] == s.ranges;
      var i := 0;
      while i < heap.cells[sub].rangeCount
        invariant 0 <= i <= |s.ranges| <= |slots|
        invariant sub in heap.cells && heap.cells[sub] == SubdeviceStruct(s)
        invariant forall k :: i <= k < |s.ranges| ==> slots[k] == s.ranges[k].p
        invariant Owns(heap.cells, [head] + ([Node(table, TableCell(slots))] + RangesLayout(s.ranges[i..])), rest)
        decreases |s.ranges| - i
      {
        assert s.ranges[i..] == [s.ranges[i]] + s.ranges[i + 1..];
        RangesLayoutCons(s.ranges[i], s.ranges[i + 1..]);
        FreeNextRange(heap, table, i, head, slots, s.ranges[i], RangesLayout(s.ranges[i + 1..]), rest);
        slots := slots[i := NULL];
        i := i + 1;
      }
      NoRanges(heap.cells, head, table, TableCell(slots), s.ranges[i..], rest);
      heap.Free(table);
      OwnsWriteHead(heap.cells, sub, head.cell, [], rest, head.cell.(rangeList := NULL));
      heap.Write(sub, heap.cells[sub].(rangeList := NULL));
    }
  }

  lemma SubdeviceStart(whole: map<Ptr, Cell>, s: Subdevice, rest: map<Ptr, Cell>)
    requires SubdeviceOk(s) && Owns(whole, SubdeviceLayout(s), rest)
    ensures s.p in whole && whole[s.p] == SubdeviceStruct(s)
    ensures s.table != NULL ==>
            Owns(whole, [Node(s.p, SubdeviceStruct(s))]
                 + ([Node(s.table, TableCell(RangePtrs(s.ranges) + s.spare))] + RangesLayout(s.ranges)), rest)
    ensures s.table == NULL ==> Owns(whole, [Node(s.p, SubdeviceStruct(s))] + [], rest)
  {
    OwnsAt(whole, SubdeviceLayout(s), rest, 0);
    if s.table == NULL {
      assert SubdeviceLayout(s) == [Node(s.p, SubdeviceStruct(s))] + [];
    } else {
      assert SubdeviceLayout(s) == [Node(s.p, SubdeviceStruct(s))]
          + ([Node(s.table, TableCell(RangePtrs(s.ranges) + s.spare))] + RangesLayout(s.ranges));
    }
  }

  lemma NoRanges(whole: map<Ptr, Cell>, head: Node<Cell>, table: Ptr, c: Cell, ranges: seq<RangeNode>,
                 rest: map<Ptr, Cell>)
    requires ranges == [] && Owns(whole, [head] + ([Node(table, c)] + RangesLayout(ranges)), rest)
    ensures table in whole && Owns(whole - {table}, [head] + [], rest)
  {
    assert RangesLayout(ranges) == [];
    OwnsFreeAt(whole, [head], table, c, [], rest);
  }

  /** One round of the loop over the subdevices: the subdevice is cleaned, freed and its slot cleared. */
  method FreeNextSubdevice(heap: Heap<Cell>, table: Ptr, i: nat, ghost head: Node<Cell>, ghost slots: seq<Ptr>,
                           ghost s: Subdevice,
                           ghost post: Layout<Cell>, ghost rest: map<Ptr, Cell>)
    requires i < |slots| && slots[i] == s.p && SubdeviceOk(s)
    requires Owns(heap.cells, [head] + ([Node(table, TableCell(slots))] + (SubdeviceLayout(s) + post)), rest)
    modifies heap
    ensures Owns(heap.cells, [head] + ([Node(table, TableCell(slots[i := NULL]))] + post), rest)
    ensures head.p in heap.cells && heap.cells[head.p] == head.cell
  {
    hide Owns, SubdeviceLayout, Minus;
    ghost var mid: map<Ptr, Cell> := Minus(heap.cells, SubdeviceLayout(s));
    OwnsWriteSecond(heap.cells, head, table, TableCell(slots), SubdeviceLayout(s) + post, rest, TableCell(slots));
    ExtractItem(heap.cells, head, Node(table, TableCell(slots)), SubdeviceLayout(s), post, rest);
    var p := heap.cells[table].slots[i];
    CleanSubdevice(heap, p, s, mid);
    if p != NULL {
      OwnsOnly(heap.cells, p, SubdeviceCell(s.info, NULL, |s.ranges|), mid);
      heap.Free(p);
      OwnsWriteSecond(heap.cells, head, table, TableCell(slots), post, rest, TableCell(slots[i := NULL]));
      ConfigCopy.SetSlot(heap, table, i, NULL);
    }
    OwnsWriteHead(heap.cells, head.p, head.cell, [Node(table, TableCell(slots[i := NULL]))] + post, rest, head.cell);
  }

  lemma ExtractItem(whole: map<Ptr, Cell>, head: Node<Cell>, table: Node<Cell>, item: Layout<Cell>,
                    post: Layout<Cell>, rest: map<Ptr, Cell>)
    requires Owns(whole, [head] + ([table] + (item + post)), rest)
    ensures Owns(whole, item, Minus(whole, item))
    ensures Owns(Minus(whole, item), [head] + ([table] + post), rest)
  {
    hide Owns, Minus;
    assert [head] + ([table] + (item + post)) == [head, table] + (item + post);
    OwnsExtract(whole, [head, table], item, post, rest);
    assert [head, table] + post == [head] + ([table] + post);
  }

  /** Freeing the last cell of a data structure leaves exactly the rest. */
  lemma OwnsOnly(whole: map<Ptr, Cell>, p: Ptr, c: Cell, rest: map<Ptr, Cell>)
    requires Owns(whole, [Node(p, c)] + [], rest)
    ensures p in whole && whole[p] == c && whole - {p} == rest
  {
  }

  /** What clean_me_cfg_device_list leaves of the struct. */
  ghost function Cleared(d: Device): Cell {
    DeviceCell(d.info, if d.bus.Remote? then Remote(NULL) else d.bus, NULL, NULL, NULL, |d.subdevices|)
  }

  /** The subdevice part of clean_me_cfg_device_list. */
  method CleanSubdeviceTable(heap: Heap<Cell>, dev: Ptr, ghost d: Device, ghost c: Cell, ghost post: Layout<Cell>,
                             ghost rest: map<Ptr, Cell>)
    requires DeviceOk(d) && c.DeviceCell? && c.subdeviceList == d.table && c.subdeviceCount == |d.subdevices|
    requires Owns(heap.cells,
                  [Node(dev, c)] + (TableLayout(d.table, SubdevicePtrs(d.subdevices) + d.spare)
                                    + (SubdevicesLayout(d.subdevices) + post)), rest)
    modifies heap
    ensures Owns(heap.cells, [Node(dev, c.(subdeviceList := NULL))] + post, rest)
    ensures dev in heap.cells && heap.cells[dev] == c.(subdeviceList := NULL)
  {
    hide Owns, SubdevicesLayout, SubdeviceLayout, SubdeviceOk;
    ghost var head, slots: seq<Ptr> := Node(dev, c), SubdevicePtrs(d.subdevices) + d.spare;
    OwnsWriteHead(heap.cells, dev, c, TableLayout(d.table, slots) + (SubdevicesLayout(d.subdevices) + post), rest, c);
    if heap.cells[dev].subdeviceList != NULL {
      var table := heap.cells[dev].subdeviceList;
      assert d.subdevices[0..] == d.subdevices;
      var i := 0;
      while i < heap.cells[dev].subdeviceCount
        invariant 0 <= i <= |d.subdevices| <= |slots|
        invariant dev in heap.cells && heap.cells[dev] == c
        invariant forall k :: i <= k < |d.subdevices| ==> slots[k] == d.subdevices[k].p
        invariant Owns(heap.cells,
                       [head] + ([Node(table, TableCell(slots))] + (SubdevicesLayout(d.subdevices[i..]) + post)), rest)
        decreases |d.subdevices| - i
      {
        NextSubdevice(d.subdevices, i, post);
        FreeNextSubdevice(heap, table, i, head, slots, d.subdevices[i],
                          SubdevicesLayout(d.subdevices[i + 1..]) + post, rest);
        slots := slots[i := NULL];
        i := i + 1;
      }
      NoSubdevices(d.subdevices[i..], post);
      OwnsFreeAt(heap.cells, [head], table, TableCell(slots), post, rest);
      heap.Free(table);
      OwnsWriteHead(heap.cells, dev, c, post, rest, c.(subdeviceList := NULL));
      heap.Write(dev, heap.cells[dev].(subdeviceList := NULL));
    } else {
      NoSubdevices(d.subdevices, post);
      assert TableLayout(d.table, slots) + post == post;
    }
  }

  lemma NextSubdevice(subdevices: seq<Subdevice>, i: nat, post: Layout<Cell>)
    requires i < |subdevices|
    ensures SubdevicesLayout(subdevices[i..]) + post == SubdeviceLayout(subdevices[i])
            + (SubdevicesLayout(subdevices[i + 1..]) + post)
  {
    hide SubdeviceLayout, SubdevicesLayout;
    assert subdevices[i..] == [subdevices[i]] + subdevices[i + 1..];
    SubdevicesLayoutCons(subdevices[i], subdevices[i + 1..]);
  }

  lemma NoSubdevices(subdevices: seq<Subdevice>, post: Layout<Cell>)
    requires subdevices == []
    ensures SubdevicesLayout(subdevices) + post == post
  {
  }

  /** clean_me_cfg_device_list, which despite its name cleans one device. */
  method CleanDevice(heap: Heap<Cell>, dev: Ptr, ghost d: Device, ghost rest: map<Ptr, Cell>)
    requires dev == d.p && DeviceOk(d)
    requires Owns(heap.cells, DeviceLayout(d), rest)
    modifies heap
    ensures Owns(heap.cells, [Node(dev, Cleared(d))] + [], rest)
  {
    hide Owns, DeviceLayout, TableLayout, SubdevicesLayout, TextLayout;
    ghost var host := TextLayout(d.host) + [];
    ghost var table, subdevices := TableLayout(d.table, SubdevicePtrs(d.subdevices) + d.spare),
        SubdevicesLayout(d.subdevices);
    DeviceStart(heap.cells, d, rest);
    ghost var c := DeviceStruct(d);
    FreeField(heap, heap.cells[dev].name, dev, heap.cells[dev].(name := NULL), d.name, c,
              TextLayout(d.description) + (table + (subdevices + host)), rest);
    c := c.(name := NULL);
    FreeField(heap, heap.cells[dev].description, dev, heap.cells[dev].(description := NULL), d.description, c,
              table + (subdevices + host), rest);
    c := c.(description := NULL);
    CleanSubdeviceTable(heap, dev, d, c, host, rest);
    c := c.(subdeviceList := NULL);
    if heap.cells[dev].info.access == AccessTcpip {
      FreeField(heap, heap.cells[dev].bus.host, dev, heap.cells[dev].(bus := Remote(NULL)), d.host, c, [], rest);
    } else {
      NoText(d);
    }
  }

  lemma NoText(d: Device)
    requires d.host.NoText?
    ensures TextLayout(d.host) + [] == []
  {
  }

  lemma DeviceStart(whole: map<Ptr, Cell>, d: Device, rest: map<Ptr, Cell>)
    requires Owns(whole, DeviceLayout(d), rest)
    ensures d.p in whole && whole[d.p] == DeviceStruct(d)
    ensures Owns(whole, [Node(d.p, DeviceStruct(d))] + (TextLayout(d.name) + (TextLayout(d.description)
                 + (TableLayout(d.table, SubdevicePtrs(d.subdevices) + d.spare)
                    + (SubdevicesLayout(d.subdevices) + (TextLayout(d.host) + []))))), rest)
  {
    hide Owns, TextLayout, TableLayout, SubdevicesLayout;
    OwnsAt(whole, DeviceLayout(d), rest, 0);
    assert DeviceParts(d) == TextLayout(d.name) + (TextLayout(d.description)
                 + (TableLayout(d.table, SubdevicePtrs(d.subdevices) + d.spare)
                    + (SubdevicesLayout(d.subdevices) + (TextLayout(d.host) + []))));
  }

  /** One round of the loop over the devices. */
  method FreeNextDevice(heap: Heap<Cell>, table: Ptr, i: nat, ghost head: Node<Cell>, ghost slots: seq<Ptr>,
                        ghost d: Device,
                        ghost post: Layout<Cell>, ghost rest: map<Ptr, Cell>)
    requires i < |slots| && slots[i] == d.p && DeviceOk(d)
    requires Owns(heap.cells, [head] + ([Node(table, TableCell(slots))] + (DeviceLayout(d) + post)), rest)
    modifies heap
    ensures Owns(heap.cells, [head] + ([Node(table, TableCell(slots[i := NULL]))] + post), rest)
    ensures head.p in heap.cells && heap.cells[head.p] == head.cell
  {
    hide Owns, DeviceLayout, Minus, Cleared;
    ghost var mid: map<Ptr, Cell> := Minus(heap.cells, DeviceLayout(d));
    OwnsWriteSecond(heap.cells, head, table, TableCell(slots), DeviceLayout(d) + post, rest, TableCell(slots));
    ExtractItem(heap.cells, head, Node(table, TableCell(slots)), DeviceLayout(d), post, rest);
    var p := heap.cells[table].slots[i];
    CleanDevice(heap, p, d, mid);
    if p != NULL {
      OwnsOnly(heap.cells, p, Cleared(d), mid);
      heap.Free(p);
      OwnsWriteSecond(heap.cells, head, table, TableCell(slots), post, rest, TableCell(slots[i := NULL]));
      ConfigCopy.SetSlot(heap, table, i, NULL);
    }
    OwnsWriteHead(heap.cells, head.p, head.cell, [Node(table, TableCell(slots[i := NULL]))] + post, rest, head.cell);
  }

  /** ConfigClean frees every struct, table and string of the configuration, each exactly once, and nothing else:
      afterwards memory is the unrelated memory and the empty configuration struct. */
  method ConfigClean(heap: Heap<Cell>, cfg: Ptr, ghost c: Config, ghost rest: map<Ptr, Cell>)
    requires cfg == c.p && ConfigOk(c)
    requires Owns(heap.cells, ConfigLayout(c), rest)
    modifies heap
    ensures cfg !in rest && heap.cells == rest[cfg := ConfigCell(NULL, 0)]
    ensures Owns(heap.cells, ConfigLayout(Config(cfg, NULL, [], [])), rest)
  {
    hide Owns, DevicesLayout, DeviceLayout, ConfigLayout, DeviceOk;
    ghost var struct, slots: seq<Ptr> := ConfigCell(c.table, |c.devices|), DevicePtrs(c.devices) + c.spare;
    ghost var head := Node(cfg, struct);
    ConfigStart(heap.cells, c, rest);
    if heap.cells[cfg].deviceList != NULL {
      var table := heap.cells[cfg].deviceList;
      assert c.devices[0..] == c.devices;
      var i := 0;
      while i < heap.cells[cfg].deviceCount
        invariant 0 <= i <= |c.devices| <= |slots|
        invariant cfg in heap.cells && heap.cells[cfg] == struct
        invariant forall k :: i <= k < |c.devices| ==> slots[k] == c.devices[k].p
        invariant Owns(heap.cells, [head] + ([Node(table, TableCell(slots))] + DevicesLayout(c.devices[i..])), rest)
        decreases |c.devices| - i
      {
        assert c.devices[i..] == [c.devices[i]] + c.devices[i + 1..];
        DevicesLayoutCons(c.devices[i], c.devices[i + 1..]);
        FreeNextDevice(heap, table, i, head, slots, c.devices[i], DevicesLayout(c.devices[i + 1..]), rest);
        slots := slots[i := NULL];
        i := i + 1;
      }
      NoDevices(heap.cells, head, table, TableCell(slots), c.devices[i..], rest);
      heap.Free(table);
      OwnsWriteHead(heap.cells, cfg, struct, [], rest, ConfigCell(NULL, 0));
      heap.Write(cfg, ConfigCell(NULL, 0));
    }
    EmptyConfig(heap.cells, cfg, rest);
  }

  lemma ConfigStart(whole: map<Ptr, Cell>, c: Config, rest: map<Ptr, Cell>)
    requires ConfigOk(c) && Owns(whole, ConfigLayout(c), rest)
    ensures c.p in whole && whole[c.p] == ConfigCell(c.table, |c.devices|)
    ensures c.table != NULL ==>
            Owns(whole, [Node(c.p, ConfigCell(c.table, |c.devices|))]
                 + ([Node(c.table, TableCell(DevicePtrs(c.devices) + c.spare))] + DevicesLayout(c.devices)), rest)
    ensures c.table == NULL ==> c.devices == [] && Owns(whole, [Node(c.p, ConfigCell(NULL, 0))] + [], rest)
  {
    OwnsAt(whole, ConfigLayout(c), rest, 0);
    if c.table == NULL {
      assert ConfigLayout(c) == [Node(c.p, ConfigCell(NULL, 0))] + [];
    } else {
      ConfigCopy.ConfigLayoutIs(c);
    }
  }

  lemma NoDevices(whole: map<Ptr, Cell>, head: Node<Cell>, table: Ptr, c: Cell, devices: seq<Device>,
                  rest: map<Ptr, Cell>)
    requires devices == [] && Owns(whole, [head] + ([Node(table, c)] + DevicesLayout(devices)), rest)
    ensures table in whole && Owns(whole - {table}, [head] + [], rest)
  {
    OwnsFreeAt(whole, [head], table, c, [], rest);
  }

  lemma EmptyConfig(whole: map<Ptr, Cell>, cfg: Ptr, rest: map<Ptr, Cell>)
    requires Owns(whole, [Node(cfg, ConfigCell(NULL, 0))] + [], rest)
    ensures cfg !in rest && whole == rest[cfg := ConfigCell(NULL, 0)]
    ensures Owns(whole, ConfigLayout(Config(cfg, NULL, [], [])), rest)
  {
    OwnsOnly(whole, cfg, ConfigCell(NULL, 0), rest);
    assert ConfigLayout(Config(cfg, NULL, [], [])) == [Node(cfg, ConfigCell(NULL, 0))] + [];
  }
}
