/** What the values and layouts of configurations say of their fields and of memory, down to every range and every
    character: library/meids_config.c. */
module ConfigMeaning {
  import opened Defines
  import opened Memory
  import opened Ownership
  import opened CString
  import opened DeviceTree
  import opened ConfigCopy
  import opened ConfigNumbering
  import opened OpenRun

  /** Devices of equal value agree in every field but the addresses. */
  lemma EqualDevices(a: Device, b: Device)
    requires ValueOfDevice(a) == ValueOfDevice(b)
    ensures a.info == b.info
    ensures (a.bus.Words? <==> b.bus.Words?) && (a.bus.Words? ==> a.bus == b.bus)
    ensures (a.name.Text? <==> b.name.Text?) && (a.name.Text? ==> a.name.text == b.name.text)
    ensures a.description.Text? <==> b.description.Text?
    ensures a.description.Text? ==> a.description.text == b.description.text
    ensures (a.host.Text? <==> b.host.Text?) && (a.host.Text? ==> a.host.text == b.host.text)
    ensures |a.subdevices| == |b.subdevices|
    ensures forall m :: 0 <= m < |a.subdevices| ==>
              && a.subdevices[m].info == b.subdevices[m].info
              && |a.subdevices[m].ranges| == |b.subdevices[m].ranges|
              && forall r :: 0 <= r < |a.subdevices[m].ranges| ==>
                   a.subdevices[m].ranges[r].info == b.subdevices[m].ranges[r].info
  {
    var va, vb := ValueOfDevice(a), ValueOfDevice(b);
    assert va.words == vb.words && va.name == vb.name && va.description == vb.description && va.host == vb.host;
    assert |va.subdevices| == |vb.subdevices|;
    forall m | 0 <= m < |a.subdevices|
      ensures a.subdevices[m].info == b.subdevices[m].info && |a.subdevices[m].ranges| == |b.subdevices[m].ranges|
      ensures forall r :: 0 <= r < |a.subdevices[m].ranges| ==>
                a.subdevices[m].ranges[r].info == b.subdevices[m].ranges[r].info {
      assert va.subdevices[m] == vb.subdevices[m];
      EqualSubdevices(a.subdevices[m], b.subdevices[m]);
    }
  }

  lemma EqualSubdevices(a: Subdevice, b: Subdevice)
    requires ValueOfSubdevice(a) == ValueOfSubdevice(b)
    ensures a.info == b.info && |a.ranges| == |b.ranges|
    ensures forall r :: 0 <= r < |a.ranges| ==> a.ranges[r].info == b.ranges[r].info
  {
    var va, vb := ValueOfSubdevice(a), ValueOfSubdevice(b);
    assert |va.ranges| == |vb.ranges|;
    forall r | 0 <= r < |a.ranges| ensures a.ranges[r].info == b.ranges[r].info {
      assert va.ranges[r] == vb.ranges[r];
    }
  }

  /** n entries of the list are copied: all of them, or all up to the first one of another access type. */
  lemma {:induction false} CopiedCount(devices: seq<Device>, n: nat)
    requires n <= |devices|
    requires forall k :: 0 <= k < n - 1 ==> devices[k].info.access in {AccessPci, AccessTcpip, AccessUsb}
    requires n < |devices| ==> n > 0 && devices[n - 1].info.access !in {AccessPci, AccessTcpip, AccessUsb}
    ensures Kept(ValueOf(devices)) == ValueOf(devices)[..n]
  {
    var values := ValueOf(devices);
    forall k | 0 <= k < |devices|
      ensures values[k].info.access == devices[k].info.access {
    }
    KeptCount(values, n);
  }

  lemma {:induction false} KeptCount(values: seq<DeviceValue>, n: nat)
    requires n <= |values|
    requires forall k :: 0 <= k < n - 1 ==> values[k].info.access in {AccessPci, AccessTcpip, AccessUsb}
    requires n < |values| ==> n > 0 && values[n - 1].info.access !in {AccessPci, AccessTcpip, AccessUsb}
    ensures Kept(values) == values[..n]
    decreases n
  {
    if values == [] || n == 1 {
      if |values| == 1 {
        assert Kept(values[1..]) == [];
      }
    } else {
      KeptCount(values[1..], n - 1);
      assert values[..n] == [values[0]] + values[1..][..n - 1];
    }
  }

  /** What ConfigJoin leaves, field by field: the first n entries of the first list and then the first m of the second
      one, n and m being the numbers of entries that are copied. */
  lemma JoinedFields(f: seq<Device>, s: seq<Device>, j: seq<Device>, n: nat, m: nat)
    requires ValueOf(j) == Kept(ValueOf(f)) + Kept(ValueOf(s)) && n <= |f| && m <= |s|
    requires forall k :: 0 <= k < n - 1 ==> f[k].info.access in {AccessPci, AccessTcpip, AccessUsb}
    requires n < |f| ==> n > 0 && f[n - 1].info.access !in {AccessPci, AccessTcpip, AccessUsb}
    requires forall k :: 0 <= k < m - 1 ==> s[k].info.access in {AccessPci, AccessTcpip, AccessUsb}
    requires m < |s| ==> m > 0 && s[m - 1].info.access !in {AccessPci, AccessTcpip, AccessUsb}
    ensures |j| == n + m
    ensures forall k :: 0 <= k < n + m ==>
              var d := if k < n then f[k] else s[k - n];
              && j[k].info == d.info
              && (j[k].bus.Words? <==> d.bus.Words?) && (d.bus.Words? ==> j[k].bus == d.bus)
              && (j[k].name.Text? <==> d.name.Text?) && (d.name.Text? ==> j[k].name.text == d.name.text)
              && (j[k].description.Text? <==> d.description.Text?)
              && (d.description.Text? ==> j[k].description.text == d.description.text)
              && (j[k].host.Text? <==> d.host.Text?) && (d.host.Text? ==> j[k].host.text == d.host.text)
              && |j[k].subdevices| == |d.subdevices|
    ensures forall k, i :: 0 <= k < n + m && 0 <= i < |j[k].subdevices| ==>
              var d := if k < n then f[k] else s[k - n];
              && i < |d.subdevices|
              && j[k].subdevices[i].info == d.subdevices[i].info
              && |j[k].subdevices[i].ranges| == |d.subdevices[i].ranges|
              && forall r :: 0 <= r < |d.subdevices[i].ranges| ==>
                   j[k].subdevices[i].ranges[r].info == d.subdevices[i].ranges[r].info
  {
    hide Kept, ValueOfDevice;
    CopiedCount(f, n);
    CopiedCount(s, m);
    assert |ValueOf(j)| == n + m;
    forall k | 0 <= k < n + m ensures ValueOfDevice(j[k]) == ValueOfDevice(if k < n then f[k] else s[k - n]) {
      assert ValueOf(j)[k] == ValueOfDevice(j[k]);
      assert k < n ==> ValueOf(f)[k] == ValueOfDevice(f[k]);
      assert k >= n ==> ValueOf(s)[k - n] == ValueOfDevice(s[k - n]);
    }
    forall k | 0 <= k < n + m
      ensures var d := if k < n then f[k] else s[k - n];
              && j[k].info == d.info
              && (j[k].bus.Words? <==> d.bus.Words?) && (d.bus.Words? ==> j[k].bus == d.bus)
              && (j[k].name.Text? <==> d.name.Text?) && (d.name.Text? ==> j[k].name.text == d.name.text)
              && (j[k].description.Text? <==> d.description.Text?)
              && (d.description.Text? ==> j[k].description.text == d.description.text)
              && (j[k].host.Text? <==> d.host.Text?) && (d.host.Text? ==> j[k].host.text == d.host.text)
              && |j[k].subdevices| == |d.subdevices| {
      EqualDevices(j[k], if k < n then f[k] else s[k - n]);
    }
    forall k, i | 0 <= k < n + m && 0 <= i < |j[k].subdevices|
      ensures var d := if k < n then f[k] else s[k - n];
              && i < |d.subdevices|
              && j[k].subdevices[i].info == d.subdevices[i].info
              && |j[k].subdevices[i].ranges| == |d.subdevices[i].ranges|
              && forall r :: 0 <= r < |d.subdevices[i].ranges| ==>
                   j[k].subdevices[i].ranges[r].info == d.subdevices[i].ranges[r].info {
      EqualDevices(j[k], if k < n then f[k] else s[k - n]);
    }
  }

  /** What an open adds to this: the numbers in list order. */
  lemma OpenedFields(g: seq<DeviceValue>, a: seq<DeviceValue>, k: nat)
    requires k < |Kept(g)| + |Kept(a)|
    ensures |OpenStep(g, a)| == |Kept(g)| + |Kept(a)| && OpenStep(g, a)[k].info.logicalNo == k
    ensures var d := if k < |Kept(g)| then Kept(g)[k] else Kept(a)[k - |Kept(g)|]; var e := OpenStep(g, a)[k];
            && e.info.context == d.info.context && e.info.access == d.info.access && e.info.deviceNo == d.info.deviceNo
            && e.info.vendorId == d.info.vendorId && e.info.deviceId == d.info.deviceId
            && e.info.serialNo == d.info.serialNo && e.info.plugged == d.info.plugged && e.words == d.words
            && e.name == d.name && e.description == d.description && e.host == d.host && e.subdevices == d.subdevices
  {
  }

  // Memory.

  /** A cell of the layout is in memory, and it is not part of the rest. */
  lemma OwnsNode(whole: map<Ptr, Cell>, l: Layout<Cell>, rest: map<Ptr, Cell>, n: Node<Cell>)
    requires Owns(whole, l, rest) && n in l
    ensures n.p != NULL && n.p in whole && whole[n.p] == n.cell && n.p !in rest
  {
    var k :| 0 <= k < |l| && l[k] == n;
    OwnsAt(whole, l, rest, k);
  }

  lemma {:induction false} InDevices(devices: seq<Device>, k: nat, n: Node<Cell>)
    requires k < |devices| && n in DeviceLayout(devices[k])
    ensures n in DevicesLayout(devices)
    decreases |devices|
  {
    hide DeviceLayout;
    var last := |devices| - 1;
    if k == last {
    } else {
      assert devices[..last][k] == devices[k];
      InDevices(devices[..last], k, n);
    }
  }

  lemma {:induction false} InSubdevices(subdevices: seq<Subdevice>, k: nat, n: Node<Cell>)
    requires k < |subdevices| && n in SubdeviceLayout(subdevices[k])
    ensures n in SubdevicesLayout(subdevices)
    decreases |subdevices|
  {
    hide SubdeviceLayout;
    var last := |subdevices| - 1;
    if k == last {
    } else {
      assert subdevices[..last][k] == subdevices[k];
      InSubdevices(subdevices[..last], k, n);
    }
  }

  /** The struct of a configuration in memory leads to its table, and the table to its devices. */
  lemma ConfigInMemory(whole: map<Ptr, Cell>, c: Config, rest: map<Ptr, Cell>)
    requires ConfigOk(c) && Owns(whole, ConfigLayout(c), rest)
    ensures c.p in whole && whole[c.p] == ConfigCell(c.table, |c.devices|) && c.p !in rest
    ensures c.table != NULL ==> c.table in whole && c.table !in rest && whole[c.table].TableCell?
    ensures c.table != NULL ==> |whole[c.table].slots| == |c.devices| + |c.spare|
    ensures c.table != NULL ==> forall k :: 0 <= k < |c.devices| ==> whole[c.table].slots[k] == c.devices[k].p
    ensures c.table == NULL ==> c.devices == []
  {
    hide Owns, DevicesLayout;
    OwnsNode(whole, ConfigLayout(c), rest, Node(c.p, ConfigCell(c.table, |c.devices|)));
    if c.table != NULL {
      var n := Node(c.table, TableCell(DevicePtrs(c.devices) + c.spare));
      assert n in TableLayout(c.table, DevicePtrs(c.devices) + c.spare);
      OwnsNode(whole, ConfigLayout(c), rest, n);
    }
  }

  /** The struct of a device in memory, its strings, character by character, and its table. */
  lemma DeviceInMemory(whole: map<Ptr, Cell>, c: Config, rest: map<Ptr, Cell>, k: nat)
    requires ConfigOk(c) && Owns(whole, ConfigLayout(c), rest) && k < |c.devices|
    ensures var d := c.devices[k];
            && d.p in whole && d.p !in rest
            && whole[d.p] == DeviceCell(d.info, d.bus, if d.name.Text? then d.name.p else NULL,
                                        if d.description.Text? then d.description.p else NULL, d.table, |d.subdevices|)
            && (d.name.Text? ==>
                  && d.name.p in whole && d.name.p !in rest && whole[d.name.p] == TextCell(d.name.chars)
                  && |d.name.text| < |d.name.chars| && d.name.chars[..|d.name.text|] == d.name.text
                  && d.name.chars[|d.name.text|] == '\0')
            && (d.description.Text? ==>
                  && d.description.p in whole && d.description.p !in rest
                  && whole[d.description.p] == TextCell(d.description.chars)
                  && |d.description.text| < |d.description.chars|
                  && d.description.chars[..|d.description.text|] == d.description.text
                  && d.description.chars[|d.description.text|] == '\0')
            && (d.host.Text? ==>
                  && d.bus == Remote(d.host.p)
                  && d.host.p in whole && d.host.p !in rest && whole[d.host.p] == TextCell(d.host.chars)
                  && |d.host.text| < |d.host.chars| && d.host.chars[..|d.host.text|] == d.host.text
                  && d.host.chars[|d.host.text|] == '\0')
            && (d.table != NULL ==>
                  && d.table in whole && d.table !in rest && whole[d.table].TableCell?
                  && |whole[d.table].slots| == |d.subdevices| + |d.spare|
                  && forall i :: 0 <= i < |d.subdevices| ==> whole[d.table].slots[i] == d.subdevices[i].p)
            && (d.table == NULL ==> d.subdevices == [])
  {
    hide Owns, DevicesLayout, SubdevicesLayout;
    var d := c.devices[k];
    var slots := SubdevicePtrs(d.subdevices) + d.spare;
    OfDevice(whole, c, rest, k, Node(d.p, DeviceStruct(d)));
    if d.name.Text? {
      assert Node(d.name.p, TextCell(d.name.chars)) in TextLayout(d.name);
      OfDevice(whole, c, rest, k, Node(d.name.p, TextCell(d.name.chars)));
    }
    if d.description.Text? {
      assert Node(d.description.p, TextCell(d.description.chars)) in TextLayout(d.description);
      OfDevice(whole, c, rest, k, Node(d.description.p, TextCell(d.description.chars)));
    }
    if d.host.Text? {
      assert Node(d.host.p, TextCell(d.host.chars)) in TextLayout(d.host);
      OfDevice(whole, c, rest, k, Node(d.host.p, TextCell(d.host.chars)));
    }
    if d.table != NULL {
      assert Node(d.table, TableCell(slots)) in TableLayout(d.table, slots);
      OfDevice(whole, c, rest, k, Node(d.table, TableCell(slots)));
    }
  }

  lemma OfDevice(whole: map<Ptr, Cell>, c: Config, rest: map<Ptr, Cell>, k: nat, n: Node<Cell>)
    requires Owns(whole, ConfigLayout(c), rest) && k < |c.devices| && n in DeviceLayout(c.devices[k])
    ensures n.p != NULL && n.p in whole && whole[n.p] == n.cell && n.p !in rest
  {
    hide Owns, DevicesLayout, DeviceLayout;
    InDevices(c.devices, k, n);
    OwnsNode(whole, ConfigLayout(c), rest, n);
  }

  /** The struct of a subdevice in memory, its table and its ranges. */
  lemma SubdeviceInMemory(whole: map<Ptr, Cell>, c: Config, rest: map<Ptr, Cell>, k: nat, i: nat)
    requires ConfigOk(c) && Owns(whole, ConfigLayout(c), rest) && k < |c.devices| && i < |c.devices[k].subdevices|
    ensures var s := c.devices[k].subdevices[i];
            && s.p in whole && s.p !in rest && whole[s.p] == SubdeviceCell(s.info, s.table, |s.ranges|)
            && (s.table != NULL ==>
                  && s.table in whole && s.table !in rest && whole[s.table].TableCell?
                  && |whole[s.table].slots| == |s.ranges| + |s.spare|
                  && forall r :: 0 <= r < |s.ranges| ==> whole[s.table].slots[r] == s.ranges[r].p)
            && (s.table == NULL ==> s.ranges == [])
            && forall r :: 0 <= r < |s.ranges| ==>
                 s.ranges[r].p in whole && s.ranges[r].p !in rest && whole[s.ranges[r].p] == RangeCell(s.ranges[r].info)
  {
    hide Owns, DevicesLayout, SubdevicesLayout;
    var s := c.devices[k].subdevices[i];
    var slots := RangePtrs(s.ranges) + s.spare;
    OfSubdevice(whole, c, rest, k, i, Node(s.p, SubdeviceStruct(s)));
    if s.table != NULL {
      assert Node(s.table, TableCell(slots)) in TableLayout(s.table, slots);
      OfSubdevice(whole, c, rest, k, i, Node(s.table, TableCell(slots)));
    }
    forall r | 0 <= r < |s.ranges|
      ensures s.ranges[r].p in whole && s.ranges[r].p !in rest && whole[s.ranges[r].p] == RangeCell(s.ranges[r].info) {
      assert RangesLayout(s.ranges)[r] == Node(s.ranges[r].p, RangeCell(s.ranges[r].info));
      OfSubdevice(whole, c, rest, k, i, RangesLayout(s.ranges)[r]);
    }
  }

  lemma OfSubdevice(whole: map<Ptr, Cell>, c: Config, rest: map<Ptr, Cell>, k: nat, i: nat, n: Node<Cell>)
    requires Owns(whole, ConfigLayout(c), rest) && k < |c.devices| && i < |c.devices[k].subdevices|
    requires n in SubdeviceLayout(c.devices[k].subdevices[i])
    ensures n.p != NULL && n.p in whole && whole[n.p] == n.cell && n.p !in rest
  {
    hide Owns, DevicesLayout, SubdevicesLayout, SubdeviceLayout, ConfigLayout;
    InSubdevices(c.devices[k].subdevices, i, n);
    OfDevice(whole, c, rest, k, n);
  }

  // Numbers and control fields.

  /** ConfigEnumerate and ConfigContinueEnumerate change the number of an entry and nothing else. */
  lemma NumberedFields(devices: seq<Device>, nums: seq<int>, k: nat)
    requires |nums| == |devices| && k < |devices|
    ensures var d, e := devices[k], WithNumbers(devices, nums)[k];
            && e.info.logicalNo == nums[k]
            && e.info.context == d.info.context && e.info.access == d.info.access && e.info.deviceNo == d.info.deviceNo
            && e.info.vendorId == d.info.vendorId && e.info.deviceId == d.info.deviceId
            && e.info.serialNo == d.info.serialNo && e.info.plugged == d.info.plugged && e.p == d.p && e.bus == d.bus
            && e.name == d.name
            && e.description == d.description && e.host == d.host && e.table == d.table && e.spare == d.spare
            && e.subdevices == d.subdevices
    ensures Numbers(devices)[k] == devices[k].info.logicalNo
  {
  }

  /** ConfigVerify changes the control field and nothing else: used entries with a real device stay used, all other ones
      are blocked. */
  lemma VerifiedFields(devices: seq<Device>, k: nat)
    requires k < |devices|
    ensures var d, e := devices[k], Verified(devices, |devices|)[k];
            && (e.info.plugged == PluggedUsed <==> d.info.plugged == PluggedUsed && d.info.deviceNo >= 0)
            && (e.info.plugged != PluggedUsed ==> e.info.plugged == PluggedBlocked)
            && e.info.logicalNo == d.info.logicalNo && e.info.context == d.info.context
            && e.info.access == d.info.access && e.info.deviceNo == d.info.deviceNo
            && e.info.vendorId == d.info.vendorId && e.info.deviceId == d.info.deviceId
            && e.info.serialNo == d.info.serialNo && e.p == d.p && e.bus == d.bus
            && e.name == d.name && e.description == d.description && e.host == d.host && e.table == d.table
            && e.spare == d.spare && e.subdevices == d.subdevices
  {
  }
}
