/** Finding a device by its logical number: ConfigResolve searches the list, ShortcutBuild makes a table. */
module ConfigLookup {
  import opened Defines
  import opened Sequences
  import opened Memory
  import opened Ownership
  import opened DeviceTree
  import opened Numbering
  import opened ConfigNumbering

  /** What a lookup hands out: the static dummy entry or an entry of the list. */
  datatype Reference = Dummy | Entry(p: Ptr)

  /** The least (greatest) index at which `no` occurs, or the length. */
  ghost function First(nums: seq<int>, no: int): (k: nat)
    ensures k <= |nums| && (k < |nums| ==> nums[k] == no)
    ensures forall i :: 0 <= i < k ==> nums[i] != no
    decreases |nums|
  {
    if nums == [] then 0
    else
      var k := First(nums[..|nums| - 1], no);
      if k < |nums| - 1 then k else if nums[|nums| - 1] == no then |nums| - 1 else |nums|
  }

  ghost function Last(nums: seq<int>, no: int): (k: nat)
    ensures k <= |nums| && (k < |nums| ==> nums[k] == no)
    ensures forall i :: 0 <= i < |nums| && (k < i || k == |nums|) ==> nums[i] != no
    decreases |nums|
  {
    if nums == [] then 0
    else if nums[|nums| - 1] == no then |nums| - 1
    else
      var k := Last(nums[..|nums| - 1], no);
      if k < |nums| - 1 then k else |nums|
  }

  ghost function At(ptrs: seq<Ptr>, k: nat): Reference {
    if k < |ptrs| then Entry(ptrs[k]) else Dummy
  }

  ghost predicate IsMax(nums: seq<int>, max: int) {
    && max >= -1
    && (max == -1 || max in nums)
    && forall x :: x in nums ==> x <= max
  }

  /** find_max_index gives the largest number, or -1 if there is none that is larger. */
  method MaxIndex(heap: Heap<Cell>, cfg: Ptr, ghost c: Config) returns (max: int)
    requires cfg == c.p && Readable(heap.cells, c)
    ensures IsMax(Numbers(c.devices), max)
  {
    max := FindMaxIndex(heap, cfg, c);
    forall x | x in Numbers(c.devices) ensures x <= max {
      var k :| 0 <= k < |c.devices| && Numbers(c.devices)[k] == x;
      assert c.devices[k].info.logicalNo <= max;
    }
  }

  lemma MaxOfDevices(devices: seq<Device>, max: int)
    requires IsMax(Numbers(devices), max)
    ensures forall d :: d in devices ==> d.info.logicalNo <= max
    ensures max >= 0 ==> exists d :: d in devices && d.info.logicalNo == max
  {
    var nums := Numbers(devices);
    forall d | d in devices ensures d.info.logicalNo <= max {
      var k :| 0 <= k < |devices| && devices[k] == d;
      assert nums[k] in nums;
    }
    if max >= 0 {
      var k :| 0 <= k < |nums| && nums[k] == max;
      assert devices[k] in devices;
    }
  }

  method ConfigResolve(heap: Heap<Cell>, cfg: Ptr, logicalNo: int, ghost c: Config)
    returns (err: int, reference: Reference)
    requires cfg != NULL ==> cfg == c.p && Readable(heap.cells, c)
    ensures cfg == NULL ==> err == ERRNO_NOT_OPEN && reference == Dummy
    ensures cfg != NULL ==>
            var k := First(Numbers(c.devices), logicalNo);
            && reference == (if logicalNo < 0 then Dummy else At(DevicePtrs(c.devices), k))
            && err == (if logicalNo < 0 || forall d :: d in c.devices ==> d.info.logicalNo < logicalNo
                       then ERRNO_INVALID_DEVICE
                       else if k < |c.devices| && c.devices[k].info.plugged in {PluggedIn, PluggedUsed}
                       then ERRNO_SUCCESS
                       else ERRNO_DEVICE_UNPLUGGED)
  {
    err, reference := ERRNO_DEVICE_UNPLUGGED, Dummy;
    if cfg == NULL {
      return ERRNO_NOT_OPEN, Dummy;
    }
    ghost var nums := Numbers(c.devices);
    var max := MaxIndex(heap, cfg, c);
    if logicalNo < 0 || logicalNo > max {
      assert First(nums, logicalNo) < |nums| ==> nums[First(nums, logicalNo)] in nums;
      MaxOfDevices(c.devices, max);
      return ERRNO_INVALID_DEVICE, Dummy;
    }
    MaxOfDevices(c.devices, max);
    var i := 0;
    while i < heap.cells[cfg].deviceCount
      invariant 0 <= i <= |nums|
      invariant forall k :: 0 <= k < i ==> nums[k] != logicalNo
      invariant err == ERRNO_DEVICE_UNPLUGGED && reference == Dummy
      decreases |nums| - i
    {
      var entry := heap.cells[heap.cells[cfg].deviceList].slots[i];
      assert heap.cells[entry].info.logicalNo == nums[i];
      if heap.cells[entry].info.logicalNo == logicalNo {
        assert First(nums, logicalNo) == i;
        reference := Entry(entry);
        if heap.cells[entry].info.plugged == PluggedIn || heap.cells[entry].info.plugged == PluggedUsed {
          err := ERRNO_SUCCESS;
        }
        return;
      }
      i := i + 1;
    }
  }

  /** The table after the first n entries. */
  ghost predicate SlotsFor(table: seq<Reference>, nums: seq<int>, ptrs: seq<Ptr>, n: nat)
    requires n <= |nums| == |ptrs|
  {
    forall no :: 0 <= no < |table| ==> table[no] == At(ptrs[..n], Last(nums[..n], no))
  }

  lemma NoSlots(table: seq<Reference>, nums: seq<int>, ptrs: seq<Ptr>)
    requires |nums| == |ptrs| && forall no :: 0 <= no < |table| ==> table[no] == Dummy
    ensures SlotsFor(table, nums, ptrs, 0)
  {
  }

  lemma SlotStep(nums: seq<int>, ptrs: seq<Ptr>, i: nat, no: int)
    requires i < |nums| == |ptrs|
    ensures At(ptrs[..i + 1], Last(nums[..i + 1], no)) == if nums[i] == no then Entry(ptrs[i])
            else At(ptrs[..i], Last(nums[..i], no))
  {
    assert nums[..i + 1][..i] == nums[..i];
  }

  /** One entry more: a number that is not negative has a slot, which is overwritten. */
  lemma SlotsStep(table: seq<Reference>, nums: seq<int>, ptrs: seq<Ptr>, n: nat)
    requires n < |nums| == |ptrs| && SlotsFor(table, nums, ptrs, n) && nums[n] < |table|
    ensures SlotsFor(if nums[n] >= 0 then table[nums[n] := Entry(ptrs[n])] else table, nums, ptrs, n + 1)
  {
    hide At, Last;
    var after := if nums[n] >= 0 then table[nums[n] := Entry(ptrs[n])] else table;
    forall no | 0 <= no < |after| ensures after[no] == At(ptrs[..n + 1], Last(nums[..n + 1], no)) {
      SlotStep(nums, ptrs, n, no);
    }
  }

  lemma AllSlots(table: seq<Reference>, nums: seq<int>, ptrs: seq<Ptr>)
    requires |nums| == |ptrs| && SlotsFor(table, nums, ptrs, |nums|)
    ensures forall no :: 0 <= no < |table| ==> table[no] == At(ptrs, Last(nums, no))
  {
    assert nums[..|nums|] == nums && ptrs[..|nums|] == ptrs;
  }

  /** ShortcutBuild: slot i of the table holds the last entry with logical number i, and the dummy in a gap. */
  method ShortcutBuild(heap: Heap<Cell>, cfg: Ptr, ghost c: Config) returns (err: int, table: array<Reference>)
    requires cfg == c.p && Readable(heap.cells, c)
    ensures err == ERRNO_SUCCESS && fresh(table)
    ensures IsMax(Numbers(c.devices), table.Length - 1)
    ensures forall no :: 0 <= no < table.Length ==>
            table[..][no] == At(DevicePtrs(c.devices), Last(Numbers(c.devices), no))
  {
    hide Last, At, SlotsFor;
    ghost var nums, ptrs := Numbers(c.devices), DevicePtrs(c.devices);
    var count := MaxIndex(heap, cfg, c);
    table := new Reference[count + 1](_ => Dummy);
    NoSlots(table[..], nums, ptrs);
    var i := 0;
    while i < heap.cells[cfg].deviceCount
      invariant 0 <= i <= |nums| && SlotsFor(table[..], nums, ptrs, i)
      decreases |nums| - i
    {
      var entry := heap.cells[heap.cells[cfg].deviceList].slots[i];
      var logicalId := heap.cells[entry].info.logicalNo;
      assert logicalId == nums[i] && logicalId in nums && entry == ptrs[i];
      SlotsStep(table[..], nums, ptrs, i);
      if logicalId >= 0 {
        table[logicalId] := Entry(entry);
      }
      i := i + 1;
    }
    AllSlots(table[..], nums, ptrs);
    err := ERRNO_SUCCESS;
  }

  /** A slot of the table and ConfigResolve hand out the same entry exactly if the number is not shared. */
  lemma SlotAgreesWithResolve(nums: seq<int>, ptrs: seq<Ptr>, no: int)
    requires |nums| == |ptrs| && forall i, j :: 0 <= i < j < |ptrs| ==> ptrs[i] != ptrs[j]
    ensures At(ptrs, Last(nums, no)) == At(ptrs, First(nums, no)) <==>
            forall i, j :: 0 <= i < j < |nums| ==> !(nums[i] == no && nums[j] == no)
  {
  }

  /** ShortcutResolve compares the slot it finds with the last slot of the table; `before` is what memory holds in front
      of the table, which is read if the table has no slots. */
  method ShortcutResolve(table: array<Reference>, before: Reference, logicalNo: int)
    returns (err: int, reference: Reference)
    ensures err == ERRNO_SUCCESS || err == ERRNO_INVALID_DEVICE
    ensures err == ERRNO_SUCCESS <==> 0 <= logicalNo < table.Length && table[logicalNo] != table[table.Length - 1]
    ensures 0 <= logicalNo < table.Length ==> reference == table[logicalNo]
    ensures !(0 <= logicalNo < table.Length) ==>
              reference == if table.Length == 0 then before else table[table.Length - 1]
  {
    err := ERRNO_INVALID_DEVICE;
    var last := if table.Length == 0 then before else table[table.Length - 1];
    if logicalNo < 0 || logicalNo >= table.Length {
      reference := last;
      return;
    }
    reference := table[logicalNo];
    if reference != last {
      err := ERRNO_SUCCESS;
    }
  }

  /** The last slot holds a device with the greatest number, not the dummy. So on a table with slots ShortcutResolve
      accepts exactly the numbers below the greatest one, gaps included. */
  lemma ShortcutResolveIsPositional(nums: seq<int>, ptrs: seq<Ptr>, max: int, no: int)
    requires |nums| == |ptrs| && forall i, j :: 0 <= i < j < |ptrs| ==> ptrs[i] != ptrs[j]
    requires IsMax(nums, max) && max >= 0 && 0 <= no <= max
    ensures At(ptrs, Last(nums, max)) != Dummy
    ensures At(ptrs, Last(nums, no)) != At(ptrs, Last(nums, max)) <==> no < max
  {
    assert Last(nums, max) < |nums|;
    if no < max && Last(nums, no) < |nums| {
      assert nums[Last(nums, no)] == no;
    }
  }

  /** A table without slots is made exactly for a configuration without a number that is not negative; there
      ShortcutResolve hands out whatever is in front of the table. */
  lemma NoSlotsExactly(nums: seq<int>, length: nat)
    requires IsMax(nums, length - 1)
    ensures length == 0 <==> forall no :: no in nums ==> no < 0
  {
  }

  /** Where the struct of the k-th device is in the layout. */
  lemma {:induction false} StructAt(devices: seq<Device>, k: nat)
    requires k < |devices|
    ensures |DevicesLayout(devices[..k])| < |DevicesLayout(devices)|
    ensures DevicesLayout(devices)[|DevicesLayout(devices[..k])|].p == devices[k].p
    decreases |devices|
  {
    hide DeviceParts;
    var n := |devices| - 1;
    if k == n {
    } else {
      StructAt(devices[..n], k);
      assert devices[..n][..k] == devices[..k];
    }
  }

  /** Entries of a configuration in memory are at different addresses. */
  lemma DevicesAreApart(cells: map<Ptr, Cell>, c: Config, rest: map<Ptr, Cell>, i: nat, j: nat)
    requires i < j < |c.devices| && Owns(cells, ConfigLayout(c), rest)
    ensures c.devices[i].p != c.devices[j].p
  {
    hide Owns, DevicesLayout, DeviceLayout;
    var head := [Node(c.p, ConfigCell(c.table, |c.devices|))] + TableLayout(c.table, DevicePtrs(c.devices) + c.spare);
    assert ConfigLayout(c) == head + DevicesLayout(c.devices);
    StructAt(c.devices, i);
    StructAt(c.devices, j);
    StructAt(c.devices[..j], i);
    assert c.devices[..j][..i] == c.devices[..i];
    OwnsDistinct(cells, ConfigLayout(c), rest, |head| + |DevicesLayout(c.devices[..i])|,
                 |head| + |DevicesLayout(c.devices[..j])|);
  }

  /** For a configuration in memory with distinct numbers, every slot of the table holds what ConfigResolve finds. */
  lemma TableAgreesWithResolve(cells: map<Ptr, Cell>, c: Config, rest: map<Ptr, Cell>, no: int)
    requires Owns(cells, ConfigLayout(c), rest) && NoTwice(Numbers(c.devices))
    ensures At(DevicePtrs(c.devices), Last(Numbers(c.devices), no))
            == At(DevicePtrs(c.devices), First(Numbers(c.devices), no))
  {
    hide Owns, ConfigLayout;
    forall i, j | 0 <= i < j < |c.devices| ensures DevicePtrs(c.devices)[i] != DevicePtrs(c.devices)[j] {
      DevicesAreApart(cells, c, rest, i, j);
    }
    SlotAgreesWithResolve(Numbers(c.devices), DevicePtrs(c.devices), no);
  }

  /** What the list search and a slot of the table hold: the entry at the first place with the number, and the entry at
      the last one; the dummy if there is none. */
  lemma FoundEntries(devices: seq<Device>, no: int, k: nat)
    requires k < |devices| && devices[k].info.logicalNo == no
    ensures (forall i :: 0 <= i < k ==> devices[i].info.logicalNo != no) ==>
              && First(Numbers(devices), no) == k
              && At(DevicePtrs(devices), First(Numbers(devices), no)) == Entry(devices[k].p)
    ensures (forall i :: k < i < |devices| ==> devices[i].info.logicalNo != no) ==>
              At(DevicePtrs(devices), Last(Numbers(devices), no)) == Entry(devices[k].p)
  {
    var nums := Numbers(devices);
    assert forall i :: 0 <= i < |devices| ==> nums[i] == devices[i].info.logicalNo;
  }

  lemma MissingNumber(devices: seq<Device>, no: int)
    requires forall d :: d in devices ==> d.info.logicalNo != no
    ensures First(Numbers(devices), no) == |devices|
    ensures At(DevicePtrs(devices), First(Numbers(devices), no)) == Dummy
    ensures At(DevicePtrs(devices), Last(Numbers(devices), no)) == Dummy
  {
    var nums := Numbers(devices);
    assert forall i :: 0 <= i < |devices| ==> nums[i] == devices[i].info.logicalNo && devices[i] in devices;
  }
}
