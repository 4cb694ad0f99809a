/** The device configuration store: a table of devices, each with a table of subdevices, each with a table of
    ranges. Every struct, table and string is a cell of its own on the C heap. */
module DeviceTree {
  import opened Defines
  import opened Memory
  import opened Ownership
  import opened CString

  datatype Option<+T> = None | Some(value: T)

  datatype AccessType = AccessInvalid | AccessPci | AccessTcpip | AccessUsb | AccessMephistoScope

  datatype Plugged = PluggedInvalid | PluggedIn | PluggedOut | PluggedBlocked | PluggedUsed

  datatype Extension =
    | NoExtension
    | Mux32(timed: int, aiChannel: nat, dioDevice: nat, dioSubdevice: nat, count: nat)
    | Demux32(timed: int, aoChannel: nat, dioDevice: nat, dioSubdevice: nat)

  datatype RangeInfo = RangeInfo(unit: int, min: real, max: real, maxData: nat)

  datatype SubdeviceInfo = SubdeviceInfo(locked: int, kind: int, subKind: int, channels: nat, extension: Extension)

  /** The bus-specific union of a device: three words, or the pointer to the name of the remote host. */
  datatype Bus = Words(w0: nat, w1: nat, w2: nat) | Remote(host: Ptr)

  /** The pointer-free fields of a device. */
  datatype DeviceInfo = DeviceInfo(context: Handle, access: AccessType, logicalNo: int, vendorId: nat, deviceId: nat,
                                   serialNo: nat, deviceNo: int, plugged: Plugged)

  // What the C heap holds.

  datatype Cell =
    | TextCell(chars: seq<char>)
    | TableCell(slots: seq<Ptr>)
    | RangeCell(range: RangeInfo)
    | SubdeviceCell(subInfo: SubdeviceInfo, rangeList: Ptr, rangeCount: nat)
    | DeviceCell(info: DeviceInfo, bus: Bus, name: Ptr, description: Ptr, subdeviceList: Ptr, subdeviceCount: nat)
    | ConfigCell(deviceList: Ptr, deviceCount: nat)

  // Shapes: trees of structs with the addresses they are at. `spare` are table slots beyond the count.

  datatype Text = NoText | Text(p: Ptr, chars: seq<char>, text: string)

  datatype RangeNode = RangeNode(p: Ptr, info: RangeInfo)

  datatype Subdevice = Subdevice(p: Ptr, info: SubdeviceInfo, table: Ptr, ranges: seq<RangeNode>, spare: seq<Ptr>)

  datatype Device = Device(p: Ptr, info: DeviceInfo, bus: Bus, name: Text, description: Text, host: Text,
                           table: Ptr, subdevices: seq<Subdevice>, spare: seq<Ptr>)

  datatype Config = Config(p: Ptr, table: Ptr, devices: seq<Device>, spare: seq<Ptr>)

  // Layouts: the cells of a shape.

  function TextPtr(t: Text): Ptr {
    if t.NoText? then NULL else t.p
  }

  ghost function TextLayout(t: Text): Layout<Cell> {
    if t.NoText? then [] else [Node(t.p, TextCell(t.chars))]
  }

  ghost predicate TextOk(t: Text) {
    t.Text? ==> t.p != NULL && Holds(t.chars, t.text)
  }

  ghost function TableLayout(table: Ptr, slots: seq<Ptr>): Layout<Cell> {
    if table == NULL then [] else [Node(table, TableCell(slots))]
  }

  ghost function RangePtrs(ranges: seq<RangeNode>): seq<Ptr> {
    seq(|ranges|, i requires 0 <= i < |ranges| => ranges[i].p)
  }

  ghost function RangesLayout(ranges: seq<RangeNode>): Layout<Cell> {
    seq(|ranges|, i requires 0 <= i < |ranges| => Node(ranges[i].p, RangeCell(ranges[i].info)))
  }

  ghost function SubdeviceStruct(s: Subdevice): Cell {
    SubdeviceCell(s.info, s.table, |s.ranges|)
  }

  ghost function SubdeviceLayout(s: Subdevice): Layout<Cell> {
    [Node(s.p, SubdeviceStruct(s))] + TableLayout(s.table, RangePtrs(s.ranges) + s.spare) + RangesLayout(s.ranges)
  }

  ghost predicate SubdeviceOk(s: Subdevice) {
    && s.p != NULL
    && (s.table == NULL ==> s.ranges == [] && s.spare == [])
  }

  ghost function SubdevicePtrs(subdevices: seq<Subdevice>): seq<Ptr> {
    seq(|subdevices|, i requires 0 <= i < |subdevices| => subdevices[i].p)
  }

  ghost function SubdevicesLayout(subdevices: seq<Subdevice>): Layout<Cell> {
    if subdevices == [] then []
    else SubdevicesLayout(subdevices[..|subdevices| - 1]) + SubdeviceLayout(subdevices[|subdevices| - 1])
  }

  ghost function DeviceStruct(d: Device): Cell {
    DeviceCell(d.info, d.bus, TextPtr(d.name), TextPtr(d.description), d.table, |d.subdevices|)
  }

  /** Everything a device owns except its own struct. */
  ghost function DeviceParts(d: Device): Layout<Cell> {
    TextLayout(d.name) + TextLayout(d.description) + TableLayout(d.table, SubdevicePtrs(d.subdevices) + d.spare)
    + SubdevicesLayout(d.subdevices) + TextLayout(d.host)
  }

  ghost function DeviceLayout(d: Device): Layout<Cell> {
    [Node(d.p, DeviceStruct(d))] + DeviceParts(d)
  }

  ghost predicate DeviceOk(d: Device) {
    && d.p != NULL
    && TextOk(d.name) && TextOk(d.description) && TextOk(d.host)
    && (d.info.access == AccessTcpip <==> d.bus.Remote?)
    && (if d.bus.Remote? then d.bus.host == TextPtr(d.host) else d.host.NoText?)
    && (d.table == NULL ==> d.subdevices == [] && d.spare == [])
    && forall k :: 0 <= k < |d.subdevices| ==> SubdeviceOk(d.subdevices[k])
  }

  ghost function DevicePtrs(devices: seq<Device>): seq<Ptr> {
    seq(|devices|, i requires 0 <= i < |devices| => devices[i].p)
  }

  ghost function DevicesLayout(devices: seq<Device>): Layout<Cell> {
    if devices == [] then []
    else DevicesLayout(devices[..|devices| - 1]) + DeviceLayout(devices[|devices| - 1])
  }

  /** Everything a configuration owns except its own struct. */
  ghost function ConfigParts(c: Config): Layout<Cell> {
    TableLayout(c.table, DevicePtrs(c.devices) + c.spare) + DevicesLayout(c.devices)
  }

  ghost function ConfigLayout(c: Config): Layout<Cell> {
    [Node(c.p, ConfigCell(c.table, |c.devices|))] + ConfigParts(c)
  }

  ghost predicate ConfigOk(c: Config) {
    && c.p != NULL
    && (c.table == NULL ==> c.devices == [] && c.spare == [])
    && forall k :: 0 <= k < |c.devices| ==> DeviceOk(c.devices[k])
  }

  // Values: what a shape means once the addresses are forgotten.

  datatype SubdeviceValue = SubdeviceValue(info: SubdeviceInfo, ranges: seq<RangeInfo>)

  datatype DeviceValue = DeviceValue(info: DeviceInfo, words: Option<(nat, nat, nat)>, name: Option<string>,
                                     description: Option<string>, host: Option<string>, subdevices: seq<SubdeviceValue>)

  ghost function TextValue(t: Text): Option<string> {
    if t.NoText? then None else Some(t.text)
  }

  ghost function RangeValues(ranges: seq<RangeNode>): seq<RangeInfo> {
    seq(|ranges|, i requires 0 <= i < |ranges| => ranges[i].info)
  }

  ghost function ValueOfSubdevice(s: Subdevice): SubdeviceValue {
    SubdeviceValue(s.info, RangeValues(s.ranges))
  }

  ghost function SubdeviceValues(subdevices: seq<Subdevice>): seq<SubdeviceValue> {
    seq(|subdevices|, i requires 0 <= i < |subdevices| => ValueOfSubdevice(subdevices[i]))
  }

  ghost function ValueOfDevice(d: Device): DeviceValue {
    DeviceValue(d.info, if d.bus.Words? then Some((d.bus.w0, d.bus.w1, d.bus.w2)) else None,
                TextValue(d.name), TextValue(d.description), TextValue(d.host), SubdeviceValues(d.subdevices))
  }

  ghost function ValueOf(devices: seq<Device>): seq<DeviceValue> {
    seq(|devices|, i requires 0 <= i < |devices| => ValueOfDevice(devices[i]))
  }
}
