/**
 * The `ComPort` record of MainForm.cs, its two formatting methods, and the
 * Plug and Play lookup that fills in a newly added port's metadata.
 */
module ComPorts {
  import opened Wrappers

  /** The three properties of a `ComPort` as a value; `None` stands for null. */
  datatype PortInfo = PortInfo(portName: Option<string>, friendlyName: Option<string>, pnpDeviceId: Option<string>)
  {
    /** `ComPort.ToString`: the text the combo box shows for the entry. */
    function ToString(): (r: string)
      ensures portName.Some? ==> r == portName.value
      ensures portName.None? ==> r == "None"
    {
      portName.GetOr("None")
    }

    /**
     * `ComPort.GetFullDescription`: the port name, the friendly name, the
     * caption "PnpDeviceId: " and the device id, one per line, and then two
     * line breaks. A null property prints as an empty line.
     */
    function GetFullDescription(newLine: string): (r: string)
      ensures r == Text(portName) + newLine + Text(friendlyName) + newLine
                   + "PnpDeviceId: " + newLine + Text(pnpDeviceId) + newLine + newLine
      ensures |r| == |Text(portName)| + |Text(friendlyName)| + |"PnpDeviceId: "| + |Text(pnpDeviceId)| + 5 * |newLine|
    {
      var builder := [Text(portName), Text(friendlyName), "PnpDeviceId: ", Text(pnpDeviceId)];
      JoinFour(newLine, builder);
      Join(newLine, builder) + newLine + newLine
    }
  }

  /** String interpolation of a nullable string: null renders as "". */
  function Text(s: Option<string>): string {
    s.GetOr("")
  }

  /** `string.Join`: the values with the separator between neighbours. */
  function Join(separator: string, values: seq<string>): (r: string)
    ensures |values| > 0 ==> values[0] <= r
  {
    if |values| == 0 then ""
    else if |values| == 1 then values[0]
    else values[0] + separator + Join(separator, values[1..])
  }

  /** Four values joined: the separator between each neighbouring pair. */
  lemma JoinFour(separator: string, values: seq<string>)
    requires |values| == 4
    ensures Join(separator, values) == values[0] + separator + values[1] + separator + values[2] + separator + values[3]
  {
    assert Join(separator, values[3..]) == values[3];
    assert values[2..][1..] == values[3..];
    assert Join(separator, values[2..]) == values[2] + separator + values[3];
    assert values[1..][1..] == values[2..];
  }

  /**
   * A tracked serial port. Its name is fixed when it is created from an
   * enumerated port name; the lookup assigns the other two properties.
   */
  class ComPort {
    const portName: string
    var friendlyName: Option<string>
    var pnpDeviceId: Option<string>

    /** `new ComPort { PortName = port }` */
    constructor (portName: string)
      ensures this.portName == portName
      ensures friendlyName.None? && pnpDeviceId.None?
    {
      this.portName := portName;
      friendlyName := None;
      pnpDeviceId := None;
    }

    function Info(): PortInfo
      reads this
    {
      PortInfo(Some(portName), friendlyName, pnpDeviceId)
    }
  }

  /**
   * One record of the Plug and Play inventory as the lookup sees it: its
   * PnpDeviceID (None when null), the "PortName" value under its
   * "Device Parameters" registry key (None when that key or value is
   * missing), and the "FriendlyName" value of its own registry key (None
   * when the key or the value is missing).
   */
  datatype Device = Device(pnpDeviceId: Option<string>, configuredPortName: Option<string>, friendlyName: Option<string>)

  /** The record has a device id and is configured for exactly this port name. */
  predicate Matches(d: Device, portName: Option<string>): (r: bool)
    ensures r ==> portName.Some? && d.configuredPortName == portName
  {
    d.pnpDeviceId.Some? && d.configuredPortName.Some? && d.configuredPortName == portName
  }

  /** The position of the last record in the inventory that matches the port name. */
  function LastMatch(inventory: seq<Device>, portName: Option<string>): (r: Option<nat>)
    ensures r.Some? ==> r.value < |inventory| && Matches(inventory[r.value], portName)
    ensures r.Some? ==> forall j :: r.value < j < |inventory| ==> !Matches(inventory[j], portName)
    ensures r.None? <==> forall j :: 0 <= j < |inventory| ==> !Matches(inventory[j], portName)
    decreases |inventory|
  {
    if |inventory| == 0 then None
    else if Matches(inventory[|inventory| - 1], portName) then Some(|inventory| - 1)
    else LastMatch(inventory[..|inventory| - 1], portName)
  }

  /**
   * The properties of a port after the lookup: the last matching record
   * supplies the friendly name (as text, so never null) and the device id;
   * with no match the properties stay as they were.
   */
  function Resolved(info: PortInfo, inventory: seq<Device>): (r: PortInfo)
    ensures r.portName == info.portName
  {
    match LastMatch(inventory, info.portName)
    case None => info
    case Some(i) =>
      info.(friendlyName := Some(Text(inventory[i].friendlyName)), pnpDeviceId := inventory[i].pnpDeviceId)
  }

  /**
   * A port no record matches keeps its properties; otherwise the last
   * matching record alone decides them.
   */
  lemma ResolvedByLastMatch(info: PortInfo, inventory: seq<Device>)
    ensures (forall j :: 0 <= j < |inventory| ==> !Matches(inventory[j], info.portName)) ==> Resolved(info, inventory) == info
    ensures forall i :: 0 <= i < |inventory| && Matches(inventory[i], info.portName)
                        && (forall j :: i < j < |inventory| ==> !Matches(inventory[j], info.portName))
                        ==> Resolved(info, inventory).friendlyName == Some(Text(inventory[i].friendlyName))
                            && Resolved(info, inventory).pnpDeviceId == inventory[i].pnpDeviceId
  {
    match LastMatch(inventory, info.portName)
    case None =>
    case Some(k) =>
      forall i | 0 <= i < |inventory| && Matches(inventory[i], info.portName)
                 && (forall j :: i < j < |inventory| ==> !Matches(inventory[j], info.portName))
        ensures i == k
      {
      }
  }

  /** Looking at one more record: a match overrides whatever the earlier records gave. */
  lemma ResolvedStep(info: PortInfo, inventory: seq<Device>, i: nat)
    requires i < |inventory|
    ensures Resolved(info, inventory[..i + 1])
            == if Matches(inventory[i], info.portName)
               then Resolved(info, inventory[..i]).(friendlyName := Some(Text(inventory[i].friendlyName)),
                                                    pnpDeviceId := inventory[i].pnpDeviceId)
               else Resolved(info, inventory[..i])
  {
    assert inventory[..i + 1][..i] == inventory[..i];
  }

  /**
   * The metadata loop of the ItemAdded case: every record of the inventory
   * is visited and each match overwrites the port's properties, so the last
   * match wins.
   */
  method ResolveMetadata(comPort: ComPort, inventory: seq<Device>)
    modifies comPort
    ensures comPort.Info() == Resolved(old(comPort.Info()), inventory)
  {
    for i := 0 to |inventory|
      invariant comPort.Info() == Resolved(old(comPort.Info()), inventory[..i])
    {
      var record := inventory[i];
      ResolvedStep(old(comPort.Info()), inventory, i);
      if record.pnpDeviceId.Some? {
        if record.configuredPortName.Some? {
          if record.configuredPortName == Some(comPort.portName) {
            comPort.friendlyName := Some(Text(record.friendlyName));
            comPort.pnpDeviceId := record.pnpDeviceId;
          }
        }
      }
    }
    assert inventory[..|inventory|] == inventory;
  }
}
