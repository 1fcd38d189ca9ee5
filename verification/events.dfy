/** The classification of list changes done by `onComPortChanged`. */
module Events {
  import opened Wrappers
  import opened ComPorts

  /** The kinds of change a `BindingList` reports. */
  datatype ListChangedType =
    | Reset | ItemAdded | ItemDeleted | ItemMoved | ItemChanged
    | PropertyDescriptorAdded | PropertyDescriptorDeleted | PropertyDescriptorChanged

  /**
   * The heading written above a port's description: "Detected" before the
   * first device-change notification, the change kind's own name after it.
   */
  datatype Label = Detected | Changed(kind: ListChangedType)

  /** One entry of the log: its heading and the port it describes. */
  datatype Event = Event(heading: Label, port: PortInfo)

  /** The heading for a change, or None for the kinds the handler ignores. */
  function Classify(change: ListChangedType, isDeviceChange: bool): (r: Option<Label>)
    ensures r.Some? <==> change == ItemAdded || change == ItemDeleted
    ensures r.Some? ==> (r.value == Detected <==> !isDeviceChange)
    ensures r.Some? && isDeviceChange ==> r.value == Changed(change)
  {
    match change
    case ItemAdded | ItemDeleted => Some(if isDeviceChange then Changed(change) else Detected)
    case _ => None
  }

  /**
   * `entries` are the log entries for `subjects`, one per port and in the
   * same order: each describes its port, as it is now, under `heading`.
   */
  predicate Announces(entries: seq<Event>, heading: Label, subjects: seq<ComPort>)
    reads subjects
  {
    && |entries| == |subjects|
    && forall k :: 0 <= k < |subjects| ==> entries[k] == Event(heading, subjects[k].Info())
  }

  /** Logging one more port extends the entries by that port's description. */
  lemma AnnouncesSnoc(entries: seq<Event>, heading: Label, subjects: seq<ComPort>, x: ComPort)
    requires Announces(entries, heading, subjects)
    ensures Announces(entries + [Event(heading, x.Info())], heading, subjects + [x])
  {
  }

  /**
   * Entries that introduce newly created ports: each port carries the
   * metadata of its last matching device and is logged under `heading`.
   */
  predicate Introduces(entries: seq<Event>, heading: Label, created: seq<ComPort>, inventory: seq<Device>)
    reads created
  {
    && (forall k :: 0 <= k < |created| ==>
          created[k].Info() == Resolved(PortInfo(Some(created[k].portName), None, None), inventory))
    && Announces(entries, heading, created)
  }
}
