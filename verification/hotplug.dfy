/**
 * The hot-plug state of `MainForm`: the tracked port list behind the combo
 * box, the flag that tells the initial pass from later ones, the debounce
 * counter, the last removed port, and the log that the list-change handler
 * writes. Window messages, the 500 ms delay and the operating system's
 * port and device queries are inputs: `OnDeviceChange` is one
 * WM_DEVICECHANGE message, `OnDelayCompleted` is its delayed callback, and
 * `ports` and `inventory` are what the queries return at that moment.
 */
module HotPlug {
  import opened Wrappers
  import opened ComPorts
  import opened Events
  import opened Registry
  import opened Debounce

  class MainForm {
    var comPorts: seq<ComPort>
    var isDeviceChange: bool
    var wdtCount: int
    var removedItem: ComPort?
    /** The headings and port descriptions the handler has written, oldest first. */
    var log: seq<Event>

    ghost predicate Valid()
      reads this
    {
      UniqueNames(comPorts) && IsInt32(wdtCount)
    }

    /** The field initialisers of the form. */
    constructor ()
      ensures Valid()
      ensures comPorts == [] && !isDeviceChange && wdtCount == 0
      ensures removedItem == null && log == []
    {
      comPorts := [];
      isDeviceChange := false;
      wdtCount := 0;
      removedItem := null;
      log := [];
    }

    /**
     * What a pass of `enumerateComPorts` over `ports` leaves, given the list,
     * the last removed port and the log before it: the ports still
     * enumerated keep their places and come first, followed by the `added`
     * ports, named in the order the enumeration first names new names, each
     * with the metadata of its last matching device; the last port removed
     * is remembered; the log gains one entry per added port and then one per
     * removed port.
     */
    ghost predicate Reconciled(before: seq<ComPort>, removedBefore: ComPort?, logBefore: seq<Event>,
                               ports: seq<string>, inventory: seq<Device>,
                               added: seq<ComPort>, addedEntries: seq<Event>, removedEntries: seq<Event>)
      reads this, added, Removed(before, ports)
    {
      && comPorts == Retained(before, ports) + added
      && Names(added) == Appended(Names(before), ports)
      && removedItem == LastOr(Removed(before, ports), removedBefore)
      && log == logBefore + addedEntries + removedEntries
      && Introduces(addedEntries, Classify(ItemAdded, isDeviceChange).value, added, inventory)
      && Announces(removedEntries, Classify(ItemDeleted, isDeviceChange).value, Removed(before, ports))
    }

    /**
     * After a pass the tracked names are exactly the enumerated names, and a
     * second pass over the same enumeration would append nothing, keep every
     * port and remove none, so `removedItem` and the log would stay as they are.
     */
    lemma ReconciledIsStable(before: seq<ComPort>, removedBefore: ComPort?, logBefore: seq<Event>,
                             ports: seq<string>, inventory: seq<Device>,
                             added: seq<ComPort>, addedEntries: seq<Event>, removedEntries: seq<Event>)
      requires Reconciled(before, removedBefore, logBefore, ports, inventory, added, addedEntries, removedEntries)
      ensures forall n :: n in Names(comPorts) <==> n in ports
      ensures Appended(Names(comPorts), ports) == []
      ensures Retained(comPorts, ports) == comPorts
      ensures Removed(comPorts, ports) == []
      ensures LastOr(Removed(comPorts, ports), removedItem) == removedItem
    {
      ReconciledNames(before, added, ports);
      ReconcileIdempotent(before, added, ports);
    }

    /**
     * `onComPortChanged`, run as soon as the list reports a change. An added
     * port (the one at `newIndex`) first gets its metadata; a deletion
     * describes `removedItem`. Other kinds of change write nothing.
     */
    method OnComPortChanged(change: ListChangedType, newIndex: int, inventory: seq<Device>)
      requires change == ItemAdded ==> 0 <= newIndex < |comPorts|
      requires change == ItemDeleted ==> removedItem != null
      modifies this`log, if change == ItemAdded then {comPorts[newIndex]} else {}
      ensures change == ItemAdded ==>
                comPorts[newIndex].Info() == Resolved(old(comPorts[newIndex].Info()), inventory)
                && log == old(log) + [Event(Classify(change, isDeviceChange).value, comPorts[newIndex].Info())]
      ensures change == ItemDeleted ==>
                log == old(log) + [Event(Classify(change, isDeviceChange).value, removedItem.Info())]
      ensures Classify(change, isDeviceChange).None? ==> log == old(log)
    {
      var comPort: ComPort?;
      match change {
        case ItemAdded =>
          comPort := comPorts[newIndex];
          ResolveMetadata(comPort, inventory);
        case ItemDeleted =>
          comPort := removedItem;
        case _ =>
          return;
      }
      log := log + [Event(Classify(change, isDeviceChange).value, comPort.Info())];
    }

    /** One WM_DEVICECHANGE message: returns the ticket its delayed callback captures. */
    method OnDeviceChange() returns (captureCount: int)
      requires Valid()
      modifies this`isDeviceChange, this`wdtCount
      ensures Valid()
      ensures isDeviceChange
      ensures wdtCount == Increment(old(wdtCount)) && captureCount == wdtCount
    {
      isDeviceChange := true;
      wdtCount := Increment(wdtCount);
      captureCount := wdtCount;
    }

    /**
     * A burst of `n` WM_DEVICECHANGE messages in a row: the tickets their
     * callbacks capture, in arrival order. For a burst no longer than the
     * counter's period, only the last callback finds its ticket current.
     */
    method DeviceChangeBurst(n: nat) returns (tickets: seq<int>)
      requires Valid()
      modifies this`isDeviceChange, this`wdtCount
      ensures Valid()
      ensures tickets == Tickets(old(wdtCount), n)
      ensures wdtCount == Advance(old(wdtCount), n)
      ensures isDeviceChange == (n > 0 || old(isDeviceChange))
      ensures n <= Modulus ==> forall i :: 0 <= i < n ==> (tickets[i] == wdtCount <==> i == n - 1)
    {
      ghost var start := wdtCount;
      tickets := [];
      var i := 0;
      while i < n
        invariant 0 <= i <= n
        invariant Valid()
        invariant wdtCount == Advance(start, i)
        invariant isDeviceChange == (i > 0 || old(isDeviceChange))
        invariant |tickets| == i && forall k :: 0 <= k < i ==> tickets[k] == Advance(start, k + 1)
      {
        var captureCount := OnDeviceChange();
        tickets := tickets + [captureCount];
        i := i + 1;
      }
      if 0 < n <= Modulus {
        OnlyLastTicketFires(start, n);
      }
    }

    /**
     * The callback 500 ms after a message: the ports are enumerated again
     * only when no message has arrived since the one that captured the ticket.
     */
    method OnDelayCompleted(captureCount: int, ports: seq<string>, inventory: seq<Device>)
      returns (settled: bool, ghost added: seq<ComPort>, ghost addedEntries: seq<Event>, ghost removedEntries: seq<Event>)
      requires Valid()
      modifies this`comPorts, this`removedItem, this`log
      ensures Valid()
      ensures settled <==> captureCount == wdtCount
      ensures settled ==> Reconciled(old(comPorts), old(removedItem), old(log), ports, inventory,
                                     added, addedEntries, removedEntries)
      ensures settled ==> forall k :: 0 <= k < |added| ==> fresh(added[k])
      ensures !settled ==> comPorts == old(comPorts) && removedItem == old(removedItem) && log == old(log)
    {
      settled := captureCount == wdtCount;
      added, addedEntries, removedEntries := [], [], [];
      if settled {
        added, addedEntries, removedEntries := EnumerateComPorts(ports, inventory);
      }
    }

    /**
     * `enumerateComPorts`: append every enumerated name not yet tracked, then
     * remove, walking a snapshot of the list, every port no longer enumerated.
     */
    method EnumerateComPorts(ports: seq<string>, inventory: seq<Device>)
      returns (ghost added: seq<ComPort>, ghost addedEntries: seq<Event>, ghost removedEntries: seq<Event>)
      requires Valid()
      modifies this`comPorts, this`removedItem, this`log
      ensures Valid()
      ensures Reconciled(old(comPorts), old(removedItem), old(log), ports, inventory, added, addedEntries, removedEntries)
      ensures forall k :: 0 <= k < |added| ==> fresh(added[k])
    {
      ghost var before := comPorts;
      added, addedEntries := AddEnumeratedPorts(ports, inventory);
      removedEntries := RemoveMissingPorts(ports);
      ReconciledFrom(before, added, addedEntries, removedEntries, old(removedItem), old(log), ports, inventory);
    }

    /** The facts the two loops establish, put together, are a reconciliation. */
    lemma ReconciledFrom(before: seq<ComPort>, added: seq<ComPort>, addedEntries: seq<Event>, removedEntries: seq<Event>,
                         removedBefore: ComPort?, logBefore: seq<Event>, ports: seq<string>, inventory: seq<Device>)
      requires UniqueNames(before)
      requires Names(added) == Appended(Names(before), ports)
      requires Introduces(addedEntries, Classify(ItemAdded, isDeviceChange).value, added, inventory)
      requires RemoveProgress(before + added, |before + added|, ports, Removed(before + added, ports), removedEntries,
                              removedBefore, logBefore + addedEntries)
      ensures UniqueNames(comPorts)
      ensures Reconciled(before, removedBefore, logBefore, ports, inventory, added, addedEntries, removedEntries)
    {
      PassPartition(before, added, ports);
      var snapshot := before + added;
      assert snapshot[..|snapshot|] == snapshot && snapshot[|snapshot|..] == [];
      assert Retained(snapshot, ports) + [] == Retained(before, ports) + added;
      assert comPorts == Retained(before, ports) + added;
    }

    /** `ComPorts.Add`: append the port, then report ItemAdded at its index. */
    method AddItem(comPort: ComPort, inventory: seq<Device>)
      modifies this`comPorts, this`log, comPort
      ensures comPorts == old(comPorts) + [comPort]
      ensures comPort.Info() == Resolved(old(comPort.Info()), inventory)
      ensures log == old(log) + [Event(Classify(ItemAdded, isDeviceChange).value, comPort.Info())]
    {
      comPorts := comPorts + [comPort];
      OnComPortChanged(ItemAdded, |comPorts| - 1, inventory);
    }

    /**
     * `ComPorts.Remove`: take out the first occurrence of the port and report
     * ItemDeleted; a port that is not in the list changes nothing.
     */
    method RemoveItem(comPort: ComPort)
      requires removedItem != null
      modifies this`comPorts, this`log
      ensures comPort !in old(comPorts) ==> comPorts == old(comPorts) && log == old(log)
      ensures comPort in old(comPorts) ==>
                var k := FirstIndex(old(comPorts), comPort);
                && comPorts == old(comPorts)[..k] + old(comPorts)[k + 1..]
                && log == old(log) + [Event(Classify(ItemDeleted, isDeviceChange).value, removedItem.Info())]
    {
      if comPort in comPorts {
        var index := FirstIndex(comPorts, comPort);
        comPorts := comPorts[..index] + comPorts[index + 1..];
        OnComPortChanged(ItemDeleted, index, []);
      }
    }

    /**
     * The state of the first loop of `enumerateComPorts`: the list is the
     * list it started from followed by the ports it has created, names stay
     * distinct, each created port carries the metadata of its last matching
     * device, and the log gained one ItemAdded entry per created port.
     */
    ghost predicate AddProgress(before: seq<ComPort>, added: seq<ComPort>, entries: seq<Event>,
                                logBefore: seq<Event>, inventory: seq<Device>)
      reads this, added
    {
      && comPorts == before + added
      && UniqueNames(comPorts)
      && log == logBefore + entries
      && Introduces(entries, Classify(ItemAdded, isDeviceChange).value, added, inventory)
    }

    /** The first loop of `enumerateComPorts`; `added` are the ports it creates, `entries` what it logs. */
    method AddEnumeratedPorts(ports: seq<string>, inventory: seq<Device>)
      returns (ghost added: seq<ComPort>, ghost entries: seq<Event>)
      requires Valid()
      modifies this`comPorts, this`log
      ensures Valid()
      ensures AddProgress(old(comPorts), added, entries, old(log), inventory)
      ensures Names(added) == Appended(Names(old(comPorts)), ports)
      ensures forall k :: 0 <= k < |added| ==> fresh(added[k])
    {
      ghost var before := comPorts;
      added, entries := [], [];
      for i := 0 to |ports|
        invariant AddProgress(before, added, entries, old(log), inventory)
        invariant Names(added) == Appended(Names(before), ports[..i])
        invariant forall k :: 0 <= k < |added| ==> fresh(added[k])
      {
        AppendedStep(Names(before), ports, i);
        added, entries := AddIfNew(ports[i], inventory, before, added, entries, old(log));
      }
      assert ports[..|ports|] == ports;
    }

    /**
     * One step of the first loop: a port named `port` is created and added
     * unless the list already has a port of that name.
     */
    method AddIfNew(port: string, inventory: seq<Device>, ghost before: seq<ComPort>, ghost added: seq<ComPort>,
                    ghost entries: seq<Event>, ghost logBefore: seq<Event>)
      returns (ghost added': seq<ComPort>, ghost entries': seq<Event>)
      requires AddProgress(before, added, entries, logBefore, inventory)
      modifies this`comPorts, this`log
      ensures AddProgress(before, added', entries', logBefore, inventory)
      ensures Names(added') == if port in Names(before) || port in Names(added) then Names(added) else Names(added) + [port]
      ensures |added| <= |added'| && added'[..|added|] == added
      ensures forall k :: |added| <= k < |added'| ==> fresh(added'[k])
    {
      added', entries' := added, entries;
      NamesConcat(before, added);
      // `ComPorts.Any(_ => Equals(_.PortName, port))`
      if port !in Names(comPorts) {
        var comPort := new ComPort(port);
        UniqueNamesSnoc(comPorts, comPort);
        AddItem(comPort, inventory);
        AddRecorded(before, added, entries, logBefore, inventory, comPort);
        NamesConcat(added, [comPort]);
        added' := added + [comPort];
        entries' := entries + [Event(Classify(ItemAdded, isDeviceChange).value, comPort.Info())];
        assert added'[..|added|] == added;
      }
    }

    /** The bookkeeping after a port is added: the progress of the first loop includes it. */
    lemma AddRecorded(before: seq<ComPort>, added: seq<ComPort>, entries: seq<Event>, logBefore: seq<Event>,
                      inventory: seq<Device>, comPort: ComPort)
      requires comPorts == before + added + [comPort] && UniqueNames(comPorts)
      requires Introduces(entries, Classify(ItemAdded, isDeviceChange).value, added, inventory)
      requires comPort.Info() == Resolved(PortInfo(Some(comPort.portName), None, None), inventory)
      requires log == logBefore + entries + [Event(Classify(ItemAdded, isDeviceChange).value, comPort.Info())]
      ensures AddProgress(before, added + [comPort],
                          entries + [Event(Classify(ItemAdded, isDeviceChange).value, comPort.Info())],
                          logBefore, inventory)
    {
      var heading := Classify(ItemAdded, isDeviceChange).value;
      AnnouncesSnoc(entries, heading, added, comPort);
      assert comPorts == before + (added + [comPort]);
      assert log == logBefore + (entries + [Event(heading, comPort.Info())]);
    }

    /**
     * The state of the second loop of `enumerateComPorts` after the first `j`
     * entries of the snapshot: those still enumerated are kept in front of
     * the unvisited rest, `gone` are the others, the last of them is
     * `removedItem`, and the log gained one ItemDeleted entry per port gone.
     */
    ghost predicate RemoveProgress(snapshot: seq<ComPort>, j: nat, ports: seq<string>, gone: seq<ComPort>,
                                   entries: seq<Event>, removedBefore: ComPort?, logBefore: seq<Event>)
      reads this, gone
    {
      && j <= |snapshot|
      && comPorts == Retained(snapshot[..j], ports) + snapshot[j..]
      && gone == Removed(snapshot[..j], ports)
      && removedItem == LastOr(gone, removedBefore)
      && log == logBefore + entries
      && Announces(entries, Classify(ItemDeleted, isDeviceChange).value, gone)
    }

    /**
     * The second loop of `enumerateComPorts`: over a snapshot of the list,
     * each port whose name is no longer enumerated becomes `removedItem` and
     * is taken out of the list, which reports the deletion; `entries` is
     * what it logs.
     */
    method RemoveMissingPorts(ports: seq<string>) returns (ghost entries: seq<Event>)
      requires UniqueNames(comPorts)
      modifies this`comPorts, this`removedItem, this`log
      ensures RemoveProgress(old(comPorts), |old(comPorts)|, ports, Removed(old(comPorts), ports), entries,
                             old(removedItem), old(log))
    {
      var snapshot := comPorts;
      ghost var gone := [];
      entries := [];
      assert snapshot[..0] == [];
      for j := 0 to |snapshot|
        invariant RemoveProgress(snapshot, j, ports, gone, entries, old(removedItem), old(log))
      {
        var comPort := snapshot[j];
        if comPort.portName !in ports {
          gone, entries := RemovePort(snapshot, j, ports, gone, entries, old(removedItem), old(log));
        } else {
          KeepPort(snapshot, j, ports, gone, entries, old(removedItem), old(log));
        }
      }
      assert snapshot[..|snapshot|] == snapshot;
    }

    /**
     * The body of the second loop for a port that is no longer enumerated:
     * it becomes `removedItem`, then it is taken out of the list, which
     * reports the deletion.
     */
    method RemovePort(snapshot: seq<ComPort>, j: nat, ports: seq<string>, ghost gone: seq<ComPort>,
                      ghost entries: seq<Event>, ghost removedBefore: ComPort?, ghost logBefore: seq<Event>)
      returns (ghost gone': seq<ComPort>, ghost entries': seq<Event>)
      requires UniqueNames(snapshot) && j < |snapshot| && snapshot[j].portName !in ports
      requires RemoveProgress(snapshot, j, ports, gone, entries, removedBefore, logBefore)
      modifies this`comPorts, this`removedItem, this`log
      ensures RemoveProgress(snapshot, j + 1, ports, gone', entries', removedBefore, logBefore)
    {
      var comPort := snapshot[j];
      removedItem := comPort;
      RemovalStep(snapshot, j, ports, comPorts);
      RemoveItem(comPort);
      gone' := gone + [comPort];
      entries' := entries + [Event(Classify(ItemDeleted, isDeviceChange).value, comPort.Info())];
      RemoveRecorded(snapshot, j, ports, gone, entries, removedBefore, logBefore);
    }

    /** The bookkeeping after a port is removed: the progress of the second loop moves past it. */
    lemma RemoveRecorded(snapshot: seq<ComPort>, j: nat, ports: seq<string>, gone: seq<ComPort>,
                         entries: seq<Event>, removedBefore: ComPort?, logBefore: seq<Event>)
      requires j < |snapshot| && snapshot[j].portName !in ports
      requires gone == Removed(snapshot[..j], ports)
      requires comPorts == Retained(snapshot[..j + 1], ports) + snapshot[j + 1..]
      requires removedItem == snapshot[j]
      requires log == logBefore + entries + [Event(Classify(ItemDeleted, isDeviceChange).value, snapshot[j].Info())]
      requires Announces(entries, Classify(ItemDeleted, isDeviceChange).value, gone)
      ensures RemoveProgress(snapshot, j + 1, ports, gone + [snapshot[j]],
                             entries + [Event(Classify(ItemDeleted, isDeviceChange).value, snapshot[j].Info())],
                             removedBefore, logBefore)
    {
      var heading := Classify(ItemDeleted, isDeviceChange).value;
      PartitionStep(snapshot, j, ports);
      AnnouncesSnoc(entries, heading, gone, snapshot[j]);
      assert log == logBefore + (entries + [Event(heading, snapshot[j].Info())]);
    }

    /** The body of the second loop for a port that is still enumerated: it stays where it is. */
    lemma KeepPort(snapshot: seq<ComPort>, j: nat, ports: seq<string>, gone: seq<ComPort>,
                   entries: seq<Event>, removedBefore: ComPort?, logBefore: seq<Event>)
      requires j < |snapshot| && snapshot[j].portName in ports
      requires RemoveProgress(snapshot, j, ports, gone, entries, removedBefore, logBefore)
      ensures RemoveProgress(snapshot, j + 1, ports, gone, entries, removedBefore, logBefore)
    {
      PartitionStep(snapshot, j, ports);
      var kept := Retained(snapshot[..j], ports);
      assert comPorts == kept + ([snapshot[j]] + snapshot[j + 1..]);
      assert comPorts == (kept + [snapshot[j]]) + snapshot[j + 1..];
    }
  }
}
