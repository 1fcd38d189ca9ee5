# Hot-plug reconciliation of serial ports, modelled in Dafny

`MainForm` keeps a `BindingList<ComPort>` behind a combo box in step with the
serial ports the operating system reports. A `WM_DEVICECHANGE` message bumps
a generation counter and schedules a check 500 ms later. The check enumerates
the ports again, but only if no other message arrived in the meantime. The
enumeration appends a new `ComPort` for every port name not yet tracked and
then, walking a snapshot of the list, removes every port whose name has gone.
The list reports each addition and deletion to `onComPortChanged`. For an
addition, the handler looks the port up in the Plug and Play inventory to
fill in its friendly name and device id. It then writes a heading
("Detected" before the first device-change message, "ItemAdded" or
"ItemDeleted" after it) and the port's full description to the log box.

The model has six modules:

- `Wrappers` holds `Option`, which stands for a C# reference that may be null.
- `ComPorts` holds the `ComPort` class, `PortInfo` (the value of its three
  properties) with `ToString` and `GetFullDescription`, and the Plug and Play
  inventory as a sequence of `Device` records. It also holds the metadata
  loop `ResolveMetadata`, proved against `Resolved`: the last matching
  record wins.
- `Events` holds the list-change kinds, `Classify`, which picks the heading
  for a change, and the log entry `Event`.
- `Registry` holds the list arithmetic of `enumerateComPorts` as functions
  on sequences:
  - `Appended`: the names the first loop adds.
  - `Retained`: the ports the second loop keeps.
  - `Removed`: the ports the second loop removes.

  It also holds the lemmas about them: set equality, distinct names,
  order, and idempotence.
- `Debounce` holds the `int` counter `_wdtCount` with C#'s wrap-around on
  `++`, and the proof that only the last ticket of a burst fires.
- `HotPlug` holds the `MainForm` class. Its fields are the list
  (`comPorts`), `_isDeviceChange`, `_wdtCount` and `_removedItem`, plus
  `log`, the sequence of entries the handler writes. Its methods are the
  imperative code of the form.
  - `EnumerateComPorts` runs the two loops. Each loop is proved against the
    `Registry` functions.
  - `OnComPortChanged` is invoked synchronously by `AddItem` and
    `RemoveItem`, the model's `BindingList.Add` and `Remove`.
  - `EnumerateComPorts` ensures `Reconciled`. That predicate says the list
    is the retained ports followed by the new ones. It also says each new
    port carries the metadata of its last matching device, `removedItem` is
    the last port removed, and the log gained one entry per added port,
    then one per removed port.

The operating system's answers are parameters:

- `ports` is the sequence `SerialPort.GetPortNames()` returns.
- `inventory` is the `Win32_PnPEntity` records, each paired with what the
  registry holds for it.
- `newLine` is `Environment.NewLine`.

Behaviours of the code worth noting:

- The metadata loop does not stop at the first matching device. Each match
  overwrites the properties, so the **last** match in inventory order wins.
- A matching device whose registry key or "FriendlyName" value is missing
  gives the empty string as friendly name (C# interpolation of null), not
  null.
- The "Detected" heading is not tied to the first pass completing. It is
  chosen by `_isDeviceChange`, which becomes true at the first
  `WM_DEVICECHANGE` message and never goes back.
- The generation counter is not monotonic without bound. It is a 32-bit
  `int` whose `++` wraps from `int.MaxValue` to `int.MinValue`. Its tickets
  stay distinct over any 2^32 consecutive messages, so only the last ticket
  of a burst fires (`OnlyLastTicketFires`).
- The code has no handler for a failed enumeration: the exception escapes
  and the list is left untouched.

## Model

| member | source | states |
|---|---|---|
| ComPorts.PortInfo.ToString | combo-box-enumerate-com-ports/MainForm.cs:139 | The port name when it is set, "None" when it is null |
| ComPorts.PortInfo.GetFullDescription | combo-box-enumerate-com-ports/MainForm.cs:140-148 | The description is the port name, friendly name, the caption "PnpDeviceId: " and the device id on one line each (null printing as empty), then two line breaks; its length is the parts' lengths plus five line breaks |
| ComPorts.JoinFour | combo-box-enumerate-com-ports/MainForm.cs:147 | `string.Join` of four values puts the separator between each neighbouring pair and nowhere else |
| ComPorts.Join | combo-box-enumerate-com-ports/MainForm.cs:147 | `string.Join` of the values with the separator between neighbours; whatever follows, the result begins with the first value (`JoinFour` gives the whole text for four values) |
| ComPorts.ComPort.constructor | combo-box-enumerate-com-ports/MainForm.cs:120 | A new port has the enumerated name and no friendly name or device id |
| ComPorts.Matches | combo-box-enumerate-com-ports/MainForm.cs:46-57 | A record matches a port when it has a device id and its configured "PortName" equals the port's name; a record matching anything has a configured name, so a port without a name matches no record |
| ComPorts.LastMatch | combo-box-enumerate-com-ports/MainForm.cs:44-63 | Finds a record that has a device id and is configured for the port name, with no matching record after it; None exactly when no record matches |
| ComPorts.Resolved | combo-box-enumerate-com-ports/MainForm.cs:44-63 | The lookup never changes the port name |
| ComPorts.ResolvedByLastMatch | combo-box-enumerate-com-ports/MainForm.cs:44-63 | With no matching record the properties stay as they were; otherwise the last matching record alone gives the friendly name (as text) and the device id |
| ComPorts.ResolvedStep | combo-box-enumerate-com-ports/MainForm.cs:44-63 | Visiting one more record: a match overwrites both properties, a non-match leaves them |
| ComPorts.ResolveMetadata | combo-box-enumerate-com-ports/MainForm.cs:44-67 | The loop over the inventory leaves the port with exactly the properties `Resolved` gives, i.e. those of the last matching record |
| Events.Classify | combo-box-enumerate-com-ports/MainForm.cs:73-88 | A heading is produced exactly for ItemAdded and ItemDeleted; it is "Detected" exactly when no device-change message has arrived, and otherwise the change kind itself |
| Events.AnnouncesSnoc | combo-box-enumerate-com-ports/MainForm.cs:75-90 | Writing one more port's description under a heading extends the entries for the ports written so far by that port |
| Debounce.Wrap | combo-box-enumerate-com-ports/MainForm.cs:94 | The result is a 32-bit value congruent to the input modulo 2^32 |
| Debounce.Increment | combo-box-enumerate-com-ports/MainForm.cs:100 | `++` on an int stays in range, equals the wrapped successor, and is larger than the old value unless that was int.MaxValue |
| Debounce.Advance | combo-box-enumerate-com-ports/MainForm.cs:100 | Any number of increments stays a 32-bit value |
| Debounce.WrapIdentity | combo-box-enumerate-com-ports/MainForm.cs:94 | Wrapping a 32-bit value leaves it unchanged |
| Debounce.WrapStep | combo-box-enumerate-com-ports/MainForm.cs:100 | Wrapping before adding one gives the same 32-bit value as wrapping after |
| Debounce.AdvanceWraps | combo-box-enumerate-com-ports/MainForm.cs:100 | k increments add k modulo 2^32 |
| Debounce.AdvanceAdd | combo-box-enumerate-com-ports/MainForm.cs:100 | a increments followed by b increments are a+b increments |
| Debounce.WrapInjective | combo-box-enumerate-com-ports/MainForm.cs:94 | Two integers wrap to the same 32-bit value exactly when they differ by a multiple of 2^32 |
| Debounce.TicketSuperseded | combo-box-enumerate-com-ports/MainForm.cs:106 | After between 1 and 2^32-1 further messages, the counter no longer equals a captured ticket |
| Debounce.OnlyLastTicketFires | combo-box-enumerate-com-ports/MainForm.cs:99-110 | In a burst of at most 2^32 messages, the delayed check finds its ticket current exactly for the last message |
| Registry.UniqueNamesAsNames | combo-box-enumerate-com-ports/MainForm.cs:118 | Distinct names of a port list are the same as a duplicate-free list of names |
| Registry.UniqueNamesSnoc | combo-box-enumerate-com-ports/MainForm.cs:118-120 | A port can be appended keeping names distinct exactly when its name is not yet in the list |
| Registry.FirstIndex | combo-box-enumerate-com-ports/MainForm.cs:128 | `IndexOf` finds the element at a position with no earlier occurrence |
| Registry.PartitionStep | combo-box-enumerate-com-ports/MainForm.cs:123-129 | One step of the removal walk: the entry joins the kept ports when its name is enumerated and the removed ports otherwise |
| Registry.Appended | combo-box-enumerate-com-ports/MainForm.cs:116-122 | The names the first loop adds, in enumeration order: at most one per enumerated name, and only enumerated names not yet tracked |
| Registry.Retained | combo-box-enumerate-com-ports/MainForm.cs:123-130 | The ports the second loop keeps, in list order; never more than the list holds |
| Registry.Removed | combo-box-enumerate-com-ports/MainForm.cs:123-130 | The ports the second loop removes, in list order; together with the kept ports they account for every tracked port |
| Registry.AppendedMembers | combo-box-enumerate-com-ports/MainForm.cs:116-122 | A name is appended exactly when it is enumerated and not tracked |
| Registry.AppendedNothing | combo-box-enumerate-com-ports/MainForm.cs:116-122 | When every enumerated name is tracked, nothing is appended |
| Registry.AppendedStep | combo-box-enumerate-com-ports/MainForm.cs:116-122 | One step of the first loop: the name is appended unless it is already tracked or already appended |
| Registry.AppendedNoDuplicates | combo-box-enumerate-com-ports/MainForm.cs:116-122 | No name is appended twice, even when the enumeration repeats it |
| Registry.AppendedInFirstSeenOrder | combo-box-enumerate-com-ports/MainForm.cs:116-122 | Appended names come in the order of their first occurrence in the enumeration |
| Registry.PartitionMembers | combo-box-enumerate-com-ports/MainForm.cs:123-130 | The kept ports are the tracked ports whose name is enumerated, the removed ones those whose name is not |
| Registry.PartitionKeepsOrder | combo-box-enumerate-com-ports/MainForm.cs:123-130 | Kept ports, and removed ports, are subsequences of the snapshot: their relative order never changes |
| Registry.RetainedNames | combo-box-enumerate-com-ports/MainForm.cs:123-130 | The kept names are the tracked names that are still enumerated |
| Registry.RetainedUnique | combo-box-enumerate-com-ports/MainForm.cs:123-130 | Removing ports keeps the remaining names distinct |
| Registry.PartitionAppend | combo-box-enumerate-com-ports/MainForm.cs:116-130 | Ports appended with enumerated names are all kept by the removal walk, and it removes the same ports as without them |
| Registry.ReconciledNames | combo-box-enumerate-com-ports/MainForm.cs:115-130 | After a pass the set of tracked names equals the set of enumerated names |
| Registry.ReconciledUnique | combo-box-enumerate-com-ports/MainForm.cs:116-130 | After a pass no two tracked ports share a name, even when the enumeration has duplicates |
| Registry.PassPartition | combo-box-enumerate-com-ports/MainForm.cs:116-130 | The removal walk over the list the first loop leaves keeps the old kept ports followed by all new ports, removes only old ports, and names stay distinct |
| Registry.EnumeratedFixedPoint | combo-box-enumerate-com-ports/MainForm.cs:118-125 | A list whose names are exactly the enumerated ones is left alone by a pass: nothing appended, kept or removed changes |
| Registry.ReconcileIdempotent | combo-box-enumerate-com-ports/MainForm.cs:115-130 | A second pass over the same enumeration appends nothing, keeps every port and removes none |
| Registry.RemovalStep | combo-box-enumerate-com-ports/MainForm.cs:123-128 | With distinct names, a port being removed is found by `Remove` just after the ports kept so far, and taking it out leaves the kept ports followed by the unvisited rest |
| HotPlug.MainForm.constructor | combo-box-enumerate-com-ports/MainForm.cs:21-95 | The form starts with an empty list, no device change seen, counter 0, no removed port and an empty log |
| HotPlug.MainForm.ReconciledIsStable | combo-box-enumerate-com-ports/MainForm.cs:115-130 | After a pass the tracked names are exactly the enumerated names, and a second pass over them would append, remove and log nothing and leave `_removedItem` as it is |
| HotPlug.MainForm.OnComPortChanged | combo-box-enumerate-com-ports/MainForm.cs:34-92 | An addition resolves the new port's metadata and logs it under the heading; a deletion logs `_removedItem`; other kinds log nothing |
| HotPlug.MainForm.OnDeviceChange | combo-box-enumerate-com-ports/MainForm.cs:97-100 | Sets the device-change flag, increments the counter with wrap-around and returns the new value as the ticket |
| HotPlug.MainForm.DeviceChangeBurst | combo-box-enumerate-com-ports/MainForm.cs:97-110 | A burst of n messages sets the flag (when n > 0), advances the counter n times with wrap-around and captures the tickets `Tickets` gives; for n up to 2^32 only the last ticket equals the final counter, so only the last delayed check enumerates |
| HotPlug.MainForm.OnDelayCompleted | combo-box-enumerate-com-ports/MainForm.cs:104-110 | The ports are reconciled exactly when the ticket equals the counter; otherwise nothing changes |
| HotPlug.MainForm.EnumerateComPorts | combo-box-enumerate-com-ports/MainForm.cs:113-130 | The pass leaves kept ports in their order followed by new, distinct, freshly created ports in first-seen order with resolved metadata; `_removedItem` is the last port removed; the log gains the additions then the removals; names stay distinct |
| HotPlug.MainForm.ReconciledFrom | combo-box-enumerate-com-ports/MainForm.cs:113-130 | What the two loops establish amounts to a reconciliation with distinct names |
| HotPlug.MainForm.AddItem | combo-box-enumerate-com-ports/MainForm.cs:120 | `Add` appends the port, resolves its metadata and logs it as added |
| HotPlug.MainForm.RemoveItem | combo-box-enumerate-com-ports/MainForm.cs:128 | `Remove` takes out the first occurrence and logs `_removedItem` as deleted; a port not in the list changes nothing |
| HotPlug.MainForm.AddEnumeratedPorts | combo-box-enumerate-com-ports/MainForm.cs:116-122 | The first loop appends fresh ports named by `Appended`, each with resolved metadata and logged, keeping names distinct |
| HotPlug.MainForm.AddIfNew | combo-box-enumerate-com-ports/MainForm.cs:118-121 | A port is created and added exactly when no tracked port has the name |
| HotPlug.MainForm.AddRecorded | combo-box-enumerate-com-ports/MainForm.cs:120 | After an addition the list, the created ports and the log of the first loop account for the new port, with its resolved metadata and distinct name |
| HotPlug.MainForm.RemoveMissingPorts | combo-box-enumerate-com-ports/MainForm.cs:123-130 | The walk over the snapshot leaves the kept ports, removes the others in list order, ends with `_removedItem` the last one removed, and logs each removal |
| HotPlug.MainForm.RemovePort | combo-box-enumerate-com-ports/MainForm.cs:125-129 | A port no longer enumerated becomes `_removedItem`, is taken out and logged, and the walk moves past it |
| HotPlug.MainForm.RemoveRecorded | combo-box-enumerate-com-ports/MainForm.cs:127-128 | After a removal the kept, removed and logged ports of the walk account for the port |
| HotPlug.MainForm.KeepPort | combo-box-enumerate-com-ports/MainForm.cs:125 | A port still enumerated stays in place and the walk moves past it |

## Left out

- The `WndProc` override and the `WM_DEVICECHANGE` constant (MainForm.cs:12-20). Each message is one call to `OnDeviceChange`.
- `Task.Delay(500 ms)` and the `OnCompleted` scheduling (MainForm.cs:101-104). The delayed callback is an explicit call to `OnDelayCompleted` with the captured ticket; time is not modelled.
- `SerialPort.GetPortNames()`, the `Win32_PnPEntity` query and the `Registry.LocalMachine` lookups (MainForm.cs:42-60, 115). Their results are the `ports` and `inventory` parameters.
  - A `Device` record carries the device id, the "PortName" value of its "Device Parameters" key (None when the key or the value is absent), and its "FriendlyName" value (None when absent).
  - A "PortName" value that is not a string is not modelled.
- The Plug and Play inventory and the registry are one fixed `inventory` for a whole pass. The code queries WMI and the registry afresh inside each `Add` (MainForm.cs:42-60), so a device that changes during a pass can give different ports different snapshots.
- Exceptions are not modelled. `SerialPort.GetPortNames()` can throw (MainForm.cs:115), which ends the pass before any change. A WMI or registry exception inside the handler escapes `ComPorts.Add` (MainForm.cs:120) after the port has been inserted: that port keeps whatever the records visited before the exception gave it (nothing if none matched yet), its log entry is never written, and neither the rest of the first loop nor the removal loop runs. The model's passes always complete.
- The user interface: the combo box, the log box's colours and `Clear` (MainForm.cs:26-28, 36, 79-89), `BeginInvoke` marshalling and `ActiveControl` (MainForm.cs:75, 131).
  - The log is the sequence of (heading, port) entries in the order they are written; the text written for an entry is the heading and `GetFullDescription` of the port.
  - `BeginInvoke` defers the write; the model writes at once, reading `_isDeviceChange` and the port's properties when the event is handled.
- `OnLoad` (MainForm.cs:23-31). It wires the list to the combo box and the handler, then calls `enumerateComPorts` once. That first pass is `EnumerateComPorts` on a freshly constructed form.
- `BindingList` events other than the synchronous ItemAdded and ItemDeleted notifications from `Add` and `Remove`.
- `ComPort.PortName` is a `const` set at creation. The code only ever sets it from an enumerated name and never changes it, so a tracked port never has a null name; `PortInfo.ToString` still covers the null case.
- HotPlug.MainForm.OnComPortChanged: requires `_removedItem` to be set for a deletion (the source's `_removedItem!`), since every removal sets it first; with null the source writes the heading and no description.
- HotPlug.MainForm.EnumerateComPorts: retained ports keeping their identity and metadata is stated by its `modifies` clause (only the form's list, `_removedItem` and log fields), not by a separate `ensures`.
