# maco: protocols that must survive partial failure, in Dafny

maco manages virtual machines on macOS: it runs QEMU, wires its network interfaces, gives it USB devices, and backs up
its disks. Its hard code is a set of small protocols, each of which acts on processes, interfaces and files one step at a
time, where any step can fail, fail with unknown effect, or be the last one before maco crashes. This project models
those protocols and proves what they promise.

`dafny verify dfyconfig.toml` checks everything.

| files | what is modelled |
|---|---|
| `Wire.dfy`, `FramePump.dfy` | the layer-2 helper: QEMU's length-prefixed stream to BPF records and back |
| `HotplugHost.dfy`, `Hotplug.dfy`, `NicEngine.dfy` | changing the interfaces of a running VM under a journal, with starts, stops and crashes |
| `UsbHost.dfy`, `UsbRegistry.dfy` | the registry of USB claims that several engines share |
| `NetHost.dfy`, `NetStore.dfy`, `NetReconcile.dfy`, `NetTeardown.dfy`, `NetEngine.dfy` | bringing bridges and VLANs to what a manifest asks for, and taking them down |
| `BackupHost.dfy`, `Backup.dfy` | the live backup: freeze, transaction, thaw, wait, cancel |
| `Jobs.dfy` | running jobs once, with a lease in Redis |
| `Notifications.dfy`, `DataDisk.dfy`, `BootOrder.dfy`, `FreshName.dfy` | four smaller machines |

## How the models work

**The environment is scripted.** Each protocol acts on a `Host` object (for the pump, a `Client` and a `Port`): QEMU, the
host's interfaces, sockets, saved files. A host holds a list of replies and events that decides how every command ends:
done, rejected with no effect, failed with unknown effect, or maco crashes in the middle of it; and what happens in
between: QEMU dies, a device is unplugged, a job concludes. What is proved for every script holds for every pattern of
failures. After a crash the host takes no more commands until `Revive`, which starts the next maco process; methods named
`Run` take a list of operations with one script each, so they speak of every history. The methods of the hosts are the
assumptions about the environment; the methods of the other classes follow the source.

**Failures must be explained.** Where a method returns `!ok`, its contract says why: some command did not succeed (the
host counts `faults`, or has failed), or one of the reasons it lists. For interfaces of a VM the host counts apart which
commands had an unknown effect, which were refused, and of those which attach, detach or clean up; an uncertain outcome
must have its own reason. A body that gives up for no reason does not verify.

**What is undone must be undone.** The hosts count as `lost` the commands whose effect is unknown. Where the source
compensates for a failure (destroys an interface it cannot record, withdraws a claim, renames a file back, takes a network
down again), the contract says what is there after one command failed without effect: a body that leaves the compensation
out does not verify.

**Destructive commands have preconditions.** `NetHost.Host.Destroy` may only be called on a device that was created for
that network, `BackupHost.Host.RemoveStaging` only when no job can write there, `DataDisk.Host.Delete` only when no
backend has the file open; and while a network is created, none of the commands of `NetHost.Host` may take away what was
on the host before. That every call meets them is part of the proof.

**Loops of the source are loops here.** A loop of the source that waits becomes a loop with a bound `patience`; the bound
is a parameter, so the results hold for every bound.

## What the environment is assumed to do

- A manifest is renamed into place whole, but a save can report an error after that (pkg/storage/files.go:107-115).
  Networks, USB claims and job records need no more. For interfaces and data disks the property fails in exactly that
  case: `NicEngine.LateSaveLosesSync` and `DataDisk.LateSaveLosesDisk` exhibit it, and it is named in each contract.
- The pid file of a QEMU is replaced or removed only after that QEMU died, and QMP requests take effect in order.
- Spawning QEMU and recording its pid is one step: a crash between the two would leave a QEMU that nothing knows of.
- A failed write or removal of the hotplug journal has no effect.
- `Driver.Status` says stopped when it cannot read the pid file of a QEMU that runs, or cannot look at its process
  (pkg/vm/driver.go:199-212). A USB detach then gives up a claim too early; `UsbRegistry.Engine.DetachDevice` says exactly
  when that harms, and `UsbRegistry.Run` makes its one exception for it. Elsewhere Status is taken to be right.
- The name of a network device that maco created is not used again for another device. The name of one that it did not
  create may be; `NetReconcile.RenamedIsLost` is about that.
- Setting an IP address that an interface already has, with another mask, changes nothing (the "File exists" case).
- The guest does not thaw its file systems by itself; QEMU block jobs write only to their own targets.
- QEMU decodes a batch of BPF records as the helper decodes a capture buffer. A BPF header is 20 bytes, little-endian,
  with records aligned to 4 bytes and 18 bytes needed to read it, as in macOS's `<net/bpf.h>`.

## Model

| member | source | states |
|---|---|---|
| Wire.BigEndianRoundTrip | pkg/l2/native/helper.c:181-183 | A length up to 32 bits survives htonl and ntohl. |
| Wire.BigEndianUnique | pkg/l2/native/helper.c:181-183 | Four bytes are the encoding of the one length they decode to. |
| Wire.BigEndianOrder | pkg/l2/native/helper.c:181-183 | Network byte order: one length is smaller than another if and only if the first byte in which their encodings differ is. |
| Wire.LittleIsBigBackwards | pkg/l2/native/helper.c:190-206 | The byte order of the header fields that the helper copies is that of the host, network order backwards. |
| Wire.TimeStampIgnored | pkg/l2/native/helper.c:228-238 | What a BPF header says does not depend on its first eight bytes, the time stamp. |
| Wire.ParseIsInverse | pkg/l2/native/helper.c:180-208 | Whatever bytes are parsed, the frames found, encoded again, and the rest are those bytes; every frame has a length from 14 bytes to the maximum. |
| Wire.ParseRestIsShort | pkg/l2/native/helper.c:186-212 | What is left of a well-formed stream is less than one frame, at most 16387 bytes. |
| Wire.ParseEncoded | pkg/l2/native/helper.c:180-208 | Parsing encoded frames followed by anything gives those frames and then the parse of the rest. |
| Wire.ParseResumes | pkg/l2/native/helper.c:176-213 | Parsing can stop at any byte and go on from what was left over. |
| Wire.MalformedIsFinal | pkg/l2/native/helper.c:184-187 | Once a length is invalid, further bytes change neither the verdict nor the frames before it. |
| Wire.CapturedFramesAreValid | pkg/l2/native/helper.c:228-238 | A capture buffer yields only frames of legal length, also when it is malformed. |
| Wire.CaptureEncoded | pkg/l2/native/helper.c:190-206 | Decoding packed, aligned records yields exactly the frames packed. |
| Wire.EncodeRecordsPush | pkg/l2/native/helper.c:202-206 | Packing one more frame appends its record, header and padding included. |
| FramePump.CaptureOfRecords | pkg/l2/native/helper.c:138-157 | What the kernel makes of one batch write is the frames packed into it. |
| FramePump.Pump.WriteAll | pkg/l2/native/helper.c:140-144 | An interrupted write is repeated and puts nothing on the wire twice. |
| FramePump.Pump.Inject | pkg/l2/native/helper.c:135-161 | In batch mode and in the per-frame fallback alike, success puts exactly the packed frames on the wire and adds their number to the counter; failure puts a prefix of them, and only a failing device fails it. |
| FramePump.Pump.InjectEach | pkg/l2/native/helper.c:146-157 | Walking the records by their headers writes each frame once, in order. |
| FramePump.Pump.Pack | pkg/l2/native/helper.c:190-206 | The injection buffer holds the encoding of the frames packed so far, and one more after it. |
| FramePump.Pump.ParseBuffer | pkg/l2/native/helper.c:178-213 | One pass over the buffer injects the frames completed in it, in order, across flushes of the full injection buffer, and moves the unparsed rest to the front; for a malformed stream the frames on the wire are a prefix of the valid ones. |
| FramePump.Pump.StreamToBpf | pkg/l2/native/helper.c:163-214 | After any reads of any sizes the frames on the wire are those of everything received, the buffer holds exactly the bytes behind them, at most 16387, so that no read asks for nothing; malformed and truncated streams end the helper, and it ends for no other reason but a failing descriptor. Each call reads once: what is on offer, as far as it fits behind the bytes that wait, is received, and the rest stays on offer. |
| FramePump.Pump.WritevAll | pkg/l2/native/helper.c:115-133 | However few bytes each writev takes, success writes the whole scatter list once and in order; failure a prefix, and only if a write was refused. |
| FramePump.Pump.Consume | pkg/l2/native/helper.c:122-130 | Dropping bytes written from the scatter list leaves exactly the bytes not yet written. |
| FramePump.Pump.TakeRecord | pkg/l2/native/helper.c:228-246 | A valid record is queued behind those before it; an invalid or truncated one is what makes the whole capture invalid. |
| FramePump.QueueIsStream | pkg/l2/native/helper.c:240-245 | The scatter list of queued frames gathers to their length-prefixed encoding. |
| FramePump.Pump.ForwardBuffer | pkg/l2/native/helper.c:222-255 | A valid capture buffer is written out in full, across groups of 64 frames, none left behind; of an invalid one, exactly the whole groups before the bad record. |
| FramePump.Pump.BpfToStream | pkg/l2/native/helper.c:216-256 | What is on the stream is the length-prefixed encoding of every frame captured so far, in order, and the counter is their number; it stops only for a failing device, a refused write or an invalid capture. Each call takes the next capture on offer, if there is one. |
| FramePump.Service | pkg/l2/native/helper.c:310-320 | One round of the event loop reads each side that is readable, once, keeps both directions exact, and exits with success only when the client closed the stream between frames; any other exit has a cause: a partial frame counts only at the end of the stream. |
| FramePump.RunLoop | pkg/l2/native/helper.c:322-371 | For every list of polls and every answer of the descriptors: no byte on offer is lost; as long as the helper runs, every readable poll was served, and if each chunk on offer fits into one read, the frames sent are those of the concatenation of as many chunks as there were readable polls; the stream has the frames of as many captures. Only frames received are sent, only frames captured forwarded; exit code 0 means everything received and captured was passed on; any other exit has a cause, and a poll that fails ends it. |
| FramePump.ForwardedIsReadBack | pkg/l2/native/helper.c:163-256 | What one direction writes, the other direction parses back to the frames that were captured. |
| FramePump.ChunkingDoesNotMatter | pkg/l2/native/helper.c:163-214 | Reassembly from reads gives the same frames, verdict and rest for every way of cutting the same bytes. |
| Hotplug.Driver.StopOwnHelper | pkg/vm/network_hotplug.go:186-191 | Only a bridge interface has a helper to stop; success means it is gone. |
| Hotplug.Driver.Attach | pkg/vm/network_hotplug.go:180-226 | For every pattern of replies: attached in full, or a definite error and nothing there, or uncertain. It is uncertain only if a command had an unknown effect or one that cleans up was refused, and definite only if one was refused besides. |
| Hotplug.Driver.Detach | pkg/vm/network_hotplug.go:228-273 | For every pattern of replies and events: gone in full, or a definite error and everything as before, or uncertain. It is uncertain only if a command had an unknown effect or one that cleans up was refused, and definite only if the guest or QEMU resisted; a guest that is busy is asked again. |
| Hotplug.Driver.Clear | pkg/vm/network_hotplug.go:139-147 | The journal goes exactly when the outcome is certain; if it cannot go, the outcome is uncertain. |
| Hotplug.Driver.Rollback | pkg/vm/network_hotplug.go:153-160 | A definite outcome means the original interface is back and the journal gone. |
| Hotplug.Driver.Apply | pkg/vm/network_hotplug.go:148-177 | Under the journal: the whole change, nothing of it, or the journal is still there, at every return and at every crash. Uncertain needs a reason: a command with an unknown effect, a cleanup that was refused, or a rollback that was refused after the change was, or could not even be asked for. |
| Hotplug.Driver.ChangeInterface | pkg/vm/network_hotplug.go:95-178 | The trichotomy: success means the interface, backend and helper are as asked, the manifest saved and the journal gone; a definite error means live state and manifest as before; an uncertain one means the journal is on disk. Wherever maco crashes, a VM without a journal has all of the change or none. On a host where every command works it succeeds. If no journal was there before, an uncertain outcome means that a command had an unknown effect, that one that cleans up was refused, or that attaching was refused twice, once the change and once the rollback; an addition is never uncertain for a refusal alone. A VM that does not run gets neither a change nor a journal. |
| NicEngine.Engine.NormalizedInterfaces | pkg/engine/vm_interfaces.go:36-77 | It accepts a list exactly if it can be normalized: valid distinct IDs, distinct unicast MACs, known networks, at most 32. |
| NicEngine.NormalAccepts | pkg/engine/vm_interfaces.go:42-73 | One interface is acceptable exactly if its ID is net0 to net31, its MAC, given or derived, a unicast one of 48 bits, and its network built in, or in the store and not a VLAN. |
| NicEngine.Engine.NormalizedIsUnique | pkg/engine/vm_interfaces.go:36-77 | A list has one normal form. |
| NicEngine.NormalizedKeepsSlots | pkg/engine/vm_interfaces.go:48-73 | Normalizing changes nothing about what must be live. |
| NicEngine.NormalIsLive | pkg/engine/vm_interfaces.go:36-77 | What a normalized list has for an ID is what QEMU must have there: the MAC given, the backend of that name or the network referred to, a helper and no offloads exactly on a bridge. |
| NicEngine.Engine.FirstFree | pkg/engine/vm_interfaces.go:118-132 | An added interface gets the lowest unused of 32 IDs. |
| NicEngine.Engine.Edit | pkg/engine/vm_interfaces.go:114-156 | An add, update or removal edits one interface of the list; an add is refused exactly if all 32 IDs are taken, the others exactly if there is no such interface. |
| NicEngine.EditKeepsOthers | pkg/engine/vm_interfaces.go:114-156 | An edit changes what must be live at the edited ID only. |
| NicEngine.Engine.EditedSlots | pkg/engine/vm_interfaces.go:105-168 | Filling in defaults, editing and normalizing together change what must be live at one ID only, so that one interface change is enough. |
| NicEngine.Engine.Commit | pkg/engine/vm_interfaces.go:169-217 | Saving the edited list, through the transaction if the VM runs, keeps VM and manifest in step; after a definite error they are in step if and only if the old manifest was kept or the new one asks for the same live interface. On a host where every command works, it succeeds if the VM is stopped, or no change is pending and QEMU can be asked for the interface before and after. An interface whose network cannot be used is not touched, and one that stays the same is only saved. |
| NicEngine.Engine.ManageInterface | pkg/engine/vm_interfaces.go:82-217 | Every edit keeps a VM without a journal in step with its manifest; success means the manifest is the normalized edit, a definite error that it is as before, an uncertain one that a journal exists. On a host where every command works, every edit that can be made and normalized is made. An uncertain outcome has the reasons named for the transaction, and a change that is pending is left alone. |
| NicEngine.Engine.StopNetworkHelpers | pkg/vm/driver.go:353-375 | The journal is dropped only after every helper has stopped; it fails exactly if a helper or the journal could not be removed. |
| NicEngine.Engine.StartHelpers | pkg/vm/driver.go:89-112 | Success means exactly the bridge interfaces have helpers, each for its bridge. If one cannot be started, or an interface is incomplete, none is left, unless one cannot be stopped. |
| NicEngine.Engine.Start | pkg/vm/driver.go:48-143 | A started VM has exactly the interfaces of its manifest and no journal; on a host that works every startable manifest starts. One that cannot be started is not tried, and a start that failed leaves no helper behind, unless one cannot be stopped. |
| NicEngine.Engine.Stop | pkg/vm/driver.go:153-197 | The journal is dropped only when QEMU and its helpers are gone. It fails only if QEMU withstands every way there is to stop it, or its helpers do. |
| NicEngine.Engine.ChangeNetwork | pkg/engine/network.go:189-209 | A network is changed or removed exactly if it is in the store and neither a running VM nor an unfinished change of its interfaces refers to it by ID or name; then every reference of that VM resolves to what it did. |
| NicEngine.Engine.AddNetwork | pkg/engine/network.go:38-84 | A network that is new to the store changes nothing that a running VM refers to. |
| NicEngine.Run | pkg/engine/vm_interfaces.go:82-217 | Over every history of edits, starts, stops, network changes, QEMU exits and unplugs, each cut short anywhere by a crash: a running VM without a journal has the live interfaces its saved manifest says. |
| NicEngine.Recover | pkg/vm/driver.go:48-197 | After any uncertain change, stopping and starting the VM on a host that works ends in step with the manifest and without a journal. |
| NicEngine.LateSaveLosesSync | pkg/storage/files.go:107-115 | A save that reports an error after its rename leaves a running VM out of step without a journal. |
| UsbHost.Exclusive | pkg/engine/usb.go:182 | If every captured port has a claim and claims share no port, no port is captured twice. |
| UsbRegistry.Engine.Check | pkg/engine/usb.go:114-133 | A claim is dropped only if its QEMU certainly no longer has the device; without failures it is kept only if QEMU has it, and shown as attached. Attached or missing means that QEMU was seen to have the device. |
| UsbRegistry.Engine.Reconcile | pkg/engine/usb.go:112-136 | Reconciling keeps the claims reliable: they still cover every capture, on distinct ports; nothing but states changes in those kept, none is left as attaching, and without failures only devices still held are kept, and shown as attached. |
| UsbRegistry.Engine.DetachFromQemu | pkg/vm/usb.go:118-157 | Success means QEMU was seen without the device; it fails only if QEMU does not run or something went wrong. |
| UsbRegistry.Engine.AttachToQemu | pkg/vm/usb.go:89-114 | For a device that a saved claim covers, at most that capture is added, whatever happens. Success means that QEMU was seen to have it; a wait is given up only if something else went wrong too. |
| UsbRegistry.Engine.PortFree | pkg/engine/usb.go:265-269 | A port is free exactly if no claim is on it. |
| UsbRegistry.Engine.Capturing | pkg/engine/usb.go:276-303 | The claim is saved before the device is captured; without faults, success means that the run of QEMU has the capture and the claim is saved as attached behind the others. After one failed command without unknown effect, nothing more is captured, or the confirmed device is, under its saved claim. Any failure leaves the registry safe. |
| UsbRegistry.Engine.Withdraw | pkg/engine/usb.go:281-301 | After a failed capture the claim is given up only if QEMU has let the device go; if QEMU runs and nothing goes wrong, it is given up. A claim that has to stay is marked as of unknown state if the capture had failed. |
| UsbRegistry.Engine.Conclude | pkg/engine/usb.go:281-303 | A capture that failed or is another device is given up, with its claim; one that is confirmed stays. |
| UsbRegistry.Engine.AttachDevice | pkg/engine/usb.go:241-304 | Success means a saved claim for this VM and run of QEMU, on a port that no other claim has, and without faults that QEMU has captured it. Failure means a fault, a VM that is not running, no such device, a device that changed, or a port that is claimed, without faults for a device that is held. After one failed command without unknown effect there is no capture and no claim more than before, or the confirmed device under its claim; a VM that does not run changes nothing. |
| UsbRegistry.Engine.LetGo | pkg/engine/usb.go:548-556 | A device counts as released only when its run of QEMU is dead or has let it go, or is misread as stopped. |
| UsbRegistry.Engine.GiveUp | pkg/engine/usb.go:540-561 | After giving up a claim, also if the save fails or fails late, the registry is safe if and only if the claim is still saved or its device is released. |
| UsbRegistry.Engine.Dropped | pkg/engine/usb.go:112-136 | Without one claim, the others cover every capture if and only if its device is released. |
| UsbRegistry.Engine.DetachDevice | pkg/engine/usb.go:523-561 | Success removes exactly the first claim with the ID. Afterwards the registry is safe if and only if no claim was given up whose device its run of QEMU still has, which takes a QEMU misread as stopped; without faults it fails only if that claim is not this VM's. |
| UsbRegistry.Engine.Select | pkg/engine/usb.go:478-492 | A key names an assignment exactly if just one fits, and the rest keep their order. |
| UsbRegistry.Engine.Surrender | pkg/engine/usb.go:494-507 | Success means that the saved claims are exactly those that do not fit the assignment for this VM. |
| UsbRegistry.Engine.Unassign | pkg/engine/usb.go:459-510 | Success removes the one assignment the key names and every claim held for it. |
| UsbRegistry.Engine.Refresh | pkg/engine/usb.go:152-160 | Listing reconciles and saves, and keeps the registry safe: without failures the saved claims are those of devices still held. |
| UsbRegistry.Run | pkg/engine/usb.go:241-561 | Over every run of attaches, detaches, unassignments and listings by successive engines, with crashes, failed and late saves, QEMU dying and starting and pid files removed at any time, no USB port is ever captured twice. The claims fail to cover the captures exactly after a detach that gave up a claim although its QEMU, misread as stopped, still has the device; there the run ends. |
| UsbRegistry.MisreadLosesClaim | pkg/vm/driver.go:199-212 | Such a detach is possible in every state in which the device is captured and its QEMU runs: Status fails once, and every other command succeeds. |
| NetHost.Host.Configure | pkg/hostnet/hostnet.go:219-236 | Success means the interface has that parent and tag; an interface with another configuration is refused. |
| NetHost.Host.Find | pkg/hostnet/hostnet.go:256-278 | It finds an interface with the parent and tag exactly if there is one. |
| NetHost.Host.Destroy | pkg/hostnet/hostnet.go:120-123 | It may only be asked for a device created for the network that asks, and while that network is created only for one made since. |
| NetHost.Host.Save | pkg/network/store.go:46-64 | It may only be given a manifest that passes the check, so every save that apply makes passes it. |
| NetStore.Check | pkg/network/store.go:144-267 | The check with its loops and seen-sets accepts exactly the manifests the reconciler relies on: modes with their fields, members and VLANs without duplicates, VLAN interfaces only as applied. |
| NetStore.CheckMembers | pkg/network/store.go:220-227 | Accepted exactly if there is no duplicate and the bridge is not its own member. |
| NetStore.CheckKeys | pkg/network/store.go:229-237 | Accepted exactly if no two VLANs share parent and tag. |
| NetStore.CheckApplied | pkg/network/store.go:199-218 | Accepted exactly if applied VLANs name VLAN interfaces and a VLAN has an interface only as applied. |
| NetReconcile.ResolveVlan | pkg/network/vlan.go:17-55 | The interface returned has the parent and tag; it is owned only if it was, or was made because there was none; no other interface changes, and an interface configured already stays. It fails only for a fault, or if the recorded interface has another configuration or the parent is missing. |
| NetReconcile.MakeVlan | pkg/network/vlan.go:39-54 | A new interface that cannot be configured is destroyed again, and nothing that was there changes. After one failed command without unknown effect, the only new interface is the one returned. |
| NetReconcile.Reconciler.EnsureBridge | pkg/network/reconcile.go:74-94 | An existing bridge is used as it is; a missing one is created, and only if it was maco's or none was named. If it fails after one failed command without unknown effect, there is no new bridge; one that is new is in the saved manifest. |
| NetReconcile.Reconciler.SaveMade | pkg/network/reconcile.go:91 | If the manifest cannot be saved, an interface that was only just made is gone again, unless destroying it fails too. |
| NetReconcile.Reconciler.Recall | pkg/network/reconcile.go:99-104 | A VLAN is taken up with the last entry that was applied for its parent and tag, and as it is if there is none. |
| NetReconcile.Reconciler.ApplyVlan | pkg/network/reconcile.go:97-130 | One VLAN resolved, recorded and saved: the manifest passes the check and owns what it records, also if the save fails. After one failed command without unknown effect, an interface that is new is in the saved manifest, or gone. |
| NetReconcile.Reconciler.ApplyVlans | pkg/network/reconcile.go:96-130 | Every VLAN gets an interface with its parent and tag; an interface that existed is owned only if it was; if all were in place nothing changes. If it fails after one failed command without unknown effect, every interface that is new is recorded in the saved manifest, unless one that was borrowed is gone. What was applied for a VLAN, and is still configured for it, stays, owned or borrowed as it was. |
| NetReconcile.Reconciler.RemoveStale | pkg/network/reconcile.go:137-147 | Exactly the members that maco added and that are no longer desired leave the bridge. |
| NetReconcile.Reconciler.AddMissing | pkg/network/reconcile.go:149-171 | All desired interfaces are on the bridge, and recorded are those that maco added; on failure no member that was there is gone. A member that cannot be recorded is taken off again. |
| NetReconcile.Reconciler.DropVlans | pkg/network/reconcile.go:173-186 | Exactly the owned VLAN interfaces not desired any more are destroyed, and exactly the undesired entries forgotten. |
| NetReconcile.Reconciler.ApplyAddress | pkg/network/reconcile.go:188-202 | Only the address maco applied is removed and only the wanted one added; an address that was there is not recorded as applied. |
| NetReconcile.Reconciler.Converge | pkg/network/reconcile.go:132-208 | The second half of apply as a whole: members, VLAN interfaces, address and record. |
| NetReconcile.Reconciler.EnsureBridgeMode | pkg/network/reconcile.go:42-209 | Success brings members, record, VLANs and address to what is asked for and saves it; on every exit nothing is gone but what the manifest had at stake; it fails only for a fault or one of the listed obstacles, which are about the saved manifest, the host as it was and the host as it is left. After one failed command without unknown effect, however it ends, every interface that is new is recorded in the saved manifest as maco's, unless an interface that was borrowed for a VLAN is gone. If something it refers to is missing, nothing is touched. VLANs that are still configured as they were applied stay what they were, owned or borrowed. |
| NetReconcile.Reconciler.EnsureVlanMode | pkg/network/reconcile.go:211-259 | Success means the recorded interface has the parent and tag; owned only if it was, or was made because there was none. The same about new interfaces, unless the borrowed one is gone. |
| NetReconcile.Reconciler.Ensure | pkg/network/reconcile.go:27-40 | Apply for every mode, and that a manifest the host already agrees with changes nothing. After one failed command without unknown effect every interface made is recorded as maco's, unless one that was borrowed is gone. |
| NetReconcile.RenamedIsLost | pkg/network/reconcile.go:236-246 | That exception is needed: from every state in which a borrowed VLAN interface is gone and the one made instead gets its name, one failing save leaves an interface that no manifest records as maco's, because the code takes it for the borrowed one and does not destroy it. |
| NetReconcile.AppliedIsInPlace | pkg/network/reconcile.go:27-209 | After a successful apply the host agrees with the manifest in every respect that apply looks at, the order of applied VLANs included. |
| NetTeardown.MembersAfter | pkg/network/reconcile.go:96-186 | The members are the old ones, less those applied and no longer desired, less surplus owned VLANs, plus those desired; recorded are those applied and desired, and those desired that were not there. |
| NetTeardown.ApplyAgain | pkg/network/reconcile.go:27-209 | Applying a network that was applied changes nothing on the host however it ends, and the manifest is the same, in every order; it fails only for a fault or if something it needs is gone or asked for twice. |
| NetTeardown.ReconcileTwice | pkg/network/reconcile.go:27-209 | The two calls in sequence: the first brings what apply promises, the second leaves the host and the manifest as they are; each fails only for a fault after the one before, or for a listed reason. |
| NetTeardown.DestroyVlan | pkg/network/reconcile.go:262-268 | An owned VLAN interface goes, a borrowed one stays. |
| NetTeardown.DestroyBridge | pkg/network/reconcile.go:261-318 | Success takes exactly what is maco's; a bridge with a VM or an unmanaged member on it is refused before anything changes; it fails only for a fault or that. |
| NetTeardown.EmptyBridge | pkg/network/reconcile.go:274-297 | Refused exactly if the bridge is occupied; otherwise maco's members leave it and no other. |
| NetTeardown.DestroyVlans | pkg/network/reconcile.go:299-305 | Exactly the owned VLAN interfaces are destroyed. |
| NetTeardown.Undone | pkg/network/reconcile.go:27-318 | Apply on a borrowed bridge and then destroy restore members, addresses, configurations and interfaces; left over are at most VLAN interfaces that could be neither configured nor destroyed. |
| NetTeardown.ApplyThenDestroy | pkg/network/reconcile.go:27-318 | The same for the two calls in sequence, on every host; if no command failed while the network was applied, the host is exactly as before. If the network was applied, destroying it fails only for a fault or because a VM was on the bridge before. |
| NetEngine.Engine.CreateNetwork | pkg/engine/network.go:38-100 | Success means applied and saved. A rollback happens only for a fault or because the network is blocked, and means that what the store recorded of it, all of it new, was taken down and its manifest removed; else the manifest stays as recorded, and nothing but what is recorded was taken. A manifest that does not pass the check changes nothing, and no other manifest ever changes. Whatever fails, at every return and wherever maco crashes, every device, membership, VLAN configuration and address that was on the host before is still there. A manifest stays only if undoing failed as well, or its bridge is in use; and after one failed command without unknown effect a rollback leaves the very interfaces there were, unless a borrowed one was gone. What is saved asks for what the caller did. |
| NetEngine.NewAsks | pkg/engine/network.go:54-64 | A new manifest asks for what its creator does, and records nothing as maco's. |
| NetEngine.Engine.RollBack | pkg/engine/network.go:86-98 | Success means that the failed network was taken down by its own record, which takes away only what is recorded there, and its manifest is gone; it is retained only for a fault, if it is not there, or if its bridge is in use; no other manifest changes. |
| NetEngine.Engine.TakeDown | pkg/network/reconcile.go:261-318 | Taking down takes nothing but what the manifest has at stake. |
| NetEngine.Engine.UpdateNetwork | pkg/engine/network.go:173-244 | An update is saved and applied only if mode and device stay, no running VM uses the network, and a VLAN to be retagged is owned and on no bridge; it is refused only for that, a failed check or a fault. Once begun, the store has a manifest that asks for what was asked, however applying it ends, and that fails only for a fault or because the network is blocked; no other manifest changes. After one failed command without unknown effect every interface made is recorded. |
| NetEngine.ChangedAsks | pkg/engine/network.go:225-230 | A changed manifest asks for what the change does, and what it records as maco's stays. |
| NetEngine.Engine.DestroyNetwork | pkg/engine/network.go:115-171 | Success means taken down and forgotten, unless in use or, for a VLAN, on another network's bridge. |
| NetEngine.Engine.Reconcile | pkg/network/reconcile.go:12-25 | Success means that each network in turn was brought, on the host that the one before left, and its manifest is the one in the store. It stops only for a fault, a manifest that is gone, or a network that is blocked; of that one nothing is gone but what it had at stake, and the ones before it were brought. |
| NetEngine.Run | pkg/engine/network.go:38-244 | Over every run of creates, updates, applies and destroys, with failures, late saves, crashes and other programs changing the host in between, every device maco asks to destroy was created for that network. |
| Backup.Driver.FreezeGuest | pkg/vm/guestagent.go:84-98 | Frozen and no error, or not frozen; after a failure the guest is thawed or the error says that it could not be. |
| Backup.Driver.ThawGuest | pkg/vm/guestagent.go:100-107 | Success means the guest is not frozen. |
| Backup.Driver.AwaitBackup | pkg/vm/qmp.go:106-156 | Success means the job concluded without failure and was dismissed; it fails only for a fault, a dead QEMU, or a job that is gone, failed or cancelled. A guest that was frozen is not kept so meanwhile. |
| Backup.Driver.CancelBackups | pkg/vm/backup.go:98-143 | Success means QEMU was seen without any of the jobs; other jobs are neither cancelled nor dismissed. It fails only for a fault, a dead QEMU, or a job that QEMU refused to cancel or dismiss; a wait is given up only once all of the jobs have been asked to stop. |
| Backup.Driver.CancelSome | pkg/vm/backup.go:122-140 | One round: if none of the jobs was active, none is there; else none goes on unasked, and a refusal means that one of them concluded after it was listed. |
| Backup.Driver.Attempt | pkg/vm/backup.go:83-95 | Success means all jobs concluded, and began while the guest was as the freeze left it. |
| Backup.Driver.CleanUp | pkg/vm/backup.go:67-82 | The deferred calls: after an error the jobs are cancelled, a guest still frozen is thawed, and nothing is done that is not called for. |
| Backup.Driver.BackupDisks | pkg/vm/backup.go:29-96 | Success means every job concluded without failure and was dismissed; consistent means they began while the guest was frozen; an error without ErrBackupCleanup means no job is in QEMU; a guest still frozen means the error says so; without faults the backup succeeds and is consistent. ErrBackupCleanup is returned exactly if a cancellation failed, which takes a fault after the backup had failed, a dead QEMU, or a job that refused to go; the error about thawing exactly if a thaw failed; and one failure alone never leaves the guest frozen. |
| Backup.Driver.BackupVM | pkg/engine/backup.go:92-158 | The staging directory is removed only when no job can be writing to it, and it stays only if a cancellation failed or a second command did; what is published is a complete backup, all of it copied, marked consistent only if it is. |
| Jobs.NextKeeps | pkg/jobs/jobs.go:176-332 | Every step of workers, readers, submitters, trimming, expiry and crashes keeps the invariant. |
| Jobs.MarkKeeps | pkg/jobs/jobs.go:294-298 | Marking a job as started, by a worker from which nobody took the lock after it loaded the job, is the first time for that job. |
| Jobs.LoadKeeps | pkg/jobs/jobs.go:281-292 | A job that is finished, started or gone is not executed. |
| Jobs.ExecuteKeeps | pkg/jobs/jobs.go:308 | An action is run by the one worker that marked the job. |
| Jobs.AtMostOnce | pkg/jobs/jobs.go:269-332 | In every run in which no worker marks a job after another took its lock, with any redelivery, crash and stale overwrite, each job is executed once at most, and the record of an executed job never again looks unstarted. A lease that has run out does no harm as long as nobody takes the lock. |
| Jobs.LeaseIsNeeded | pkg/jobs/jobs.go:281-308 | From every state in which a worker has loaded a job and its lease has run out, a continuation executes the job twice. |
| Jobs.LeaseDecides | pkg/jobs/jobs.go:269-308 | While a worker has loaded a job under the lock, and no other is that far, jobs are executed once at most whatever happens before any more time passes, if and only if its lease has not run out. |
| Jobs.LeaseIsExclusive | pkg/jobs/lock.go:17-75 | Until it expires nobody but its holder can take the lock away, over every run. |
| Jobs.LapsedIsHarmless | pkg/jobs/lock.go:17-19 | Once a worker's lease has passed to another, no step it makes under its old token, in whatever run, extends or removes the lock. |
| Jobs.DeliveryCompletes | pkg/jobs/jobs.go:269-332 | From every state in which nobody has the lock, one undisturbed delivery of a job that is not started executes it once, records how it ended, and gives the lock back. |
| Jobs.SuccessIsTrue | pkg/jobs/jobs.go:308-332 | In any run at all, a record says that a job succeeded only if a worker that had executed it reported so. |
| Notifications.Client.Notify | pkg/api/events.go:22-34 | Whatever the client receives in between, afterwards every resource it has yet to load is named by a queued message or covered by "all", and pushing "all" into the full channel succeeds. |
| Notifications.Client.Receive | pkg/api/events.go:44 | Receiving takes the oldest message and loses no other. |
| Notifications.Client.ReceiveSome | pkg/api/events.go:44 | Messages are received in the order in which they were queued. |
| Notifications.Hub.Broadcast | pkg/api/events.go:19-36 | Every client is told. |
| Notifications.Hub.Subscribe | pkg/api/events.go:38-51 | A new client starts with nothing pending; resources are observed while there is a client. |
| Notifications.Hub.Unsubscribe | pkg/api/events.go:52-60 | The other clients keep their order and messages; the last one to go ends the observation. |
| Notifications.Run | pkg/api/events.go:19-61 | For every interleaving of broadcasts and receives no client misses that a resource changed. |
| DataDisk.Host.AttachDisk | pkg/vm/disks.go:33-66 | A definite error means no backend has the file open; success means that one has and that the guest has the device; an uncertain outcome takes a lost reply or two failures. |
| DataDisk.AddDisk | pkg/engine/disks.go:101-153 | At every return each disk in the saved manifest has its file, if and only if it does not fail with the new disk saved and no new file, which takes a first save that took effect although it failed; no file that QEMU may have open is deleted; it fails only for a fault. After one failed command without unknown effect all is as it was. |
| DataDisk.PlugIn | pkg/engine/disks.go:138-152 | If a running VM does not take the disk, the manifest is restored, and the file deleted only if that is certain. |
| DataDisk.RemoveDisk | pkg/engine/disks.go:66-92 | At every return each disk in the saved manifest has its file, if and only if it is not so that the file could not be renamed back while the manifest still lists it; its data is never lost while the manifest lists it. That takes two failures; after one without unknown effect the disk is as it was, or removed but for its renamed file. The disk of a VM that runs stays. |
| DataDisk.LateSaveLosesDisk | pkg/engine/disks.go:132-136 | Such a save leaves the manifest with a disk that has no file. |
| BootOrder.EffectiveBootOrder | pkg/types/vm.go:60-89 | The loop with its maps gives, for every manifest, what the web UI's set and filter give. |
| BootOrder.EachDeviceOnce | web/src/bootOrder.ts:3-9 | The order lists each device once and nothing else. |
| BootOrder.KeepsPreference | web/src/bootOrder.ts:3-9 | Devices come in the order in which they first occur among those preferred and then those listed. |
| BootOrder.UsualBoot | pkg/types/vm.go:60-89 | With no order chosen, the ISO images boot first, then the boot disk, then the data disks. |
| BootOrder.UnnamedLast | pkg/types/vm.go:60-89 | Devices that a chosen order does not name boot after those it names: the boot disk, the data disks, the ISO images. |
| BootOrder.BootIndex | pkg/vm/qemu.go:156-173 | A device's index is its place in the order; a device not in it has none. |
| BootOrder.BootIndicesAreDistinct | pkg/vm/qemu.go:156-173 | Devices have distinct boot indices, from one up without gaps. |
| BootOrder.DropInPlace | pkg/engine/disks.go:77-83 | Filtering the boot order within its own array leaves the other devices in order. |
| BootOrder.RemovalCommutes | pkg/engine/disks.go:71-92 | Removing a data disk and then ordering is ordering and then removing, except exactly if it empties an explicit order while there are ISO images. |
| FreshName.DecimalIsInjective | pkg/engine/backup.go:385 | Different numbers have different suffixes. |
| FreshName.TriedCount | pkg/engine/backup.go:384-392 | The names tried are as many as the tries, as long as none is cut short. |
| FreshName.UniqueName | pkg/engine/backup.go:369-393 | For every base, wherever the search ends: the name chosen is unused, has at most 63 characters, and is the first unused one; if the longest suffix that may be needed fits, it is found within as many tries as there are names, and one. |
| FreshName.RoomyEnds | pkg/engine/backup.go:378-392 | If that suffix fits, the search ends. |
| FreshName.WhenItEnds | pkg/engine/backup.go:378-392 | For any base: the search ends if and only if one of the finitely many names that fit is unused. |

## Left out

- Jobs.AtMostOnce: does not hold of runs in which a worker marks a job after another took its lock; the code does not prevent them (`Jobs.LeaseIsNeeded`, `Jobs.LeaseDecides`), because the lease is not looked at again before the record is written.
- Jobs: log lines, paging of the index, and listing; that a terminal state never changes, which is false: a stale read can overwrite a job that just succeeded.
- NicEngine.Run: excludes a save that fails after its rename, and the `vm edit` command, which edits the manifest of a running VM without the lock. Re-creation of a bridge under another name is not in the model.
- NicEngine.Engine.NormalizedInterfaces: MAC text is a number, or malformed; how a missing MAC is derived from the VM's identity is a parameter.
- Hotplug.Driver.Detach: DEVICE_UNPLUG_GUEST_ERROR is taken to mean that the device stays.
- UsbRegistry.Run: other engines' operations come one after another, as the registry lock makes them; the QEMUs they start and lose happen at any time.
- UsbRegistry.Engine.AttachDevice: which device the caller's selector finds, and whether it is still the same one after the capture, are parameters.
- USB assignments of a manifest (`assignUSB`, `matchUSBAssignment`): they only edit a list.
- NetEngine.Run: other programs act between maco's operations, not within one.
- NetEngine.Engine.CreateNetwork: a rollback takes away nothing that was there before, but can leave something behind: what a command did whose reply was lost is in no record, and neither is an interface whose destruction failed after its save had.
- NetReconcile.Reconciler.EnsureBridgeMode: dry runs, whether interfaces are up, and names of networks are not modelled; interface names are a kind and a number, so that the name patterns of the check become kinds.
- NetReconcile: crash atomicity of apply. The code acts on the host before it records that, so a crash can leave a created device that no manifest owns; it is never destroyed, which is what `NetEngine.Run` says.
- NetReconcile.Reconciler.Ensure: an interface that was made is not promised to be recorded if a borrowed one is gone, because it is false then (`NetReconcile.RenamedIsLost`), nor after two failures or a lost reply.
- Hotplug.Driver.Attach: making directories, looking up files and dialling have no effect in the model, so only their failures show.
- Backup.Driver.BackupDisks: how long anything takes; that the target files are complete is what QEMU says by a job without failure.
- FramePump.RunLoop: opening the BPF device, sockets, dropping privileges, and the counters of system calls; poll and kqueue differ only in how they report the same readiness.
- FramePump.Port.Write: a short write of a batch is an error of the device, and what the kernel sent of it is not modelled.
- DataDisk: growing a disk, image selection, and the media lock.
- FreshName.UniqueName: strings are ASCII; a store that cannot be listed counts as empty, as in the source.
- Restoring a backup, snapshots, scheduling, the HTTP API, authentication, the web UI except the boot order, installation and service code: input and output, or no protocol of their own.
