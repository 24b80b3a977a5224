# Verified models of the PPFlight node agent

The agent runs on a PVE node. Its hard code is a set of multi-step protocols that must
stay safe when any call fails, takes effect but reports an error, or the process dies
between two durable writes; text mergers whose output another function judges; and a
few bounded concurrent or cyclic structures. Each of these is modelled here in Dafny,
and what it promises is proved for every input, every run and every crash point.

Check the project with `dafny verify dfyconfig.toml`.

## Modules

| file | models |
|---|---|
| `Reinstall.dfy`, `Delivery.dfy` | the reinstall saga and its compensation, the receipt its error becomes, and the network and firewall proof of a delivered guest |
| `Bindings.dfy` | binding and unbinding the website and monitoring trust domains, and the start-up guard |
| `SnippetDelete.dfy`, `CiCustom.dfy` | the resumable deletion of a cloud-init snippet, and the `cicustom` text |
| `BridgeNetwork.dfy` | adding a template bridge against other lock-respecting writers |
| `PowerTransitions.dfy` | start, stop, shutdown, reboot, suspend, resume |
| `Assignments.dfy` | refreshing the signed assignment authority |
| `Dispatcher.dfy` | the bounded command queue |
| `GuestSweep.dfy` | spreading guest reads over a sweep |
| `GuestNetwork.dfy`, `DiskLimits.dfy` | the NIC, address and disk texts: writer and reader |
| `OptionText.dfy`, `Text.dfy`, `Common.dfy` | comma-separated option texts, strings, results |

## How runs and crashes are modelled

A step that touches the outside world returns `Fate`: `Died`, or `Alive` with a reply.
A step may be refused, may take effect, and may take effect and still report an error;
and it may return `Died` whether or not it took effect, in which case every caller stops
as well. A postcondition stated without mentioning the result therefore holds at every
point of every run. A `clean` run is one whose steps meet no fault; it is used for what
a fault-free re-run achieves. Durable file writes are atomic. A PVE change that reported
an error has settled (wholly applied or not at all) before the next read: a delete task
still running when the inventory is read would break the reinstall's safety.

## Findings

- `BindingFiles.TornMarkerStrands`: if the removal marker's own write takes effect but
  reports an error, the snapshot is discarded although the marker is there; the guard
  then refuses to start and an unbind can no longer finish. In every history without
  such a torn marker every crash point is recoverable. This takes the marker's write as
  atomic: the source creates the file and then fills it
  (internal/bindstate/state.go:602-625), and a crash between leaves a marker that cannot
  be decoded.
- `BridgeCreation.AbandonedWait`: if the wait for the reload task is given up, or the
  process dies, the lock is released while the task may still have to rename. An
  administrator's edit made then is applied. `ReleasedExactly`: the verified file is the
  only one renamed, whatever others do, if and only if no rename is outstanding when the
  lock is released; a run that reports the bridge created, or its task failed, has seen
  the task stop.
- `Assignments.LegacyReplacesAuthority`: a process whose first authority was saved but
  not applied, or whose save took effect but reported an error, holds no authority yet
  and lets a legacy bundle overwrite it. The guard is `dynamic`: without faults a legacy
  bundle is saved if and only if the process holds no authority, and one that holds an
  authority never loses it.
- `NetworkSemantics.DecodeExactly`: dropping every `priority` key also drops an interface
  of that name, so an edit to it passes the check (`BridgeCreation.HiddenEditPasses`). If
  no interface has that name, decoded forms are compared exactly, apart from the numbers
  PVE renumbers.
- `DeliveryProof.DuplicateHidesInterface`: validation lets one interface be listed twice
  in place of another, so "every signed NIC is reapplied" holds if and only if none is
  listed twice (`Reinstall.Saga.RestoreOriginal`). The read-back proof still covers every
  expected NIC.
- `Receipts.RolledBackReceipt`: a rolled-back error is reported as such exactly when its
  cause wraps none of the three errors looked for first. The causes the saga passes on
  wrap none of them.
- The original survives a reinstall even if the template's number equals the target's:
  the saga does not check that the template is a template, but cloning from the deleted
  number is refused and compensation restores the original.
- `SnippetDelete.HiddenTextDoesNotParse`: an over-long or multi-line `cicustom` value is
  read as absent, so a scan can miss what it names; but no such value would parse.

## Model

| member | source | states |
|---|---|---|
| `Receipts.RolledBackReceipt` | internal/control/executor.go:715-744 | the receipt of a rolled-back error says so if and only if the cause wraps no preflight, cloud-init or power-precondition error |
| `Receipts.CauseCanHideRollback` | internal/control/executor.go:719-723 | a rolled-back error whose cause wraps the cloud-init error is reported as that cause |
| `Receipts.ForeignReceipt` | internal/control/executor.go:727-742 | any other error is reported as indeterminate if and only if it carries no status or one of at least 500; 401 and 403, and 409, have their own codes |
| `DeliveryProof.VerifyFilterSet` | internal/control/executor.go:3032-3071 | counting and membership accept an address set if and only if it has no negative, unreadable or repeated entry and means exactly the signed addresses |
| `DeliveryProof.CheckDelivery` | internal/control/executor.go:2469-2504 | the one-pass validator accepts exactly the deliveries with distinct interfaces and hardware addresses, one firewall state, and addresses if and only if enforced |
| `DeliveryProof.EveryNicReapplied` | internal/control/executor_extended.go:262-277 | every expected interface is among the listed ones if and only if no listed interface repeats |
| `DeliveryProof.DuplicateHidesInterface` | internal/control/executor_extended.go:262-277 | one interface listed twice is accepted for two expected ones, and the other is not among the listed |
| `DeliveryProof.NamesCovered` | internal/control/executor_extended.go:262-277 | for validated networks every expected interface is listed if and only if none is listed twice |
| `DeliveryProof.FiltersStayReady` | internal/control/executor_extended.go:1311-1322 | building one interface's address set keeps the finished sets of the others |
| `DeliveryProof.ReadyFiltersProve` | internal/control/executor_extended.go:1295-1329 | complete sets behind an enforced firewall satisfy the separate firewall proof for every interface |
| `DeliveryProof.MergeNicText` | internal/control/executor.go:1998-2012 | the interface text can be merged if and only if it is readable and well formed, and is then exactly the model entry, the surviving fields in order and the new values |
| `DeliveryProof.MergeNic` | internal/control/executor.go:1998-2026 | succeeds if and only if both texts can be merged; both then carry the signed settings over the old ones, and no other key changes, appears or goes |
| `DeliveryProof.ReappliedNicMatches` | internal/control/executor_extended.go:1098-1116 | the read-back accepts a reapplied interface if and only if no stray old VLAN tag is left and the address text can be read |
| `DeliveryProof.ReappliedNext` | internal/control/executor_extended.go:1098-1105 | reapplying one interface keeps the ones before it applied and the ones after it untouched |
| `DeliveryProof.ReappliedGuestProven` | internal/control/executor_extended.go:1098-1123 | a guest whose interfaces were all reapplied is proven if and only if the configuration they were merged into leaves no stray tag and legible texts, and the firewall is as signed |
| `DeliveryProof.NextSet` | internal/control/executor_extended.go:1311-1322 | an interface's address set is in the way of building it only if it was there before any was built |
| `DeliveryProof.HasMore` | internal/control/executor_extended.go:1053-1082 | of settings made one after the other the later prevail |
| `Reinstall.Saga.Clone` | internal/control/executor_extended.go:1004-1006 | a clone has the source's contents, is stopped, and never replaces an existing guest |
| `Reinstall.Saga.EnsurePower` | internal/control/executor_extended.go:740-763 | success means the target is in the wanted state; only its power changed; a restored guest is started only when proven |
| `Reinstall.Saga.SetNetwork` | internal/control/executor.go:1998-2026 | success means the interface carries the signed settings and nothing else changed; without faults it succeeds if and only if the texts can be merged; safety holds wherever it stops |
| `Reinstall.Saga.SetNetworks` | internal/control/executor_extended.go:1098-1105 | success means every listed interface was written in order and, if none is listed twice, that all of them carry their signed settings over what was there; no other setting changes; without faults it succeeds if and only if all can be merged |
| `Reinstall.Saga.VerifyNetworks` | internal/control/executor_extended.go:1106-1123 | success means every signed interface and its firewall are exactly as signed, and without faults that is enough |
| `Reinstall.Saga.VerifyFirewall` | internal/control/executor.go:2973-2996 | success means the firewall is enforced with exactly the signed addresses, or off when it must be, and without faults that is enough |
| `Reinstall.Saga.BuildFilter` | internal/control/executor_extended.go:1311-1322 | a set is created only if absent and filled in order; the firewall stays off throughout; without faults it fails only over an existing set |
| `Reinstall.Saga.BuildFilters` | internal/control/executor_extended.go:1311-1322 | success means every interface's set is exact; nothing is enforced meanwhile; without faults it succeeds if and only if none of the sets existed |
| `Reinstall.Saga.RestoreFirewall` | internal/control/executor_extended.go:1295-1329 | at every point the firewall is as it was, off, or has every signed set complete; success proves every interface; without faults it succeeds if and only if the signed sets can be built |
| `Reinstall.Saga.RestorePower` | internal/control/executor_extended.go:967-975 | success means the original's power state; a restored guest must be proven first |
| `Reinstall.Saga.CleanupTemporary` | internal/control/executor_extended.go:976-985 | success means the temporary guest is gone; the original is untouched |
| `Reinstall.Saga.RollbackEarly` | internal/control/executor_extended.go:986-994 | a rolled-back result before the original's deletion means the cluster is exactly as before; the only other result is indeterminate, and never without faults |
| `Reinstall.Saga.ClearTarget` | internal/control/executor_extended.go:1007-1017 | success means the target's number is free; the compensation clone is kept |
| `Reinstall.Saga.RestoreOriginal` | internal/control/executor_extended.go:1018-1031 | the original is cloned back, proven and stopped while its clone still exists; every listed interface was written, and every expected one if and only if none is listed twice |
| `Reinstall.Saga.FinishRestore` | internal/control/executor_extended.go:1032-1037 | power comes back and the clone goes only after the proof; success means both |
| `Reinstall.Saga.Compensate` | internal/control/executor_extended.go:1007-1039 | the original survives every failure; a rolled-back result means original contents, power and signed networks, and no temporary guest; without faults it ends rolled back if and only if every interface can be merged and delivered into the clone's setup and its firewall is as signed |
| `Reinstall.Saga.Adjust` | internal/control/executor_extended.go:1053-1086 | success means exactly the given settings were put over the old ones; the replacement's contents and the original's clone are kept |
| `Reinstall.Saga.Provision` | internal/control/executor_extended.go:1053-1082 | success means resources, signed interfaces, firewall, cloud-init, disk size and disk limits are all in place; without faults it succeeds if and only if the interfaces can be merged and the firewall built |
| `Reinstall.Saga.VerifyOnce` | internal/control/executor_extended.go:1151-1203 | success means cloud-init settled before the timezone was set, and the guest runs with proven networks; without faults a running, proven guest passes |
| `Reinstall.Saga.AwaitReadiness` | internal/control/executor_extended.go:1126-1230 | over any number of polls, ready if and only if the last proof passed, which means delivered; without faults a running, proven guest becomes ready |
| `Reinstall.Saga.Launch` | internal/control/executor_extended.go:1083-1090 | ready if and only if started and proven; without faults if and only if the provisioned guest is proven; otherwise the clone is still there |
| `Reinstall.Saga.CheckFirst` | internal/control/executor_extended.go:917-941 | nothing is requested; success means a non-template target on its node with a known power state, a free temporary number and a template; without faults that is enough |
| `Reinstall.Saga.TakeBackup` | internal/control/executor_extended.go:995-1006 | success means the original is in place, stopped and cloned; without faults it succeeds, and a refused shutdown or clone ends rolled back |
| `Reinstall.Saga.RemoveOriginal` | internal/control/executor_extended.go:1040-1049 | an unclear deletion is resolved by inspection to rollback or compensation; without faults the original's number is freed, and a refused deletion ends rolled back |
| `Reinstall.Saga.CloneTemplate` | internal/control/executor_extended.go:1050-1052 | the replacement has the template's contents, and the template is not the target |
| `Reinstall.Saga.BuildReplacement` | internal/control/executor_extended.go:1050-1090 | either a proven replacement with all its settings or the original still cloned; without faults the former if and only if a replacement can be made of the template's clone |
| `Reinstall.Saga.DropBackup` | internal/control/executor_extended.go:1091-1095 | the clone of the original is deleted only once the replacement is proven |
| `Reinstall.Saga.Replace` | internal/control/executor_extended.go:1050-1095 | success, rollback and indeterminate each mean what they say; without faults success if and only if a replacement can be made, and otherwise rolled back if and only if the original can be restored |
| `Reinstall.Saga.Run` | internal/control/executor_extended.go:913-1096 | at every point of every run the original's contents are under the target's or temporary number until a replacement is proven, other guests are untouched, a restored guest never runs or loses its clone unproven, and preflight, rolled back and success are true; without faults, or with one early refusal, the result is known from the inputs: success, with the template's contents running, proven and configured and no temporary guest, if and only if the cluster passes inspection, nothing was refused and a replacement can be made of the template's clone; otherwise rejected, rolled back or indeterminate by exact conditions |
| `BindingFiles.ResolveIsConsistent` | internal/bindingoverlay/overlay.go:69-142 | whenever the guard lets a domain's credentials load, public section and private state come from the same response |
| `BindingFiles.ResolveLoads` | internal/bindingoverlay/overlay.go:69-142 | when the guard lets a service start, it loads credentials for exactly the configured domains, also while the other domain's removal is in force |
| `BindingFiles.ResolveRefusesExactly` | internal/bindingoverlay/overlay.go:69-142 | the guard refuses if and only if a commit marker exists or a removal marker still has the old configuration |
| `BindingFiles.TornMarkerStrands` | internal/bindstate/unbind.go:60-94 | discarding the snapshot after a marker write that did take effect leaves a removal that cannot be recovered |
| `BindingFiles.AtMostOneInFlight` | internal/admincli/admincli.go:1205-1266 | at most one of four markers, at most one domain with a pending request, and never one beside the other domain's transaction |
| `BindingCommands.Host.Finalize` | internal/admincli/admincli.go:1613-1683 | success means fully bound with nothing in flight; it needs, and without faults follows from, the private files already written; a commit that cannot be completed keeps or gets back its marker |
| `BindingCommands.Host.Commit` | internal/admincli/admincli.go:1962-1990 | the marker precedes every write; a resumed commit refuses every response but the announced one and changes nothing; without faults it completes if and only if the credentials are newer than those they replace |
| `BindingCommands.Host.WriteResponse` | internal/admincli/admincli.go:1979-2018 | assignment, forgotten refresh authority, configuration, then credentials: every crash between them stays behind the marker |
| `BindingCommands.Host.PreparePve` | internal/admincli/pve_local.go:173-330 | local preparation changes at most the production switch, and never without both domains; if it fails the configuration is as before |
| `BindingCommands.Host.Request` | internal/admincli/admincli.go:1895-1961 | a request is sent only once exactly it is durable; any other than the pending one is refused and changes nothing; if the agent cannot be stopped nothing is sent and the request is forgotten; a refusal by the website is forgotten, an unclear answer is kept; every crash point keeps the invariant |
| `BindingCommands.Host.Bind` | internal/admincli/admincli.go:1714-2018 | nothing happens beside another transaction, nor to a binding nobody asked to replace; without faults a quiet host ends bound to the response if and only if the domain was unbound or is to be replaced by newer credentials; a retry with the same code completes; a marker without a request completes if and only if the private files were written |
| `BindingCommands.Host.DiscardPending` | internal/admincli/admincli.go:537-602 | only a request with no transaction and no private state can be forgotten, and without faults such a one is |
| `BindingCommands.Host.BeginUnbind` | internal/bindstate/unbind.go:60-94 | snapshot before marker; the preimage is lost only if the marker's write is torn |
| `BindingCommands.Host.FreshUnbind` | internal/admincli/admincli.go:754-818 | without faults a removal ends fully unbound, and one stopped by an outside answer ends bound exactly as before; every crash point is recoverable unless the marker's write is torn |
| `BindingCommands.Host.FinishForward` | internal/bindstate/unbind.go:173-221 | the preimage goes before the marker, and only once the removal is in force |
| `BindingCommands.Host.RollbackUnbind` | internal/admincli/admincli.go:972-1014 | success means exactly the old configuration and credentials; without faults it succeeds when the preimage exists |
| `BindingCommands.Host.FinishRollback` | internal/admincli/admincli.go:990-1018 | the journal goes before the preimage; success means fully bound again |
| `BindingCommands.Host.ResumeUnbind` | internal/admincli/admincli.go:1020-1052 | the old configuration rolls back, the disabled one completes; without faults if and only if the preimage exists or is not needed |
| `BindingCommands.Host.Unbind` | internal/admincli/admincli.go:650-820 | an unfinished removal is resolved without faults if and only if it has its preimage, to fully bound as before or fully unbound; a fresh one ends fully unbound, or as before if an outside answer stops it; an unbound domain needs nothing; no step but a torn marker loses recoverability; the other domain is untouched |
| `BindingCommands.AnyHistory` | internal/admincli/admincli.go:1209-1266 | over every sequence of commands with crashes anywhere: consistent loads and one transaction in flight, and recoverable removals in every history without a torn marker |
| `BindingCommands.UnbindRecovers` | internal/admincli/admincli.go:1016-1052 | after any history one fault-free unbind resolves an unfinished removal if and only if its preimage is left, which it is in every history without a torn marker |
| `BindingCommands.TearsAreForgotten` | internal/admincli/admincli.go:650-820 | whatever was torn before, once no removal is in flight later tear-free histories are recoverable again |
| `CiCustom.VolumeGrammar` | internal/control/cloud_init_snippet.go:72-97 | the volume checks accept exactly storage name, fixed prefix and file name |
| `CiCustom.PrintParses` | internal/control/cloud_init_snippet.go:108-148 | any order of any valid combination of components reads back exactly |
| `CiCustom.ParseText` | internal/control/cloud_init_snippet.go:114-135 | the loop computes the parse, and accepted texts hold only known keys with valid volumes |
| `CiCustom.WithoutNetwork` | internal/control/cloud_init_snippet.go:137-148 | parsing the printed text gives exactly the other components |
| `CiCustom.ParsedIsReadable` | internal/control/executor.go:3429-3439 | every text that parses is short and plain enough for the configuration reader |
| `SnippetDelete.HiddenTextDoesNotParse` | internal/control/cloud_init_snippet.go:316-323 | a value the reader treats as absent is never one that would parse |
| `SnippetDelete.CheckComponents` | internal/control/cloud_init_snippet.go:329-348 | the component loop accepts exactly the allowed references |
| `SnippetDelete.DetachAccepts` | internal/control/cloud_init_snippet.go:195-216 | removing the target's network component turns the sole reference into none |
| `SnippetDelete.Cluster.Scan` | internal/control/cloud_init_snippet.go:293-353 | the calls it made are one listing and one read of every listed guest, and acceptance means those reads show the target, no guest twice and only allowed references; in a quiet cluster it accepts exactly when that is so |
| `SnippetDelete.Cluster.SendDetach` | internal/control/cloud_init_snippet.go:195-216 | its call in the log directly follows a scan that read the target's network component as the sole reference, writes that reading without the component, and applies only to the configuration that was read |
| `SnippetDelete.Cluster.SendDelete` | internal/control/cloud_init_snippet.go:247-267 | its call in the log directly follows a scan that read no reference and an inventory that showed the volume |
| `SnippetDelete.CarefulMore` | internal/control/cloud_init_snippet.go:150-274 | a log stays careful if the next call is justified by the calls before it |
| `SnippetDelete.Cluster.Advance` | internal/control/journal.go:658-673 | a requested phase is never below the recorded one |
| `SnippetDelete.Cluster.Detach` | internal/control/cloud_init_snippet.go:169-222 | reaches the detached phase or fails; recognises a detach that a crash hid |
| `SnippetDelete.Cluster.Recover` | internal/control/cloud_init_snippet.go:381-418 | success means the last two calls read a target that names the volume nowhere and a storage without it |
| `SnippetDelete.Cluster.DeleteAndVerify` | internal/control/cloud_init_snippet.go:228-274 | from the detached phase on: scan, delete, verify, resumable everywhere |
| `SnippetDelete.Cluster.Run` | internal/control/cloud_init_snippet.go:150-274 | in the log of every run, whatever others do, each detach and each delete directly follows the scan that allows it; phases never go down; success means verified, and already absent is claimed only by a resumed run with nothing to delete; in a quiet cluster a target that does not name what the phase demands is left alone, and every crash point is one from which a fault-free run completes |
| `SnippetDelete.AnyRuns` | internal/control/cloud_init_snippet.go:150-274 | after any number of failed or crashed runs one fault-free run removes the volume |
| `NetworkSemantics.NormalizeExactly` | internal/admincli/template_bridge_transaction.go:370-390 | normal forms have no priority key, and exactly the values without one are unchanged |
| `NetworkSemantics.DecodeExactly` | internal/admincli/template_bridge_transaction.go:327-390 | two parser outputs decode alike if and only if they are the same apart from what PVE renumbers and from an interface called priority |
| `NetworkSemantics.DecodeIsFaithful` | internal/admincli/template_bridge_transaction.go:327-390 | if neither has an interface called priority, decoding alike means being the same configuration, and conversely |
| `NetworkSemantics.HiddenIface` | internal/admincli/template_bridge_transaction.go:370-379 | adding an interface called priority changes the configuration and not its decoded form |
| `NetworkSemantics.CloneIsEqual` | internal/admincli/template_bridge_transaction.go:435-452 | the deep copy equals the original |
| `NetworkSemantics.ValidateOwned` | internal/admincli/template_bridge_transaction.go:454-475 | counting fields and checking each accepts exactly the nine fields of an isolated bridge |
| `NetworkSemantics.IsolatedMeans` | internal/admincli/template_bridge_transaction.go:454-475 | the nine fields and their values, one by one |
| `NetworkSemantics.AdditionUndone` | internal/admincli/template_bridge_transaction.go:416-431 | taking the bridge out gives the baseline if and only if the candidate is the baseline plus that bridge |
| `NetworkSemantics.VerifyOnlyAddition` | internal/admincli/template_bridge_transaction.go:405-433 | accepts if and only if the candidate is the baseline with one owned bridge that was not there |
| `BridgeCreation.Network.TakeBaseline` | internal/admincli/template_bridge_transaction.go:29-55 | the baseline is captured under the lock and parsed from the file it names |
| `BridgeCreation.Network.Verify` | internal/admincli/template_bridge_transaction.go:83-121 | success means active is the baseline and pending the baseline plus only the owned bridge |
| `BridgeCreation.Network.Create` | internal/admincli/template_bridge_transaction.go:18-183 | in every interleaving a reload is issued at most once, only over the baseline, only for the owned bridge; created or failed means its task has stopped; a fault-free run creates the bridge, and refuses over a pending edit or an interface of that name; the lock is free at the end |
| `ReloadTask.ReleasedExactly` | internal/admincli/template_bridge_transaction.go:107-156 | after the lock is released, whatever others do the task renames only the verified file, if and only if no rename is outstanding at that moment |
| `ReloadTask.GuardedStays` | internal/admincli/template_bridge_transaction.go:107-150 | while the lock is held, or once the task has renamed or stopped, no other file can be renamed by it |
| `ReloadTask.OtherEditApplied` | internal/admincli/template_bridge_transaction.go:140-156 | another writer's edit between release and rename is what becomes active |
| `BridgeCreation.Network.Submit` | internal/admincli/template_bridge_transaction.go:122-139 | an errored submission may have started the task; a synchronous answer means it has stopped |
| `BridgeCreation.Network.Await` | internal/admincli/template_bridge.go:437-470 | an end is reported only once the task has stopped; under the lock only the verified file can be renamed meanwhile |
| `BridgeCreation.Network.Apply` | internal/admincli/template_bridge_transaction.go:122-183 | a known end means a stopped task; giving up, like dying, releases the lock with the task as it is |
| `BridgeCreation.Aftermath` | internal/admincli/template_bridge_transaction.go:18-183 | whatever happens after a run that knows its task has stopped, only the verified file is ever renamed by it |
| `BridgeCreation.AbandonedWait` | internal/admincli/template_bridge_transaction.go:144-156 | a run in which the wait is given up and an administrator's edit is applied by the transaction's task |
| `BridgeCreation.HiddenEditPasses` | internal/admincli/template_bridge_transaction.go:405-433 | a staged file passes the only-addition check if and only if the same file with an added interface called priority does |
| `PowerTransitions.Client.Lifecycle` | internal/control/executor_extended.go:708-735 | a request is sent if and only if the first read succeeds and calls for it, and at most once; a verified start is running, a verified stop or shutdown is stopped, a reboot is never verified; the verified state is what the last call, a read, showed; an accepted request is left to its task |
| `PowerTransitions.Client.StartStopped` | internal/control/executor_extended.go:671-696 | exactly one start, sent after a read showed stopped; verified only by a last read showing it resumed |
| `PowerTransitions.Client.Converge` | internal/control/executor_extended.go:797-826 | only what the error claims is looked for, and only a claim of being stopped, read back, can lead to a start |
| `PowerTransitions.Client.Confirm` | internal/control/executor_extended.go:827-849 | verified if and only if the read shows the transition |
| `PowerTransitions.Client.SuspendGuest` | internal/control/executor_extended.go:765-849 | suspend is sent unless the first read shows the guest stopped, and at most once; a verified state is what the run's last call, a read, showed |
| `PowerTransitions.Client.ResumeGuest` | internal/control/executor_extended.go:765-849 | resume is sent if and only if the first read shows a guest neither stopped nor resumed; then at most one start; a stopped guest is started unless a second read shows it running; every start follows a read that showed stopped; a verified state is what the run's last call, a read, showed |
| `Dispatcher.ExactMeansOnce` | internal/control/dispatcher.go:22-47 | an id is active if and only if it is queued or executing, and never twice in a lane |
| `Dispatcher.LaneBounds` | internal/control/dispatcher.go:35-64 | sixteen, four, sixteen and sixteen commands may wait; eight, one, two and two execute |
| `Dispatcher.ConsoleAndHeavyLanes` | internal/control/dispatcher.go:128-133 | the two console and the four heavy actions |
| `Dispatcher.CriticalLanes` | internal/control/dispatcher.go:134-136 | the ten critical actions |
| `Dispatcher.AfterFinish` | internal/control/dispatcher.go:114-126 | finishing one command removes exactly its id |
| `Dispatcher.CommandDispatcher.Submit` | internal/control/dispatcher.go:90-105 | accepted if and only if already active or the lane has room; the lane's order of acceptance grows by the new id at its end; bounds kept |
| `Dispatcher.CommandDispatcher.Take` | internal/control/dispatcher.go:114-119 | an idle worker gets the id accepted first of those still waiting; nothing is lost or doubled |
| `Dispatcher.CommandDispatcher.Finish` | internal/control/dispatcher.go:119-124 | the id leaves the active set only when its command is over |
| `Dispatcher.CommandDispatcher.Admit` | internal/control/dispatcher.go:76-105 | for a command not active, a successful preflight guarantees the submission after any worker steps |
| `Dispatcher.AnySchedule` | internal/control/dispatcher.go:35-140 | every interleaving keeps active equal to queued plus executing within the bounds |
| `Assignments.Agent.Restart` | internal/agent/agent.go:136-164 | the loaded revision, cursor and document come from one verified bundle, or from the legacy pair of files, and the process is in step with the file |
| `Assignments.Agent.RefreshAuthority` | internal/agent/agent.go:1002-1023 | the file is as before or the new bundle's snapshot, wherever it stops; a failed refresh leaves what the process holds alone |
| `Assignments.Agent.RefreshLegacy` | internal/agent/agent.go:1023-1033 | a process that holds an authority refuses and changes no file; otherwise, without faults, the legacy file replaces whatever is there |
| `Assignments.Agent.Refresh` | internal/agent/agent.go:987-1041 | a bundle is taken up if and only if it is authentic, newer and at another cursor; success strictly raises the revision, otherwise what the process holds is unchanged; without faults a legacy bundle is saved if and only if the process holds no authority; process and file part exactly when a failed refresh saved a new authority |
| `Assignments.Agent.Live` | internal/agent/agent.go:987-1047 | over any refreshes, failures, divergences, crashes and restarts the held revision never goes down, and a process that holds an authority never loses it, nor does its file |
| `Assignments.SurvivesRestart` | internal/agent/agent.go:136-164 | a bundle that was taken in is held again after a restart: revision, cursor and document |
| `Assignments.LegacyReplacesAuthority` | internal/agent/agent.go:1002-1033 | a run in which an authority is saved, applying it fails, and a legacy bundle replaces it |
| `GuestSweep.SortedUnique` | internal/collector/collector.go:334-342 | with distinct keys any two sorted orders of the same guests are equal |
| `GuestSweep.SortedMeans` | internal/collector/collector.go:334-342 | node decides first, then type, then number |
| `GuestSweep.CandidatesPermute` | internal/collector/collector.go:328-333 | reordering the listing selects the same candidates |
| `GuestSweep.Cycles` | internal/collector/collector.go:349-352 | the least number of samples, at least one, that spans the sweep |
| `GuestSweep.Size` | internal/collector/collector.go:353-356 | the least batch that covers all guests in that many samples, at most all of them |
| `GuestSweep.Coverage` | internal/collector/collector.go:357-361 | from any cursor the sweep's samples read every candidate |
| `GuestSweep.NoRepeat` | internal/collector/collector.go:357-360 | no sample reads a guest twice |
| `GuestSweep.GuestDetailBatch` | internal/collector/collector.go:327-362 | the batch starts at the cursor, or at the first guest if the cursor does not fit, takes the next guests in key order, cyclically, without repeats, and the cursor moves by its size |
| `GuestSweep.FullSweep` | internal/collector/collector.go:277-362 | a whole sweep reads exactly the QEMU and container guests that are no templates, however PVE orders each listing |
| `GuestNetwork.KeepOthers` | internal/control/executor.go:3456-3476 | the first loop accepts exactly well-formed texts, keeps exactly the untouched fields and remembers the last model |
| `GuestNetwork.Merge` | internal/control/executor.go:3456-3582 | accepted if and only if mergeable; then the fields are the map override and the text is the surviving fields in order and the new values |
| `GuestNetwork.MergeNetwork` | internal/control/executor.go:3456-3546 | for both guest kinds, key by literal key: a signed value is in place, an absent one leaves the old, rate zero is absent, one model entry is left, every other key is as it was |
| `GuestNetwork.MergedLookup` | internal/control/executor.go:3456-3546 | looking up any key gives its new value, absence for rate zero, or the old value |
| `GuestNetwork.MergeAddresses` | internal/control/executor.go:3547-3582 | each of ip, ip6, gw and gw6 holds its own signed value, is absent for an empty one and unchanged for none; every other key is as it was |
| `GuestNetwork.CheckNetwork` | internal/control/executor.go:2890-2923 | the reader's loops compute its judgement |
| `GuestNetwork.AcceptedPartsMean` | internal/control/executor.go:2899-2913 | what an accepted interface text says, key by literal key |
| `GuestNetwork.AcceptedAddressesMean` | internal/control/executor.go:2914-2923 | what an accepted address text says |
| `GuestNetwork.LastModelExactly` | internal/control/executor.go:3463-3472 | the model entry taken over is the last one |
| `GuestNetwork.MergedNetworkMatches` | internal/control/executor.go:2890-2923 | the reader accepts the writer's text if and only if the resulting VLAN tag is the expected one and the address text is usable |
| `DiskLimits.KeepUnmanaged` | internal/control/executor.go:2644-2656 | the loop accepts exactly acceptable options and keeps the unmanaged ones in order |
| `DiskLimits.CheckLimits` | internal/control/executor.go:2871-2889 | the reader's loops accept exactly the texts whose ten limits are as wanted |
| `DiskLimits.MatchMeans` | internal/control/executor.go:2871-2889 | the reader accepts exactly the texts in which each limit's literal key is present if and only if the limit is set, and reads as its decimal text |
| `DiskLimits.OtherSurvives` | internal/control/executor.go:2644-2656 | every option of another key is kept, trimmed, at its place in the old order |
| `DiskLimits.OthersSurvive` | internal/control/executor.go:2644-2656 | nothing but those options is kept |
| `Text.ItoaDenotes` | internal/control/executor.go:2657-2664 | the decimal text denotes its number, without leading zeros |
| `DiskLimits.SegmentsMatch` | internal/control/executor.go:2635-2667 | the reader accepts volume, other options and rendered limits |
| `DiskLimits.SegmentsAgain` | internal/control/executor.go:2635-2667 | merging a merged text gives the same segments |
| `DiskLimits.MergeLimits` | internal/control/executor.go:2635-2667 | accepted if and only if well formed; the reader accepts the result; name and other options keep text and order |
| `DiskLimits.MergeTwice` | internal/control/executor.go:2635-2667 | a second merge succeeds if and only if the text is within the bound, and then changes nothing |
| `DiskLimits.SetDiskLimits` | internal/control/executor.go:1918-1951 | nothing is written if and only if each of the ten limits is already under its own key exactly as wanted; the written text has exactly that; refused if and only if the disk is unreadable or its text malformed |
| `DiskLimits.SetDiskLimitsAgain` | internal/control/executor.go:1918-1951 | repeating the command writes nothing if and only if the text can be read back |

## Left out

- Reinstall.Saga.Run: the inventory is read as one map, so the loop over its rows is membership; changes by others to the target or temporary guest during the run are excluded.
- Reinstall.Saga.Adjust: the values of resource, cloud-init and disk settings are given with the order, and name no interface.
- Reinstall.Saga.VerifyFirewall: cluster and node switches, policies and the first-value firewall check are one outside answer, which can only refuse more; canonicalisation of addresses is a given function.
- DeliveryProof.CheckDelivery: address, MTU and range checks are one given predicate per interface.
- Reinstall.Saga.VerifyOnce: resources, disk, guest addresses and operating system are outside answers, which can only refuse more.
- BindingCommands.Host.Bind: a configuration section is reduced to the response it was written from; field comparisons and device ids are not followed; the root lock is assumed to serialise commands.
- BindingFiles.ResolveRefusesExactly: label and field checks and unreadable files, which also refuse, are not modelled.
- BindingCommands.Host.Unbind: the removal of stale configuration backups and service restarts are outside answers.
- SnippetDelete.Cluster.Run: volume digests are compared as volumes; the follow-up of an asynchronous delete task is not modelled.
- BridgeCreation.Network.Create: kernel probes and staged read-backs are outside answers, which can only refuse more.
- NetworkSemantics.DecodeExactly: says nothing of parser outputs of another shape than PVE prints (interfaces as objects, options as pairs, no priority key elsewhere); most of those are refused.
- NetworkSemantics.CloneIsEqual: values have no identity, so that the copy shares nothing with the original is not a question here.
- Assignments.Agent.Refresh: signature, hash, identity and date checks are one given answer; a failed apply leaves what the process holds unchanged.
- GuestNetwork.MergedNetworkMatches: number formatting is a given function, MAC addresses fold as ASCII, and lengths count characters.
- GuestSweep.Cycles: durations are unbounded integers.
- Menus, prompts, overview printing, HTTP, TLS, HMAC and Ed25519 signing, systemctl, console tunnelling, file ownership and mode checks, the metering and delivery queues, and the one-incident delete recovery.
- The `set` configuration commands, credential epoch monotonicity over resumed binds (the source does not check it there), and the console session cap.
