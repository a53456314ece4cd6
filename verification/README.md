# gomi: verified models of its protocols

gomi is a provisioning control plane: it keeps records of machines, hypervisors and
virtual machines, serves DHCP, TFTP and DNS to them, and wakes, installs and shuts
them down. This project models the parts of it whose correctness depends on several
operations at once, and proves what they keep over every run.

Each component is one module:

| module | what it models |
|---|---|
| `VmRecords`, `VmLifecycle`, `VmOutcomes` | the VM record, the calls that rewrite it, and all runs of deploys, syncs, power actions, callbacks and deletes |
| `AttemptSwap` | read, compute, compare-and-swap on a provisioning attempt |
| `BlindWrites` | the same calls with a store that does not compare |
| `HypervisorCascade` | VM creates and deletes interleaved with hypervisor cascade deletes |
| `LeasePool` | the DHCP lease pool |
| `TftpTransfer` | the TFTP read transfer, over an unordered and over a FIFO network |
| `ShutdownPackets` | the shutdown packet codec, the nonce cache and the daemon loop |
| `BareMetalClaims` | claims on bare-metal hosts, their fences and the evidence rule |
| `DnsRecords`, `DnsServer`, `DnsZones` | the embedded DNS server: record map, updates, API, persistence, queries, transfers |
| `DnsReconciler` | the RFC 2136 client that keeps a server in step with the inventory |
| `BootEnvironments` | the single-flight boot environment builder |
| `Scheduler` | the weighted choice of a hypervisor |
| `SortedText`, `Options` | bytewise order on strings, an option type |

State that the program changes in place is a class whose methods make the same edits
in the same order; each method is proved equal to a function on values. Protocols are
transition systems built from those same functions: a run is any sequence of enabled
steps, and the theorems quantify over all runs. Clocks, random numbers, network
answers and map iteration order are parameters or free choices.

Some properties do not hold of the code as it is. For these the project says exactly
when they do hold, and shows a failing run or the failing case:

* A completing deploy re-arms the window of a domain that was removed after it was
  defined, when the record stayed Missing all along; the comment at
  `internal/vm/service.go:139` says such a window stays ended.
* A sync of a record that is not Windows stores from a snapshot. It undoes an
  install completion or overwrites a newer window that was written in between,
  exactly when it writes from a snapshot whose window facts are no longer stored.
* The daemon reads the clock once for the timestamp check and once for the nonce cache.
  "At most one shutdown per packet" holds exactly when the two readings agree.
* A reservation may name an address another client holds, and then two clients share it,
  also dynamically after the reservation is gone.
* An address scan whose range ends at 255.255.255.255 wraps around.
* A TFTP transfer over a network that reorders is safe up to 65536 blocks (65535 with
  options) and no further.
* A dynamic update can store text values and orders that do not survive a restart.
* A DNS update may add a CNAME beside other records, which section 3.4.2.2 of RFC 2136
  asks to ignore.
* A zone transfer is the union of the ANY answers, however names are resolved, exactly
  for a zone that neither lies in another nor holds another zone's name. Its two SOA
  records differ when the serial is zero, one second in 2^32 and first in February 2106,
  and the clock ticks between them.

## Model

| member | source | states |
|---|---|---|
| `VmRecords.VmService.UpdateExisting` | internal/infra/memory/vm_store.go:75-84 | a deleted row is never recreated by a status write |
| `VmRecords.VmService.UpdateStatus` | internal/vm/service.go:96-114 | only the phase of an existing row changes |
| `VmRecords.VmService.RestoreWindow` | internal/vm/service.go:159-167 | a restored snapshot loses no observation, later deadline or install marker recorded meanwhile |
| `VmRecords.VmService.UpdateDeployStatus` | internal/vm/service.go:121-193 | writes the restored window exactly when token, completion and ended-window rules allow it, else keeps the row |
| `VmRecords.VmService.MarkMissing` | internal/vm/service.go:200-232 | keeps a deploy in its define gap, else ends the window and stamps the transition into Missing |
| `VmRecords.VmService.FailDeploy` | internal/vm/service.go:239-262 | touches only the failing deploy's own window and never a completed one |
| `VmRecords.VmService.MarkDomainDefined` | internal/vm/deploy.go:212-254 | stamps the definition once, renews the deadline by the full allowance, re-arms, and refreshes the deployer's copy |
| `VmRecords.VmService.SyncWithExecutor` | internal/vm/runtime_sync.go:258-311 | the record after a found or not-found answer, including expiry and leaving Missing |
| `VmLifecycle.RunKeepsInv` | internal/vm/service.go:121-193 | over every run the stored window agrees with what its deploy armed, observed and holds in memory |
| `VmLifecycle.DeadlineIsExact` | internal/vm/deploy.go:226-239 | over every run the deadline is exactly the allowance after the start before definition, and after the definition from then on |
| `VmLifecycle.WindowFactsAreFinal` | internal/vm/service.go:154-167 | within one token, definition and completion times never change once set and install markers never go back |
| `VmLifecycle.RetiredForGood` | internal/infra/api/vm_reinstall.go:103-116 | a window that was replaced or deleted never comes back in any run |
| `VmLifecycle.OnlyTheDeployRearms` | internal/vm/service.go:136-153 | only the token's own define and deploy-status calls turn its window active, and never after completion |
| `VmLifecycle.RearmsAreBounded` | internal/vm/deploy.go:226-251 | per token and run, at most two steps turn the window active, at most as many as the deploy has calls left |
| `VmLifecycle.InactiveStaysInactive` | internal/vm/service.go:136-152 | with both calls spent or the window completed, an inactive window stays inactive for ever |
| `VmLifecycle.ExpiredSyncEndsWindow` | internal/vm/runtime_sync.go:266-297 | once both calls are spent, any answered sync past the deadline ends the window for good |
| `VmLifecycle.CompletionIsTheEnd` | internal/vm/service.go:133-138 | a completed window is never active again and keeps its completion time |
| `VmLifecycle.RemovalAfterDefinition` | internal/vm/service.go:145-153 | for a domain removed after definition, the completing deploy leaves the window ended if and only if the record had been out of Missing at or after definition |
| `VmLifecycle.DefineGapIsRearmed` | internal/vm/service.go:139-153 | a define gap, however the sync loop marked it, ends with an active window, the deploy's phase and no missing mark |
| `VmLifecycle.StaleMissingMarkIsRearmed` | internal/vm/runtime_sync.go:345-351 | a concrete run in which a removed domain's window is re-armed because the record never left Missing, using both re-arms |
| `VmOutcomes.EndedExactly` | internal/vm/runtime_sync.go:266-297 | while a deploy awaits its status call its window is ended if and only if some step of the run was a not-found answer, a found answer past the deadline, or a Windows failure in time |
| `VmOutcomes.StatusCallExactly` | internal/vm/service.go:139-172 | the status call leaves a record exactly as it is when the window is ended and the record is in Error, or Missing since after the definition, and otherwise arms it again with the deadline it has |
| `VmOutcomes.CompletingDeployExactly` | internal/vm/service.go:121-193 | over every run from definition to status call, the window is left ended if and only if a step ended it and the record is in Error or is Missing after having been out of Missing |
| `VmOutcomes.FoundExactly` | internal/vm/runtime_sync.go:283-303 | which phase follows a found domain, by its state, the install in progress and the deadline; a missing mark is cleared |
| `VmOutcomes.NotFoundExactly` | internal/vm/runtime_sync.go:264-271 | in every reachable state a not-found answer leaves the record alone if and only if its window is active, undefined and within its allowance; otherwise it is marked and ended |
| `VmOutcomes.DefineExactly` | internal/vm/deploy.go:223-251 | a definition changes only the observation, deadline and activity of its owner's uncompleted window |
| `VmOutcomes.FailureIsFinal` | internal/vm/service.go:244-252 | a failure report puts its own record in Error and ends its window in every later run; other records stay |
| `VmOutcomes.InstallCompleteExactly` | internal/infra/pxehttp/install_complete.go:59-89 | the callback completes exactly the active window of its token on a record that is not Windows |
| `VmOutcomes.WindowsStageExactly` | internal/infra/pxehttp/windows_state.go:34-74 | which stage reports are taken and what each changes |
| `VmOutcomes.WindowsInstallsInOrder` | internal/infra/pxehttp/windows_state.go:40-57 | in every reachable state a Windows install is complete only after its image was applied, and that only after it started |
| `AttemptSwap.SplitRunIsAtomic` | internal/infra/memory/provisioning_attempt.go:10-32 | any run of split calls among arbitrary writers equals the run in which each successful call is atomic at its swap |
| `AttemptSwap.SwapOutcome` | internal/infra/memory/provisioning_attempt.go:10-20 | a failed swap changes nothing; a successful one writes what the call computes from the row as it is stored then, in the same attempt |
| `AttemptSwap.EachCallWritesOnce` | internal/infra/api/windows_wol.go:103-125 | however often it retries, one call writes at most once |
| `AttemptSwap.SplitSyncIsSync` | internal/vm/runtime_sync.go:355-383 | a Windows sync that swaps has the effect of an uninterrupted sync of the stored row |
| `AttemptSwap.SplitDeployStatusIsDeployStatus` | internal/vm/service.go:173-193 | a Windows deploy status that swaps acts on its own attempt, as if uninterrupted |
| `AttemptSwap.UndisturbedSyncWrites` | internal/vm/runtime_sync.go:364-372 | a Windows sync whose row did not change in between takes effect |
| `AttemptSwap.UndisturbedDeployStatusWrites` | internal/vm/service.go:174-182 | so does a Windows deploy status of the same attempt |
| `AttemptSwap.LatePowerResultIsFenced` | internal/infra/api/windows_wol.go:94-126 | a late power result writes only into its own active attempt, and a late error never over an installer error or over any of the attempt's progress evidence |
| `AttemptSwap.PowerRecordedExactly` | internal/infra/api/windows_wol.go:16-22 | a power result is recorded if and only if it is for the same attempt, name, address and system, the attempt is active, and an error finds neither an error nor any installer report |
| `AttemptSwap.UndisturbedPowerRecordWrites` | internal/infra/api/windows_wol.go:115-124 | such a record takes effect when the row did not change in between |
| `AttemptSwap.TimeoutIsFenced` | internal/app/windows_sync.go:14-33 | the timeout of an old attempt leaves a newer attempt alone |
| `AttemptSwap.TimeoutExactly` | internal/app/windows_sync.go:14-29 | a timeout ends exactly an active attempt past its deadline |
| `AttemptSwap.RecordPowerAction` | internal/infra/api/windows_wol.go:96-126 | which of the three tries wrote and what, with that try's clock reading, or why none did, for every sequence of rows seen |
| `BlindWrites.UndisturbedRunIsAtomic` | internal/vm/runtime_sync.go:355-383 | any run of split calls that store without comparing equals the run with atomic calls, when every store finds its row as it was read |
| `BlindWrites.QuietRowIsUnchanged` | internal/vm/runtime_sync.go:373-382 | a store finds its row unchanged whenever nobody wrote it since the read, whatever else happened |
| `BlindWrites.BlindCallsKeepFacts` | internal/vm/runtime_sync.go:258-353 | the sync, the missing mark, the failure report and the status write change no fact of the window they read: token, attempt, times, completion, observation and install markers |
| `BlindWrites.FactsStayExactly` | internal/vm/runtime_sync.go:355-383 | in every run of such calls, with no other write to the row, its facts are the same in every state if and only if no store writes from a snapshot whose facts differ from the stored ones |
| `BlindWrites.StoresKeepFactsExactly` | internal/vm/runtime_sync.go:355-383 | among arbitrary other writers, no store of such a call changes the facts of the row if and only if none is outdated in that sense |
| `BlindWrites.OnlyFactWritersOutdate` | internal/vm/runtime_sync.go:355-383 | no store of any run is outdated unless another writer changes facts or deletes the row |
| `BlindWrites.WriteInBetweenIsLost` | internal/vm/runtime_sync.go:359-382 | a store from a snapshot loses whatever another writer stored since the read |
| `BlindWrites.CompletionIsUndone` | internal/vm/runtime_sync.go:283-310 | a sync that overlaps an install-complete callback takes the completion back and leaves the window active |
| `BlindWrites.NewWindowIsOverwritten` | internal/vm/runtime_sync.go:283-310 | a sync that overlaps a redeploy puts the old token's window back over the new one |
| `HypervisorCascade.Backend.Insert` | internal/infra/memory/vm_store.go:47-56 | exclusive insert |
| `HypervisorCascade.Backend.DeleteCreatedToken` | internal/infra/memory/vm_store.go:61-71 | deletes only the row that carries the token |
| `HypervisorCascade.Backend.DeleteOwned` | internal/infra/memory/vm_store.go:144-154 | deletes only a row of the given hypervisor |
| `HypervisorCascade.Backend.ListByHypervisor` | internal/infra/memory/vm_store.go:127-140 | exactly the names that reference the hypervisor |
| `HypervisorCascade.Backend.DeleteHypervisorVmRecords` | internal/infra/api/cascade.go:43-65 | undisturbed, a sweep removes exactly the hypervisor's rows |
| `HypervisorCascade.Backend.CascadeDeleteHypervisor` | internal/infra/api/cascade.go:20-41 | undisturbed, the hypervisor and exactly its rows are gone |
| `HypervisorCascade.StepDoesItsPart` | internal/infra/api/vm.go:96-116 | what each store call of each interleaved request does to both tables |
| `HypervisorCascade.RequestsAdvance` | internal/infra/api/cascade.go:20-65 | the order of the calls: check, insert, recheck, rollback; load, delete; list, sweep, drop, list, sweep |
| `HypervisorCascade.RunKeepsInv` | internal/infra/api/vm.go:75-164 | in every interleaving each row is traced to its create, and its hypervisor exists or some request is still bound to remove the row |
| `HypervisorCascade.NoDanglingReference` | internal/infra/api/vm.go:104-116 | once all requests finished, every VM references a registered hypervisor |
| `HypervisorCascade.RemovalHasCause` | internal/infra/api/cascade.go:43-65 | a row disappears only by its own create's rollback, a delete of its name, or a cascade of its hypervisor |
| `HypervisorCascade.RollbackRemovesOnlyItsOwn` | internal/infra/api/vm.go:142-164 | no rollback touches a row that another create inserted |
| `LeasePool.LeaseServer.constructor` | internal/pxe/lease.go:62-94 | the restored pool holds exactly what the store's usable rows say |
| `LeasePool.LeaseServer.Release` | internal/pxe/lease.go:223-230 | drops exactly the client's lease |
| `LeasePool.LeaseServer.Reclaim` | internal/pxe/lease.go:143-154 | drops exactly the expired leases |
| `LeasePool.LeaseServer.CollectUsed` | internal/pxe/lease.go:156-163 | leased and reserved addresses |
| `LeasePool.LeaseServer.Scan` | internal/pxe/lease.go:165-176 | the 32-bit loop with its wrap-around, for every range and every set of used addresses for which it ends |
| `LeasePool.LeaseServer.Allocate` | internal/pxe/lease.go:115-177 | the pool and the answer of every allocation that ends, proved against the specification the lemmas below are about |
| `LeasePool.ScanStopsExactly` | internal/pxe/lease.go:165-174 | the loop ends if and only if the range ends below 255.255.255.255 or some address at all is unused |
| `LeasePool.ScanAnswer` | internal/pxe/lease.go:165-176 | where it ends it has the lowest unused address of the range; failing that, none below 255.255.255.255, and after wrapping the lowest unused address of all |
| `LeasePool.FirstFit` | internal/pxe/lease.go:140-176 | without reservation or renewable lease a client gets the lowest address of the range that is not taken; a full range gives none, or the lowest address below it when it ends at 255.255.255.255 |
| `LeasePool.ExhaustedExactly` | internal/pxe/lease.go:115-177 | a call that ends gives no address if and only if the client has no reservation or renewable lease, the range ends below 255.255.255.255 and all of it is reserved or held by unexpired leases |
| `LeasePool.NeverAnswersExactly` | internal/pxe/lease.go:115-177 | a call never ends if and only if there is nothing to reuse, the range ends at 255.255.255.255 and every address there is, is taken |
| `LeasePool.AnswerIsRecorded` | internal/pxe/lease.go:115-177 | every answer is the lease then recorded for the client with that time; without an answer it has none |
| `LeasePool.OthersLeasesStay` | internal/pxe/lease.go:143-154 | a call touches nobody else's lease, except that a scan drops the expired ones |
| `LeasePool.RenewerGetsItsAddress` | internal/pxe/lease.go:128-135 | a client with an unexpired lease in the range is given that address |
| `LeasePool.ReservedClientGetsItsAddress` | internal/pxe/lease.go:121-126 | after every run until the table changes, a client with a reservation is given exactly that address |
| `LeasePool.DistinctUnlessClash` | internal/pxe/lease.go:121-126 | one allocation keeps addresses distinct if and only if the client's reservation does not name another client's address |
| `LeasePool.ReservationCanClash` | internal/pxe/lease.go:121-126 | a concrete pool in which a reservation makes two clients share an address |
| `LeasePool.AddressesStayDistinct` | internal/pxe/lease.go:115-177 | over every run with clash-free tables no two clients share an address |
| `LeasePool.RestoredFromStore` | internal/pxe/lease.go:76-90 | every restored lease is a stored row that is in range and unexpired |
| `LeasePool.RestoredExactly` | internal/pxe/lease.go:76-90 | a client's last usable stored row is restored, and it has a lease if and only if it has one |
| `LeasePool.NoSharingAfterRestart` | internal/pxe/lease.go:62-94 | a restart from a store with distinct addresses never leads to sharing |
| `LeasePool.AllocateKeepsHold` | internal/pxe/lease.go:128-138 | within the advertised time one allocation by anybody leaves the holder its address and gives it to no other dynamic client |
| `LeasePool.HoldSurvives` | internal/pxe/dhcp.go:271-275 | so does every run of allocations, renewals and other clients' releases |
| `LeasePool.LeaseLastsAsConfigured` | internal/pxe/dhcp.go:27-32 | a lease is honored for exactly the configured seconds, which are the advertised ones, or for ever when none are configured and an hour is advertised |
| `LeasePool.AddressIsKeptExactly` | internal/pxe/dhcp.go:27-32 | over all runs inside the advertised time the client gets its address again and no other dynamic client does (section 4.3.1 of RFC 2131), if and only if at the grant no other unreserved client could renew that address or, for one outside the range, all addresses scanned before it are reserved |
| `LeasePool.KeptByGuard` | internal/pxe/lease.go:128-176 | a renewing client keeps its address if and only if no other unreserved unexpired lease names it; a client given a new one always does, unless the range ends at 255.255.255.255 and is full |
| `LeasePool.DistinctIsKeepable` | internal/pxe/lease.go:115-177 | pools with distinct addresses and a range below the end always meet that condition |
| `LeasePool.TwoClientsRenewOneAddress` | internal/pxe/lease.go:121-138 | a concrete run: a reservation that came and went leaves two clients renewing one address |
| `TftpTransfer.SendBlock` | internal/pxe/tftp.go:262-277 | one block is sent until its acknowledgement or the last try, and the rest of the transfer follows from there |
| `TftpTransfer.ServeTransfer` | internal/pxe/tftp.go:248-285 | for every sequence of acknowledgements and silences, the packets sent and the outcome are those of the block machine |
| `TftpTransfer.SendsBlocks` | internal/pxe/tftp.go:248-264 | every packet sent is, for some n, number n modulo 65536 with the bytes of the file from (n-1) to n times the block size; the first is number 1 with the front of the file |
| `TftpTransfer.BlockCount` | internal/pxe/tftp.go:279-282 | a file has one block more than the block size goes into it |
| `TftpTransfer.CleanTransfer` | internal/pxe/tftp.go:251-284 | when every block is acknowledged in turn the transfer completes and each block was sent once, in order |
| `TftpTransfer.PrefixAndRest` | internal/pxe/tftp.go:251-260 | blocks sent so far and bytes left to read always make up the file |
| `TftpTransfer.LastBlockCompletes` | internal/pxe/tftp.go:279-282 | the blocks up to a short one are the whole file |
| `TftpTransfer.SomeBlockIsLast` | internal/pxe/tftp.go:279-282 | every file has a short block, also when its size is a multiple of the block size (section 6 of RFC 1350) |
| `TftpTransfer.CompletesExactly` | internal/pxe/tftp.go:262-284 | a transfer completes if and only if each block's acknowledgement is among the first `retries` events of that block |
| `TftpTransfer.RepeatsEndTheTransfer` | internal/pxe/tftp.go:263-277 | repeated acknowledgements of block 1 use up the tries of block 2 and end a transfer in which nothing was lost |
| `TftpTransfer.UnorderedTransferIsSafe` | internal/pxe/tftp.go:226-285 | with loss, duplication and reordering and at most 65536 blocks (65535 with options), the receiver holds a prefix, and the whole file once either side is done |
| `TftpTransfer.StaleBlockIsAccepted` | internal/pxe/tftp.go:248-284 | with more than 65536 blocks, for any contents, a delayed full block can be taken for the short last one and makes the received file too long |
| `TftpTransfer.StaleOptionAckCompletes` | internal/pxe/tftp.go:231-241 | with options, a delayed acknowledgement of block 0 can end a transfer of 65536 blocks early |
| `TftpTransfer.SafeUnorderedExactly` | internal/pxe/tftp.go:226-285 | over all runs of the unordered network a transfer is safe if and only if it has at most 65536 blocks, 65535 with options |
| `TftpTransfer.FifoTransferIsSafe` | internal/pxe/tftp.go:248-340 | over a FIFO network that loses packets the same holds for files of any length, across block number wrap-around |
| `ShutdownPackets.EncodeThenDecode` | internal/power/executor.go:368-370 | a big-endian number reads back |
| `ShutdownPackets.DecodeThenEncode` | internal/power/shutdown.go:43-44 | any bytes are the encoding of the number they read as |
| `ShutdownPackets.BodyLayout` | internal/power/executor.go:365-375 | the bytes on the wire: GOMI, eight bytes of time, the nonce, and name and token behind their lengths |
| `ShutdownPackets.BuildShutdownPacket` | internal/power/executor.go:356-383 | a packet is built for exactly the names and tokens up to 255 bytes |
| `ShutdownPackets.ParseAndVerify` | internal/power/shutdown.go:26-89 | the cursor never leaves the datagram, on any bytes, and finds the specified fields |
| `ShutdownPackets.FieldsOfBody` | internal/power/shutdown.go:35-62 | the fields of a built body are read back from any datagram that starts with it |
| `ShutdownPackets.BodyOfFields` | internal/power/shutdown.go:35-65 | rebuilding from any fields read gives a prefix of the datagram |
| `ShutdownPackets.AcceptedExactly` | internal/power/shutdown.go:26-89 | a request is accepted if and only if the datagram starts with the packet built from it under the same secret and its time is in the window |
| `ShutdownPackets.RoundTrip` | internal/power/executor.go:356-383 | a packet received inside the window comes back with its fields, whatever trails it |
| `ShutdownPackets.ReplayCache.Seen` | internal/power/shutdown_replay.go:24-36 | evicts exactly what is past retention, then answers and records |
| `ShutdownPackets.HandleDatagram` | cmd/wol-daemon/daemon.go:63-78 | one datagram through verification, token check and cache |
| `ShutdownPackets.RunDaemon` | cmd/wol-daemon/daemon.go:49-79 | the shutdowns triggered by a whole input |
| `ShutdownPackets.TriggersExactly` | cmd/wol-daemon/daemon.go:49-79 | for every input and clock, a datagram shuts the machine down for a request if and only if it starts with the packet built from it, its time is in the window, its token is the expected one, and every earlier shutdown with its nonce has been forgotten |
| `ShutdownPackets.TriggersInTime` | internal/power/shutdown_replay.go:24-36 | under a clock that never runs backwards the last condition is that no shutdown with its nonce came within twice the ttl before |
| `ShutdownPackets.NotAgain` | internal/power/shutdown_replay.go:21-36 | a request that triggered a shutdown does not trigger another one in any later input |
| `ShutdownPackets.AtMostOnce` | internal/power/shutdown.go:75-81 | with one reading per packet, no two shutdowns of any run are for the same request |
| `ShutdownPackets.LateCheckForgets` | cmd/wol-daemon/daemon.go:63-72 | a concrete pair of datagrams that triggers one request twice when the second reading is late |
| `ShutdownPackets.ReplaySafeExactly` | cmd/wol-daemon/daemon.go:63-78 | at most once holds over all runs if and only if the two readings of a packet never differ |
| `BareMetalClaims.ClaimStore.Acquire` | internal/infra/sql/baremetal_store.go:123-156 | a valid owner gets the host exactly when it is free or already theirs; asking again changes nothing |
| `BareMetalClaims.ClaimStore.Transition` | internal/infra/sql/baremetal_store.go:157-171 | a state change happens exactly when it is legal and the host is as it was read |
| `BareMetalClaims.ClaimStore.CompleteRelease` | internal/infra/sql/baremetal_store.go:172-182 | a release completes only against the revision it was read at |
| `BareMetalClaims.ClaimStore.CommitDeployment` | internal/infra/sql/baremetal_deployment.go:11-63 | host and machine change together, exactly when owner, state, revision and sealing allow it |
| `BareMetalClaims.ClaimStore.UpsertMachine` | internal/infra/sql/machine_store.go:111-151 | a machine write is refused exactly when it breaks the host's fence |
| `BareMetalClaims.TransitionsExactly` | internal/baremetal/store.go:74-96 | the table of legal moves of a claimed host |
| `BareMetalClaims.CommitAcceptedExactly` | internal/infra/sql/baremetal_deployment.go:11-63 | which commits the store takes |
| `BareMetalClaims.CommitExactly` | internal/infra/sql/baremetal_deployment.go:11-63 | a commit publishes state, attempt and the next revision, and nothing read before it can be committed again |
| `BareMetalClaims.ReleasingIsClosed` | internal/infra/api/baremetal_deploy.go:97-159 | while a host is being released nothing can be committed |
| `BareMetalClaims.ReadyUnderItsAttempt` | internal/infra/api/baremetal.go:96-137 | a deployed host becomes ready under the committed attempt and no other |
| `BareMetalClaims.GuardsExactly` | internal/infra/api/baremetal_retry.go:38-74 | which handlers may commit, by host state and machine report |
| `BareMetalClaims.EventsExactly` | internal/infra/pxehttp/deploy_event_state.go:13-31 | which image-applied events are taken |
| `BareMetalClaims.CommittedIsFresh` | internal/machine/service.go:270-293 | a committed machine starts a new attempt with nothing applied |
| `BareMetalClaims.OwnersExactly` | internal/baremetal/store.go:66-73 | which owner names are valid |
| `BareMetalClaims.CommitHasEvidence` | internal/infra/api/baremetal_retry.go:38-74 | a handler whose guards passed against an unmoved host commits only after the current attempt's image was applied |
| `BareMetalClaims.RuleAfterCommit` | internal/infra/api/baremetal_deploy.go:55-95 | such a commit keeps the evidence rule of the whole history |
| `BareMetalClaims.StepKeepsInv` | internal/infra/pxehttp/deploy_event_state.go:13-31 | every load, event, commit, host move and machine write keeps the invariant, including handlers that work from stale reads |
| `BareMetalClaims.RunKeepsInv` | internal/infra/api/baremetal_deploy.go:97-159 | so does every run |
| `BareMetalClaims.EvidenceBetweenDeployments` | internal/machine/service.go:270-293 | within one claim, between two consecutive committed deployments an image-applied event was recorded under the first one's attempt and token |
| `DnsRecords.UpdateMeaning` | internal/infra/dns/embedded_update.go:65-104 | what each update does to the set of values of every name and type; a refused update changes nothing |
| `DnsRecords.RefusedExactly` | internal/infra/dns/embedded_update.go:65-104 | why an update is refused, for each refusal |
| `DnsRecords.AddedSetExactly` | internal/infra/dns/embedded_records.go:126-145 | the ttl and times of a set after an addition |
| `DnsRecords.ReducedSetExactly` | internal/infra/dns/embedded_records.go:157-178 | the ttl and times of a set that lost a value |
| `DnsRecords.MessagesKeepTidy` | internal/infra/dns/embedded_update.go:47-53 | whatever messages arrive, no set is ever empty or holds a value twice and no name is without sets |
| `DnsRecords.NamesInZoneExactly` | internal/infra/dns/embedded_util.go:22-24 | a name is in a zone if and only if it is the zone or has something and a dot before it |
| `DnsRecords.FollowsRfcExactly` | internal/infra/dns/embedded_records.go:126-178 | an accepted update leaves at every name and type the values section 3.4.2 of RFC 2136 asks for, if and only if it neither adds a new value in a CNAME conflict nor deletes stored SOA or NS values at the apex |
| `DnsRecords.CnameIsAddedBesideAddress` | internal/infra/dns/embedded_records.go:139-144 | a concrete map and update: a CNAME is accepted beside an address, where the RFC asks to ignore it |
| `DnsRecords.CleaningIsStable` | internal/infra/dns/embedded_records.go:180-201 | a normalized value normalizes to itself |
| `DnsRecords.NormalizedExactly` | internal/infra/dns/embedded_records.go:180-201 | which values are stored for given ones |
| `DnsRecords.UpsertExactly` | internal/infra/dns/embedded_dynamic.go:49-162 | an upsert replaces exactly one set, and does so if and only if the record is fit and no CNAME would stand beside anything else |
| `DnsRecords.DeleteExactly` | internal/infra/dns/embedded_dynamic.go:85-106 | a delete removes exactly one set |
| `DnsRecords.RunKeepsStored` | internal/infra/dns/embedded_dynamic.go:49-107 | over every run of API calls the map holds only normalized, non-empty, time-stamped sets under canonical names |
| `DnsRecords.CnameStandsAlone` | internal/infra/dns/embedded_dynamic.go:142-162 | over every such run a name with a CNAME has that one value and no other dynamic type (section 3.6.2 of RFC 1034) |
| `DnsRecords.ReloadedExactly` | internal/infra/dns/embedded_persistence.go:31-65 | a persisted set loads as itself if and only if its values are sorted, distinct and need no cleaning, and it has a supported type, a ttl and both timestamps |
| `DnsRecords.LoadsBackExactly` | internal/infra/dns/embedded_persistence.go:11-75 | any map, however it was built, comes back from its persisted entries if and only if all its names are canonical and all its sets load as themselves |
| `DnsRecords.PersistedMapLoadsBack` | internal/infra/dns/embedded_persistence.go:26-75 | after any run of API calls, loading the persisted entries gives back the same map |
| `DnsRecords.BlankTextIsLost` | internal/infra/dns/embedded_update.go:91-100 | a concrete update: a blank text value is stored and persisted, and is gone after loading |
| `DnsServer.NormalizeValues` | internal/infra/dns/embedded_records.go:180-201 | the loop yields the strictly sorted set of cleaned values |
| `DnsServer.FilterValues` | internal/infra/dns/embedded_records.go:165-170 | the values other than the deleted one, in order |
| `DnsServer.EntriesOfName` | internal/infra/dns/embedded_records.go:19-39 | one entry for each set of the name, by ascending type |
| `DnsServer.DynamicRecordEntries` | internal/infra/dns/embedded_records.go:11-41 | one entry for each set of the map and nothing else, ordered by name and type |
| `DnsServer.EmbeddedServer.AddDynamicRecordValue` | internal/infra/dns/embedded_records.go:126-145 | the new map after an addition; a CNAME replaces its value |
| `DnsServer.EmbeddedServer.DeleteDynamicRecordSet` | internal/infra/dns/embedded_records.go:147-155 | the set goes, and the name with its last set |
| `DnsServer.EmbeddedServer.DeleteDynamicRecordValue` | internal/infra/dns/embedded_records.go:157-178 | the value goes, and the set with its last value |
| `DnsServer.EmbeddedServer.ApplyDynamicUpdate` | internal/infra/dns/embedded_update.go:65-104 | map and refusal of one update record |
| `DnsServer.EmbeddedServer.ServeDynamicUpdate` | internal/infra/dns/embedded_update.go:33-62 | a message applies its records in order up to the first refused one, which leaves the earlier ones applied |
| `DnsServer.StopsThere` | internal/infra/dns/embedded_update.go:47-53 | nothing after a refused record has any effect |
| `DnsServer.EmbeddedServer.ValidateShape` | internal/infra/dns/embedded_dynamic.go:108-140 | the normalized record, or a refusal |
| `DnsServer.EmbeddedServer.ValidatePlacement` | internal/infra/dns/embedded_dynamic.go:142-162 | in some zone and without a CNAME conflict, whichever zone is found |
| `DnsServer.EmbeddedServer.UpsertDynamicRecord` | internal/infra/dns/embedded_dynamic.go:49-83 | accepted exactly when shape and placement allow it; the creation time of an existing set stays |
| `DnsServer.EmbeddedServer.DeleteDynamicRecord` | internal/infra/dns/embedded_dynamic.go:85-106 | removes exactly the named set |
| `DnsServer.EmbeddedServer.LoadOne` | internal/infra/dns/embedded_persistence.go:31-65 | one entry loaded, skipped if unusable |
| `DnsServer.EmbeddedServer.LoadDynamicRecords` | internal/infra/dns/embedded_persistence.go:11-68 | the map rebuilt from the whole list |
| `DnsServer.EmbeddedServer.ZoneForName` | internal/infra/dns/embedded_axfr.go:85-92 | some zone holding the name, or none exactly when there is none |
| `DnsServer.EmbeddedServer.HostAnswers` | internal/infra/dns/embedded_axfr.go:64-69 | one address record per inventory address, in order |
| `DnsServer.EmbeddedServer.DynamicSetAnswers` | internal/infra/dns/embedded_records.go:76-107 | the records of one set, values that do not parse left out |
| `DnsServer.EmbeddedServer.DynamicAnswers` | internal/infra/dns/embedded_dynamic.go:210-218 | as a multiset, the records of all matching sets, whatever the iteration order |
| `DnsServer.EmbeddedServer.QueryRecords` | internal/infra/dns/embedded_dynamic.go:182-221 | the answers as a multiset, and when a name is known |
| `DnsServer.EmbeddedServer.NamesInZone` | internal/infra/dns/embedded_axfr.go:48-61 | the names of the zone, each once, sorted |
| `DnsServer.EmbeddedServer.ZoneRecords` | internal/infra/dns/embedded_axfr.go:45-83 | a transfer opens and closes with the SOA and holds in between exactly the records of the zone's names |
| `DnsZones.QueryByType` | internal/infra/dns/embedded_dynamic.go:182-221 | asking for one type gives exactly the records of that type in the ANY answer, with the same counts |
| `DnsZones.AnswersAreOwned` | internal/infra/dns/embedded_dynamic.go:182-221 | an answer holds only records of the name asked for |
| `DnsZones.AnswersExactly` | internal/infra/dns/embedded_dynamic.go:182-221 | an answer holds each address, text and alias as often as the inventory lists it under the server's ttl and the stored set has it under its own |
| `DnsZones.NothingElse` | internal/infra/dns/embedded_dynamic.go:182-221 | it holds no record of another name or type |
| `DnsZones.ApexExactly` | internal/infra/dns/embedded_axfr.go:94-118 | it holds SOA and NS once each, with their contents, and only at an apex |
| `DnsZones.TransferExactly` | internal/infra/dns/embedded_axfr.go:63-79 | a transfer holds the records of each name of the zone as often as they are listed and stored, and no others |
| `DnsZones.TransferIsUnionExactly` | internal/infra/dns/embedded_axfr.go:45-83 | a transfer without its closing SOA is the multiset union of the ANY answers over the zone's names and apex if and only if the zone is the one name among them that resolves to itself |
| `DnsZones.AloneTransferIsUnion` | internal/infra/dns/embedded_axfr.go:45-92 | for a zone neither inside another nor holding another zone's name, the union holds however names are resolved |
| `DnsZones.OtherwiseNotUnion` | internal/infra/dns/embedded_axfr.go:85-92 | for every other zone some admissible way of resolving names breaks it |
| `DnsZones.UnnestedAreAlone` | internal/infra/dns/embedded_util.go:22-24 | zones that are not nested in each other all qualify |
| `DnsZones.SameSoaExactly` | internal/infra/dns/embedded_axfr.go:94-111 | both SOA records of a transfer are equal if and only if the serial is not zero or the two clock readings agree (section 2.2 of RFC 5936) |
| `DnsZones.SoaCanDiffer` | internal/infra/dns/embedded_axfr.go:94-98 | a concrete transfer whose two SOA records differ, at the one second in 2^32 whose serial is zero |
| `DnsReconciler.AddRecord` | internal/infra/dns/rfc2136.go:201-226 | a new valid address joins its name's list once; everything else stays |
| `DnsReconciler.CollectRecords` | internal/infra/dns/rfc2136.go:142-199 | each name's wanted addresses, once each, in the order first seen, in the configured zone |
| `DnsReconciler.WantedExactly` | internal/infra/dns/rfc2136.go:201-226 | an address is wanted for a name if and only if some sighting of that name has it, as an IPv4 address in the zone |
| `DnsReconciler.ReplaceMeaning` | internal/infra/dns/rfc2136.go:228-238 | the replace message run through the server's update code leaves exactly the wanted addresses and every other set untouched (sections 2.5.1 and 2.5.2 of RFC 2136) |
| `DnsReconciler.DeleteMeaning` | internal/infra/dns/rfc2136.go:240-244 | the delete message removes exactly the address set |
| `DnsReconciler.Reconciler.Exchange` | internal/infra/dns/rfc2136.go:252-283 | a message that does not arrive or names a foreign zone changes nothing |
| `DnsReconciler.Reconciler.ReplaceA` | internal/infra/dns/rfc2136.go:228-238 | all or nothing: the wanted addresses, or the set as it was |
| `DnsReconciler.Reconciler.DeleteA` | internal/infra/dns/rfc2136.go:240-244 | all or nothing |
| `DnsReconciler.Reconciler.Sync` | internal/infra/dns/rfc2136.go:105-140 | even when stopped midway, memory and server agree, each name is as before or as wanted, and just the changed names were sent, once each; it succeeds unless the link or the zone fails |
| `DnsReconciler.Reconciler.SendReplacements` | internal/infra/dns/rfc2136.go:121-129 | the same for the first loop, over the wanted names |
| `DnsReconciler.Reconciler.SendDeletions` | internal/infra/dns/rfc2136.go:130-138 | the same for the second loop, over the names no longer wanted |
| `DnsReconciler.AllSentReaches` | internal/infra/dns/rfc2136.go:105-140 | after a successful Sync `last` is the wanted map and the server's address sets are the wanted ones, unmanaged names untouched |
| `DnsReconciler.UnchangedSendsNothing` | internal/infra/dns/rfc2136.go:121-124 | a second Sync for the same records sends nothing |
| `DnsReconciler.RunAgrees` | internal/infra/dns/rfc2136.go:105-140 | over every run of Syncs, complete or not, memory and server agree and no other record type moved |
| `DnsReconciler.LastIsTheServersView` | internal/infra/dns/rfc2136.go:105-140 | on a server that began without address sets, `last` is its whole address view after every Sync |
| `BootEnvironments.Manager.Start` | internal/bootenv/manager.go:167-181 | launches a builder exactly when none is running |
| `BootEnvironments.Manager.Enter` | internal/bootenv/manager.go:194-215 | waits exactly when a build is under way, else registers one |
| `BootEnvironments.Manager.FinishBuild` | internal/bootenv/manager.go:228-243 | the build is unregistered and its channel handed over for closing |
| `BootEnvironments.RunKeepsInv` | internal/bootenv/manager.go:155-243 | in every interleaving each channel is closed or held by its live builder, and each registered name has such a builder |
| `BootEnvironments.OneBuilderPerKey` | internal/bootenv/manager.go:155-221 | `running` and `done` have the same keys, each with exactly one live builder and status building |
| `BootEnvironments.ClosedOnceByItsBuilder` | internal/bootenv/manager.go:228-243 | no channel is closed twice, and only the builder that made it closes it |
| `BootEnvironments.NoWaiterIsForgotten` | internal/bootenv/manager.go:193-210 | a waiter's channel is closed or its builder is still live |
| `BootEnvironments.FinishWakes` | internal/bootenv/manager.go:228-243 | when that builder finishes, the waiter can go on |
| `BootEnvironments.FinishShowsOutcome` | internal/bootenv/manager.go:228-243 | a finished build frees its name, closes its own channel and shows its outcome, a failed one as failed |
| `Scheduler.Collect` | internal/vm/scheduler.go:15-32 | the candidates of one pass |
| `Scheduler.TotalWeight` | internal/vm/scheduler.go:37-40 | the sum of the weights |
| `Scheduler.PickFrom` | internal/vm/scheduler.go:42-49 | the candidate whose interval holds the draw; the fallback is unreachable |
| `Scheduler.SelectHypervisor` | internal/vm/scheduler.go:9-50 | the chosen host owns the draw among all hosts, or there is no memory anywhere |
| `Scheduler.NoneReady` | internal/vm/scheduler.go:16-25 | the second pass happens if and only if no Ready host has memory free |
| `Scheduler.OneOwner` | internal/vm/scheduler.go:42-48 | every draw has at most one owner |
| `Scheduler.PicksEqualShare` | internal/vm/scheduler.go:9-61 | of the draws below the total, each host owns as many as its capacity less its reported use, and a host that is not Ready none while a Ready one has memory free |

## Left out

- VmRecords: error texts, last power action, update time, runtime addresses and placement fields of a VM record.
- VmRecords and VmLifecycle: one service call (load, compute, write) is one atomic step. `FailDeploy`, `MarkMissing`, `markDomainDefined`, `UpdateStatus`, `UpdateDeployStatus` and a sync of a record that is not Windows, the install-complete callback, which probes the guest in between, and the arming of a redeploy write after an unfenced read, so for them this is an assumption; `CompletionIsTheEnd` and `RearmsAreBounded` rest on it, and `BlindWrites` says what happens to the sync, `MarkMissing`, `FailDeploy` and `UpdateStatus` without it.
- HypervisorCascade.Backend.ListByHypervisor: yields the set of names; the order of the listing plays no part.
- HypervisorCascade: store calls succeed; migration and a reinstall with another hypervisor, which write outside the check and sweep, are not steps.
- LeasePool.LeaseServer.Scan: takes the inputs on which the loop ends; `ScanStopsExactly` says which they are.
- LeasePool.LeaseServer.Allocate: takes the calls that end; `NeverAnswersExactly` says which do not.
- LeasePool.LeaseServer.constructor: the deletion of unusable rows from the store is not modelled.
- LeasePool: one clock reading per call; the background writes to the lease store have no fixed order and are not modelled.
- LeasePool: client addresses are keys as given; textual normalization of hardware addresses is not modelled beyond blank keys.
- TftpTransfer: request and option parsing, path checks, error packets and the exchange that negotiates options, apart from its leftover acknowledgements of block 0.
- ShutdownPackets: the MAC is an arbitrary function with 32-byte results; durations do not saturate; log throttling and the wake packet are not modelled.
- BareMetalClaims.ClaimStore.Acquire: one host, so pools and the choice among free hosts are not modelled.
- BareMetalClaims: unregistration, power cycling and the sealed user data are not modelled.
- DnsRecords: the JSON text, the file replacement and load errors; canonical names, trimming and address syntax are parameters with the laws in `Lawful`.
- DnsRecords.FollowsRfcExactly: compares values only; on a duplicate the RFC replaces the TTL, while the code keeps the old one. It covers the dynamic records: addresses from the inventory count as conflicts but cannot be deleted by an update.
- DnsRecords.CnameStandsAlone: covers runs of API calls only, because incoming DNS updates do not check CNAME conflicts.
- DnsServer: sorting is applied to lists without repeats, as the map's value lists are by `MessagesKeepTidy` and `RunKeepsStored`; message packing, response codes and concurrency around the lock are not modelled.
- DnsServer.EmbeddedServer.ZoneRecords: does not fix the order of types within a name, which the code sorts.
- DnsReconciler.CollectRecords: takes names that are canonical and lie in their domain, as the host name builder yields them.
- DnsReconciler.Reconciler.Exchange: an update that is applied but whose reply is lost is not modelled.
- DnsReconciler: TSIG, transports and the inventory listing that yields names and domains; a failed exchange is one that was not applied.
- BootEnvironments: name trimming, the definition table, the ready check outside the lock and the build itself.
- Scheduler: 64-bit overflow of memory sums; the random source is a function below its bound.
- Everything else: HTTP plumbing, audit, libvirt, cloud-init and curtin rendering, OS images, Cluster API, the web UI and field validators add only easy members or I/O.
