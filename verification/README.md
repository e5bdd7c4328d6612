# ASWired agent: verified model

A Dafny model of the protocols inside the ASWired agent whose correctness depends on state, crash
points and loops, with proofs about every input or every run.

| file | component |
|---|---|
| `FirewallRules.dfy` | allowlist requests: canonical form, compilation to ordered accept/drop rules, packet semantics |
| `FirewallListing.dfy` | the rules submitted to nft and the tolerant reader of what nft prints back |
| `FirewallObservation.dfy` | the scan of a whole table listing: ownership, foreign contents, and what the listed table does to packets |
| `FirewallJournal.dfy` | the journaled transaction over the kernel table, `firewall.json` and `firewall-pending.json`, the ready gate and the core |
| `Delta.dfy`, `Snapshots.dfy`, `Telemetry.dfy` | the telemetry delta codec, its application in place to nested maps, and the stop-and-wait acknowledgement protocol |
| `Policies.dfy` | per-user connection and address counts, limits and forced termination |
| `Updater.dfy` | the self-update supervisor and its status file |
| `ControlClient.dfy` | the command deduplication cache and the pending results |
| `Channel.dfy` | the encrypted channel's counters and framings |
| `Federation.dfy` | reserved namespaces, edits of a shared user list, reconciliation with the running core |
| `Logs.dfy` | log rotation and the backward tail reader |
| `Common.dfy` | failure values, JSON trees, crash points, sorting |

How the model is built:

- An object whose methods change its fields is a class; each method's contract ties the new state to a
  value-level specification, and lemmas about that specification carry the properties.
- Anything that can fail (a command, a read, a write, a sync, a clock) is a nondeterministic choice or a
  parameter. Where a class has a `healthy` constant, the contracts also say when the operation must
  succeed if nothing fails, so "always refuse" does not meet them. Where the program answers a failure, the
  step that may fail is a parameter beside it (`shaky`, `moves`, `starts`, ...), and the contracts say what the
  answer leaves when everything after it works.
- The firewall manager and the supervisor record every device state they pass through in a ghost trail.
  A crash or a power loss can be taken at any of them; runs are sequences of completed and cut operations.
- Maps are walked in an arbitrary order (`:|` over the keys still to do), so results hold for every order.

The main results:

1. `FirewallJournal.Manager.Apply` with `Contained`: if the batch, its verification or the write of `firewall.json`
   fails and the rest works, the previous policy is back with gate and core as they were; if the journal or a sync
   fails, both are closed. `FirewallJournal.SuccessIsNeverUndone`, `CrashRestartsIntoOldOrNew`, `RunsFailClosed`: a reported apply
   is never displaced by an older revision, a crash restarts into the old or the requested policy, and
   listeners are up only over a verified table without a journal. `StoredPoliciesWereRequested` and
   `RunsStayReadable` say where every stored policy comes from and that it can be read back. `Manager.Valid` adds
   that a running core serves no management port, `Manager.Drive` that rules keep off these ports under every list of
   operations, and `CrashRestartsClear`, `PowerLossRestartsClearIff` and `CheckSufficesIff` when they still do after a
   restart; `RecoveredPolicyMayCoverThePort` gives a restart that does not.
2. `FirewallObservation.ListenersMeetThePolicy`, `VerifiedTableMeansRequest`, `OwnTableIsRecognized`,
   `FirewallListing.ReaderIsSound`, `ReaderIsTolerant`, `FirewallRules.CompiledMeaning`: from request text to
   kernel verdict the meaning is the one written down in a request of the run, at every quiet point of every run in
   which listeners are up, and every listing of the agent's own table is recognized.
3. `Delta.RoundTrip`, `Telemetry.BaselinesAgree`, and `Snapshots.ApplyObservationDelta`: the in-place deletions and
   merges compute the application that round trips, and touch neither the old snapshot nor the delta.
4. `Policies.CountersAreExact`, and from the last list as it was given: `ListsAreEnforced` for terminated sessions and
   transfers, `AdmissionIff` and `SplicingIff` for what is let in.
5. `Updater.RestartsAreTrusted`: a restart runs the binary the run began with or one that wrote the status healthy
   while it was on trial; with `PromotionIsSafeIff` for the stale file whose removal error is ignored and
   `FirstCopyIsSafeIff` for the copy that is not made by a rename.
6. `ControlClient.ResultsAreNeverLost` with `Client.Drive`: in every run of the program a result waits unless one
   event has acknowledged it, by naming it or by answering the report that carried it, and none does so twice;
   `SentIsWhatWasProduced`: what is sent for a result is that result, or a failure report iff it cannot be sent;
   `RoundsDrain` for the batches; `KeptIsLongestFit` with `Client.Execute` and `RepeatRunsAgainIff` for the cache.
7. `Channel.AcceptedIsPrefix`, `NextInOrderOpens`.
8. `Federation.NamespacesAreIsolated`, `ReadThenSync`, and `ProtocolChangeIsRefusedIff` for a guard that counts users.
9. `Logs.Read`, and the rotation invariant `Logs.Manager.Valid`, kept whatever fails: `Logs.EarlyEndKeepsIff` and
   `OverflowIff` say exactly when a failure leaves a gap or an archive too many.

Where the code and its own words disagree, the model follows the code:

- Replacing a configuration is documented by its error text to be refused when the protocol changes under a
  shared namespace's users (internal/runtime/federation.go:432-434). The code compares list lengths, so a
  list that repeats reserved names passes: `Federation.ProtocolChangeIsRefusedIff` states exactly when it is
  refused and `ProtocolChangeCanSlipThrough` gives a list that is not.
- Promotion ignores a failed removal of the old `previous` file (internal/updater/supervisor_linux.go:167);
  recovery then treats that file as the last good binary. `Updater.PromotionIsSafeIff` and
  `StalePreviousIsRestarted` state exactly when this happens, and `Updater.Supervisor.Promote` shows that the
  state right after the intent is written is the only one affected.
- A missing `current` file is filled in place (internal/updater/supervisor_linux.go:18-39, 57-67). A copy that is
  cut short is what the next start runs, unless an interrupted update is undone anyway:
  `Updater.FirstCopyIsSafeIff`.
- A command result longer than the whole cache evicts itself (internal/control/client.go:183-188), so its command
  runs again when it is delivered again: `ControlClient.RepeatRunsAgainIff`.
- An empty snapshot sent in full does not survive the wire, because an empty `set` is omitted
  (internal/wire/delta.go:15, 136). `Delta.RoundTripOverTheWire` is an if-and-only-if; snapshots always carry
  `agent_update` (internal/control/client.go:73-80).
- The configured number of archives is exceeded when the active log cannot be opened again after its rename, or
  when the surplus archive cannot be removed (internal/logfiles/logfiles.go:149-167, 190-195): `Logs.OverflowIff`
  and `OverflowExample`. A prune that fails after it has removed something leaves an older archive behind a gap:
  `Logs.EarlyEndKeepsIff` and `GapExample`. `Logs.Manager.Valid` shows that a gap takes two failed rotations in a
  row and that the next complete prune repairs both.
- A change of the management port looks at the two files only (internal/runtime/firewall_persistence.go:80-115), so
  a journal that was removed without a sync can come back on the new port after a power loss:
  `FirewallJournal.RecoveredPolicyMayCoverThePort`. The check is exact over synced files, so after every successful
  apply (`PowerLossRestartsClearIff`, `CheckIsExactAfterSuccess`), and `CheckSufficesIff` is the condition for any
  device. The core stays down over such a restart (`FirewallJournal.Manager.Restore`).

## Model

| member | source | states |
|---|---|---|
| FirewallRules.MaskingFacts | internal/runtime/firewall.go:140-143 | masking a prefix keeps exactly the addresses it contains, is idempotent, and cannot produce an IPv4-mapped base |
| FirewallRules.CanonPrefixMeaning | internal/runtime/firewall.go:127-145 | an accepted entry, canonicalized, contains exactly the addresses it was written for |
| FirewallRules.CanonPrefixIdempotent | internal/runtime/firewall.go:127-145 | canonicalizing a canonical prefix accepts it and returns it unchanged |
| FirewallRules.TrimIdempotent | internal/runtime/firewall.go:88 | trimming a rule name twice is trimming it once |
| FirewallRules.TrimDropsSpaces | internal/runtime/firewall.go:88 | trimming drops exactly the spaces around the name |
| FirewallRules.GlobalUnicastV4 | internal/runtime/firewall.go:137-143 | in octets: an IPv4 address may stand in a list iff it is not 0.0.0.0 or 255.255.255.255, loopback, multicast or link local |
| FirewallRules.GlobalUnicastV6 | internal/runtime/firewall.go:137-143 | in octets: an IPv6 address may iff it is not :: or ::1, multicast or link local |
| FirewallRules.DecodeFirewall | internal/runtime/firewall.go:67-126 | succeeds exactly on acceptable requests (revision, rule count, unique ids, unique protocol/port, valid rules) and returns the canonical policy |
| FirewallRules.ExampleIsDecoded | internal/runtime/firewall.go:67-145 | a concrete request is accepted, with its name trimmed and its network masked |
| FirewallRules.FindNoClash | internal/runtime/firewall.go:81-99 | the tables of seen ids and ports find a clash iff two rules share an id or a protocol and port |
| FirewallRules.DecodeRules | internal/runtime/firewall.go:82-117 | the loop over rules succeeds iff every rule is valid, and yields each one's canonical form in order |
| FirewallRules.DecodeRule | internal/runtime/firewall.go:84-116 | one rule is accepted iff its id, name, protocol, port and entries are valid |
| FirewallRules.CollectPrefixes | internal/runtime/firewall.go:103-114 | the loop over entries fails iff one is unreadable or refused, and otherwise keeps each canonical prefix once in order of first appearance |
| FirewallRules.Collect | internal/runtime/firewall.go:103-114 | the same loop for any reading of an entry: the table of seen prefixes keeps exactly the first appearances |
| FirewallRules.CanonCidrsFacts | internal/runtime/firewall.go:103-116 | the stored prefixes are sorted, distinct and exactly the canonical forms of the entries |
| FirewallRules.CanonRuleIdempotent | internal/runtime/firewall.go:82-117 | a canonical rule is accepted again and unchanged |
| FirewallRules.CanonicalRules | internal/runtime/firewall.go:118-125 | the rules of the canonical policy are exactly the canonical forms of the requested rules |
| FirewallRules.CanonicalSeparate | internal/runtime/firewall.go:81-99 | no two canonical rules share an id or a protocol and port, and none is lost |
| FirewallRules.CanonicalIsSorted | internal/runtime/firewall.go:118-124 | canonical rules come TCP first and by strictly rising port |
| FirewallRules.DecodingIsIdempotent | internal/runtime/firewall.go:397-403 | decoding a canonical policy again accepts it and returns it unchanged, so every file the agent writes passes its own check on reading |
| FirewallRules.RuleDecides | internal/runtime/firewall.go:434-439 | the accepts and the drop generated for one rule decide exactly the packets on its port, by its prefixes |
| FirewallRules.RulesDecide | internal/runtime/firewall.go:429-441 | first match over all generated rules accepts iff every rule on the packet's port admits its source |
| FirewallRules.EntriesAdmit | internal/runtime/firewall.go:103-116 | masking, deduplication and sorting of the entries do not change which sources are admitted |
| FirewallRules.CompiledMeaning | internal/runtime/firewall.go:67-145 | for every acceptable request and packet, first-match evaluation accepts iff no rule covers its protocol and port or some entry as written covers its source |
| FirewallRules.FamilyIsExclusive | internal/runtime/firewall.go:429-441 | a list of IPv4 entries drops every IPv6 source on its port |
| FirewallListing.ErrorsStick | internal/runtime/firewall.go:521-525 | once an item is refused the whole expression is |
| FirewallListing.ReadItems | internal/runtime/firewall.go:521-637 | the loop that leaves at the first refused item computes the left-to-right reading of the whole list |
| FirewallListing.ParseFirewallAtom | internal/runtime/firewall.go:513-645 | parses a list iff it is one and its reading concludes without contradiction or omission |
| FirewallListing.MatchSound | internal/runtime/firewall.go:540-636 | an accepted match narrows the admitted packets to exactly those the printed match selects |
| FirewallListing.ItemSound | internal/runtime/firewall.go:521-637 | the same for every item; only the last one may set the verdict, and it is the printed verdict |
| FirewallListing.FoldSound | internal/runtime/firewall.go:521-637 | after the loop the collected selectors admit exactly the packets all items select |
| FirewallListing.ReaderIsSound | internal/runtime/firewall.go:513-645 | any accepted expression ends in the atom's verdict and selects exactly the packets the atom describes |
| FirewallListing.ListingMeaning | internal/runtime/firewall.go:716-730 | a listing that reads as a list of atoms is judged by the kernel, packet by packet, as the atoms are |
| FirewallListing.ReadForm | internal/runtime/firewall.go:548-636 | each printed form of a selector, read in any order after the others, adds exactly that selector |
| FirewallListing.TrackForms | internal/runtime/firewall.go:521-637 | reading any arrangement of distinct selectors collects exactly their kinds |
| FirewallListing.FormsCollect | internal/runtime/firewall.go:521-637 | the same for the printed forms of a generated rule |
| FirewallListing.ReaderIsTolerant | internal/runtime/firewall.go:460-481 | any reordering, omission of redundant meta selectors, numeric constants, or plain form of a full-length prefix reads back as the generated atom |
| FirewallListing.BatchReadsBack | internal/runtime/firewall.go:449-484 | the batch compiled from any acceptable request reads back as its own atoms |
| FirewallObservation.ObserveFirewall | internal/runtime/firewall.go:646-742 | the table is seen iff the inventory names it, and then as the scan of its whole listing concludes |
| FirewallObservation.ScanIsKnown | internal/runtime/firewall.go:680-732 | a scan that finds nothing wrong has read the rules of the input chain in order, and no other chain has a hook |
| FirewallObservation.AcceptingChain | internal/runtime/firewall.go:710-715 | a chain with policy accept lets a packet pass iff the first matching rule does |
| FirewallObservation.ObservationIsSound | internal/runtime/firewall.go:743-748 | a table taken for a policy does to every packet what the compiled policy says, whatever else was printed |
| FirewallObservation.VerifiedTableMeansRequest | internal/runtime/firewall.go:646-748 | after verification a packet passes iff no rule covers its protocol and port or an entry as written covers its source |
| FirewallObservation.ListenersMeetThePolicy | internal/runtime/firewall.go:807-1012 | at every quiet point of every run with crashes, power losses and failures, while the core runs or the gate is open, there is one request - submitted earlier in the run, or the stored policy the run began with - such that a packet passes the live table iff that request as written lets it pass; with no policy every packet passes |
| FirewallObservation.CommittedRequest | internal/runtime/firewall.go:865-881 | behind every stored policy there is an acceptable request of the run, or a policy stored at its start, with that canonical form |
| FirewallObservation.OwnerWasListed | internal/runtime/firewall.go:696-709 | an ownership token comes from an owner chain of that name |
| FirewallObservation.ForeignTableIsNotOwned | internal/runtime/firewall.go:732-754 | a table of the same name without the agent's owner chain is never taken for its own, whatever its comment says |
| FirewallObservation.OwnerLineScans | internal/runtime/firewall.go:696-709 | the agent's owner chain yields its token |
| FirewallObservation.RuleLineScans | internal/runtime/firewall.go:716-730 | any printed form of a generated rule adds exactly its atom |
| FirewallObservation.LineScans | internal/runtime/firewall.go:680-732 | every line of a listing of the agent's own table has exactly its own effect on the scan |
| FirewallObservation.ListingKeepsTrack | internal/runtime/firewall.go:680-732 | so has the whole listing, in any order of its lines |
| FirewallObservation.OwnTableIsRecognized | internal/runtime/firewall.go:449-510 | every listing of the table compiled for a policy, with any handles, with or without the comment, is seen as exactly that table |
| FirewallJournal.VisitedIsSafe | internal/runtime/firewall.go:944-1011 | every device state an operation passes through is safe: restart finds the old or the intended policy |
| FirewallJournal.TargetIsServing | internal/runtime/firewall.go:225-251 | a rule has a target iff an eligible listener off the excluded ports carries its port, and the target describes that listener |
| FirewallJournal.PortIsUsedOnceIff | internal/runtime/firewall.go:203-224 | a port counts as used once iff exactly one inbound carries it |
| FirewallJournal.EligibleIff | internal/runtime/firewall.go:225-251 | an inbound may carry a rule iff it is alone on its port, off the excluded ones, and a named TCP listener of one of three protocols on a wildcard address |
| FirewallJournal.BindingIsRetainedIff | internal/runtime/firewall.go:895-911 | a binding is retained iff the first earlier one on its port is the same, or there is none and the core runs |
| FirewallJournal.BindingsServe | internal/runtime/firewall.go:337-354 | rules can be bound iff each has an eligible listener; then each is bound to its own, in order, and all avoid port 22 and every management port |
| FirewallJournal.Manager.constructor | internal/runtime/firewall.go:807-818 | a new process starts with the gate closed and the core down over whatever stores it finds, whatever ports they cover |
| FirewallJournal.Manager.ReadFile | internal/runtime/firewall.go:372-408 | a file is read back iff nothing fails and it is well formed: owner token, canonical rules, one binding for each rule |
| FirewallJournal.Manager.ReadState | internal/runtime/firewall.go:409-414 | the pending file wins over the committed one; only well-formed states are returned |
| FirewallJournal.Manager.Observe | internal/runtime/firewall.go:646-742 | a successful listing is the live table |
| FirewallJournal.Manager.SyncDirectory | internal/runtime/firewall_persistence.go:17-29 | success makes the current files the only ones a power loss can leave; failure changes nothing |
| FirewallJournal.Manager.SaveCommitted | internal/runtime/firewall.go:415-427 | write and sync outcomes of `firewall.json` are told apart, and each passes only through safe states |
| FirewallJournal.Manager.SavePending | internal/runtime/firewall.go:415-427 | the same for the journal |
| FirewallJournal.Manager.RemoveJournal | internal/runtime/firewall_persistence.go:31-53 | success leaves no journal, durably; a failed sync puts the journal back, and if that works it is durable again |
| FirewallJournal.Manager.PutBack | internal/runtime/firewall_persistence.go:41-52 | the journal is written again or stays removed, and either state is safe |
| FirewallJournal.Manager.RunBatch | internal/runtime/firewall.go:755-774 | an honest success leaves the table of the target; every failure, committed or not, stays safe |
| FirewallJournal.Manager.Status | internal/runtime/firewall.go:775-806 | can only close the gate, and leaves it when the live table matches |
| FirewallJournal.Manager.PersistenceFailure | internal/runtime/firewall_persistence.go:55-65 | leaves the gate closed and the core stopped |
| FirewallJournal.Manager.CommitFiles | internal/runtime/firewall.go:932-937 | success means the policy is committed, durable and without journal |
| FirewallJournal.Manager.Settle | internal/runtime/firewall.go:853-863 | persists a policy the table was seen to match, or leaves everything closed |
| FirewallJournal.Manager.RestoreTable | internal/runtime/firewall.go:831-852 | a verified restore matches the policy; a table that already matches is untouched |
| FirewallJournal.Manager.Restore | internal/runtime/firewall.go:807-864 | success opens the gate only over the effective policy, verified, settled and off every management port; failure leaves it closed; succeeds when nothing fails, the policy can be read and the configuration allows it |
| FirewallJournal.Manager.Reopen | internal/runtime/firewall.go:811-864 | the same with the gate still closed |
| FirewallJournal.Manager.RestoreState | internal/runtime/firewall.go:819-863 | the same for a policy that has been read: allowed by the configuration, applied, verified, settled |
| FirewallJournal.Manager.RestorePrior | internal/runtime/firewall.go:947-968 | success puts table and files of the previous policy back |
| FirewallJournal.Manager.Rollback | internal/runtime/firewall.go:947-986 | listeners stay up only over the previous policy, back and verified |
| FirewallJournal.Manager.Install | internal/runtime/firewall.go:944-1011 | journal, batch, verification, files; a failure of the batch, its verification or the write of `firewall.json` is rolled back to the previous policy with gate and core as they were, one of the journal or of a sync closes both |
| FirewallJournal.Manager.Submit | internal/runtime/firewall.go:987-996 | the kernel takes the batch and its listing shows it |
| FirewallJournal.Manager.Finalize | internal/runtime/firewall.go:997-1011 | the files after a verified table, with the same answers to failures |
| FirewallJournal.Manager.Conclude | internal/runtime/firewall.go:997-1011 | once `firewall.json` is durable the journal is dropped and the gate opened, otherwise both are closed |
| FirewallJournal.Manager.Prepare | internal/runtime/firewall.go:882-923 | a candidate keeps the owner token, carries the request with its listener bindings, avoids every excluded port and can be read back; refused only if the request cannot be bound or something fails |
| FirewallJournal.Manager.Select | internal/runtime/firewall.go:874-923 | a candidate stands for an admissible, bindable request over the persisted policy, and there is one when nothing fails |
| FirewallJournal.Manager.Carry | internal/runtime/firewall.go:924-946 | a repeated revision that is live only settles its files, otherwise the candidate is installed |
| FirewallJournal.Manager.Apply | internal/runtime/firewall.go:865-1012 | refuses a request that cannot be decoded without any change; otherwise keeps the invariant, refuses stale or conflicting revisions without any change, persists only the canonical form of the request, and success settles exactly that; when nothing else fails an admissible and bindable request succeeds, is rolled back, or closes gate and core, according to the step that fails |
| FirewallJournal.Manager.ApplyDecoded | internal/runtime/firewall.go:870-1012 | the same for a decoded request |
| FirewallJournal.Manager.StartCore | internal/runtime/core.go:117-157 | the core runs only over the effective policy, verified, settled and off every management port, and it starts when nothing fails and the configuration fits |
| FirewallJournal.Manager.StopCore | internal/runtime/core.go:158-165 | stopping changes no store |
| FirewallJournal.Manager.Refresh | internal/runtime/firewall.go:775-806 | a status request changes no store and keeps the invariant |
| FirewallJournal.Manager.Protects | internal/runtime/firewall_persistence.go:95-101 | finds a port iff a persisted rule covers it |
| FirewallJournal.Manager.FindFree | internal/runtime/firewall_persistence.go:86-104 | a port is free iff neither file covers it, as far as they can be read |
| FirewallJournal.Manager.UpdateConnection | internal/runtime/firewall_persistence.go:80-115 | moves the management port iff both files can be read and leave it free, keeps every used port reserved, and keeps all persisted rules off all of them if they were |
| FirewallJournal.Manager.Perform | internal/runtime/firewall.go:807-1012 | every operation is an event of a run, persists only canonical forms of its request, keeps rules off the management ports if they were, and releases none of these ports |
| FirewallJournal.Manager.Drive | internal/runtime/firewall_persistence.go:80-115 | any list of operations makes up a run with its requests; the rules keep off every port that management has used since, and the core runs over no other rules |
| FirewallJournal.PowerLossKeepsSound | internal/runtime/firewall_persistence.go:15-29 | a power loss leaves a sound device that can recover nothing new |
| FirewallJournal.StepIsSafe | internal/runtime/firewall.go:865-1012 | any event, completed or cut short, leaves a sound, fail-closed state whose possible recoveries and file contents are old ones or the requested policy |
| FirewallJournal.RunsFailClosed | internal/runtime/firewall.go:807-864 | in every run, whenever the core runs or the gate is open the live table matches the committed policy and there is no journal |
| FirewallJournal.RefusedApplyChangesNothing | internal/runtime/firewall.go:874-881 | a refused apply adds no possible recovery |
| FirewallJournal.StepKeepsFloor | internal/runtime/firewall.go:865-1012 | no event makes a policy below an established one recoverable |
| FirewallJournal.RunKeepsFloor | internal/runtime/firewall.go:865-1012 | nor does any run |
| FirewallJournal.SuccessIsNeverUndone | internal/runtime/firewall.go:874-881 | after a success at revision r with rules R no later apply in any run succeeds below r, or at r with other rules |
| FirewallJournal.CrashRestartsIntoOldOrNew | internal/runtime/firewall.go:944-1011 | a crash inside an apply restarts into the old or the requested policy, and so does a power loss over files durable at its start |
| FirewallJournal.SuccessSurvives | internal/runtime/firewall.go:997-1011 | right after a success any crash or power loss restarts into the requested policy |
| FirewallJournal.StoredPoliciesWereRequested | internal/runtime/firewall.go:415-427 | in every run, whatever is or may come back in a file was there at the start or is what an earlier apply came to persist |
| FirewallJournal.RunsStayReadable | internal/runtime/firewall.go:397-406 | no run leaves a file, now or after a power loss, that the agent would refuse to read |
| FirewallJournal.CrashRestartsClear | internal/runtime/firewall_persistence.go:80-115 | a process crash inside an operation that began clear of the management ports restarts clear of them |
| FirewallJournal.PowerLossRestartsClearIff | internal/runtime/firewall_persistence.go:80-104 | over synced files every power loss restarts clear of the ports iff the files are clear of them now, which is what the check before a port change looks at |
| FirewallJournal.RestartsClearIff | internal/runtime/firewall_persistence.go:31-53 | on any device, every power loss restarts clear iff no content that may survive covers a port |
| FirewallJournal.CheckIsExactAfterSuccess | internal/runtime/firewall.go:997-1011 | right after a successful apply a port is free in the files iff it is free after every power loss |
| FirewallJournal.CheckSufficesIff | internal/runtime/firewall_persistence.go:80-104 | looking at the two files is enough for every port iff each port that a power loss can bring back in a rule is covered by a file now |
| FirewallJournal.RecoveredPolicyMayCoverThePort | internal/runtime/firewall_persistence.go:31-53 | for any policy, an apply on a fresh agent with its core running, whose rollback removes the journal without a sync, leaves the ports of the policy free for management, and a power loss brings the policy back |
| Delta.ObservationDiff | internal/wire/delta.go:72-96 | for every key order the patch is the difference and the paths list exactly the removable fields, each once |
| Delta.PatchHoldsOnlyChanges | internal/wire/delta.go:71-88 | a difference holds only fields that the old snapshot lacks or has otherwise |
| Delta.VisitKey | internal/wire/delta.go:74-89 | one key extends patch and removals by exactly its own share |
| Delta.ListRemoved | internal/wire/delta.go:90-94 | the second loop completes the listing |
| Delta.RemovalCommutes | internal/wire/delta.go:148-165 | one listed removal succeeds wherever it stands in the order and disturbs no other |
| Delta.RemovedSoFar | internal/wire/delta.go:148-165 | any duplicate-free list of removals succeeds and removes exactly its paths |
| Snapshots.MergeObservation | internal/wire/delta.go:119-129 | for every key order the loop leaves the recursive merge in the target, writes only to maps of the target, and leaves the patch alone |
| Snapshots.MergeKey | internal/wire/delta.go:120-128 | one key is merged in place or replaced, the others are kept |
| Snapshots.MergeNested | internal/wire/delta.go:123-124 | two nested maps are merged within the place they stand in |
| Snapshots.Overwrite | internal/wire/delta.go:125-127 | otherwise the field takes the value of the patch, nested maps included |
| Delta.MergeCompletes | internal/wire/delta.go:166-168 | once all removals are done, merging the difference gives the new snapshot |
| Delta.DiffStaysBounded | internal/wire/delta.go:132 | a difference is no deeper than the new snapshot |
| Delta.RemovalsAreShort | internal/wire/delta.go:149-151 | no removal path of bounded snapshots exceeds 64 |
| Delta.MakeObservationDelta | internal/wire/delta.go:104-117 | full across generations; within one, a patch only when shorter, and always when every patch is shorter |
| Delta.GenerationIsTheField | internal/wire/delta.go:97-100 | the generation is the field `xray_stats.generation`, null when missing |
| Snapshots.ApplyObservationDelta | internal/wire/delta.go:131-169 | the loops compute the specified application, with every error case, and refuse a delta for another base; no map that existed before is changed, and the result shares none with the old snapshot or the delta |
| Snapshots.Patch | internal/wire/delta.go:148-168 | deletions, merge and copy on a snapshot that is not yet shared write only to its own maps |
| Snapshots.CloneObservation | internal/wire/delta.go:28-49 | a copy is the same snapshot in maps of its own, or fails by size or depth |
| Snapshots.Encode | internal/wire/delta.go:32-35 | encoding reads the whole snapshot |
| Snapshots.Build | internal/wire/delta.go:39-44 | decoding builds the whole snapshot in new maps, each in one place |
| Snapshots.RemoveFields | internal/wire/delta.go:148-165 | the loop deletes exactly the listed fields, failing iff a path is empty, too long or missing at its turn |
| Snapshots.Remove | internal/wire/delta.go:152-164 | following a path deletes exactly its field, failing iff a parent is no map or the field is missing |
| Snapshots.Replaced | internal/wire/delta.go:123-124 | a change inside one nested map changes the snapshot at that key only |
| Delta.RoundTrip | internal/wire/delta.go:104-169 | applying a described delta to the old snapshot gives exactly the new one, whatever order the removals have |
| Delta.RoundTripOverTheWire | internal/wire/delta.go:12-17 | over the wire this holds iff it is not an empty snapshot sent in full |
| Telemetry.Session.OnSample | internal/control/stream.go:229-246 | sends iff nothing is pending, the sequence is not exhausted and the sample can be copied, then against the acknowledged base and as a patch where that is shorter; skips or closes otherwise |
| Telemetry.Session.OnAck | internal/control/stream.go:263-269 | an acknowledgement is taken iff it is the pending one |
| Telemetry.DeliverKeepsInv | internal/control/delta_test.go:72-110 | the update in flight always applies and yields the agent's pending sample |
| Telemetry.StepKeepsInv | internal/control/stream.go:229-269 | every step of agent, network and controller keeps them in step |
| Telemetry.RunsKeepInv | internal/control/stream.go:229-269 | so does every run with reconnects |
| Telemetry.BaselinesAgree | internal/control/stream.go:229-269 | the controller's (sequence, baseline) is the agent's (revision, base) or (revision + 1, pending), holds only complete samples, and nobody refuses the other |
| Telemetry.DeltasUseAcknowledgedBaselines | internal/control/stream.go:231-235 | every delta sent is based on what the controller holds and has acknowledged |
| Policies.EnteredIsTallied | internal/runtime/policy.go:114-118 | entering keeps the counters equal to the tally |
| Policies.LeftIsTallied | internal/runtime/policy.go:125-131 | leaving keeps them equal, and the counters it decrements are positive |
| Policies.AdmissionIsGood | internal/runtime/policy.go:96-118 | an admission that passes the checks keeps tallies, limits and enforcement |
| Policies.ReleaseIsGood | internal/runtime/policy.go:121-133 | so does a release, whoever owns the credential by then |
| Policies.SpliceIsGood | internal/runtime/policy.go:69-80 | so does an unbounded transfer of an unrestricted user |
| Policies.InstallPolicies | internal/runtime/policy.go:195-223 | after the loops users have the listed policy or none, credentials map to the last listed user, counters are zero |
| Policies.AssignEmails | internal/runtime/policy.go:220-222 | the loop maps every credential of a policy, in order |
| Policies.CredentialsAreMapped | internal/runtime/policy.go:207-223 | a credential belongs to the user of the last policy that names it, and one that none names is not mapped |
| Policies.UsersGetTheirPolicy | internal/runtime/policy.go:207-219 | a user has the last policy listed for it, or none |
| Policies.Recount | internal/runtime/policy.go:224-231 | for every order, counters are the tally of the sessions under the new mapping, and exactly the hooks of disabled users' sessions are collected |
| Policies.Revisit | internal/runtime/policy.go:232-236 | exactly the hooks of unbounded transfers of bounded users are collected |
| Policies.ReassignmentIsGood | internal/runtime/policy.go:186-237 | a policy change restores the whole invariant |
| Policies.StepIsGood | internal/runtime/policy.go:69-134 | every operation keeps it |
| Policies.RunsAreGood | internal/runtime/policy.go:69-134 | so does every run |
| Policies.CountersAreExact | internal/runtime/policy.go:81-134 | in every run connection and address counts equal the tally of owned sessions, entries are positive, and counts stay within max(limit, value at the last apply) |
| Policies.PoliciesAreEnforced | internal/runtime/policy.go:186-237 | in every run the last policy change has called the hook of each session of a disabled user and of each unbounded transfer of a bounded user, whatever was admitted since |
| Policies.RunsAreGoverned | internal/runtime/policy.go:186-223 | at every point of every run the tables are those of the last list |
| Policies.ListDecides | internal/runtime/policy.go:79-93 | the state that answers for a credential has the policy that the list has for it |
| Policies.ListsAreEnforced | internal/runtime/policy.go:224-236 | in every run, where the last list disables the user of a credential the hooks of its sessions have been called, and where it bounds the user those of its unbounded transfers |
| Policies.AdmissionIff | internal/runtime/policy.go:97-118 | in every run a session is admitted iff the last list does not disable its user and the user is below its limits of sessions and addresses |
| Policies.SplicingIff | internal/runtime/policy.go:66-78 | in every run an unbounded transfer is registered iff the last list does not bound its user |
| Policies.Controller.constructor | internal/runtime/policy.go:63-65 | empty tables satisfy the invariant |
| Policies.Controller.State | internal/runtime/policy.go:81-92 | returns the owner's state, creating an unrestricted one on first use |
| Policies.Controller.AdmitSession | internal/runtime/policy.go:96-118 | admits iff the user is enabled and below both limits, and records exactly that session |
| Policies.Controller.Record | internal/runtime/policy.go:114-118 | the new tables are those of the admission |
| Policies.Controller.Release | internal/runtime/policy.go:121-133 | the first call removes the session from whoever owns it now, later calls change nothing |
| Policies.Controller.BeginUnboundedSplice | internal/runtime/policy.go:69-80 | registers iff the user is unrestricted and the context is live |
| Policies.Controller.EndUnboundedSplice | internal/runtime/policy.go:79 | removes the registration, idempotently |
| Policies.Controller.Apply | internal/runtime/policy.go:186-237 | the step of a policy change: listed policies, recounted sessions, every demanded hook called |
| Updater.VisitedIsSafe | internal/updater/supervisor_linux.go:166-178 | every disk state an operation passes through recovers to the good or a confirmed binary |
| Updater.Supervisor.Try | internal/updater/supervisor_linux.go:168-178 | one file operation happens or changes nothing, and is recorded |
| Updater.Supervisor.Recover | internal/updater/supervisor_linux.go:57-91 | start-up runs exactly the binary the disk recovers to, finishing or undoing the interrupted update and recording which |
| Updater.Supervisor.CopySelf | internal/updater/supervisor_linux.go:57-67 | filling a missing current file never changes what the disk recovers to |
| Updater.Supervisor.Promote | internal/updater/supervisor_linux.go:159-185 | an artifact that fails its verification changes nothing but the status; a verified one goes on trial with the good binary set aside, is undone if it does not move in, and rolled back if it does not start; safe at every crash point, except for the one after the intent when a stale file could not be removed |
| Updater.Supervisor.Begin | internal/updater/supervisor_linux.go:168-178 | intent, set aside, move in: each state in between is safe, apart from the intent over a stale file |
| Updater.Supervisor.Rollback | internal/updater/supervisor_linux.go:119-129 | the good binary is back in place and running, or the supervisor stops in a safe state |
| Updater.Supervisor.GiveUp | internal/updater/supervisor_linux.go:141-148 | an exited or late replacement is rolled back |
| Updater.Supervisor.Confirm | internal/updater/supervisor_linux.go:186-193 | a healthy replacement becomes the good binary |
| Updater.Supervisor.Stage | internal/updater/updater.go:80-104 | refused without change while an update is under way; otherwise the artifact is staged for its task |
| Updater.Supervisor.Acknowledge | internal/updater/updater.go:108-127 | releases the staged task or confirms the running version, nothing else |
| Updater.RunsStayInOrder | internal/updater/supervisor_linux.go:135-203 | every run of operations, cut anywhere, keeps the invariant; only an acknowledged replacement becomes good |
| Updater.ConfirmingAuthenticates | internal/updater/updater.go:118-126 | a step confirms nothing new, or it writes the status healthy while the confirmed binary runs on trial |
| Updater.RunsAreTrusted | internal/updater/supervisor_linux.go:135-203 | in every run the good binary is the initial one or authenticated in an earlier step, and so did whatever is confirmed |
| Updater.RestartsAreTrusted | internal/updater/supervisor_linux.go:54-91 | on every run a restart runs the binary the run began with or one that wrote the status healthy in an earlier step while it was the child on trial; on trial the previous file holds such a binary |
| Updater.PromotionIsSafeIff | internal/updater/supervisor_linux.go:166-178 | a promotion is crash safe iff no previous file is left or it is the good binary |
| Updater.StalePreviousIsRestarted | internal/updater/supervisor_linux.go:166-171 | otherwise a crash after the intent restarts the stale binary |
| Updater.FirstCopyIsSafeIff | internal/updater/supervisor_linux.go:18-67 | losing the supervisor during the first copy changes what is restarted, except when an interrupted update is to be undone |
| ControlClient.KeptIsLongestFit | internal/control/client.go:183-188 | the window is a suffix of the history, fits both limits, and no longer suffix does |
| ControlClient.KeptOfKept | internal/control/client.go:178-188 | evicting from the window gives the window of the whole history |
| ControlClient.DropFirst | internal/control/client.go:184-187 | dropping the first identifier leaves the tables of the rest |
| ControlClient.Evict | internal/control/client.go:183-188 | the loop ends with exactly the tables of the longest fitting suffix, never indexing an empty list |
| ControlClient.BatchFacts | internal/control/client.go:83-100 | a batch is a prefix within the limit, cannot be extended, and is non-empty when results wait and their stub fits |
| ControlClient.RoundsDrain | internal/control/client.go:83-100 | acknowledged rounds send every pending identifier once, in order, and end |
| ControlClient.ProductionConserves | internal/control/client.go:195-200 | producing keeps every result either pending, in order, or covered, and never both |
| ControlClient.DroppingKeepsInv | internal/control/client.go:204-217 | a reply by count covers exactly the places of the last report and keeps the rest in line |
| ControlClient.NamingConserves | internal/control/stream.go:22-31 | so does acknowledging by identifier |
| ControlClient.ReshapeConserves | internal/control/client.go:88-92 | so does replacing results that cannot be sent by their stubs |
| ControlClient.BuildBatch | internal/control/client.go:83-100 | the loop computes the batch; every result that fits stays as it is, one that does not may become its failure stub, and all that is sent fits |
| ControlClient.FitStep | internal/control/client.go:93-97 | one more result is taken exactly while the batch has room |
| ControlClient.Split | internal/control/stream.go:16-34 | the loop keeps the unnamed results in order and returns exactly the named successes |
| ControlClient.Client.constructor | internal/control/client.go:43-51 | an empty client satisfies both invariants |
| ControlClient.Client.Execute | internal/control/client.go:111-190 | a command runs iff its id is non-empty and outside the window; otherwise the latest recorded result is the answer; the cache is the window of the history |
| ControlClient.RepeatRunsAgainIff | internal/control/client.go:118-188 | a command delivered again right away runs again iff its execution left no record or one longer than the cache, and otherwise gets the same answer |
| ControlClient.SeenIsLast | internal/control/client.go:119-121 | the table of seen results holds the latest one |
| ControlClient.Client.Remember | internal/control/client.go:178-188 | recording keeps the cache equal to the window |
| ControlClient.Client.Produce | internal/control/client.go:196-199 | the result waits last |
| ControlClient.Client.ResultBatch | internal/control/client.go:83-100 | the batch is the specified prefix; nothing is lost |
| ControlClient.Client.Report | internal/control/client.go:53-57 | remembers exactly how many results it carried |
| ControlClient.Client.Acknowledge | internal/control/client.go:204-227 | drops as many results as the report carried if there are so many, and forgets the count; these are exactly the reported ones when they still stand first; an error reply changes nothing |
| ControlClient.Client.AcknowledgeResults | internal/control/stream.go:16-34 | covers exactly the named results; a counted report outstanding stays in line with the queue iff it carried none of them |
| ControlClient.CountedAfterNamingIff | internal/control/stream.go:16-34 | what stood first in the queue still does after naming iff none of it was named |
| ControlClient.Client.SendResults | internal/control/stream.go:194-209 | at most one batch is unanswered, and afterwards one is under way or nothing is pending |
| ControlClient.Client.BeginStream | internal/control/stream.go:36-39 | an error changes nothing; otherwise the first reply covers what was reported, the rest is sent, and a stream is open iff nothing went wrong |
| ControlClient.Client.StreamReply | internal/control/stream.go:270-290 | covers the named results and sends the next batch, with the same effect on a counted report |
| ControlClient.Client.TakeNames | internal/control/stream.go:270-284 | named results are covered and answer the batch under way; without names nothing changes |
| ControlClient.Client.RunCommand | internal/control/client.go:195-200 | one command leaves exactly its answer pending |
| ControlClient.Client.RunCommands | internal/control/client.go:195-200 | the loop leaves the answers pending in order, each given in the light of the executions before it |
| ControlClient.Client.Accept | internal/control/client.go:191-202 | an error changes nothing; otherwise the count is reset, what was reported in line with the queue is covered, and the answers to the commands wait in their order unless a connection change could not be stored |
| ControlClient.StepKeepsInv | internal/control/client.go:204-217 | every event keeps results accounted for, keeps what was last reported first in the queue, and leaves nothing reported while a stream is open |
| ControlClient.RunsKeepInv | internal/control/client.go:290-352 | so does every run with errors, lost replies, new connections and streams |
| ControlClient.CoveringAcknowledges | internal/control/stream.go:16-34 | an event takes a result off the queue iff it acknowledges it: it answers the report that holds its place, or names its identifier |
| ControlClient.SentIsWhatWasProduced | internal/control/client.go:83-100 | whatever is sent in a report or a stream is in its place the result as it was produced if that fits, and a failure report for it otherwise |
| ControlClient.ReportedWasCarried | internal/control/client.go:53-57 | a place counted as reported was carried by the last report sent, with the result produced for it or, if that does not fit, its failure report |
| ControlClient.CoveredWasAcknowledged | internal/control/client.go:204-217 | in every run the covered results are exactly the acknowledged ones |
| ControlClient.ResultsAreNeverLost | internal/control/client.go:82-100 | at every point of every run a produced result waits iff no event has acknowledged it, and at most one event does |
| ControlClient.Client.Perform | internal/control/client.go:290-352 | each thing the program does, in the phase it does it, is an event of a run |
| ControlClient.Client.Exchange | internal/control/client.go:307-351 | reporting, taking a reply and opening a stream are events of a run while no stream is open |
| ControlClient.Client.Drive | internal/control/stream.go:36-305 | any list of reports, replies, errors, losses, stream openings, stream replies, batches, commands and stream ends makes up a run, so that every acknowledgement by count meets the results it was sent for |
| Channel.NumberOfBigEndian | internal/wire/wire.go:215-219 | the big-endian counter reads back |
| Channel.NonceIsInjective | internal/wire/wire.go:215-219 | different counters give different nonces |
| Channel.NonceLayout | internal/wire/wire.go:215-219 | four zero bytes come first and the counter reads back from the rest |
| Channel.FramingsAreSeparate | internal/wire/stream.go:75 | no associated data serves both framings |
| Channel.BinaryAadIsInjective | internal/wire/stream.go:75 | the associated data fixes the binary header |
| Channel.HeaderFacts | internal/wire/stream.go:110-113 | the header carries magic, flag and counter |
| Channel.Endpoint.Seal | internal/wire/wire.go:234-250 | seals with the next counter, or fails and keeps it |
| Channel.Endpoint.SealBinary | internal/wire/stream.go:79-115 | the same counter for binary packets; the payload is compressed, and flagged so, exactly when asked for, long enough and shorter that way |
| Channel.Endpoint.OpenPacket | internal/wire/wire.go:251-276 | accepts exactly the expected packet; a rejected one changes no counter |
| Channel.Endpoint.OpenBinary | internal/wire/stream.go:117-154 | the same for binary packets |
| Channel.OpensInOrder | internal/wire/wire.go:251-276 | a deliverable frame opens only as the message sealed at the expected place |
| Channel.StepKeepsInv | internal/wire/stream.go:79-154 | sealing and any delivery keep accepted a prefix of sealed |
| Channel.RunsKeepInv | internal/wire/stream.go:79-154 | so does every run |
| Channel.AcceptedIsPrefix | internal/wire/wire.go:234-276 | under any drop, repetition, reordering or re-framing the accepted messages are a prefix of the sealed ones and no nonce repeats |
| Channel.NextInOrderOpens | internal/wire/stream.go:117-154 | the next sealed packet passes every check |
| Federation.OneNamespacePerEmail | internal/runtime/federation.go:104 | an email under two namespaces forces them to overlap |
| Federation.OverlapIff | internal/runtime/federation.go:104 | two namespaces overlap iff some email is under both |
| Federation.GrantStore.InstallFederationGrant | internal/runtime/federation.go:89-131 | a grant is admitted iff it overlaps no other, keeps its namespace and does not go back; stored namespaces stay pairwise apart |
| Federation.ReservedNamesAreApart | internal/runtime/federation.go:338-371 | the namespaces reserved on an inbound are pairwise apart |
| Federation.PreserveFederationUsers | internal/runtime/federation.go:372-402 | the loops keep the owner's free users and everybody's reserved ones |
| Federation.ConsumerEdit | internal/runtime/federation.go:291-328 | returns the consumer's own users, fails iff an email is empty or too long, and otherwise keeps everybody else's users and stores each desired one with its credential, under its own email if that is inside and under the namespace otherwise |
| Federation.OwnerEditIsIsolated | internal/runtime/federation.go:372-402 | an owner's edit sets the free part and no namespace |
| Federation.OwnerEditWithoutGrants | internal/runtime/federation.go:377-379 | without grants the owner's list is taken as it is |
| Federation.ConsumerEditIsIsolated | internal/runtime/federation.go:291-328 | a consumer's edit sets its namespace, no other one and not the free part |
| Federation.ReadThenSync | internal/runtime/federation.go:284-333 | a consumer that reads its users and sets them again changes no part of the list |
| Federation.LoadedServes | internal/runtime/users.go:156-170 | a core loaded from a valid list serves every user with its own account and nobody else |
| Federation.ValidateUsers | internal/runtime/users.go:156-170 | fails iff a user is invalid or an email repeats, and otherwise gives the desired accounts |
| Federation.RemoveStale | internal/runtime/users.go:217-227 | in any order, exactly the users not wanted as they are are removed and the missing ones remain to be added |
| Federation.AddMissing | internal/runtime/users.go:228-233 | in any order, adding completes the desired accounts |
| Federation.Inbound.Start | internal/runtime/core.go:117-157 | a started core serves the persisted list |
| Federation.Inbound.Recover | internal/runtime/users.go:210-216 | after a failure the core serves the persisted list or is down; it serves it when that works |
| Federation.Inbound.SyncUsers | internal/runtime/users.go:84-242 | success persists and serves exactly the list, touching only users that differ; failure keeps the list and leaves the core down or on it, and on it when only the edit failed |
| Federation.Inbound.SyncOwnerUsers | internal/runtime/federation.go:447-475 | the persisted list after an owner's edit, or unchanged |
| Federation.Inbound.SyncConsumerUsers | internal/runtime/federation.go:284-333 | the persisted list after a consumer's edit, or unchanged |
| Federation.EditIsIsolated | internal/runtime/federation.go:284-402 | any edit changes only its editor's part |
| Federation.NamespacesAreIsolated | internal/runtime/federation.go:284-402 | under any interleaving each namespace holds what its own last edit set and the rest what the owner last set |
| Federation.ProjectionsCoverTheList | internal/runtime/federation.go:381-390 | every user is free or in exactly one namespace |
| Federation.PreserveFederationConfig | internal/runtime/federation.go:403-446 | the nested loops carry reserved users over listener by listener, failing iff one is refused |
| Federation.ConfigKeepsNamespaces | internal/runtime/federation.go:418-438 | an accepted listener keeps every namespace's users and takes the owner's free ones |
| Federation.ProtocolChangeIsRefusedIff | internal/runtime/federation.go:432-434 | a protocol change is refused iff more reserved users are carried over than the new list itself contains |
| Federation.ProtocolChangeCanSlipThrough | internal/runtime/federation.go:432-434 | a concrete configuration that changes the protocol under a reserved user |
| Logs.LineStart | internal/logfiles/read.go:69 | finds the start of the last line |
| Logs.ReadPart | internal/logfiles/read.go:43-62 | reads at most the budget and resumes after a newline when cut |
| Logs.CutIsOneLine | internal/logfiles/read.go:62-73 | one round of the loop passes over exactly one line or none |
| Logs.CutExtends | internal/logfiles/read.go:62-73 | a round extends the exact listing down to the new offset |
| Logs.BackStep | internal/logfiles/read.go:62-73 | the same in terms of the bytes in memory, with the text of the line |
| Logs.ReadBack | internal/logfiles/read.go:61-79 | the loop lists exactly the file's lines from the end down to where it stops |
| Logs.Read | internal/logfiles/read.go:22-89 | lines equal the bytes at their offsets, come newest first without gaps, within limit and 2 MiB; not truncated implies complete, below both bounds it is not truncated, and below the limit every line that begins within the budget is shown |
| Logs.ReadOne | internal/logfiles/read.go:37-88 | one file: the next follows, or the limit or the budget is reached with everything shown that they allow |
| Logs.LastRecordIsFirstLine | internal/logfiles/read.go:20-22 | the record that ends the newest file is the first line shown |
| Logs.ArchivedAppends | internal/logfiles/logfiles.go:183-184 | an archive with a later stamp goes last |
| Logs.KeepingTheNewest | internal/logfiles/logfiles.go:154-165 | removing only the oldest archives leaves the end of what was archived |
| Logs.Inventory | internal/logfiles/logfiles.go:108-147 | lists every archive once, newest first |
| Logs.Prune | internal/logfiles/logfiles.go:149-167 | removes the archives beyond the configured number from the newest surplus one on, up to the first removal that fails; nothing when the listing fails |
| Logs.EarlyEndKeepsIff | internal/logfiles/logfiles.go:154-165 | a prune that ends early leaves no gap iff it gets no further than the first surplus archive, and then it has removed nothing |
| Logs.GapExample | internal/logfiles/logfiles.go:154-165 | one archive allowed, three found, second removal failing: the newest and the oldest are left, which are not the end of what was archived |
| Logs.PruneSparesTheNewest | internal/logfiles/logfiles.go:149-167 | wherever a prune ends, the newest archives it leaves are the newest it found |
| Logs.RenamingKeeps | internal/logfiles/logfiles.go:183-187 | archiving the active file keeps any number of newest archives in order |
| Logs.PruningKeeps | internal/logfiles/logfiles.go:149-167 | wherever a prune ends, the newest archives stay an end of everything written, and a complete one leaves no more than are allowed |
| Logs.WritingKeeps | internal/logfiles/logfiles.go:198-201 | appending keeps the order, with or without a gap |
| Logs.OpenActive | internal/logfiles/logfiles.go:98-107 | opens the active file, creating it when missing |
| Logs.Rotate | internal/logfiles/logfiles.go:178-197 | leaves nothing moved, the file archived but not replaced, or replaced with a prune that got some way; succeeds iff the prune is complete; a file that does not move is opened again |
| Logs.RotationKeeps | internal/logfiles/logfiles.go:178-197 | each outcome keeps the newest archives in order; all are in order after a complete prune, and otherwise unless there was a gap or this prune leaves one |
| Logs.OverflowIff | internal/logfiles/logfiles.go:178-197 | a rotation within the limit leaves one archive too many iff the limit was reached and the active file could not be replaced or the prune failed; it never leaves more, and never a gap |
| Logs.OverflowExample | internal/logfiles/logfiles.go:190-195 | one archive allowed, one found, new active file not opened: two archives |
| Logs.RotationBounds | internal/logfiles/logfiles.go:178-197 | no more archives than are allowed and were added since the last complete prune, and a gap takes two of these |
| Logs.RotationKeepsSizes | internal/logfiles/logfiles.go:178-197 | and every file within the limit |
| Logs.Manager.Open | internal/logfiles/logfiles.go:49-84 | refuses bad limits, prunes what was found, and starts in order without a gap |
| Logs.Manager.MakeRoom | internal/logfiles/logfiles.go:178-197 | rotates iff the record would take a non-empty file over the limit; success leaves no gap and no archive too many |
| Logs.Manager.Append | internal/logfiles/logfiles.go:198-201 | the written part of the record stands last |
| Logs.Manager.Write | internal/logfiles/logfiles.go:168-202 | refuses closed managers and oversized records without change; with an increasing clock the newest archives and the active file stay the end of everything written whatever fails, and all archives do unless an earlier failed rotation was followed by one that left a gap; a rotation that succeeds restores number and order |
| Logs.Manager.ReadTail | internal/logfiles/read.go:22-89 | the tail over the active file and then the archives, newest first; refused iff closed or the descriptor of the active file was left closed |
| Logs.Manager.Close | internal/logfiles/logfiles.go:239-251 | a closed manager keeps its files |

## Left out

Treated as ideal functions or parameters:

- Address text: parsing and printing are functions with inverse laws, and the order of printed prefixes is any total preorder.
- JSON text, base64, gzip, AEAD and key agreement: inverse, injectivity and size laws only; the LimitReader around decompression is the size check after it.
- Clocks, random tokens, nft, the file system, the core and verifiers of artifacts and signatures: nondeterministic outcomes or parameters.
- A file write is atomic: done or unchanged. Symlink checks, permissions and temporary files are not modelled.
- Error texts: failures are not told apart unless a caller does.

Not modelled:

- Edits of the nft table by other programs: in a run the table changes only through the agent's own commands.
- Replacing the core configuration (internal/runtime/core.go:28-111): its effect on the firewall is that of a stop and a start.
- Rate limiting and TransferDirection, validatePolicies, snapshots and policy files: timing or easy members.
- Socks and HTTP inbounds, which store accounts instead of clients, and the statistics operations of a federation grant.
- Pairing, identity rotation, certificates, forwarding, probes, WireGuard, nginx, geodata: orchestration of programs that are not part of this model.
- Explicit deletion and clearing of logs.
- Locks: each operation is one step, as under its mutex; hooks are modelled as called within the policy change, the program calls them right after releasing the lock.
- Sharing of maps and slices other than the nested maps of snapshots in `Snapshots.dfy`: values are copied in the model.

Contracts narrower than the code or the design, by member:

- FirewallJournal.CrashRestartsIntoOldOrNew: for a power loss it asks that the files were durable when the apply began; an earlier unsynced change can otherwise still be lost, and StepIsSafe states what may then come back.
- FirewallJournal.Manager.Prepare: the scan of /proc for socket ownership is a check that may fail.
- FirewallRules.DecodeFirewall: makes the checks of the one source loop in separate passes, so which of several errors is reported first is not stated.
- FirewallRules.DecodeRule: characters stand for the runes of a name.
- Updater.RestartsAreTrusted: assumes an installed `current` file, that the child ends with its supervisor and that the previous file could be removed; FirstCopyIsSafeIff and PromotionIsSafeIff are the exact conditions.
- Policies.Controller.AdmitSession: takes the address as it is after normalization, and the counter of identifiers does not wrap around.
- FirewallObservation.ObserveFirewall: takes both listings as decoded JSON; failing commands and undecodable output are the failures of FirewallJournal.Manager.Observe.
- Telemetry.BaselinesAgree: is about an honest, in-order controller; the controller itself is not part of the repository.
- Federation.Inbound.SyncUsers: emails are compared as they are written; a core that folds case can only fail and fall back.
- Federation.NamespacesAreIsolated: is stated for fixed grants.
- Logs.Manager.Write: time stamps are numbers, which sort like their fixed-width names.
- Logs.Read: the files do not change during a read, as its lock ensures; read errors are left out.
