# Switch configurator: a verified model

The switch configurator drives managed network switches over exclusive console
sessions and keeps their desired configuration, merged from several YAML files. This
project models its cores in Dafny 4.11 and proves what they promise.

* **The turnstile and the session pool** (`Turnstile`, `Sessions`, `Protocol`,
  `ProtocolInvariants`, `ProtocolRuns`, `ProtocolTheorems`, `PoolRefinement`). The classes
  carry the mutable fields of `StatusTracker`, `ConfiguringGuard`, `SessionPool` and `Session`;
  each method is proved against a function that stands for one lock-held section. A
  state machine built from the same functions runs any number of operations on any
  number of switches: every lock-held section and every completed await is a step, a
  task may be cancelled wherever the source awaits, guards may be dropped with their
  cleanup running later, and timers may fire at any time. tokio's semaphore is taken as
  given: one permit, waiters in arrival order, a returned permit handed to the head.
  The theorems are about every state of every run.
* **The configuration pipeline** (`VlanNames`, `PortRange`, `RowMerge`, `Merge`,
  `Validation`, `Acceptance`, `MergeConfigs`, `ConfigFiles`, `Store`, `PatchTheorems`,
  `ExternalVlans`, `SaveLoad`, `SaveOutcome`, `SaveLoadTheorems`, `SaveLoadExamples`):
  loading, port-range expansion, grouping, the priority merge, VLAN names, reference checks,
  the in-memory store with PUT, PATCH, DELETE and reload, and overlays that are saved with
  names and loaded again. Loops are methods proved against a specification function; the
  lemmas say what that function means on the fields and rows that went in: which source
  decides about a field, what a check accepts, what a request leaves in the store.
* **The diff** (`KeyedDiff`, `Diff`, `DiffTheorems`, `DiffMeaning`, `Vendors`,
  `Convergence`, `ConvergenceExamples`): what has to change on a switch, when nothing has
  to, and which requests are met by the state that is read after an apply. `DiffMeaning`
  says the differences and the desired state on rows and fields. `Vendors` says, row by
  row, what the commands of each vendor change and what its reader then shows: Aruba sorts
  the tagged VLANs and adds the native one, FortiSwitch reads no MAC notification and never
  clears a description, Cisco reads nothing but the management VLAN. The theorem is an
  if-and-only-if over the request and the state read before.
* **Supporting arithmetic and parsing** (`AllowedHosts`, `Redact`): prefix lengths and
  netmasks (section 3.1 of RFC 4632), and the automaton that masks community strings in
  FortiOS command text.

`Models` holds the configuration values, `Basics` the shared vocabulary.

## Where the code does not do what it is documented to do

The model follows the code. Each point is a theorem with its exact condition.

* A reload that the file watcher queues because a switch is busy is documented to run
  after the current apply. The watcher is the only one that takes such a reload, and
  only while it applies itself, which it cannot begin while one is pending: it is never
  taken, and the switch stays closed to everything that does not queue
  (`QueuedReloadIsStuck`, reached by the run of `ReloadGetsStuck`).
* `known_external_vlan_ids` is documented to skip a file that does not load. It skips
  the file's whole folder (`BrokenFileHidesFolder`; `KnowsAsMuchExactly` says for which
  files that makes a difference).
* An accepted overlay can make every later load fail: with an empty switch id
  (`EmptyIdBreaksLoading`), or with a hostname, address or model that contradicts another
  entry of its switch, which the check before saving does not compare
  (`ContradictionBreaksLoading`). One named `.yaml` or `.yml` is written and never read
  (`BareExtensionIsNotRead`). Nothing else about a save stops files from loading that
  loaded before (`SaveMayBreakLoading`).
* PATCH is documented to merge ports by port id. A port range is compared before it is
  expanded, so it updates nothing and leaves duplicates (`RangePatchMisses`,
  `PatchExistingPort`, `RangePatchExample`); `PatchKeepsIdsDistinct` says for which
  requests ids stay distinct. Where the duplicates disagree, the switch never reaches its
  desired state again (`RangePatchNeverConverges`).
* The second reading after an apply is there to find the switch converged. Accepted
  configurations that it never finds so: on Aruba a tagged list that does not ascend
  (`ArubaUnsortedNeverConverges`) and a mirror session with another id than 1
  (`ArubaSessionNeverConverges`), on FortiSwitch a port with MAC notification
  (`FortiMacNotifyNeverConverges`). On Cisco every apply with a VLAN or a port is refused,
  because nothing is read (`CiscoIsRefused`). `OneApplyConverges` has the whole condition.
* Ports are documented to be migrated off VLANs before those are removed. On Aruba a trunk
  stays on its native VLAN, and leaves only the first of the tagged VLANs that go
  (`MigrationFreesExactly`, `MigrationMisses`). Cisco has the same step, but as long as its
  ports and VLANs are not read, it is not reached.
* Allowed-host entries are meant to be canonical. A prefix such as `/+24` or `/024`
  keeps its spelling and reads back differently (`AcceptedEntry`, `ToFortiosAndBack`,
  `SignedPrefixIsRespelled`).
* A saved overlay loads back to the same ports only if no source that decides about its
  VLAN ids renames them, and tagged lists come back without repetitions
  (`SavedPortComesBack`, `PortComesBackUnlessRenamed`, `RenamedVlanMovesPort`); under the
  best priority it does whenever the load succeeds and yields the switch
  (`DecidingOverlayComesBack`).

## Model

| member | source | states |
|---|---|---|
| ProtocolTheorems.AtMostOneSession | switch-configurator/src/session_pool.rs:128-219 | In every reachable state of every run, a switch has at most one session that is kept or in the hands of a guard-holding operation. |
| ProtocolTheorems.ApplyIsAlone | switch-configurator/src/api/handlers.rs:259-346 | From `close_idle` until it gives up its guard, whatever fails in between, an apply coexists with no kept session and no other guard holder, whatever timers and unguarded requests do. |
| ProtocolTheorems.ReleaseReplacesNothing | switch-configurator/src/session_pool.rs:192-211 | `release` always finds the slot empty, so it never closes a replaced session on the way to arming its timer. |
| ProtocolTheorems.SessionsConserved | switch-configurator/src/session_pool.rs:105-227 | Every session ever opened is in exactly one of: kept, in hand, being closed, closed, dropped; `disconnect` is called on it at most once, never while it is kept, exactly once by the time it is closed. |
| ProtocolTheorems.ReuseNeedsEqualSettings | switch-configurator/src/session_pool.rs:87-147 | A checked-out session was opened under exactly the settings it is handed out for, however long ago: one opened for a configuration serves another only if they agree on id, model, management IP, credentials, SSH timeout, retries and `enforce_port_config`. |
| ProtocolTheorems.KeptSessionHasTimer | switch-configurator/src/session_pool.rs:192-219 | Every kept session has a pending idle timer carrying its own token, or its release is between insertion and the spawn, where it cannot be cancelled. |
| ProtocolTheorems.TimerClosesOnlyItsKeepOpen | switch-configurator/src/session_pool.rs:169-181 | A timer armed at one point of a run can at any later point close only the session its token kept open then; once that was reused and released again, it does nothing. |
| ProtocolTheorems.TokensNeverReissued | switch-configurator/src/session_pool.rs:201-209 | A token is never issued again, neither later for the same switch nor for another one. |
| ProtocolTheorems.HistoryGrows | switch-configurator/src/session_pool.rs:198-211 | Over any stretch of a run, what tokens kept open and what sessions were opened under never changes, and no token below the counter appears later. |
| ProtocolTheorems.BusyExactlyWhileGuarded | switch-configurator/src/status.rs:27-65 | The busy flag is set exactly while some guard is live or waiting for its cleanup; there is at most one permit holder, and the permit is gone exactly while there is one. |
| ProtocolTheorems.ClearTakesOnlyOwnFlag | switch-configurator/src/status.rs:45-65 | Whenever a release or a dropped guard's late cleanup clears the flag, no other operation has the permit, so nobody else's flag is cleared. |
| ProtocolTheorems.WaitingCountExact | switch-configurator/src/status.rs:102-115 | In every reachable state the waiting count is the number of operations still waiting, with time-outs and cancellation at any await. |
| ProtocolTheorems.NoBarging | switch-configurator/src/status.rs:261-276 | `try_acquire_configuring` succeeds only when no operation is queued and none has the permit. |
| ProtocolTheorems.FirstComeFirstServed | switch-configurator/src/status.rs:289-308 | Once a later arrival has the permit, an earlier one is not queued any more: it was served, or gave up. |
| ProtocolTheorems.ServedInArrivalOrder | switch-configurator/src/status.rs:289-308 | The order in which queued operations were handed the permit is their order of arrival. |
| ProtocolTheorems.PositionNeverGrows | switch-configurator/src/status.rs:289-308 | A waiter's position never grows; when the permit comes back every waiter moves up by exactly one and the head is granted it. |
| ProtocolTheorems.QueuedReloadIsStuck | switch-configurator/src/watcher/mod.rs:162-246 | A reload queued by the file watcher is never taken again in any continuation, and from then on every acquisition that does not queue is refused. |
| ProtocolTheorems.ReloadGetsStuck | switch-configurator/src/watcher/mod.rs:162-246 | A concrete run for every switch: an operation takes the turn, the watcher finds it busy and queues its reload; from there the reload is pending for ever. |
| ProtocolRuns.Reachable | switch-configurator/src/status.rs:261-308 | Every state of every run of all switches together satisfies the combined invariant of turn and pool, and no two switches share a token. |
| ProtocolRuns.StepsKeep | switch-configurator/src/session_pool.rs:63-67 | A step of one switch keeps the invariant of all switches, with the token counter shared between them. |
| ProtocolInvariants.StepKeeps | switch-configurator/src/status.rs:27-65 | Every lock-held section, completed await, cancellation, timer and unguarded close keeps the whole invariant of one switch. |
| ProtocolInvariants.PoolStepKeeps | switch-configurator/src/session_pool.rs:128-227 | Every step of a guard-holding operation keeps: exclusivity, conservation, matching fingerprints, matching timers. |
| ProtocolInvariants.BackgroundStepKeeps | switch-configurator/src/session_pool.rs:169-181 | So does every timer that fires, and every `close_idle` by a request without a turn. |
| ProtocolInvariants.DropHandKeeps | switch-configurator/src/api/handlers.rs:2011-2040 | So does dropping an operation with whatever session it had in hand (time-out or cancellation). |
| Turnstile.StatusTracker.TryAcquireConfiguring | switch-configurator/src/status.rs:261-276 | Succeeds exactly when the switch is neither busy nor has a pending reload and a permit is free; then marks it and takes the permit. Other switches are untouched. |
| Turnstile.StatusTracker.Gate | switch-configurator/src/status.rs:90-97 | A gate that was never asked for is a fresh one; asking changes nothing observable. |
| Turnstile.StatusTracker.Enqueue | switch-configurator/src/status.rs:289-299 | The waiter is counted first, then takes the free permit or joins the end of the queue. |
| Turnstile.StatusTracker.Admit | switch-configurator/src/status.rs:300-308 | With the permit, the waiter stops being counted, the switch is marked, and a live guard is returned. |
| Turnstile.StatusTracker.GiveUp | switch-configurator/src/status.rs:102-115 | A waiter that gives up leaves the queue, others in order, and is not counted any more. |
| Turnstile.StatusTracker.DropPermit | switch-configurator/src/status.rs:45-65 | A returned permit goes to the head waiter if there is one, otherwise it is available. |
| Turnstile.StatusTracker.SetCurrentlyConfiguring | switch-configurator/src/status.rs:223-227 | Marks this switch and no other. |
| Turnstile.StatusTracker.ClearCurrentlyConfiguring | switch-configurator/src/status.rs:229-233 | Unmarks this switch and no other. |
| Turnstile.StatusTracker.QueuePendingReload | switch-configurator/src/status.rs:323-326 | At most one reload is pending per switch. |
| Turnstile.StatusTracker.TakePendingReload | switch-configurator/src/status.rs:329-332 | Says whether a reload was pending and leaves none pending. |
| Turnstile.StatusTracker.QueuedCount | switch-configurator/src/status.rs:311-314 | The waiting count of the switch, 0 without a gate. |
| Turnstile.ConfiguringGuard.Release | switch-configurator/src/status.rs:45-49 | Clears the busy flag first and returns the permit afterwards; a second cleanup is disarmed. |
| Turnstile.ConfiguringGuard.RunDropCleanup | switch-configurator/src/status.rs:52-65 | Does the same for a guard that was only dropped, and nothing after `Release`. |
| Sessions.SessionPool.Checkout | switch-configurator/src/session_pool.rs:128-147 | A session kept by an operation on a configuration is handed out for another exactly when the two agree on id, model, management IP, credentials, SSH timeout, retries and `enforce_port_config`, and it resumes; otherwise it is disconnected and a freshly opened one is handed out, if opening succeeds; the slot is empty either way. |
| Sessions.FingerprintsEqualExactly | switch-configurator/src/session_pool.rs:87-103 | Two configurations have the same fingerprint exactly when they agree on the seven values that are hashed. |
| Sessions.SessionPool.CloseIdle | switch-configurator/src/session_pool.rs:153-158 | Empties the slot of that switch and disconnects what was in it. |
| Sessions.SessionPool.RemoveIfToken | switch-configurator/src/session_pool.rs:169-176 | Removes the kept session only under its own token. |
| Sessions.SessionPool.InsertSlot | switch-configurator/src/session_pool.rs:198-207 | Uses the counter as token, advances it, and reports what was replaced. |
| Sessions.Session.Release | switch-configurator/src/session_pool.rs:192-219 | Keeps a reusable session under a new token and arms its timer, closes one that is not reusable, and does nothing when the session is already gone. |
| Sessions.Session.Discard | switch-configurator/src/session_pool.rs:223-227 | Disconnects the session if it is still there; it cannot be used again. |
| PoolRefinement.CheckoutIsSteps | switch-configurator/src/session_pool.rs:128-147 | What the checkout method does to the pool is what a sequence of steps of the state machine does, whichever branch it takes. |
| PoolRefinement.ReleaseIsSteps | switch-configurator/src/session_pool.rs:192-219 | So is what the release method does. |
| PoolRefinement.DiscardIsSteps | switch-configurator/src/session_pool.rs:223-227 | So is what discarding does. |
| PoolRefinement.CloseIdleIsSteps | switch-configurator/src/session_pool.rs:153-158 | So is what `close_idle` does. |
| VlanNames.FindAmbiguousVlanName | switch-configurator/src/config.rs:1425-1437 | Returns none exactly when equal names mean equal ids, otherwise the first genuine collision in reading order. |
| VlanNames.ResolveVlanNames | switch-configurator/src/config.rs:1439-1509 | The loops compute `Resolve`, errors included; every port of an accepted switch has the VLANs its references mean, and nothing else of it changes. |
| VlanNames.ResolveRefs | switch-configurator/src/config.rs:1473-1505 | In either mode an accepted list becomes the ids that some reference of it has, each once, in the order of their first reference: an unknown reference takes nothing else away. Strict mode fails exactly on an unknown one. |
| VlanNames.ResolveAccepts | switch-configurator/src/config.rs:1439-1509 | Resolution accepts exactly when equal names mean equal ids, every name of an untagged VLAN is that of a row, and, in strict mode, so is every name of a tagged one. |
| VlanNames.ResolveGivesMeaning | switch-configurator/src/config.rs:1439-1509 | Said on the rows: each port keeps its place, id and other settings; a name becomes the id of the row that has it, a tagged list the ids its references mean, each once and in order of first mention. |
| VlanNames.KnownIdsAreTheIds | switch-configurator/src/config.rs:1473-1505 | De-duplicating the known ids gives exactly the ids that some reference has, each once, in order of first mention. |
| VlanNames.StrictImpliesLenient | switch-configurator/src/config.rs:1439-1509 | What strict mode accepts, lenient mode accepts with the identical result. |
| VlanNames.ResolveSettles | switch-configurator/src/config.rs:1439-1509 | Afterwards nothing is left to resolve, and resolving again in either mode changes nothing. |
| VlanNames.IdOfUnambiguous | switch-configurator/src/config.rs:1425-1437 | With unambiguous names, a name means an id exactly when some row says so. |
| VlanNames.DedupKeepsFirst | switch-configurator/src/config.rs:1498-1502 | De-duplication keeps every value once, where it first occurs, in the old order. |
| VlanNames.Deserialize | switch-configurator/src/models.rs:894-912 | The loop splits ids and names as `Split` says: one name defers the whole tagged list. |
| VlanNames.PreferVlanNames | switch-configurator/src/api/handlers.rs:669-715 | The loops write every port as `Written` says. |
| VlanNames.ReadBackExact | switch-configurator/src/api/handlers.rs:669-715 | Writing a port with one VLAN list, reading it and resolving it with another returns it if and only if every name kept its meaning and a tagged list written with a name has no repetition. |
| VlanNames.ReadBackKeeps | switch-configurator/src/config.rs:1439-1509 | When the names kept their meaning, the port comes back as it was, up to first-occurrence de-duplication. |
| VlanNames.ReadBackForces | switch-configurator/src/config.rs:1439-1509 | When the port comes back as it was, all its names kept their meaning. |
| VlanNames.ContainedNamesKept | switch-configurator/src/config.rs:1425-1437 | An unambiguous list that contains the (id, name) rows keeps all names. |
| VlanNames.RenamedVlanMovesPort | switch-configurator/src/api/handlers.rs:669-715 | A concrete pair of lists, both unambiguous: the port is written as VLAN 10 by name and read back as VLAN 20. |
| PortRange.ParsePortId | switch-configurator/src/config.rs:1685-1745 | The loops compute the grammar `ParseId`. |
| PortRange.ParseOneSegment | switch-configurator/src/config.rs:1690-1741 | One comma-separated segment, plain or a range, errors included. |
| PortRange.ExtractNumberSuffix | switch-configurator/src/config.rs:1752-1776 | The backward scan splits off the last run of digits and fails without one or beyond 32 bits. |
| PortRange.NumberSuffixInverts | switch-configurator/src/config.rs:1752-1776 | It inverts prefix plus decimal for every prefix not ending in a digit, and fails exactly on numbers of more than 32 bits. |
| PortRange.DecimalRoundTrip | switch-configurator/src/config.rs:1752-1776 | Decimal printing and parsing undo each other. |
| PortRange.RangeExpands | switch-configurator/src/config.rs:1685-1745 | `P a-b`, with any space around its ends, expands to exactly the b-a+1 distinct ids P followed by each decimal in order; it is refused exactly when a prefix is repeated that differs, when it runs downwards, or when a number has more than 32 bits. |
| PortRange.CommasConcatenate | switch-configurator/src/config.rs:1685-1745 | A comma list means what its parts mean, one after the other, and fails exactly where one fails. |
| PortRange.BlanksDropped | switch-configurator/src/config.rs:1689-1690 | Space around a plain id does not count. |
| PortRange.ExpandedStays | switch-configurator/src/config.rs:1685-1745 | Every id the grammar produces parses to itself. |
| PortRange.ExpandPortRanges | switch-configurator/src/config.rs:1123-1186 | The loops over ports and mirrors compute `Expand`, errors included. |
| PortRange.ExpandExactly | switch-configurator/src/config.rs:1123-1186 | Expansion succeeds exactly when every id text is understood and every mirror destination is one port; then the ids come in the order in which they are named, each on a copy of its row, mirrors name their sources one by one, and nothing else changes. |
| PortRange.ExpandMakesExpanded | switch-configurator/src/config.rs:1123-1186 | Afterwards all port and mirror ids are plain. |
| PortRange.ExpandIdempotent | switch-configurator/src/config.rs:1123-1186 | Expanding twice is expanding once. |
| RowMerge.MergeRefinesLookup | switch-configurator/src/config.rs:943-1055 | For every key the merged row and file are those of a simple lookup over the unsorted sources (least priority number, earliest among equals, first row); the merged rows are strictly sorted. |
| RowMerge.WinnerDefines | switch-configurator/src/config.rs:943-1055 | The deciding source defines the key, none with a better priority does, and there is none only if nobody defines it. |
| RowMerge.StableSortIsStable | switch-configurator/src/config.rs:954 | The sort keeps the sources of each priority in their order. |
| RowMerge.StableSortSorts | switch-configurator/src/config.rs:954 | The sort sorts and loses nothing. |
| RowMerge.RedundantSource | switch-configurator/src/config.rs:991-1032 | A source whose rows all equal the merged ones changes no merged row, whatever its priority and position. |
| Merge.MergeSingleSwitch | switch-configurator/src/config.rs:943-1055 | The loops compute the merged switch and both source maps; every field is that of the source that decides about it. |
| Merge.MergedSwitchIsDecided | switch-configurator/src/config.rs:943-1055 | Over the sources as they come: hostname, model, address, credentials, settings and each part of SNMP are those of the source with the least priority number among those that have them, the earliest of equals; a field nobody has is empty, the settings are then the defaults, and the management VLAN is dropped. |
| Merge.MergeComponent | switch-configurator/src/config.rs:991-1032 | The `entry().or_insert` loops compute the sorted first-definition rows and the map of their files. |
| Merge.MergedSwitchRefinesLookup | switch-configurator/src/config.rs:991-1032 | VLANs, ports and mirrors of a merged switch are, key by key, what the lookup says, strictly sorted. |
| Merge.SourceMapsNameTheWinner | switch-configurator/src/config.rs:991-1019 | `vlan_sources` and `port_sources` have exactly the merged keys and name the file of the deciding source. |
| Merge.RedundantSourceChangesNothing | switch-configurator/src/config.rs:943-1055 | The same as above for a whole switch: VLANs, ports and mirrors stay as they are. |
| Merge.ValidateSwitchIdentity | switch-configurator/src/config.rs:831-937 | Reports nothing exactly when all present hostnames, addresses and models agree; every report names two files that really disagree on that field. |
| Merge.AgreedFieldIsAnyones | switch-configurator/src/config.rs:973-989 | When everyone agrees, the merged field is what any source that has it says. |
| Merge.MergeSnmpConfigs | switch-configurator/src/config.rs:1058-1115 | There is a result exactly when some source has SNMP; communities, trap receivers, enabled traps and own reads are, each by itself, those of the source that decides among those with a non-empty one, and empty when there is none. |
| Merge.SortKeepsScan | switch-configurator/src/config.rs:954 | The scan finds the same value whether the sources are sorted by priority first or not. |
| Merge.ScanPicksLeast | switch-configurator/src/config.rs:1058-1115 | Each sub-list is the non-empty value of least priority number, the earliest on ties, for any input order. |
| Merge.SortedScanPicksFirst | switch-configurator/src/config.rs:1058-1115 | On sorted input that is the first non-empty one. |
| Merge.KeysOrdered | switch-configurator/src/config.rs:991-1032 | The key orders of VLANs, ports and mirrors are strict total orders. |
| Validation.ValidateSwitchConfig | switch-configurator/src/config.rs:1526-1565 | The chain of steps computes `Validate`, each error included. |
| Acceptance.ValidateExactly | switch-configurator/src/config.rs:1526-1565 | What single-switch validation accepts, said on the fields: ids that expand, required fields, VLAN ids 1-4094, secrets that can be read, nothing the vendor lacks, names that fit and mean one VLAN each, untagged VLANs that exist, supported speeds, no mirror destination among the ports. And what comes out: secrets read, names resolved, undefined tagged VLANs dropped in order, nothing else changed. |
| Acceptance.CanSettleExactly | switch-configurator/src/config.rs:1532-1565 | The steps from the required fields to the references accept exactly what can be settled, said on the fields. |
| Acceptance.CommunityReadExactly | switch-configurator/src/secrets.rs:105-163 | A community is read, with this result, exactly when it names one source, the text there without its last line ends is a usable string, and an inline name does not contradict it. |
| Acceptance.SnmpReadExactly | switch-configurator/src/secrets.rs:105-126 | All listed communities are read, and the own one exactly when reads are on; receivers, traps and everything else stay. |
| Acceptance.FinishedPort | switch-configurator/src/config.rs:1257-1420 | A finished port has its names resolved and keeps, in order, exactly the tagged VLANs that are VLAN 1 or a row of the switch. |
| Validation.ValidateIsProjection | switch-configurator/src/config.rs:1526-1565 | Run again on what it accepted it accepts and changes nothing; it leaves alone exactly the settled switches. |
| Validation.ValidateSettles | switch-configurator/src/config.rs:1526-1565 | What it accepts is settled: ids plain, names resolved and unambiguous, all references defined or implicit, no mirror destination among the ports, secrets read; id and VLANs unchanged. |
| Validation.SettledIsFixed | switch-configurator/src/config.rs:1526-1565 | Every settled switch is accepted unchanged. |
| Validation.ValidateVlanReferences | switch-configurator/src/config.rs:1257-1401 | The loops compute `CheckRefs`: name limits, untagged and tagged references, speeds, mirror destinations. |
| Validation.CheckRefsCloses | switch-configurator/src/config.rs:1257-1401 | What the lenient check accepts passes the strict one afterwards; it only drops undefined tagged VLANs. |
| Validation.KeepDefinedKeeps | switch-configurator/src/config.rs:1310-1345 | Dropping keeps exactly the defined ids, and changes nothing when all are defined. |
| Validation.SnmpSettles | switch-configurator/src/secrets.rs:83-163 | Reading secrets a second time accepts and changes nothing. |
| Validation.ValidateOverlayConfig | switch-configurator/src/config.rs:1583-1675 | The checks before an overlay is saved compute `ValidateOverlay`. |
| Acceptance.OverlayExactly | switch-configurator/src/config.rs:1583-1675 | What the overlay check accepts, said on the fields: one source for every secret, nothing the vendor lacks, distinct VLAN ids 1-4094 and port ids, unambiguous names, every name that of a row, every number a row, an external VLAN or VLAN 1, no mirror destination among the ports. Ports come out resolved, the rest as expanded. |
| Validation.VlanIdsOk | switch-configurator/src/config.rs:1597-1606 | Accepts exactly the lists of distinct ids within 1-4094. |
| Validation.PortIdsOk | switch-configurator/src/config.rs:1608-1614 | Accepts exactly the lists of distinct port ids. |
| MergeConfigs.MergeAll | switch-configurator/src/config.rs:586-808 | Fails exactly without sources or on an identity conflict; otherwise every switch id lands once, in the valid list with what its sources merge and settle to, or among the failures with its source maps. |
| MergeConfigs.EveryIdOnce | switch-configurator/src/config.rs:684-807 | An id is valid exactly when it is not a failure, and exactly when its merge passes the checks. |
| MergeConfigs.OrderIrrelevant | switch-configurator/src/config.rs:632-660 | Two outcomes for the same files have the same valid switches and failed ids, in whatever order the hash map yields the ids. |
| MergeConfigs.GroupBySwitch | switch-configurator/src/config.rs:594-623 | The nested loops collect for each id its sources in file order. |
| MergeConfigs.GroupIs | switch-configurator/src/config.rs:598-623 | A group holds exactly the entries for its id, each under the priority and name of its file. |
| MergeConfigs.GroupInOrder | switch-configurator/src/config.rs:598-623 | The sources of files that come first come first. |
| MergeConfigs.PostMergeCheck | switch-configurator/src/config.rs:684-807 | The checks after the merge, in order, compute `PostMerge`. |
| MergeConfigs.PostMergeExactly | switch-configurator/src/config.rs:684-807 | After the merge a switch is valid exactly when it can be settled, said on its fields, and has a VLAN; it is then settled to that. |
| MergeConfigs.MergedIsSettled | switch-configurator/src/config.rs:684-807 | Every valid switch out of the merge has VLANs and is settled, so single-switch validation accepts it unchanged. |
| MergeConfigs.MergedSwitchIsSound | switch-configurator/src/config.rs:943-1055 | Merging rows of well-formed, expanded sources gives a well-formed, expanded switch. |
| MergeConfigs.LoadWithMetadata | switch-configurator/src/config.rs:142-200 | Loading one file: expansion, structure, default priorities, and the refusal of folder priorities below 11. |
| MergeConfigs.LoadExactly | switch-configurator/src/config.rs:142-200 | A file loads exactly when every switch expands and is well-formed and a folder file does not ask for a priority below 11; then under its own priority, otherwise 50 for the main file and 100 in a folder, with its switches in order. |
| ConfigFiles.LoadMulti | switch-configurator/src/config.rs:210-244 | Fails exactly when some source does not load or an identity conflicts; otherwise sorts out every id, said in terms of the files as met on disk although the code sorts them first. |
| ConfigFiles.PresortChangesNothing | switch-configurator/src/config.rs:228-231 | Sorting the files before grouping changes neither the sorted sources nor the fate of any switch. |
| ConfigFiles.SortedIsUnique | switch-configurator/src/config.rs:954 | A list sorted by priority is determined by its sources of each priority. |
| ConfigFiles.ScanConfigFolder | switch-configurator/src/config.rs:511-559 | The loop loads the scanned files of a folder in order of name, all or nothing. |
| ConfigFiles.LoadFilesExact | switch-configurator/src/config.rs:511-559 | A scan succeeds exactly when every scanned file loads, and then has exactly those. |
| ConfigFiles.LoadFilesInOrder | switch-configurator/src/config.rs:511-559 | Files load in the order of their names: a list of files loads as its parts, one after the other. |
| ConfigFiles.LoadFoldersInOrder | switch-configurator/src/config.rs:210-226 | So do folders, in the order in which they are given. |
| ConfigFiles.LoadSingle | switch-configurator/src/config.rs:108-140 | Single-file loading validates each switch by itself, in order. |
| ConfigFiles.SingleFileSortsOut | switch-configurator/src/config.rs:342-370 | Every switch of a single file is valid or failed; the valid ones are settled. |
| ConfigFiles.SingleFileInOrder | switch-configurator/src/config.rs:342-370 | Valid and failed switches come in the order of the file. |
| ConfigFiles.NoConflictPairwise | switch-configurator/src/config.rs:831-937 | The identity check of a whole load passes exactly when any two entries with the same id agree on every hostname, address and model they both have. |
| ConfigFiles.KnownExternalVlanIds | switch-configurator/src/config.rs:259-292 | Collects exactly the ids declared by the main file if it loads and by folders of which every file loads, never those of the excluded file. |
| Store.ConfigStore.SetSwitchConfig | switch-configurator/src/api/handlers.rs:1223-1333 | PUT is accepted exactly when the ids agree and the whole switch validates; then the switch found under the id has every field of the request, secrets read, ranges expanded and names resolved, and default settings, and every other id is found as before; otherwise nothing changes; every stored switch stays settled. |
| Store.ConfigStore.PatchSwitchConfig | switch-configurator/src/api/handlers.rs:1349-1481 | PATCH is not found without the switch and updates exactly when the patched switch validates; then every field that the request gives is the request's in the switch found in the store, SNMP with its secrets read, every field it leaves out is as it was, VLANs and mirrors are the last request row of a key, otherwise the old row, and every other id is found as before; otherwise nothing changes; every stored switch stays settled. |
| Store.PatchedIsPatched | switch-configurator/src/api/handlers.rs:1394-1451 | The same about the validated result of a PATCH of a settled switch, field by field. |
| Store.RequestedIsRequested | switch-configurator/src/api/handlers.rs:1223-1333 | The validated result of a PUT is the request, field by field. |
| Store.ConfigStore.DeleteSwitchConfig | switch-configurator/src/api/handlers.rs:1556-1588 | DELETE removes every switch with the id, keeps the others in order, and says whether there was one. |
| Store.ConfigStore.Reload | switch-configurator/src/api/handlers.rs:926-990 | A full reload replaces the store by what the files yield, or changes nothing when they do not load; every stored switch is settled afterwards. |
| Store.ConfigStore.ReloadSwitch | switch-configurator/src/api/handlers.rs:1075-1168 | A reload of one switch replaces or adds only that switch, and only if the files yield it. |
| Store.LoadedIsSettled | switch-configurator/src/api/handlers.rs:926-990 | Whatever a load yields, from one file or several, is settled. |
| Store.MergeInto | switch-configurator/src/api/handlers.rs:1411-1447 | The upsert loops compute `UpsertAll`. |
| Store.UpsertAllFinds | switch-configurator/src/api/handlers.rs:1411-1447 | After merging a list of changes the last change of a key is found, every other key finds what it found. |
| Store.UpsertFinds | switch-configurator/src/api/handlers.rs:1310-1316 | After replacing or adding a row it is found under its key, and every other key as before. |
| Store.WithoutKeepsOthers | switch-configurator/src/api/handlers.rs:1562-1565 | Deleting keeps exactly the switches with another id, in order, and shrinks the list exactly when there was one. |
| PatchTheorems.PatchExistingPort | switch-configurator/src/api/handlers.rs:1349-1481 | Exactly what an accepted PATCH does to a port the switch had: the last request row with literally that id decides, without one the port is as it was. |
| PatchTheorems.PatchedPort | switch-configurator/src/api/handlers.rs:1349-1481 | Said on the port that is stored: as it was without a literal row, otherwise that row with its names resolved and its undefined tagged VLANs dropped. |
| PatchTheorems.RangePatchMisses | switch-configurator/src/api/handlers.rs:1422-1457 | A port range in a PATCH does not reach the ports it names: the old port is still the one found, and a second row with the same id stands behind it. |
| PatchTheorems.PatchKeepsIdsDistinct | switch-configurator/src/api/handlers.rs:1349-1481 | After an accepted PATCH of a settled switch with distinct port ids the ids are distinct exactly when request rows reach ports the switch already has only under their literal id, rows with different ids name disjoint ports, and no row names a port twice. |
| PatchTheorems.RangePatchExample | switch-configurator/src/api/handlers.rs:1422-1457 | Port 1 in VLAN 1 and an accepted PATCH that puts ports 1-2 into VLAN 10: port 1 is still found in VLAN 1, and there are two rows for it. |
| PatchTheorems.EmptyPatchChangesNothing | switch-configurator/src/api/handlers.rs:1349-1481 | A PATCH that says nothing is accepted and changes nothing. |
| SaveLoad.SaveOverlay | switch-configurator/src/api/handlers.rs:466-554 | Saving succeeds exactly when name, priority and every switch pass the checks; then the disk differs only by the written file. |
| SaveLoad.OverlayCheckIsProjection | switch-configurator/src/config.rs:1583-1675 | The overlay check accepts again, unchanged, what it accepted; it leaves alone exactly the switches that are ready for saving. |
| SaveLoad.AcceptedIsReady | switch-configurator/src/config.rs:1583-1675 | An accepted overlay has plain distinct port ids, unambiguous names, no deferred names, valid VLAN ids, and only references that are its own, external or implicit. |
| SaveLoad.SecretsComeBack | switch-configurator/src/models.rs:1027-1045 | SNMP strings that can be read can be read again from what is written, and are the same exactly unless reads are off and the own community had been read from its reference. |
| SaveLoad.OnlyReferencesWritten | switch-configurator/src/models.rs:1027-1045 | A string given by reference is never written, one given as it stands always is. |
| SaveLoad.SavedFileLoads | switch-configurator/src/config.rs:142-200 | The saved file loads, and as the re-read overlay under its priority, exactly when no switch in it has an empty id. |
| SaveLoad.PutFileKeeps | switch-configurator/src/api/handlers.rs:537-542 | Writing a file loses and adds no file of another name. |
| SaveOutcome.SaveMayBreakLoading | switch-configurator/src/api/handlers.rs:466-554 | When everything loaded before a save, everything loads afterwards exactly when the file is not read, or no switch in it has an empty id and none contradicts a hostname, address or model of another entry with its id, in the file itself or in the sources that stay. |
| SaveOutcome.SavedNameIsScanned | switch-configurator/src/api/handlers.rs:471-486 | A name that may be saved is picked up by the folder scan exactly when it is more than an extension. |
| SaveOutcome.SourcesAfter | switch-configurator/src/config.rs:210-244 | After a save that loads, the sources are those of all files but the one written over, and the overlay as re-read when its file is read. |
| SaveOutcome.LoadSourcesAfter | switch-configurator/src/config.rs:142-200 | After a save every file loads exactly when the written one is not read or has no empty switch id. |
| SaveLoadExamples.EmptyIdBreaksLoading | switch-configurator/src/api/handlers.rs:466-554 | A concrete disk that loads, and an overlay with an empty id that is accepted and written: the disk does not load any more. |
| SaveLoadExamples.BareExtensionIsNotRead | switch-configurator/src/api/handlers.rs:471-486 | A concrete overlay saved as `.yaml`: accepted and written, everything loads, and nothing of it is among the sources. |
| SaveLoadExamples.ContradictionBreaksLoading | switch-configurator/src/config.rs:632-682 | A concrete overlay whose hostname differs from that of the main file: accepted and written, every file loads, and the load as a whole fails. |
| SaveLoadTheorems.SavedPortComesBack | switch-configurator/src/api/handlers.rs:466-554 | When the load after a save succeeds and yields the switch, a port of the overlay that wins the merge is found in it exactly as saved if and only if the deciding source of each VLAN id keeps the meaning of every name the port is written with, and a tagged list written with a name has no repetition. |
| SaveLoadTheorems.SavedPortIsReadBack | switch-configurator/src/api/handlers.rs:466-554 | In any case it is what writing it with the overlay's names and reading it with the merged names makes of it: no reference is lost in the reference check. |
| SaveLoadTheorems.UnrenamedPortComesBack | switch-configurator/src/api/handlers.rs:466-554 | If for every VLAN of the overlay the source that decides about the id gives it the overlay's name, the port comes back, untagged VLAN and tagged ones in order, at most without repetitions. |
| SaveLoadTheorems.PortComesBackUnlessRenamed | switch-configurator/src/api/handlers.rs:466-554 | So it does if no source that outranks the overlay, or ties with it, defines one of its VLAN ids under another name. |
| SaveLoadTheorems.DecidingOverlayComesBack | switch-configurator/src/api/handlers.rs:466-554 | An overlay saved under a better priority than every other source of the switch comes back whenever the load succeeds and yields the switch: every one of its ports, tagged VLANs at most without repetitions. |
| SaveLoadTheorems.MergedNameExact | switch-configurator/src/config.rs:991-1019 | The merge gives a VLAN id a name exactly when the source that decides about the id does. |
| SaveLoadTheorems.NotRenamedExact | switch-configurator/src/config.rs:991-1019 | A list of VLANs keeps all its names in the merge exactly when for each of its rows the deciding source gives the id that name. |
| SaveLoadTheorems.OverlayIsSource | switch-configurator/src/config.rs:511-559 | After a save that loads, every switch of an overlay that is read is a source of its id, as re-read, under the saved priority and path. |
| SaveLoadTheorems.ExternalStays | switch-configurator/src/config.rs:259-292 | Every VLAN id the save check knew from other files is declared by the sources loaded afterwards. |
| SaveLoadTheorems.DeclaredIsMerged | switch-configurator/src/config.rs:991-1019 | Every VLAN id some source declares for a switch is a row of its merge. |
| SaveLoadTheorems.PostMergeFinishes | switch-configurator/src/config.rs:684-807 | The checks after the merge keep every port in its place, resolve its names and drop its undefined tagged VLANs. |
| SaveLoadExamples.OverlayComesBack | switch-configurator/src/api/handlers.rs:466-554 | A concrete disk and overlay that meet everything the save-then-load theorems assume: saved, loaded without a conflict, and yielded as it was. |
| ExternalVlans.KnownByFiles | switch-configurator/src/config.rs:259-292 | What the code knows, said on the files: an id declared by a loading, not excluded file, either the main one or one of a folder without a failing file. |
| ExternalVlans.KnownAsDocumented | switch-configurator/src/config.rs:246-258 | The code never knows more external VLANs than documented, and as much when no file fails to load. |
| ExternalVlans.KnowsAsMuchExactly | switch-configurator/src/config.rs:246-292 | It knows as much exactly when, for every folder with a failing file, each id that a loading file in it declares is also declared by the loading main file or by a file of a folder without a failing one. |
| ExternalVlans.BrokenFileHidesFolder | switch-configurator/src/config.rs:246-292 | A concrete folder with one broken file: a VLAN of the good file beside it counts by the documentation, but not in the code. |
| Diff.ComputeDiff | switch-configurator/src/diff/mod.rs:27-63 | The loops collect exactly the differences, in whatever order the hash maps are walked: VLANs, ports to configure and to reset, mirrors and their destination ports, SNMP with communities sorted by name, management VLAN. What the differences are, on rows and fields, is `DiffMeaning.DifferencesExactly`. |
| Diff.DiffCommunities | switch-configurator/src/diff/mod.rs:467-518 | However the hash maps are walked, communities to add, remove and update come in order of name, each once. |
| KeyedDiff.DiffRows | switch-configurator/src/diff/mod.rs:65-115 | Rows to add, keys to remove and rows to update, each once, exactly those that are new, gone or not the same. |
| Diff.PortsToReset | switch-configurator/src/diff/mod.rs:183-214 | Each port once that the switch has and the configuration has not, unless it is a mirror destination or in its default state. |
| Diff.DestPortsToConfigure | switch-configurator/src/diff/mod.rs:335-373 | Each mirror destination that is not in its baseline state, once, where it is first mentioned. |
| Diff.FindPortsToMigrate | switch-configurator/src/diff/mod.rs:590-656 | The nested loops with their `break` give each port the migration of the first VLAN being removed that it is assigned to. |
| DiffTheorems.DiffIsEmptyExactly | switch-configurator/src/diff/mod.rs:27-374 | `has_changes` is false exactly when the switch is in the desired state: every desired row there with the same settings, nothing else that could be removed, leftover ports in default state when enforced, mirror destinations in baseline state, SNMP and management VLAN as desired. |
| DiffTheorems.PortsEquivalentExactly | switch-configurator/src/diff/mod.rs:244-289 | Two ports are equivalent exactly when their settings are equal, a native VLAN among the tagged ones not counted and PoE only where there is any; the final comparison of modes decides nothing. |
| DiffTheorems.InStateNeedsAgreement | switch-configurator/src/diff/mod.rs:157-181 | No state at all is the desired one when two rows of a port disagree. |
| DiffMeaning.DifferencesExactly | switch-configurator/src/diff/mod.rs:27-373 | Said on rows and fields: exactly which VLANs, mirrors, communities, trap receivers and traps are added, changed and removed, which ports are configured, reset or made mirror destinations, and when the management VLAN changes. |
| DiffMeaning.InStateExactly | switch-configurator/src/diff/mod.rs:27-373 | The desired state, said on rows and fields: every desired row there with the same settings, no other that could be removed, unlisted ports out of use when enforced, mirror destinations in service, SNMP as wanted. |
| DiffMeaning.EffectiveIsWanted | switch-configurator/src/snmp_reads.rs:15-26 | A community name is wanted exactly when it is listed, or reads are on and it is the service's own; listed ones are wanted as listed, an own one that is not listed with operator access and its own hosts; receivers and traps are the listed ones. |
| DiffMeaning.SnmpInStateExactly | switch-configurator/src/snmp_reads.rs:15-26 | SNMP is in the desired state exactly when every wanted community is there with its access and hosts, no other name is, and receivers and traps are the listed ones. |
| DiffMeaning.SnmpDiffExactly | switch-configurator/src/diff/mod.rs:376-570 | Exactly which communities, receivers and traps are added, changed and removed, said on what is listed, the own community and what was read; communities in order of name where both sides have SNMP. |
| DiffMeaning.OwnCommunityStays | switch-configurator/src/snmp_reads.rs:1-9 | No difference for a configuration under which the service reads by itself removes the service's community, and it is added when it is neither listed nor there. |
| DiffMeaning.SameHostsExactly | switch-configurator/src/diff/mod.rs:457-464 | Comparing the sorted texts of two host lists tells exactly whether one is the other in some order; no network is spelled `auto`. |
| DiffMeaning.WithoutVlansInOrder | switch-configurator/src/diff/mod.rs:621-627 | Taking VLANs away from a list keeps the others in order. |
| DiffMeaning.ToConfigureInOrder | switch-configurator/src/diff/mod.rs:157-181 | Ports to configure come in the order of the configuration, each row judged by itself. |
| DiffMeaning.ToBaselineInOrder | switch-configurator/src/diff/mod.rs:335-373 | Mirror destinations come once each, in the order of their first mention. |
| DiffMeaning.MigrationsExactly | switch-configurator/src/diff/mod.rs:590-656 | In the order of the ports, exactly those on a VLAN being removed get one migration: off the first such VLAN, an untagged port to VLAN 1, a trunk to what stays of its list. |
| DiffTheorems.PlanApply | switch-configurator/src/vendors/aruba.rs:1932-1960 | An apply is refused exactly when neither a VLAN nor a port was read and the configuration has one; otherwise nothing is sent exactly when the state read is the desired one. |
| KeyedDiff.ObeyedAgreesExactly | switch-configurator/src/diff/mod.rs:65-115 | For rows with keys: what is read after the changes agrees with the configuration exactly when every row that is written is shown as equivalent to itself. |
| Convergence.OneApplyConverges | switch-configurator/src/vendors/aruba.rs:1932-1984 | For a configuration that passed validation and any state its vendor's reader can return: the state read after the apply is the desired one if and only if the apply was not refused, the rows of each port agree, the request is one that shows as itself (`Fits`, vendor by vendor), and SNMP and the management VLAN are read as asked for. |
| Convergence.DistinctIdsConverge | switch-configurator/src/vendors/aruba.rs:1932-1984 | The same with distinct port ids, where rows cannot disagree. |
| Convergence.PortFitsExactly | switch-configurator/src/vendors/aruba.rs:1598-1639 | A configured port is read back with its settings exactly when, on Aruba, its tagged list without the native VLAN ascends, its id is a number (or it is untagged in VLAN 1), and PoE is asked for only where there is any; on FortiSwitch, its id is a number, no MAC notification is asked for, no description has to be cleared and its list is kept; on Cisco never. |
| Convergence.VlanFitsExactly | switch-configurator/src/vendors/fortiswitch.rs:1348-1370 | A VLAN that is written is read back as asked for exactly when, on FortiSwitch, it has the name of the first row with its id, no address has to be taken away, and its description came with an address or was there; on Aruba always, on Cisco never. |
| Convergence.FortiMirrorsAfter | switch-configurator/src/vendors/fortiswitch.rs:2399-2428 | The mirror sessions read from a FortiSwitch are the desired ones exactly when every session written has sources and no direction is taken from one that was there. |
| Convergence.ArubaMirrorsAfter | switch-configurator/src/vendors/aruba.rs:1641-1653 | The mirror session read from an Aruba is the desired one exactly when no session has another id than 1, and it goes both ways with its sources as they are listed, or there is none and the one there was can be ended. |
| Convergence.BaselineFits | switch-configurator/src/vendors/aruba.rs:2371-2405 | A mirror destination is in its baseline state afterwards exactly when, on Aruba, it was tagged in no VLAN that stays but its own and VLAN 1; on FortiSwitch, it is numbered and was untagged in VLAN 1. |
| Convergence.LeftOversAfter | switch-configurator/src/vendors/fortiswitch.rs:2699-2735 | With enforcement no unlisted port is left over afterwards exactly when, on FortiSwitch, those that are reset were down already; on Aruba always. |
| Convergence.NothingReadIsNotDesired | switch-configurator/src/vendors/traits.rs:167-190 | A state for which an apply is refused is not the desired one. |
| Convergence.ApplyIsPossible | switch-configurator/src/vendors/aruba.rs:1932-1984 | For any state that can be read and any differences there is a state that can be read after the apply. |
| Convergence.MigrationFreesExactly | switch-configurator/src/vendors/aruba.rs:480-533 | A port as Aruba reads it is on no VLAN being removed after its migration exactly unless it is a trunk whose native VLAN goes or of which two tagged VLANs go. |
| ConvergenceExamples.ArubaUnsortedNeverConverges | switch-configurator/src/vendors/aruba.rs:1607-1618 | Aruba: an accepted configuration with a port tagged in 30 and 20 is the desired one of no state that can be read. |
| ConvergenceExamples.ArubaSessionNeverConverges | switch-configurator/src/vendors/aruba.rs:1641-1653 | Aruba: so is one with a mirror session of id 2. |
| ConvergenceExamples.FortiMacNotifyNeverConverges | switch-configurator/src/vendors/fortiswitch.rs:2309-2324 | FortiSwitch: so is one with a port that asks for MAC notification. |
| ConvergenceExamples.CiscoIsRefused | switch-configurator/src/vendors/cisco.rs:694-731 | Cisco: an accepted configuration with a VLAN and a port is refused for every state that can be read. |
| ConvergenceExamples.RangePatchNeverConverges | switch-configurator/src/api/handlers.rs:1422-1457 | The accepted PATCH with a port range leaves a switch that is in its desired state in no state, before or after any number of applies. |
| ConvergenceExamples.MigrationMisses | switch-configurator/src/vendors/aruba.rs:480-533 | A trunk as Aruba reads it: it stays on its native VLAN when that goes, and on the second of two tagged ones. |
| AllowedHosts.PrefixOfExact | switch-configurator/src/allowed_hosts.rs:141-153 | Reading the prefix off a mask by population count undoes the mask of a prefix, for every prefix 0 to 32, and accepts exactly the contiguous masks. |
| AllowedHosts.MaskBits | switch-configurator/src/allowed_hosts.rs:136-137 | The mask of a prefix has exactly its top bits set. |
| AllowedHosts.OnesOfMask | switch-configurator/src/allowed_hosts.rs:144 | The population count of the mask of a prefix is the prefix. |
| AllowedHosts.FromFortiosAccepts | switch-configurator/src/allowed_hosts.rs:141-153 | Accepts exactly two IPv4 addresses of which the second is a contiguous mask. |
| AllowedHosts.FromFortiosAndBack | switch-configurator/src/allowed_hosts.rs:115-153 | Reading address and mask and writing the entry gives the same two texts, /0 and /32 included. |
| AllowedHosts.ToFortiosAndBack | switch-configurator/src/allowed_hosts.rs:115-153 | Writing an entry and reading it back gives the same entry if and only if it is canonically spelled. |
| AllowedHosts.ToFortiosMask | switch-configurator/src/allowed_hosts.rs:115-138 | The mask written for an entry is the one of its prefix. |
| AllowedHosts.AcceptedEntry | switch-configurator/src/models.rs:1061-1083 | Every accepted IPv4 entry can be written for FortiOS, and is canonical unless its prefix has a plus sign or leading zeros. |
| AllowedHosts.SignedPrefixIsRespelled | switch-configurator/src/models.rs:1061-1083 | An IPv4 address with `/+24` is accepted as an entry, can be written for FortiOS, and comes back from the switch spelled `/24`. |
| AllowedHosts.Ipv4RoundTrip | switch-configurator/src/allowed_hosts.rs:115-153 | Printing and parsing an IPv4 address undo each other for every 32-bit number. |
| AllowedHosts.Ipv4Canonical | switch-configurator/src/allowed_hosts.rs:115-153 | A text that parses as an IPv4 address is the one text it is printed as. |
| Redact.CommandRedactor.Redact | switch-configurator/src/redact.rs:64-95 | One line updates depth and show flag and is masked as the specification says. |
| Redact.CommandRedactor.PeekSent | switch-configurator/src/redact.rs:117-126 | Redacts the lines of a text from the current state on, without changing it. |
| Redact.CommandRedactor.PeekText | switch-configurator/src/redact.rs:102-112 | Withholds everything but the length after `show` and inside a community block. |
| Redact.RedactCommands | switch-configurator/src/redact.rs:130-133 | A command list is redacted line by line from the outside state. |
| Redact.DepthCountsBlocks | switch-configurator/src/redact.rs:64-83 | For every stream of lines the depth is the number of open blocks counted from the outermost community block, itself included. |
| Redact.MaskedExactlyInside | switch-configurator/src/redact.rs:77-83 | A `set name` line is masked by the block rule exactly when it stands directly inside an outermost community block. |
| Redact.SetNameShown | switch-configurator/src/redact.rs:64-83 | Directly inside an outermost community block a `set name` line, in any case and with any white space, is shown with `<redacted>` for the name; anywhere else the block rule leaves it alone. |
| Redact.NameAtExactly | switch-configurator/src/redact.rs:53 | Where a line has a name to mask: exactly at the value behind `set` and `name`, on one line, up to case and white space. |
| Redact.BlockLines | switch-configurator/src/redact.rs:66-79 | Which lines open and end blocks and are `show` lines, up to space around them and the case of letters. |
| Redact.CommunityBlockCloses | switch-configurator/src/redact.rs:69-79 | From outside, a community block with any balanced body leads back outside with its own `end`, and not before. |
| Redact.PeekPredicts | switch-configurator/src/redact.rs:114-133 | What peeking at lines about to be sent shows is what redacting them one after the other will show. |
| Redact.NameDoesNotShow | switch-configurator/src/redact.rs:80-83 | What is shown of a masked line does not depend on the name in it. |
| Redact.SetNameOpensNothing | switch-configurator/src/redact.rs:69-83 | A `set name` line is neither a `config` nor an `end` line. |

## Left out

- `get_config` and `preview_diff` open a session of their own without a turn; their sessions are outside the exclusivity theorems. Their `close_idle` is in the model.
- `close_if_token` disconnects after it has emptied the slot, so a session being closed may overlap a fresh one: exclusivity is about sessions kept or in hand, not about sockets.
- The busy flag is written only through guards; the public `set_currently_configuring` and `clear_currently_configuring` are modelled as methods, not as steps of a run.
- One file watcher runs at a time, as the service starts it.
- Spawned cleanup and timer tasks run or stay pending; a runtime that shuts down under them is not modelled.
- Fingerprints are compared as values, so hash collisions are not modelled; tokens and counters are unbounded, so a counter of 64 bits running over is not modelled.
- In the protocol a vendor is abstract: connecting and resuming succeed or fail, commands are not modelled. A connection attempt that fails leaves nothing behind.
- The lookup caches, events, error lists, warnings, wall-clock durations and the refresher's timing.
- SNMP lookups over the network, and `resolve_auto_hosts`, which substitutes the local address.
- YAML text: files are values in which a VLAN is a number or a name; numbers out of range fail at parsing.
- Other fields than ports and SNMP strings are taken to survive being written and read.
- Paths are compared as texts. Folder listings come in order of name; the stable sorts of the standard library are taken as given.
- Secret files and credentials are a fixed function of path and id. `scrub` is one of the stateless patterns of the redactor, which are one given function.
- Command lines are matched with ASCII case folding and Unicode white space; the Unicode case folding of regular expressions is not modelled, and in VLAN names only ASCII digits count as a range.
- The `validation` and `vendor_specific` fields, SSH key paths, jump hosts and serial settings. `management_vlan` is modelled, and the merge drops it as the code does.
- Texts of errors, and the partly changed switch that a failed load shows as a preview.
- `validate_switch_identity` lists conflicts source by source, the model field by field; the set is the same.
- A request list that is absent and one that is empty are not told apart in a PATCH, since they do the same.
- IPv6 manager entries are an open predicate; only IPv4 entries reach FortiOS.
- Sockets, serial lines, SSH, HTTP, server-sent events and the web interface.
- The overlay check does not look at name lengths, range-like names or speeds, so a merge with a saved overlay may still be refused; the save-then-load theorems are about merges that pass.
- The texts of commands and of running configurations: `Vendors` has what the commands set and what the readers show of it. Texts come back as they were sent, and settings in separate blocks do not influence each other.
- Ports are named in the configuration as the switch names them: the shortening of ids such as `1/0/1`, and `port1` for 1, is only in the model as an id that is not read.
- Convergence.OneApplyConverges: takes SNMP and the management VLAN as they are read after the apply: what the SNMP commands of each vendor set is not in the model. Trap receivers are compared by host only, as in the code.
- On Aruba, which ports are monitored after an apply, and their order, is a parameter: `monitor` is sent only for ports that are configured anyway, and the reader lists them in the order of a hash map. So is whether `no mirror` ends a session begun with `mirror-port`. On FortiSwitch, how a list of allowed VLANs is shown is a parameter.
- A port that is told nothing while its VLAN is removed may be read as anything.
- The migration step of Cisco, which is not reached.
- `remaining_changes_summary`, which words what is still pending.
- `read_overlay` and `delete_overlay`, which read and remove one file.
- Port capabilities, product numbers and speed strings per model, which are finite tables.
