# zeroconf-mesh in Dafny

A model of the zero-configuration agent mesh and proofs about it. A node announces itself over
DNS-SD, listens for the announcements of its peers, keeps a registry of the agents it knows with a
time to live, sends events about every change, and signs and verifies announcements with shared
secrets. The `camp` program on top of it streams the registry to clients and keeps a marked block of
text in a document.

## How the model is built

- **Values and functions.** `types.dfy`, `capabilities.dfy`, `announcement.dfy`, `signing.dfy`,
  `txt.dfy` and `config.dfy` hold the announcement, its changes, its signature, its TXT record
  (section 6 of RFC 6763) and the configuration, with the error cases in the order of the code.
  `text.dfy` and `ordering.dfy` hold what the crate takes from its standard library: trimming, the
  order of strings, sorting, split and join.
- **State.** `registry_spec.dfy` is the registry as a pair of a map and the log of sent events, with
  one operation for each scope of the write lock. A run is a list of operations. Clock readings are
  natural numbers; where the code iterates over a hash map the choice is a parameter of the
  operation. `mesh_spec.dfy` is a running node as a step system: startup, any number of update calls,
  heartbeat, sweeper, listener, shutdown calls and the final drop interleave, one step for each lock
  scope or action outside a lock. `network.dfy` runs several nodes over a link that delays, loses,
  repeats and reorders what they publish.
- **Objects.** `registry.dfy`, `agent_announcement.dfy` and `mesh.dfy` are the classes of the crate
  with the fields they update. Every method is proved to do what the function or the run of steps of
  the same purpose does, so the theorems about all runs hold for them. `listener.dfy` has the
  listener's loop and `slug.dfy` the loop over characters.
- **Theorems.** `payload.dfy`, `payload_borders.dfy`, `roundtrip.dfy`, `canonical_properties.dfy`,
  `readability.dfy`, `wire_format.dfy` (announcements on the wire), `observers.dfy` (snapshot and
  stream), `timing.dfy` and `mesh_timing.dfy` (staleness and eviction), `mesh_start.dfy`,
  `mesh_runs.dfy`, `mesh_auth.dfy`, `mesh_signatures.dfy`, `mesh_convergence.dfy`, `mesh_goodbye.dfy`,
  `mesh_shutdown.dfy` (what every interleaving keeps), `network.dfy` and `network_auth.dfy` (several
  nodes) and `guidance.dfy` (the marked block).

`dafny verify dfyconfig.toml` checks everything.

## Where a plausible claim is false

Each of these is a theorem with a witness or an exact condition.

- Print, carry, parse is the identity exactly when the metadata keys are not empty, hold no equals
  sign and are distinct ignoring case (`Txt.WireKeepsSafeMetadata`, `RoundTrips.SyncedIsFixpoint`).
  The crate accepts other keys (`RoundTrips.EqualsKeyIsAcceptedAndLost`).
- A record is not always readable. It parses exactly when no smaller metadata key displaces a canonical
  one by a spelling that differs in case, and none becomes blank (`Readability.ParsesIffReadable`).
  The key `Role` is accepted and hides a node from all its peers (`Readability.RoleHides`).
- The signed payload identifies the content where on both sides nothing holds a newline and no key an
  equals sign (`PayloadInjectivity.PayloadIffContent`); one side is not enough. With a newline, the
  border between role and project moves exactly when their text can be split at another project label
  (`PayloadBorders.RoleProjectBorderIff`), and a metadata value can take in the next entry exactly when
  no other open key sorts in between (`PayloadBorders.ValueNewlineCollidesIff`); with an equals sign in
  a key, the border between key and value moves exactly when no other open key sorts in between
  (`PayloadBorders.EqualsSignCollidesIff`).
- What a node holds or publishes does not always verify. In every run it verifies exactly when its
  payload is that of what the node had last signed, wherever the tag tells the two payloads apart
  (`MeshSignatures.LocalVerifiesIff`, `MeshSignatures.PublishedVerifiesIff`). Every node that advertises
  and signs can publish an announcement that fails, by a heartbeat between the two lock scopes of an
  update (`MeshSignatures.HeartbeatCanPublishStale`).
- A node that does not advertise never re-signs (`MeshAuth.HiddenNodeNeverResigns`).
- A shutdown that returns Ok can leave the local agent in the registry, on every node that advertises
  (`MeshShutdown.LateHeartbeatSurvivesShutdown`): exactly when a local copy is committed after the
  removal and no later sweep takes it (`MeshShutdown.EntryAfterRemovalIff`). As long as no update begins
  afterwards, and whatever the tasks still do, it stays away for good exactly when at the removal no copy
  was on its way and the heartbeat had ended (`MeshShutdown.AbsentForGoodIff`). Once all is over, an entry
  that came back stays (`MeshShutdown.OkShutdownIsFinal`).
- The sweeper does not spare the local agent by itself; a TTL above the heartbeat interval is not
  enough; on every node that advertises, the interval plus twice the commit delay is exactly enough
  (`MeshTiming.LocalNeverExpiresIff`).
- The watch command can miss changes between its snapshot and its subscription for good
  (`Observers.WatchConvergesIff`, `Observers.WatchMissesJoin`).
- Updating the marked block again changes nothing exactly when the markers were in order and nothing
  but white space follows the block (`Guidance.RunningAgainChangesNothingIff`).

Where the code and its documentation differ, the model follows the code: removing a capability
rejects a name with a comma as well as an empty one (src/types.rs:244-250); an upsert with an
unchanged payload overwrites the time stamp, although the design document asks for a newer one
(src/types.rs:556-558); an expired local agent is reported with remote origin (src/registry.rs:330-334).

## Model

| member | source | states |
|---|---|---|
| Types.StatusRoundTrip | src/types.rs:46-76 | The wire text of a status parses back to that status, is not blank and fits on one line |
| Types.ParseStatusIff | src/types.rs:64-77 | A text is read as a status exactly if it is that status but for case and white space around it; otherwise the error holds the normalized text |
| Types.PaddedStatusTexts | src/types.rs:67-76 | The three texts idle, busy and error are read with any white space around them |
| Types.NormalizeRequiredClean | src/types.rs:565-571 | A required field is accepted exactly when it is not blank; the result is trimmed, and a trimmed value comes back unchanged |
| Capabilities.CanonicalizeMeaning | src/types.rs:603-615 | A list is accepted exactly when no name is blank or holds a comma; the result is strictly sorted and holds exactly the trimmed names |
| Capabilities.FirstRefusal | src/types.rs:608-611 | The reported error is that of the first refused name: a blank one is empty, one with a comma is invalid |
| Capabilities.OpActsOnSet | src/types.rs:218-254 | Set, add and remove act on the canonical list as replace, insert and delete act on a set, and are refused exactly when a name is |
| Capabilities.OpsRefineSet | src/types.rs:218-254 | Under any sequence of operations, refused ones included, the list stays canonical and equals the set the same operations build |
| Capabilities.FromMetadataTotal | src/types.rs:628-639 | Reading capabilities from metadata cannot fail and always gives a canonical list |
| Capabilities.WireRoundTrip | src/types.rs:617-639 | Writing a canonical list to metadata and reading it back is the identity; the key is absent exactly when the list is empty |
| Capabilities.WrittenPartsAreRead | src/types.rs:617-639 | Whatever list is written to metadata, reading gives exactly its non-blank comma-separated parts, trimmed |
| Capabilities.JoinOfCanonicalInjective | src/types.rs:621-625 | Two canonical lists with the same comma-separated text are equal |
| Announcements.NewMeaning | src/types.rs:102-143 | The constructor succeeds exactly for non-blank fields and keys and a non-zero port, and then yields a well-formed announcement |
| Announcements.NewFields | src/types.rs:113-142 | The value has the five fields trimmed, status, port and addresses as given, and the metadata as given but for the capabilities key, whose canonical list it holds |
| Announcements.NewRefusal | src/types.rs:113-125 | A refusal names the first blank field in the order of the arguments, else the port, else the metadata keys |
| Announcements.ChangeKeepsForm | src/types.rs:206-310 | Every setter, accepted or rejected, keeps an announcement well formed and its name, id, role, port and addresses unchanged |
| Announcements.ChangeKeepsSync | src/types.rs:206-310 | Every setter keeps the canonical metadata keys equal to the typed fields |
| Announcements.ChangeKeepsAuth | src/types.rs:284-310 | No setter can add, change or remove the auth metadata |
| Announcements.SetStatusMeaning | src/types.rs:206-212 | Status field and status key are written, nothing else changes |
| Announcements.SetProjectMeaning | src/types.rs:260-266 | Refused exactly if blank; otherwise the project field and its key hold the trimmed text and everything else is as before |
| Announcements.SetBranchMeaning | src/types.rs:272-278 | The same for the branch |
| Announcements.MetadataChangeMeaning | src/types.rs:284-310 | Refused exactly if the key is blank or reserved after trimming; otherwise a write puts the value under the trimmed key, a removal leaves the trimmed key absent, and everything else is as before |
| Announcements.CapabilityChangeMeaning | src/types.rs:218-254 | The list changes as a set does and its key stays in step, everything else is as before; refused exactly if a name is, with the error of the first one |
| AnnouncementObject.AgentAnnouncement.SetStatus | src/types.rs:206-212 | In place: the fields become those of the changed value |
| AnnouncementObject.AgentAnnouncement.SetCapabilities | src/types.rs:218-226 | In place: list and metadata key are replaced, or nothing changes and the error of the first refused name is returned |
| AnnouncementObject.AgentAnnouncement.AddCapability | src/types.rs:232-240 | In place: inserted in order and written to the metadata, only if it was not there |
| AnnouncementObject.AgentAnnouncement.RemoveCapability | src/types.rs:246-254 | In place: removed from list and metadata; a name with a comma is refused |
| AnnouncementObject.AgentAnnouncement.SetProject | src/types.rs:260-266 | In place: field and metadata key get the trimmed project, or nothing changes |
| AnnouncementObject.AgentAnnouncement.SetBranch | src/types.rs:272-278 | In place: field and metadata key get the trimmed branch, or nothing changes |
| AnnouncementObject.AgentAnnouncement.SetMetadata | src/types.rs:284-296 | In place: an open key is written; blank and reserved keys are refused |
| AnnouncementObject.AgentAnnouncement.RemoveMetadata | src/types.rs:302-310 | In place: an open key is removed; blank and reserved keys are refused |
| AnnouncementObject.AgentAnnouncement.SignaturePayload | src/types.rs:707-727 | The line-by-line loop builds the signed payload |
| AnnouncementObject.AgentAnnouncement.ToTxtProperties | src/types.rs:353-366 | Filling a copy of the metadata gives the printed properties |
| AnnouncementObject.AgentAnnouncement.ApplySharedSecretAuth | src/types.rs:313-322 | In place: the two auth keys are written, nothing else changes |
| Signing.WithRotationMeaning | src/config.rs:75-102 | Rotation fails exactly when a secret is blank, and accepts exactly the given secrets and the signing secret, trimmed, each once |
| Signing.NewAuthMeaning | src/config.rs:59-66 | A single secret is accepted exactly if it is not blank; trimmed it signs and is the only one accepted, in the mode asked for, which is what rotation without further secrets gives |
| Signing.ConstructedAuthAcceptsOwn | src/config.rs:59-102 | Settings from either constructor accept what they sign |
| Signing.ContentDeterminesPayload | src/types.rs:707-727 | The payload depends only on the typed fields other than addresses and on the open metadata |
| Signing.SignedContentVerifies | src/types.rs:313-349 | Whatever carries the signed content, scheme and signature verifies wherever the signing secret is accepted |
| Signing.SigningKeepsContent | src/types.rs:313-322 | Signing leaves the signed content as it was and adds the signature of the announcement before signing |
| Signing.SignedVerifies | src/types.rs:313-349 | What was just signed verifies under the same settings |
| Signing.SigningKeepsForm | src/types.rs:313-322 | Signing keeps an announcement well formed and its identity unchanged |
| Signing.VerifyIff | src/types.rs:328-349 | An announcement verifies exactly if it carries the scheme and, under an accepted secret, the tag of its own payload |
| Signing.VerifyRefusal | src/types.rs:328-349 | The error is that of a missing scheme, a missing signature, another scheme or a signature that does not fit, whichever comes first |
| PayloadInjectivity.PayloadIffContent | src/types.rs:707-727 | For newline-free content, keys without equals sign and canonical capabilities, payloads are equal exactly when all signed content is |
| PayloadBorders.RoleProjectBorderIff | src/types.rs:707-717 | A well-formed announcement shares its payload with one of other role and project exactly if its role and project can be split at another project label into acceptable fields |
| PayloadBorders.NewlineCollision | src/types.rs:707-717 | With a newline and the label of the next line in a field, two well-formed announcements with different content share a payload |
| PayloadBorders.EqualsSignCollision | src/types.rs:719-724 | With an equals sign in a metadata key, whatever the other entries, two well-formed announcements with different content share a payload if no other open key sorts between the two keys |
| PayloadBorders.EqualsSignCollidesIff | src/types.rs:719-724 | For announcements printable otherwise, they share it exactly then |
| PayloadBorders.ValueNewlineCollision | src/types.rs:719-724 | With a newline in a metadata value, whatever the other entries, an announcement with two entries and one whose value takes the second in share a payload if no other open key sorts between the two keys; both are well formed and differ in content |
| PayloadBorders.ValueNewlineCollidesIff | src/types.rs:719-724 | For announcements printable otherwise, they share it exactly then |
| Txt.WireKeepsSafeMetadata | src/types.rs:353-366 | Metadata that is printed, carried and collected comes back exactly when its keys are safe on the wire |
| Txt.ReceivedKeys | src/types.rs:656-674 | Keys that come off the wire are never empty, hold no equals sign and are distinct ignoring case |
| Txt.UnreadableDoesNotParse | src/types.rs:656-674 | A record with a property that is not UTF-8 is refused, with the first such key in the error |
| Txt.LastPropertyCounts | src/types.rs:656-674 | Of several properties under one key the last one is collected, and one without a value as empty text |
| Txt.FromMetadataIff | src/types.rs:411-435 | A record is accepted exactly if the five required properties are there and not blank, the status is one, name and port are acceptable and no key is blank; the announcement has the trimmed properties in its fields |
| Txt.FromMetadataRefusal | src/types.rs:411-435 | The error names the first required property that is missing, else the status, the name, the port or the keys |
| WireFormat.ReservedKeysAreWritten | src/types.rs:582-601 | The reserved keys are exactly those that signing and printing write |
| WireFormat.BareRecord | src/types.rs:353-366 | The TXT record of an announcement without other metadata is these six strings in this order |
| WireFormat.PayloadOfOneEntry | src/types.rs:707-727 | The payload of an announcement with one open entry is this text of nine lines |
| WireFormat.SignedEntries | src/types.rs:313-322 | Signing writes the scheme and the tag of the payload as it was before under their two keys, and changes nothing else |
| RoundTrips.ParsedIsWellFormed | src/types.rs:411-435 | Whatever properties arrive, what parses is well formed |
| RoundTrips.ArrivesIffSafe | src/types.rs:353-435 | A well-formed announcement arrives as it was printed exactly when its printed keys are safe |
| RoundTrips.SyncedIsFixpoint | src/types.rs:353-435 | An announcement with its canonical keys in step is a fixpoint of print, carry and parse exactly when its keys are safe |
| RoundTrips.EqualsKeyIsAcceptedAndLost | src/types.rs:284-296 | A metadata key with an equals sign is accepted, and the announcement is no fixpoint afterwards |
| RoundTrips.SignedArrivesAndVerifies | src/types.rs:313-435 | Sign, print, carry, parse, verify: succeeds with the same signed content at every node that accepts the secret, whatever addresses it sees |
| RoundTrips.RotatedPeerVerifies | src/config.rs:75-102 | The same for rotation settings one of whose secrets is, trimmed, the signing secret |
| CanonicalProperties.ParsedFieldsAreAnnounced | src/types.rs:353-435 | Whatever other metadata keys there are, if the record parses then id, role, project, branch and status are the announced ones |
| CanonicalProperties.ArrivesUnaltered | src/types.rs:353-366 | No metadata key, however it is spelled, can replace the property under a canonical key |
| Readability.KeyArrivesIff | src/types.rs:353-366 | An announced key without equals sign arrives exactly if no smaller key is another spelling of it |
| Readability.ParsesIffReadable | src/types.rs:353-435 | The record of a well-formed announcement parses exactly if no canonical key is displaced and no key becomes blank |
| Readability.CapitalsHide | src/types.rs:284-296 | A metadata key that spells a canonical key with capitals and sorts before it is accepted and makes the record unreadable |
| Readability.RoleHides | src/types.rs:284-296 | The key Role is one |
| Config.NewConfigMeaning | src/config.rs:218-301 | The constructor accepts exactly the inputs with non-blank text, ports and capacity above zero, a TTL above the interval, a service type as below and open, non-blank metadata keys, and trims the five text fields |
| Config.NewConfigRefusal | src/config.rs:218-251 | A refusal names the first blank field, else what validation refuses |
| Config.ValidateRefusal | src/config.rs:261-301 | Validation refuses, in this order, the port, the daemon's port, the timing, the capacity, the service type, a blank key, and the least reserved key |
| Config.ServiceTypeIff | src/config.rs:511-517 | A service type is refused exactly if it does not begin with an underscore, does not end in `.local.`, or cannot be cut at `._tcp.` or `._udp.` |
| Config.OneTransportIsEnough | src/config.rs:511-517 | One transport is enough, either one, whatever the name |
| Config.DefaultServiceTypeIsValid | src/config.rs:13 | The default service type is valid |
| Config.InstanceNamesDiffer | src/config.rs:459-461 | Under one service type two agents share an instance name exactly if they share the id |
| Config.NewConfigIsValid | src/config.rs:218-301 | Every configuration that can be built is valid, and its TTL exceeds the heartbeat interval |
| Config.ChoicesAreKept | src/config.rs:414-455 | The choice to advertise and the secret are kept as given and change nothing else |
| Config.LocalAnnouncementMeaning | src/config.rs:459-492 | A valid configuration always yields its announcement: well formed, in step, named id.service_type, with the configured fields and metadata, and as capabilities exactly the non-blank comma-separated parts of the configured list |
| Config.LocalRunKeepsForm | src/types.rs:206-322 | After any sequence of changes and re-signings an announcement is well formed, in step and has the same identity |
| Config.ReachableIsFixpoint | src/config.rs:469-492 | Whatever a node goes through, what it announces is a fixpoint of print, carry and parse exactly when its keys are safe |
| RegistrySpec.LogRefinesRegistry | src/registry.rs:98-195 | In every run each event fits the state before it, and folding the log from empty gives the stored payloads under their own ids |
| RegistrySpec.RefreshIsSilent | src/registry.rs:107-136 | An upsert sends no event exactly when it changes no payload |
| RegistrySpec.UpsertTells | src/registry.rs:98-136 | An upsert stores what it was given under the given stamp; unless the payload was there it sends one event of its origin that tells exactly what came or changed |
| RegistrySpec.NamedRemovalTells | src/registry.rs:179-195 | A removal by instance name takes one agent of that name, if there is one, with one graceful remote departure, and keeps payload and stamp of all others |
| RegistrySpec.AgentEventsAreStays | src/registry.rs:98-195 | In every run the events of an agent form (Joined Updated\* Left)\*, unfinished exactly while the agent is known |
| RegistrySpec.SweepExact | src/registry.rs:319-340 | A sweep removes exactly the stale agents, keeps the rest, sends one Expired event each in order; a second sweep at that time finds nothing |
| RegistryObject.Registry.UpsertWithOriginAt | src/registry.rs:98-136 | The method performs the upsert operation and reports what it inserted, replaced or refreshed |
| RegistryObject.Registry.RemoveWithOrigin | src/registry.rs:155-171 | The method performs the removal and returns what was stored |
| RegistryObject.Registry.FindByInstanceName | src/registry.rs:181-184 | Finds some agent with the name, or there is none |
| RegistryObject.Registry.RemoveRemoteByInstanceName | src/registry.rs:179-195 | Removes one agent with the name and sends a graceful remote departure, or there is none and nothing changes |
| RegistryObject.Registry.CollectStale | src/registry.rs:321-325 | Collects each stale id once and nothing else |
| RegistryObject.Registry.EvictStaleAt | src/registry.rs:319-340 | The two-phase loop performs exactly the sweep, and returns the removed agents in order |
| RegistryObject.Registry.Query | src/registry.rs:300-312 | Returns exactly the agents that satisfy the filter, strictly sorted by id |
| RegistryObject.ListingUnique | src/registry.rs:310-311 | There is only one such list, so the order of the hash map does not show |
| Observers.ReceivedIsGapFree | src/bin/camp.rs:1068-1095 | In every run, whatever the capacity, a client holds the log from its subscription without a gap |
| Observers.ReceivingEndsIffLagging | src/bin/camp.rs:1083-1091 | A client more than the capacity behind is ended for good by asking for the next event; otherwise it gets that event |
| Observers.LastEventDecides | src/events.rs:24-54 | Two views agree on an agent after the same events exactly when they agreed before or an event touched it |
| Observers.SnapshotPlusStream | src/bin/camp.rs:1068-1092 | Folding events from before the snapshot over it again gives the state at the last event |
| Observers.BridgeConverges | src/bin/camp.rs:1068-1095 | In every run a bridge client that has received up to its snapshot sees the registry as of its last event, and the present registry if it is up to date |
| Observers.WatchConvergesIff | src/bin/camp.rs:615-666 | A watch client that is up to date sees the registry exactly when later events touched every agent that changed in its gap |
| Observers.WatchMissesJoin | src/bin/camp.rs:619-635 | A run in which a watch client that is up to date misses an agent |
| Timing.EntryIsLastUpsert | src/registry.rs:98-136 | In every run an entry is the last committed upsert with that commit's stamp, even if the stamp is older |
| Timing.SilentPeerIffNotSwept | src/registry.rs:319-340 | A silent peer is known exactly as long as no sweep had a clock beyond its stamp plus the TTL |
| Timing.CrashDetectedInTime | src/registry.rs:319-340 | In every run of registry operations with sweeps at most a gap apart, a silent peer is gone one TTL and one gap after its last stamp |
| Timing.LocalSparedIff | src/registry.rs:319-340 | Over all timely runs of registry operations, no sweep takes the agent exactly if the TTL covers one interval and two commit delays |
| Timing.ValidatedNodeIsSpared | src/config.rs:270-275 | Validation leaves a positive slack, and half of it is an admissible commit delay |
| MeshTiming.LocalNeverExpires | src/mesh.rs:531-578 | In every interleaving of a node whose commits are timely, the log reports no expiry of the local agent |
| MeshTiming.SlowNodeExpires | src/mesh.rs:531-578 | On a node that advertises, with a TTL below one interval and two delays, a timely run from startup expires the local agent |
| MeshTiming.LocalNeverExpiresIff | src/mesh.rs:531-578 | On every node that advertises, no timely run, whatever the interleaving, expires the local agent exactly if the TTL covers one heartbeat interval and two commit delays |
| MeshTiming.CrashedPeerExpires | src/mesh.rs:557-578 | In every interleaving of a node, a peer of which nothing is heard any more is removed by the first sweep with a clock beyond its stamp plus the TTL, that clock is at most one sweep gap later, and the peer does not come back |
| MeshTiming.ConvergedForGood | src/mesh.rs:531-578 | After all updates have returned and one heartbeat has gone through, the local entry is there and equals the announcement, and stays so while commits are timely and no update or shutdown begins |
| MeshRuns.MeshRunIsRegistryRun | src/mesh.rs:411-578 | In every interleaving the registry of a node is the result of a legal run of registry operations |
| MeshRuns.RunKeepsRules | src/listener.rs:88-110 | For any property kept by changes and signing and any property of what is heard: in every run all copies, entries and events obey them |
| MeshRuns.EntryIsGood | src/listener.rs:88-101 | In every run the local entry is an announcement the node held and is there only if it advertises; other entries are well formed and, on a node that verifies, carry the scheme and the tag of their own payload under an accepted secret |
| MeshRuns.EventIsGood | src/listener.rs:100-109 | In every run local events are about the local agent and are no expiry, remote events other than expiry are about others |
| MeshRuns.ListenerSparesLocal | src/listener.rs:88-110 | After any run no listener step changes the local entry or sends an event about the local agent |
| ListenerSpec.HeardIff | src/listener.rs:88-101 | An announcement is heard exactly if the record parses to it, it is not under the local id and, where the listener verifies, it carries the tag of its own payload under an accepted secret |
| ListenerLoop.HandleEvent | src/listener.rs:87-120 | What is heard is stored with the clock reading; the goodbye of another name takes one agent of that name, if there is one, gracefully; nothing else changes anything |
| ListenerLoop.RunListener | src/listener.rs:80-125 | The loop handles the events in order up to the one that ends browsing, the shutdown signal or the end of the channel, and the registry is the result of exactly their operations |
| ListenerLoop.HandlingIsDelivering | src/listener.rs:86-111 | Handling an event is delivering it and committing it in the step system |
| ListenerLoop.BrowseEndIsFinal | src/listener.rs:115-118 | After the end of browsing, in every run, the listener delivers and commits nothing any more |
| MeshGoodbye.GoodbyeRemoves | src/listener.rs:107-111 | After any run, once the goodbye of a name that one agent alone bears is delivered and committed, whatever happens in between, that agent has left gracefully, or had been swept, and stays away while nothing is heard under its id |
| MeshGoodbye.OwnGoodbyeIsIgnored | src/listener.rs:107-111 | The goodbye of the node's own name changes nothing |
| MeshAuth.LocalVerifies | src/mesh.rs:447-474 | In every run, whenever no update is between its two lock scopes the local announcement verifies, and copies taken by updates and startup always do |
| MeshAuth.RejectedUpdateIsNoStep | src/mesh.rs:468-471 | A rejected update changes nothing |
| MeshAuth.VerifiesIffSamePayload | src/types.rs:328-349 | An announcement that carries the signature of another one verifies if both have the same payload, and only then where the tag tells the two apart |
| MeshAuth.UpdatedVerifiesIffSameContent | src/mesh.rs:464-474 | The special case of one update of an announcement with its own signature: the update verifies before it is re-signed exactly when it left the content as it was |
| MeshSignatures.LocalVerifiesIff | src/mesh.rs:447-474 | In every run of a node with a secret, advertising or not, with any number of updaters: its announcement verifies if its payload is that of what it last signed, and only then where the tag tells the two apart; for printable announcements the same holds of the content |
| MeshSignatures.HeartbeatCopyVerifiesIff | src/mesh.rs:545-550 | In every run the heartbeat's copy is the announcement when it was read, and verifies under that condition with what was last signed then |
| MeshSignatures.PublishedVerifiesIff | src/mesh.rs:447-474 | In every run each published announcement was the local one after some part of the run, and verifies under that condition with what was last signed then |
| MeshSignatures.HeartbeatCanPublishStale | src/mesh.rs:545-550 | On every node that advertises and signs, a run from startup publishes an announcement that fails verification at every peer with the secret, unless the tags of the two payloads happen to agree |
| MeshAuth.HiddenNodeNeverResigns | src/mesh.rs:447-450 | In every run of a node that does not advertise, its announcement is the first one with the updates applied and no new signature |
| MeshConvergence.HeartbeatConverges | src/mesh.rs:538-553 | Once all updates have returned, one full heartbeat tick makes the local entry equal to the announcement, whatever else happens in between; later quiet steps can expire it but not change it |
| MeshShutdown.ShutdownIsOrderly | src/mesh.rs:411-445 | In every run one shutdown or drop wins; when it returned Ok all tasks have ended; once the removal is over the local entry is there exactly if a copy was committed since and no later sweep took it |
| MeshShutdown.TasksEndInOrder | src/mesh.rs:538-578 | In every run the heartbeat and the sweeper end without a panic only after the signal was sent, and a task that has ended left no copy, sweep or event half way |
| MeshGoodbye.RemovalIsGraceful | src/mesh.rs:424-427 | In every run the removal at shutdown takes the local agent alone, with one graceful local departure, or does nothing if it is not there |
| MeshShutdown.EntryAfterRemovalIff | src/mesh.rs:424-440 | In every run, whatever comes before and after the removal, the local entry is there exactly if a local copy was committed since and no later sweep took it |
| MeshShutdown.AbsentForGoodIff | src/mesh.rs:411-445 | Whatever follows the removal but new updates, heartbeats included, the local entry stays away exactly if at the removal no copy was on its way and the heartbeat had ended |
| MeshShutdown.AbsentIfNothingBeginsIff | src/mesh.rs:411-445 | If no heartbeat begins either, it stays away exactly if no copy was on its way |
| MeshShutdown.LateHeartbeatSurvivesShutdown | src/mesh.rs:424-440 | Every node that advertises has a run from startup in which shutdown returns Ok and the local agent is in the registry |
| MeshShutdown.DroppedIsFinal | src/mesh.rs:477-505 | In every run, once the tasks of a dropped node have ended, nothing changes its registry, sends an event or publishes any more |
| MeshShutdown.OkShutdownIsFinal | src/mesh.rs:411-445 | In every run, after a shutdown that returned Ok, with no update under way and none to come, nothing changes the registry or publishes any more |
| MeshObject.ZeroConfMesh.Start | src/mesh.rs:86-159 | Startup fails with the error of announcing, on a node that advertises, or of the listener; if the announcement has gone out by then, a goodbye follows; otherwise it gives a node as below |
| MeshObject.ZeroConfMesh.FromConfig | src/mesh.rs:86-159 | Once announced and listening, startup reaches the state after the startup steps, and has announced exactly once if it advertises |
| MeshObject.ZeroConfMesh.RefreshLocalAgent | src/mesh.rs:447-462 | Re-signs, announces and upserts, stops with an error if announcing fails, and does nothing on a node that does not advertise |
| MeshObject.ZeroConfMesh.MutateLocalAgent | src/mesh.rs:464-474 | An update is one run of its steps, with the error of the setter or of the announcement |
| MeshObject.ZeroConfMesh.HeartbeatTick | src/mesh.rs:545-551 | A tick is one run of its steps and upserts even when announcing fails |
| MeshObject.ZeroConfMesh.StopOnSignal | src/mesh.rs:543-544 | A waiting task ends exactly if the shutdown signal was sent |
| MeshObject.ZeroConfMesh.HeartbeatLoop | src/mesh.rs:542-553 | The loop is the run of the steps of its ticks, and ends if the signal was sent |
| MeshObject.ZeroConfMesh.SweepTick | src/mesh.rs:569-574 | A sweep tick is one run of its steps and evicts exactly the stale agents |
| MeshObject.ZeroConfMesh.SweeperLoop | src/mesh.rs:566-576 | The loop is the run of the steps of its sweeps, and ends if the signal was sent |
| MeshObject.ZeroConfMesh.JoinTask | src/mesh.rs:430-440 | Waits for one task; fails exactly when it had panicked |
| MeshObject.ZeroConfMesh.Shutdown | src/mesh.rs:411-445 | The first call removes the local agent and joins all tasks, and is Ok exactly when none had panicked; later calls do nothing |
| MeshObject.ZeroConfMesh.Drop | src/mesh.rs:477-505 | The drop of a node that was not shut down wins the swap and aborts every task that runs; otherwise it does nothing |
| Network.NodeRuns | src/broadcaster.rs:27-37 | Every node of a network goes through a run of its own |
| Network.NothingIsInvented | src/broadcaster.rs:27-37 | In every run of a network a remote entry is the parse of something its owner published, agrees with it on name, port, id, role, project, branch and status, and equals it, with the addresses seen, exactly when its metadata keys are safe |
| Network.PublishedIsReadableIff | src/broadcaster.rs:27-37 | In every run of a network the record of what a node published can be read exactly if no metadata key displaces a canonical one and none becomes blank |
| Network.LastHeardIsLatest | src/listener.rs:80-101 | In every run a listener that has not panicked commits last, or is about to commit, what it accepted last |
| Network.LastDeliveryWins | src/listener.rs:88-101 | If the last delivered record of an owner is that of its present announcement and is accepted, the entry, once the listener is through, equals it in every field and all metadata, with the addresses seen, exactly when its keys are safe |
| NetworkAuth.SignedCopyIsHeard | src/listener.rs:88-101 | In every run of a network, what startup or an update publishes is heard, as published, by every other node that does not verify or accepts the secret, if its keys are safe |
| NetworkAuth.PublishedIsHeardIff | src/listener.rs:88-101 | A node that verifies and accepts the secret hears a published announcement with safe keys if its payload is that of what its owner had last signed, and only then where the tag tells the two apart |
| NetworkAuth.SignedDeliveryWins | src/listener.rs:88-101 | If the last delivered record is that of the owner's present announcement outside the window of an update, with safe keys and an accepted secret, the entry equals that announcement |
| Guidance.FindMeaning | src/bin/camp.rs:1295 | The search gives the first occurrence, or there is none |
| Guidance.OneRun | src/bin/camp.rs:1292-1312 | One run is: text before, blank line, block, blank line, text after, newline, with empty parts left out |
| Guidance.OutsideSurvives | src/bin/camp.rs:1296-1311 | All text outside the old block survives but white space next to it |
| Guidance.NFoldLaw | src/bin/camp.rs:1292-1312 | On a well-marked document n runs give what one gives, plus n - 1 newlines if anything follows the block |
| Guidance.StrayEndAppends | src/bin/camp.rs:1310 | With an end marker and no start before it, every run appends one more block |
| Guidance.StrayStartSwallows | src/bin/camp.rs:1296-1308 | With a start marker and no end the second run loses the text after the stray marker |
| Guidance.RunningAgainChangesNothingIff | src/bin/camp.rs:1292-1312 | A second run changes nothing exactly when the document was well marked and nothing follows the block |
| Guidance.EnclosedIsBlock | src/bin/camp.rs:1275-1287 | What two markers enclose is a block in the sense of these laws exactly when the end marker does not show up early |
| Guidance.GuidanceIsBlock | src/bin/camp.rs:46-47 | The crate's two markers enclose a block, whatever stands between them without an angle bracket |
| Slugs.Slugify | src/bin/camp.rs:1180-1201 | The loop computes the lower-case words of the name joined by single dashes, or the fallback |
| Slugs.SlugIsNormalForm | src/bin/camp.rs:1180-1201 | A slug is never empty and has no leading, trailing or double dash; slugs are exactly the names that stay as they are |
| Slugs.SlugKeepsLetters | src/bin/camp.rs:1180-1201 | A slug keeps all ASCII letters and digits of the name in their order, in lower case; a name without any gets the fallback |
| Slugs.SameSlugIff | src/bin/camp.rs:1180-1201 | Two names share a slug exactly when they have the same words |

## Left out

- mDNS sockets, the daemon and its renaming on conflict: the network is an environment that emits resolved and removed events.
- The length limit of TXT strings in RFC 6763, section 6.1: strings of any length are carried.
- HMAC-SHA256, base64 and UTF-8: one function of secret and payload with non-blank output; a value is text or marked as not UTF-8. No claim about forging is made.
- MeshSignatures.LocalVerifiesIff: the "only then" is for a tag that tells the two payloads in question apart, because the tag function is left open.
- Network.LastDeliveryWins: does not say that a delivery happens, which is up to the network, nor that the entry is still there, because a sweep or a goodbye may have removed it.
- Timing.LocalSparedIff: commit delays and gaps are assumptions on a run; the step system itself has no clock.
- Interface selection, and the errors of the daemon at startup.
- MeshObject.ZeroConfMesh.Drop: aborts at once, because in the object no task is in the middle of a tick; in the step system an aborted task may go on until it next waits, so its end is a step of its own that may come at any time.
- Cancellation of an update or shutdown call whose future is dropped half way.
- The receive loops of `events_handler` and `run_watch` are steps of a system that interleaves with the registry, not loops: between two receptions the registry moves on, and the theorems are about that. Rounding of the channel capacity by the broadcast channel is not modelled: the capacity is any number.
- `canonicalize_capabilities` and `with_rotation` sort and remove duplicates by library calls, which are functions here.
- Changes that a caller makes through the `registry()` handle: the theorems about a node are about its own steps.
- The regex query, the `get_all_by` wrappers, getters, builder setters, and error texts: each is settled by one branch.
- The command line, HTTP, JSON, TOML, files, exec hooks, and inference of names from git and the host: plumbing.
