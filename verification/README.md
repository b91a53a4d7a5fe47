# pypowervm: models and proofs

pypowervm is a client library for the PowerVM REST API. Most of it moves XML over
HTTP, but some of its tasks are real algorithms. This project models those and proves
what they are for. REST calls, XML parsing, clocks and logging become values, state or
nondeterministic choices.

| file | component |
|---|---|
| `ImageUpload.dfy` | hosts that upload an image to a shared pool and coordinate through the names of LUs only |
| `EntryTransaction.dfy`, `FeedTasks.dfy` | lock, GET, run subtasks, POST with an etag, redrive; one list of subtasks that is copied to the wrappers of a feed on demand |
| `VlanBridges.dfy`, `VlanSafety.dfy`, `VlanResults.dfy`, `VlanPasses.dfy`, `VlanLayout.dfy`, `VlanClashes.dfy`, `NetworkBridger.dfy` | VLANs on network bridges: the specification of the calls, their invariants, their promises, what each pass does exactly, how trunks fill, when PVIDs clash, and the bridger class itself |
| `NpivMapper.dfy`, `NpivMigration.dfy`, `FirstFits.dfy` | physical Fibre Channel ports for client ports, and for the slots of a migrating partition; when first fit is right |
| `SlotStore.dfy`, `SlotRebuild.dfy`, `SlotColours.dfy` | the saved slot topology, and servers for the slots of a rebuilt partition; when no choice of a server is wrong |
| `ElementTrees.dfy`, `ElementLists.dfy` | equality of XML elements; `inject` and `ElementList` on a list of children |
| `LuStorage.dfy` | removal of LUs with their unused images |
| `SriovPlacement.dfy` | SR-IOV ports and servers that back a vNIC |
| `SessionRelogin.dfy` | re-login of a session that threads share |
| `RoundRobin.dfy`, `Options.dfy`, `Sets.dfy` | going round a list; result types; finite sets |

Concurrent parts (`ImageUpload`, `SessionRelogin`, and the other writers in
`EntryTransaction`) are step systems or methods with arbitrary interference; results
about them hold of every interleaving. Where the source iterates over a dictionary or a
set, or shuffles, the model takes the elements in any order, and the results hold for
every one of them.

## What turned out not to hold

Each of these has a lemma, or a clause of a contract, that says exactly, for all inputs,
when the code does what is wanted. For two searches that do not look ahead, first fit and
the slot rebuild, the exact condition is for the search to be right in every choice of its
inputs, because on one given input it may be lucky.

- Marker order does not exclude two uploaders: in all runs at most one host is past the
  check exactly if there are no two hosts (`ImageUpload.ExclusionIff`). From a state in
  which all contenders' markers are in place it does exclude them
  (`ImageUpload.RoundExclusion`).
- An image that is there is not returned while another LU has its name as part of the
  name: a listing can end the call exactly if the image is alone in it
  (`ImageUpload.ListingReturnsIff`), and as long as it is not, in every run, nobody who asks
  for the image gets it (`ImageUpload.NobodyGetsCrowdedImage`,
  `ImageUpload.CrowdedGoesRound`).
- `ensure_vlans_on_nb` promises that requested VLANs leave the peers. Only the first peer
  that has a VLAN is looked at, one tag of it goes, and of a peer that loses several VLANs
  just the first is removed on the server: the later removals post a wrapper whose etag is
  stale, and are redriven on the memory copy. `VlanPasses.LeftBehindIff` has the exact
  condition for every peer and VLAN, `VlanPasses.OnlyCarrierIff` that for a VLAN to be on
  one bridge only.
- A peer's trunk can so be gone in memory only, and its throw-away PVID be given out again
  (`VlanClashes.StaleWrapperClash`). `VlanClashes.ClashIff` says of every call, with its own
  orphans and all its passes, exactly when PVIDs are not apart after it, and
  `VlanClashes.RunApartIff` of any run of calls; `VlanClashes.PlainClashIff` is the case of
  calls that ask for no throw-away PVID, and `VlanClashes.SomeOrphansClashIff` says for which
  of those there are orphans with which they clash.
- The documentation has an error for a VLAN on a peer's primary trunk; the code raises it
  for the PVID only, and leaves a tagged VLAN there (`VlanPasses.OutcomeIs` and
  `VlanPasses.LeftBehindIff`). Asking for a throw-away PVID of a peer ends in a crash, for
  which the model's outcome is NoTrunkToReassign (`VlanPasses.CrashIff`, exact;
  `VlanPasses.PeerPvidCrashes` and `VlanPasses.CrashExample`).
- `derive_npiv_map` drops a client pair whose mapping lost its backing port and is to be
  preserved (`NpivMapper.PairsAccounted`, exact).
- `build_migration_mappings` compares the fabric's WWPNs without sanitizing them: a port
  counts exactly if the fabric lists it in the API's notation
  (`NpivMigration.NotationMatters`, `NpivMigration.SupportsIff`). A client mapped under -1
  takes all slots to its own port, to no row, or makes the call fail
  (`NpivMigration.PlaceFabric`, `NpivMigration.BuildMigrationMappings`).
- Taking the first server that fits can miss an assignment that exists
  (`NpivMigration.FirstFitCanMiss`). It does not if the servers of the groups are nested
  (`NpivMigration.NestedFirstFitDecides`). For one given list of groups and servers that is
  sufficient only, because first fit may be lucky; it is exact for first fit to be right
  for every choice of the groups and every choice and order of the servers
  (`FirstFits.RightIff`).
- The slot rebuild says of the candidates that it "doesn't matter" which is taken; it does
  (`SlotRebuild.TakingOneCanFail`). For slots that share UDIDs in every choice of the slots
  and servers it does not matter, in any order of the slots, exactly if the topology is
  calm: slots that share a UDID see the same servers or none in common, and two that share
  with a third but not with each other see one common server at most
  (`SlotColours.RightIff`). Then the rebuild succeeds exactly if a server for every slot
  exists (`SlotRebuild.RebuildSlotMap.VscsiBuildOut`). It also cannot fail if every slot has
  more servers than other slots share a UDID with it (`SlotRebuild.RoomyNeverFails`), and
  without shared UDIDs it succeeds exactly if every slot has a server that sees all of it
  (`SlotRebuild.UnsharedStuckIff`).
- A saved slot map loses the number of virtual slots, and one opened with `load=False`
  and saved while empty does not replace what the back-end holds
  (`SlotStore.SaveAndLoad`, exact).
- Element equality ignores attributes (`ElementTrees.AttributesAreIgnored`). An empty
  string appended to an `ElementList` becomes a missing text that the list no longer
  finds (`ElementLists.ElementList.Append`). `inject` misplaces a child in exactly one
  case (`ElementLists.InjectKeepsOrder`).
- `set_vnic_back_devs` promises to leave the vNIC alone when it raises. It does exactly if a
  check before the capacity fails or the vNIC had no devices: short of capacity it has
  already cleared it (`SriovPlacement.Vnic.SetBackDevs`).
- A `FeedTask` accepts a duplicate `provides` name across the replication of its subtasks
  (`FeedTasks.LazyIsEagerIff`, exact).

## Model

| member | source | states |
|---|---|---|
| LuNames.Least | pypowervm/tasks/cluster_ssp.py:143-144 | the first name of the sorted list is in the set and not after any other |
| ImageUpload.InitInv | pypowervm/tasks/cluster_ssp.py:195-213 | the invariant holds when nobody has started, whatever complete images and foreign LUs are in the pool |
| ImageUpload.HostStepInv | pypowervm/tasks/cluster_ssp.py:195-246 | every step of a host, successful or failing, keeps: a host that is past its create has its marker in the pool, and an incomplete image is in the hands of one host |
| ImageUpload.NextInv | pypowervm/tasks/cluster_ssp.py:195-246 | so does every step of anybody, others' LUs coming and going included |
| ImageUpload.FoundImageIsComplete | pypowervm/tasks/cluster_ssp.py:197-203 | a listing with the image name as its only match shows a finished upload |
| ImageUpload.ReturnedImageIsComplete | pypowervm/tasks/cluster_ssp.py:195-246 | in every run, an image returned by a host, found or made, is a completed upload and stays in the pool from then on |
| ImageUpload.IncompleteImageHasMarker | pypowervm/tasks/cluster_ssp.py:213-246 | in every run, an incomplete image is listed together with its uploader's marker |
| ImageUpload.NothingLeftBehind | pypowervm/tasks/cluster_ssp.py:236-246 | once all hosts have finished, no marker and no incomplete image is left |
| ImageUpload.CheckPassesIff | pypowervm/tasks/cluster_ssp.py:120-152 | the check after the marker is passed exactly if no image is there and no listed name sorts before the marker |
| ImageUpload.MarkersHoldOffListers | pypowervm/tasks/cluster_ssp.py:91-117 | while a marker is there, no lister starts an upload or takes an image for finished |
| ImageUpload.WinnerIsLeast | pypowervm/tasks/cluster_ssp.py:134-152 | who passes the check has the least marker of all contenders, and nobody else is past it |
| ImageUpload.RoundExclusion | pypowervm/tasks/cluster_ssp.py:120-152 | from a state where all contenders' markers exist, at most one host at a time is between winning and removing its marker, as long as markers remain |
| ImageUpload.ExclusionCanFail | pypowervm/tasks/cluster_ssp.py:213-232 | without that, any two hosts can both be past the check in some run |
| ImageUpload.ExclusionIff | pypowervm/tasks/cluster_ssp.py:120-152 | in all runs at most one host is past the check exactly if there are fewer than two hosts |
| ImageUpload.JoinsIff | pypowervm/tasks/cluster_ssp.py:120-152 | with another host past the check, a host passes it too exactly if no image is there yet and no listed name sorts before its marker |
| ImageUpload.ListingReturnsIff | pypowervm/tasks/cluster_ssp.py:195-203 | with the image there, a listing can end the call exactly if no other LU has the image name as part of its name |
| ImageUpload.NobodyGetsCrowdedImage | pypowervm/tasks/cluster_ssp.py:195-232 | in every run, as long as there is such an LU, a host that is not past its check neither returns the image nor gets past the check |
| ImageUpload.CrowdedGoesRound | pypowervm/tasks/cluster_ssp.py:205-232 | without a marker in sight it creates its marker, abdicates for the image, deletes the marker and lists again, with the pool as it was |
| ImageUpload.TwoImagesCrowd | pypowervm/tasks/cluster_ssp.py:85-88 | a second LU whose name contains the image's, finished or not, is enough for that |
| EntryTransaction.ResidueFree | pypowervm/utils/transaction.py:461-475 | what earlier attempts left in `provided` changes neither the content, nor the decision to POST, nor the provided values of a later attempt, if subtasks read only names of earlier subtasks |
| EntryTransaction.Server.Post | pypowervm/adapter.py:843-870 | If-Match: a POST is accepted exactly if its etag is current, and is otherwise without effect |
| EntryTransaction.WrapperTask.AddSubtask | pypowervm/utils/transaction.py:365-384 | a subtask is refused exactly for a name that was added before, and otherwise appended |
| EntryTransaction.WrapperTask.RunSubtasks | pypowervm/utils/transaction.py:461-475 | the loop is the fold of the subtasks over content and `provided`, and an exception of any of them stops it |
| EntryTransaction.WrapperTask.Attempt | pypowervm/utils/transaction.py:461-475 | one attempt posts what fresh subtasks make of the wrapper, or nothing; it is to be redriven only for a stale etag or an HTTP 412 of a subtask |
| EntryTransaction.WrapperTask.Execute | pypowervm/utils/transaction.py:110-120 | with others writing between any two requests, at most 60 attempts; the one accepted write turns the server's value at that moment into what fresh subtasks make of it, and a task that posts nothing or fails has written nothing; it ends with a subtask's exception only if fresh subtasks raise it, other than HTTP 412, on some value of the server |
| EntryTransaction.LaterWritesAreOthers | pypowervm/utils/transaction.py:438-479 | what an execution ensures when it returns still holds after any later writes by others |
| EntryTransaction.WritesAreSerial | pypowervm/utils/transaction.py:438-479 | for any number of executions on one server, interleaved with each other and with other writers: the value in the end is that of running them alone, one after the other, in the order in which the server accepted their POSTs |
| EntryTransaction.EachPostOnce | pypowervm/utils/transaction.py:438-479 | in that order an execution that posted comes exactly once, and one that did not post not at all |
| FeedTasks.FeedTask.WrapperTasks | pypowervm/utils/transaction.py:604-625 | every wrapper of the feed has a task with all subtasks so far, replicated once |
| FeedTasks.FeedTask.AddSubtask | pypowervm/utils/transaction.py:642-657 | before replication subtasks go to the common list, afterwards to every wrapper's task |
| FeedTasks.LazyIsEagerIff | pypowervm/utils/transaction.py:598-657 | lazy replication gives the subtasks of eager addition exactly if no later subtask provides a name of an earlier one |
| VlanBridges.FreeFrom | pypowervm/tasks/network_bridger.py:347-352 | the highest VID from 4094 down to 2 that is not taken; none if all are |
| VlanBridges.FindAvailableMeans | pypowervm/tasks/network_bridger.py:908-969 | the trunk chosen is the first of those with the fewest VLANs; none exactly if all are full, or more trunks may be opened to spread over, or a load-balanced bridge has an odd number with room on just one |
| VlanBridges.WithoutDropsOne | pypowervm/tasks/network_bridger.py:834-863 | taking a VLAN off removes one tag of that VLAN and no other, whether the trunk goes or not |
| VlanBridges.NewVidIsFree | pypowervm/tasks/network_bridger.py:331-352 | a new throw-away VID is no VLAN, PVID or orphan of the switch and not requested |
| VlanBridges.ListVlansMembers | pypowervm/wrappers/network.py:437-510 | `list_vlans` has just the VIDs that the primary trunk or an additional trunk carries |
| VlanSafety.PlaceEffect | pypowervm/tasks/network_bridger.py:813-832 | placing a VLAN keeps both SEAs mirrors of each other with distinct PVIDs and adds just that VLAN and, if needed, that PVID |
| VlanSafety.WithoutEffect | pypowervm/tasks/network_bridger.py:834-863 | removing a VLAN keeps the mirror, every other VLAN and adds no PVID |
| VlanSafety.ReassignEffect | pypowervm/tasks/network_bridger.py:773-794 | a new throw-away PVID replaces the old one in both SEAs and changes no VLAN |
| VlanSafety.ReassignLowersByOne | pypowervm/tasks/network_bridger.py:216-227 | a reassignment lowers the number of requested VLANs in use as throw-away PVIDs by exactly one |
| VlanSafety.ScanFromServer | pypowervm/tasks/network_bridger.py:216-227 | a pass that ends with a reassignment leaves fewer requested VLANs in use as throw-away PVIDs, whatever it took off peers before; so the recursion ends |
| VlanSafety.ScanOk | pypowervm/tasks/network_bridger.py:201-234 | a pass over the requested VLANs, for every way it can end: what peers lost, what is to be placed, and why it gave up; when VIDs are exhausted, that every VID is requested, an orphan or in use |
| VlanResults.PlaceAllOk | pypowervm/tasks/network_bridger.py:813-832 | all VLANs are placed once each, earlier tags stay in place, no trunk grows beyond 20 |
| VlanResults.EnsureMeetsSpec | pypowervm/tasks/network_bridger.py:183-246 | the whole call with its restarts: peers lose requested VLANs only, other switches are untouched, the bridge keeps its tags and gains just the missing VLANs, and a failure has its reason, exhaustion at some point of the call included, and loses nothing |
| VlanResults.EnsureDelivers | pypowervm/tasks/network_bridger.py:156-180 | after a call that succeeds the bridge has every requested VLAN, a new one on exactly one additional trunk |
| VlanResults.EnsureKeepsApart | pypowervm/tasks/network_bridger.py:183-246 | throw-away PVIDs stay distinct between bridges of a switch and disjoint from PVIDs, tags and orphans, if from each peer at most one VLAN that the bridge lacks is to be taken, or none of its trunks carries just such VLANs |
| VlanResults.RemoveKeepsApart | pypowervm/tasks/network_bridger.py:265-317 | so does every removal, also of a throw-away PVID |
| VlanResults.RemoveDropsThatVlanAlone | pypowervm/tasks/network_bridger.py:303-317 | a removal takes one tag of that VLAN off that bridge and changes nothing else |
| VlanPasses.ScanPasses | pypowervm/tasks/network_bridger.py:201-234 | exactly what a pass does, for different VLANs: the first VLAN that is the primary PVID of its first peer, a throw-away PVID in memory, or an orphan ends it, with the outcome for each, and peers are on the server and in memory as described |
| VlanPasses.StartsOver | pypowervm/tasks/network_bridger.py:216-227 | a call that moves a throw-away PVID of its bridge is the same call on the server as that pass left it, with fewer requested VLANs in the way |
| VlanPasses.LastPassIs | pypowervm/tasks/network_bridger.py:201-246 | the last pass, for every outcome: the whole server after it, and the result of the call |
| VlanPasses.PeersAfter | pypowervm/tasks/network_bridger.py:202-214 | whatever the outcome, a peer is on the server as the last pass found it, or without one tag of the first requested VLAN that is taken off it |
| VlanPasses.OutcomeIs | pypowervm/tasks/network_bridger.py:202-231 | the first VLAN that ends the last pass gives the error: PvidOfNetworkBridgeError, the crash on a peer's throw-away PVID, exhaustion or the orphan; without such a VLAN the call ends well or for lack of VIDs |
| VlanPasses.CrashIff | pypowervm/tasks/network_bridger.py:216-227 | a call crashes exactly if that VLAN is a throw-away PVID of a peer and none of its own bridge, with a VID left |
| VlanPasses.PeerPvidCrashes | pypowervm/tasks/network_bridger.py:773-794 | with PVIDs apart and a VID left, asking for a throw-away PVID of a peer always crashes and changes nothing |
| VlanPasses.CrashExample | pypowervm/tasks/network_bridger.py:773-794 | a call that does |
| VlanPasses.LeftBehindIff | pypowervm/tasks/network_bridger.py:202-214 | a requested VLAN goes from a peer in the last pass exactly if the peer is the first with it, has one tag of it, on an additional trunk, and loses no other requested VLAN before |
| VlanPasses.OnlyCarrierIff | pypowervm/tasks/network_bridger.py:156-180 | after a successful call the bridge is the only one with the VLAN exactly if that holds of every peer that had it before the last pass |
| VlanClashes.PlaceAllTakesTop | pypowervm/tasks/network_bridger.py:813-832 | placing VLANs succeeds exactly if as many VIDs are free as trunks have to be opened, and takes the highest of them |
| VlanClashes.SucceedsIff | pypowervm/tasks/network_bridger.py:183-246 | a call succeeds exactly if no requested VLAN ends its last pass and as many VIDs are free as trunks have to be opened |
| VlanClashes.ClashIff | pypowervm/tasks/network_bridger.py:183-246 | PVIDs that were apart are not apart after a call exactly if a PVID that an earlier pass gave to the bridge is still a peer's, or the call succeeds and puts a VLAN on the bridge that is a peer's PVID, or takes a PVID gone in memory only, which it does exactly if fewer free VIDs are above it than trunks are opened |
| VlanClashes.PlainClashIff | pypowervm/tasks/network_bridger.py:183-246 | for a request without throw-away PVIDs only the last of these is left |
| VlanClashes.RunKeepsApart | pypowervm/tasks/network_bridger.py:156-317 | a run of calls that are removals, keep the peers' trunks or do not meet that condition keeps PVIDs apart |
| VlanClashes.RunApartIff | pypowervm/tasks/network_bridger.py:156-317 | in a run of requests that name no VLAN twice, PVIDs stay apart all the time exactly if every call is such a one |
| VlanClashes.SomeOrphansClashIff | pypowervm/tasks/network_bridger.py:183-246 | there are orphans with which a request without throw-away PVIDs clashes exactly if no VLAN is a peer's primary PVID, VIDs suffice without orphans, and fewer PVIDs above a lost one are really gone than trunks are opened |
| VlanClashes.StaleWrapperClash | pypowervm/tasks/network_bridger.py:202-246 | a call after which two bridges of a switch share a throw-away PVID |
| VlanLayout.SpreadStep | pypowervm/tasks/network_bridger.py:908-969 | one more VLAN takes the even spread for n VLANs to the even spread for n + 1 |
| VlanLayout.PlacementSpreads | pypowervm/tasks/network_bridger.py:813-832 | on a load-balanced bridge that started without additional trunks, n = 40k + r VLANs leave 2k trunks of 20 and then one trunk of 1, or two trunks with the halves of r, whatever the calls |
| NetworkBridger.FindAvailableTrunk | pypowervm/tasks/network_bridger.py:920-969 | the loop finds the trunk of the specification |
| NetworkBridger.FindPeerTrunk | pypowervm/tasks/network_bridger.py:865-892 | the first trunk of the second SEA with that PVID, the primary before the additional ones, or none |
| NetworkBridger.NetworkBridgerTA.Update | pypowervm/wrappers/entry_wrapper.py:1133-1164 | a wrapper is accepted by the server once; its copy in memory keeps its old etag, so that a second update is refused |
| NetworkBridger.NetworkBridgerTA.FindNewArbitraryVid | pypowervm/tasks/network_bridger.py:331-352 | the downward search gives the VID of the specification |
| NetworkBridger.NetworkBridgerTA.ReassignArbitraryVid | pypowervm/tasks/network_bridger.py:773-794 | the trunk of the old VID and its peer get the new one and are posted; without such a trunk nothing changes |
| NetworkBridger.NetworkBridgerTA.AddVlan | pypowervm/tasks/network_bridger.py:816-832 | editing the trunk and its peer one by one is placement on both SEAs |
| NetworkBridger.NetworkBridgerTA.AddVlansToNb | pypowervm/tasks/network_bridger.py:796-832 | the loop places all new VLANs as specified, or stops where no VID is free |
| NetworkBridger.NetworkBridgerTA.RemoveVlanFromNb | pypowervm/tasks/network_bridger.py:834-863 | the matching trunks lose the VLAN or go, on both SEAs, and no other bridge changes |
| NetworkBridger.NetworkBridgerTA.RemoveVlan | pypowervm/tasks/network_bridger.py:249-317 | the public removal, for every outcome |
| NetworkBridger.NetworkBridgerTA.EnsureVlans | pypowervm/tasks/network_bridger.py:183-246 | the self-recursive method terminates and does to the server what the specification of the call says |
| NpivMapper.FuseVfcPorts | pypowervm/tasks/vfc_mapper.py:375-378 | pair i is made of the sanitized WWPNs 2i and 2i + 1; an odd one is dropped |
| NpivMapper.FindMapPort | pypowervm/tasks/vfc_mapper.py:288-359 | a port is found exactly if one has fewer than 128 uses; it is used least, and of those it has the most free NPIV ports |
| NpivMapper.DeriveNew | pypowervm/tasks/vfc_mapper.py:229-285 | the loop ends; new pairs get one port each, in order, from the next server round-robin that has room; it raises only when no server has any |
| NpivMapper.RunTakesRoom | pypowervm/tasks/vfc_mapper.py:250-282 | every new mapping uses up exactly one free use of the selected ports |
| NpivMapper.RoomDecides | pypowervm/tasks/vfc_mapper.py:250-265 | the mapping succeeds exactly if the new pairs are no more than the free uses of the selected ports, 128 less the uses each |
| NpivMapper.RunIsBalanced | pypowervm/tasks/vfc_mapper.py:250-282 | without existing mappings and below the cap, after every mapping any two servers with selected ports differ by at most one in total, and any two ports of a server by at most one |
| NpivMapper.FirstMatch | pypowervm/tasks/vfc_mapper.py:590-613 | a mapping of some server whose client has just these two WWPNs, if there is any |
| NpivMapper.PairsAccounted | pypowervm/tasks/vfc_mapper.py:203-226 | in the result a client pair occurs as often as it was asked for, except that a preserved mapping without backing port drops it |
| NpivMapper.DeriveNpivMap | pypowervm/tasks/vfc_mapper.py:155-226 | succeeds exactly if the free uses suffice for the pairs without a mapping to preserve; new mappings come first, then the preserved ones |
| NpivMapper.DeriveBaseNpivMap | pypowervm/tasks/vfc_mapper.py:129-152 | n mappings with generated WWPNs, unless a client is already mapped under the marker: then n copies of its mapping, or none |
| NpivMigration.SplitCount | pypowervm/tasks/vfc_mapper.py:658-689 | the split map of a group has exactly the group's slots, as often as the fabrics have them |
| NpivMigration.SortSorted | pypowervm/tasks/vfc_mapper.py:747-749 | the groups with the most peers come first |
| NpivMigration.AssignServers | pypowervm/tasks/vfc_mapper.py:753-769 | every group gets the first server that is still free and supports it, or the first group without one ends it |
| NpivMigration.FirstFitDistinct | pypowervm/tasks/vfc_mapper.py:754-769 | different groups get different servers |
| NpivMigration.FirstFitCanMiss | pypowervm/tasks/vfc_mapper.py:754-769 | two groups for which the search fails although an assignment exists |
| NpivMigration.NestedFirstFitDecides | pypowervm/tasks/vfc_mapper.py:753-769 | if a group's servers can all be used by every later group that shares one with it, the search fails exactly where no assignment exists |
| FirstFits.NestedIsRight | pypowervm/tasks/vfc_mapper.py:753-769 | the same for any table of places: no assignment exists where first fit has no place |
| FirstFits.RightIff | pypowervm/tasks/vfc_mapper.py:753-769 | first fit is right for every choice of the things and every choice and order of the places exactly if the places are nested |
| NpivMigration.FirstUsesDistinct | pypowervm/tasks/vfc_mapper.py:303-359 | on one server the first mappings take different ports, as long as there are unused ones |
| NpivMigration.NotationMatters | pypowervm/tasks/vfc_mapper.py:692-708 | the support check sees the ports that the mapping can use exactly if the fabric lists none of the server's ports in another notation only |
| NpivMigration.SupportsIff | pypowervm/tasks/vfc_mapper.py:692-708 | a server supports a group exactly if every fabric of it has slots no more than ports there, less those listed in another notation only |
| NpivMigration.OtherNotationNeverFits | pypowervm/tasks/vfc_mapper.py:692-708 | in particular it never supports a group with a fabric whose WWPNs are all in another notation |
| NpivMigration.PlaceFabric | pypowervm/tasks/vfc_mapper.py:776-792 | after the support check every slot gets its own port of the fabric; with a client mapped under -1 all share its port, get no row, or the lookup fails |
| NpivMigration.BuildMigrationMappings | pypowervm/tasks/vfc_mapper.py:711-793 | fails exactly where first fit does, or where a client mapped under -1 has a port that its server lacks; otherwise the rows of every group, those of groups with such a client included, and without one every row is on the server of a group of its slot and on a port of a fabric of its slot |
| NpivMigration.GroupsStayTogether | pypowervm/tasks/vfc_mapper.py:730-745 | two rows are on one server exactly if their slots are in one group |
| NpivMigration.FabricSlotsHaveOwnPorts | pypowervm/tasks/vfc_mapper.py:776-792 | slots of one fabric on one server have different ports, all of that fabric |
| NpivMigration.OneRowPerSlot | pypowervm/tasks/vfc_mapper.py:775-793 | a slot of a group has a row for each time it is in a fabric, and one of no group has none |
| SlotStore.SlotMapStore.RegSlot | pypowervm/tasks/slot_map.py:364-387 | the nested update in place is registration of that one entry |
| SlotStore.SlotMapStore.DropSlot | pypowervm/tasks/slot_map.py:389-414 | the nested removal with pruning is the drop of that one entry |
| SlotStore.RegisteredGets | pypowervm/tasks/slot_map.py:381-387 | registering sets that entry and leaves all others |
| SlotStore.DroppedGets | pypowervm/tasks/slot_map.py:403-414 | dropping removes that entry and leaves all others, also where dictionaries are pruned |
| SlotStore.DroppedCanonical | pypowervm/tasks/slot_map.py:406-414 | pruning leaves no empty dictionary |
| SlotStore.CanonicalIsUnique | pypowervm/tasks/slot_map.py:116-123 | topologies without empty dictionaries that have the same entries are equal |
| SlotStore.DropUndoesRegister | pypowervm/tasks/slot_map.py:364-414 | dropping a newly registered element restores the topology exactly |
| SlotStore.SlotMapStore.Save | pypowervm/tasks/slot_map.py:116-123 | writes exactly if an entry or the number of slots differs from what was loaded or saved last |
| SlotStore.SaveAndLoad | pypowervm/tasks/slot_map.py:63-123 | the topology comes back exactly if it had changed or the back-end had it, and the number of slots exactly if none was registered |
| SlotRebuild.VscsiBuildSlotOrder | pypowervm/tasks/slot_map.py:612-648 | raises exactly for optical media; otherwise all slots, each once, the ones with most storage first |
| SlotRebuild.SlotInfo | pypowervm/tasks/slot_map.py:669-674 | the PV, LU and VDISK elements of the slot, each once |
| SlotRebuild.PickVios | pypowervm/tasks/slot_map.py:667-694 | a server that is listed for all the elements, or the reason why there is none |
| SlotRebuild.PutSlotElems | pypowervm/tasks/slot_map.py:696-714 | the slot's elements, and nothing else, are entered for the server, which is off their lists |
| SlotRebuild.RebuildSlotMap.BuildSlot | pypowervm/tasks/slot_map.py:659-714 | one slot keeps the correspondence between plan, build map and what is left of the visibility table |
| SlotRebuild.RebuildSlotMap.VscsiBuildOut | pypowervm/tasks/slot_map.py:650-714 | on success every slot with storage has one server that sees all of it, slots that share a UDID have different ones, and the build map has exactly the saved elements; a failure has its exact reason. Without shared UDIDs it succeeds exactly if there are no optical media and every slot has such a server, with room for every slot exactly without optical media, and for a calm topology exactly if a plan for all slots exists, whatever is taken |
| SlotRebuild.GetVscsiSlot | pypowervm/tasks/slot_map.py:435-453 | an entry of some storage class for that server and UDID, if there is any |
| SlotRebuild.SlotsComeBack | pypowervm/tasks/slot_map.py:435-453 | after a rebuild the saved slot and address come back on the server that hosts the slot and on no other |
| SlotColours.RightIff | pypowervm/tasks/slot_map.py:650-694 | in every choice of slots and servers, whatever order and whichever servers, one gets stuck only where no assignment for all slots exists, exactly if slots that need different servers have the same ones or none in common, and three of them that are not all related have one at most |
| SlotRebuild.CalmFailsRightly | pypowervm/tasks/slot_map.py:659-694 | a rebuild of such a topology that fails could not have succeeded with other choices |
| SlotRebuild.UnsharedStuckIff | pypowervm/tasks/slot_map.py:676-694 | where no two slots share a UDID, a slot has no server exactly if none sees all of it, whatever was taken for other slots |
| SlotRebuild.RoomyNeverFails | pypowervm/tasks/slot_map.py:676-694 | where every slot has more servers that see all of it than other slots share a UDID with it, no plan so far makes the rebuild fail |
| SlotRebuild.OutcomeDecided | pypowervm/tasks/slot_map.py:650-714 | in both cases success does not depend on which candidates are taken |
| SlotRebuild.TakingOneCanFail | pypowervm/tasks/slot_map.py:692-694 | a choice of server after which the next slot has none, although another choice leaves one |
| ElementTrees.SameReflexive | pypowervm/entities.py:207-242 | element equality is reflexive |
| ElementTrees.SameSymmetric | pypowervm/entities.py:207-242 | and symmetric |
| ElementTrees.SameTransitive | pypowervm/entities.py:207-242 | and transitive |
| ElementTrees.AttributesAreIgnored | pypowervm/entities.py:212-224 | elements that differ in attributes only are equal |
| ElementTrees.GreedyIsSafe | pypowervm/entities.py:233-240 | whichever match is taken off first, the other children can be paired exactly if all could |
| ElementTrees.Equality | pypowervm/entities.py:207-242 | greedy matching returns true exactly if tags and texts agree under some permutation of the children at every level |
| ElementTrees.FindEquivalent | pypowervm/util.py:446-461 | the first element of the list that is equal up to the order of children, or none |
| ElementTrees.RemoveFirst | pypowervm/entities.py:238-240 | `list.remove`, which compares with the same equality, takes off the found element itself |
| ElementLists.InjectAmong | pypowervm/entities.py:345-402 | children of other tags stay as they are; among its own the new child is last, in addition or instead of the last one |
| ElementLists.InjectKeepsOrder | pypowervm/entities.py:345-402 | listed children stay in order, except exactly when the tag is new and listed and an unlisted child stands before one that has to go first |
| ElementLists.Parent.Inject | pypowervm/entities.py:369-402 | the search for the insertion point gives the list of the specification |
| ElementLists.ElementList.FindElems | pypowervm/entities.py:560-562 | the places of the children with the tag, in order and complete |
| ElementLists.ElementList.Append | pypowervm/entities.py:598-600 | appends the text to the list, a missing one for an empty string, and leaves children of other tags |
| ElementLists.ElementList.Extend | pypowervm/entities.py:585-587 | appends all the values in order |
| ElementLists.ElementList.SetItem | pypowervm/entities.py:605-606 | list assignment, negative indices and IndexError included |
| ElementLists.ElementList.DelItem | pypowervm/entities.py:608-609 | list deletion, likewise |
| ElementLists.ElementList.Remove | pypowervm/entities.py:611-612 | removes the first equal value, or raises and changes nothing |
| ElementLists.ElementList.Clear | pypowervm/entities.py:617-619 | no child of the tag is left, all others are |
| LuStorage.ImageForClone | pypowervm/tasks/storage.py:541-560 | an image LU with the UDID suffix of the clone's source, if there is any |
| LuStorage.ImageInUse | pypowervm/tasks/storage.py:563-586 | whether some disk LU is a clone of the image |
| LuStorage.LuList.RmDevByUdid | pypowervm/tasks/storage.py:732-766 | removes the one LU with the UDID; none is no error, several are, and both change nothing |
| LuStorage.LuList.RmRequested | pypowervm/tasks/storage.py:858-871 | the requested LUs go, and the images of the disks among them are noted as they are found on the way |
| LuStorage.LuList.RmImages | pypowervm/tasks/storage.py:873-894 | in any order, exactly the noted images that are not in use go |
| LuStorage.LuList.RmLus | pypowervm/tasks/storage.py:854-895 | removed and remaining LUs make up the list, also after an error; with unique UDIDs there is none, and the remaining list is exactly what was neither requested nor garbage, in order |
| LuStorage.CollectionIsExact | pypowervm/tasks/storage.py:873-894 | an image that was not requested goes exactly if a requested disk is a clone of it and no clone remains |
| LuStorage.OthersRemain | pypowervm/tasks/storage.py:854-895 | nothing else goes, and without image deletion nothing but what was requested |
| SriovPlacement.GoodPorts | pypowervm/tasks/sriov.py:346-410 | just the listed ports of running SR-IOV adapters with a link (if asked for), a logical port and capacity to spare |
| SriovPlacement.GoodVioses | pypowervm/tasks/sriov.py:280-319 | just the active, vNIC-capable servers, and of these only the failover-capable ones if redundancy needs them or there are any; each error exactly where no server is left at its step |
| SriovPlacement.PickPort | pypowervm/tasks/sriov.py:206-212 | the least saturated port on a card that is used least among those with ports left |
| SriovPlacement.Vnic.ConfigurePorts | pypowervm/tasks/sriov.py:195-227 | as many devices as asked for or ports there are, on ports used once each, with the servers in rotation |
| SriovPlacement.Vnic.SetBackDevs | pypowervm/tasks/sriov.py:156-233 | succeeds exactly if all checks pass and there are ports enough, with exactly that many devices; a failed check leaves the vNIC as it was, and is the error exactly if one fails; short capacity leaves it without devices |
| SriovPlacement.PortsDistinct | pypowervm/tasks/sriov.py:226-227 | if no two ports to choose from have card and number in common, no two devices have |
| SriovPlacement.CardsEven | pypowervm/tasks/sriov.py:196-227 | a card is used two or more times beyond another only if all ports of the other are in use |
| RoundRobin.TurnsEven | pypowervm/tasks/sriov.py:203-205 | after every device, the servers' turns differ by at most one |
| SessionRelogin.StepKeeps | pypowervm/adapter.py:347-405 | every step of any thread keeps: one holder of the lock, tokens of refused requests not newer than the session's, at most two sends a request, no logon after the last word |
| SessionRelogin.OneReloginPerToken | pypowervm/adapter.py:358-364 | in every run, of all the threads whose request was refused with a token at most one logs on successfully for it |
| SessionRelogin.SentAtMostTwice | pypowervm/adapter.py:391-405 | a request is sent at most twice, the second time with a newer token |
| SessionRelogin.NoLogonAfterRefusal | pypowervm/adapter.py:366-373 | after a re-login answered 401, or a logoff, nobody logs on again |
| SessionRelogin.LogonNeedsRefusal | pypowervm/adapter.py:347-364 | who re-logs on has had a 401 to its own request with the token that is replaced |

## Left out

- `ImageUpload`: the `first` flag (it chooses a log level), sleeps, the length limit of names, host crashes, deletes that fail and creates that take effect despite an error.
- `EntryTransaction`: subtasks that depend on more than the wrapper and the provided values, POSTs whose answer is lost, the update timeout, delays; the lock list and its inheritance by pool threads; that subtasks read other than earlier names. A wrapper handed in has to be as the server had it under its etag, which a failed earlier execution on it would not leave.
- `FeedTasks`: subtasks added to single wrappers, post-execution tasks, the feed's refresh, and the parallel execution.
- VLAN calls: trunk priority and the lookup of the virtual switch, lookup of bridges by UUID (they are addressed by position), writers outside the lock, the bound of 60 tries on a redriven removal, more than two SEAs, SEAs that are not mirrors of each other, and `NetworkBridgerVNET`. When VIDs are exhausted the source would set the PVID to None; the model ends the call.
- VlanResults.EnsureKeepsApart: the condition is sufficient, for all requests. VlanClashes.ClashIff has the exact one, for requests that name no VLAN twice; a VLAN named twice can be taken off two peers and tagged twice.
- VlanPasses.ScanPasses: for such requests too, as are the lemmas of VlanPasses and VlanClashes that build on it.
- `NpivMapper`: the order among equally good ports (a dictionary's); port names are taken to be unique, and in `NpivMigration` as the API reports them. `build_migration_mappings_for_fabric`, `add_map` and the searches by LPAR.
- `SlotRebuild`: network adapters, Fibre Channel slots and the management adapter; the copy that protects the caller's visibility table (it is a value here).
- SlotRebuild.RebuildSlotMap.VscsiBuildOut: the plan is claimed for tables that list no server twice for a UDID and topologies without a UDID in two classes of a slot; otherwise the source overwrites entries or its `list.remove` raises, which the model has as an outcome.
- `SlotStore`: pickling and its old encoding.
- `ElementTrees`, `ElementLists`: namespaces, CDATA, tails, paths in `find`, and children that move from another parent.
- LuStorage.LuList.RmLus: the closed form is claimed for lists whose LUs have UDIDs that are unique, also without their type among images; for other lists, that nothing is lost, and that an error means a repeated UDID.
- `SriovPlacement`: redundant ports, the check of the maximum capacity, fetching of systems and servers; rounding of capacities.
- `SessionRelogin`: a step system instead of a class, because the fields are shared by threads; tokens are numbered by the logons that return them, so that a new one is never an old one. Connection errors and the first logon.
- `marshal` and `unmarshal` of allowed VLAN and MAC lists, wrappers, jobs, vterm, power and file uploads.
