# GeoDNS in Dafny

A model of the core of the GeoDNS server and proofs about it. GeoDNS answers a DNS query in
four stages: it loads zones, expands the query name into candidate labels for the client's
targets, picks records from a label, and classifies the reply. Around this run two state
machines, the zone reload and the health tests.

Code that changes things step by step is modelled by methods, loops, arrays and classes, each
proved against a specification function or property; the theorems are about those. `dafny verify
dfyconfig.toml` checks everything.

| modules | what they are about | main results |
|---|---|---|
| `WeightedDraw`, `Closest`, `Picker`, `PickerTheorems` | `Picker`: health filter, closest servers, weighted draw | `ChosenBetween`, `DrawIsProportional`, `PickReturnsExactly`, `PickHowMany`, `PickSucceedsIff`, `ZeroWeightIsLastResort`, `ManyCnamesIff` |
| `Lookup`, `AliasTermination`, `Derivations` | `FindLabels` | `TerminatesIff`, `LookupDepthBound`, `CrashesFirstIff`, `FindListsDerivations`, `FoundIffDerivable` |
| `ZoneData`, `Zones`, `ZoneTheorems`, `ZoneOrder` | `setupZoneData` | `SetupZoneData`, `ZoneNames`, `ZoneIsLoaded`, `RecordsLoaded`, `OrderIrrelevantIff` |
| `Status`, `HealthSetup`, `Locations`, `Reload`, `Mux` | `MuxManager` and the zones it installs | `NameIsRightIff`, `ReloadRefinesReparse`, `CurrentFilesAreServed`, `ReloadZones`, `Run` |
| `HealthProtocol`, `HealthLiveness`, `HealthRunner` | health tests and their runner | `PollProtocol`, `HealthIsVerdict`, `PollsNotEarly`, `PollIsDue`, `StopFinishes`, `StoppedAtMostOnce`, `RemoveTest` |
| `LabelStats` | query statistics | `TopCounts` |
| `Serve`, `ServeTheorems` | `serve` | `ServeQuery`, `LeastDerivationAnswers`, `NameErrorIff`, `PanicsIff`, `ZoneNamesResolve`, `AnsweredIff` |
| `EndToEnd` | from files to answers | `Watch`, `CurrentFileIsBuilt`, `ListedZoneAnswers` |
| `DayDuration` | printing of durations | `DayString`, `RoundTrip` |

`Common`, `ZoneModel`, `Names`, `Decimal` and `Sorting` hold what these share.

## How the program's world appears in the model

- Random numbers are an oracle: `rand(k)` is the k-th number drawn, and every sequence of values
  `rand.Intn` can return is produced by some oracle. A claim for all oracles holds for every run.
- Go's map order is a parameter (`types`, `order`), an arbitrary choice from a set, or the order of
  a configuration list, and the theorems hold for every one.
- A Go panic is the outcome `Panic` (`Crash` in a lookup, `ok == false` while loading a zone).
  Where a property fails because of one, a lemma gives the exact condition.
- Distances are reals in [0, 360], and the 5% margin is the exact 21/20.
- The health of a server is a fixed function during one pick.
- `FindLabels` has no guard against alias loops. The model bounds its recursion by `depth` and calls a
  lookup that hits the bound `Starved`; `TerminatesIff` says when some bound is enough, and
  `DepthIrrelevant` that the bound then does not matter.
- A health test is an interleaving of three goroutines; sending on an unbuffered channel and
  receiving from it are one step. Calls of `Stop` come from the runner, under its mutex. For the
  runner, poll results come in between its calls, and a log of starts, results and stops says what
  the health of each instance must be.
- Reload sees snapshots of a directory, in which several files may stand for one zone. JSON decoding,
  hashing and the geo provider are parameters, and hashes are taken to tell contents apart; a file that
  can be decoded is loaded by the zone code of this model. The default serial number, which is the
  file's mtime, is kept apart from the rest of a parsed zone.
- The record lists that queries share are arrays; no query may change them.
- A nil result of `Picker` and an empty one are the same value; `serve` treats them alike.
- Names are lower-cased in ASCII only, and sums do not overflow.

## Where the code differs from what one might expect

- A tested label can answer with several CNAMEs, against section 10.1 of RFC 2181
  (`TwoCnames`); `ManyCnamesIff` says exactly when.
- Negative weights can make a draw panic (`NegativeWeightPanics`). A list whose weights do not add up
  to more than 0 is not even sorted (`FileOrderKept`, `UnsortedListPanics`). `PickSucceedsIff` says
  exactly when a pick succeeds, in any order, and `SortedPickSucceedsIff` puts it more simply for
  sorted lists.
- A label that is its own alias makes a lookup endless (`SelfAliasLoops`, `TerminatesIff`).
- "No such name" depends on the type asked for when a name exists only under a target
  (`TypeDecidesNameError`, `EuropeHasAddresses`); `NameErrorIff` gives the condition, and
  `NameErrorWithoutAliases` gives it in terms of the labels.
- An ANY query stores the label of the name asked for, not of the name found, and there may be none
  (`AnyWithoutLabel`). `PanicsIff` says exactly when that makes the answer panic, and
  `PanicsWithoutAliasesIff` says it in terms of labels, targets and health.
- Two configured names that differ only in case overwrite each other in map order
  (`CaseDecidesByOrder`). `OrderIrrelevantIff` says exactly when the order does not matter.
- An edit that keeps a file's mtime is missed (`SameMtimeIsMissed`), and so is a file that could not be
  read when it was first seen (`UnreadableIsMissed`). `StaysRightIff` and `NameIsRightIff` say exactly
  when a zone is right, whatever was missed before. It is right if the file that should be served is
  newer than every earlier one of other content (`NewerIsServed`), which the theorems about all
  histories ask for where they say that the current file is served.
- On a tested label, a record without a test of its own gets its address as test. That is no name of a
  check, so no source ever reports it healthy and the record is never returned (`BareNameIsUnhealthy`,
  `OnlyOwnTestsPass`).
- A touched file keeps its old default serial number (`TouchKeepsSerial`); `SerialIsCurrentIff` says
  exactly when the number is the file's mtime, after any history.

## Model

| member | source | states |
|---|---|---|
| `WeightedDraw.SelectIsFirst` | zones/picker.go:160-172 | the scan of a draw stops at the least position whose running weight reaches the random number |
| `WeightedDraw.SelectTotal` | zones/picker.go:159-172 | no number in [0, sum] misses, whatever the signs of the weights |
| `WeightedDraw.SelectInterval` | zones/picker.go:159-172 | the numbers that select a position form one interval, bounded by the running totals before and after it |
| `WeightedDraw.DrawIsProportional` | zones/picker.go:158-172 | exactly w numbers of [0, sum] select a position of weight w, and one more for the first position |
| `WeightedDraw.DrawTakesDistinctPositions` | zones/picker.go:158-173 | a completed draw returns as many records as wanted, from distinct positions |
| `WeightedDraw.DrawSucceedsIff` | zones/picker.go:158-173 | for weights of any sign in any order: the loop completes for every sequence of numbers if and only if no draws that are possible leave a negative total before the last |
| `WeightedDraw.SelectsIff` | zones/picker.go:159-172 | a number draws a position if and only if it is above all running totals before it and at most its own |
| `WeightedDraw.SortedSurvivesIff` | zones/picker.go:158-173 | on a list in descending order that is if and only if no suffix that starts before the last draw has a negative total |
| `WeightedDraw.ZeroWeightComesLast` | zones/picker.go:158-173 | when a weightless record is drawn, all copies of every positive record have been drawn before it |
| `Closest.ClosestSelection` | zones/picker.go:110-156 | at least max servers are chosen; one left out has max or more strictly closer ones; a chosen one has fewer than max that are closer by more than 5% |
| `Closest.ChosenBetween` | zones/picker.go:110-156 | the chosen set lies between the servers up to the max-th distance and those within 5% of it |
| `Closest.MarginIsChosen` | zones/picker.go:126-142 | every server within 5% of the nearest one is chosen, however few are wanted |
| `Closest.KthDistanceExists` | zones/picker.go:110-156 | that max-th distance exists for every max from 1 to the number of servers |
| `Closest.NearestUnchosen` | zones/picker.go:126-132 | finds the least distance among the servers not chosen |
| `Closest.ChoosePass` | zones/picker.go:133-142 | after a pass exactly the servers within the margin are chosen, and they are counted right |
| `Closest.ChooseClosest` | zones/picker.go:122-143 | the loops end and choose exactly the servers within the final threshold |
| `Picker.FilterHealth` | zones/picker.go:27-39 | the compaction in place equals the filter, and the sum is the total of what is left |
| `Picker.KeepChosen` | zones/picker.go:145-155 | the same for the chosen servers |
| `Picker.FilterKeepsDescending` | zones/picker.go:27-39 | the descending order survives filtering |
| `Picker.CandidatesEnough` | zones/picker.go:99-156 | closest selection leaves at least as many servers as are wanted |
| `Picker.Scan` | zones/picker.go:160-172 | the inner loop computes the selected position |
| `Picker.DrawServers` | zones/picker.go:158-175 | the draw loop, which removes from the list in place and keeps a running sum, is the draw without replacement |
| `Picker.PickType` | zones/picker.go:63-175 | the whole of `Picker` for one type equals its specification; the label's shared list, an array, is left as it is |
| `Picker.Picker` | zones/picker.go:45-175 | the same for every type; ANY concatenates the types in the order met; no shared list changes |
| `PickerTheorems.PickReturnsExactly` | zones/picker.go:63-175 | on a loaded label, for every draw sequence: no panic, exactly the number wanted, from distinct positions of the label's list, all healthy on a tested label |
| `PickerTheorems.PickHowMany` | zones/picker.go:75-103 | how many, written out: all healthy servers if the stored weight or theirs is 0; else one for CNAME and MF; else the given number, or as many as there are |
| `PickerTheorems.PickAllReturns` | zones/picker.go:47-61 | an ANY query on a loaded label does not panic; it returns as many records as queries for the single types do, from distinct positions of their lists, all healthy on a tested label |
| `PickerTheorems.PickSucceedsIff` | zones/picker.go:63-175 | for weights of any sign in any order and any max: it returns for every draw sequence if and only if all servers are returned, or the number wanted is not negative and no possible draws leave a negative total before the last |
| `PickerTheorems.SortedPickSucceedsIff` | zones/picker.go:63-175 | where loading has sorted the list, the suffix totals of the candidates decide |
| `PickerTheorems.NegativeWeightPanics` | zones/picker.go:159 | a label of weights 3 and -1 panics for some draw sequence |
| `PickerTheorems.UnsortedListPanics` | zones/picker.go:75-173 | weights -5, -1 and 3 with the first server down: every draw sequence panics, although no suffix total is negative |
| `PickerTheorems.ZeroWeightIsLastResort` | zones/picker.go:145-173 | a weightless record is returned only after all positive candidates |
| `PickerTheorems.ReturnedServersAreClose` | zones/picker.go:105-173 | with a located client and more addresses than wanted, a returned one has fewer servers closer by more than 5% than the number wanted; servers of unknown place are 360 away |
| `PickerTheorems.MayComeFirst` | zones/picker.go:105-173 | nothing else is held back: every healthy server of positive weight comes first for some draw, unless the client is located, addresses are asked for and enough servers are closer |
| `PickerTheorems.ManyCnamesIff` | zones/picker.go:75-97 | more than one CNAME is returned if and only if the label is tested and its healthy CNAMEs are several and weightless |
| `PickerTheorems.TwoCnames` | zones/picker.go:75-83 | the case exists |
| `Lookup.FindLabels` | zones/zone.go:220-276 | the loops compute the recursive specification, crashes included |
| `Lookup.FindRound` | zones/zone.go:241-264 | one round of the inner loop |
| `Lookup.AliasIsFollowed` | zones/zone.go:249-255 | the loops over a label whose only records are an alias, and that exists for no other target, find what a lookup of what it stands for finds |
| `AliasTermination.LookupDepthBound` | zones/zone.go:220-276 | without a reachable alias loop, one nested call more than there are alias target names is enough |
| `AliasTermination.DepthIrrelevant` | zones/zone.go:220-276 | every larger bound gives the same matches |
| `AliasTermination.MatchesIff` | zones/zone.go:220-276 | a lookup returns matches if and only if neither an alias loop nor an empty alias list is reachable |
| `AliasTermination.LoopNeverMatches` | zones/zone.go:249-255 | with a reachable loop no lookup returns matches, however deep |
| `AliasTermination.CrashesFirstIff` | zones/zone.go:220-276 | some depth crashes if and only if an empty alias list is reached with everything before it in order |
| `AliasTermination.TerminatesIff` | zones/zone.go:220-276 | for every zone: a lookup ends if and only if it returns matches or crashes by those conditions; with no empty alias list in reach, if and only if no loop is |
| `AliasTermination.CrashesIff` | zones/zone.go:131-133 | a lookup that ends crashes if and only if an alias list without records is reachable |
| `AliasTermination.SelfAliasLoops` | zones/zone.go:251-252 | a label that is its own alias |
| `Derivations.FoundNothing` | zones/zone.go:267-273 | no match at all if and only if the name is no label and nothing is in reach of it |
| `Derivations.FindListsDerivations` | zones/zone.go:220-276 | the result lists all derivations, each once, targets first, types second, aliases depth first |
| `Derivations.FoundIffDerivable` | zones/zone.go:220-276 | a match is returned if and only if it is derivable |
| `Derivations.DerivesUnique` | zones/zone.go:220-276 | a sequence of rounds derives one match |
| `Derivations.PlainRound` | zones/zone.go:224-262 | a round for a type other than ANY and MF derives a match for a label if and only if the label has records of the type and is the name asked for under "@", the target at the apex, and otherwise name, dot and target |
| `Derivations.AliasRound` | zones/zone.go:224-255 | a round for MF on that label derives exactly what its alias target derives |
| `Derivations.AnyRound` | zones/zone.go:224-247 | a round for ANY derives the label of the name asked for, whatever target led to it |
| `Derivations.ExistingNameMatches` | zones/zone.go:267-273 | an existing name always has a match |
| `Sorting.SortDescending` | zones/zone.go:49-51 | descending, and a permutation |
| `ZoneData.DraftList` | zones/reader.go:232-492 | the weight is the sum, the records are all there, sorted if they have weight; it crashes exactly when it would sort a nil record |
| `ZoneData.DraftLabel` | zones/reader.go:169-493 | the same for all types of a label in any order, with the label's options or the zone's |
| `ZoneData.FinishLabel` | zones/reader.go:509-539 | every record of an A, AAAA or CNAME list without weight gets weight 1, and every record without a TTL a default one, whatever the order of the types |
| `ZoneData.FinishedIsLoaded` | zones/reader.go:483-539 | with non-negative weights: stored weights are sums, lists are in descending order, and A, AAAA and CNAME lists have positive weight |
| `ZoneData.FinishedWeight` | zones/reader.go:513-524 | with weights of any sign: the stored weight is the sum |
| `ZoneData.FileOrderKept` | zones/reader.go:490-492 | a list whose weights do not add up to more than 0 keeps the order of the file |
| `Zones.Zone.constructor` | zones/zone.go:90-103 | a new zone has no labels and the default options |
| `Zones.Zone.AddLabel` | zones/zone.go:135-148 | an empty label with the zone's options under the lower-cased name |
| `Zones.Zone.AddSOA` | zones/zone.go:158-203 | the apex gets exactly one SOA; it fails exactly when the SOA text is invalid or the NS list is empty |
| `Zones.Zone.DraftLabels` | zones/reader.go:155-494 | the first pass yields what was configured last for each lower-cased name |
| `Zones.Zone.AddParents` | zones/reader.go:499-507 | all dot suffixes of a label exist afterwards, the added ones are empty, nothing else changes |
| `Zones.Zone.FinishLabels` | zones/reader.go:496-540 | the loop over the growing map ends, and gives the same zone whether or not the inserted labels are visited |
| `Zones.Zone.SetupZoneData` | zones/reader.go:155-544 | loading succeeds if and only if no sort meets a nil record, none is left, the NS list is not empty and the SOA is valid; the zone is then the configured one |
| `Zones.AllTailsAdded` | zones/reader.go:500-506 | joining the parts of a name from the second on reaches every dot suffix |
| `ZoneTheorems.ZoneNames` | zones/reader.go:496-507 | the labels are exactly the configured names, their dot suffixes and the apex |
| `ZoneTheorems.ZoneContents` | zones/reader.go:155-544 | a configured label is never overwritten, and an added one is empty |
| `ZoneTheorems.RecordTypes` | zones/reader.go:155-544 | a loaded label has exactly the configured types, and the apex an SOA besides |
| `ZoneTheorems.RecordsLoaded` | zones/reader.go:509-539 | every list of a loaded zone is its configured list in some order, each record with its own data; its TTL is the configured one, else the label's, else a day for NS and the zone's for others, modulo 2^32; its weight is 1 in an A, AAAA or CNAME list without weight |
| `ZoneTheorems.ApexHasSoa` | zones/zone.go:150-203 | the apex of a loaded zone holds one SOA, so `SoaRR` is defined |
| `ZoneTheorems.ZoneIsLoaded` | zones/reader.go:483-544 | every label of a zone with non-negative weights is fit for the picker |
| `ZoneTheorems.ZoneWeights` | zones/reader.go:483-540 | with weights of any sign: stored weights are sums, and never zero on non-empty A, AAAA and CNAME lists |
| `ZoneOrder.BuiltZoneExists` | zones/reader.go:155-544 | every loadable configuration has a zone that meets all of this |
| `ZoneOrder.SameLabelIff` | zones/reader.go:490-539 | two configurations of a name come to the same label if and only if their options agree and each type comes to the same records |
| `ZoneOrder.OrderIrrelevantIff` | zones/reader.go:155-544 | a name comes out the same in every order of the configuration that loads if and only if all its entries that can end up last come to the same label; the SOA included where NS records have no weights |
| `ZoneOrder.SoaFollows` | zones/zone.go:158-203 | the SOA follows from the apex's configuration, if NS records have no weights |
| `ZoneOrder.SoaWritten` | zones/zone.go:158-203 | the SOA record written out: first NS record or "ns", contact, serial, and ten times the zone's TTL up to an hour or ten minutes if that is 0 |
| `Decimal.ItoaReads` | zones/zone.go:185 | the serial number is written as digits that read back as it, after a minus sign if it is negative |
| `ZoneOrder.OrderMatters` | zones/reader.go:169-174 | otherwise two orders give two zones that differ |
| `ZoneOrder.DistinctNamesAgree` | zones/reader.go:155-544 | without case collisions the order never matters |
| `ZoneOrder.CaseDecidesByOrder` | zones/reader.go:169-174 | two loaded zones of one configuration in two orders: "foo" has an address in one and none in the other |
| `Names.TailIffSuffix` | zones/reader.go:500-504 | the parts of a name from the second or a later one on form exactly its dot suffixes |
| `Names.LowerByCode` | server/serve.go:24 | lower-casing adds 32 to the codes from 65 to 90 and keeps all other characters |
| `Reload.LastDotOfZoneFile` | zones/muxmanager.go:83-89 | the last dot of a zone file's name starts its suffix, in any case |
| `Reload.OneFileIsServed` | zones/muxmanager.go:81-144 | a first reload of a directory with one file that ends in ".json" in any case, does not start with a dot and parses lists exactly that zone besides the built-in one, with its serial or else the mtime |
| `Reload.OtherEntriesAreIgnored` | zones/muxmanager.go:83-87 | directories, files that start with a dot and files of another suffix change nothing |
| `Reload.NothingToServe` | zones/muxmanager.go:71-155 | a directory of such entries leaves the built-in zone alone, and one that cannot be read changes nothing |
| `Reload.ReloadProjects` | zones/muxmanager.go:71-159 | a reload treats every zone name on its own, and the files that stand for it one after the other |
| `Reload.ReloadRefinesReparse` | zones/muxmanager.go:71-159 | after any history of snapshots a zone is absent if re-parsing every file each time would leave none; otherwise it is the parse of the content that would be served, provided the file that should be served is newer than every earlier one of other content |
| `Reload.NameIsRightIff` | zones/muxmanager.go:71-159 | after any history, whatever the mtimes: a zone is the one that should be served if and only if its file, when last seen, was not both no newer than the read record and different from the zone then served |
| `Reload.ServedWasSeen` | zones/muxmanager.go:71-159 | whatever the mtimes, a served zone is the parse of some file seen under its name, with that file's mtime as default serial |
| `Reload.CurrentFilesAreServed` | zones/muxmanager.go:71-159 | after any history: without a file there is no zone; if no file parses it is as it was; otherwise it is the parse of the last file that parses, provided that file is newer than every earlier one of other content |
| `Reload.StaysRightIff` | zones/muxmanager.go:93-142 | after any history: a look at a file that parses leaves its zone right if and only if it is not the case that the file is no newer than the read record and the zone served is not its parse |
| `Reload.NewerIsServed` | zones/muxmanager.go:93-142 | a file that is newer than every earlier one of other content is served once it is seen |
| `Reload.BuiltinStays` | zones/muxmanager.go:146-155 | the built-in zone is never dropped |
| `Reload.SerialIsCurrentIff` | zones/muxmanager.go:126-142 | after any history: a newer file is served with its mtime as default serial if and only if its hash is not the one on record or the number is the same already |
| `Reload.TouchKeepsSerial` | zones/muxmanager.go:126-130 | a touched file keeps the default serial of its first load |
| `Reload.SameMtimeIsMissed` | zones/muxmanager.go:93 | an edit that keeps the mtime is not seen |
| `Reload.UnreadableIsMissed` | zones/muxmanager.go:93-138 | nor is a file that was unreadable when first seen, under the same mtime |
| `HealthSetup.SetupHealthTests` | zones/zone.go:338-367 | every record without a test on a tested label gets its address or mail host as test, in any order |
| `HealthSetup.TestsWritten` | zones/zone.go:338-367 | record by record: an address without a test gets its address, a mail record its host; records with a test, other types and labels without a test stay as they are |
| `HealthSetup.AddressesAreTested` | zones/zone.go:338-367 | the health filter then keeps exactly the records whose own test, or else address, is healthy |
| `HealthSetup.OnlyOwnTestsPass` | zones/zone.go:338-367 | with the status lookup: on a tested label exactly the records with a test of their own that passes are kept; a record that got its address as test never is |
| `Status.StatusOfCheck` | health/status.go:64-79 | a name of source, slash and check finds that check of that source |
| `Status.BareNameIsUnhealthy` | health/status.go:65-68 | a name without a slash is never healthy |
| `Locations.SetLocations` | zones/zone.go:281-314 | the addresses of "closest" labels get the location the geo provider gives, if any; nothing else changes |
| `Locations.DistanceIsGeo` | zones/zone.go:281-314 | the distance such a label's servers are compared by is the one to that location, and the maximal one where there is none |
| `Locations.OnlyPlacesChange` | zones/zone.go:281-314 | no record changes in anything but its place, and only A and AAAA lists of "closest" labels do |
| `Locations.LocationsKeepLoaded` | zones/zone.go:281-314 | weights and their order stay as loading left them |
| `HealthSetup.SetupIdempotent` | zones/zone.go:338-367 | setting the tests up again changes nothing |
| `HealthSetup.TestsKeepLoaded` | zones/zone.go:338-367 | weights and their order stay as loading left them |
| `Mux.SetupMetrics` | zones/zone.go:105-118 | a successor takes over its predecessor's statistics; otherwise they are new, and two |
| `Mux.LiveZone.Close` | zones/zone.go:120-129 | both statistics are closed, nothing else is touched |
| `Mux.ReadZoneFile` | zones/reader.go:24-153 | a zone built from the file's configuration and options, with its serial or else the mtime and with server locations set; nothing if and only if the file cannot be read, decoded or built |
| `Mux.MuxManager.constructor` | zones/muxmanager.go:39-53 | the built-in zone, then a first reload; all statistics are new |
| `Mux.MuxManager.SetupPgeodnsZone` | zones/muxmanager.go:175-184 | lists and registers the built-in zone |
| `Mux.MuxManager.AddHandler` | zones/muxmanager.go:161-167 | sets up the health tests and installs the zone in list and registry; every name keeps its statistics |
| `Mux.MuxManager.RemoveHandler` | zones/muxmanager.go:169-173 | removes a zone from list, registry and read records |
| `Mux.MuxManager.ReadEntry` | zones/muxmanager.go:81-144 | one directory entry, with its mtime and hash checks |
| `Mux.MuxManager.RemoveUnseen` | zones/muxmanager.go:146-155 | exactly the zones without a file are closed and removed; the statistics of the others stay open |
| `Mux.MuxManager.ReloadZones` | zones/muxmanager.go:71-159 | a reload does what its specification says; list and handlers agree, every listed zone is the one built from its file, statistics are open, of full size and unshared, names keep them, and removed zones are closed |
| `Mux.MuxManager.Run` | zones/muxmanager.go:55-63 | over any sequence of snapshots: the specified zones, list, handlers and statistics in agreement; a zone listed at the start still has its statistics or has had them closed |
| `HealthProtocol.Clamp` | health/healthtest/healthtest.go:70-89 | each duration is kept, or is a second if it was less |
| `HealthProtocol.PollProtocol` | health/healthtest/healthtest.go:119-195 | in every state of every interleaving: at most one poll, in flight exactly while `pollStart` is set; a poll finds its channel open; a close is accepted only without a poll; no panic |
| `HealthProtocol.StopNotStuck` | health/healthtest/healthtest.go:119-195 | a pending `Stop` always has a step that brings it closer to its end |
| `HealthProtocol.StopCanFinish` | health/healthtest/healthtest.go:181-195 | from every safe state a pending `Stop` can finish within 11 steps, and the run loop has then exited |
| `HealthLiveness.StopFinishes` | health/healthtest/healthtest.go:119-195 | in every infinite run in which the program goes on as long as it can and the select is fair, every `Stop` comes to its end |
| `HealthProtocol.HealthIsVerdict` | health/healthtest/healthtest.go:145-158 | in every state the test is down after enough failures in a row, else up if there was a success, else as it was started |
| `HealthProtocol.HealthWritten` | health/healthtest/healthtest.go:145-158 | written out: up if and only if the last results are not all failures, as many as the retries and at least one, and there was a success or it started up |
| `HealthProtocol.PollsOneSecondApart` | health/healthtest/healthtest.go:70-164 | polls start at least the lesser of frequency and retry time apart, and at least a second |
| `HealthProtocol.PollsNotEarly` | health/healthtest/healthtest.go:142-161 | in every interleaving a poll starts no earlier after the one before than the frequency, or the retry time once the last results are failures, as many as the retries |
| `HealthProtocol.PollIsDue` | health/healthtest/healthtest.go:119-161 | a waiting run loop can start the next poll if and only if that time has come |
| `HealthProtocol.FirstPollSpread` | health/healthtest/healthtest.go:119-135 | the first poll is due within the frequency of the start, or within the retry time if the test starts down |
| `HealthRunner.HealthTest.constructor` | health/healthtest/healthtest.go:70-89 | the durations are clamped and the health is the initial one |
| `HealthRunner.SameKeyIff` | health/healthtest/healthtest.go:92-98 | two tests have one key if and only if they agree in scope, parameters and tester and, unless global, in address |
| `HealthRunner.HealthTestRunner.AddTest` | health/healthtest/healthtest.go:221-243 | adds a reference; starts an instance, with the health of the test added, exactly when there was none; instances are kept |
| `HealthRunner.AddTwo` | health/healthtest/healthtest.go:221-243 | two tests added to an empty runner make two instances if and only if they are not one test in that sense |
| `HealthRunner.HealthTestRunner.RemoveTest` | health/healthtest/healthtest.go:245-261 | drops a reference; stops the instance exactly when it was the last; hands back the verdict on all results of the instance |
| `HealthRunner.HealthTestRunner.RefAllGlobalHealthChecks` | health/healthtest/healthtest.go:263-280 | the same for all global tests in any order |
| `HealthRunner.UserIff` | health/healthtest/healthtest.go:221-280 | after any history of operations a reference uses a test if and only if some operation added it and none after that removed it |
| `HealthRunner.HealthTestRunner.TakeResult` | health/healthtest/healthtest.go:145-158 | a poll result between two calls of the runner changes the failure count and health of its own instance only |
| `HealthRunner.PollIsRunLoop` | health/healthtest/healthtest.go:145-158 | that is what the run loop of the protocol does to its own counter and health |
| `HealthRunner.OneInstancePerKey` | health/healthtest/healthtest.go:221-280 | never two instances for a key, nor two keys for an instance |
| `HealthRunner.StoppedAtMostOnce` | health/healthtest/healthtest.go:245-261 | no instance is stopped twice |
| `LabelStats.ZoneLabelStats.constructor` | zones/zone_stats.go:29-34 | an empty ring of the given size |
| `LabelStats.ZoneLabelStats.Reset` | zones/zone_stats.go:40-46 | forgets everything and keeps the size |
| `LabelStats.ZoneLabelStats.Add` | zones/zone_stats.go:52-62 | the ring holds the most recent labels, across the wrap-around |
| `LabelStats.ZoneLabelStats.Counts` | zones/zone_stats.go:83-95 | exactly the occurrences of the most recent labels |
| `LabelStats.ZoneLabelStats.TopCounts` | zones/zone_stats.go:64-81 | the total is conserved, the first n entries are true counts in descending order, and no label folded into "Others" outnumbers one of them |
| `LabelStats.FoldOthers` | zones/zone_stats.go:73-79 | the entries from the n-th on become one with their sum |
| `Serve.MatchLoop` | server/serve.go:247-276 | the answer is the renamed pick of the first match that yields records; the location is dropped at the first label that is not "closest" and stays dropped |
| `Serve.ServeQuery` | server/serve.go:161-281 | the answer as above or the debug record; one SOA in the authority section if and only if the answer is empty; "no such name" if and only if there is no match and no permitted debug name |
| `ServeTheorems.AnswerWritten` | server/serve.go:255-264 | what a match answers: healthy records of its label and type under the name asked for, as many as the label's own max_hosts allows |
| `ServeTheorems.LocationCounts` | server/serve.go:247-255 | the client's location counts while all labels met so far are "closest", and not after |
| `ServeTheorems.DebugWritten` | server/serve.go:163-245 | by the first label: "_country" for everybody, "_status" and "_health" for clients that may debug, each one TXT record of TTL 1; every other name without a match is "no such name" |
| `ServeTheorems.QuestionName` | server/serve.go:21-25 | taking the zone off a query name gives the lower-cased name below it |
| `ServeTheorems.MatchIsGood` | server/serve.go:247-255 | every match names an existing label with records of its type, except the "exists" match and ANY |
| `ServeTheorems.PanicsIff` | server/serve.go:247-255 | on a servable zone answering panics if and only if an ANY match without a label is derived, and no lesser derivation yields a record by the labels' lists and the health of servers |
| `ServeTheorems.PanicsWithoutAliasesIff` | server/serve.go:247-255 | without aliases: if and only if ANY is asked for a name that is no label, and the first target for which it exists has no CNAME that passes its health test |
| `ServeTheorems.YieldsIff` | server/serve.go:255-264 | whether a match yields records does not depend on location, random numbers or the order of types |
| `ServeTheorems.NoPanicUnlessAny` | server/serve.go:247-276 | so no other query panics |
| `ServeTheorems.LeastDerivationAnswers` | server/serve.go:247-276 | the answer is the pick for the least derivation that yields any record |
| `ServeTheorems.FirstMatchAnswers` | server/serve.go:247-276 | if some record of the first match passes its test and the label allows a host, the first match answers |
| `ServeTheorems.FirstMatchIs` | server/serve.go:161 | without aliases the first match is for the first target whose name has a CNAME or records of the type asked for, and the CNAME goes first |
| `ServeTheorems.AliasAnswersAsTarget` | server/serve.go:161 | a label whose only records are an alias, and that exists for no other target of the client, answers every type but ANY and MF as what it stands for does, if a lookup of that finds anything |
| `ServeTheorems.NameErrorIff` | server/serve.go:163-245 | "no such name" if and only if the name is no label, nothing is in reach of it and it is no debug name |
| `ServeTheorems.NameErrorWithoutAliases` | server/serve.go:163-245 | the same without aliases, in terms of the labels and the client's targets |
| `ServeTheorems.ZoneNamesResolve` | server/serve.go:163-245 | a configured name, a name above one and the apex never get "no such name", in any case of letters |
| `ServeTheorems.TypeDecidesNameError` | server/serve.go:163-245 | a name with addresses for a target only: asked for A there is an answer, asked for AAAA "no such name" |
| `ServeTheorems.EuropeHasAddresses` | server/serve.go:163-245 | a zone file with such a name, which loads |
| `ServeTheorems.AnyWithoutLabel` | zones/zone.go:242-247 | in a loaded zone an ANY match without a label occurs, and the answer panics |
| `ServeTheorems.BuiltZoneIsServable` | zones/reader.go:155-544 | a zone loaded from a configuration without negative numbers is servable |
| `ServeTheorems.AnsweredIff` | server/serve.go:161-281 | on a servable zone with aliases in order a query gets a reply if and only if no ANY match without a label comes first; every other type always gets one |
| `ServeTheorems.EveryQueryIsAnswered` | server/serve.go:161-281 | the same for a zone loaded from a configuration without negative numbers |
| `EndToEnd.ListedZoneIsServable` | zones/muxmanager.go:161-167 | every zone a manager lists is servable, health tests set up, if its file has no negative numbers |
| `EndToEnd.FileOptionsApply` | zones/reader.go:69-88 | in a zone built from a file, a label has its own max_hosts and "closest"; without them the file's, or 2 and false |
| `EndToEnd.FileTtlApplies` | zones/reader.go:69-71 | a record without a TTL of its own or its label's has the file's, or 120 |
| `EndToEnd.FileSoa` | zones/reader.go:69-76 | its SOA carries the contact, the serial number and the TTL of the file |
| `EndToEnd.BuiltinWritten` | zones/muxmanager.go:175-184 | the built-in zone has one label with one record, an SOA with all defaults |
| `EndToEnd.ListedZoneAnswers` | server/serve.go:161-281 | so its queries get replies, with the same exact condition |
| `EndToEnd.CurrentFileIsBuilt` | zones/muxmanager.go:71-159 | a manager that has seen any history lists a name whose file parses and is newer than every earlier one of other content, with the labels built from that file |
| `EndToEnd.Watch` | zones/muxmanager.go:39-63 | a manager made over a first snapshot and run over others is in the state of the whole history, and in the end lists for every name the zone of the file that should be served |
| `DayDuration.FmtInt` | dayduration.go:14-27 | the digits are written right to left before the end given; everything before and after them is untouched |
| `DayDuration.DayString` | dayduration.go:31-95 | never outside the 32-byte buffer, for every int64; the text is the specified one |
| `DayDuration.RoundTrip` | dayduration.go:31-95 | reading the text back gives the sign and the whole seconds, with hours below 24 and minutes and seconds below 60 |

## Left out

- JSON decoding, type switches and the building of resource records in zones/reader.go: the model starts from decoded labels.
- Targeting, GeoIP and distances: a client is its target list and a distance to each server location.
- EDNS options, packet sizes, query logging, metrics and message packing in `serve`, and its parseIP branch.
- `findFirstLabel`, and `HasClosest` as a flag: without a "closest" label there is nothing for `SetLocations` to do.
- The status file registry, the HTTP server, the configuration watcher, individual testers and the command-line tools.
- Decoding of health test parameters in `NewFromMap`, and the results per address of a global test.
- Sharing of labels by reference: labels are values in maps; only the record lists that queries read are arrays.
- The slice `result` that `Picker` fills by index is a growing sequence.
- Sorting is an insertion sort; only descending order and permutation are used of it.
- Overlapping `Stop` calls on one test: the runner's mutex excludes them.
- A zone file named pgeodns.json: the reload theorems exclude that name.
- The error value `reload` returns, and files that change between hashing and parsing.
- The order in which Go ranges over a zone file's labels is fixed by decoding in `Mux`; `OrderIrrelevantIff` says when that matters.
- ServeQuery: asks for an apex SOA and stored weights that are sums; every loaded zone has both (`ApexHasSoa`, `ZoneWeights`).
- OrderIrrelevantIff: takes the SOA in only where NS records have no weights, as is the case for every zone file.
- StopFinishes: asks that every test of a server returns.
- LabelStats.ZoneLabelStats.TopCounts: takes a natural number; a negative one panics in the code.
