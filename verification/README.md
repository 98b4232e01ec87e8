# Smart Commissioning verification

Dafny models of the algorithms in the Smart Commissioning repository, with proofs of what they promise. One module per
component; `dafny verify dfyconfig.toml` checks all of them.

| module | component |
|---|---|
| StreamCommitment | hash chain over committed discovery observations |
| PublicFields | viewer-safe leaves, nested values and exact-field tables |
| RecordContract, IpContract, PayloadContract | the same contract written out field by field, and that the normalisers enforce exactly it |
| IpEvidence, IpReading | the IP payload and provenance models: normal form, evidence check, and when a stored one passes again |
| PayloadNormaliser | viewer-safe payload contract, its idempotence and its digest |
| EscapedTexts, PayloadReading | when a stored payload passes the view model again |
| ObservationFold | fold of versioned observations into terminal collections and evidence |
| FoldMeaning | what a fold holds and when it succeeds, told from the observations alone |
| SigningKeyProtocol | publish-once signing key, as interleaved steps of many processes with crashes |
| MqttFraming | MQTT packet framing over a socket that fragments |
| HeartbeatMonitor | two-phase lease and heartbeat acceptance of the portable build |
| HeartbeatContract | the two phases row by row, and that the monitor accepts exactly what they describe |
| MarkerSearch | chunked search for forbidden markers with a bounded overlap |
| MarkerMeaning | what the shipped search finds, byte by byte |
| DependencyWalk | breadth-first dependency closure of the SBOM |
| DependencyMeaning | what names and components are, told from the requirement lines |
| CaptureLoop | MQTT evidence capture: receive loop, queue, writer thread, markers |
| CaptureMeaning | the same capture event by event, and how its ending is recorded |
| ConfigPublish | gated configuration publish, confirmation and rollback |
| PublishMeaning | what a publish asks, sends, expects and reports, parameter by parameter |
| ArchiveScanner | nested archive scan for secrets |
| ScanMeaning | what the scan reports, where, and which errors get out |
| ExecutionContext | scan-authority bindings and layered parameter resolution |
| ContextMeaning | where each resolved parameter comes from |
| ChecksumFile, ReleaseEvidence | release evidence: the writer, the strict checker, and their agreement |
| ReleaseMeaning | what strict acceptance demands, field by field |
| Values, Bytes, Sorting, Wrappers | Python values and JSON escaping, byte strings and hexadecimal text, stable sorting, results |

How the source is rendered:

- The modules named Contract and Meaning state each operation's result a second time, in terms of the raw inputs, with
  every name, limit and default in place, and prove the model equal to that.
- Loops that change local variables, and objects that change fields, are methods and classes; each is tied to a function
  of its inputs, and the lemmas are about that function.
- SHA-256 is any function into 32-byte digests. Binding theorems end in "equal, or here are two different byte strings
  with one digest"; no injectivity is assumed. Canonical JSON, the regular expressions, JSON parsing and printing, the
  archive and key libraries are function parameters.
- Concurrency is a state machine (SigningKeyProtocol) or an arbitrary amount of writer progress between steps
  (CaptureLoop). Clocks, sockets, brokers, secret stores and file systems are parameters or small classes.

Where a promise does not hold as stated, the model follows the code and the exact limit is proved:

- A stored payload digest survives re-reading exactly when every text still fits its limit, and still looks harmless,
  once its lone surrogates are escaped (`PayloadReading.ReadingExact`). One is enough to spoil the look, after
  "C:" (`PayloadNormaliser.OneSurrogateBreaksReading`); 683 are enough to spoil the length
  (`PayloadNormaliser.SurrogatesBreakReading`).
- The marker search always gives the right verdict, but the marker it names depends on the chunking, exactly when the
  shortest prefix with a match names another marker than the whole text (`MarkerSearch.NameIgnoresChunking`); the
  shipped markers allow it (`MarkerSearch.NamedMarkerDependsOnChunking`).
- Completion and the elapsed-window reason of a capture part exactly when closing the client raises after a completed
  window (`CaptureLoop.CompletedMeansElapsed`, `CaptureLoop.PartingRun`).
- Rolling back does not always put back what a reader found. The devices are last sent the captured value stripped; a
  reader finds the value unchanged when the publisher does not set the retain flag, as the shipped one does not
  (core/smart_commissioning_core/mqtt_transport.py:573-583), and stripped when it does
  (`ConfigPublish.PublishThenRollBack`, `ConfigPublish.RollbackStrips`).
- A point can be expected without a name although the code's own description says points need one: exactly when it is
  derived from an empty key of the published payload (`ConfigPublish.NamelessExactly`, `ConfigPublish.EmptyKeyIsExpected`).
  Such a publish never succeeds (`ConfigPublish.NamelessNeverSucceeds`).
- The read after the retry loop of `load_or_create` is unreachable (`SigningKeyProtocol.AtMostTwoLookups`).
- In the fold, `item != previous` is always true where it is tested, because cursors are distinct; a repeat of the
  winning version is always refused and a repeat of a superseded one never (`ObservationFold.ElectionAccepts`).

## Model

| member | source | states |
|---|---|---|
| StreamCommitment.ObservationStreamSha256 | core/smart_commissioning_core/discovery_observations.py:1139-1147 | the loop over committed observations gives the chain `Commit` of their canonical encodings, or its first refusal |
| StreamCommitment.AppendRefinesBatch | core/smart_commissioning_core/discovery_observations.py:1150-1164 | extending a persisted commitment piece by piece, over any split of the stream, gives what extending it by the whole stream gives |
| StreamCommitment.CommitTotal | core/smart_commissioning_core/discovery_observations.py:1150-1164 | from a well-formed commitment a stream is refused exactly when some encoding is too long for its 8-byte length prefix |
| StreamCommitment.FrameInjective | core/smart_commissioning_core/discovery_observations.py:1159-1164 | domain, previous digest, length and item can be read back from the hashed bytes: equal frames mean equal previous digests and equal items |
| StreamCommitment.FrameLayout | core/smart_commissioning_core/discovery_observations.py:1150-1164 | what is hashed is the NUL-closed domain, the previous digest, eight bytes that read big-endian as the item length, and the item |
| StreamCommitment.CommitIsChainDigest | core/smart_commissioning_core/discovery_observations.py:1139-1164 | a commitment is the hexadecimal text of a pure chain digest, so nothing but the items goes into it |
| StreamCommitment.ChainBinds | core/smart_commissioning_core/discovery_observations.py:99-102 | equal chain digests mean equal streams of any two lengths, or two different byte strings with one SHA-256 are produced; the empty stream included |
| StreamCommitment.CommitmentBinds | core/smart_commissioning_core/discovery_observations.py:1139-1164 | equal commitments mean equal streams element by element, or a concrete collision |
| PublicFields.PublicValueAccepts | core/smart_commissioning_core/discovery_observations.py:1099-1136 | a value is accepted exactly when the node at every path of it is within depth 8 and passes its own check (range, string limit, at most 512 items, no object) |
| PublicFields.PublicValueSettled | core/smart_commissioning_core/discovery_observations.py:1099-1136 | an accepted value is plain JSON and its own normal form; so is its escaped form whenever that is accepted |
| PublicFields.SortedDistinctFixed | core/smart_commissioning_core/discovery_observations.py:989-990 | a list equals its sorted distinct elements exactly when it strictly increases |
| PublicFields.PortSequenceAccepts | core/smart_commissioning_core/discovery_observations.py:972-991 | a port list is accepted exactly when it is null, or within the length cap and strictly increasing in 1..65535, and comes back as the same list |
| PublicFields.BuildFields | core/smart_commissioning_core/discovery_observations.py:816-829 | the dictionary-building loop of a record equals its field-by-field normalisation, refusing unknown and non-text keys |
| PublicFields.FieldsSettled | core/smart_commissioning_core/discovery_observations.py:1011-1021 | a record built by settled field rules is its own normal form, also after JSON escaping when that is accepted |
| PayloadNormaliser.CountRecordSettled | core/smart_commissioning_core/discovery_observations.py:994-1008 | a count record, which must hold all its fields, is its own normal form |
| PayloadNormaliser.RecordSettled | core/smart_commissioning_core/discovery_observations.py:797-813 | every projected record (device, point, topic, issue, summary) is its own normal form |
| PayloadNormaliser.DumpFields | core/smart_commissioning_core/discovery_observations.py:740-746 | each field of a projection dumped without nulls and defaults reads back as that field |
| PayloadNormaliser.DumpRoundTrip | core/smart_commissioning_core/discovery_observations.py:740-746 | a valid projection dumped without nulls and defaults validates back to itself |
| PayloadNormaliser.ValidatedIsValid | core/smart_commissioning_core/discovery_observations.py:513-545 | a validated projection is in range, has a record exactly when present, and its record is in normal form |
| PayloadNormaliser.ProjectionSettled | core/smart_commissioning_core/discovery_observations.py:513-545 | validating, dumping and validating again changes nothing, escaping included |
| PayloadNormaliser.PayloadTableSettled | core/smart_commissioning_core/discovery_observations.py:716-794 | every field rule of the payload table is idempotent and stable under JSON escaping |
| PayloadNormaliser.PayloadIdempotent | core/smart_commissioning_core/discovery_observations.py:716-794 | normalising an accepted payload again returns it unchanged |
| PayloadNormaliser.DigestSurvivesReading | core/smart_commissioning_core/discovery_observations.py:701-713 | a stored payload that the view model accepts is read back unchanged, so its stored digest still matches |
| PayloadNormaliser.SurrogateFreeSurvives | core/smart_commissioning_core/discovery_observations.py:583-586 | without lone surrogates the view model does accept what was stored, and the digest matches |
| PayloadNormaliser.EscapeBreaksReading | core/smart_commissioning_core/discovery_observations.py:1053-1074 | a text that is public as it stands but not once escaped makes a payload that is accepted when written and refused when read |
| PayloadNormaliser.SurrogatesBreakReading | core/smart_commissioning_core/discovery_observations.py:701-713 | for every n from 683 up, a text of n lone surrogates that shows no forbidden pattern is accepted when written, and refused once escaped |
| PayloadNormaliser.OneSurrogateBreaksReading | core/smart_commissioning_core/discovery_observations.py:104-107 | one lone surrogate after "C:" is enough: escaped it shows an absolute Windows path, unescaped it does not |
| PayloadNormaliser.StoredButUnreadable | core/smart_commissioning_core/discovery_observations.py:701-713 | so such a payload is stored with its digest and its row is refused when read back |
| IpEvidence.TableSettled | core/smart_commissioning_core/discovery_observations.py:176-181 | a model of any table of settled fields, defaults and a cross-field check is its own normal form once dumped |
| IpEvidence.TableReads | core/smart_commissioning_core/discovery_observations.py:740-746 | the dumped model validates again after escaping exactly when every declared field does, and then unchanged, if its cross-field check cannot see the escapes |
| IpEvidence.IdentityKept | core/smart_commissioning_core/discovery_observations.py:202-215 | a stripped register reference is accepted again as it is and holds nothing to escape |
| IpEvidence.FactsIgnoreEscapes | core/smart_commissioning_core/discovery_observations.py:315-383 | every comparison of the cross-field check comes out the same on the escaped payload, since an escape shows a backslash and no compared word has one |
| IpEvidence.AcceptedEvidence | core/smart_commissioning_core/discovery_observations.py:315-383 | a port verdict of an accepted payload rests on an attempted probe that agrees with it, a suggested action excludes verdicts and service claims, and the built-in provider claims no service and no attempted UDP probe |
| IpEvidence.IpPayloadSettled | core/smart_commissioning_core/discovery_observations.py:234-383 | an accepted IP payload, provenance included, is plain JSON and its own normal form; so is its escaped form whenever that is accepted |
| IpReading.IpPayloadReads | core/smart_commissioning_core/discovery_observations.py:743-746 | a stored IP payload is accepted again exactly when its free texts (versions, reason, hints, interface) fit their limits and look harmless once escaped |
| IpContract.EvidenceExact | core/smart_commissioning_core/discovery_observations.py:315-383 | the cross-field check passes exactly under the written-out conditions between register, provider, outcome, verdict, action and port |
| IpContract.ProvenanceExact | core/smart_commissioning_core/discovery_observations.py:173-231 | a provenance is accepted, and dumped, exactly as its six fields, their patterns and limits, and the pairing of import and digest say |
| IpContract.IpExact | core/smart_commissioning_core/discovery_observations.py:234-383 | an IP payload is accepted, and dumped, exactly as the 22 fields say: which words each literal allows, which default each has, which limit and pattern each text, and the evidence check |
| RecordContract.NestedExact | core/smart_commissioning_core/discovery_observations.py:1099-1136 | a nested value is accepted exactly within depth 8, 512 items and the 64-bit range, and comes back as itself with tuples as lists |
| RecordContract.PortsExact | core/smart_commissioning_core/discovery_observations.py:972-991 | a port list is accepted exactly when null, or at most 4096 ports in 1..65535 in strict order, and comes back as itself |
| RecordContract.CountsExact | core/smart_commissioning_core/discovery_observations.py:994-1008 | a count record is accepted exactly with all its names, no other, and 64-bit counts from 0 |
| RecordContract.AttributesExact | core/smart_commissioning_core/discovery_observations.py:937-969 | attributes are accepted exactly when each of the 42 names meets its own rule: two flags, two count records, eight port lists, thirty nested values |
| RecordContract.RecordExact | core/smart_commissioning_core/discovery_observations.py:797-813 | a record of any collection is accepted exactly when every field is named in the contract and meets the rule and limit written beside its name, and comes back as itself |
| RecordContract.PortAttributeExact | core/smart_commissioning_core/discovery_observations.py:960-990 | for each of the eight port attributes, a device with that attribute alone is accepted exactly when the ports strictly increase in range |
| PayloadContract.ProjectionExact | core/smart_commissioning_core/discovery_observations.py:513-545 | a projection is read exactly as collection name, position up to 50000 with default 0, presence with default true, and a record just when present |
| PayloadContract.DumpMeaning | core/smart_commissioning_core/discovery_observations.py:748-753 | it is stored as its collection, then position, presence and record where they are not the default |
| PayloadContract.PayloadExact | core/smart_commissioning_core/discovery_observations.py:716-794 | a payload is accepted, and comes out as it does, exactly when each of the 25 fields meets its own rule: flags, counts, measures, references, texts with their limits, the nested value, the projection and the IP part |
| PayloadContract.StoredExact | core/smart_commissioning_core/discovery_observations.py:701-713 | what is stored is the escaped normal form, with the digest of its encoding, exactly up to 65536 bytes |
| PayloadContract.FloatLimit | core/smart_commissioning_core/discovery_observations.py:1091-1096 | an integer is too large for a measure exactly from 2^1024 - 2^970 on |
| EscapedTexts.EscapedText | core/smart_commissioning_core/run_context.py:53-68 | escaping adds five characters for each lone surrogate and no control characters |
| EscapedTexts.EscapeSpells | core/smart_commissioning_core/run_context.py:46-51 | an escape is a backslash, a `u` and four upper-case hexadecimal digits that spell the surrogate |
| EscapedTexts.PublicOnceEscaped | core/smart_commissioning_core/discovery_observations.py:1053-1074 | an accepted string is accepted again once escaped exactly when the longer text fits its limit and its escaped form shows no forbidden pattern |
| PayloadReading.PublicValueReads | core/smart_commissioning_core/discovery_observations.py:1099-1136 | an accepted nested value is accepted again once escaped exactly when every text at any path fits |
| PayloadReading.LeafReads | core/smart_commissioning_core/discovery_observations.py:716-794 | the same for each leaf rule; flags, numbers, counts and ports always read back |
| PayloadReading.RecordReads | core/smart_commissioning_core/discovery_observations.py:797-813 | the same for the records of every collection, field by field |
| PayloadReading.ProjectionReads | core/smart_commissioning_core/discovery_observations.py:513-545 | a dumped projection validates again once escaped exactly when its record fits |
| PayloadReading.ReadingExact | core/smart_commissioning_core/discovery_observations.py:583-586 | the digest of `observation_payload` passes the check after the view model normalises again exactly when every text of the payload fits once escaped |
| Values.JsonSafeIdentity | core/smart_commissioning_core/run_context.py:53-68 | plain values without lone surrogates are left alone by JSON escaping |
| ObservationFold.FoldDiscoveryObservations | core/smart_commissioning_core/discovery_observations.py:1167-1264 | the three loops together compute the fold function, errors included |
| ObservationFold.ElectWinners | core/smart_commissioning_core/discovery_observations.py:1205-1214 | the winner loop equals electing one observation after the other |
| ObservationFold.ProjectWinners | core/smart_commissioning_core/discovery_observations.py:1216-1237 | the projection loop over the winners in insertion order equals projecting them one after the other |
| ObservationFold.Distribute | core/smart_commissioning_core/discovery_observations.py:1240-1250 | the last loop gives the summary of all summary contributions and, for each list, its records in order |
| ObservationFold.FoldOrderIndependent | core/smart_commissioning_core/discovery_observations.py:1177-1214 | any permutation of the observations gives the same fold or the very same error |
| ObservationFold.WinnersAreMaximal | core/smart_commissioning_core/discovery_observations.py:1205-1214 | every key has a winner from the stream, its version is maximal, and nothing else has that key and version |
| ObservationFold.ElectionAccepts | core/smart_commissioning_core/discovery_observations.py:1205-1214 | among distinct cursors the election accepts exactly when every digest matches and no observation repeats the running maximum of its key; repeating a superseded version is accepted |
| ObservationFold.StaleIsInert | core/smart_commissioning_core/discovery_observations.py:1211-1214 | an observation already superseded on arrival changes no winner, whatever follows |
| ObservationFold.StaleChangesOnlyEvidence | core/smart_commissioning_core/discovery_observations.py:1252-1264 | in the fold it changes acceptance not at all, and of the result only count, cutoff and commitment |
| ObservationFold.ProjectAllMeaning | core/smart_commissioning_core/discovery_observations.py:1218-1237 | projection fails only on an invalid contribution; otherwise it marks every projected collection (tombstones included) and contributes exactly the present records |
| ObservationFold.FoldParts | core/smart_commissioning_core/discovery_observations.py:1167-1264 | a fold succeeds exactly when header, election, projections and commitment do, and its fields are those of the parts |
| ObservationFold.ArrangementSorted | core/smart_commissioning_core/discovery_observations.py:1238 | contributions are strictly sorted by collection, position, kind and key: no two tie |
| ObservationFold.ArrangementConserves | core/smart_commissioning_core/discovery_observations.py:1216-1237 | a contribution is arranged exactly when it is the one of a present winner |
| ObservationFold.ProjectionConserved | core/smart_commissioning_core/discovery_observations.py:1216-1264 | winners are maximal, contributions sorted, and the five collections share them out without loss or repetition |
| ObservationFold.SelectSorted | core/smart_commissioning_core/discovery_observations.py:1246-1250 | each collection keeps the strict order |
| ObservationFold.RecordsAreSelected | core/smart_commissioning_core/discovery_observations.py:1246-1250 | a list holds the records of its own contributions, one each, in order |
| ObservationFold.SelectPartitions | core/smart_commissioning_core/discovery_observations.py:1239-1250 | summary, issues, devices, points and topics partition the contributions |
| ObservationFold.SummaryKeys | core/smart_commissioning_core/discovery_observations.py:1247-1248 | a key is in the summary exactly when some summary contribution gives it |
| ObservationFold.SummaryLastContributor | core/smart_commissioning_core/discovery_observations.py:1247-1248 | its value is the one the last contribution in order gives |
| ObservationFold.FoldAccepts | core/smart_commissioning_core/discovery_observations.py:1167-1264 | over rows the view model produced, the fold accepts exactly when header and digests hold and no running maximum repeats |
| ObservationFold.FoldEvidenceExtends | core/smart_commissioning_core/discovery_observations.py:692-698 | the evidence equals what committing any prefix, persisting it and appending the rest reports |
| ObservationFold.FoldCommitmentBinds | core/smart_commissioning_core/discovery_observations.py:1252-1257 | folds that report one commitment folded the same encoded stream, or SHA-256 collides |
| FoldMeaning.TextLeMeaning | core/smart_commissioning_core/discovery_observations.py:1238 | the order on texts is the one at the first difference, a proper prefix first |
| FoldMeaning.FoldLists | core/smart_commissioning_core/discovery_observations.py:1216-1250 | each list of a fold holds exactly one record per winning observation that shows one in that collection, namely the escaped record of its projection, by position, then entity kind, then entity key |
| FoldMeaning.FoldCollections | core/smart_commissioning_core/discovery_observations.py:1219-1224 | the collections named are those of the winning projections, present or not |
| FoldMeaning.FoldSummary | core/smart_commissioning_core/discovery_observations.py:1239-1248 | under a key the summary holds the value that the last summary record with that key holds under it, and no key but those |
| FoldMeaning.HeaderMeaning | core/smart_commissioning_core/discovery_observations.py:1177-1204 | the header is accepted exactly when the cutoff tells the number of rows, the run and attempt all rows share, and the last of their distinct cursors |
| FoldMeaning.FoldSucceeds | core/smart_commissioning_core/discovery_observations.py:1167-1264 | over viewed rows a fold succeeds exactly when the header agrees, every stored digest is that of the payload, and no row has the version of an earlier row of its entity without a newer one between |
| FoldMeaning.FoldEvidence | core/smart_commissioning_core/discovery_observations.py:1252-1264 | run, attempt, count and cursor are those of the rows, and the commitment is to their encodings by ascending cursor |
| SigningKeyProtocol.NextKeeps | core/smart_commissioning_core/integrity.py:79-111 | one step of any caller, crash included, keeps the invariant and never changes a published file |
| SigningKeyProtocol.RunKeepsInv | core/smart_commissioning_core/integrity.py:133-164 | the invariant holds at every state of every interleaving of any callers |
| SigningKeyProtocol.PublishedForever | core/smart_commissioning_core/integrity.py:97-103 | once published, the file keeps its inode and bytes for the rest of the run: it is set at most once |
| SigningKeyProtocol.PublishedWhole | core/smart_commissioning_core/integrity.py:88-103 | the published file is the complete PEM of some key, never a partial write |
| SigningKeyProtocol.ReturnedKeysAgree | core/smart_commissioning_core/integrity.py:149-160 | any two callers that return, at any two times, hold the same key, and it is the published one |
| SigningKeyProtocol.PublishedIsEntitled | core/smart_commissioning_core/integrity.py:154-160 | on a fresh path the published key is fresh, or the initial one its publisher was given |
| SigningKeyProtocol.LegacyKeySurvives | core/smart_commissioning_core/integrity.py:141-160 | callers that are all given one existing key publish and return that key and no other |
| SigningKeyProtocol.CallersProceed | core/smart_commissioning_core/integrity.py:133-164 | a caller that has not finished can always take a step that is no failure |
| SigningKeyProtocol.GoingOnHappens | core/smart_commissioning_core/integrity.py:133-164 | such a step can come at any moment of a run, whatever the other callers do |
| SigningKeyProtocol.CrashHappens | core/smart_commissioning_core/integrity.py:133-164 | so can a crash of any caller that has not finished |
| SigningKeyProtocol.FailureHappens | core/smart_commissioning_core/integrity.py:85-112 | so can the failure of a system call, after which an existing temporary is still unlinked |
| SigningKeyProtocol.RunExtends | core/smart_commissioning_core/integrity.py:133-164 | every step continues a run, so the theorems about runs cover all of them |
| SigningKeyProtocol.AtMostTwoLookups | core/smart_commissioning_core/integrity.py:149-164 | no caller reads the file a third time: the read after the loop and its error are unreachable |
| SigningKeyProtocol.StepsBringCallerCloser | core/smart_commissioning_core/integrity.py:133-164 | every step of a caller reduces what is left of its run, so callers do not loop |
| SigningKeyProtocol.KeyPath.Link | core/smart_commissioning_core/integrity.py:97-102 | linking publishes exactly when nothing was published, and otherwise changes nothing |
| SigningKeyProtocol.KeyPath.LoadOrCreate | core/smart_commissioning_core/integrity.py:134-164 | a successful call returns the key in the file; an existing file is never changed; a call whose own link wins publishes and returns its initial key if it was given one; without interference it does win; the final not-found error does not occur |
| MqttFraming.Connection.Recv | scripts/smoke_windows_portable_release.py:29 | a socket read returns some non-empty prefix, or nothing exactly at the end |
| MqttFraming.Connection.RecvExact | scripts/smoke_windows_portable_release.py:26-33 | under every fragmentation exactly the next `size` bytes are returned, or the closed connection is reported |
| MqttFraming.Connection.ReadLength | scripts/smoke_windows_portable_release.py:38-46 | the length loop decodes at most four digits, least significant first, consuming just those |
| MqttFraming.Connection.ReadPacket | scripts/smoke_windows_portable_release.py:36-46 | reading a packet from a fragmenting socket equals decoding the byte stream |
| MqttFraming.EncodeLength | scripts/smoke_windows_portable_release.py:49-58 | the digit loop produces the remaining-length encoding of section 2.2.3 of MQTT 3.1.1 |
| MqttFraming.SendPacket | scripts/smoke_windows_portable_release.py:61-62 | sending appends exactly the encoded packet to what the peer will read |
| MqttFraming.LengthRoundTrip | scripts/smoke_windows_portable_release.py:36-58 | an encoded length decodes to itself within its digit budget and is refused exactly beyond it |
| MqttFraming.PacketRoundTrip | scripts/smoke_windows_portable_release.py:36-62 | an encoded packet decodes to itself, leaving what follows, up to 268,435,455 bytes of payload; any longer one is refused |
| MqttFraming.ReceiveAll | scripts/smoke_windows_portable_release.py:36-62 | repeated reads return exactly the packets sent, in order, and leave the rest of the stream |
| MqttFraming.SubscriptionCount | scripts/smoke_windows_portable_release.py:65-77 | the loop counts the filters after the packet identifier, with the two truncation errors |
| MqttFraming.EncodedFiltersCount | scripts/smoke_windows_portable_release.py:65-77 | well-formed filters (section 3.8.3 of MQTT 3.1.1) are counted exactly |
| MqttFraming.CountedFiltersEncode | scripts/smoke_windows_portable_release.py:65-77 | a body that counts to n is the encoding of n filters |
| MqttFraming.SubscriptionCountExact | scripts/smoke_windows_portable_release.py:65-77 | the count is n exactly when the payload is a two-byte packet identifier followed by n well-formed filters, or is too short for an identifier and n is 0 |
| MqttFraming.FilterCountExact | scripts/smoke_windows_portable_release.py:65-77 | the body after the identifier counts to n exactly when it is n well-formed filters one after another |
| HeartbeatMonitor.ObserveHeartbeatRenewals | scripts/smoke_windows_portable_release.py:320-404 | phase one accepts exactly a fresh running first row whose polls show two renewals past the original expiry, and reports those rows |
| HeartbeatMonitor.ObservedChain | scripts/smoke_windows_portable_release.py:353-382 | an accepted phase one is a prefix of the polled rows: fresh throughout, heartbeats never falling, exactly two renewals |
| HeartbeatMonitor.ObserveComplete | scripts/smoke_windows_portable_release.py:353-385 | and no fresh running chain with two renewals is refused |
| HeartbeatMonitor.MonitorUntilTerminal | scripts/smoke_windows_portable_release.py:407-555 | phase two accepts exactly a fresh chain with a boundary row and an agreed terminal status, and reports its samples, renewals, maxima and gaps |
| HeartbeatMonitor.WatchedChain | scripts/smoke_windows_portable_release.py:480-535 | what phase two saw is a fresh chain; the boundary row lies on it at or past the target; the terminal time is within one allowance of its end |
| HeartbeatMonitor.JoinChains | scripts/smoke_windows_portable_release.py:407-430 | two accepted phases sharing a row form one fresh chain with the sum of their renewals |
| HeartbeatMonitor.ChainSpan | scripts/smoke_windows_portable_release.py:466-473 | the heartbeats of a fresh chain never fall and span at most renewals times the allowance |
| HeartbeatMonitor.ChainCovers | scripts/smoke_windows_portable_release.py:455-473 | at every instant of a chain, and one allowance past it, some sampled heartbeat is at most one allowance old |
| HeartbeatMonitor.AcceptanceImpliesCoverage | scripts/smoke_windows_portable_release.py:320-555 | when both phases accept: terminal time minus first heartbeat is at most (renewals + 1) allowances, the boundary heartbeat is at least original expiry + grace - allowance, and every instant between is covered |
| HeartbeatContract.PhaseOneExact | scripts/smoke_windows_portable_release.py:320-404 | phase one accepts exactly when two rows renew the heartbeat and every row up to the second runs, is inside a lease of the requested window, is recent, follows in cadence, and expires later when it renews; it reports that second row |
| HeartbeatContract.PhaseTwoExact | scripts/smoke_windows_portable_release.py:407-555 | phase two accepts exactly when some poll has both sides ended alike and every poll up to it is as it should be: running rows in lease, the first past the target renewed and reported running, terminal rows in time |
| HeartbeatContract.AcceptedRowsInLease | scripts/smoke_windows_portable_release.py:339-465 | in both accepted phases every running row was inside its lease, whose window was the one asked for up to the larger of 0.25 seconds and a quarter of the period |
| HeartbeatContract.MaxAgeExact | scripts/smoke_windows_portable_release.py:474-475 | the largest age reported is no row's less, and some row's or zero |
| HeartbeatContract.MaxGapExact | scripts/smoke_windows_portable_release.py:466-471 | the largest gap reported is no renewal's less, and some renewal's or zero |
| HeartbeatContract.RenewedExpiryExact | scripts/smoke_windows_portable_release.py:466-473 | the expiry reported is that of the row which brought the last heartbeat |
| MarkerSearch.MatchingMarker | scripts/check_nmap_distribution_absence.py:56-68 | the chunk loop with its carried tail computes the search function |
| MarkerSearch.WindowSound | scripts/check_nmap_distribution_absence.py:59-67 | a form found in the window occurs in the text read so far |
| MarkerSearch.WindowComplete | scripts/check_nmap_distribution_absence.py:59-67 | a form that first occurs with this chunk is found in the window, if it is no longer than overlap + 1 |
| MarkerSearch.WindowExact | scripts/check_nmap_distribution_absence.py:59-67 | so, while nothing occurred before, window and whole text agree on every marker |
| MarkerSearch.SearchEqualsWholeText | scripts/check_nmap_distribution_absence.py:56-68 | for every split into chunks a marker is returned exactly when some form occurs in the lower-cased whole, and the one returned does |
| MarkerSearch.VerdictIgnoresChunking | scripts/check_nmap_distribution_absence.py:56-68 | the yes/no answer is the same for every way of cutting the bytes |
| MarkerSearch.ShippedOverlap | scripts/check_nmap_distribution_absence.py:33-47 | 49 is the overlap of the shipped markers in both encodings, and none of them is empty |
| MarkerSearch.SearchNamesPrefix | scripts/check_nmap_distribution_absence.py:56-68 | the search names what the first chunk-end prefix holding some form names, taken as a whole text |
| MarkerSearch.FirstMatchExtends | scripts/check_nmap_distribution_absence.py:60-66 | more text can only bring forward the marker that is named |
| MarkerSearch.NameIgnoresChunking | scripts/check_nmap_distribution_absence.py:56-68 | every way of cutting a text names the same marker exactly when its shortest prefix with a match names what the whole text names |
| MarkerSearch.NamedMarkerDependsOnChunking | scripts/check_nmap_distribution_absence.py:60-66 | and there is a text of the shipped markers that two chunkings name differently |
| MarkerMeaning.ShippedSearchExact | scripts/check_nmap_distribution_absence.py:33-68 | however a file is cut, something is found exactly when the file holds a shipped marker byte for byte, in ASCII or in UTF-16 with the low byte first, in any letter case, and what is named is one it holds |
| MarkerMeaning.TailExact | scripts/check_nmap_distribution_absence.py:67 | what is carried from chunk to chunk is the end of what was seen, never longer than the overlap |
| DependencyWalk.NormalizeName | scripts/generate_sbom.py:118-130 | the character loop over the lowered name equals collapsing separator runs and stripping dashes |
| DependencyWalk.NormalizeCanonical | scripts/generate_sbom.py:118-130 | its result is lower case, without `_` or `.`, and with single inner dashes only; such names are fixed; normalising twice is normalising once |
| DependencyWalk.BareRequirementName | scripts/generate_sbom.py:186-193 | cutting at nine separators in turn is cutting at the first occurrence of any of them |
| DependencyWalk.WalkDependencies | scripts/generate_sbom.py:223-264 | terminates on any graph; the result contains the seeds, is closed under ungated requirements and contained in every such set; every `required_by` is exactly the seed requirers and the reachable packages naming it; every name is dequeued once |
| DependencyWalk.Dequeue | scripts/generate_sbom.py:244-263 | one turn of the loop keeps all of that for the names met so far |
| DependencyWalk.Expand | scripts/generate_sbom.py:248-263 | one package: all its ungated requirements are recorded, exactly the new ones queued |
| DependencyWalk.LeastIsReachable | scripts/generate_sbom.py:223-264 | the least closed set is exactly what a chain of requirements from a seed reaches |
| DependencyWalk.DiscoveredAreCanonical | scripts/generate_sbom.py:248-262 | whatever the requirement lines say, every name found beyond the seeds is canonical and not empty |
| DependencyMeaning.NormalizeMeaning | scripts/generate_sbom.py:118-130 | a normalised name keeps all other characters of the lower-cased name in order, with a dash between two of them exactly where separators stood |
| DependencyMeaning.CanonicalByMarks | scripts/generate_sbom.py:118-130 | two names in normal form with the same characters and gaps are one name |
| DependencyMeaning.RequirementExact | scripts/generate_sbom.py:186-193 | the bare name is what stands after leading blanks, up to blanks and the first of the nine separators or the end |
| DependencyMeaning.DependencyExact | scripts/generate_sbom.py:223-264 | a line names a dependency exactly when no extra gates it and its normalised name is not empty |
| DependencyMeaning.ComponentExact | scripts/generate_sbom.py:223-264 | each component has its declared name, its purpose and its installed flag, and is required by its seeds' projects and every walked package with a line naming it |
| CaptureLoop.Session.WriterRuns | scripts/capture_mqtt_evidence.py:653-671 | however long the writer runs, the file stays a prefix of everything queued, and only a write failure loses the rest |
| CaptureLoop.Session.Join | scripts/capture_mqtt_evidence.py:790-791 | after joining, an unfailed writer has written everything queued, in order, and closed the file |
| CaptureLoop.LoopMeaning | scripts/capture_mqtt_evidence.py:706-751 | the loop keeps message, payload and byte caps, accepts a gapless prefix of the arrivals in order, ends for the cap exactly when it is reached, and for the deadline only past it |
| CaptureLoop.ReceiveLoop | scripts/capture_mqtt_evidence.py:706-749 | with a writer running between its steps, the loop queues exactly its accepted messages and ends as the event function says, or because the writer failed |
| CaptureLoop.CaptureBody | scripts/capture_mqtt_evidence.py:692-751 | the client block queues the start marker exactly after subscribing with a manifest, then the accepted messages |
| CaptureLoop.Finish | scripts/capture_mqtt_evidence.py:760-791 | whatever happened, the end and terminal markers follow and the queue is drained |
| CaptureLoop.CaptureToJsonl | scripts/capture_mqtt_evidence.py:557-810 | on return the file is the whole transcript in order and the count is the accepted messages, at most the cap; a raise carries the settled exception; a writer failure after a normal end leaves the sidecar marker, one during the loop does not |
| CaptureLoop.TranscriptCounts | scripts/capture_mqtt_evidence.py:664-669 | a transcript holds exactly the accepted messages beside its markers, so the returned count is the accepted count |
| CaptureLoop.NormalEndings | scripts/capture_mqtt_evidence.py:717-751 | a capture that raises nothing ended at the cap or the deadline, and its reason and completion flag say which |
| CaptureLoop.CompletedMeansElapsed | scripts/capture_mqtt_evidence.py:752-772 | completion and the elapsed-window reason agree except exactly when closing the client raises after a completed window, which overwrites the reason |
| CaptureLoop.PartingRun | scripts/capture_mqtt_evidence.py:717-759 | and a run in which they part: the window elapses and closing the client raises, an interrupt of the operator included |
| CaptureMeaning.CaptureExact | scripts/capture_mqtt_evidence.py:675-749 | the loop takes events up to the first that ends it, holds exactly the messages of those before, and ends for the first reason that applies: a failing report or ping, the window (two days when the duration is zero), a failing read, the payload cap, the total cap |
| CaptureMeaning.LoopsOneWay | scripts/capture_mqtt_evidence.py:697-749 | there is only one such event and reason |
| CaptureMeaning.WindowExact | scripts/capture_mqtt_evidence.py:675-722 | an event before the window's end never ends a loop for it, and a loop that ends for it met an event past it |
| CaptureMeaning.EndingExact | scripts/capture_mqtt_evidence.py:717-762 | which exception comes out, under which reason the ending is recorded, and when the window counts as completed |
| CaptureMeaning.MarkedTranscript | scripts/capture_mqtt_evidence.py:685-795 | with a manifest the file starts its window once subscribed, holds the messages in order, and closes with the window's end and the terminal figures |
| CaptureMeaning.SidecarExact | scripts/capture_mqtt_evidence.py:796-815 | what is kept beside the evidence after a write error is the closing line, marked incomplete and as a write error, and only with a manifest |
| ConfigPublish.Broker.Publish | core/smart_commissioning_core/mqtt_transport.py:573-583 | unless it fails before sending, a publish is the last payload its subscribers were sent, and it answers later reads exactly when it carries the retain flag |
| ConfigPublish.Exchange | core/smart_commissioning_core/mqtt_config_publish.py:127-196 | publishes at most once, and exactly when live, authorized, free of gate issues and with a publisher and settings |
| ConfigPublish.ValidateAndPublish | core/smart_commissioning_core/mqtt_config_publish.py:35-305 | calls the publisher at most once, and only when authorized and free of gate issues; raises exactly when unauthorized or when a pointset of the wrong shape is read; otherwise reports gate, delivery and confirmation issues in order, with the value captured before publishing even when gates failed |
| ConfigPublish.NoGateIssues | core/smart_commissioning_core/mqtt_config_publish.py:56-112 | no gate issue exactly when confirmed, on a config topic, with a JSON payload and no simulated error |
| ConfigPublish.CheckPoints | core/smart_commissioning_core/mqtt_config_publish.py:213-240 | one check per expected point in order against the same pointset, one issue per miss |
| ConfigPublish.NoMissesMeansAllMatched | core/smart_commissioning_core/mqtt_config_publish.py:213-256 | no miss is reported exactly when every check matched, exactly when the matched count is the check count |
| ConfigPublish.LiveSuccessIsConfirmed | core/smart_commissioning_core/mqtt_config_publish.py:127-256 | a live success was published once, answered with JSON, and every expected point was seen to match in that answer |
| ConfigPublish.ExpectationsHaveValues | core/smart_commissioning_core/mqtt_config_publish.py:423-478 | every expected point has a value |
| ConfigPublish.NamelessExactly | core/smart_commissioning_core/mqtt_config_publish.py:423-478 | a point without a name is expected exactly when no explicit point is, derivation is allowed, and the published payload sets a value at the empty key of its points |
| ConfigPublish.EmptyKeyIsExpected | core/smart_commissioning_core/mqtt_config_publish.py:481-505 | the payload that sets a value at the empty key, with a pointset at hand, expects just that nameless point |
| ConfigPublish.EmptyNameNeverMatches | core/smart_commissioning_core/mqtt_config_publish.py:508-521 | an empty name is never observed, so its check always fails |
| ConfigPublish.NamelessNeverSucceeds | core/smart_commissioning_core/mqtt_config_publish.py:213-256 | so a publish that expects a nameless point never succeeds |
| ConfigPublish.NothingManufactured | core/smart_commissioning_core/mqtt_config_publish.py:423-478 | without a pointset, an opt-in or a supplied expectation nothing is expected, so nothing can be missed |
| ConfigPublish.PointValueFound | core/smart_commissioning_core/mqtt_config_publish.py:518-521 | an observed value really is the present value of that very point in the answer |
| ConfigPublish.CapturedIsUsable | core/smart_commissioning_core/mqtt_config_publish.py:308-361 | a capture has a payload exactly when it has a source; a live one is the value read, and text captured is never blank |
| ConfigPublish.RollBack | core/smart_commissioning_core/mqtt_config_publish.py:364-420 | refuses without authorization or payload before sending anything; otherwise republishes under the same gates and is judged on gates and delivery alone |
| ConfigPublish.RollbackExpectsNothing | core/smart_commissioning_core/mqtt_config_publish.py:401-410 | no expectation survives into a rollback, so none can be missed |
| ConfigPublish.RollbackPublishes | core/smart_commissioning_core/mqtt_config_publish.py:384-416 | a rollback goes out exactly when it is live, authorized, confirmed again, unsimulated, on a config topic and its captured payload is JSON |
| ConfigPublish.PublishOver | core/smart_commissioning_core/mqtt_config_publish.py:119-153 | a publish after a live read changes at most its topic and reports the value read before it |
| ConfigPublish.PutBack | core/smart_commissioning_core/mqtt_config_publish.py:384-420 | a rollback that may go out sends the captured value, stripped, and reports nothing as not observed |
| ConfigPublish.PublishThenRollBack | core/smart_commissioning_core/mqtt_config_publish.py:308-420 | after a live read, any forward outcome and a rollback that goes out, the devices were last sent the captured value stripped; a reader finds it untouched if the publisher does not retain and stripped if it does, so as before exactly when it does not retain or there was nothing to strip; no override mismatch is reported |
| ConfigPublish.RollbackStrips | core/smart_commissioning_core/mqtt_config_publish.py:333-420 | and a value that is not put back: a retained `{}` with a trailing blank passes every gate of the round trip and comes back without the blank through a retaining publisher |
| PublishMeaning.GatesExact | core/smart_commissioning_core/mqtt_config_publish.py:66-109 | the issues before publishing are exactly: not confirmed, no config topic, no JSON, a simulated fault, in that order |
| PublishMeaning.PublishExact | core/smart_commissioning_core/mqtt_config_publish.py:124-152 | the publisher is called once, with the stripped topic and payload of the request, exactly when a broker is asked for, authorized and available and no gate is in the way; who gets the payload depends on the retain flag |
| PublishMeaning.LiveIssuesExact | core/smart_commissioning_core/mqtt_config_publish.py:124-195 | past the gates a run reports a missing publisher, a failure, silence, or an answer that is no JSON, and nothing else |
| PublishMeaning.PreviousExact | core/smart_commissioning_core/mqtt_config_publish.py:308-361 | the value captured is the usable one read off the broker, else the usable one supplied, else none |
| PublishMeaning.ExplicitExact | core/smart_commissioning_core/mqtt_config_publish.py:454-465 | every explicit entry with a name and a value becomes an expectation, and nothing else does |
| PublishMeaning.ExplicitInOrder | core/smart_commissioning_core/mqtt_config_publish.py:454-465 | entries become expectations one by one, in order |
| PublishMeaning.DerivedExact | core/smart_commissioning_core/mqtt_config_publish.py:481-505 | every published point with a set value becomes an expectation under its key, and nothing else does |
| PublishMeaning.ExpectedExact | core/smart_commissioning_core/mqtt_config_publish.py:423-478 | explicit expectations come first, then derived ones where allowed, then the single one of the request |
| PublishMeaning.CheckExact | core/smart_commissioning_core/mqtt_config_publish.py:215-241 | a check sees exactly the present value the pointset shows for the first point of that name, and matches when it equals the expected one |
| PublishMeaning.CrashExact | core/smart_commissioning_core/mqtt_config_publish.py:513-526 | a check raises exactly when the pointset or its points are there but no object |
| PublishMeaning.MissesExact | core/smart_commissioning_core/mqtt_config_publish.py:229-246 | one issue per check that missed, with what was expected and seen; all others count as matched |
| PublishMeaning.ReportExact | core/smart_commissioning_core/mqtt_config_publish.py:255-300 | a run succeeds exactly without an issue; it was attempted exactly past its gates with a broker asked for; it confirms in part exactly when some checks matched and some missed |
| PublishMeaning.ChecksExact | core/smart_commissioning_core/mqtt_config_publish.py:205-217 | the checks answer, one by one, what the payload and the request expect of the pointset at hand |
| PublishMeaning.RollbackExact | core/smart_commissioning_core/mqtt_config_publish.py:394-412 | a rollback replaces payload and captured topic, drops every expectation and capture, forbids derivation, and keeps all other parameters |
| ArchiveScanner.LinesSplit | scripts/scan_v0137_release_secrets.py:211-221 | line splitting loses nothing and every line but the last ends at its newline |
| ArchiveScanner.TextScanExact | scripts/scan_v0137_release_secrets.py:211-221 | text has no finding exactly when no pattern reports anything in it |
| ArchiveScanner.Scanner.Text | scripts/scan_v0137_release_secrets.py:211-221 | appends exactly the findings of the three passes, in order |
| ArchiveScanner.Scanner.MemberBytes | scripts/scan_v0137_release_secrets.py:224-248 | appends exactly the findings of one member: nested archive, nesting-cap failure or text |
| ArchiveScanner.Scanner.Members | scripts/scan_v0137_release_secrets.py:254-268 | the member loop appends the findings of its members up to the one an exception leaves it at |
| ArchiveScanner.Scanner.Archive | scripts/scan_v0137_release_secrets.py:273-301 | opening and walking inside the handlers: caught exceptions become one finding, others end the scan; terminates by the depth left |
| ArchiveScanner.Scanner.Files | scripts/scan_v0137_release_secrets.py:311-324 | the whole scan appends the findings of its files in order, text files with translated newlines |
| ArchiveScanner.UniversalNewlines | scripts/scan_v0137_release_secrets.py:319-323 | translation leaves no carriage return, and text without any unchanged |
| ArchiveScanner.CleanIsSound | scripts/scan_v0137_release_secrets.py:224-303 | a clean archive has only sound members at the end of every chain of nested scannable members |
| ArchiveScanner.SoundIsClean | scripts/scan_v0137_release_secrets.py:224-303 | and an archive all of whose chains end in sound members scans clean |
| ArchiveScanner.ArchiveScanExact | scripts/scan_v0137_release_secrets.py:224-303 | clean exactly when the archive opens and every reachable scannable member is within size, readable and clean text or an archive within the nesting cap that opens |
| ArchiveScanner.ScanExact | scripts/scan_v0137_release_secrets.py:311-324 | the scan returns no finding and no exception exactly when every file given is sound in that sense |
| ArchiveScanner.SelfContainingIsReported | scripts/scan_v0137_release_secrets.py:224-248 | an archive that contains itself is never passed, at any depth |
| ArchiveScanner.FindingsAreLabelled | scripts/scan_v0137_release_secrets.py:252-303 | every finding inside an archive is labelled with the archive it came from |
| ScanMeaning.TextFindings | scripts/scan_v0137_release_secrets.py:211-221 | a text is reported exactly for a private key at its line, for each line that shows a credential URL, a literal assignment or a Mosquitto secret, and for each assignment over two lines |
| ScanMeaning.MemberExact | scripts/scan_v0137_release_secrets.py:247-275 | which members are passed over, which reported as too large (past 50 MiB) or unreadable, and which errors get out, for zip and tar |
| ScanMeaning.BytesExact | scripts/scan_v0137_release_secrets.py:224-248 | members named like archives are opened one level down, reported instead at the eighth; all others are scanned as text |
| ScanMeaning.ArchiveExact | scripts/scan_v0137_release_secrets.py:247-303 | an archive is reported as unreadable exactly for the errors its handler takes; any other gets out |
| ScanMeaning.MembersInOrder | scripts/scan_v0137_release_secrets.py:247-303 | members are scanned one after the other, and an error that gets out keeps what was found before |
| ScanMeaning.UniversalExact | scripts/scan_v0137_release_secrets.py:319-326 | a file opened as text has each carriage return, with its newline, read as one newline, and is otherwise unchanged |
| ExecutionContext.ScanAuthorityBindings | core/smart_commissioning_core/execution_context.py:48-105 | the candidate loop computes the bindings, or the first error |
| ExecutionContext.BindAllExact | core/smart_commissioning_core/execution_context.py:65-105 | collection succeeds exactly when every candidate parses and no two bind one import differently, and then holds exactly what they say |
| ExecutionContext.BindingOrderIndependent | core/smart_commissioning_core/execution_context.py:65-105 | the same candidates in any order, repeated or not, bind to the same map or all fail |
| ExecutionContext.ConflictIsRowCount | core/smart_commissioning_core/execution_context.py:94-104 | bindings that conflict carry the same digest: they can only differ in the row count |
| ExecutionContext.VerifiedRowsAreBound | core/smart_commissioning_core/execution_context.py:108-127 | rows that verify are as many as the bound rows and encode the same, or the two encodings collide |
| ExecutionContext.LayeredPrecedence | core/smart_commissioning_core/execution_context.py:164-181 | each parameter comes from the network interface, else the aliased connection settings, else the engine parameters, else the configuration defaults |
| ExecutionContext.CollectReferences | core/smart_commissioning_core/execution_context.py:182-187 | the loop adds a reference for each parameter still holding one under a key of its own |
| ExecutionContext.ResolveSecrets | core/smart_commissioning_core/execution_context.py:188-208 | the resolution loop equals resolving the references one after the other |
| ExecutionContext.ResolveContextParameters | core/smart_commissioning_core/execution_context.py:149-218 | the whole resolution: layers, references, secrets, own identifiers |
| ExecutionContext.ResolveAllExact | core/smart_commissioning_core/execution_context.py:188-208 | it succeeds exactly when every used reference resolves; then each destination holds its last used reference resolved, or its layered value |
| ExecutionContext.TextDestinationsDecoded | core/smart_commissioning_core/execution_context.py:182-207 | every text destination whose layered value was a secret reference ends with decoded material |
| ExecutionContext.OpaqueDestinationsStayOpaque | core/smart_commissioning_core/execution_context.py:200-208 | every other destination ends with its last used reference, opaque, or its layered value: never material |
| ContextMeaning.LayeredExact | core/smart_commissioning_core/execution_context.py:166-181 | a layered parameter is the first given of: the interface (bound for BACnet, else a source address without prefix length), a connection setting under its engine name, an engine parameter, a configured default; connection and defaults only when the run connects |
| ContextMeaning.DefaultsExact | core/smart_commissioning_core/execution_context.py:237-258 | the ten defaults come from exactly the named entries of the two sections, null and empty ones left out |
| ContextMeaning.ReferencesExact | core/smart_commissioning_core/execution_context.py:182-187 | the reference table holds the context's references, and each secret parameter under a key not among them |
| ContextMeaning.DestinationExact | core/smart_commissioning_core/execution_context.py:188-190 | where a reference belongs is told by its key after the last dot, folded and underscored; six names are renamed, `mqtt_password` to `password` among them |
| ContextMeaning.ResolutionExact | core/smart_commissioning_core/execution_context.py:188-210 | a parameter ends as what the last reference that belongs there leaves (text for the six text destinations, else the reference), if a layer or a plainly named reference wants it, and else as layered |
| ContextMeaning.IdentifiersExact | core/smart_commissioning_core/execution_context.py:211-219 | project and site, and for MQTT the client, are the run's own whatever the layers say |
| ContextMeaning.CandidateExact | core/smart_commissioning_core/execution_context.py:71-99 | a candidate binds exactly when it is an object naming an import of the context, with the digest the context has for it and a count from 0; null is passed over |
| ContextMeaning.CandidatesExact | core/smart_commissioning_core/execution_context.py:51-63 | the candidates are the address authority and every BACnet authority of the scan contract |
| ContextMeaning.DigestsExact | core/smart_commissioning_core/execution_context.py:65-68 | the context's digest of a resource is that of its last mention |
| ChecksumFile.LineRoundTrip | scripts/validate_v0127_release_evidence.py:314-320 | a checksum line reads as an entry exactly when it is the line written for it |
| ChecksumFile.PrintedSplits | scripts/generate_release_evidence.py:211-215 | the text written splits back into one line per entry, in name order |
| ChecksumFile.PrintedReadsBack | scripts/generate_release_evidence.py:204-215 | for distinct printable names the text written is readable and lists exactly the entries |
| ChecksumFile.PrintedOrderIndependent | scripts/generate_release_evidence.py:211-214 | the text does not depend on the order in which files were given |
| ChecksumFile.ReadLines | scripts/validate_v0127_release_evidence.py:314-322 | the reader reports nothing exactly on well-formed lines with distinct names, and then knows exactly what they list |
| ReleaseEvidence.StatusRoundTrip | scripts/generate_release_evidence.py:22-42 | a status argument reads as name and status exactly when written `name=status` |
| ReleaseEvidence.Statuses | scripts/generate_release_evidence.py:22-42 | succeeds exactly on well-formed values with distinct names, and records exactly those |
| ReleaseEvidence.BuildFiles | scripts/generate_release_evidence.py:140-162 | succeeds exactly when every file exists, is not empty, has no reserved name and no name repeats; records name, kind, size and digest of each |
| ReleaseEvidence.Generate | scripts/generate_release_evidence.py:133-215 | the writer succeeds exactly on such files, valid non-empty gates and tests and ASCII names; it writes the document, and the checksums of all files and of the document itself |
| ReleaseEvidence.PassedRecords | scripts/validate_v0127_release_evidence.py:100-117 | no failure exactly when the records are non-empty and well formed and every required one passed |
| ReleaseEvidence.ReadRecords | scripts/validate_v0127_release_evidence.py:240-272 | no failure exactly when every record is safe, unique, required, of its kind, with a digest and a positive size; the table holds the first safe record of each name |
| ReleaseEvidence.FindPayload | scripts/validate_v0127_release_evidence.py:132-157 | a file without failure exactly when one root has it and every other lacks the name or has the same file |
| ReleaseEvidence.CheckPayload | scripts/validate_v0127_release_evidence.py:278-300 | no failure exactly when the unique file has the recorded size and digest, is readable and not empty, and is a valid SBOM where one is required |
| ReleaseEvidence.CheckChecksums | scripts/validate_v0127_release_evidence.py:302-335 | no failure exactly when the checksum file is readable and lists the records and the evidence file, and nothing else |
| ReleaseEvidence.Validate | scripts/validate_v0127_release_evidence.py:160-342 | the checker reports no failure exactly when identity, statuses, records, payloads and checksums all hold |
| ReleaseEvidence.AcceptedNames | scripts/validate_v0127_release_evidence.py:242-276 | the accepted record names are exactly the required ones |
| ReleaseEvidence.AcceptedListing | scripts/validate_v0127_release_evidence.py:326-335 | SHA256SUMS lists the required files and the evidence file with its own digest, and nothing else |
| ReleaseEvidence.AcceptanceBinds | scripts/validate_v0127_release_evidence.py:242-335 | a name is required exactly when one stored file, its record and its checksum line carry one digest |
| ReleaseEvidence.GeneratedIsAccepted | scripts/generate_release_evidence.py:140-215 | evidence as written, delivered with its files to unambiguous places, is accepted for every required set of printable names |
| ReleaseEvidence.GeneratedIsAcceptedExactly | scripts/generate_release_evidence.py:140-215 | for ASCII names, which the writer demands, it is accepted exactly when every required name is a safe file name without a line break |
| ReleaseEvidence.AcceptedNamesUnbroken | scripts/validate_v0127_release_evidence.py:314-335 | no evidence at all is accepted for a required name that is unsafe or holds a line break |
| ReleaseEvidence.RequiredNamesPrintable | scripts/validate_v0127_release_evidence.py:17-33 | the names both release kinds require are such names |
| ReleaseMeaning.IdentityExact | scripts/validate_v0127_release_evidence.py:214-246 | the identity check passes exactly when the five release fields and the seven workflow fields, run address included, have the values asked for and every demanded gate and test passed |
| ReleaseMeaning.RecordsExact | scripts/validate_v0127_release_evidence.py:246-277 | the records pass exactly when they are one fit record for each required file: a plain name, the kind required, a positive size, a 64-digit digest |
| ReleaseMeaning.AcceptedExact | scripts/validate_v0127_release_evidence.py:204-340 | evidence is accepted exactly when identity, records, the unique files as recorded, and SHA256SUMS all agree |
| ReleaseMeaning.BrokenLine | scripts/validate_v0127_release_evidence.py:305-315 | what stands before the first of the seven ASCII breaks is a line, and a carriage return with its newline is one break |
| ReleaseMeaning.UnbrokenLine | scripts/validate_v0127_release_evidence.py:305-315 | a text without a break is one line, or none if it is empty |
| ReleaseMeaning.LineExact | scripts/validate_v0127_release_evidence.py:315-319 | a checksum line is read exactly as a 64-digit digest, two blanks and a plain name |
| ReleaseMeaning.PrintedByName | scripts/generate_release_evidence.py:205-215 | SHA256SUMS lists its entries by name |
| ReleaseMeaning.DocumentExact | scripts/generate_release_evidence.py:140-200 | the document names release and run, and records every input once, by kind and then name, with its size and digest |

## Left out

- Regular expressions and name rules (credential, path, XML and marker-name patterns, archive and text suffixes, version and repository slugs) are uninterpreted predicates.
- IPv4 and date-time normalisers of the libraries are function parameters; `LibraryLaws` assumes that what they return is its own normal form and holds no surrogates, and that stripping blanks off a text brings no forbidden pattern into it, as the lookarounds of the shipped patterns ensure.
- The rounding of a millisecond count to a binary float (kept as the exact real), and pydantic's own refusal of lone surrogates in length-limited text fields of the IP payload, which the model still accepts.
- Pydantic's lax coercions are function parameters; dictionary keys that are not ordinary strings (lone surrogates, non-strings) are one opaque kind.
- Observation identity patterns, timestamps and the cross-field IP host checks of the view model, which the fold does not read.
- Python's exceptions carry error values, not messages; issue texts, severities and timestamps are dropped.
- MQTT connection handling, TLS, authentication and the broker thread around the framing code.
- Real time: the monitors take the rows read before their deadlines; sleeping and the API client are not modelled.
- License metadata, optional extras and first-party components of the SBOM; `str.lower` is a function parameter that settles characters (`Lowers`).
- DependencyWalk keeps components as map values, so sharing of `Component` objects is not captured.
- Manifest validation and opening the output file of a capture; a line torn by a write error; a capture whose events run out is ended by the operator's interrupt.
- A writer failure that happens while the final sidecar cannot be written either.
- The MQTT configuration summary beyond issues, checks and captured value; settings construction and the pointset topic.
- `_extract_present_value` raises on a `pointset` or `points` that is no object; the model reports that as a crash instead of demanding its absence.
- A retained publish of an empty payload, which clears the topic: an empty text is no JSON, so it is never published.
- Which exceptions an archive library raises is a parameter; an exception no handler catches ends the scan without a verdict.
- Directory walking, test-file exclusion and the command line of the secret scan.
- Stored-context verification against the lease, and the derivation of the MQTT client identifier.
- Release evidence older than v0.1.27, argument syntax checks, the CycloneDX content check (one predicate per stored file), symlink resolution (one answer per search root), and JSON encoding of the document, which is taken to read back as written.
- ReleaseEvidence.Validate: says when the failure list is empty, not which failures it holds otherwise; the same goes for the methods it calls.
- Release wrappers and string contracts of other versions, HTTP clients, database, web and packaging code: membership tests or plumbing.
