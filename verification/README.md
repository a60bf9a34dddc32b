# QuReddy: a verified model of its hard core

QuReddy scans endpoints for post-quantum readiness. This project models the parts of it whose
correctness is hardest to see and proves, for all inputs, runs and failures, what they are for:

- **Wallet addresses** (`Bits`, `Positional`, `Alphabets`, `Casings`, `Bech32`, `Bech32Text`,
  `Bech32Words`, `Bech32Vectors`, `ConvertBits`, `Base58`, `Address`): the bech32/bech32m checksum, the bit regrouper, base-58 and the
  witness rules of BIP-173, BIP-350 and BIP-141, against reference encoders and published addresses.
- **Bounded capture** (`Capture`): two reader threads and a controller sharing one byte budget, as a
  class for the locked object and a step relation for every interleaving.
- **Bundle publication** (`Bundle`, `BundleSafety`, `BundleValidity`): staging, backup, installation
  and rollback over a file system in which any call may raise, and the manifest check.
- **Crypto catalog** (`Catalog`, `Classification`): compilation into indexes, and lookups against a scan.
- **TLS selector** (`Sockets`, `TlsReader`) and **SSH probe** (`SshReader`, `SshRoundTrip`):
  incremental wire readers against reference printers.
- **Legacy cipher enumeration** (`Enumeration`): an adaptive sweep against an arbitrary server.
- **Markdown projection** (`Paths`, `Markdown`): flattening nested values into decodable path lines.
- **CBOM** (`Naming`, `Sorting`, `ScanEvidence`, `Inventory`, `BomBuilder`, `CbomDocument`,
  `CbomSoundness`, `CbomTheorem`, `CbomOccurrences`, `CbomMaterials`, `CbomContents`): the emitters that fill the bill
  of materials, the patches of the serialized document, and the validator that must accept it.

`Numbers`, `Sequences` and `Wrappers` are shared by all of them.

Code that changes state is modelled by classes and loops, each proved against a specification
function; what the program promises is then proved about that function.

## What the proofs found

Where the code and a plain reading of its documentation part ways, the code is modelled and the exact
condition is proved.

- A scan's CBOM passes its own validator if and only if tool names are distinct, protocol versions
  stay distinct under lower-casing, every cipher suite that legacy evidence lists is named as an
  algorithm by some evidence, and the validator's last test finds no secret pattern in the text
  (`CbomTheorem.BuilderSatisfiesValidator`). The legacy scanner writes the suite into both fields,
  which suffices for the third (`CbomTheorem.BothFieldsSuffice`).
- `evidence_occurrences` is documented to drop no evidence
  (`src/qureddy/output/cbom_metadata.py:223-225`). An evidence item is recorded if and only if the
  inventory holds one of the things it is about (`CbomOccurrences.RecordedIff`); captured
  certificates always are (`CbomOccurrences.CapturedIsRecorded`), the confirmed absence of a protocol
  version is only when positive evidence gives that version the same reference
  (`CbomOccurrences.AbsenceRecordedIff`). The plain scan of an endpoint that offers TLS 1.2 and was
  seen not to offer TLS 1.0 drops the second result (`CbomOccurrences.RefusalIsDropped`).
- Key material is filed under the first sixteen characters of a recovered key, or the lower-cased group
  of an ephemeral one, and a reference once taken is kept. Of recovered keys that begin alike the
  document shows the first and loses the others (`CbomMaterials.RecoveredKeyIff`,
  `CbomMaterials.OneKeyPerPrefix`); for ephemeral keys see `CbomMaterials.EphemeralKeyIff`.
- A catalog lookup succeeds if and only if its namespace matches the pattern of identities and its text
  has 1 to 256 characters (`Classification.ClassifyIsScan`). The empty text raises
  (`Classification.EmptyTextIsRefused`), and so does a text that the catalog finds, when case folding
  has made an identifier within the limit longer than the limit
  (`Classification.LongSpellingIsRefused`).
- The manifest is the completion marker of a bundle. It never misleads about the new bundle, whatever
  calls fail and whichever probes are wrong, if and only if the directory holds neither a certificate
  of an earlier scan that this scan does not replace nor an old manifest with the very bytes of the
  new one (`BundleValidity.TruthfulIff`). A visible manifest, old or new, never misleads if and only
  if the directory holds no such certificate and no manifest at all (`BundleValidity.WholeIff`): over
  an old manifest every run misleads as soon as it moves an artifact aside, though nothing fails
  (`BundleValidity.OldManifestMisleads`); with a stale certificate a failed removal of it makes the
  rollback unlink artifacts before the manifest (`BundleValidity.StaleCertificateMisleads`). What
  always holds without a stale certificate: a visible manifest is the original one or comes with
  everything it lists (`BundleValidity.ManifestIsHonest`).
- `Path.exists`, on the Python the project requires (`pyproject.toml:11`), answers no instead of
  raising. A rollback that succeeds restores the directory if and only if no existing file was
  overlooked in this way and then replaced (`BundleSafety.RollbackIsExact`); one wrong probe of an old
  artifact and one later failure suffice to lose it (`BundleValidity.BlindProbeLosesOriginal`).
- The output-limit flag of a captured process can be stale: for any limit and output there is a run
  that returns it unset although the limit was met, if and only if the output exceeds the limit
  (`Capture.StaleFlagIff`). Such a result also says that the call timed out
  (`Capture.StaleMeansTimedOut`); a set flag is always true (`Capture.SetFlagIsTrue`).
- A record whose header arrives in pieces is taken for malformed by the TLS selector, and its verdict
  is then inconclusive; how payloads are chunked decides nothing (`TlsReader.ReadSelectedSuite`,
  `TlsReader.AnyPayloadChunking`).
- The segwit decoder depends on the lower-cased spelling only, so a character that is not ASCII but
  lower-cases to an ASCII one, such as the Kelvin sign, is accepted (`Address.SpellingIrrelevant`,
  `Address.KelvinSpelling`). It has no 90-character limit and needs none (`Address.SegwitWithinLimit`).
- Two keys of one mapping share a Markdown path when they differ as code points but not in UTF-16: an
  astral character and its two lone surrogates (`Paths.SurrogatesCollide`, `Paths.SamePathIff`).
  The paths of a whole document are distinct if and only if no two of its leaves collide in this way
  (`Markdown.PathsDistinctIff`).

## Conventions

`lower`, `upper`, `isSpace`, `casefold`, SHA-256 and JSON text are function parameters; facts about
them are hypotheses by name (`Naming.CasesAscii`, `Base58.Digests`, `BundleValidity.RoundTrips`).
Servers, sockets, pipes and failing file-system calls are parameters too: any function from call
numbers to behaviour, so every theorem about them holds for all behaviours.

## Model

| member | source | states |
|---|---|---|
| Bech32.Polymod | src/qureddy/scanners/wallet/address.py:124-132 | the loop over the generator constants computes the residue the lemmas below are about, for any symbol list |
| Bech32.StepBelow | src/qureddy/scanners/wallet/address.py:124-132 | one step keeps the checksum register below 2^30, so no mask is needed |
| Bech32.LowFeedbackInjective | src/qureddy/scanners/wallet/address.py:125-131 | the low symbol of the generator feedback determines the symbol shifted out |
| Bech32.StepInjective | src/qureddy/scanners/wallet/address.py:124-132 | two different registers stay different under the same symbol |
| Bech32.StepCarries | src/qureddy/scanners/wallet/address.py:124-132 | a change below the top symbol moves up by one symbol and touches nothing else |
| Bech32.ResidueInjective | src/qureddy/scanners/wallet/address.py:124-132 | different registers stay different through any common tail |
| Bech32.ChecksumUnique | src/qureddy/scanners/wallet/address.py:172-177 | for any prefix and constant exactly one six-symbol suffix verifies |
| Bech32.BurstChangesResidue | src/qureddy/scanners/wallet/address.py:124-132 | burst detection at any length: a change inside six consecutive symbols changes the residue |
| Bech32Text.ExpansionRecombines | src/qureddy/scanners/wallet/address.py:135-136 | for any prefix: a zero between the two halves, the second half below 32, and 32 times the first plus the second is the character code; below 4 in the first half for ASCII |
| ConvertBits.ConvertBits | src/qureddy/scanners/wallet/address.py:139-153 | the loop with its growing accumulator regroups as the digit-string function does, with the same rejections |
| ConvertBits.RegroupIsCanonical | src/qureddy/scanners/wallet/address.py:139-153 | accepted exactly when the digits are in range, less than a group of padding is left and it is zero; the output is the leading part of the number |
| ConvertBits.RegroupInvertsPad | src/qureddy/scanners/wallet/address.py:139-153 | exact inverse of zero-padded regrouping in the other direction, both ways |
| ConvertBits.RegroupInjective | src/qureddy/scanners/wallet/address.py:139-153 | no two accepted strings give the same bytes |
| Bech32Text.Decode | src/qureddy/scanners/wallet/address.py:156-177 | case, separator, charset and checksum tests in the source's order, with the same split |
| Bech32Text.MixedCaseIsRefused | src/qureddy/scanners/wallet/address.py:156-162 | a string that is neither its lower nor its upper case is refused |
| Bech32Text.VerdictOfSuffix | src/qureddy/scanners/wallet/address.py:172-177 | a suffix verifies for an encoding exactly when it is that encoding's checksum |
| Bech32Text.DecodeInvertsEncode | src/qureddy/scanners/wallet/address.py:156-177 | decoding accepts exactly the reference encoder's strings in one case and returns prefix, data and encoding |
| Bech32Vectors.ShortestIsDecoded | src/qureddy/scanners/wallet/address.py:156-177 | the string A12UEL5L of BIP-173, which fixes generator, charset, expansion and the constant of bech32 |
| Bech32Vectors.ShortestMIsDecoded | src/qureddy/scanners/wallet/address.py:156-177 | the string A1LQFN3A of BIP-350, which fixes the constant of bech32m |
| Bech32Vectors.KeyHashIsReported | src/qureddy/scanners/wallet/address.py:257-272 | the version 0 address of BIP-173 is a Bitcoin mainnet key hash of 20 bytes |
| Bech32Vectors.TaprootIsReported | src/qureddy/scanners/wallet/address.py:257-272 | the version 1 address of BIP-350 is a Bitcoin mainnet taproot output of 32 bytes with its key shown |
| Bech32Vectors.SixteenIsReported | src/qureddy/scanners/wallet/address.py:257-272 | the version 16 address of BIP-350, in capitals, is a witness program of 2 bytes without a known scheme |
| Base58.Base58Check | src/qureddy/scanners/wallet/address.py:106-121 | the accumulating loop and the bit-length rounding give the base change of the digits, minus a verified checksum |
| Base58.RebaseInverts | src/qureddy/scanners/wallet/address.py:106-117 | changing base with leading zeros kept, and back, is the identity |
| Base58.ToBytesIsMinimal | src/qureddy/scanners/wallet/address.py:115-116 | rounding the bit length up gives the minimal big-endian bytes |
| Base58.RawInvertsEncode | src/qureddy/scanners/wallet/address.py:106-117 | base-58 strings and byte strings correspond one to one, leading ones with leading zero bytes |
| Base58.CheckedInvertsEncode | src/qureddy/scanners/wallet/address.py:117-121 | accepted strings are exactly the checksummed encodings of non-empty payloads, each of its own |
| Base58.AlphabetIs | src/qureddy/scanners/wallet/address.py:25 | digits and letters in ascending order without 0, O, I and l |
| Base58.HelloIsRead | src/qureddy/scanners/wallet/address.py:106-117 | a literal string is read as its twelve literal bytes |
| Base58.ZerosIsRead | src/qureddy/scanners/wallet/address.py:106-117 | a literal string with two leading ones is read with two leading zero bytes |
| Base58.CheckedSays | src/qureddy/scanners/wallet/address.py:117-121 | an accepted string is its payload followed by four bytes of the digest of the digest |
| Address.SegwitComplete | src/qureddy/scanners/wallet/address.py:180-227 | every address of a witness program decodes to its script class, network, version and length |
| Address.SegwitSound | src/qureddy/scanners/wallet/address.py:180-227 | whatever is accepted as segwit is the address of a program and reported as that program |
| Address.OneProgramPerAddress | src/qureddy/scanners/wallet/address.py:180-202 | no address belongs to two programs |
| Address.SegwitWithinLimit | src/qureddy/scanners/wallet/address.py:156-177 | every segwit address meets the 90-character limit the decoder does not test |
| Address.NoBurstBetweenAccepted | src/qureddy/scanners/wallet/address.py:172-177 | under one constant no two accepted data parts differ by a burst |
| Address.BurstRejected | src/qureddy/scanners/wallet/address.py:180-218 | changing up to six consecutive characters after the version symbol of an accepted address, to anything, leaves no segwit address |
| Address.SpellingIrrelevant | src/qureddy/scanners/wallet/address.py:156-162 | two spellings with one lower-case form get one verdict |
| Address.KelvinSpelling | src/qureddy/scanners/wallet/address.py:156-162 | where the Kelvin sign lowers to k and is its own upper case, a spelling with it gets the verdict of the address |
| Address.Base58Exact | src/qureddy/scanners/wallet/address.py:230-272 | the text of a payload that is no segwit string is accepted exactly when the payload is an assigned version byte and a 20-byte hash, and is reported under that version |
| Address.Base58Sound | src/qureddy/scanners/wallet/address.py:230-272 | whatever is accepted and not as segwit encodes an assigned version byte and a 20-byte hash, and is reported under that version |
| Address.Assignments | src/qureddy/scanners/wallet/address.py:45-65 | the assigned prefixes and version bytes, no others, each with its chain and network |
| Address.ScriptIff | src/qureddy/scanners/wallet/address.py:221-227 | which version and length make which output, and which outputs have which signature scheme and show their key |
| Address.StripCutsEnds | src/qureddy/scanners/wallet/address.py:257-272 | white space is cut off at both ends and nowhere else |
| Address.RefusedFor | src/qureddy/scanners/wallet/address.py:180-272 | every refusal names a reason that applies, and an overlong text is reported by its first 128 characters |
| Capture.BoundedCapture.constructor | src/qureddy/scanners/common/process.py:40-47 | a fresh budget with empty buffers |
| Capture.BoundedCapture.Append | src/qureddy/scanners/common/process.py:49-62 | keeps what fits, flags the limit, refuses after stop; the answer says whether everything was kept |
| Capture.BoundedCapture.ReaderFinished | src/qureddy/scanners/common/process.py:64-68 | one active reader less and nothing else |
| Capture.BoundedCapture.Wait | src/qureddy/scanners/common/process.py:70-77 | the pair of flags at the moment of waking |
| Capture.BoundedCapture.Stop | src/qureddy/scanners/common/process.py:79-83 | the stop flag and nothing else |
| Capture.BoundedCapture.Snapshot | src/qureddy/scanners/common/process.py:85-88 | the buffer of one stream |
| Capture.AppendConcat | src/qureddy/scanners/common/process.py:49-62 | offering two chunks one after the other is offering their concatenation |
| Capture.DrainPipe | src/qureddy/scanners/common/process.py:137-149 | alone on the budget, a reader leaves it as if the pipe's bytes had been offered at once, however they were cut into reads, unless a read raised |
| Capture.RunInv | src/qureddy/scanners/common/process.py:37-88 | the protocol invariant holds at every state of every interleaving |
| Capture.BuffersArePrefixes | src/qureddy/scanners/common/process.py:49-62 | always: each buffer is a prefix of its pipe, the total is their sum and within the limit |
| Capture.RunMonotone | src/qureddy/scanners/common/process.py:49-83 | buffers only grow, flags only rise, and a set flag freezes the buffers |
| Capture.LimitFreezes | src/qureddy/scanners/common/process.py:54-61 | once the limit flag is set the whole budget is spent and the buffers never change |
| Capture.ReadersAreBounded | src/qureddy/scanners/common/process.py:137-149 | together the readers accept at most limit chunks, and each stops after one refused chunk |
| Capture.ChunksAreSmall | src/qureddy/scanners/common/process.py:137-149 | a reader holds between 1 and 4096 bytes that it has not offered |
| Capture.UnflaggedIsComplete | src/qureddy/scanners/common/process.py:207-247 | a result with neither flag holds the child's complete output, pipe errors aside |
| Capture.WholeResultIff | src/qureddy/scanners/common/process.py:207-247 | for every limit and output: some run returns both whole streams with neither flag exactly when they are within the limit |
| Capture.LimitedIff | src/qureddy/scanners/common/process.py:207-247 | some run reports the limit exactly when the child writes more than it |
| Capture.SnapshotsAgree | src/qureddy/scanners/common/process.py:236-247 | both snapshots show the one state that stop froze, even if a reader outlives its join |
| Capture.LimitFlagMeaning | src/qureddy/scanners/common/process.py:220-247 | the two flags speak of the one step at which wait returned: one holds exactly when the limit had been met then, the other exactly when it had not and a reader was still active or the process did not exit in time |
| Capture.StaleFlagIff | src/qureddy/scanners/common/process.py:220-247 | for every limit and every output of the child: some run returns an unset flag over a met limit exactly when the output is longer than the limit |
| Capture.SetFlagIsTrue | src/qureddy/scanners/common/process.py:220-247 | a set flag is true of the result: its two buffers fill the whole budget |
| Capture.StaleMeansTimedOut | src/qureddy/scanners/common/process.py:220-247 | a stale flag comes with the timed-out flag |
| Bundle.FileSystem.StageBundle | src/qureddy/cli/_render.py:125-138 | writes stage, projections and manifest, removing the stage on failure, call by call as specified |
| Bundle.FileSystem.WriteStage | src/qureddy/cli/_render.py:128-134 | the writes of staging in order, and the manifest over the bytes read back |
| Bundle.FileSystem.InstallStagedBundle | src/qureddy/cli/_render.py:141-158 | probe, back up, move in, for every managed name once, recording what was installed |
| Bundle.FileSystem.RollbackBundle | src/qureddy/cli/_render.py:161-180 | unlink what was installed, move every backup home, remove the backup; a failure stops it and keeps the backup |
| Bundle.FileSystem.RenderBundle | src/qureddy/cli/_render.py:52-91 | the whole run with its cleanup, for any pattern of failing calls |
| BundleSafety.RollbackIsExact | src/qureddy/cli/_render.py:72-91 | whatever failed: when the rollback succeeds, the directory, managed and unmanaged files, is what it was if and only if no existing file was overlooked by its probe and then replaced |
| BundleSafety.OverwrittenIsLost | src/qureddy/cli/_render.py:154-172 | a file overlooked and replaced is gone after a rollback that succeeds |
| BundleSafety.FailureConserves | src/qureddy/cli/_render.py:141-180 | in a failed run that replaced no overlooked file every original is whole at its place or in the backup after every single call, and the backup of a failed rollback stays as that rollback left it |
| BundleSafety.SuccessConserves | src/qureddy/cli/_render.py:72-91 | in a successful one too, up to the removal of the backup, the last call |
| BundleSafety.PrivateDirectories | src/qureddy/cli/_render.py:52-91 | the stage and the backup are gone in the end unless the very call that removes one failed; a failed rollback keeps its backup |
| BundleValidity.ValidateManifest | scripts/validate_output_bundle.py:71-108 | complains exactly when the directory is not a complete, untampered bundle |
| BundleValidity.TamperingIsReported | scripts/validate_output_bundle.py:71-108 | an accepted directory stays accepted exactly while no artifact is lost, added, resized or changed under the digest |
| BundleValidity.AcceptedSays | scripts/validate_output_bundle.py:71-108 | an accepted manifest is complete, of the published schema, lists all projections, and every size and digest agrees |
| BundleValidity.StageHolds | src/qureddy/cli/_render.py:125-138 | a successful staging holds exactly the new bundle |
| BundleValidity.TurnShows | src/qureddy/cli/_render.py:141-158 | whatever fails and whichever probes are wrong, no turn of the installation shows a manifest that is neither the original one nor complete, and a turn that fails before the manifest is in place leaves only the original one to be seen |
| BundleValidity.PublishedBundle | src/qureddy/cli/_render.py:52-91 | success leaves the new bundle, unmanaged files as they were, and nothing managed of the old bundle but a stale certificate whose last probe was wrong |
| BundleValidity.ManifestIsHonest | src/qureddy/cli/_render.py:52-91 | without a stale certificate every visible manifest is the original one or comes with all it lists, in every state of every run |
| BundleValidity.ManifestIsTruthful | src/qureddy/cli/_render.py:52-91 | with neither a stale certificate nor an old manifest of the same bytes, the new manifest is never visible before all it lists, whatever fails and whichever probes are wrong, rollback included |
| BundleValidity.StaleCertificateMisleads | src/qureddy/cli/_render.py:149-172 | with a stale certificate there is, for every start, a failing call that shows the new manifest without an artifact |
| BundleValidity.OldManifestMisleads | src/qureddy/cli/_render.py:149-158 | over an old manifest every run that moves an artifact aside shows a manifest without its bundle, and the new one when the bytes agree |
| BundleValidity.TruthfulIff | src/qureddy/cli/_render.py:52-91 | the new manifest is truthful in every state of every run exactly when there is no stale certificate and no old manifest of the same bytes |
| BundleValidity.WholeIff | src/qureddy/cli/_render.py:52-91 | whichever manifest is visible comes with its whole bundle in every state of every run exactly when there is no old manifest and no stale certificate |
| BundleValidity.PublishedIsAccepted | scripts/validate_output_bundle.py:99-108 | the validator accepts a published directory exactly when it holds no unmanaged file and no stale certificate file was left behind |
| BundleValidity.NoFailurePublishes | src/qureddy/cli/_render.py:52-91 | when no call fails the bundle is published exactly when no wrong probe hid a directory under the name of an artifact or the manifest |
| BundleValidity.DuplicateLosesOriginal | src/qureddy/cli/_render.py:149-151 | why managed names are de-duplicated: a second visit would destroy the backup |
| BundleValidity.BlindProbeLosesOriginal | src/qureddy/cli/_render.py:154-157 | for every old artifact file one wrong probe and one later failure make a run roll back and lose the file |
| Catalog.Register | src/qureddy/core/crypto_catalog/compiler.py:61-76 | registering succeeds exactly when each namespace has one case policy and normalized identifiers are unique, and then indexes them all |
| Catalog.ValidateRatings | src/qureddy/core/crypto_catalog/compiler.py:94-102 | accepts exactly ratings whose source references resolve |
| Catalog.CompileAlgorithms | src/qureddy/core/crypto_catalog/compiler.py:105-140 | succeeds exactly on distinct, resolving, unambiguous algorithms and returns faithful maps |
| Catalog.CompileEntries | src/qureddy/core/crypto_catalog/compiler.py:143-185 | the same for protocol entries and their algorithm uses |
| Catalog.Compile | src/qureddy/core/crypto_catalog/compiler.py:214-253 | succeeds exactly on compilable definitions with a possible receipt (a digest for published bytes, and any supplied digest 64 lower-case hexadecimal digits), and the snapshot indexes the definition |
| Catalog.CompilableIff | src/qureddy/core/crypto_catalog/compiler.py:105-253 | what compiles, spelled out on the definition: distinct ids, resolved references, one case policy and one owner for every identifier, a possible receipt |
| Catalog.ScopeIff | src/qureddy/core/crypto_catalog/compiler.py:188-211 | an explicit scope is kept; otherwise a digest is one of published bytes exactly when the caller supplied it |
| Classification.ClassifyIsScan | src/qureddy/core/crypto_catalog/snapshot.py:93-124 | on a compiled catalog classify misses no lookup, succeeds exactly for a namespace of the pattern of identities and a text of 1 to 256 characters, and then is EXACT exactly when a linear scan finds an entry, which is unique, with that entry's algorithms and their ratings use by use before its own, and UNKNOWN otherwise |
| Classification.ValidTextIff | src/qureddy/core/crypto_catalog/models.py:292-298 | which namespaces and texts are valid, character by character |
| Classification.EmptyTextIsRefused | src/qureddy/core/crypto_catalog/models.py:292-298 | the empty text raises on every compiled catalog |
| Classification.LongSpellingIsRefused | src/qureddy/core/crypto_catalog/snapshot.py:93-124 | a text longer than the limit raises although the lookup finds its entry under case folding |
| Classification.ResolveIsScan | src/qureddy/core/crypto_catalog/snapshot.py:87-91 | resolve_algorithm returns the one algorithm a scan finds, and None exactly when there is none |
| Classification.EntryRatings | src/qureddy/core/crypto_catalog/snapshot.py:93-124 | the ratings of a compiled entry exist and stay under the limit of 64 |
| Classification.AtMostThreeRatings | src/qureddy/core/crypto_catalog/models.py:219-222 | one rating per axis means at most three |
| Classification.AtMostSevenUses | src/qureddy/core/crypto_catalog/models.py:262-270 | one use per role means at most seven algorithms |
| TlsReader.ReadRecord | src/qureddy/scanners/tls/native_selector.py:103-117 | returns the first record of the stream and consumes exactly it, or says why not: malformed, a header that came in pieces, or, exactly when one of its calls raised, an exception |
| TlsReader.ReadSelectedSuite | src/qureddy/scanners/tls/native_selector.py:120-174 | the verdict is what the bytes and the deadline decide, for any chunking of payload reads, and inconclusive as soon as a call of the reading raises or a header at a record boundary comes in pieces |
| TlsReader.PrintedHelloIsRead | src/qureddy/scanners/tls/native_selector.py:88-100 | every well-formed ServerHello is recognised with its suite |
| TlsReader.ReadHelloIsPrinted | src/qureddy/scanners/tls/native_selector.py:88-100 | whatever is recognised is a ServerHello with that suite |
| TlsReader.ParsedRecordIsPrinted | src/qureddy/scanners/tls/native_selector.py:103-117 | whatever is taken for a record is one, whole and of at most 16384 bytes |
| TlsReader.ScanConcat | src/qureddy/scanners/tls/native_selector.py:120-146 | the verdict on handshake records depends on their concatenation only |
| TlsReader.FragmentationIndependence | src/qureddy/scanners/tls/native_selector.py:120-146 | however the same bytes are split over one to eight records, each of its own record version, the verdict is the same |
| TlsReader.OfferedSuiteIsSelected | src/qureddy/scanners/tls/native_selector.py:120-146 | a ServerHello for the offered suite is selected in any fragmentation, whatever follows |
| TlsReader.SocketFragmentation | src/qureddy/scanners/tls/native_selector.py:103-146 | two sockets with the same handshake bytes in any records and any chunks get one verdict when no call raises and headers come whole |
| TlsReader.AnyPayloadChunking | src/qureddy/scanners/tls/native_selector.py:103-146 | a ServerHello for the offered suite in a record whose header arrives whole is selected however the payload is chunked |
| TlsReader.ConclusiveIsJustified | src/qureddy/scanners/tls/native_selector.py:120-146 | every conclusive verdict has its reason on the wire: a whole ServerHello with exactly the offered suite, or, when nothing is selected, an alert before any whole message |
| TlsReader.RefusedIff | src/qureddy/scanners/tls/native_selector.py:120-146 | not selected and conclusive exactly when an alert comes, among the first eight records, before any whole message and before a deadline |
| TlsReader.SelectedIff | src/qureddy/scanners/tls/native_selector.py:120-146 | selected exactly when, among the first eight records, the first whole message is a ServerHello naming the suite |
| TlsReader.ObservedRefusalIff | src/qureddy/scanners/tls/native_selector.py:103-146 | on a socket: refused conclusively exactly when such an alert comes and nothing disturbed the reading |
| TlsReader.AlertIsRefusal | src/qureddy/scanners/tls/native_selector.py:128-129 | an alert record after fewer than eight handshake records without a whole message is a conclusive refusal, whatever follows |
| TlsReader.FatalAlertIsRefusal | src/qureddy/scanners/tls/native_selector.py:103-146 | the seven bytes of a fatal handshake_failure alert are a conclusive refusal, however the payload is chunked |
| TlsReader.SelectedIsServerHello | src/qureddy/scanners/tls/native_selector.py:88-146 | selected means that the collected bytes start with a ServerHello naming exactly the offered suite |
| TlsReader.OffersOneSuite | src/qureddy/scanners/tls/native_selector.py:68-85 | the hello parses as an offer of exactly one suite under the wanted version and name; when it cannot be built |
| TlsReader.SelectExcludedSuite | src/qureddy/scanners/tls/native_selector.py:149-174 | the hello goes out whole before anything is read; a raised call or a name too long to send is inconclusive or an error, and otherwise the verdict is that of the reading |
| TlsReader.ProbeExcludedSuites | src/qureddy/scanners/tls/native_selector.py:177-196 | the selected names in table order, incomplete exactly when some verdict is inconclusive |
| TlsReader.SweepReports | src/qureddy/scanners/tls/native_selector.py:58-63 | the four suites by wire number and name: each is reported exactly when selected, and the sweep is incomplete exactly when one verdict is inconclusive |
| SshReader.RecvN | src/qureddy/scanners/ssh/probe.py:133-144 | exactly n bytes in any chunking, or an error when the stream is shorter |
| SshReader.ReadBanner | src/qureddy/scanners/ssh/probe.py:147-166 | the byte-wise loop does what a scan of the stream says and consumes exactly the banner |
| SshReader.ReadPacketPayload | src/qureddy/scanners/ssh/probe.py:169-198 | exactly one packet is consumed and its framing checked in order |
| SshReader.ReadKexinitOffer | src/qureddy/scanners/ssh/probe.py:89-130 | the result is a function of the stream, for any chunking; the client banner goes out between the two reads, and an exception is reported exactly when a call raised, the sending included |
| SshRoundTrip.NamesInvertJoin | src/qureddy/scanners/ssh/probe.py:201-211 | splitting inverts joining for non-empty comma-free names, the empty list included |
| SshRoundTrip.NamelistsAreRead | src/qureddy/scanners/ssh/probe.py:201-211 | printed name lists are read back in sequence |
| SshRoundTrip.KexinitIsParsed | src/qureddy/scanners/ssh/probe.py:214-231 | a printed KEXINIT parses to its lists and unions |
| SshRoundTrip.ParsedIsKexinit | src/qureddy/scanners/ssh/probe.py:214-231 | whatever is accepted has the message number, a cookie and six lists, and their texts are what is reported |
| SshRoundTrip.PacketIsTaken | src/qureddy/scanners/ssh/probe.py:169-198 | a packet with any legal padding gives its payload and the bytes after it |
| SshRoundTrip.TakenIsPacket | src/qureddy/scanners/ssh/probe.py:169-198 | whatever is taken for a packet is one with legal padding, and exactly it is taken |
| SshRoundTrip.BannerIsFound | src/qureddy/scanners/ssh/probe.py:147-166 | lines before the banner are skipped and nothing after it is consumed |
| SshRoundTrip.FoundIsBanner | src/qureddy/scanners/ssh/probe.py:147-166 | whatever is found is a banner line after lines that are none, all within 8192 bytes |
| SshRoundTrip.BannerIff | src/qureddy/scanners/ssh/probe.py:147-166 | a line is a banner exactly when it starts with SSH- |
| SshRoundTrip.GreetingIsRead | src/qureddy/scanners/ssh/probe.py:89-130 | round trip of a whole greeting, leaving exactly the tail: the banner text, strict exactly when the server names kex-strict-s-v00@openssh.com, the host keys, both unions, and the key exchange names without the markers |
| SshRoundTrip.UnionIsFirstOccurrences | src/qureddy/scanners/ssh/probe.py:227-230 | the union of both directions has no duplicates, all names, and first-occurrence order |
| SshRoundTrip.RealKexStrikesOut | src/qureddy/scanners/ssh/probe.py:113-114 | of the key exchange names exactly the three markers are struck out, all others stay in order and as often |
| Enumeration.EnumerateCiphers | src/qureddy/scanners/tls/legacy_probe.py:288-327 | terminates against any server with the specified sweep, in at most one handshake more than accepted suites |
| Enumeration.AcceptedAreCandidates | src/qureddy/scanners/tls/legacy_probe.py:304-327 | against any server the accepted suites are candidates, none more often than listed |
| Enumeration.DistinctIffCandidatesAre | src/qureddy/scanners/tls/legacy_probe.py:304-327 | every server's accepted suites are distinct exactly when the candidates are |
| Enumeration.TimeoutKeepsPrefix | src/qureddy/scanners/tls/legacy_probe.py:320-322 | a timeout loses only the tail of the sweep and is reported |
| Enumeration.PreferenceIsEnumerated | src/qureddy/scanners/tls/legacy_probe.py:288-327 | against a server with a preference order the result is exactly its acceptable candidates in that order, complete |
| Enumeration.RunIsTraced | src/qureddy/scanners/tls/legacy_probe.py:304-327 | every handshake offers what is left and gives the next accepted suite; the last gives none, and the run is incomplete exactly when it timed out |
| Enumeration.ProbeLegacyProtocol | src/qureddy/scanners/tls/legacy_probe.py:242-285 | native suites are joined only after a usable complete sweep of a direct connection, without repetition |
| Enumeration.ResultIsSound | src/qureddy/scanners/tls/legacy_probe.py:267-339 | nothing is reported twice or out of nowhere, offered means accepted something, and a preference server is reported exactly |
| Enumeration.IncompleteIff | src/qureddy/scanners/tls/legacy_probe.py:242-285 | a result is incomplete exactly when the candidates are unknown, the last handshake timed out, or the native suites joined and their sweep was inconclusive |
| Enumeration.NativeJoins | src/qureddy/scanners/tls/legacy_probe.py:267-285 | the result is the accepted suites followed, exactly when the native sweep joins, by its new ones in order |
| Paths.PathForKey | src/qureddy/output/markdown.py:90-93 | a key never leaves a path empty, so the test for an empty prefix is a test for the top level |
| Paths.EscapeIs | src/qureddy/output/markdown.py:92 | printable ASCII stands for itself, quotes and backslashes behind a backslash, five control characters by their letter, all else by four small hexadecimal digits |
| Paths.UnitIsRead | src/qureddy/output/markdown.py:92 | each code unit's escape is read back, whatever follows |
| Paths.ComponentIsRead | src/qureddy/output/markdown.py:90-93 | a plain or quoted key is read back in UTF-16, whatever follows |
| Paths.PlainIff | src/qureddy/output/markdown.py:90-93 | a key is printed as it is exactly when it is made of ASCII letters, digits, _, $ and - and is not empty |
| Paths.PathIsRead | src/qureddy/output/markdown.py:74-93 | every printed path decodes to its keys and indexes |
| Paths.SamePathIff | src/qureddy/output/markdown.py:74-93 | two positions share a path exactly when their keys agree in UTF-16 and their indexes agree |
| Paths.PathInjective | src/qureddy/output/markdown.py:90-93 | distinct positions have distinct paths when no key spells a surrogate pair |
| Paths.SurrogatesCollide | src/qureddy/output/markdown.py:92 | two distinct keys with one path |
| Markdown.Stream.WriteValue | src/qureddy/output/markdown.py:74-87 | appends one line for each leaf and empty container in order; returns false exactly on a key that is no text |
| Markdown.Stream.WriteMapping | src/qureddy/output/markdown.py:96-102 | the same for the entries of a mapping |
| Markdown.TerminalIffLookup | src/qureddy/output/markdown.py:74-102 | a line is there exactly when looking its position up gives that leaf or empty container |
| Markdown.TerminalsDistinct | src/qureddy/output/markdown.py:74-102 | no position is printed twice |
| Markdown.TerminalsInOrder | src/qureddy/output/markdown.py:74-102 | lines come in document order: entries of a mapping and items of a sequence in theirs |
| Markdown.EveryLeafOnce | src/qureddy/output/markdown.py:74-102 | every leaf and empty container has one line and no other line has its path |
| Markdown.PathsDistinctIff | src/qureddy/output/markdown.py:74-102 | for any keys: all printed paths differ exactly when no two leaves or empty containers stand at positions that agree in UTF-16 |
| Markdown.DocumentIsRead | src/qureddy/output/markdown.py:74-102 | the written text decodes to the leaves with their paths and values, in order |
| Naming.AnnotationRefsDistinct | src/qureddy/output/cbom_metadata.py:323-328 | annotation references of different findings differ, whatever the rules are called |
| Naming.KindsOfRefs | src/qureddy/output/cbom_assets.py:37-48 | references of different kinds never meet |
| Naming.WalletKeyName | src/qureddy/output/cbom_public_key.py:79-123 | the wallet's key is always classified, under the name its material points at |
| Naming.KeyNamesAre | src/qureddy/output/cbom_public_key.py:79-123 | the name of a classified key: a post-quantum parameter set by itself, otherwise the family with its curve or else its size |
| ScanEvidence.StrongestIsMaximum | src/qureddy/output/cbom_assets.py:122-131 | the observation kept for a name is one of its own and none of its others outranks it |
| Sorting.SortedNamesOf | src/qureddy/output/cbom_assets.py:133 | names are emitted sorted by code point, each once |
| BomBuilder.Bom.CollectStrongest | src/qureddy/output/cbom_assets.py:122-131 | the collecting loop gives the strongest observation of every name and the names in order of appearance |
| BomBuilder.Bom.AddAlgorithmAssets | src/qureddy/output/cbom_assets.py:102-147 | one guarded algorithm per selected name with its strongest observation, and the name-to-reference map |
| BomBuilder.Bom.AddAlgorithmComponent | src/qureddy/output/cbom_assets.py:150-187 | the reference resolves afterwards; an existing component is left alone |
| BomBuilder.Bom.AddPublicKeyMaterial | src/qureddy/output/cbom_public_key.py:139-185 | idempotent by reference, with its provides edge |
| BomBuilder.Bom.AddPublicKeyComponent | src/qureddy/output/cbom_public_key.py:188-213 | the reference of a classified key, and no change for one that is not classified |
| BomBuilder.Bom.AddWalletSignatureComponents | src/qureddy/output/cbom_wallet.py:53-85 | signature algorithms, then the key's algorithm and one material per recovered key |
| BomBuilder.Bom.CollectSuites | src/qureddy/output/cbom_components.py:239-267 | every suite of a version once, with its own algorithm and the emitted groups seen with it |
| BomBuilder.Bom.AddProtocolComponents | src/qureddy/output/cbom_components.py:199-227 | one component per observed protocol and version, without a guard |
| BomBuilder.Bom.AddTlsHandshakeComponents | src/qureddy/output/cbom_tls_handshake.py:27-50 | signature and ephemeral key of each negotiation in id order |
| BomBuilder.Bom.AddHandshakeSignature | src/qureddy/output/cbom_tls_handshake.py:53-72 | the CertificateVerify signature, if recorded |
| BomBuilder.Bom.AddEphemeralKey | src/qureddy/output/cbom_tls_handshake.py:75-96 | the key's size under an emitted group, never its value |
| BomBuilder.Bom.AddCertificateComponent | src/qureddy/output/cbom_components.py:337-390 | subject key, signature, then the certificate pointing at both |
| BomBuilder.Bom.AddSshTransportComponents | src/qureddy/output/cbom_ssh.py:125-148 | ciphers, then MACs |
| BomBuilder.Bom.AddIkeTransportComponents | src/qureddy/output/cbom_ike.py:19-43 | ciphers, then PRFs and integrity, then groups |
| BomBuilder.Bom.AddObservedComponents | src/qureddy/output/cbom.py:148-184 | all emitters in order; an error exactly when more than one certificate was captured |
| Inventory.PutAllEffect | src/qureddy/output/cbom_assets.py:150-187 | the document holds a component under every requested reference, nothing unasked for, and the endpoint provides exactly its components |
| Inventory.GuardedKeepDistinct | src/qureddy/output/cbom_assets.py:171-172 | guarded additions never repeat a reference |
| Inventory.UnguardedDistinct | src/qureddy/output/cbom_components.py:206-227 | unguarded ones repeat a reference exactly when two of them share one |
| CbomDocument.Payload.PatchProvidesEdges | src/qureddy/output/cbom.py:362-367 | the endpoint's node gets the sorted set of edges, the others nothing |
| CbomDocument.Payload.PatchNativeCryptoFields | src/qureddy/output/cbom.py:391-420 | related assets repeat the certificate's references in order |
| CbomDocument.Payload.PatchTlsGroupFields | src/qureddy/output/cbom.py:423-454 | negotiated groups move from a TLS suite's algorithms to its native field |
| CbomDocument.TlsGroupsBySuite | src/qureddy/output/cbom.py:457-473 | the map holds exactly the suites with group evidence, each with its sorted set of groups |
| CbomDocument.Payload.AttachFindings | src/qureddy/output/cbom.py:245-257 | every annotation subject without a component is moved to the endpoint |
| CbomDocument.ValidIff | src/qureddy/output/cbom_semantics.py:57-75 | no fault means nothing declared twice, no generated reference, every reference resolved and no secret found |
| CbomDocument.FirstFault | src/qureddy/output/cbom_semantics.py:57-75 | which fault is reported when several are there |
| CbomDocument.ReferencesAre | src/qureddy/output/cbom_semantics.py:107-162 | what a document refers to: ends of dependencies, references inside components, subjects of annotations |
| CbomDocument.DeclarationsAre | src/qureddy/output/cbom_semantics.py:89-104 | what a document declares: endpoint, components, tools and annotations |
| CbomDocument.BuildPayload | src/qureddy/output/cbom.py:112-145 | returns the document of the scan if it is valid, the first fault if not, and an error on a second certificate |
| CbomSoundness.EmittersCover | src/qureddy/output/cbom_components.py:77-109 | together the emitters select exactly the names that positive evidence gives, legacy ciphers and specialised kinds included |
| CbomSoundness.AlgorithmInventory | src/qureddy/output/cbom.py:148-165 | the inventory holds an algorithm's reference exactly when evidence, a handshake, a recovered key or the certificate names it |
| CbomTheorem.GraphDistinctIff | src/qureddy/output/cbom_components.py:206-227 | references repeat exactly when two protocol versions share one |
| CbomTheorem.ToolsDistinctIff | src/qureddy/output/cbom.py:197-223 | tool references are distinct exactly when no usable dependency is called qureddy and equal names mean equal entries |
| CbomTheorem.DeclaredIff | src/qureddy/output/cbom_semantics.py:31-54 | nothing is declared twice exactly under those two conditions, and no generated reference appears |
| CbomTheorem.EndpointProvides | src/qureddy/output/cbom.py:362-367 | the endpoint provides every component and nothing else, sorted and each once; no other node provides anything |
| CbomTheorem.ReferencedIff | src/qureddy/output/cbom_semantics.py:107-162 | nothing dangles exactly when every listed legacy suite is named |
| CbomTheorem.UnnamedSuiteDangles | src/qureddy/output/cbom_components.py:239-267 | an unnamed legacy suite is referenced by its protocol version and resolved by nothing |
| CbomTheorem.BothFieldsSuffice | src/qureddy/scanners/tls/_legacy_findings.py:115-131 | evidence that names the suite in both fields meets the condition |
| CbomTheorem.BuilderSatisfiesValidator | src/qureddy/output/cbom.py:282-310 | the builder satisfies its validator exactly under the three conditions, when the text shows no secret |
| CbomContents.ProtocolComponentsAre | src/qureddy/output/cbom_components.py:199-267 | the protocol components of the document are exactly those of the protocols and versions that positive evidence shows |
| CbomContents.SuitesAre | src/qureddy/output/cbom_components.py:239-267 | the suites of a version are those positive evidence shows with it, sorted and each once, and each says what DocumentSuites states |
| CbomContents.DocumentSuites | src/qureddy/output/cbom.py:423-454 | in the finished document a group is listed by a TLS suite exactly when a positive negotiation shows that version, suite and group; groups are sorted and distinct; every reference the suite made is kept or is that of a listed group, never both |
| CbomContents.CertificateIs | src/qureddy/output/cbom_components.py:337-390 | the certificate component is that of the first captured certificate and points at its signature algorithm and key |
| CbomContents.AnnotationsSay | src/qureddy/output/cbom.py:245-257 | each finding has one annotation, on a component it is about if the document has it and on the endpoint only if not |
| CbomContents.ToolsAre | src/qureddy/output/cbom.py:197-223 | the tools are the scanner and the dependencies that were usable; a host path is told only where the document need not be reproducible |
| CbomContents.ObservationsAreStrongest | src/qureddy/output/cbom_assets.py:102-147 | each component shows an observation that evidence made of it and that no stronger evidence of its kind outranks |
| CbomOccurrences.RecordedIff | src/qureddy/output/cbom_metadata.py:202-234 | evidence is recorded exactly when one of the things it is about is the endpoint, the certificate of a scan that captured one, an algorithm that evidence names, or a protocol version that positive evidence shows |
| CbomOccurrences.RecordedWhen | src/qureddy/output/cbom_metadata.py:202-250 | the same on the fields of the evidence, case by case |
| CbomOccurrences.CapturedIsRecorded | src/qureddy/output/cbom_metadata.py:237-250 | captured certificate evidence is always recorded |
| CbomOccurrences.LeafInventory | src/qureddy/output/cbom_components.py:337-390 | the certificate component is there exactly when a certificate was captured |
| CbomOccurrences.ProtocolInventory | src/qureddy/output/cbom_components.py:206-236 | protocol components are exactly those of positive evidence |
| CbomOccurrences.AbsenceRecordedIff | src/qureddy/output/cbom_metadata.py:202-234 | evidence about nothing but a protocol version, a confirmed absence for one, is recorded exactly when positive evidence gives that version the same reference |
| CbomOccurrences.RefusalIsDropped | src/qureddy/scanners/tls/_legacy_findings.py:86-98 | a scan whose confirmed absence of TLS 1.0 is on no component of the document |
| CbomMaterials.FirstMaterialWins | src/qureddy/output/cbom_public_key.py:139-185 | of the materials asked for under one reference the first, and no other, is in the document |
| CbomMaterials.RecoveredKeyIff | src/qureddy/output/cbom_wallet.py:53-85 | a recovered key's value is in the document exactly when it is the first of the recovered keys with its first sixteen characters |
| CbomMaterials.OneKeyPerPrefix | src/qureddy/output/cbom_wallet.py:74-85 | of recovered keys that begin alike the first is shown and every other one is lost |
| CbomMaterials.KeyIsDescribed | src/qureddy/output/cbom_wallet.py:74-85 | a shown key has its name, size 256, the reference of its first sixteen characters, and points at EC-secp256k1 |
| CbomMaterials.EphemeralKeyIff | src/qureddy/output/cbom_tls_handshake.py:75-96 | a group and its ephemeral key size are in the document exactly when the first recorded negotiation by id whose group is the same in lower case has this group and this size |

## Left out

- Threads as operating-system objects, process launch and termination, clocks and deadlines: steps of a run or parameters.
- Capture.DrainPipe: does not model the other reader inside the loop; interleavings are the subject of the step relation (`Capture.Next`), whose reader steps are this loop's iterations.
- Capture.BoundedCapture.Wait: does not model the blocking; waking is a step of the run, possible at any time.
- Torn writes inside the private staging directory, and failures other than OSError during publication.
- JSON text and SHA-256 of manifests (function parameters), and the other checks of `scripts/validate_output_bundle.py`.
- Address parsing before and after the two decoders: `keccak`, Ethereum addresses, the chain indexer, and the human texts of rejections.
- Catalog receipts beyond the tests of their request: canonical JSON, and the digest computed from it.
- TLS handshakes through OpenSSL, IDNA encoding, and the regular expressions that read a negotiated cipher from a transcript; `Enumeration.Reply` is their result.
- SSH identity parsing of the banner text by regular expression.
- `_scalar` and `_safe_text`: a scalar is represented by its rendered line; `Markdown.DocumentIsRead` asks that it hold no line break.
- Section and record headings of the Markdown documents around `_write_mapping`.
- CbomDocument.Payload.PatchNativeCryptoFields: does not model the native spelling of an algorithm's curve, because components carry no curve; no reference depends on it.
- CbomDocument.Payload.AttachFindings: does not model the occurrences and verdict properties that the same function attaches; which evidence gets an occurrence is the subject of `CbomOccurrences.RecordedIff`.
- Components' classification properties (primitive, security level, curve), readiness and severity properties, certificate serial numbers and dates: they carry no references.
- The CycloneDX library: serialization is a node per component plus the endpoint (as in `tests/golden/cbom.golden:168-190`), equal components and equal tools merge as in its sorted sets, and the renaming of a repeated reference to a generated one is left out because the validator rejects either.
- The pattern search behind the validator's secret test, whose answer is a parameter, and the specVersion source: the document always carries 1.7.
- The text of annotations and occurrences.
- Classification tables, posture and rollup, the IKE parser and target parsing.
