# uefistored: a verified model

uefistored serves UEFI variables to a Xen guest. The guest writes a request into sixteen shared pages, the server
answers over it, and the variables live in a table of 128 slots. Writes to PK, KEK, db, dbx and dbt, and to any variable
with time-based authentication, carry a signed descriptor. What those variables hold decides whether the platform is in
setup mode or in user mode. This project models that service in Dafny and proves what it keeps over every run.

The model has two layers. The lower one has the shape of the C code: a table class with slots and counters, a service
class with the platform mode, a server class on the shared pages, an in-place list filter on an array, and loops over
length-prefixed records. The upper one is a function on a finite map from (name, GUID) to variables and one mode bit. Every
method of the lower layer is proved to compute the upper one, and the theorems about runs are proved on the upper one.

Files, from the bottom up:

- `Bytes`, `Uefi`, `Crypto`: little-endian fields, attributes, names, timestamps, and the signature library as a record of
  arbitrary functions.
- `SignatureLists`, `SignatureWalks`: signature lists as bytes and as values, and the loops over them.
- `Verdicts`, `Formats`, `Refusals`, `Acceptance`: what the verdicts on signatures, lists and headers mean, in terms of
  bytes and of the library alone, and which requests are accepted.
- `VariableMap`, `Storage`, `Enumeration`: writes as map updates, the slot table that implements them, and the cursor.
- `Codec`, `CodecBounds`, `Persistence`, `Throttle`: the saved variable list, when parsing it stays inside its buffer,
  saving and restoring, and the send throttle.
- `AuthSpec`, `AuthProofs`, `PlatformSteps`, `PlatformRuns`, `VariableHistory`, `SignedWrites`, `PlatformKey`,
  `MissingDigest`, `PreparedFiles`, `RestoredHistory`: the platform as a state machine, its invariant, and what holds over
  whole runs, starts and restarts.
- `DescriptorBounds`: where the code looks for a payload, in its own wrapping arithmetic.
- `AuthService`, `Wire`, `WireEnumeration`, `GuestAnswers`, `Server`: the imperative service, the request layouts,
  enumeration by a guest, what a guest reads, and the dispatcher.

## What is assumed

- `VerifiedHasDigest`: signed data that verifies has a signer digest. `MissingDigest` proves that all-or-nothing writes
  need exactly this, and shows an enrolment that breaks the mode invariant without it.
- `WellFormedName`: names have an even size from 2 to 254 bytes and no zero code unit, as the guest driver sends them.
- Allocation succeeds, and the shared pages do not change while a request is handled.

## Where the code differs from its comments or from the standard

The model follows the code in each case.

- `serialize_variable_list` is documented to return the number of variables printed. It returns zero when all of them
  are printed, and the number of those before the first one that does not fit otherwise.
- `storage_set_with_timestamp` loses the status of the write: when the variable exists afterwards it stores the timestamp
  and reports success, even if the write was refused. A reported success hides a refused write exactly when there is
  something to add and the attributes differ or an append does not fit (`StoredIff`, with an input in
  `SuccessWithoutWrite`).
- `DeployedMode` is 1 in setup mode and 0 in user mode.
- Append writes are not compared with the stored timestamp, and replace it whenever they have something to add. The
  timestamp then goes back exactly when theirs is earlier (`TimestampBackIff`, with an input in `AppendMovesBack`), and
  the descriptor that wrote the variable before is fresh again (`FreshAgainIff`).
- `storage_iter` never yields the variable in the last slot, so a non-volatile variable there is not saved. The
  round trip of saving and restoring holds if and only if there is none.
- `verify_kek` does not move past a certificate that fails to parse, so the entries behind it in the same list are
  never tried. The verdict is the expected one when all entries parse.
- The throttle adds a signed time difference to an unsigned credit. A clock that is set back refills the bucket. The rate
  limit holds for every stretch of calls whose readings do not go back.
- An unknown command is left without an answer.
- A comment in `process_variable` speaks of physical presence. The code deletes a private authenticated variable on any
  bare descriptor with the variable's own attributes, and does not verify it. Every other change of a living variable
  is signed by its recorded signer.
- The format check counts the entries of a payload. An append to PK is stored behind the old data, so PK keeps at most
  one entry exactly unless both have one.
- Restored variables have no timestamp and no recorded signer, because `variable_copy` drops both. The timestamp rule
  and the signer of a private variable do not carry over a restart.
- A name with a zero code unit behind it is looked up with it and stored without it. Keys stay unique exactly when the
  shorter key was not stored.
- The size of a descriptor is subtracted from the size of its data without a comparison, and the difference wraps. The
  payload lies inside the data exactly when the descriptor fits (on verified routes, and covers its own header).
- The parser of a saved list compares no size before it reads. It stays inside the buffer exactly when every record it
  comes to is whole or refused from its lengths (`WalkInsideIff`); a printed variable cut short anywhere is read beyond
  the buffer (`CutRecordIsLeft`).
- A deleted variable leaves no timestamp behind. The request that created a private variable is accepted again after
  its deletion exactly when there is a free slot (`CreatedAgainIff`).

## Model

| member | source | states |
|---|---|---|
| PlatformRuns.ModeFollowsPlatformKey | src/uefi/authlib.c:170-217 | after a successful initialisation and after every run of requests, the platform is in user mode exactly when PK is stored, and the SetupMode, SecureBoot (host flag in user mode, 0 in setup mode) and DeployedMode bytes agree with the mode |
| PlatformRuns.ChainOfAuthority | src/uefi/auth.c:1221-1473 | in any run, when a request handled in user mode changes PK or KEK, its signer's own certificate is the one at the front of the PK stored before it (its first entry, if the first list has one) and the library verifies its signed data under it over the bytes of the request; when it changes db, dbx or dbt, that holds, or some X.509 entry of the KEK stored before it verifies them |
| PlatformRuns.RunKeepsInv | src/xen_variable_server.c:303-361 | the platform invariant (valid table, well-formed databases, mode, mirrors) holds after every prefix of every run |
| PlatformRuns.StepAuthority | src/uefi/authlib.c:244-279 | the one-request form of the chain of authority, with the db route that tries PK and then KEK |
| Verdicts.VerdictIff | src/uefi/auth.c:1221-1389 | an authenticated write passes if and only if its fixed part, byte by byte, its digest algorithm, its signature by the authority asked, spelled out on the library alone, and its format are right |
| Verdicts.FailedVerdict | src/uefi/auth.c:1221-1389 | a write that does not pass is a security violation, unless only its format is wrong |
| Verdicts.PkVerdictIff | src/uefi/auth.c:1049-1115 | PK verifies if and only if the signed data parses, its top certificate is the one at the front of the stored PK, and it verifies under it |
| Verdicts.PkVerdictOnEntry | src/uefi/auth.c:181-199 | the same on the first entry of the parsed PK |
| Verdicts.KekVerdictIff | src/uefi/auth.c:1117-1201 | KEK verifies if and only if some X.509 entry that the walk comes to verifies the signed data |
| Verdicts.DescriptorLayout | src/uefi/auth.c:1267-1312 | where timestamp, length field, signed data and payload of a whole descriptor lie |
| Verdicts.BlobLayout | src/uefi/auth.c:1320-1346 | what is signed, field by field: name, GUID, attributes, timestamp and payload at their offsets, and nothing else |
| Verdicts.BlobDeterminesRequest | src/uefi/auth.c:1320-1346 | requests for the same variable that are signed as the same bytes agree in attributes, timestamp and payload |
| Verdicts.NoAlteredRequest | src/uefi/auth.c:1320-1376 | when the library verifies signatures over one blob only, all requests for a variable that ever pass, in any store and by any authority, have the same attributes, timestamp and payload |
| Acceptance.AcceptedIff | src/uefi/authlib.c:244-279 | an authenticated write with a payload, a well-formed header and a slot is accepted if and only if it passes what its key asks for in its mode: the stored PK for PK and KEK, that or KEK for db, dbx and dbt, in setup mode its own certificate for PK and the format for the databases, the recorded signer for all others |
| Acceptance.KeyDeletion | src/uefi/auth.c:1551-1567 | a bare descriptor signed by the stored PK removes it and returns the platform to setup mode |
| Formats.FormatIff | src/uefi/auth.c:613-724 | what passes the format check parses into lists of supported types and sizes with an RSA certificate in front of every X.509 list, and one entry in all for PK; such lists pass if every X.509 list has an entry; everything else is an invalid parameter |
| Formats.SupportedIff | src/uefi/auth.c:57-71 | the supported types with their entry sizes, spelled out |
| Refusals.HeaderRefusals | src/xen_variable_server.c:303-342 | which requests are turned down from name and attribute masks, in order, with their status, and that nothing changes |
| Refusals.DatabaseAttributes | src/uefi/auth.c:1501-1509 | PK, KEK, db, dbx and dbt must be non-volatile and time-based |
| Refusals.AttributeMasks | src/storage.c:192-203 | each attribute is its bit of the attribute word, and clearing APPEND takes 0x40 away |
| Refusals.PlainSuccessIff | src/storage.c:177-253 | exactly when a plain write succeeds: sizes, presence, equal attributes, room |
| Refusals.PlainFailure | src/storage.c:177-253 | the status of a plain write that fails, and that it changes nothing |
| PlatformRuns.StepFrame | src/xen_variable_server.c:303-361 | a request changes no variable but the one it names and the mirrors |
| PlatformSteps.StepKeepsInv | src/xen_variable_server.c:303-361 | one request keeps the invariant, and a request answered with anything but success changes nothing at all |
| PlatformSteps.PkRoute | src/uefi/auth.c:1492-1570 | enrolling or deleting PK changes mode, mirrors and PK together, or nothing |
| PlatformSteps.OtherRoutes | src/uefi/authlib.c:244-279 | every route but PK's changes only the variable it names, not the mode, keeps the databases well formed, and is all or nothing |
| PlatformSteps.ModeSettles | src/uefi/auth.c:558-599 | once the mirrors exist, switching the mode cannot fail and leaves mirrors that agree with the new mode |
| PlatformSteps.LoadKeeps | src/uefi/authlib.c:126-161 | loading prepared files keeps the table and databases well formed and the mirrors in agreement, although a restored PK may still sit in setup mode |
| PlatformSteps.InitialiseEstablishesInv | src/uefi/authlib.c:170-217 | a successful initialisation of any valid restored table establishes the invariant |
| PreparedFiles.FilesAreLoaded | src/uefi/authlib.c:126-161 | when start-up succeeds, every prepared file with data whose variable was not stored in its turn was processed with success; if that left the variable stored, it has the file's payload, attributes and timestamp when start-up is over |
| PreparedFiles.LoadIff | src/uefi/authlib.c:126-161 | loading succeeds if and only if every file in its turn is passed over or processed with success, and has then taken every turn |
| PreparedFiles.FirstStartWithKey | src/uefi/authlib.c:170-217 | a first start with a platform key file that passes against its own certificate succeeds and ends in user mode with that key stored |
| PreparedFiles.FirstStartWithDatabase | src/uefi/authlib.c:170-217 | a first start with a db file of acceptable format succeeds and ends in setup mode with that db stored |
| PreparedFiles.StartWrites | src/uefi/authlib.c:178-216 | start-up leaves SignatureSupport with the four supported types and AuditMode with zero |
| AuthProofs.VerifyAndUpdateFrame | src/uefi/auth.c:1411-1473 | a verified write touches one key, keeps the map valid, and with a signer digest is all or nothing |
| AuthProofs.VerifyAndUpdateForm | src/uefi/auth.c:1378-1382 | a verified write keeps every stored database a sequence of whole supported lists, appends included |
| AuthProofs.UnverifiedFrame | src/uefi/auth.c:1522-1539 | so does a write in setup mode that is not verified, and it too is all or nothing |
| AuthProofs.ModeFrame | src/uefi/auth.c:558-599 | switching the mode touches only the three mirrors |
| AuthProofs.Routes | src/uefi/authlib.c:244-279 | for well-formed names, choosing a route by zero-terminated comparison is the same as comparing keys |
| MissingDigest.AllOrNothingIffDigest | src/uefi/auth.c:1446-1466 | a verified replacing write is all or nothing if and only if its descriptor has a signer digest |
| MissingDigest.UndigestedEnrolment | src/uefi/auth.c:922-970 | a concrete enrolment without a digest is answered with a security violation and still stores a PK while the mode stays setup |
| VariableHistory.OwnerNeverChanges | src/uefi/auth.c:972-1047 | while a private variable lives, its recorded signer digest and its attributes never change, over every mix of authenticated and plain writes |
| VariableHistory.CreatedBySigner | src/uefi/auth.c:1454-1466 | a private authenticated variable comes into being only by signed data that the library verifies under its own top certificate over the bytes of the request, and with the digest of that signer |
| VariableHistory.PlainWriteOnAuthenticated | src/uefi/auth.c:1708-1759 | a plain write to an authenticated private variable fails without effect or deletes it |
| VariableHistory.PrivateAuthority | src/uefi/auth.c:972-1047 | over whole runs, when a request changes a living authenticated private variable and leaves it stored, the library verifies its signed data under its own top certificate over the bytes of the request, and its digest is the recorded one |
| VariableHistory.ChangeIsSigned | src/uefi/auth.c:1708-1759 | the one-request form of that |
| VariableHistory.PrivateDeletionIff | src/uefi/auth.c:1651-1682 | an authenticated private variable is deleted exactly by a request that passes the header checks and is a bare descriptor with its attributes (not verified), a verified empty payload, or a plain delete |
| PlatformKey.OneEntryIff | src/uefi/auth.c:718-720 | a stored PK of at most one entry has more than one after a successful request exactly when an append with one entry is stored behind an old one with one entry |
| PlatformKey.AcceptedEntries | src/uefi/auth.c:718-720 | the format check lets at most one entry through for PK |
| VariableHistory.TimestampGrows | src/uefi/auth.c:1252-1259 | the timestamp of a variable written only by verified writes that are no appends never goes back in a run |
| SignedWrites.NoReplay | src/uefi/auth.c:1252-1259 | after any accepted authenticated write with something new, the one that creates the variable included, every verified replacing write accepted later carries a strictly later timestamp, as long as the variable stays stored and only such writes are made to it; so no descriptor is accepted twice |
| SignedWrites.SuccessTimestamp | src/uefi/auth.c:488-527 | a success leaves the descriptor's timestamp, unless an append had nothing to add |
| SignedWrites.CreatedAgainIff | src/uefi/auth.c:972-1047 | once a private variable is gone, the request that created it is accepted again if and only if there is a free slot, and creates the same variable with the same signer |
| SignedWrites.SuccessStores | src/storage.c:255-282 | what every authenticated request answered with success has stored, on every route and in both modes: a new variable holds the payload; nothing changes when there is nothing to add; only the timestamp moves when the attributes differ or an append does not fit; otherwise the data is replaced, or extended by what is new |
| SignedWrites.StoredIff | src/storage.c:266-276 | a reported success means that the data asked for is there if and only if the write landed, had nothing to add, or asked for the old data |
| SignedWrites.SuccessWithoutWrite | src/storage.c:266-276 | whatever the signature library, a write of one SHA-256 entry to a KEK stored with other attributes is answered with success, keeps the old keys and moves only the timestamp |
| SignedWrites.SuccessIsUpdate | src/uefi/authlib.c:244-279 | such a request is one update of its variable, whichever route it took |
| SignedWrites.TimestampBackIff | src/uefi/auth.c:1252-1259 | a successful authenticated write moves a stored timestamp back if and only if it has something to add, is earlier, and is an append or a database write in setup mode |
| SignedWrites.FreshAgainIff | src/uefi/auth.c:1252-1259 | after an append the descriptor that wrote the variable is fresh again if and only if the append had something to add and an earlier timestamp |
| SignedWrites.AppendMovesBack | src/uefi/auth.c:519-527 | whatever the signature library, an append of one SHA-256 entry with a zero timestamp to a KEK that lacks it sets the stored timestamp to zero, however late it was |
| SignedWrites.HashPayloadIsAccepted | src/uefi/auth.c:613-724 | the format check accepts that entry for KEK, whatever the library |
| VariableMap.HiddenRefusalIff | src/storage.c:266-276 | over a stored variable the write with a timestamp always reports success, and was refused if and only if the attributes differ or an append does not fit |
| VariableHistory.VerifiedWriteIsLater | src/uefi/auth.c:1426-1452 | a successful verified write that is no append leaves the descriptor's timestamp, strictly later than the stored one |
| VariableHistory.AppendIsIdempotent | src/uefi/auth.c:488-527 | an append to KEK, db, dbx or dbt that was answered with success is, when repeated, answered with success and leaves the whole platform as it is |
| VariableHistory.AppendSettles | src/uefi/auth.c:488-527 | the same for the update alone, whether the append was stored, had nothing new, or was refused behind a reported success |
| Uefi.NotLaterIsRankOrder | src/uefi/auth.c:735-750 | the timestamp comparison is the order of a rank built from the six date and time fields, most significant first, so it is total and transitive |
| SignatureLists.ParsePrint | src/uefi/auth.c:344-404 | parsing printed signature lists gives the lists back |
| SignatureLists.PrintParse | src/uefi/auth.c:344-404 | printing the parse of a complete buffer gives the buffer back, and the parsed lists are whole |
| SignatureLists.CompleteIffPrinted | src/uefi/auth.c:344-404 | a buffer can be walked to its end exactly when it is the print of some whole lists |
| SignatureLists.ParseConcat | src/uefi/auth.c:488-527 | the parse of a concatenation is the concatenation of the parses |
| SignatureLists.FilterIsDifference | src/uefi/auth.c:344-404 | filtering lists is the difference of their entries by type, size and bytes, in order; no empty list is left and nothing grows |
| SignatureLists.FilterBytesMeaning | src/uefi/auth.c:299-431 | the filtered bytes parse to exactly the new lists without the entries that occur in the old data, with correct size fields, and are never longer than the input |
| Formats.FilterIff | src/uefi/auth.c:299-431 | an entry is left by the filter if and only if it was sent and no stored list of the same type and entry size holds the same bytes; no empty list is left and nothing grows |
| SignatureLists.FilterKnown | src/uefi/auth.c:299-431 | filtering away lists whose entries are all stored leaves nothing |
| SignatureLists.FilterIdempotent | src/uefi/auth.c:299-431 | after appending what the filter leaves, filtering the same data again leaves nothing |
| SignatureWalks.FilterSignatureList | src/uefi/auth.c:299-431 | run in place on a stretch of an array, the filter leaves the filtered bytes there and every byte outside them as it was |
| SignatureWalks.FilterInto | src/uefi/auth.c:319-431 | the walk over the incoming records yields the filtered bytes and never needs more room than the input |
| SignatureWalks.FilterOneList | src/uefi/auth.c:335-420 | one record yields its header with the size field corrected and its new entries, or nothing |
| SignatureWalks.CopyFreshEntries | src/uefi/auth.c:343-404 | the entries copied from one record are exactly those not stored, in order |
| SignatureWalks.EntryStored | src/uefi/auth.c:345-378 | an entry is found in the stored data exactly when it occurs in some record of its type and size |
| SignatureWalks.CheckSignatureListFormat | src/uefi/auth.c:613-724 | terminates and accepts exactly the acceptable buffers for PK, KEK, db, dbx and dbt, and every buffer whatever its bytes for other keys |
| SignatureWalks.CheckRecord | src/uefi/auth.c:656-708 | one record passes exactly when it is complete, of a supported type and entry size, and an X.509 record starts with an RSA certificate |
| SignatureWalks.FindTypeRow | src/uefi/auth.c:57-71 | the first row of the table of supported types that matches |
| SignatureWalks.WellFormedIffPrinted | src/uefi/auth.c:613-724 | a buffer is well formed exactly when it is the print of whole supported lists |
| SignatureWalks.WellFormedConcat | src/uefi/auth.c:613-724 | well-formed buffers appended to each other stay well formed |
| SignatureWalks.WellFormedFilter | src/uefi/auth.c:299-431 | filtering keeps a well-formed buffer well formed |
| SignatureWalks.VerifyKekLists | src/uefi/auth.c:1117-1201 | the double walk over the stored KEK terminates and finds exactly the entries that can be reached |
| SignatureWalks.VerifyList | src/uefi/auth.c:1152-1189 | the walk over one record, where an entry that does not parse is tried again and again |
| SignatureWalks.KekVerdict | src/uefi/auth.c:1117-1201 | KEK verifies exactly when some entry of some X.509 list verifies and every entry of that list up to it parses |
| SignatureWalks.KekVerdictWhenAllParse | src/uefi/auth.c:1117-1201 | when all X.509 entries parse, KEK verifies exactly when some entry of some X.509 list verifies the descriptor |
| SignatureWalks.UnparsableEntryHides | src/uefi/auth.c:1169-1172 | behind a first entry that parses, an entry that does not parse hides a good one behind it, and not one in front of it |
| AuthService.Service.UpdateVariable | src/uefi/auth.c:488-527 | writes or appends a payload that lies in the request buffer, filtering it there first, as the specification says; a failure leaves table and buffer alone |
| AuthService.Service.VerifyPk | src/uefi/auth.c:1049-1115 | true exactly when the signed data parses, its top certificate is the one at the front of the stored PK, and the library verifies the blob under it |
| AuthService.Service.VerifyKek | src/uefi/auth.c:1117-1201 | true exactly when an entry that can be reached in the stored KEK verifies the signed blob |
| AuthService.Service.VerifySigner | src/uefi/auth.c:972-1047 | true exactly when the signed data parses and verifies the blob under its own top certificate, and its digest is the recorded one |
| AuthService.Service.VerifyAgainst | src/uefi/auth.c:1348-1361 | chooses among PK, KEK, the recorded signer and the payload's own certificate |
| AuthService.Service.VerifyBody | src/uefi/auth.c:1267-1389 | the checks behind the fixed part of the descriptor |
| AuthService.HeaderVerdict | src/uefi/auth.c:1241-1265 | a descriptor whose fixed part is refused, whole or not, is a security violation on every verified route |
| AuthService.Service.VerifyTimeBasedPayload | src/uefi/auth.c:1221-1389 | all checks of a time-based write, in order, with the status of the first that fails |
| AuthService.Service.VerifyAndUpdateVariable | src/uefi/auth.c:1411-1473 | verifies, updates and records the signer as specified; with signer digests a failure leaves slots, counters and the request buffer as they were |
| AuthService.Service.UpdatePlatformMode | src/uefi/auth.c:558-599 | sets the mode and rewrites the three mirrors in order, stopping at the first failure |
| AuthService.Service.UpdateWithoutVerification | src/uefi/auth.c:1522-1539 | the setup-mode write of a database: format check, then update |
| AuthService.Service.ProcessVarWithPk | src/uefi/auth.c:1492-1570 | the PK route in both modes; a failure leaves slots, counters, mode and buffer as they were |
| AuthService.Service.ProcessVarWithKek | src/uefi/auth.c:1595-1637 | the KEK route in both modes; a failure leaves the table as it was |
| AuthService.Service.ProcessPrivate | src/uefi/auth.c:1708-1759 | private variables: deletion, verified write or plain write, as specified |
| AuthService.Service.Process | src/uefi/authlib.c:244-279 | the dispatch by name, with the second attempt of the db route on an unchanged buffer |
| AuthService.Service.HandleSetVariable | src/xen_variable_server.c:303-361 | refines the specification, keeps the invariant, and leaves every slot, both counters and the mode as they were unless it answers success |
| AuthService.Service.LoadFiles | src/uefi/authlib.c:126-161 | loads the prepared writes whose variables are not stored, in order, up to the first failure; succeeds exactly when every turn does |
| AuthService.Service.InitialiseService | src/uefi/authlib.c:170-217 | refines the specified start-up, and establishes the invariant when it succeeds |
| Storage.VariableTable.constructor | src/storage.c:21-23 | an empty table of 128 free slots with both counters at zero |
| Storage.VariableTable.Find | src/storage.c:98-112 | finds the slot of a key exactly when the map has it |
| Storage.VariableTable.Remove | src/storage.c:150-175 | frees the slot of a key, and no other, and takes it from map and counters, or reports not-found and changes nothing |
| Storage.VariableTable.Set | src/storage.c:177-253 | refines the map write: replace, append or delete in its slot, or create in the first free one, every other slot unchanged; a failure leaves slots and counters as they were |
| Storage.VariableTable.SetWithTimestamp | src/storage.c:255-282 | refines the map write with a timestamp, in one slot |
| Storage.VariableTable.SetCert | src/uefi/auth.c:1454-1466 | records a signer digest in one slot and changes nothing else |
| Storage.VariableTable.UsedIsSmall | src/xen_variable_server.c:238-240 | the storage used is 33024 bytes for each stored variable and always leaves room for another, so the remaining storage cannot underflow and the capacity check never fires |
| Storage.VariableTable.NextVariable | src/storage.c:289-348 | the slot behind a name, in slot order, among the variables visible in the current phase |
| Storage.VariableTable.Iter | src/storage.c:116-148 | the next occupied slot but the last one of the table, then not-found with the cursor back at the first slot |
| Storage.WriteSlot | src/storage.c:177-253 | writing one slot of a well-formed table is one map update, and the table stays well formed |
| Storage.FreeSlot | src/storage.c:150-175 | freeing one slot is one map removal, and the table stays well formed |
| Storage.CountIsSize | src/storage.c:150-253 | the number of occupied slots is the size of the map, because no key is held twice |
| VariableMap.SetVarFrame | src/storage.c:177-253 | a write touches no other key, keeps the map valid (sizes, no APPEND stored, at most 128 variables) and changes nothing unless it succeeds |
| VariableMap.SetVarWithTimestampFrame | src/storage.c:255-282 | the same for writes with a timestamp: one key, a valid map, and no change unless success is reported |
| Storage.FoundAgainIff | src/variable.c:77-86 | a variable written into a free slot because its name was not found is found by the next search exactly when the name does not end in a zero code unit, and the table keeps unique keys exactly when the key it is stored under was not stored |
| Storage.TrailingNulMisses | src/storage.c:204-246 | in every well-formed table the search for a name with a zero code unit behind it misses, and the variable lies under the key without it |
| AuthProofs.TrailingNulIsPlain | src/uefi/utils.c:8-30 | such a name counts neither as a secure-boot variable nor as a read-only one |
| Uefi.ClearedBits | src/storage.c:177-253 | clearing the APPEND bit clears that bit and no other |
| Enumeration.EnumerationIsComplete | src/storage.c:289-348 | starting from the empty name and feeding each answer back, GetNextVariableName visits every visible variable exactly once, in slot order, within 129 calls |
| WireEnumeration.GuestEnumerates | src/xen_variable_server.c:397-435 | the same through the shared pages: with a buffer of at least 256 bytes every answer is a success that names the next variable, then not-found |
| WireEnumeration.NextRequestRoundTrip | src/xen_variable_server.c:363-387 | the server reads back the GetNextVariableName request a guest wrote |
| WireEnumeration.AnswerRoundTrip | src/xen_variable_server.c:397-435 | the guest reads back name and GUID from the answer |
| Codec.ListRoundTrip | src/serializer.c:340-414 | parsing a printed variable list gives the same variables and count |
| Codec.ListReprint | src/variable.c:346-373 | reprinting an accepted buffer gives the same bytes if and only if its header is canonical and none of its names ends in a zero code unit |
| Codec.RawRoundTrip | src/serializer.c:246-292 | parsing one printed variable gives it back and consumes exactly its bytes |
| Codec.RawReprint | src/serializer.c:246-292 | printing one parsed variable gives back the bytes consumed |
| Codec.ListSize | src/xapi.c:334-344 | is the exact length of the printed list |
| Codec.PayloadSize | src/serializer.c:358-368 | is the exact length of the printed variables |
| Codec.SerializeVariableList | src/serializer.c:371-414 | prints the header and exactly the leading variables that fit; all of them, with code zero, when the buffer holds them |
| Codec.AllFitIff | src/serializer.c:390-414 | all variables fit exactly when their printed length does |
| CodecBounds.VariableLayout | src/serializer.c:340-356 | where the fields of a printed variable lie |
| CodecBounds.ListLayout | src/serializer.c:371-383 | where the fields of the list header lie, with their constants |
| CodecBounds.TimeRankBytes | src/serializer.c:294-313 | the order of timestamps on their bytes: year, month, day, hour, minute, second |
| CodecBounds.RecordInsideIff | src/serializer.c:246-292 | one record is read inside the buffer if and only if it is parsed or refused from its lengths |
| CodecBounds.WalkInsideIff | src/variable.c:357-361 | the walk over the records stays inside the buffer if and only if all are parsed, or the first that is not is refused from its lengths |
| CodecBounds.AcceptedIsInside | src/variable.c:346-373 | an accepted buffer is never left |
| CodecBounds.CutRecordIsLeft | src/serializer.c:246-292 | a printed variable cut short anywhere is read beyond the buffer |
| Codec.UnserializeVars | src/variable.c:346-373 | parses a given number of variables one after the other, or fails with the first that does not parse |
| Codec.FromBytesToVars | src/variable.c:346-373 | the variables of a buffer that is exactly a list with a count in range, and an error for every other buffer |
| Uefi.TimeRoundTrip | src/serializer.c:294-331 | parsing a printed timestamp gives it back |
| Uefi.TimeReprint | src/serializer.c:294-331 | printing a parsed timestamp gives its bytes back |
| Persistence.RetrieveNonvolatile | src/xapi.c:351-384 | the non-volatile variables of all slots but the last, in slot order, with the cursor back at the first slot |
| Persistence.VariableListBytes | src/xapi.c:434-473 | the printed list of those variables in a buffer of exactly its size, or nothing when there are none |
| Persistence.Restore | src/xapi.c:1248-1269 | restores variables in order, up to the first failure |
| Persistence.RestoreStores | src/xapi.c:1248-1269 | restoring any list of distinct variables into a table with room succeeds, stores each as listed, with the timestamp of the authenticated ones and no signer, and leaves what was there |
| Persistence.RestoreInTurn | src/xapi.c:1248-1269 | restoring succeeds when every write in its turn does, and otherwise ends with the first that does not |
| Persistence.RestoreFromBytes | src/xapi.c:1218-1277 | restores what a buffer parses to, and leaves the table alone when it is no list |
| Persistence.RestoreSaved | src/xapi.c:1248-1269 | from a list saved before, parsing succeeds, the assertion on every restoring write holds, and the non-volatile variables are back |
| Persistence.SaveThenRestore | src/xapi.c:351-384 | saving, printing, parsing and restoring into an empty table succeeds, and reproduces name, GUID, data and attributes of the non-volatile variables if and only if the last slot holds none of them |
| RestoredHistory.RestoredIsCopy | src/variable.c:248-280 | after a save and restore every variable has its data and attributes, and neither timestamp nor signer |
| RestoredHistory.RestoredIsFresh | src/uefi/auth.c:1252-1259 | the descriptor that wrote a variable is too old for it before the restart, and fresh again after it exactly when its timestamp is not zero |
| RestoredHistory.RestoredSignerIff | src/uefi/auth.c:972-1047 | signed data of the recorded signer still verifies for the restored variable exactly when the recorded digest was zero |
| RestoredHistory.RestoredIff | src/storage.c:138-141 | a variable is restored if and only if it is non-volatile and does not lie in the last slot |
| RestoredHistory.ModeAfterRestart | src/uefi/authlib.c:170-217 | after a successful restart without prepared files the invariant holds, and the mode is user mode if and only if a non-volatile PK was stored outside the last slot |
| RestoredHistory.FirstStart | src/uefi/authlib.c:170-217 | the first start on an empty store succeeds and leaves the platform in setup mode |
| Throttle.Throttle.Send | src/xapi.c:606-626 | refills, caps and spends the credit, which stays below its cap afterwards |
| Throttle.RateLimit | src/xapi.c:599-626 | whatever came before, in a stretch of calls whose clock readings do not go back at most 100 + 2 (t2 - t1) sends go through without a sleep, wrap-around of the credit included |
| Throttle.EarnedIff | src/xapi.c:610-617 | a refill gives no more than was saved and earned if and only if the sum is not below zero or wraps to zero |
| Throttle.RefillIs | src/xapi.c:610-617 | a forward clock earns two credits a second up to the cap of 100 |
| Throttle.BurstIsExact | src/xapi.c:619-620 | calls at the time of the last one go through without a sleep while there is credit |
| Throttle.FullAfterIdle | src/xapi.c:610-620 | after fifty idle seconds a hundred sends go through at once |
| Throttle.EmptyBucketSleeps | src/xapi.c:621-626 | with an empty bucket and no second gone by a call sleeps, and the time after the sleep is kept |
| Throttle.ClockSetBackRefills | src/xapi.c:610-617 | a clock set back by one second fills an empty bucket |
| DescriptorBounds.UnverifiedInsideIff | src/uefi/auth.c:1522-1523 | without verification the payload pointer and wrapped size lie inside the data exactly when the descriptor is no longer than the data, and then delimit what follows it; the size is zero exactly for a bare descriptor |
| DescriptorBounds.VerifiedInsideIff | src/uefi/auth.c:1267-1312 | with verification the wrapped sizes of signed data and payload stay inside the data exactly when the descriptor also covers its header, and then delimit the specified parts |
| DescriptorBounds.WrappedSizes | src/uefi/auth.c:1522-1523 | concrete data on which either condition fails, with the wrapped sizes |
| Wire.SetRequestRoundTrip | src/xen_variable_server.c:249-277 | the server reads back the SetVariable request a guest wrote, whatever else is in the shared pages |
| Wire.GetRequestRoundTrip | src/xen_variable_server.c:88-115 | the same for GetVariable |
| Wire.SetLayout | src/xen_variable_server.c:249-277 | where the fields of a SetVariable request lie, and when it is unreadable |
| Wire.GetLayouts | src/xen_variable_server.c:88-115 | the same for GetVariable and GetNextVariableName |
| GuestAnswers.GuestReads | src/xen_variable_server.c:126-202 | what a guest reads in answer to GetVariable: code, attributes, size and data at their places exactly when the variable is stored, visible and no larger than its buffer; the size needed exactly when the buffer is smaller; not-found exactly when there is none to be seen |
| GuestAnswers.WriteThenRead | src/xen_variable_server.c:303-361 | after a successful plain write a guest reads exactly the bytes written, behind the old ones for an append, with APPEND cleared, and not-found after a delete; every other key, and every key after a refusal, reads as before |
| GuestAnswers.SignedWriteThenRead | src/xen_variable_server.c:303-361 | the same for authenticated writes, with the content of `SuccessStores` |
| GuestAnswers.GuestQueries | src/xen_variable_server.c:204-247 | what a guest reads in answer to QueryVariableInfo: total, remaining and largest size at their places, 33024 bytes taken for each stored variable |
| GuestAnswers.GuestReadsNext | src/xen_variable_server.c:397-435 | what a guest reads in answer to GetNextVariableName, for every size of its buffer |
| GuestAnswers.NextAfter | src/storage.c:289-348 | which variable follows a name: the first visible one behind its slot, the first of all behind the empty name, none behind a name that is not stored |
| GuestAnswers.StatusCodes | src/serializer.c:107-114 | the code each status is sent as |
| Wire.ParseIsLocal | src/xen_variable_server.c:249-277 | parsing any request depends on its first 33069 bytes only |
| Wire.AnswersFit | src/xen_variable_server.c:160-202 | answers to GetVariable and GetNextVariableName take at most 32788 bytes |
| Server.Server.HandleGetVariable | src/xen_variable_server.c:160-202 | writes exactly the reply to the parsed request over the front of the pages and nothing behind it |
| Server.Server.HandleGetNextVariable | src/xen_variable_server.c:397-435 | the same for GetNextVariableName; its two assertions hold |
| Server.Server.HandleQueryVariableInfo | src/xen_variable_server.c:204-247 | the same for QueryVariableInfo |
| Server.Server.HandleSetVariable | src/xen_variable_server.c:303-361 | the same for SetVariable; the platform afterwards is the specified one, and its assertion holds |
| Server.Server.HandleRequest | src/xen_variable_server.c:437-484 | writes exactly the reply, at most 32788 bytes, and leaves the rest of the pages; the invariant is kept, and the platform is the specified one: changed only by a SetVariable request of the right version |
| Server.ReplyFits | src/xen_variable_server.c:437-484 | whatever sixteen pages hold, the reply to them takes at most 32788 bytes |
| Server.OtherReplies | src/xen_variable_server.c:437-484 | the codes of all other replies: another version, a notification, an unknown command, names that are too long |
| Server.EffectIsLocal | src/xen_variable_server.c:437-484 | whatever sixteen pages hold, what they do to the platform depends on their first 33069 bytes only |
| Server.DispatcherRuns | src/xen_variable_server.c:437-484 | running the dispatcher over any sequence of pages is running the SetVariable requests in them, so every theorem about runs applies |
| Server.DispatcherKeepsInv | src/xen_variable_server.c:437-484 | through every such run with well-formed names the platform invariant holds |

## Left out

- Malformed names: odd sizes, names longer than 254 bytes, and embedded or trailing zero code units are excluded by `WellFormedName`; `FoundAgainIff` and `TrailingNulMisses` state what a trailing one does.
- AuthService.Service.HandleSetVariable: requires `Readable`, which asks of each route the bounds proved in `DescriptorBounds`, and lists that cover their headers, only where the code comes to use them: not of requests refused from the fixed part of their descriptor, and not of lists whose signature does not verify. The specification refuses the requests outside it; the code goes on with a size that wrapped or a list it cannot walk, and its behaviour is not defined.
- Server.Server.HandleRequest: requires the same of SetVariable requests, as `Servable`; `ReplyFits`, `EffectIsLocal` and `DispatcherRuns` hold without it.
- Signature lists that claim less than their 28-byte header are excluded by `ListsCoverHeaders`: on a size of zero the format check does not advance, and on sizes from 1 to 27 it advances by less than a header.
- Codec.UnserializeVars: answers an error for a buffer that ends inside a record; the source reads past it, and `WalkInsideIff` says exactly when.
- Codec.FromBytesToVars: the same, and for a buffer shorter than the list header.
- A certificate field that lies outside its buffer is treated as no certificate.
- Formats.FormatIff: the second half asks every X.509 list for an entry, because the code reads the certificate of a list without entries from whatever follows its header.
- AuthService.Service.Process: requires `VerifiedHasDigest`, because without it the db route tries KEK on a buffer the first attempt may have filtered.
- AuthService.Service.InitialiseService: says of a failing start-up only its status, because the service stops then.
- SignedWrites.NoReplay: the later writes are verified writes that are no appends, because the code does not compare the timestamps of appends; `FreshAgainIff` says when an append makes a descriptor fresh again.
- AuthService.Service.LoadFiles: requires `FilesReadable`, the same as `Readable` for each file in the platform it is loaded in, and that the file holds the fields its route reads.
- SignatureWalks.WellFormedIffPrinted: says nothing about keys inside certificates, because the format check looks only at the first certificate of a list.
- SignatureWalks.FilterInto: the scratch buffer is a sequence, whose length is proved never to exceed the input.
- PKCS #7, X.509, SHA-256 and ASN.1: taken as the functions of `Crypto`, which include the check for the SHA-256 algorithm identifier.
- Allocation failures and a guest that changes the shared pages during a request.
- Saving to the toolstack after each write and the notification it may send; `HandleRequest` takes the outcome of the latter as an argument.
- The XAPI client (sockets, HTTP, XML, base64), the Xen device model, privilege dropping, option parsing and logging.
- Reading authentication files from disk: the loaded descriptors are arguments.
- The list with volatile variables that a resuming guest leaves behind, `storage_get` and `unserialize_variable_list`: they repeat what is modelled.
- 64-bit overflow of clock readings in the throttle: they are unbounded integers, and the credit wraps in 32 bits.
