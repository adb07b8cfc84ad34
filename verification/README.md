# tunna, modelled and proved

A Dafny model of the object store's hard core: the CRC32C arithmetic, the multipart upload protocol over blobs,
sessions and object rows, the concurrent uploader of the TypeScript client, the signed canonical request, and listing
by cursor. `dafny verify dfyconfig.toml` checks all of it.

**CRC32C** (`Crc32c`, `Gf2`, `Combine`, `WireCrc`, `Checksum`). The reference is the bit-by-bit shift register of
section 12.1 of RFC 3720. The Go combination by repeated matrix squaring, the TypeScript copy over JavaScript numbers
and the table-driven CRC are loops proved against it.

**The server** (`Stores`, `Handlers`, `Multipart`, `Runs`, `Scenarios`, `Ladder`, `Records`, `Server`, `Interleaving`, `Ownership`,
`Sequential`, `LateWrites`, `BucketRaces`). Every store call is one function on files and tables, and the same functions
are used at two levels. With *handlers as atomic steps* the model follows content: what the bytes of an object are, in
any order of parts and with resends and refused bodies. With *each store or blob call as an atomic step*, any
interleaving and a crash between any two calls that loses what was not synced, it follows ownership: which file belongs
to which row, and which bytes are safe. `Sequential` joins the levels: a request whose calls are not interleaved is the
atomic handler. The adapters and the handlers are also classes, whose methods reach the state of their step call by call
and keep the keys of the tables, the files the rows name, and the invariant of the server. `Ladder` compares the answers
with the published error table, `Records` says what a served request leaves.

**The uploader** (`Uploader`, `Transfer`). Events are what one worker does between two `await`s. The invariants hold
over every interleaving, failure and retry, and the uploader is composed with the server: when all workers returned,
what complete stores is the source.

**Signing** (`Text`, `Encode`, `Signing`, `Auth`, `Authentication`, `WireSign`, `WireFormat`). Texts are UTF-8 byte strings. The
server's string is proved equal to the signer's in both forms, the canonical request determines all but the form of the
request, and the two implementations agree.

**Listing** (`MemoryStores`, `Listing`). The in-memory stores, a page, and the client's loop over pages while the bucket
changes.

Where the code and its comments differ, the model follows the code: a PUT whose row fails to commit leaves its file
(`internal/httpapi/objects.go:66-67` says no rejected PUT does); aborting an expired session is refused
(`internal/httpapi/uploads.go:299-301` says expiry is not checked), so it and its bucket stay; a GET serves the whole
file, which can be longer than the row's size. Some properties one would expect are false of the code. Each has its exact
condition, most with a run in which they fail:

- the first stage that fails answers (`spec/wire.md`, section 2): `Ladder.LadderExact`;
- a refused PUT leaves no file: `Runs.RefusedPutExact`;
- a refused part leaves the accepted bytes: `Runs.RejectedPartExact`, `Runs.ObjectDescribesItsBytes`,
  `Scenarios.StaleChecksum`;
- a GET serves the object: `Runs.ServedContent`, `Scenarios.LongerFile`;
- the bytes of a stored object stay: `LateWrites.ObjectBytesStay`, `LateWrites.LateResend`;
- a session can be aborted: `Runs.AbortExact`, `Runs.ExpiredStays`;
- an empty bucket can be deleted: `BucketRaces.DeleteBucketAnswers`, `BucketRaces.DeleteMeetsPut`;
- the file of a completed upload survives in the memory stores: `MemoryStores.RacingCompletes`,
  `MemoryStores.RaceIsPossible`;
- an upload whose workers returned is whole: `Uploader.FulfilledFinishes`;
- an upload survives failures of the transport: `Uploader.AbortedExact`;
- a signature serves one form: `Signing.CanonicalExact`, `Authentication.SignatureServesBothForms`;
- a signed request is rebuilt: `Auth.HeaderFormRebuilt`, `Authentication.PresignFormRebuilt`,
  `Authentication.PresignedRequestAccepted`;
- a header or checksum that is read was written so: `Auth.AuthorizationExact`, `Checksum.EncodeParse`.

## Model

| member | source | states |
|---|---|---|
| Crc32c.CrcConcat | sig/combine.go:3-7 | the CRC of a concatenation is the first CRC shifted by the second length, plus the second CRC |
| Crc32c.CrcStreams | sdk/typescript/src/wire/crc32c.ts:16-23 | continuing from the CRC of a over b gives the CRC of a then b, for all a, b and starting values |
| Crc32c.CheckValue | spec/vectors/crc32c.json:3 | the register computes the check value published for the algorithm |
| Crc32c.FeedByteIsSteps | sdk/typescript/src/wire/crc32c.ts:19-21 | feeding a byte bit by bit is eight zero clocks of the register with the byte added in |
| Gf2.TimesLinear | sig/combine.go:14-25 | a matrix product distributes over addition |
| Gf2.SquareComposes | sig/combine.go:27-32 | the square of a matrix applies it twice, to every vector |
| Gf2.ShiftsTimes | sig/combine.go:45-54 | a matrix that shifts the unit vectors by k bits shifts every register by k bits |
| Gf2.ShiftsSquare | sig/combine.go:53-61 | squaring doubles the shift |
| Gf2.StepUnit | sig/combine.go:45-52 | the one-bit operator is the polynomial in column 0 and a shifted identity in the rest |
| Combine.CombinedIsConcatenation | sig/combine.go:34-38 | combining crc(A), crc(B) and the length of B is crc(A then B), for all byte strings |
| Combine.CombinedAssociative | internal/httpapi/uploads.go:418-435 | parts may be folded in any grouping |
| Combine.BitConsumed | sig/combine.go:56-77 | each round of the loop consumes one bit of the length and keeps what is already consumed shifted into the value |
| Combine.Gf2Times | sig/combine.go:17-25 | the loop over set bits is the matrix product |
| Combine.Gf2Square | sig/combine.go:28-32 | the in-place square fills the other buffer with the product |
| Combine.OneZeroBit | sig/combine.go:45-52 | the constructed matrix is the operator of one zero bit |
| Combine.CombineCRC32C | sig/combine.go:38-79 | repeated squaring over two alternating buffers computes the combination, for every length; non-positive lengths return the first CRC |
| WireCrc.BuildTable | sdk/typescript/src/wire/crc32c.ts:7-14 | entry n is eight zero clocks from n |
| WireCrc.TableStep | sdk/typescript/src/wire/crc32c.ts:19-21 | a lookup on the low byte and a shift of the rest is eight clocks of the whole register |
| WireCrc.Crc32cTable | sdk/typescript/src/wire/crc32c.ts:17-23 | the table-driven CRC is the bit-by-bit one, from any previous value |
| WireCrc.NumberHalving | sdk/typescript/src/wire/crc32c.ts:89-90 | `len & 1` and the floored half are the low bit and the quotient although the one sees 32 bits only |
| WireCrc.CombineNumbers | sdk/typescript/src/wire/crc32c.ts:70-98 | the TypeScript combination is the Go one for every length below 2^53 |
| Checksum.ParseEncode | sig/checksum.go:17-38 | every checksum written parses back to its value |
| Checksum.EncodeInjective | sig/checksum.go:17-23 | different values are written differently |
| Checksum.WrittenExact | spec/wire.md:492-496 | the text is the prefix, the six digits of the standard alphabet that are sixteen times the value in base 64, and the padding |
| Checksum.ReadExact | sig/checksum.go:26-38 | and what is read is that, line breaks apart: the digits' number without its low four bits |
| Checksum.StripExact | sig/checksum.go:26-38 | line breaks are skipped wherever they stand, and nothing else is |
| Checksum.EncodeParse | sig/checksum.go:26-38 | writing a parsed checksum gives the input back exactly if it has no line break and no stray bits |
| Checksum.ParsersAgree | sdk/typescript/src/wire/crc32c.ts:34-50 | the two parsers accept the same texts but for line breaks, with the same value |
| Stores.OverlayBytes | internal/disk/disk.go:82-99 | what a write at an offset means byte by byte, gaps included |
| Stores.WrittenExact | internal/disk/disk.go:82-99 | and no other file fits that description |
| Stores.FileLife | internal/disk/disk.go:60-150 | a new file that is written from the start holds what arrived, whatever then became of the stream; it is not created again, no other file differs, and removing it, once or twice, restores the store; a missing file is neither written nor synced |
| Stores.CallsExact | internal/sqlite/uploads.go:39-174 | which calls the tables serve: keys free or taken as needed, and no row ever without its bucket; a call that is not served changes nothing |
| Stores.UpsertExchanges | internal/sqlite/objects.go:14-41 | conservation: the rows name one file more, the new row's, and no longer the one handed back; never one twice |
| Stores.CompletionExchanges | internal/sqlite/uploads.go:118-145 | the session's file passes to the object row, and only what that row displaced is handed back |
| Stores.BlobStore.Write | internal/disk/disk.go:82-99 | at the offset the file holds what arrived, also when the stream then fails; a gap reads as zeros, every other byte and file is as it was |
| Stores.Database.PutObject | internal/sqlite/objects.go:75-89 | keeps the keys of the tables, and of the files named exactly the one handed back is named no longer |
| Stores.Database.DeleteObject | internal/sqlite/objects.go:91-118 | keeps the keys; the file handed back was named and is no longer, all others still are |
| Stores.Database.CreateUpload | internal/sqlite/uploads.go:39-74 | keeps the keys; the rows name the new session's file in addition, and none twice |
| Stores.Database.PutPart | internal/sqlite/uploads.go:96-116 | keeps the keys and the files named |
| Stores.Database.CompleteUpload | internal/sqlite/uploads.go:118-145 | keeps the keys; session gone and object recorded together or neither, with the session's file named throughout |
| Stores.Database.DeleteUpload | internal/sqlite/uploads.go:147-174 | keeps the keys; the file of the session handed back is named no longer |
| Stores.Database.CountUploads | internal/sqlite/uploads.go:176-184 | the number of sessions of a bucket |
| Stores.Database.DeleteBucket | internal/sqlite/buckets.go:75-90 | keeps the foreign keys: a bucket goes only when no row names it |
| Handlers.MissingPartsExact | internal/httpapi/uploads.go:384-395 | the missing list holds exactly the numbers without a record, ascending |
| Handlers.ShortPartExact | internal/httpapi/uploads.go:396-405 | the reported part is the first before the last that is not full, none exactly if all are |
| Handlers.DisputedPartExact | internal/httpapi/uploads.go:406-416 | the part named is the first whose supplied checksum is not the recorded one; there is none exactly if all are |
| Handlers.CompletionFaultExact | internal/httpapi/uploads.go:382-435 | which fault complete reports and with which details: all unrecorded parts, ascending; without any the first short part; without any the first disputed one; without any, one that cannot be read |
| Handlers.ValidBucketNameExact | spec/wire.md:25-27 | the naming rule as it is documented, both ways |
| Handlers.BucketNameValidator | bucket.go:16-37 | the loop over the bytes decides it |
| Handlers.FoldExact | internal/httpapi/uploads.go:418-435 | the fold succeeds exactly if every record parses |
| Handlers.CompletionAccepted | internal/httpapi/uploads.go:382-435 | complete accepts exactly the sessions whose parts are all recorded, full before the last, undisputed and readable |
| Handlers.CorruptRecord | internal/httpapi/uploads.go:427-432 | one unreadable record makes the fold fail, wherever it stands |
| Handlers.NothingDisclosed | internal/httpapi/respond.go:40-76 | a caller without access gets the same answer for a private bucket and for one that does not exist |
| Ladder.AnswersAreJustified | spec/errors.json:30-252 | every request in every state of the server is refused exactly if the error table has a code whose condition holds, and with such a code; a read is permitted exactly if the bucket is public or the caller has access |
| Ladder.LadderExact | spec/wire.md:36-51 | the first stage that fails answers, except in exactly the named cases of PUT, GET, part, abort and complete: a code of an earlier stage is due if and only if one of them is met |
| Records.BucketRecorded | internal/httpapi/buckets.go:74-92 | a bucket is recorded with the name, the visibility asked for and the time; nothing else changes |
| Records.BucketGone | internal/httpapi/buckets.go:155-167 | only the bucket goes |
| Records.ObjectRecorded | internal/httpapi/objects.go:174-202 | a PUT records what was sent, field by field, over its own file, and the displaced file goes |
| Records.ObjectServed | internal/httpapi/objects.go:228-253 | a GET answers the row under the key and the whole file it names |
| Records.ObjectGone | internal/httpapi/objects.go:276-295 | only the row of the key goes, and its file |
| Records.SessionRecorded | internal/httpapi/uploads.go:146-172 | a session carries the bucket, key, part size within the limits, type or default and metadata that were asked for, the time and the expiry |
| Records.PartRecorded | internal/httpapi/uploads.go:263-273 | a part's record is its number, length and checksum, its bytes are laid over the file at its offset; nothing else of the session changes |
| Records.SessionGone | internal/httpapi/uploads.go:313-333 | only the session goes, and its file |
| Records.CompletionRecorded | internal/httpapi/uploads.go:437-467 | the object has the session's bucket, key, file, type and metadata and the length and checksum of the accepted bodies; the session goes, and the displaced file |
| Multipart.RejectedBody | internal/httpapi/uploads.go:245-258 | a rejected body leaves an accepted one in place exactly when the two agree as far as both go |
| Multipart.SlotsDisjoint | internal/httpapi/uploads.go:245 | the slots of different parts never overlap |
| Multipart.FoldIsConcat | internal/httpapi/uploads.go:418-435 | the fold of the records is the CRC and the length of the accepted bodies in part order |
| Multipart.SlotsTile | internal/httpapi/uploads.go:396-405 | the bodies of a complete session that are in place are a prefix of its file, without gaps |
| Multipart.ContentInPlace | internal/httpapi/uploads.go:245-274 | the file starts with the accepted bodies exactly if what all requests, accepted or refused, left in each slot starts with its accepted body |
| Multipart.CompletedContent | internal/httpapi/uploads.go:418-446 | size and checksum of a completion are those of the accepted bodies, and so are the bytes exactly if no completed part's slot is stale |
| Multipart.RowsNameBuckets | internal/httpapi/buckets.go:128-153 | every object row and every session names an existing bucket, which is why complete need not look it up |
| Multipart.ServeKeeps | internal/httpapi/uploads.go:181-274 | every request keeps: rows name their own existing file and bucket, records and rows describe the bytes |
| Runs.RunKeeps | internal/httpapi/uploads.go:78-468 | so does every run |
| Runs.ObjectDescribesItsBytes | internal/httpapi/uploads.go:437-447 | in every reachable state an object's size and checksum are those of what was accepted for it; the first `size` bytes of its file are that exactly if no completed slot was stale; no other row names that file |
| Runs.ServedContent | internal/httpapi/objects.go:228-253 | a GET serves exactly the accepted content if and only if no completed slot was stale and the furthest byte any request wrote, accepted or refused, is the last of the object |
| Runs.RecordsParse | internal/httpapi/uploads.go:418-425 | a recorded checksum is never corrupt |
| Runs.CompleteSucceeds | internal/httpapi/uploads.go:382-463 | with the stores up a live session is completed exactly if it passes the checks; the bucket it never looked up exists |
| Runs.AbortUndoesInitiate | internal/httpapi/uploads.go:299-334 | aborting a new session restores disk and tables |
| Runs.DeleteUndoesPut | internal/httpapi/objects.go:256-296 | deleting a new object restores disk and tables |
| Runs.DeleteUndoesCreateBucket | internal/httpapi/buckets.go:121-168 | deleting a new bucket restores disk and tables |
| Runs.RejectedPartExact | internal/httpapi/uploads.go:245-262 | a refused part leaves a complete, clean session's content in place exactly if it is not among the completed parts or agrees with the accepted body |
| Scenarios.StaleChecksum | internal/httpapi/uploads.go:255-258 | from an empty server: "a" is accepted, "b" refused for its checksum, complete: the stored row has the checksum of "a" and its file holds "b" |
| Scenarios.LongerFile | internal/httpapi/objects.go:228-253 | from an empty server: two parts are accepted and only the first completed: a GET serves more than the object |
| Runs.AbortExact | internal/httpapi/uploads.go:302-334 | an abort succeeds exactly for a known, permitted session that has not expired, with the tables up; otherwise nothing changes |
| Runs.ExpiredStays | internal/httpapi/uploads.go:193-209 | over every run past its expiry a session's row and file stay, no one can abort it, and its bucket can never be deleted |
| Runs.RefusedPutExact | internal/httpapi/objects.go:145-193 | a refused PUT leaves the disk as it was exactly if it never got to create its file, or failed a check and the removal, whose error is dropped, succeeded |
| Runs.SliceLength | sdk/typescript/src/client.ts:184-217 | every slice but the last is full, the last is not empty, beyond it there is nothing |
| Runs.SlicesConcat | sdk/typescript/src/client.ts:207-217 | the slices in order are the source |
| Runs.Undisturbed | internal/httpapi/uploads.go:78-468 | requests that are not parts of a session leave its row, file and history alone |
| Runs.FromSourceRun | internal/httpapi/uploads.go:175-274 | a session that is sent parts of one source, in any order, cut off, refused or repeated, holds nothing else |
| Runs.CompleteStoresSource | internal/httpapi/uploads.go:418-463 | completing all its parts stores the source: size, checksum and every byte |
| Runs.PutStoresBody | internal/httpapi/objects.go:145-198 | a single PUT stores its body |
| Runs.MultipartRefinesPut | internal/httpapi/uploads.go:336-468 | for every part size, order, resend and other traffic a multipart upload stores what one PUT of the source stores |
| Runs.UploadCanComplete | internal/httpapi/uploads.go:175-274 | a live session can always be carried through: sending each part once leads to a state in which complete succeeds |
| Server.Handler.CreateBucket | internal/httpapi/buckets.go:56-93 | reaches the state and response of its step call by call, keeps the server's invariant, and is refused exactly if and only with a code that the error table gives; a bucket recorded was not there, with the visibility asked for |
| Server.Handler.DeleteBucket | internal/httpapi/buckets.go:121-168 | the same; uninterrupted and with the stores up it never answers internal, so the foreign keys stay silent |
| Server.Handler.PutObject | internal/httpapi/objects.go:71-203 | the same; a recorded object's file holds the body, and size and checksum are the body's |
| Server.Handler.GetObject | internal/httpapi/objects.go:211-254 | with the tables up the file is always there; what is served is the accepted content exactly if no completed slot was stale and no request wrote beyond it |
| Server.Handler.DeleteObject | internal/httpapi/objects.go:259-296 | the same; the row is gone and, unless the removal failed, its file |
| Server.Handler.CreateUpload | internal/httpapi/uploads.go:78-173 | the same; the session is recorded with what was asked for, part size within the limits, without parts over an empty file of its own, expiring after the configured time |
| Server.Handler.PutPart | internal/httpapi/uploads.go:181-274 | the same; a recorded part's record describes the body, and the body is in its slot of the file |
| Server.Handler.DeleteUpload | internal/httpapi/uploads.go:302-334 | the same; succeeds exactly for a known, permitted, live session with the tables up |
| Server.Handler.CheckParts | internal/httpapi/uploads.go:382-416 | the three checks in the contract's order; the fault names all missing parts, or the first short, or the first disputed one |
| Server.Handler.FoldParts | internal/httpapi/uploads.go:418-435 | the loop over parts is the fold |
| Server.Handler.CompleteUpload | internal/httpapi/uploads.go:340-468 | the same, through the loops below; size and checksum recorded are those of the accepted bodies in part order, and a live session with the stores up is completed exactly if it passes the checks |
| Interleaving.StartKeeps | internal/httpapi/uploads.go:134-147 | an arriving request keeps the ownership invariant |
| Interleaving.AdvanceKeeps | internal/httpapi/objects.go:145-198 | every single store call of every handler keeps it, whatever the other requests are doing |
| Interleaving.CrashKeeps | internal/httpapi/uploads.go:163-170 | so does a crash at any moment, whatever it leaves of the bytes that were not synced |
| Interleaving.ExecKeeps | internal/httpapi/uploads.go:134-170 | so does every run |
| Ownership.NoDanglingRow | internal/sqlite/uploads.go:118-174 | in every run every row and session names an existing file and bucket, no file is named twice, and a file about to be removed is named by nothing |
| Ownership.PutContentHolds | internal/httpapi/objects.go:145-188 | the row of a single PUT describes the whole of its file under every interleaving and every crash, because stable storage has all of it before the row commits |
| Ownership.FilesAccounted | internal/httpapi/objects.go:189-197 | between requests the files are those the rows name and those given up on |
| Ownership.OrphansGrow | internal/httpapi/objects.go:189-197 | a call gives a file up exactly if it is a failed removal or a failed row of a PUT |
| Ownership.NoOrphans | internal/httpapi/uploads.go:320-331 | without crash, failed removal and failed row the files are exactly those the rows and live sessions name |
| Sequential.AloneIsServe | internal/httpapi/uploads.go:78-468 | a request made call by call without interleaving ends as its atomic handler, in state and response |
| Sequential.LateWrite | internal/httpapi/uploads.go:245 | from any state with one part recorded: a resend that read the session before it completed lands in the object's file |
| LateWrites.ObjectBytesStay | internal/httpapi/uploads.go:193-262 | in every reachable state of every interleaving: an object's bytes stay for as long as its row does, whatever happens next, exactly if each part that read its session and has not written would leave them as they are, and nothing of the file is unsynced |
| LateWrites.LateResend | internal/httpapi/uploads.go:245 | a run from an empty server in which they do not: the row has the checksum of "a", the file holds "b" |
| LateWrites.WholeIsServe | internal/httpapi/uploads.go:78-468 | a request run whole among others takes files and tables where its atomic handler takes them |
| BucketRaces.DeleteBucketAnswers | internal/httpapi/buckets.go:128-166 | under every interleaving, with the stores up for its own calls: deleting a bucket is refused for what its two checks saw; else it answers internal exactly if a row naming the bucket was committed after the check for its kind and not deleted; else the bucket is gone or was not there |
| BucketRaces.DeleteMeetsPut | internal/httpapi/buckets.go:128-131 | a run from an empty server in which a PUT commits between check and delete, and the answer is internal |
| Uploader.Upload.constructor | sdk/typescript/src/client.ts:187-209 | every worker, one for each part up to the concurrency, has claimed its first number, each a different one |
| Uploader.Upload.Report | sdk/typescript/src/client.ts:195-202 | the loop over the parts in flight computes the bytes sent, and only a larger count is reported |
| Uploader.Upload.OnPrepared | sdk/typescript/src/client.ts:224-236 | keeps the claims and the counts; a part that goes on the wire is unfinished and sent by no other worker |
| Uploader.Upload.OnReadFailed | sdk/typescript/src/client.ts:207-217 | keeps them; the upload can no longer be fulfilled, and is not aborted |
| Uploader.Upload.OnProgress | sdk/typescript/src/client.ts:239-242 | keeps them; reported bytes neither fall nor pass the size |
| Uploader.Upload.OnAccepted | sdk/typescript/src/client.ts:245-260 | keeps them, with the part finished and counted once, and the next one awaited |
| Uploader.Upload.OnTransportFailed | sdk/typescript/src/client.ts:250-258 | keeps them; the part is sent again from zero for the second and the third time, then the upload is aborted, and what was reported stays |
| Uploader.Upload.OnFailed | sdk/typescript/src/client.ts:255-257 | keeps them; the upload is aborted and can no longer be fulfilled |
| Uploader.ProgressBound | sdk/typescript/src/client.ts:195-202 | finished and sent bytes together never exceed the parts so far, and all parts finished are all bytes |
| Uploader.ResumeKeeps | sdk/typescript/src/client.ts:223-262 | every event keeps: the claimed numbers are 1 to next - 1, each finished or held by one worker; counts are in range |
| Uploader.RunKeeps | sdk/typescript/src/client.ts:187-262 | so does every interleaving, and reported progress never falls |
| Uploader.OnePlace | sdk/typescript/src/client.ts:204-262 | at every moment each part is in exactly one place: unclaimed, ready, on the wire, done or abandoned |
| Uploader.AbortedExact | sdk/typescript/src/client.ts:223-262 | in every run, with the failures counted in the run: the upload is aborted exactly if the transport failed one part three times or a part failed otherwise, and a worker threw exactly if it was or a read failed |
| Uploader.ReportedIsPeak | sdk/typescript/src/client.ts:195-202 | what is reported is the most bytes that were finished or on the wire at any moment so far |
| Uploader.HeardInRun | sdk/typescript/src/client.ts:229-244 | the bytes on the wire of a part are those last heard of since it was last put there |
| Uploader.FulfilledFinishes | sdk/typescript/src/client.ts:264-267 | when all workers return, every part was accepted exactly if there was a worker, and then all bytes are reported |
| Uploader.AbortedClaimsNothing | sdk/typescript/src/client.ts:225-227 | once a worker aborted, no further part is claimed in any run |
| Uploader.AbortedStartsNothing | sdk/typescript/src/client.ts:225-227 | nor does any worker start to send in any run: who is sending at its end was sending that very part when the upload was aborted |
| Uploader.RunIsBounded | sdk/typescript/src/client.ts:225-261 | an upload settles after a bounded number of awaits, whatever fails |
| Uploader.NeverStuck | sdk/typescript/src/client.ts:223-262 | from every state of an upload there is a run that settles it, and one that fulfils it exactly if no worker has thrown |
| Transfer.RunKeeps | sdk/typescript/src/client.ts:236-248 | in every joint run an acknowledged part is recorded with the source's checksum as long as the session lives, and that is what was noted |
| Transfer.NotDisputed | internal/httpapi/uploads.go:382-416 | when all workers returned complete finds no part missing, short or disputed |
| Transfer.UploadStoresSource | sdk/typescript/src/client.ts:264-272 | and what it stores is the source, byte for byte, for every interleaving with lost, late and repeated requests and other traffic |
| Text.SplitJoin | internal/httpapi/auth.go:228 | splitting undoes joining when no part contains the separator |
| Text.JoinSplit | internal/httpapi/auth.go:289 | joining undoes splitting, always |
| Text.SplitUnique | internal/httpapi/auth.go:228 | the split is the one way to write a text as parts without the separator, joined by it |
| Text.FindExact | internal/httpapi/auth.go:228-229 | the search finds the first occurrence, if there is one |
| Text.StringLeExact | internal/memory/objectstore.go:92-94 | the comparison sorted by is the bytewise order: a prefix first, else the smaller byte at the first difference |
| Text.LowerExact | sig/sign.go:54-61 | a capital becomes the small letter at its place in the alphabet, nothing else changes |
| Text.FieldsExact | sig/sign.go:84 | white space separates, and what holds none is one field |
| Text.SpaceExact | sig/sign.go:84 | which bytes are white space |
| Text.SortSorts | sig/encode.go:51-56 | the sorted list is ordered and a permutation |
| Text.SortedUnique | sig/encode.go:51-56 | only one list is, so any sorting algorithm returns it |
| Text.ParseDecimal | internal/httpapi/auth.go:70 | every 64-bit time survives printing and parsing |
| Text.ParseIntExact | internal/httpapi/auth.go:70 | a text is read as a number exactly if it writes one of 64 bits in decimal, perhaps behind a sign |
| Text.DecimalExact | sig/sign.go:102 | a number is written in decimal without leading zeros, behind a minus if it is negative |
| Text.CollapsedHasNoBreak | sig/sign.go:84 | a signed header value fits on one line |
| Encode.SegmentEncoder | sig/encode.go:18-30 | the byte loop writes letters, digits and `-._~` as themselves, every other byte as a percent sign and its two upper-case hexadecimal digits |
| Encode.EncodedExact | spec/wire.md:17-20 | the encoding is that text and no other |
| Encode.UnescapeExact | internal/httpapi/query.go:21-22 | what a text is read as: its escapes, of either case, as their bytes, every other byte as itself, a plus in a query as a space |
| Encode.UnescapeFails | internal/httpapi/query.go:21-22 | it cannot be read exactly if a percent sign starts no escape |
| Encode.UnescapeEncode | internal/httpapi/query.go:21-22 | decoding undoes encoding, as a path and as a query |
| Encode.EncodedBytes | sig/encode.go:18-30 | encoded text holds unreserved bytes and percent signs only |
| Encode.PathEncoder | sig/encode.go:32-39 | the segment loop is the canonical path |
| Encode.PathRoundTrip | internal/httpapi/auth.go:285-296 | the server reads the same segments back, but one empty segment as none |
| Encode.PathStable | internal/httpapi/auth.go:285-296 | so the canonical path is the same on both sides, for every path |
| Encode.PathInjective | sig/encode.go:32-39 | it determines the path, but for [] and [""] |
| Encode.QueryEncoder | sig/encode.go:43-64 | whatever the order the map is visited in, the canonical query of its parameters |
| Encode.QueryExact | spec/wire.md:87 | the canonical query is the one text that spells the parameters, as often as given, in bytewise order of encoded name and value |
| Encode.QueryRoundTrip | internal/httpapi/query.go:14-29 | both readings of a canonical query give its parameters back |
| Encode.QueryInjective | sig/encode.go:43-64 | canonical queries are equal exactly if the multisets of parameters are |
| Encode.RawParts | internal/httpapi/query.go:14-29 | a query is read part by part, or not at all |
| Encode.RawPart | internal/httpapi/query.go:14-29 | what one part is read as: name and value around the first equals sign, decoded |
| Encode.LenientParts | internal/httpapi/auth.go:255 | the library's reading is part by part |
| Encode.LenientPart | internal/httpapi/auth.go:255 | and leaves out a part with a semicolon or that cannot be decoded |
| Encode.FirstExact | internal/httpapi/auth.go:256-259 | the value of the first parameter of a name, empty if there is none |
| Encode.QueryParser | internal/httpapi/query.go:14-29 | the loop collects the decoded parameters, nil on the first that does not decode |
| Encode.CollectLists | internal/httpapi/query.go:27 | the map holds exactly the parameters that were added |
| Signing.SignedHeaderNames | sig/sign.go:54-61 | lower case, sorted |
| Signing.HeaderFinder | sig/sign.go:45-52 | whatever the order, the value of the header of that name in any case |
| Signing.PresignValues | sig/sign.go:63-72 | setting three names in the map is dropping them from the list and appending them |
| Signing.CanonicalBuilder | sig/sign.go:74-105 | the seven lines, for a query held as a map |
| WireFormat.CanonicalText | spec/wire.md:70-90 | the seven lines, each spelled out |
| WireFormat.SignedNamesExact | sig/sign.go:54-61 | the signed names are the given ones in lower case in bytewise order |
| WireFormat.PresignedParameters | spec/wire.md:116-128 | a presigned query holds the three parameters once and the caller's others |
| WireFormat.SentTexts | spec/wire.md:98-124 | the Authorization header and the query of a presigned URL, spelled out |
| Signing.ForeignExact | sig/sign.go:63-72 | presigning leaves the caller's query as it is exactly if it holds none of the three names |
| Signing.CanonicalExact | sig/sign.go:74-105 | two requests, each signed in either form, have the same canonical string exactly if they agree on method, path, signed query, signed names and collapsed values, and time; the form is not bound |
| Signing.SameFormExact | sig/sign.go:74-105 | within one form: exactly if they agree on those, the caller's parameters the form binds and, presigned, the key |
| Signing.FormsShareTheString | sig/sign.go:74-105 | a presigned request has the string of the header-signed one whose own query holds the presigned parameters |
| Auth.AuthorizationParser | internal/httpapi/auth.go:220-252 | the field loop: each known field once, key and signature not empty |
| Auth.AuthorizationReads | internal/httpapi/auth.go:217-252 | which headers are read at all, and as which credentials: key and signature, not empty, and perhaps the signed names, in any order, each once |
| Auth.AuthorizationExact | internal/httpapi/auth.go:217-252 | a printed header is read back exactly if it names a key and neither key id nor names hold the field separator |
| Auth.NamesSurvive | internal/httpapi/auth.go:237-240 | the signed names survive the list they travel in |
| Auth.SigRequestBuilder | internal/httpapi/auth.go:285-316 | the loops rebuild path, query without the signature, and joined headers |
| WireFormat.RebuiltExact | internal/httpapi/auth.go:279-316 | the request the server checks: path decoded, parameters but the signature's in order, each header's values joined by a comma and a space |
| WireFormat.PathReads | internal/httpapi/auth.go:285-296 | a path is read as the segments between its slashes, decoded one by one; the root has none |
| WireFormat.HeaderFound | sig/sign.go:45-52 | a header is found by its name in any case |
| WireFormat.HeaderRead | internal/httpapi/auth.go:44-70 | so is one of an arriving request, and its first value is read |
| Auth.HeaderFormRebuilt | internal/httpapi/auth.go:279-316 | in header form the rebuilt canonical string is the signer's exactly if the caller's query has no parameter of the signature's name |
| Authentication.PresignParsed | internal/httpapi/auth.go:254-277 | key, names and expiry are read back from a presigned URL, with the signature the server reads |
| Authentication.SigReadExact | internal/httpapi/auth.go:254-277 | which is the one appended, or the least of the caller's own parameters of that name if there are any |
| Authentication.PresignFormRebuilt | sig/sign.go:119-122 | in presigned form the rebuilt canonical string is the signer's exactly if the caller's query has no parameter of the signature's name |
| Authentication.SignedRequestAccepted | internal/httpapi/auth.go:44-159 | a request signed in the header authenticates as its key, or is malformed in exactly three cases |
| Authentication.PresignedRequestAccepted | internal/httpapi/auth.go:94-121 | what becomes of every presigned URL: malformed, expired, too long, accepted exactly if the signature read is the MAC of the request without such parameters, else refused; without them it is accepted within its window |
| Authentication.SignatureServesBothForms | internal/httpapi/auth.go:82-131 | the signature of a presigned URL also authenticates the request in header form, within the skew of its expiry, even when the URL itself has expired |
| Authentication.RequestArrives | sig/sign.go:113-117 | what a client sends meets the hypotheses of the header form |
| Authentication.UrlArrives | sig/sign.go:119-122 | and of the presigned form |
| Authentication.CallerIsChecked | internal/httpapi/auth.go:82-157 | whoever is let through named an enabled key, was within the window of its form and presented the MAC of the rebuilt request |
| Authentication.OutcomeExact | internal/httpapi/auth.go:44-159 | every outcome is the one given exactly when it is due: no credentials pass on as anonymous; each rejection has its condition; a caller is let through exactly if credentials, window, key, headers and MAC are right |
| Authentication.AcceptedIsSigned | internal/httpapi/auth.go:133-157 | an accepted request is the one that was signed, in whichever form, or the MAC of its string and of the signed one collide |
| Authentication.Authenticator | internal/httpapi/auth.go:44-159 | the middleware's branches, in order |
| WireSign.UnreservedTable | sdk/typescript/src/wire/encode.ts:5-11 | the table marks exactly the unreserved bytes |
| WireSign.EncodeSegmentByTable | sdk/typescript/src/wire/encode.ts:13-25 | encoding by tables writes the same text, byte by byte as above |
| WireSign.EncodeQueryList | sdk/typescript/src/wire/encode.ts:36-54 | the list form of the canonical query |
| WireSign.CollapseAgrees | sdk/typescript/src/wire/sign.ts:64-66 | trimming and splitting at white space collapses a value as the Go code does |
| WireSign.WireHeaderValue | sdk/typescript/src/wire/sign.ts:37-46 | the first entry of that name is the only one |
| WireSign.PresignPairsList | sdk/typescript/src/wire/sign.ts:49-62 | filtering and pushing is the presigned query |
| WireSign.WireCanonical | sdk/typescript/src/wire/sign.ts:69-98 | the list-of-pairs canonical request is the string the Go code builds |
| WireSign.QueryOrderIsIrrelevant | sdk/typescript/src/wire/sign.ts:84-87 | a map of lists and a list of pairs with the same parameters sign alike |
| MemoryStores.ObjectStore.PutObject | internal/memory/objectstore.go:38-50 | does to the nested maps what the SQLite store does to its table |
| MemoryStores.ObjectStore.GetObject | internal/memory/objectstore.go:53-62 | the same |
| MemoryStores.ObjectStore.DeleteObject | internal/memory/objectstore.go:65-77 | the same, and an emptied bucket's map goes |
| MemoryStores.ObjectStore.ListObjects | internal/memory/objectstore.go:82-103 | the first keys in bytewise order that start with the prefix and stand after the cursor, with their rows |
| MemoryStores.HasPrefixExact | internal/memory/objectstore.go:82-88 | a key has a prefix exactly if it is the prefix and something more |
| MemoryStores.InOrderHas | internal/memory/objectstore.go:92-94 | the ordered listing holds exactly the matching keys, each before the next in bytewise order |
| MemoryStores.UploadStore.CreateUpload | internal/memory/uploadstore.go:40-53 | as the SQLite store, without the foreign key |
| MemoryStores.UploadStore.GetUpload | internal/memory/uploadstore.go:56-66 | as the SQLite store |
| MemoryStores.UploadStore.PutPart | internal/memory/uploadstore.go:68-79 | as the SQLite store |
| MemoryStores.UploadStore.CompleteUpload | internal/memory/uploadstore.go:81-96 | with nothing between its critical sections, the transaction |
| MemoryStores.UploadStore.DeleteUpload | internal/memory/uploadstore.go:98-111 | as the SQLite store |
| MemoryStores.UploadStore.CountUploads | internal/memory/uploadstore.go:113-125 | the number of sessions of a bucket |
| MemoryStores.RacingCompletes | internal/memory/uploadstore.go:81-96 | two completes of one session, in any order of their steps: the file survives exactly if one's delete precedes the other's check |
| MemoryStores.RaceIsPossible | internal/memory/uploadstore.go:81-96 | both can find it, and then the row's file is removed; the transaction excludes that |
| Listing.ListObjectsHandler | internal/httpapi/objects.go:316-357 | one page: the limit bounded, the cursor set exactly on a full page |
| Listing.ListAnswers | internal/httpapi/objects.go:316-357 | refused exactly for a delimiter or a limit that is no number from 1 up; else the first keys in bytewise order with the prefix and after the cursor, at most the limit and never over 1000; the last key of a full page is the next cursor |
| Listing.PageRequestArrives | sdk/typescript/src/api/objects.ts:286-303 | the server lists from the very prefix, limit and cursor the client passed, whatever bytes they hold |
| Listing.List | sdk/typescript/src/api/objects.ts:259-283 | the loop follows the cursor, whatever happens to the bucket between pages |
| Listing.CursorNotEmpty | sdk/typescript/src/api/objects.ts:281-282 | no cursor is the empty text, so the loop never stops early |
| Listing.WalkAscends | sdk/typescript/src/api/objects.ts:259-283 | the keys come strictly ascending, never one twice, for any puts and deletes between pages |
| Listing.WalkFindsAll | internal/httpapi/objects.go:347-354 | a finished walk lists every matching key that was there all the while |
| Listing.WalkIsListing | sdk/typescript/src/api/objects.ts:274-282 | on an unchanging bucket the walk ends and its pages are the sorted, filtered listing |

## Left out

- HMAC-SHA256: the MAC is any function to hexadecimal text; nothing is assumed of collisions.
- Random ids: blob and session ids are fresh names; the hexadecimal form, the check of it and the path on disk are not modelled.
- HTTP transport, routing, JSON decoding, Range requests and logging: a request is its decoded parts, a body the bytes that arrived and how the stream ended.
- Key scopes: a request carries the set of buckets its key has no access to; the admin check in front of creating and deleting buckets, the refusal of presigned requests on some routes and anonymous callers are not modelled.
- Listing at the handler: the access and name checks of `listObjects` before the query is read; a row's record is its key in `Listing.Walk`.
- SQLite: each store method is one atomic step on maps, a failed commit changes nothing; the SQLite listing predicate is not modelled and not claimed equal to the in-memory one.
- A file that was created but whose handle failed to close is not told apart from one that could not be created.
- Directory entries are assumed to survive a crash, and the content of an unsynced file afterwards is left open but for the bytes stable storage agrees on; the sweep that collects orphans is not part of the repository's code.
- 64-bit overflow of part offsets and sizes: sizes are unbounded; the products stay far below 2^63 within the configured limits.
- Non-ASCII header names and values: case folding and white space are those of ASCII; a header name is looked up ignoring case rather than by its canonical spelling.
- Validity of UTF-8 in keys and the Unicode order of JavaScript strings: texts are bytes; the strings that are sorted in JavaScript are ASCII.
- Metadata: the lower-casing of names and joining of repeated headers; a row carries the map it is given.
- Upload options: the empty source, which is a single PUT, and the abort request after a failure; other traffic in `Transfer` includes any such request.
- Transfer.UploadStoresSource: the part size the client uses is that of the session, and no one else sends parts to it.
- Bucket listing and patching, key management, CORS, configuration and migrations: easy one-branch facts.
