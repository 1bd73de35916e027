# Note and attachment store: a verified model

This project models a note synchronisation service that keeps opaque, encrypted
notes and attachments in PostgreSQL, and proves what its upload protocol, sync
index, binary formats, share grants, account deletion and refresh tokens
guarantee. Everything is stated for all inputs and all runs of requests.

## What is modelled

**The database** (`Tables`) is one map per table keyed by its primary key. Foreign
keys with cascade and unique constraints are part of the model: a violated one, like
any other uncaught exception, is the outcome `Crash`, and the open transaction is
rolled back. `Fail` is an `APIError`.

**The handlers exist twice.** `NoteService`, `Uploads` and `Accounts` give each one as
a function of the state before it. `Store` gives it as the service runs it, as
statements and loops on mutable tables inside a transaction with commit and rollback,
and proves that it computes that function. `Machine` puts all requests into one state
machine; `Server` proves that the imperative store behind one entry point is that
machine.

**Invariants** (`Invariants`) hold in every reachable state: `UploadProofs`,
`NoteProofs` and `AccountProofs` show that each operation keeps them, `Machine` that
every run does, and `Safety` restates the outcome in plain terms of every state
reachable from the empty database.

**Answers** (`Answers`): for every request the reply, the refusal it gets and what it
writes, in terms of the stored rows and of literal constants alone. `GrantRuns` and
`Rotation` say over whole runs what makes and what ends a share grant or a refresh token.

**Chunk arithmetic** (`ChunkMath`) is done three ways in the service: by
`math.ceil` of a floating-point quotient with a modulo in the upload protocol, by the
same on the stored size when downloading, and by slicing in migration 007. Division of
integers into a binary64 value, rounding half to even, is written out, so that the
agreement of the three is a theorem for every size whose count fits its 32-bit column.

**Byte formats** (`Encoding`, `Buffer`, `Ssnt`, `Ssnv`): big-endian integers, UTF-8
(section 4 of RFC 3629), length prefixes, a mutable cursor, the two parsers over it
and the two printers. A title that is not UTF-8 raises an exception that is not a
`ParseError`, and has an outcome of its own. `ByteLayout` states both formats a second
time, by byte offset, and `EtagText` the text a note's etag is the hash of.

**Interleaving** (`Interleaving`) splits a chunk upload into opening the session,
looking for the row and committing, run by any number of clients among all other
requests; `Counting` and `LostCount` say when the chunk counter is right.
**Migration** (`Migration`) has the page, row and slice loops.
**Round trip** (`RoundTrip`, `Client`, `EndToEnd`) connects uploads with downloads.

SHA-256 is an arbitrary function from byte strings to 64 lower-case hexadecimal
digits. It is never assumed to be injective: results that depend on that are stated
up to a collision between two named inputs. Clocks, fresh identifiers and token
hashes are inputs of the requests. The clock readings need not be monotone.

## Where the documentation and the code differ

- The requirements document and the overview of the service reserve chunked uploads for
  attachments of more than 10 MB and refuse them below. The code accepts every size from
  1 byte (`app/notes/schemas.py:42`), as `docs/api.md:308` says. The model follows the code.
- A shared manifest of a deleted note is answered with an empty list, not with "not
  found": the shared routes never look at `deleted_at`. `Frames.TombstoneIsEmpty`
  states what each route returns.
- `received_chunks` is not always the number of chunks received. It is exactly that if and
  only if no client inserted a chunk on top of a counter that had moved since the client
  loaded it (`Counting.CountsExactlyIff`); overlapping uploads that overwrite do no harm.
  `LostCount.LostCountReached` is a run of two overlapping uploads after which every chunk
  is staged and completion is refused, and by `Counting.NeverCompletes` it stays so.
- `total_chunks_for_size` is the integer ceiling on every size whose count fits the 32-bit
  column (`ChunkMath.FloatCeilExact`); larger uploads are rejected by that column. The first
  size on which it is not the integer ceiling is 2^31 chunks and one byte
  (`ChunkMath.FloatCeilThreshold`).

## Model

The main results come first, then the operations in their imperative form, each proved against
its specification, then, marked as helpers, the lemmas the main results are built from.

| member | source | states |
|---|---|---|
| Safety.StoreInvariant | app/notes/router.py:149-163 | in every reachable state an attachment has exactly the chunks 0..n-1 with the lengths its size implies; the download route serves exactly those, never answers "chunk not found" or "size mismatch", and what it serves has the stored size and hash |
| RoundTrip.UploadThenDownload | tests/support.py:56-116 | for all bytes, chunks sent in any order, any number of times, among any undisturbing requests, refused completions included, and over any earlier attachment: completion succeeds, and owner and grant holder read back exactly those bytes; no chunk of a longer predecessor survives |
| Migration.MigrationEstablishesStore | alembic/versions/007_migrate_attachment_data.py:22-71 | after a successful migration the chunk tables satisfy the invariant of the upload protocol if and only if every row's size and etag were those of its bytes |
| Interleaving.WorldRunKeeps | app/notes/uploads.py:166-199 | any interleaving of chunk-upload parts of any number of clients with any other requests keeps the invariants |
| Interleaving.InterleavedReachable | app/notes/uploads.py:194 | after any interleaving a session in progress counts at most the rows staged, and every staged row is in range |
| Interleaving.InterleavedCompleteIsWhole | app/notes/uploads.py:219-246 | after any interleaving a completion that succeeds has promoted every index 0..n-1 with its right length and no other |
| Counting.CountsExactlyIff | app/notes/uploads.py:179-198 | after any interleaving a session in progress counts exactly its staged chunks if and only if no client inserted one into it on top of a counter that had moved since the client loaded it |
| Counting.NeverCompletes | app/notes/uploads.py:219-229 | once a session counts fewer chunks than are staged, no completion of it ever succeeds, whatever else is done, unless its id is issued again |
| LostCount.LostCountReached | app/notes/uploads.py:185-220 | a run from the empty database, with two overlapping chunk uploads, after which both chunks are staged, one is counted, and completing is refused |
| LostCount.LostForGood | app/notes/uploads.py:185-220 | no continuation of that run completes the upload, unless its id is issued again |
| Machine.Reachable | app/models.py:13-234 | every state reachable from the empty database satisfies the invariants |
| Safety.SyncIndexInvariant | app/notes/service.py:239-252 | in every reachable state the cached etag, stamp and title of an active note are those of its body and current attachments |
| Safety.SessionInvariant | app/notes/uploads.py:52-70 | in every reachable state at most one session per attachment is in progress, it counts its staged rows exactly and at most the expected number, and an aborted session has none |
| Safety.TombstoneInvariant | app/notes/service.py:434-455 | once deleted, a note stays deleted, with the same time, and without body, attachment or chunk, for as long as its account exists |
| Safety.GrantInvariant | app/models.py:211-234 | in every reachable state owner and recipient of a grant differ and exist, the granted note row exists, and a recipient has one grant per note id |
| Safety.ReferentialIntegrityInvariant | app/models.py:109-116 | in every reachable state whatever a row refers to exists |
| EndToEnd.UploadShareDownload | tests/test_note_attachments.py:196-237 | register, write a note, upload, share, download: for all inputs every request succeeds; the store then holds the grant and the attachment, serves owner and reader every chunk as the slice of the bytes uploaded, and the download loops return those bytes |
| ChunkMath.FloatCeilExact | app/notes/service.py:37-38 | the ceiling of the correctly rounded double quotient fits a 32-bit count if and only if the size is at most 2147483647 chunks, and then it is the integer ceiling |
| ChunkMath.FloatCeilThreshold | app/notes/service.py:38 | the ceiling of the rounded quotient is the integer ceiling on all sizes up to a limit if and only if the limit is at most 2^31 chunks; the next size is the first failure, one chunk too few |
| ChunkMath.ChunkLengthsAgree | app/notes/service.py:41-48 | for every admissible size the session formula, the stored-attachment formula and the slicing loop give the same length, or the same refusal, at every index |
| Ssnt.Canonical | app/parsers/ssnt.py:24-54 | a note body parses to given fields if and only if it is the encoding of those fields, so parsing and printing are inverse in both directions and nothing trails |
| Ssnt.NoProperExtension | app/parsers/ssnt.py:45-46 | no accepted body is a proper prefix of another accepted body |
| Ssnv.Canonical | app/parsers/ssnv.py:17-52 | a vault header parses to given fields if and only if it is the version 1 or version 2 encoding of those fields |
| ByteLayout.SsntLayout | app/parsers/ssnt.py:24-54 | a note body parses to given fields if and only if they stand at the offsets the format gives them and nothing follows; the decoding error is raised exactly for a complete front whose title is not UTF-8 |
| ByteLayout.SsnvLayout | app/parsers/ssnv.py:17-52 | a vault header parses to given fields if and only if they stand at the offsets of its version and nothing follows |
| VaultIndex.StoredHeaderReparses | app/vault/router.py:56-72 | in every reachable state a stored header parses again to the stored key and algorithm |
| CompositeEtag.CompositeInjective | app/notes/service.py:51-57 | composite etags are equal if and only if they name the same etags or exhibit a hash collision |
| EtagText.NoteEtagIs | app/notes/service.py:51-57 | a note's etag is the hash of the characters that are, position by position, its body etag, a bar, and by ascending id, between commas, each attachment's id, a colon and its etag |
| SyncIndex.IfMatchDetectsChange | app/notes/service.py:276-280 | barring a collision, a body PUT quoting an earlier etag and not refused for its own content is answered with a conflict if and only if body or attachment etags have changed since |
| SyncIndex.IfMatchedPutSawCurrent | app/notes/service.py:276-280 | a PUT that succeeds under If-Match replaces exactly the content for which the quoted etag was issued |
| SyncIndex.AttachmentIfMatchDetectsChange | app/notes/service.py:358-362 | a completion, otherwise ready, that quotes an earlier etag of the attachment is a conflict if and only if the etag has changed since, so barring a collision if and only if the bytes have, and else succeeds |
| NoteProofs.PutBodyAnswers | app/notes/service.py:262-280 | which of the refusals, and when, every body PUT gets that is not accepted |
| SessionSafety.CompletesIffReady | app/notes/uploads.py:215-246 | a completion succeeds if and only if the session is this attachment's, in progress and unexpired, its counter and its staged rows are both as many as expected, the note is active, an If-Match sent for an existing attachment quotes its etag, and the content type has no U+0000 |
| SessionSafety.FailedCompleteChangesNothing | app/notes/uploads.py:215-246 | a completion that fails leaves everything but expired sessions unchanged |
| SessionSafety.SuccessfulComplete | app/notes/uploads.py:237-252 | a successful completion removes the upload, writes that attachment and its note's index and nothing else, answers what it stored, and cannot be repeated |
| SessionSafety.StepMoves | app/notes/uploads.py:35-142 | over any request a session's status moves only from in progress to aborted, its fixed columns stay, no staged row of a session in progress is lost, and its counter moves exactly with its rows |
| SessionSafety.ClosedStays | app/notes/uploads.py:90-106 | an aborted or completed upload stays closed over every run |
| UploadProofs.NoSizeMismatch | app/notes/uploads.py:231-233 | once the row count is right the sizes add up: "Assembled blob size mismatch" cannot occur |
| RoundTrip.LastWriteWins | app/notes/uploads.py:179-198 | over any run that does not end the upload, refused completions included, the staged row of each index is the one last written to it |
| Frames.TombstoneRun | app/notes/service.py:434-455 | no run without the account's deletion changes a tombstone row |
| Frames.TombstoneIsEmpty | app/shares/router.py:85-198 | no owner or shared route, the JSON form included, returns a content byte of a tombstone, although its grants are still found, and a PUT to it changes nothing |
| Frames.OthersCannotWrite | app/notes/uploads.py:73-108 | no request made as another user, a grant holder included, changes a note, body, attachment, chunk, upload session or staged chunk |
| Grants.SharedReadsAgree | app/shares/router.py:85-198 | while the note is active, body, manifest and chunks read under a grant are what the owner reads, and the JSON form is the wrapped key with that body |
| Grants.SharesIff | app/shares/router.py:228-261 | exactly when sharing succeeds, and that a second grant of a note id to a recipient is refused whoever gave the first |
| Grants.RevokeEndsOwnGrant | app/shares/router.py:275-298 | an owner ends exactly its own grant; another owner's grant of the same note id survives |
| Grants.RemoveEndsGrant | app/shares/router.py:202-213 | a recipient removes exactly its own grant of that note id |
| Grants.NoGrantNoRead | app/shares/router.py:36-45 | without a grant of the note id to the caller every shared route answers "share not found", whoever owns what |
| GrantRuns.EndedGrantIsOver | app/shares/router.py:202-298 | after a revocation, a removal or either party's account deletion, no shared route answers the recipient, over any run in which nobody shares that note id with it again |
| GrantRuns.GrantLasts | app/shares/router.py:202-298 | over any run a grant stays as it is until its owner revokes it, its recipient removes it, or one of the two accounts is deleted |
| AccountDeletion.DeletesExactlyTheCascade | app/auth/router.py:121-122 | a row goes if and only if it is the user's or hangs below it by foreign keys; every other row keeps its contents |
| GroupedStats.GroupedRefinesSimple | app/notes/service.py:166-186 | the grouped statistics with the (0, 0) default equal the simple ones for every listed note, and only notes with rows have a group |
| GroupedStats.AcceptedHeaderMatches | app/notes/service.py:273-274 | an accepted body's header states both numbers as either query finds them at commit |
| GroupedStats.ListNotesCounts | app/notes/router.py:41-62 | the note list has every note asked for once, newest first, with the stored title, stamp and etag, and shows for each the attachments it has, for a tombstone none |
| Rotation.RedeemedAtMostOnce | app/auth/tokens.py:69-81 | over any run a refresh token is redeemed at most once |
| Rotation.LogoutEndsTokens | app/auth/tokens.py:85-95 | after a logout no earlier token of the user is ever redeemed |
| Rotation.LogoutRevokes | app/auth/tokens.py:85-95 | a logout revokes exactly the caller's live tokens, at its time, keeping user and expiry; every other row, of any user, stays as it is |
| Rotation.TokenLasts | app/auth/tokens.py:60-95 | over any run a stored token stays as it is until it is itself presented, or its own user logs out or is deleted |
| Rotation.OneLiveTokenPerLogin | app/auth/tokens.py:60-82 | over any run each login has at most one unrevoked token at a time |
| Effects.PutBodyIff | app/notes/service.py:262-280 | a body PUT succeeds if and only if the body is an encoding of at most 10 MB that names the note and states count and size of its attachments, the note is not deleted, an If-Match sent for an existing note quotes its etag, and title and stamp fit their columns |
| Effects.SuccessfulPut | app/notes/service.py:282-340 | a successful PUT stores that body, answers the etag and stamp it stored, and leaves other notes, attachments and chunks alone |
| Answers.CompleteUploadAnswers | app/notes/uploads.py:207-252 | which answer every completion gets, case by case in the order of the tests |
| Answers.UploadChunkAnswers | app/notes/uploads.py:157-199 | which answer every chunk upload gets, and that an accepted one leaves its bytes staged |
| Answers.StartUploadAnswers | app/notes/uploads.py:117-149 | which answer every start of an upload gets, and the session row it leaves |
| SessionEnds.StartUploadEnds | app/notes/uploads.py:117-149 | a start that is refused ends no session; one that raises ends exactly the user's expired ones; one that succeeds ends also this attachment's, and no session or staged chunk else changes |
| SessionEnds.UploadChunkEnds | app/notes/uploads.py:73-106 | a chunk upload, however answered, ends exactly the user's expired sessions and the named one if it expires between the two readings of the clock; no other session or staged chunk changes but the one written |
| SessionEnds.CompleteUploadEnds | app/notes/uploads.py:207-252 | a completion ends the same sessions, removes the one it completes, and leaves every other session and staged chunk as it is |
| Answers.ShareNoteAnswers | app/shares/router.py:222-267 | which answer every share request gets, and that an accepted one adds that one row |
| Server.ServeAll | app/db.py:12-14 | a store that served any sequence of requests is in the state of that run and satisfies all invariants |
| Server.Serve | app/auth/dependencies.py:17-29 | one authenticated request served by the imperative store is one step of the state machine |
| Client.UploadAttachmentChunks | tests/support.py:56-94 | the client's upload loop succeeds on every reachable store and leaves its bytes as the attachment's content |
| Client.DownloadAttachmentChunks | tests/support.py:97-116 | the client's download loop, as owner or under a grant, has every request answered and returns the stored content |
| Migration.Connection.Upgrade | alembic/versions/007_migrate_attachment_data.py:22-71 | the page, row and slice loops terminate and amount to migrating every row with data once, in key order; a failure leaves the chunk table unchanged |
| Store.Store.CleanupExpiredSessions | app/notes/uploads.py:35-49 | the loop aborts exactly the user's expired sessions in progress, deletes their staged rows, and commits |
| Store.Store.AbortInProgressSessions | app/notes/uploads.py:52-70 | the loop aborts exactly the sessions in progress for this attachment, in whatever order they come |
| Store.Store.GetUploadSession | app/notes/uploads.py:73-108 | the session or the refusal, and the expired sessions aborted on the way, are those of the specification |
| Store.Store.InitUpload | app/notes/uploads.py:117-149 | the new state and reply are those of the specification; a count that does not fit the column rolls back to the state after cleanup |
| Store.Store.UploadChunk | app/notes/uploads.py:157-199 | the new state and reply are those of the specification |
| Store.Store.CompleteUpload | app/notes/uploads.py:207-252 | the new state and reply are those of the specification; any failure while finalizing is rolled back |
| Store.Store.SumLengths | app/notes/uploads.py:231 | the loop sums the lengths of all staged rows |
| Store.Store.Feed | app/notes/service.py:25-34 | what the hasher has been fed, row by row, is the concatenation of the rows |
| Store.Store.ComputeUploadEtag | app/notes/service.py:25-34 | the hash of the staged rows in index order, concatenated |
| Store.Store.PromoteUploadChunks | app/notes/service.py:118-147 | deleting the attachment's chunks and inserting the staged rows one by one is the promotion the specification describes |
| Store.Store.FinalizeChunkedUpload | app/notes/service.py:343-399 | the uncommitted state and reply are those of the specification |
| Store.Store.RecomputeNoteSyncMetadata | app/notes/service.py:206-252 | etag and stamp of the one note are recomputed from body and attachments; errors change nothing |
| Store.Store.LatestAttachmentStamp | app/notes/service.py:244-246 | the loop computes the greatest attachment stamp, 0 when there are none |
| Store.Store.PersistNoteBody | app/notes/service.py:255-340 | what is committed, and the reply, are those of the specification |
| Store.Store.PutNoteBody | app/notes/router.py:98-113 | the same for the route, which refuses long bodies and leaves nothing uncommitted behind |
| Store.Store.DeleteAttachment | app/notes/service.py:402-419 | the new state and reply are those of the specification, chunks gone by cascade |
| Store.Store.SoftDeleteNote | app/notes/service.py:434-455 | the new state and reply are those of the specification |
| Store.Store.GetAttachmentChunk | app/notes/router.py:138-169 | the owner's chunk route answers as specified; in a reachable state it serves every index in range with its length and etag and refuses every other as invalid |
| Store.Store.GetSharedAttachmentChunk | app/shares/router.py:134-167 | the shared chunk route answers as specified, and under a grant serves the same in a reachable state |
| Store.Store.PutVaultHeader | app/vault/router.py:39-75 | the new state and reply are those of the specification |
| Store.Store.CreateRefreshToken | app/auth/tokens.py:48-57 | adds one unrevoked token, unless its hash is taken |
| Store.Store.RotateRefreshToken | app/auth/tokens.py:60-82 | the new state and reply are those of the specification; a clash undoes the revocation too |
| Store.Store.RevokeAllRefreshTokens | app/auth/tokens.py:85-95 | the loop revokes every unrevoked token of the user and touches no other |
| Store.Store.RegisterUser | app/auth/router.py:47-65 | user, with the address in lower case, and first token are added in two transactions, as specified |
| Store.Store.LoginUser | app/auth/router.py:69-83 | the user is found by address, and a token is added if the password was right |
| Store.Store.DeleteAccount | app/auth/router.py:113-123 | unless the password was wrong, the user and everything its cascades reach are removed, as specified |
| Store.Store.ShareNote | app/shares/router.py:222-267 | the new state and reply are those of the specification |
| Store.Store.RevokeShare | app/shares/router.py:275-298 | the new state and reply are those of the specification |
| Store.Store.RemoveSharedNote | app/shares/router.py:202-213 | the new state and reply are those of the specification |
| Buffer.ByteReader.constructor | app/parsers/buffer.py:10-12 | a new reader has all of its data unread |
| Buffer.ByteReader.AtEnd | app/parsers/buffer.py:18-20 | true exactly when nothing is unread |
| Buffer.ByteReader.ReadFixed | app/parsers/buffer.py:22-27 | takes exactly the first bytes of the unread part, or fails and moves nothing when there are too few |
| Buffer.ByteReader.ReadU8 | app/parsers/buffer.py:29-30 | reads one byte off the unread part or fails |
| Buffer.ByteReader.ReadU32 | app/parsers/buffer.py:32-33 | reads a 4-byte big-endian integer off the unread part or fails |
| Buffer.ByteReader.ReadU64 | app/parsers/buffer.py:35-36 | reads an 8-byte big-endian integer off the unread part or fails |
| Buffer.ByteReader.ReadLengthPrefixedBytes | app/parsers/buffer.py:38-40 | reads a field of the length its 4-byte prefix states or fails |
| Buffer.ByteReader.ReadLengthPrefixedString | app/parsers/buffer.py:42-43 | reads such a field as UTF-8, with bad bytes and missing bytes told apart |
| Buffer.ByteReader.ExpectMagic | app/parsers/buffer.py:45-48 | moves past the magic or fails |
| Ssnt.ParseNoteBlob | app/parsers/ssnt.py:24-54 | the cursor-driven parser returns the metadata of the fields, or the kind of failure, that the grammar prescribes |
| Ssnt.MakeNoteBlob | tests/fixtures.py:38-59 | the printer builds the encoding, which parses back to the fields printed |
| Ssnv.ParseVaultHeader | app/parsers/ssnv.py:17-52 | the cursor-driven parser returns the metadata or the failure that the grammar prescribes |
| Ssnv.MakeVaultHeader | tests/fixtures.py:22-35 | the printer builds the encoding, which parses back to the header printed |
| Migration.Connection.Split | alembic/versions/007_migrate_attachment_data.py:48-69 | the slice loop inserts exactly the chunks of the data, or stops at a violated primary key |
| ChunkMath.CeilSurvivesRounding | app/notes/service.py:38 | helper: rounding a quotient to a fraction finer than its divisor never moves it across an integer |
| ChunkMath.TotalChunks | app/notes/service.py:37-38 | helper: the chunk count fits a 32-bit column exactly up to 2147483647 chunks, and is the integer ceiling on every size whose count fits |
| ChunkMath.ChunkLengthsSum | app/notes/uploads.py:26-32 | helper: the lengths expected of all chunks add up to the total size |
| BigEndian.DecodeEncode | app/parsers/buffer.py:32-36 | helper: a big-endian integer that fits its width is read back from its bytes |
| BigEndian.EncodeDecode | app/parsers/buffer.py:32-36 | helper: every byte string of a width is the encoding of the integer read from it |
| Utf8.DecodeEncode | app/parsers/buffer.py:42-43 | helper: decoding the UTF-8 form of any string returns it |
| Utf8.EncodeDecode | app/parsers/buffer.py:42-43 | helper: whatever decodes is the one UTF-8 form of the result: no overlong form, surrogate or stray byte is accepted |
| Buffer.UIntIff | app/parsers/buffer.py:29-36 | helper: an integer and a rest are read if and only if the input is that integer's bytes followed by that rest |
| Buffer.PrefixedIff | app/parsers/buffer.py:38-40 | helper: a length-prefixed field and a rest are read if and only if the input is that field, prefixed, followed by that rest |
| Buffer.TextIff | app/parsers/buffer.py:42-43 | helper: the same for a length-prefixed string, whose bytes must be UTF-8 |
| Buffer.MagicIff | app/parsers/buffer.py:45-48 | helper: the magic is accepted if and only if it is the front of the input |
| Ssnt.PrintInjective | tests/fixtures.py:38-59 | helper: different fields have different encodings |
| Ssnv.ParseInjective | app/parsers/ssnv.py:42-43 | helper: two different byte strings never parse to the same header |
| Ssnv.KeyOnlyInVersion2 | app/parsers/ssnv.py:34-52 | helper: version 2 always yields a 32-byte key and an algorithm byte, version 1 never does |
| CompositeEtag.OrderIndependent | app/notes/service.py:55-56 | helper: the etag payload does not depend on the order in which attachments are listed |
| CompositeEtag.PayloadInjective | app/notes/service.py:55-56 | helper: equal payloads come from the same body etag and the same attachment etags |
| CompositeEtag.DigestHasNoQuotes | app/notes/service.py:278 | helper: stripping quotes from a quoted or bare etag returns the etag |
| Tables.Listing | app/notes/service.py:73-84 | helper: the attachments of a note, each once, in ascending id order |
| UploadProofs.InitKeeps | app/notes/uploads.py:117-149 | helper: starting an upload keeps every invariant, and at most one upload per attachment in progress |
| UploadProofs.AdmittedLength | app/notes/uploads.py:169-177 | helper: a chunk is admitted if and only if its index is in range and its length is that of the slice it stands for |
| UploadProofs.StageCounts | app/notes/uploads.py:185-196 | helper: the counter grows by exactly the number of rows added, 0 for an overwrite |
| UploadProofs.PutChunkKeeps | app/notes/uploads.py:157-199 | helper: a chunk upload, accepted or refused, keeps every invariant |
| UploadProofs.AllStaged | app/notes/uploads.py:222-229 | helper: as many rows as expected are the rows 0..n-1, in order |
| UploadProofs.PromotedChunks | app/notes/service.py:118-147 | helper: after promotion the attachment has exactly the staged rows and every other attachment its old chunks |
| UploadProofs.PromoteKeepsChunks | app/notes/service.py:364-388 | helper: promoting a complete upload keeps the chunk invariant of every attachment |
| NoteProofs.RecomputeRestores | app/notes/service.py:206-252 | helper: recomputing one note completes the index, whether it was given the body or loaded it |
| NoteProofs.PutBodyKeeps | app/notes/service.py:255-340 | helper: a body PUT, accepted or refused, keeps every invariant |
| NoteProofs.FinalizeKeepsInv | app/notes/service.py:343-399 | helper: finalizing a complete upload succeeds if and only if the note is active, an If-Match sent for an existing attachment quotes its etag and the content type has no U+0000; a failure changes nothing; it keeps every invariant |
| NoteProofs.CompleteKeeps | app/notes/uploads.py:207-252 | helper: completing, or failing to, keeps every invariant |
| NoteProofs.DeleteAttachmentKeeps | app/notes/service.py:402-419 | helper: deleting an attachment keeps every invariant and succeeds exactly for an existing attachment of an active note |
| NoteProofs.SoftDeleteKeeps | app/notes/service.py:434-455 | helper: deleting a note keeps every invariant |
| AccountProofs.RegisterKeeps | app/auth/router.py:47-65 | helper: registering keeps every invariant, among them that no two users share an address |
| AccountProofs.RotateKeeps | app/auth/tokens.py:60-82 | helper: rotating a token keeps every invariant |
| AccountProofs.PutVaultKeeps | app/vault/router.py:39-75 | helper: storing a vault header keeps its indexed columns those of the header |
| AccountProofs.ShareKeeps | app/shares/router.py:222-267 | helper: sharing keeps every invariant, among them one grant per note id and recipient, never to oneself |
| AccountProofs.RevokeKeeps | app/shares/router.py:275-298 | helper: revoking keeps every invariant |
| AccountProofs.RemoveSharedKeeps | app/shares/router.py:202-213 | helper: removing a shared note keeps every invariant |
| AccountProofs.DeleteUserKeeps | app/auth/router.py:113-123 | helper: deleting an account keeps every invariant for everybody else |
| Machine.StepKeeps | app/notes/uploads.py:157-252 | helper: every request keeps the invariants |
| Machine.RunKeeps | app/notes/uploads.py:157-252 | helper: every run of requests keeps the invariants |
| Downloads.ChunkServed | app/notes/router.py:149-169 | helper: each index below the advertised count is served with its length, every other index is refused as invalid |
| Downloads.DownloadMatchesEtag | app/notes/router.py:138-169 | helper: fetching all chunks yields bytes of the advertised size and hash |
| Effects.SuccessfulDelete | app/notes/service.py:402-419 | helper: deleting an attachment removes its row and all its chunks, nothing else, and the note's etag becomes that of the remaining attachments |
| Effects.SoftDeleteIff | app/notes/service.py:434-455 | helper: deleting a note succeeds exactly for active notes and leaves an empty tombstone |
| Effects.ManifestDescribes | app/notes/service.py:422-431 | helper: the manifest lists every attachment once in id order, and each entry's chunk count, size and etag are those of what can be fetched |
| Effects.RedeemsIff | app/auth/tokens.py:60-82 | helper: a refresh succeeds exactly for a stored, unrevoked token presented in time |
| Effects.RegistersIff | app/auth/router.py:47-65 | helper: registering succeeds exactly for an address nobody has up to the case of letters; the user is then found under exactly the addresses that differ from it only in case, and the token can be redeemed for exactly 30 days |
| SyncIndex.SyncEtagNamesContent | app/notes/service.py:231-243 | helper: barring a collision, equal note etags mean the same body and the same attachment etags |
| SyncIndex.SameEtagSameContent | app/notes/service.py:364-382 | helper: barring a collision, equal attachment etags mean equal bytes |
| SyncIndex.IndexAgrees | app/notes/service.py:239-252 | helper: the index of an active note in terms of its content, the stamp as an attained maximum |
| SessionSafety.CleanupEndsExpired | app/notes/uploads.py:35-49 | helper: exactly the user's expired sessions in progress are aborted and emptied; every other session keeps its row and its chunks |
| SessionSafety.ClosedRefuses | app/notes/uploads.py:90-106 | helper: a closed upload accepts neither chunks nor completion |
| RoundTrip.StartsIff | app/notes/uploads.py:117-149 | helper: an upload can be started exactly for an active note and a size from 1 byte to 2147483647 chunks |
| RoundTrip.SlicesJoin | tests/support.py:74-80 | helper: cutting bytes into chunks and joining them returns the bytes |
| RoundTrip.OwnChunk | app/notes/uploads.py:179-198 | helper: a chunk sent to an open upload is stored if and only if its length is accepted, and changes no other staged row |
| Interleaving.BackToBack | app/notes/uploads.py:166-199 | helper: the three parts of a chunk upload run without interruption are the atomic request |
| Interleaving.LostUpdate | app/notes/uploads.py:185-194 | helper: two clients that loaded the same exact counter stage two rows but count one |
| Migration.SucceedsIffSizesMatch | alembic/versions/007_migrate_attachment_data.py:43-47 | helper: into an empty chunk table it raises if and only if some row's length differs from size_bytes |
| Migration.MigratedContent | alembic/versions/007_migrate_attachment_data.py:48-69 | helper: the chunks of every row concatenate to its bytes |
| GroupedStats.SimpleStatsAnyOrder | app/notes/service.py:150-163 | helper: count and sum over the rows in any order are those of the attachment listing |
| VaultIndex.AcceptedHeaders | app/vault/router.py:44-72 | helper: an encoded header is accepted if and only if it is version 2, and is stored with its key and with algorithm 1 for 0 |
| VaultIndex.OnlyEncodingsAccepted | app/vault/router.py:44-54 | helper: whatever is accepted is the encoding of a version 2 header |
| Grants.GrantFound | app/shares/router.py:36-45 | helper: looking up a grant never meets two rows and finds one exactly when there is one |
| Grants.SharedDownload | app/shares/router.py:134-167 | helper: every chunk of a shared attachment is served, and together they have the owner's etag |
| AccountDeletion.ReferentialIntegrity | app/models.py:109-167 | helper: the invariants imply every foreign key of the schema |
| Rotation.RedeemingSpends | app/auth/tokens.py:69-81 | helper: a redeemed token was live and not past its expiry, is revoked by it, and one new token takes its place |
| Counting.CommitExactIff | app/notes/uploads.py:194 | helper: an inserting commit keeps an exact counter exact if and only if the value it loaded is still the stored one |
| Effects.LoginIff | app/auth/router.py:69-83 | helper: logging in succeeds exactly for an address that differs from a registered one in nothing but case, with the right password, and adds one token of that user; any other login is answered "invalid credentials" |
| Accounts.LowerIs | app/users/service.py:7-11 | helper: the folded address has no capital ASCII letter, and two addresses fold to the same if and only if they differ in nothing but the case of letters |
| Answers.NeedsUser | app/auth/dependencies.py:17-29 | helper: a request as a user who is gone is refused and changes nothing |
| Answers.RegisterAnswers | app/auth/router.py:47-65 | helper: the reply to every registration, and the two rows a successful one adds |
| Answers.LoginAnswers | app/auth/router.py:69-83 | helper: the reply to every login, and the one token row a successful one adds |
| Answers.RefreshAnswers | app/auth/tokens.py:60-82 | helper: the reply to every refresh, for the presented token's user, and the two rows a successful one writes |
| Answers.DeleteAccountAnswers | app/auth/router.py:113-123 | helper: a wrong password is answered "invalid credentials" and changes nothing |
| Answers.PutVaultAnswers | app/vault/router.py:39-75 | helper: the reply to every vault header, and the one row an accepted one writes |
| Answers.DeleteNoteAnswers | app/notes/service.py:434-440 | helper: the reply to every deletion of a note |
| Answers.RemoveAttachmentAnswers | app/notes/service.py:402-419 | helper: the reply to every deletion of an attachment |
| Answers.RevokeShareAnswers | app/shares/router.py:275-298 | helper: a revocation succeeds if and only if the caller has a grant of this note id to a user with this address, and any other is answered "share not found" |
| Answers.RemoveSharedAnswers | app/shares/router.py:202-213 | helper: a removal succeeds if and only if the caller has a grant of this note id |
| Answers.OwnerReadAnswers | app/notes/router.py:65-169 | helper: the owner's routes answer for active notes with what is stored, and refuse all others |
| SessionSafety.OpenSessionAnswers | app/notes/uploads.py:73-108 | helper: a session is opened or refused as missing, ended or expired, in terms of its row before the request |
| SessionSafety.CompleteAnswers | app/notes/uploads.py:215-246 | helper: which refusal a completion of an open session gets |
| NoteProofs.BodyRefusalIs | app/notes/service.py:262-280 | helper: which refusal a body that parses gets |
| NoteProofs.AttachmentRefusalIs | app/notes/service.py:354-362 | helper: which refusal a completed attachment gets |
| Rotation.OthersDoNotEnd | app/auth/tokens.py:60-95 | helper: no other request changes a stored token |
| GrantRuns.EndingEnds | app/shares/router.py:202-298 | helper: each of the ending requests is answered as done and leaves no grant of that note id to that recipient |
| GrantRuns.OnlyTheseEnd | app/shares/router.py:202-298 | helper: no other request removes or changes a grant |
| GrantRuns.OnlyShareMakes | app/shares/router.py:222-267 | helper: a grant comes about only by a successful share request |
| EtagText.PayloadIs | app/notes/service.py:55-56 | helper: the payload of a note, position by position |
| EtagText.UuidTextIs | app/notes/service.py:55 | helper: each character of an id's text is a hyphen or the hexadecimal digit of that place |
| EtagText.PartOrdered | app/notes/service.py:55 | helper: sorting the texts is sorting by id |
| EtagText.StripQuotesIs | app/notes/service.py:278 | helper: stripping takes away the quotes at both ends and nothing else |
| ByteLayout.LeadingByte | app/parsers/buffer.py:32-36 | helper: the first byte of an integer is the most significant |
| ByteLayout.CharBits | app/parsers/buffer.py:42-43 | helper: number, leading bits and payload bits of the octets of each character (section 3 of RFC 3629) |
| ChunkMath.TieIsEven | app/notes/service.py:38 | helper: a quotient halfway between two doubles is rounded to the even one |
| Migration.RaisesAtFirst | alembic/versions/007_migrate_attachment_data.py:43-47 | helper: the failure names the first row, in key order, whose length is wrong |
| Interleaving.CommitAnswers | app/notes/uploads.py:179-198 | helper: which commits of a chunk upload in flight succeed, and what they write |
| GroupedStats.NewestFirstExists | app/notes/router.py:45 | helper: there always is an order by descending updated_at |

## Left out

- WorldRunKeeps: only `upload_chunk` is split into steps; `complete_upload` and all other handlers stay atomic, and an upload id in use by a client is assumed not to be issued again. Races between two initialisations or two rotations are not excluded by the code.
- RedeemedAtMostOnce: holds of atomic handlers and of token hashes that are issued once.
- SessionInvariant: the single session in progress holds of atomic handlers only; for the count under interleaving see CountsExactlyIff.
- Serve: the bearer header and the signature of the access token are not modelled; a request carries the user id its token decodes to.
- RegisterUser: password hashing is foreign code and no hash is stored; addresses are folded for ASCII letters only.
- LoginUser: bcrypt is foreign code; whether the password matched is part of the request. Addresses are folded for ASCII letters only.
- DeleteAccount: bcrypt is foreign code; whether the password matched is part of the request.
- ShareNote: base64 is foreign code; the wrapped key arrives decoded, or as a failure to decode. Addresses are folded for ASCII letters only.
- RevokeShare: addresses are folded for ASCII letters only.
- RegistersIff: addresses are folded for ASCII letters only.
- LoginIff: addresses are folded for ASCII letters only.
- LowerIs: addresses are folded for ASCII letters only; so are those of RegisterAnswers, LoginAnswers, ShareNoteAnswers and RevokeShareAnswers.
- EndedGrantIsOver: holds of atomic handlers.
- TokenLasts: holds of atomic handlers.
- SharesIff: base64 decoding and the folding of other than ASCII letters are not modelled.
- Attachments and sessions of deleted notes: soft deletion does not touch upload sessions, and a chunk upload does not look at the note; the model does the same.
- The list of notes shared with a user and the public-key lookup: queries that only pair up rows whose agreement is proved here.
- The inside of SHA-256, of bcrypt, of access tokens and of base64.
- HTTP routing, request schemas, logging, configuration and static pages.
- Columns that nothing here depends on: creation times, `shared_at`, the vault header's `updated_at`, `sync_state` (always "synced"), the session status "complete" (never written), and the content type given when an upload is started (never stored).
- Surrogate keys of token rows: a token is identified by its unique hash.
- The exception of `math.ceil` on a quotient too large for a double: such sizes end in `Crash` like every other size above the bound.
- SQLAlchemy's session and identity map, and isolation levels beyond the one interleaving.
- Schema-only migrations, and the downgrade of migration 007.
