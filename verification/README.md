# maintainerd-secret: a verified model

A Dafny model of the parts of maintainerd-secret, a secret manager written in Go, whose
correctness is not visible in one function: the reference resolver, leader election,
envelope encryption and root-key rotation, folder moves, dynamic database credentials,
read leases, audit before disclosure, and first-run setup.

`dafny verify dfyconfig.toml` checks everything.

## How it is organised

| part | files |
|---|---|
| shared shapes and Go string operations | `Results.dfy`, `Text.dfy`, `Audit.dfy` |
| references | `References.dfy` (the scanner, the resolver, the write-time check), `ReferenceGraph.dfy` (what it means and leaves behind), `ReferenceAudit.dfy` (the log of every run and the truth of every failure) |
| leader election | `LeaderProtocol.dfy` (small steps over any number of replicas), `Elector.dfy` (the classes, proved to take those steps) |
| encryption and rotation | `Envelope.dfy`, `KeyRings.dfy`, `Rewrap.dfy` (one rotation, any call failing), `RewrapProtocol.dfy` (any interleaving of processes), `KeyMaterial.dfy` |
| folders | `Paths.dfy`, `Folders.dfy` (the statements), `FolderService.dfy` (the transactions), `FolderRaces.dfy` (writes and moves interleaved) |
| dynamic credentials | `SqlTemplate.dfy`, `SqlLiteral.dfy` (substitution and quoting), `SqlLexer.dfy` (how PostgreSQL reads the result), `Redaction.dfy`, `RoleConfig.dfy`, `Credentials.dfy`, `AcceptedTemplates.dfy` (what the check lets through), `Reaper.dfy`, `DynamicLifecycle.dfy` |
| read leases | `ReadLease.dfy` |
| disclosure | `Disclosure.dfy`, `RevealOutcome.dfy` (when a value is handed back and what each failure tells) |
| setup | `Setup.dfy` |

The source's objects that update their fields are classes whose methods are proved against
specification functions; protocols that many processes run are state machines over one
database statement at a time. Clocks, random bytes, the outcome of every audit write and of
every database call, and what other replicas do in between are inputs of the model, so each
theorem holds for all of them. A session, an audit write or a process may fail at any step.

AES-GCM is symbolic: a box opens under exactly the key, nonce and additional data it was
sealed with, as NIST SP 800-38D promises. A root key is its id and its key, and an id is a
fingerprint, so equal ids mean equal keys.

## Where the code does less than its documentation says

Each of these is a lemma, with the exact condition under which the documented behaviour holds.

- `ValidateRoleName` does not make the three passes of `Render` safe: the name `sswo` completes
  a password placeholder. Generated names hold an underscore, which does (`RenderSafeIff`,
  `AcceptedNameCanBeUnsafe`, `UnderscoreIsNoPiece`).
- `refuseQuotedPlaceholder` looks only at the neighbouring characters. It stores templates with a
  placeholder deeper in a quoted run, whose password survives scrubbing, with two adjacent
  placeholders, which are read as one string, and with a placeholder after a literal and a newline,
  an escape prefix, a comment start or an open dollar quote (`AcceptedTemplateCanShowPassword`,
  `AcceptedNeighboursRunTogether`, `SixStoredAndMisplaced`). Exactly the well-placed templates read
  back and exactly those without a placeholder in a run are hidden by scrubbing (`AllReadBackIff`,
  `RedactionHidesPasswordIff`).
- Release says that closing the connection ends the session and so frees the lock. If the connection
  is lost before the unlock ran, the lock stays held until the server notices; two live leaders are
  excluded all the same (`ReleaseFreesTheLockIff`, `LockCanBeOrphaned`, `AtMostOneLiveLeader`).
- The bound on leased reads assumes clocks in step. Where replicas and database may be ahead or
  behind, the exact bound shrinks the TTL by both (`ReadsBounded`, `BoundIsMet`,
  `UnskewedBoundFails`, `FastReplicaSupersedes`).
- A retired root key can be referenced again: a process that still has it as its write key can
  write after the count (`DrainedForGoodIff`).
- A secret restored after its folder was moved keeps its old resource name, and one restored after
  its folder was deleted is live without a live folder although the call reports not found
  (`DeletedSecretStaysNamedIff`, `FolderService.RestoreSecret`).
- A write and a move of its folder are transactions that do not wait for each other. A write that
  overlaps the move leaves its secret under the old name (`WriteIsSafeIff`, `OverlapIsReachable`);
  without an overlap names stay right (`CarefulRunsKeepNames`).
- A folder move does not look at how deep the moved folders end up; beyond the limits they can no
  longer be named (`MovedFolderIsNameableIff`).
- `limit` failing leases at the head of the reaper's queue starve every lease behind them
  (`StarvedBehindFailures`); below that the queue drains (`DrainBound`). A deleted DSN secret is
  counted as failed and not, as a comment has it, as skipped, since the store reports it as
  unavailable (`Reaper.LeaseStore.Revoke`).
- An account can be left without a lease not only by a failed local commit, as the comments say,
  but also by a target that commits without its answer arriving (`LostIff`). The delete guard of a
  role is two statements and can be overtaken (`StrandedIsReachable`, `DeleteNeverStrandsIff`), but
  the lease it leaves can still be closed, because the revocation reads deleted configurations too;
  what it needs is the tenant, the DSN secret, and the account or a template with IF EXISTS
  (`ClosesAtOnceIff`, `CanBeClosedIff`). Without IF EXISTS a drop that was not marked wedges the
  lease, for good once its role or project is deleted (`WedgedWithoutIfExists`).
- The check of a revocation template looks for words: it stores one that is a comment as a whole and
  drops nothing (`CommentedDropIsStored`).
- `Provision` reads every conflict as a lost race. With a system tenant of another name it ends as
  not found, and with a soft-deleted environment of the name it succeeds without a usable one
  (`Database.Provision`, `ForeignSystemTenantRefuses`, `SuccessIsUsableIff`, `SuccessCanBeUnusable`).
- A base64 text of 64 hex digits is read as hex, so a 48-byte key can be taken for another, 32-byte
  one (`ReadsPrinted`, `LongKeyCanPassAsHex`).
- The identity encoding is injective up to fields of 2^32 bytes (`AadInjective`,
  `AadCollidesBeyondPrefix`). Callers fill those fields with UUIDs, so the collision is one of the
  function and not of stored versions.
- `isAuditFailure` holds of any internal error, so one that is no audit failure aborts a batch as
  well (`BatchTrail`, `Discloser.BatchGet`).

## Model

| member | source | states |
|---|---|---|
| `LeaderProtocol.AtMostOneLiveLeader` | internal/leader/leader.go:268-332 | in every reachable state of N replicas, with sessions dying and replicas crashing at any step, at most one replica has its flag set over a living session, and that session holds the lock |
| `LeaderProtocol.TwoFlagsAreReachable` | internal/leader/leader.go:398-408 | two flags can be set at once (a concrete run), one of them over a dead session: the window the package documents |
| `LeaderProtocol.TwoFlagsUntilHeartbeat` | internal/leader/leader.go:398-428 | of two replicas reporting leadership one is over a dead session; whatever happens in the cluster it reports so until its own next heartbeat, and that heartbeat clears its flag |
| `LeaderProtocol.HeartbeatKeepsLeader` | internal/leader/leader.go:409-428 | a heartbeat of a live leader whose ping answers changes nothing |
| `LeaderProtocol.FlagClearedBeforeUnlock` | internal/leader/leader.go:313-332 | no replica whose unlock is still to run reports leadership, in any reachable state, and none does after it |
| `LeaderProtocol.ReleaseFreesTheLockIff` | internal/leader/postgres.go:150-170 | all exits of Release end with the lock not held by that session and with the session destroyed or pooled without it, except exactly when the connection is lost before the unlock ran and the server has yet to notice |
| `LeaderProtocol.LockAlwaysOwned` | internal/leader/postgres.go:136-144 | over every run: whoever holds the lock is alive and no idle pooled connection; while no connection was lost unnoticed, it belongs to a replica that leads or is inside a call that ends by leading or releasing |
| `LeaderProtocol.LockCanBeOrphaned` | internal/leader/postgres.go:136-144 | a connection lost as the lock is granted leaves the lock held by nobody, until the server notices: a concrete run, and no other step frees it |
| `LeaderProtocol.FreeLockIsTaken` | internal/leader/leader.go:268-291 | a follower that campaigns while the lock is free becomes the one live leader |
| `LeaderProtocol.CampaignComesTo` | internal/leader/postgres.go:84-144 | one attempt on any connection, pooled or new, however its statement ends: granted exactly if it is answered over a living session and nobody holds the lock, and the connection back in the pool exactly if it still works and nothing was granted |
| `LeaderProtocol.HeldLockIsNotGranted` | internal/leader/postgres.go:84-105 | while a session holds the lock no campaign of another replica is granted |
| `LeaderProtocol.StepKeepsInv` | internal/leader/postgres.go:84-170 | every elect, heartbeat, resign, unlock, lost connection, session death and crash keeps the coherence of replicas and lock manager |
| `Elector.PgLocker.TryLock` | internal/leader/postgres.go:84-105 | the lock-session code makes exactly the protocol step of a campaign, with its three outcomes kept apart |
| `Elector.PgLocker.Release` | internal/leader/postgres.go:150-170 | the unlock code makes exactly the protocol step, destroying the session on the error exits |
| `Elector.Elector.Elect` | internal/leader/leader.go:268-291 | an election attempt is the campaign step, followed by the adopting step when the lock was granted |
| `Elector.Elector.ReleaseLocked` | internal/leader/leader.go:313-332 | the flag is cleared and the session taken away before the unlock step |
| `Elector.Elector.Heartbeat` | internal/leader/leader.go:409-428 | the verification is the heartbeat step, with the unlock when it stands down |
| `Elector.Elector.Step` | internal/leader/leader.go:379-396 | one loop iteration, whatever the database answers, has exactly the effect of the election steps for a follower and of the verification steps for a leader |
| `Elector.IterationIsARun` | internal/leader/leader.go:379-396 | that effect, in any reachable cluster around the replica, is a run of its own protocol steps, so the cluster stays reachable and has one live leader at most |
| `Elector.IterationDecides` | internal/leader/leader.go:379-396 | after one iteration a leader still leads exactly if its ping answered, a follower leads exactly if its campaign was answered over a living session while the lock was free, whoever leads does so over the session that holds the lock, and a leader that stands down gives the lock up unless its connection was lost before the unlock ran |
| `SqlTemplate.RenderIsSimultaneous` | internal/dynamic/dynamic.go:466-474 | the three successive passes equal one simultaneous substitution for every template, password and instant, if the role name is no piece of a later placeholder |
| `SqlTemplate.RenderSafeIff` | internal/dynamic/dynamic.go:466-474 | for an accepted role name the passes are safe in every template if and only if the name is no piece of a later placeholder |
| `SqlTemplate.AcceptedNameCanBeUnsafe` | internal/dynamic/dynamic.go:367-387 | the role-name allowlist alone does not ensure it: an accepted name and a template on which the passes differ |
| `SqlTemplate.UnderscoreIsNoPiece` | internal/dynamic/dynamic.go:395-420 | a name with an underscore, as every generated one has, is no piece of a placeholder |
| `SqlTemplate.RenderRefusesIff` | internal/dynamic/dynamic.go:466-469 | whatever the template, rendering refuses exactly the names that are not in the allowlist |
| `SqlLiteral.RefuseQuoted` | internal/dynamic/dynamic.go:253-272 | the index loop refuses exactly the statements in which some occurrence of the placeholder touches a quote |
| `SqlLiteral.RefuseQuotedPlaceholder` | internal/dynamic/dynamic.go:253-272 | a template passes exactly when no password or expiration placeholder touches a quote |
| `SqlLiteral.AcceptedIff` | internal/dynamic/dynamic.go:253-272 | that is: however the template is cut at such a placeholder, no quote stands directly before it or after it |
| `SqlLexer.LiteralReadsBackIff` | internal/dynamic/dynamic.go:483-485 | in any statement a quoted value is read back as exactly that value (sections 4.1 and 4.1.2 of the PostgreSQL documentation) if and only if the text before it ends where a quote begins a standard string and the text after it does not carry the string on |
| `SqlLexer.SubstitutedValueReadsBackIff` | internal/dynamic/dynamic.go:466-485 | the same for a placeholder anywhere in any template, of the rendered text before and after it: quoted runs, comments, dollar quotes, escape prefixes and literals continued over a newline included |
| `SqlLexer.AllReadBackIff` | internal/dynamic/dynamic.go:466-485 | all the values rendering puts in are read back, whatever they are, if and only if the template places every value placeholder well, a condition on the template and the role name only |
| `AcceptedTemplates.OrdinaryTemplateIsPlaced` | internal/dynamic/dynamic.go:234-272 | the ordinary template meets both the check and that condition, for every role name |
| `AcceptedTemplates.AcceptedTemplateCanShowPassword` | internal/dynamic/dynamic.go:234-272 | a template the configuration check stores, with its placeholder in a quoted run: the scrubbed rendering is the template with the password in the open |
| `AcceptedTemplates.AcceptedNeighboursRunTogether` | internal/dynamic/dynamic.go:253-272 | a stored template with two placeholders side by side: in every rendering the two values are read as one string constant |
| `AcceptedTemplates.StoredAndMisplaced` | internal/dynamic/dynamic.go:253-272 | whatever text leads to a place where a quote begins no standard string, a template with the password there is stored and never read back |
| `AcceptedTemplates.SixStoredAndMisplaced` | internal/dynamic/dynamic.go:253-272 | six such templates, stored and misplaced under every role name: after a literal and a newline, after an escape prefix, in a comment, and in a dollar quote opened on its own, after a number or after a parameter |
| `AcceptedTemplates.CommentedDropIsStored` | internal/dynamic/dynamic.go:218-232 | a stored revocation template whose rendering is one comment under every role name, so that it drops nothing |
| `Redaction.Scrubbed` | internal/dynamic/provisioner.go:197-221 | the byte loop, with its early exit, computes the scrubbed text |
| `Redaction.ScrubEqualIff` | internal/dynamic/provisioner.go:197-221 | two messages scrub alike if and only if they agree outside quoted runs and in where the runs lie |
| `Redaction.ScrubKeepsVisible` | internal/dynamic/provisioner.go:197-221 | scrubbing leaves the text outside the runs as it was |
| `Redaction.ScrubIdempotent` | internal/dynamic/provisioner.go:197-221 | scrubbing twice is scrubbing once |
| `Redaction.RedactionHidesPasswordIff` | internal/dynamic/provisioner.go:197-221 | the scrubbed rendering depends on the password through its number of quotes only, and is the same for all generated forty-character passwords if and only if no password placeholder sits in a quoted run of the template; otherwise it differs for any two |
| `Redaction.ToldApartIff` | internal/dynamic/provisioner.go:197-221 | any two different quote-free passwords of one length are told apart by the scrubbed text exactly if a placeholder sits in a quoted run |
| `References.UnparsePieces` | internal/api/reference.go:69-105 | reading a template into literals and placeholders loses nothing: writing the pieces gives the template back |
| `References.PiecesUnparse` | internal/api/reference.go:69-105 | and the reading is the only one: canonical pieces, written out, read back as themselves |
| `References.SplitReferencePathFormats` | internal/store/resources.go:210-226 | an address written from its parts splits into those parts |
| `References.SplitReferencePathReads` | internal/store/resources.go:210-226 | with slashes around it, and space around these, a text of three names or more is the address they make, and one of fewer is none |
| `References.Resolver.ResolveReferences` | internal/api/reference.go:54-61 | the resolver computes the specified result and log |
| `References.Resolver.ExpandTemplate` | internal/api/reference.go:69-105 | the scanning loop resolves exactly the pieces of the template in order, with the depth bound checked first; terminates on the remaining depth and text |
| `References.Resolver.ResolveOneReference` | internal/api/reference.go:108-182 | address, name, cycle check, grant check, read, audit row, wiping and nested expansion, in that order and with those error exits |
| `References.Resolver.CheckGrant` | internal/api/service.go:211-225 | the grant check logs itself and, when it fails, a denial row |
| `References.Resolver.RecordRow` | internal/api/service.go:234-244 | an audit write is logged with whether it was written |
| `References.ValidateReferenceTemplate` | internal/api/validation.go:173-211 | the write-time scanner accepts exactly the templates that hold a placeholder and all of whose pieces are well formed |
| `References.CheckPlaceholders` | internal/api/validation.go:173-211 | its loop stops at the first ill-formed placeholder and at nothing else |
| `ReferenceGraph.ResolvesIff` | internal/api/reference.go:54-182 | with audit writes succeeding, resolution succeeds if and only if every walk along references from the origin ends well: acyclic, within the depth bound, scannable, existing, granted |
| `ReferenceGraph.SuccessIsMeaning` | internal/api/reference.go:69-182 | a success returns the denotation of the template; other values go in verbatim and are never scanned again |
| `ReferenceGraph.ResolveReturnsMeaning` | internal/api/reference.go:54-61 | whatever depth a denotation is taken at, the resolved value is that denotation |
| `ReferenceGraph.MeaningIsStable` | internal/api/reference.go:69-182 | following references deeper never changes the meaning of a template that has one |
| `ReferenceGraph.ChainsAreDistinct` | internal/api/reference.go:126-133 | along every walk of a resolved template the origin and the targets are pairwise distinct |
| `ReferenceGraph.ResolveTrail` | internal/api/reference.go:108-182 | each decryption directly follows its own passed grant check, is never of the origin and is wiped again; a target met again on its chain causes neither check nor decryption; the success rows are exactly the returned hops, in order |
| `ReferenceGraph.CheckedNeverFailsToScan` | internal/api/validation.go:173-211 | over a store of checked templates, a checked template never fails in the scanner of the resolver |
| `ReferenceAudit.ResolutionLog` | internal/api/reference.go:108-182 | in the log of every run, failed ones included: a success row directly follows the decryption of its own name and names its referrer and hop; a refused check is followed by the denied row of that name; a passed check is followed by its decryption or by the failure row of that name; and every row says whether it was written |
| `ReferenceAudit.FailureIsTrue` | internal/api/reference.go:69-182 | whatever error a resolution ends in is the truth about the end of some walk from the origin: too deep, not closed, no address, a cycle, a missing grant, an error of the store, or an audit row that was not written |
| `ReferenceAudit.ResolvesIffRecorded` | internal/api/reference.go:54-182 | whichever audit writes fail, resolution succeeds if and only if every walk ends well and every success row it writes is written |
| `Envelope.BuildAad` | internal/crypto/envelope.go:73-86 | the buffer loop builds the length-prefixed encoding of the identity |
| `Envelope.AadLayout` | internal/crypto/envelope.go:73-86 | what is authenticated, in this order: the domain, the tenant and the secret, each after its length, and the version, all numbers four bytes and big-endian |
| `Envelope.AadInjective` | internal/crypto/envelope.go:73-86 | two identities with fields shorter than 2^32 bytes are encoded alike if and only if they are equal |
| `Envelope.AadCollidesBeyondPrefix` | internal/crypto/envelope.go:73-86 | the bound is needed: at 2^32 bytes the length prefix wraps and two identities collide |
| `Envelope.OpensIff` | internal/crypto/envelope.go:127-220 | a sealed version opens to its plaintext under exactly the root key and the identity it was sealed with |
| `Envelope.SealsIff` | internal/crypto/envelope.go:127-169 | sealing fails exactly for a version below 1, and what is sealed opens under its own key and identity |
| `Envelope.UnwrapsIff` | internal/crypto/rootkey.go:258-290 | a root key unwraps, of anything it is shown, exactly what it has itself wrapped under its own id |
| `Envelope.OpensToIff` | internal/crypto/envelope.go:179-220 | any envelope at all opens to a plaintext if and only if its key column is empty or names the key, the key unwraps its DEK, that DEK sealed the plaintext for the identity, and its checksum column is empty or the plaintext has it |
| `Envelope.UnwrapsOwnIdOnly` | internal/crypto/rootkey.go:258-290 | a wrapped DEK is unwrapped by exactly the key of the same bytes and the same id |
| `Envelope.RewrappedOpensIff` | internal/crypto/envelope.go:127-242 | a version sealed under one root key and rewrapped through any others opens under exactly the last one and exactly its own identity, to its plaintext, and with an altered checksum column only if that is the checksum of the plaintext or empty |
| `Envelope.RewrapThroughKeepsOpening` | internal/crypto/envelope.go:229-242 | whatever an envelope opens to, if anything, for any identity, it opens to the same after being rewrapped through any keys |
| `KeyRings.KeyRing.NewKeyRing` | internal/crypto/keyring.go:29-42 | the ring holds the write key and every superseded key given, each under its own id; a missing one is skipped |
| `KeyRings.KeyRing.FindProvider` | internal/crypto/keyring.go:56-64 | a lookup finds the key filed under the id, or fails |
| `KeyRings.KeyRing.Add` | internal/crypto/keyring.go:68-75 | an added key can read; the write key stays |
| `KeyRings.RegisteredIsWellFiled` | internal/crypto/keyring.go:29-42 | registering keeps every key under its own id and drops none |
| `KeyRings.RingReadsBackIff` | internal/crypto/keyring.go:29-64 | a ring reads back what was written under a key if and only if it was given that key, as write key or among the superseded ones, in whatever order |
| `Rewrap.RewrapAll` | internal/crypto/rewrap.go:76-145 | whatever call fails, rows are only carried and counted exactly; a run that finishes has moved every row, reports none remaining and retires the key; with no failing call it finishes exactly when every row under the key unwraps; a finished run has saved each row once and listed one batch more than were full |
| `Rewrap.Drain` | internal/crypto/rewrap.go:98-124 | the loop moves exactly the rows it counts and stops only at a failure or with nothing left; a loop that is not stopped lists one batch more than were full; with no failing call it is stopped only by a row that does not unwrap |
| `Rewrap.RewrapBatch` | internal/crypto/rewrap.go:106-115 | one listed batch moves and saves each wrap before the next, taking exactly those off the queue |
| `Rewrap.HeadLeavesQueue` | internal/storage/queries/secret_version.sql:58-78 | the guarded update changes the one row listed and takes exactly that one off the queue |
| `Rewrap.RotationsOpenAlike` | internal/crypto/rewrap.go:76-145 | after any number of rotations between any keys of the ring, each cut short anywhere, every row opens as at the start with the same ciphertext, nonce and checksum |
| `Rewrap.ResumedEqualsUninterrupted` | internal/crypto/rewrap.go:64-70 | however often a rotation was cut short and resumed, once nothing is left under the key the rows hold the DEKs and keys an uninterrupted one leaves |
| `Rewrap.RewrapStore.ListVersionWraps` | internal/storage/queries/secret_version.sql:58-62 | the lowest rows under the key, up to the limit |
| `Rewrap.RewrapStore.RewrapVersion` | internal/store/rootkeys.go:124-140 | the update is guarded on the source key; a row that has moved is left alone |
| `Rewrap.RewrapStore.RetireRootKey` | internal/store/rootkeys.go:146-158 | retires a known key that is not the active one, and nothing else |
| `RewrapProtocol.EveryVersionOpens` | internal/crypto/rewrap.go:76-145 | at every state of every interleaving of writers, rewrappers, crashes and restarts, each stored version opens to what was written under any ring holding its key, with its payload columns as written |
| `RewrapProtocol.WriterReadsItsOwn` | internal/crypto/keyring.go:45-64 | a process can open whatever is stored under its own write key |
| `RewrapProtocol.StepKeepsInv` | internal/crypto/rewrap.go:99-145 | listing, saving a possibly stale wrap, counting, retiring, writing, pruning and crashing each keep every row intact |
| `RewrapProtocol.RotationsAgree` | internal/crypto/rewrap.go:64-70 | any two complete rotations from one state, concurrent, crashed or not, end with the same DEKs and keys |
| `RewrapProtocol.RetiredWasCounted` | internal/store/rootkeys.go:30-57 | over every run at most one key is active, and a key is retired only if earlier in the run a process rewrapping from it counted while no version was stored under it |
| `RewrapProtocol.DrainedForGoodIff` | internal/crypto/rewrap.go:72-75 | after a zero count no run that boots no process under the key makes it referenced again if and only if no running process still has it as its write key |
| `Paths.SplitInvertsJoin` | internal/store/paths.go:130-147 | splitting a joined path gives back parent and name |
| `Paths.JoinInvertsSplit` | internal/store/paths.go:130-147 | joining a split path gives back the path |
| `Paths.AtOrUnderIff` | internal/store/paths.go:152-160 | the string test holds exactly when the ancestor names are a prefix of the candidate names |
| `Paths.EscapeLike` | internal/store/paths.go:182-193 | the loop escapes exactly the LIKE metacharacters |
| `Paths.SubtreePatternIff` | internal/store/paths.go:173-193 | equality or LIKE together select exactly the paths at or under the folder, the root and wildcard characters in names included |
| `Paths.SplitSegments` | internal/store/service.go:765-778 | one scan yields the names of the path |
| `Paths.NameableIff` | internal/store/paths.go:91-126 | the paths a caller can name are exactly the canonical ones, and normalizing leaves those alone |
| `Paths.NormalizesToItsNames` | internal/store/paths.go:91-126 | any text is normalized to the path of its names, whatever slashes, dots and space stand around them; it is refused exactly if it steps up or that path is beyond the limits or no valid name |
| `Folders.AncestorIsLive` | migrations/00004_create_folders.sql:45-51 | every ancestor path of a live folder is a live folder: the parent chain is acyclic and reaches the root |
| `Folders.MovedPaths` | internal/storage/folder.sql.go:250-257 | a move re-roots exactly the folders at or under the source; every other row, in or out of the environment, is untouched |
| `Folders.MoveKeepsTree` | internal/storage/folder.sql.go:250-291 | after a move every live path is still its parent path joined with its name, and paths are unique |
| `Folders.MovingBackRestores` | internal/storage/folder.sql.go:250-291 | moving back under the old parent and name restores every row |
| `Folders.StatementsCommuteIff` | internal/storage/folder.sql.go:250-305 | the two statements commute unless the destination lies strictly inside the source |
| `Folders.RefreshRestoresNames` | internal/storage/queries/secret.sql:268-284 | refreshing the destination subtree leaves every live secret named after its folder |
| `Folders.DeletedSecretStaysNamedIff` | internal/storage/queries/secret.sql:274-284 | a secret deleted before a move keeps a right name if and only if its folder was not moved |
| `Folders.MovedFolderIsNameableIff` | internal/store/service.go:479-502 | a moved folder can still be named if and only if its new path is within the limits, which a move does not look at |
| `Folders.ResourcePathInjective` | internal/store/paths.go:202-207 | two folder paths give the same resource path if and only if they are equal |
| `Folders.ResourcePathLayout` | internal/store/paths.go:202-207 | a resource path is the slug, the names of the folder path and the key, in that order |
| `Folders.ResourcePathsDiffer` | internal/store/paths.go:202-207 | two secrets are named alike if and only if they agree in slug, folder path and key |
| `FolderService.FolderService.GetFolderByPath` | internal/storage/queries/folder.sql:35-43 | finds the live folder at a path if there is one |
| `FolderService.FolderService.EnsureFolderPath` | internal/store/service.go:717-763 | creates exactly the missing ancestors and keeps the tree |
| `FolderService.FolderService.MoveFolder` | internal/store/service.go:479-569 | each refusal exactly when the code refuses and with no effect; otherwise exactly the subtree is re-rooted, missing ancestors created and live secrets renamed, in a valid tree |
| `FolderService.FolderService.MoveSubtree` | internal/store/service.go:535-561 | the three writes of a move, in order |
| `FolderService.FolderService.DeleteFolder` | internal/store/service.go:574-621 | exactly the folders of the subtree and exactly the live secrets in them are soft-deleted, every other row is as it was, and the secrets are counted |
| `FolderService.FolderService.CreateEnvironment` | internal/store/service.go:297-351 | a new environment comes with its root folder, the only way a root is made |
| `FolderService.FolderService.PutSecret` | internal/store/secrets.go:115-176 | the live secret of that key in the folder at the path if there is one, and only otherwise a new one, named after the folder, so that a folder has one live secret of a key; folders are created only on request |
| `FolderService.FolderService.RestoreSecret` | internal/store/secrets.go:543-568 | the row is live again before its folder is looked up and keeps its old name, so addresses stay right if and only if the folder is live and still has that path |
| `FolderRaces.CarefulRunsKeepNames` | internal/store/service.go:509-561 | over every interleaving of writes and moves in which no write overlaps a move of its folder, every live secret is named after its folder |
| `FolderRaces.WriteIsSafeIff` | internal/store/secrets.go:115-176 | a write is rightly named, then and after whatever else commits without an overlap, if and only if its folder has not moved since it was read and is not in the subtree of a move under way |
| `FolderRaces.OverlapIsReachable` | internal/store/service.go:509-561 | any move can commit between the reading of its folder and the commit of a write: a run from every sound state |
| `Reaper.LeaseStore.ListExpired` | internal/storage/queries/dynamic.sql:139-152 | the oldest open expired leases, up to the limit |
| `Reaper.LeaseStore.Revoke` | internal/store/dynamic.go:600-643 | the row is closed only after a confirmed drop and only if open; a recorded refusal leaves it open with one more attempt, any other failure as it was; a missing DSN secret is no skip |
| `Reaper.LeaseStore.Reap` | internal/api/dynamic.go:440-513 | Due = Revoked + Failed + Skipped, each listed lease counted once under what it met, and exactly the revoked ones closed |
| `Reaper.DrainBound` | internal/api/dynamic.go:440-513 | with f < limit leases refused for good, k passes leave at most n - f - k(limit - f) of the others, whatever expires later |
| `Reaper.DrainedWithin` | internal/api/dynamic.go:440-513 | ceil((n - f) / (limit - f)) passes close every lease that is not refused |
| `Reaper.StarvedBehindFailures` | internal/storage/queries/dynamic.sql:139-152 | f < limit is needed: behind limit earlier leases that keep failing, in whatever way, a lease is never attempted, in any number of passes |
| `Reaper.RevokedOnce` | internal/storage/queries/dynamic.sql:116-126 | over any passes a closed lease stays closed with the moment it was closed |
| `Reaper.PassLeaves` | internal/storage/queries/dynamic.sql:120-137 | one pass closes a listed lease, at its own moment, exactly if the drop was confirmed and written down; that and a recorded refusal count as an attempt; no other lease changes |
| `DynamicLifecycle.UnaccountedIffLost` | internal/store/dynamic.go:367-457 | in every interleaving an account with neither an open lease nor a commit pending is one whose local commit or target answer was lost, and only that |
| `DynamicLifecycle.LostIff` | internal/store/dynamic.go:421-447 | over every run an account is lost if and only if at some step its local commit failed after the target committed, or the target committed unanswered |
| `DynamicLifecycle.LostForGood` | internal/store/dynamic.go:600-643 | a lost account has no lease and is never dropped by any later step |
| `DynamicLifecycle.LeasedAccountGoneOrOpen` | internal/api/dynamic.go:286-305 | once a lease exists its account is gone or the lease open, an issue abandoned on an audit failure included |
| `DynamicLifecycle.RevokedAtIsFinal` | internal/storage/queries/dynamic.sql:116-126 | revoked_at is set at most once and never changes |
| `DynamicLifecycle.IssueRefusedIff` | internal/store/dynamic.go:367-400 | an issue is refused unless role, tenant and project are there, the role is active and its DSN can be read, each with its own class of error and the missing role told first |
| `DynamicLifecycle.ClosesAtOnceIff` | internal/store/dynamic.go:600-643 | an open lease can be closed at once, it and its account only, if and only if its tenant lives, its DSN secret can be read, and its account is there or the stored template tolerates that it is not; whether the role was deleted does not matter |
| `DynamicLifecycle.CanBeClosedIff` | internal/store/dynamic.go:600-643 | some run closes it if and only if its tenant lives and the account is there, the template tolerates its absence or can still be corrected, or a revocation under way has read enough to finish |
| `DynamicLifecycle.WedgedWithoutIfExists` | internal/store/dynamic.go:634-638 | a concrete run without IF EXISTS: dropped but not marked, the lease can be closed only after the template is corrected, and never again once the role or its project is deleted |
| `DynamicLifecycle.Broker.IssueLease` | internal/store/dynamic.go:367-457 | row first, account inside its transaction, commit last; which failures leave an account behind, exactly |
| `DynamicLifecycle.Broker.RevokeLease` | internal/store/dynamic.go:474-515 | idempotent on a closed lease; otherwise closed exactly if the DSN resolves and the drop, refused for an absent account unless the template tolerates it, and the mark both succeed, and open after any failure |
| `DynamicLifecycle.Broker.IssueDynamicCredential` | internal/api/dynamic.go:258-307 | a credential is handed out exactly if the account was created, its lease committed and its audit row written; one abandoned for the audit row ends with the account gone or its lease open |
| `DynamicLifecycle.NothingStrandedIfSafe` | internal/store/dynamic.go:286-318 | over every run whose role deletions each find no open lease and no issue of the role under way, every open lease has an undeleted role |
| `DynamicLifecycle.SafeDeletionsWedgeNothing` | internal/store/dynamic.go:286-318 | over such a run every open lease whose tenant and project live can be closed |
| `DynamicLifecycle.DeleteNeverStrandsIff` | internal/store/dynamic.go:286-318 | no run after a deletion leaves a lease of that role open if and only if the deletion found none open and no issue of the role under way |
| `DynamicLifecycle.StrandedIsReachable` | internal/store/dynamic.go:293-318 | and that does happen: a concrete interleaving |
| `ReadLease.RefusedUntilExpiry` | internal/lease/lease.go:189-213 | an exhausted requester is refused over any run while its lease runs, and never for its reads at or after the expiry |
| `ReadLease.LeaseTable.AuthorizeLeasedRead` | internal/store/leases.go:207-309 | the transaction issues, supersedes, consumes or refuses as decided, re-checked by the database clock; a refusal leaves no trace |
| `ReadLease.ReadIsServedIff` | internal/storage/queries/secret_lease.sql:36-44 | a read is served if and only if the secret has not expired and its lease, the running one or else a new one, has a read left and is not over by the database clock; what it leaves is that lease with one more read used, and otherwise what was there |
| `ReadLease.UncappedIsNeverExhausted` | internal/storage/queries/secret_lease.sql:44-44 | over any run without a cap, one more read is refused only because the secret has expired or its lease is over by the database clock |
| `ReadLease.UncappedServesEveryRead` | internal/lease/lease.go:110-120 | without a cap and with the clocks in step, every read of every run is served until the secret expires |
| `ReadLease.ReadsBounded` | internal/lease/lease.go:27-38 | at most (floor(D / (TTL - ahead - behind)) + 1) * MaxReads reads are served within D of the first, by replicas and a database whose clocks are off by no more than that; with clocks in step that is the documented bound |
| `ReadLease.ReadsBoundedAnywhere` | internal/lease/lease.go:27-38 | over any stretch and with shorter lifetimes, one more window |
| `ReadLease.BoundIsMet` | internal/lease/lease.go:27-38 | the bound is tight for every such skew that leaves something of the TTL: a run under clocks constantly that far off that is served exactly that often |
| `ReadLease.UnskewedBoundFails` | internal/storage/queries/secret_lease.sql:76-91 | the documented bound fails for any clocks that are off by 90 in all with a TTL of 100: a concrete run |
| `ReadLease.FastReplicaSupersedes` | internal/store/leases.go:207-309 | nor does it take a sweep: a replica with a fast clock supersedes the lease another has just issued |
| `Disclosure.FirstHoldingIff` | internal/api/imports.go:222-244 | an address lands on the first import that holds the key, every one before it missing it |
| `Disclosure.LandsWhereItReads` | internal/api/imports.go:207-249 | the name that is checked is the name of the secret that is read, imported or not |
| `Disclosure.RevealTrail` | internal/api/secrets.go:74-155 | under any audit failures: a value is handed back if and only if one written success row names the very secret that was granted, decrypted after that check and returned |
| `Disclosure.GateHolds` | internal/api/leases.go:209-244 | a refused, failed or unrecordable lease ends a reveal before anything is decrypted; a refusal and a new lease each leave their own row |
| `Disclosure.RevealsTheMeaning` | internal/api/secrets.go:107-139 | the value is the stored one, or the denotation of its template |
| `Disclosure.BatchTrail` | internal/api/bulk.go:65-94 | the reveal rows of a batch are those of the values it collected, in order; it has one outcome per item unless an internal error, of an audit write or of anything else, aborted it |
| `RevealOutcome.RevealsIff` | internal/api/secrets.go:74-155 | a reveal hands a value back if and only if the address lands, the name is granted, the lease gate lets the read pass, the version is read, its references all end well, and every success row on the way is written |
| `RevealOutcome.NowhereIsTold` | internal/api/imports.go:207-249 | an address that lands nowhere is answered with the reason, and nothing is checked or recorded |
| `RevealOutcome.DenialIsTold` | internal/api/service.go:211-225 | without the grant the answer is forbidden and the denial is all that is recorded |
| `RevealOutcome.ClosedGateIsTold` | internal/api/leases.go:209-244 | each way the lease gate is closed is answered with its own error and leaves its own row, before anything is read |
| `RevealOutcome.UnreadIsTold` | internal/api/secrets.go:107-116 | behind an open gate a version that cannot be read is answered with its error and recorded as a failure |
| `RevealOutcome.ReadIsTold` | internal/api/secrets.go:107-155 | a version that is read is decrypted once, right behind the gate, and the last row is its own: a success if the value could be resolved, a failure if not, with the log of its references between |
| `RevealOutcome.UnresolvedIsTold` | internal/api/secrets.go:127-133 | a reference that does not resolve is answered with the class of what its resolution met |
| `RevealOutcome.BatchIsItsReveals` | internal/api/bulk.go:65-94 | each outcome of a batch is that of its own reveal, made after those before it; the batch is abandoned exactly at the first that ends in an internal error, with that error |
| `Disclosure.Discloser.ResolveThroughImports` | internal/api/imports.go:207-249 | the search loop computes the landing |
| `Disclosure.Discloser.EnforceReadLease` | internal/api/leases.go:209-244 | the lease gate and the rows it leaves |
| `Disclosure.Discloser.Reveal` | internal/api/secrets.go:74-155 | the specified result and log, with every buffer it filled zeroed except the one returned |
| `Disclosure.Discloser.BatchGet` | internal/api/bulk.go:65-94 | one outcome per item in order holding exactly a value or an error; an aborted batch returns nothing and zeroes every buffer |
| `Disclosure.Discloser.ZeroAll` | internal/api/bulk.go:163-167 | every collected value is zeroed |
| `Setup.SuccessfulCallsAgree` | internal/setup/setup.go:289-393 | calls that succeed for one tenant name, on any replicas and in any interleaving, report the same tenant |
| `Setup.ExactlyOneScope` | internal/setup/setup.go:289-393 | after a success there is exactly one tenant of the name, one project row and one environment row |
| `Setup.SuccessIsUsableIff` | migrations/00003_create_environments.sql:24-33 | over any run without deletions from the start of a call to its success, the environment is usable if and only if the scope had no soft-deleted environment row when the call began |
| `Setup.SuccessCanBeUnusable` | internal/setup/setup.go:353-365 | a concrete run: provision, delete the environment, provision again, and the second success has no usable environment |
| `Setup.SameNameSucceeds` | internal/setup/setup.go:324-334 | replicas that provision one tenant name, in any interleaving and with any failures of one another: a call whose own store calls all answer succeeds, or finds the window closed when it was to close it |
| `Setup.ForeignSystemTenantRefuses` | internal/setup/setup.go:324-334 | with a system tenant of another name it ends as not found: a concrete run |
| `Setup.LockSetOnce` | internal/storage/queries/setup_state.sql:19-28 | the controller is recorded at most once, whichever path is first |
| `Setup.WizardStaysClosed` | internal/setup/setup.go:265-281 | once an orchestrator owns the instance no later wizard request is let in |
| `Setup.WizardIsLetInIff` | internal/setup/setup.go:265-281 | a wizard request is let in unless an orchestrator is declared or has closed the window |
| `Setup.LockTellsWhoClosed` | internal/setup/setup.go:402-459 | the lock says truly who closed the window: some call set out to put exactly that there, and whichever call succeeded in closing it did; a wizard leaves an operator, only the completion for a service a service |
| `Setup.OneCallCloses` | internal/setup/setup.go:402-410 | of the calls that set out to close the window, in any interleaving, at most one succeeds, the lock is that one, and every other that has ended has failed |
| `Setup.StepKeepsInv` | internal/setup/setup.go:289-393 | every store call of every replica keeps names, scopes and the one system tenant unique |
| `Setup.Database.Provision` | internal/setup/setup.go:289-393 | the code of one replica, among arbitrary steps of others, is a run of the protocol in the order of its store calls; it succeeds exactly if every call answers and the tenant is found, can be made, or is found after a refused insert, and then its scope exists |
| `Setup.Database.ProvisionAndComplete` | internal/setup/setup.go:448-459 | the store calls are those of a provision and, exactly if it succeeded, one last attempt at the window, which meets the provisioned scope; a failed provision never attempts it |
| `KeyMaterial.ParseKeyMaterial` | internal/crypto/rootkey.go:167-192 | hex at 64 characters, then the four base64 decoders in order; the first that accepts decides |
| `KeyMaterial.ParsesIff` | internal/crypto/rootkey.go:167-192 | every text there is: accepted for a key if and only if, without the space around it, it is 64 hex digits that spell the key, or is not and, without its line breaks, is the text of the key in the standard or the URL-safe alphabet, padded or not (the unused bits of the last digit are not looked at) |
| `KeyMaterial.AcceptedIs32Bytes` | internal/crypto/rootkey.go:185-189 | whatever is accepted has exactly 32 bytes |
| `KeyMaterial.InvertsHex` | internal/crypto/rootkey.go:173-177 | the hex printer is inverted on every key (section 8 of RFC 4648) |
| `KeyMaterial.ReadsEitherCase` | internal/crypto/rootkey.go:173-177 | 64 hex digits of either case or of both are read as exactly the bytes they spell (section 8 of RFC 4648) |
| `KeyMaterial.ReadsPrinted` | internal/crypto/rootkey.go:178-191 | all four base64 printers (sections 4 and 5 of RFC 4648) are inverted on every 32-byte key; any other number of bytes is refused, unless the text is 64 hex digits |
| `KeyMaterial.GroupIsOneNumber` | internal/crypto/rootkey.go:178-191 | three bytes and their four six-bit digits are one number, a last group filled up with zero bits (section 4 of RFC 4648) |
| `KeyMaterial.ReadsLineWrapped` | internal/crypto/rootkey.go:178-191 | a 32-byte key comes back from any of the four printers with its text broken into lines anywhere |
| `KeyMaterial.SpaceAroundIsIgnored` | internal/crypto/rootkey.go:168-168 | space around a key makes no difference |
| `KeyMaterial.LongKeyCanPassAsHex` | internal/crypto/rootkey.go:173-177 | a 48-byte key whose base64 text is taken for a different, 32-byte key |
| `Credentials.RandomString` | internal/rotation/generator.go:170-205 | each character is the letter its own draw stands for, exactly as many as asked for, the hex and base64url slicing included |
| `Credentials.DrawnAlikeIff` | internal/rotation/generator.go:170-205 | two sources give the same value if and only if they agree on every draw below its length: indices into an alphabet, halves of bytes for hex, six bits for base64url |
| `Credentials.EveryTextIsDrawn` | internal/rotation/generator.go:170-205 | every text of the length over the letters of a charset is the value under some source, for all four charsets |
| `Credentials.Spec.Validate` | internal/rotation/generator.go:112-142 | accepts exactly the shapes that can work and fills in exactly the missing kind, length and charset with the defaults |
| `Credentials.Spec.Generate` | internal/rotation/generator.go:145-161 | a random specification yields the letters its draws stand for, of its length and charset or the default length; a supplied one its value; any other is refused |
| `Credentials.NewRoleName` | internal/dynamic/dynamic.go:395-420 | every accepted prefix yields the prefix, an underscore and the draws in small letters, a name the allowlist accepts, and no other prefix yields one |
| `Credentials.RoleNamesAlikeIff` | internal/dynamic/dynamic.go:402-415 | two sources make the same role name if and only if their twenty draws are the same letters but for case |
| `Credentials.EveryRoleNameIsDrawn` | internal/dynamic/dynamic.go:402-415 | any twenty small letters or digits can follow a prefix |
| `Credentials.NewPassword` | internal/dynamic/dynamic.go:428-439 | the forty alphanumeric characters of the draws |
| `Credentials.GeneratedIffDrawn` | internal/dynamic/dynamic.go:428-439 | the passwords generated are exactly those of forty letters and digits, every one of them |
| `Credentials.PasswordsAlikeIff` | internal/dynamic/dynamic.go:428-439 | two sources generate the same password if and only if all their forty draws are the same |
| `Credentials.RenderIssued` | internal/store/dynamic.go:402-413 | what an issue renders is the simultaneous substitution of the drawn name and password, for every template |
| `RoleConfig.Config.Validate` | internal/dynamic/dynamic.go:186-232 | accepts exactly what is valid with its defaults, and fills those in |
| `RoleConfig.RevocationNeedsNoPassword` | internal/dynamic/dynamic.go:225-230 | a validated revocation template renders the same whatever is passed for a password |
| `RoleConfig.StatementsTellAccounts` | internal/dynamic/dynamic.go:186-232 | the statements of a validated configuration are about the account they are rendered for: both differ for any two role names of one length, and the creation for any two quote-free passwords of one length |
| `RoleConfig.ResolveTTL` | internal/dynamic/dynamic.go:148-175 | for any stored row: a request that names no lifetime gets the default of the row, or an hour, clamped to the ceiling; one that names a lifetime gets it or is refused, exactly by the minute, the maximum of the row and the ceiling |

## Left out

- HTTP and gRPC handlers, console, TLS, health probes, bootstrap, shutdown, configuration: plumbing around the calls modelled here.
- Cloud KMS providers and their retries: foreign calls; a root key is the contract that unwrapping inverts wrapping.
- Real AES, SHA-256 and randomness: a symbolic AEAD, an arbitrary checksum function, arbitrary bytes. That nonces do not repeat is not modelled.
- Transit keys and webhook secrets: they reference root keys as well, with a rewrap of their own; the count before retirement covers secret versions only, in the source as here.
- Elector: `Run` as an endless loop, `RunPeriodic`, `Holds` and `Wrap`: a run is any sequence of steps, so timing and cancellation add nothing to what is kept.
- LeaderProtocol: liveness; that a leader is eventually elected depends on timing, only that a campaign on a free lock wins is stated.
- RewrapProtocol: the order of list, save and count within one loop of RewrapAll; every order is allowed, and the loop itself is `Rewrap.RewrapAll`.
- Rewrap.RewrapStore.ListVersionWraps: int32 conversions of the batch size; the size is any integer.
- References.ValidateReferenceTemplate: the shape of an address's own parts (slugs, key pattern) is the parameter `shapeOk`, since the scanner does not look inside.
- References: text is a sequence of ASCII characters, so byte and character positions coincide; `TrimSpace` trims ASCII blanks.
- SqlLexer: statements as text, with `standard_conforming_strings` on; a line comment between two string parts counts as white space, as in PostgreSQL's own lexer, and a block comment does not. The values of escape, Unicode and bit strings are kept as written. Letters or underscores directly after the digits of a number or parameter are read as PostgreSQL does before version 15, as a token of their own; later versions refuse such a statement or take the underscores into the number.
- Redaction.Scrubbed: the caller's choice of which PostgreSQL error fields to keep; any message is scrubbed.
- Paths.NameableIff: `path.Clean` is modelled on rooted paths without '..', which is how it is called.
- FolderService.FolderService.PutSecret: the version it writes, which `Envelope` and `RewrapProtocol` cover, and value types and tags.
- FolderRaces: moves that overlap one another, the ancestors a move creates, and a folder created under one that is being moved, which takes the old path in the same way; moves follow one another.
- FolderService: each operation as one atomic transaction, where `FolderRaces` has writes and moves overlap; deletion of environments; `NormalizePath` is applied before the operations and is stated on its own; database errors other than the modelled refusals roll the transaction back and are not modelled.
- Folders: tenant scoping and timestamps of the statements; environments are told apart, tenants are not.
- Reaper: audit rows and log lines of a pass; the sweep's interval.
- DynamicLifecycle: lifetimes, expiry times, recorded failures and the rendering of statements, which `Reaper`, `RoleConfig` and `SqlTemplate` cover; an erased tenant or project stays erased, accounts come and go through this service only, and a DSN reference that is changed counts for revocations under way as well.
- DynamicLifecycle.ClosesAtOnceIff: the creation template is assumed to create the role it names and the revocation template to drop it, which the check of templates does not ensure (`CommentedDropIsStored`); reasons of the target's own to keep refusing a drop, such as owned objects, are not modelled.
- ReadLease: changes of the policy during a run and explicit revocation; several requesters are independent and one is modelled.
- ReadLease.ReadsBounded: transactions of one requester are ordered by the row lock they take; clocks off by more than a lifetime have no bound of this form.
- Disclosure: `BatchPut`, describing and listing, and the tag, description and limit rules: single-branch facts.
- Disclosure.Discloser.Reveal: the metadata of audit rows beyond action, outcome, name, referrer and hop, and the refusal to run without an auditor.
- Setup: the bootstrap token, defaulting of names, and the status report; deletion of tenants and projects between calls.
- Setup.Database.Provision: the in-process mutex, which the source itself does not rely on; every interleaving is allowed.
- KeyMaterial.ParseKeyMaterial: zeroing of rejected buffers.
- Credentials.Spec.Generate: requires a length of at least 0, as the source panics on a negative one, which validation refuses.
- Credentials: uniformity of the random draws; a source is any sequence of draws within bounds, and the value follows it. That `rand.Int` draws the next number for each character is the source's `index`, and a failing random source is not modelled.
