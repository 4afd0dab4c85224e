# PuddingClaw boundary contracts and migration scripts, verified

This project models, in Dafny 4.11, the parts of the repository where data crosses a boundary or is moved
under faults, and proves what those parts promise for every input, every fault pattern and every
interleaving with a changing source. `dafny verify dfyconfig.toml` checks all of it.

One module stands for one component:

- `Values`, `Immutables`, `Protocol`: JSON-shaped values with ordered mappings whose keys go through
  `str()`; freezing and thawing them; finding and stripping removed legacy fields; sealing an envelope.
- `JsonPointer`, `PhysicalReferences`: the JSON Pointer locators of RFC 6901 that the catalog copy emits for
  every physical reference, and the reference index, against a plain scan of all rows.
- `Promotion`: renaming staged files over final files with backup and rollback, for any number of files and
  any faults of the file system.
- `VectorCandidates`, `EmbeddingCheckpoint`: building a candidate vector collection through a client whose
  every call may work, be refused, or work and lose its reply; embedding with a checkpoint that interrupted
  runs resume from.
- `DevelopmentExtraction`: copying selected files into a clone while the source may change at every look.
- `CandidateEvidence`: the evidence for restore candidates, as staging writes it and as the review recomputes it.
- `RuntimeReview`: the queue of pending boundary reviews and the registry prepared from explicit approvals.
- `ReuseAudit`, `DigestDrifts`, `RowDeltas`: three comparisons of two data sets and what their results mean.
- `RelativePaths`, `BackupSet`, `KnowledgeUri`: the two guards on relative paths, the exact-file-set check of
  a backup, and the expression for knowledge URIs as a regular expression with its usual meaning.
- `Wrappers`, `Strings`, `Sequences`, `Sums`, `Ordering`: the Python operations the others rely on
  (`split`, `join`, `replace`, `str(int)`, sorting, sums).

Code that works by changing things step by step (the closure of the projection, the file system, the vector
client, the extraction run, candidate and review dicts) is modelled by classes and methods with loops; each
is proved against a specification function, and the properties are proved about that function. Lemmas carry
`{:induction false}` so that every proof rests on its own body.

## What the proofs found

Where a promise does not hold of the code, the model keeps the code and states exactly when it does hold.

- A failure in the first promotion loop removes every final that was not yet backed up, the one it failed at
  included: the handler unlinks all finals. After an error and a handler that is not faulted, the finals are as
  before exactly when no backup stops the first loop, which faults, files and the flag decide
  (`RestorationExact`); `LoseAFinal` is a run that loses one.
- `freeze_value` accepts `set` and refuses the `frozenset` it builds, so laws that freeze twice hold exactly on
  values from which no path reads a set; a set under an overwritten key does no harm (`FreezeThawFreeze`,
  `FreezeProjectFreeze`, and `SetBecomesTuple` for an empty set).
- A candidate build leaves an empty collection that its report does not mention exactly when all calls before the
  creation worked and the creation took effect but raised (`RunDense`, `RunLexical`); `LoseTheCreation` is such a
  run.
- Staging reads candidates through symbolic links and the review refuses links, so a staged item can be
  refused although no file changed (`ReviewStaged`, `ReviewALink`).
- Two probes that share one review mapping through a YAML alias get the review ID of the first; each gets its own
  exactly when no pending review is shared (`QueueThenPrepare`, `ShareAReview`).
- A compatible reuse summary ties an ID to its document and text exactly when there is one chunk (`TiedExactly`).
- A snapshot that replaces a directory by a file never commits, and one that lists a deletion twice commits against
  no source that stands still (`CopyExact`, `DeleteTwice`).
- A digest that is the text "missing" cannot be told from an absent one (`PatchExact`, `MissingIsDeleted`).
- A backup with a subdirectory never passes, although the path expression allows "/" (`AcceptedIsFlat`); and the
  expression accepts names of the root itself (`PortableMayNameRoot`).
- A checkpoint over chunks with a repeated ID can be written but never reused (`RestoredOfWritten`,
  `RepeatedIdIsRefused`); the inputs of a candidate build never have one, because `LoadInputs` refuses repeated IDs
  (`LoadedInputsAreBound`).

## Model

| member | source | states |
|---|---|---|
| `Values.InsertedStringDict` | backend/knowledge_contracts/_immutables.py:32-33 | Inserting any items one by one under `str(key)` gives a dict with distinct string keys |
| `Values.GetInserted` | backend/knowledge_contracts/_immutables.py:32-33 | Key collisions never change what is read: under every name the rebuilt dict answers with the last item of that name |
| `Values.InsertedMapped` | backend/knowledge_contracts/_immutables.py:32-33 | Rebuilding a dict and changing its values can be exchanged, collisions included |
| `Immutables.FrozenIsImmutable` | backend/knowledge_contracts/_immutables.py:36-49 | Every accepted value freezes to immutable containers with string keys at every depth |
| `Immutables.FreezesExactly` | backend/knowledge_contracts/_immutables.py:39-49 | A scalar freezes to itself and a foreign object is refused; a list or tuple is accepted exactly when every item is, and gives a tuple of what the items give |
| `Immutables.FrozenSetExact` | backend/knowledge_contracts/_immutables.py:45-49 | A mutable set is accepted exactly when every member is, and x is in its frozen form if and only if some member freezes to x; a frozen set is refused |
| `Immutables.FrozenMapExact` | backend/knowledge_contracts/_immutables.py:32-40 | A mapping is accepted exactly when every value is; its frozen form has one item for each key text, and under every name the frozen value of the last item with that name |
| `Immutables.FreezingKeepsPositions` | backend/knowledge_contracts/_immutables.py:36-49 | Freezing moves no value: every path reads the frozen form of what it read |
| `Immutables.FrozenSets` | backend/knowledge_contracts/_immutables.py:36-49 | A frozen value holds a set exactly when some path reads a set from the value itself; a set under an overwritten key leaves no trace |
| `Immutables.RefreezeRefusesExactlySets` | backend/knowledge_contracts/_immutables.py:45-49 | Freezing a frozen value again changes nothing, and is refused exactly when a set can be read from the value: `set` is accepted, `frozenset` is not |
| `Immutables.ThawIgnoresFreeze` | backend/knowledge_contracts/_immutables.py:36-61 | On values from which no set can be read thawing after freezing gives what thawing alone gives |
| `Immutables.ThawAfterFreezeIsCanonical` | backend/knowledge_contracts/_immutables.py:36-61 | That result is canonical JSON (string keys, lists for tuples, last value on collision) and stable under further rounds |
| `Immutables.ThawedIsPlain` | backend/knowledge_contracts/_immutables.py:52-61 | Thawing any value gives canonical JSON: dicts with distinct string keys, and lists |
| `Immutables.ThawingFixedPoints` | backend/knowledge_contracts/_immutables.py:52-61 | The fixed points of thawing are exactly the canonical JSON values, and thawing twice is thawing once |
| `Immutables.ThawedSetLists` | backend/knowledge_contracts/_immutables.py:59-60 | A thawed set is a list of the thaws of its members, one for each, and of nothing else |
| `Immutables.ThawedSetFree` | backend/knowledge_contracts/_immutables.py:52-61 | Thawing leaves no set, at any depth |
| `Immutables.ImmutableRoundTrip` | backend/knowledge_contracts/_immutables.py:36-61 | A set-free frozen value thaws to something that freezes back to it |
| `Immutables.FreezeThawFreeze` | backend/knowledge_contracts/_immutables.py:36-61 | freeze, thaw, freeze equals freeze if and only if no path reads a set from the value |
| `Immutables.SetBecomesTuple` | backend/knowledge_contracts/_immutables.py:36-61 | A value for which it does not: the empty set comes back as an empty tuple |
| `Protocol.FindRemovedFields` | backend/knowledge_contracts/protocol.py:21-32 | The recursive search returns the rendered positions of the removed fields, in traversal order |
| `Protocol.FindInEntries` | backend/knowledge_contracts/protocol.py:23-28 | The same for the loop over a mapping, below a given path |
| `Protocol.FindInItems` | backend/knowledge_contracts/protocol.py:29-31 | The same for the loop over a list or tuple |
| `Protocol.Projector.Project` | backend/knowledge_contracts/protocol.py:40-55 | The closure computes the projection and appends the rendered dropped positions to the shared list |
| `Protocol.Projector.ProjectEntries` | backend/knowledge_contracts/protocol.py:41-50 | The same for a mapping: removed keys are recorded and skipped, colliding keys overwrite |
| `Protocol.Projector.ProjectItems` | backend/knowledge_contracts/protocol.py:51-54 | The same for a list or tuple |
| `Protocol.ProjectLegacyPayload` | backend/knowledge_contracts/protocol.py:35-57 | The payload projection with its dropped list, from the empty path |
| `Protocol.RemovedPathsExact` | backend/knowledge_contracts/protocol.py:21-32 | Sound and complete: a position is found exactly when it ends in a removed field and can be reached |
| `Protocol.DroppedAreOutermost` | backend/knowledge_contracts/protocol.py:38-57 | The dropped list is, in order, the found list restricted to positions without a removed field among their proper ancestors |
| `Protocol.ProjectedIsClean` | backend/knowledge_contracts/protocol.py:40-57 | A projected payload holds no removed field at any depth and has distinct string keys everywhere |
| `Protocol.ProjectionFixedPoints` | backend/knowledge_contracts/protocol.py:40-57 | The projection is idempotent, and is the identity exactly on values in dict form without removed fields |
| `Protocol.ProjectionKeepsTheRest` | backend/knowledge_contracts/protocol.py:40-57 | At every path: nothing under a removed field, otherwise the projection of what was there |
| `Protocol.FreezeProjectFreeze` | backend/knowledge_contracts/protocol.py:35-72 | Freezing before the projection does not change the frozen result; the second freeze is refused exactly when a kept path reads a set |
| `Protocol.FrozenKeepsClean` | backend/knowledge_contracts/protocol.py:67-72 | Freezing brings no removed field back |
| `Protocol.SealEnvelope` | backend/knowledge_contracts/protocol.py:60-72 | A version 2 envelope with removed fields is refused with all of them; otherwise the payload is frozen or refused as not JSON; a sealed version 2 payload reaches no removed field |
| `Protocol.FromLegacy` | backend/knowledge_contracts/protocol.py:74-83 | Never raises the removed-fields error; refuses exactly what freezing refuses after the projection; says what every path of the sealed payload holds and which fields were dropped |
| `JsonPointer.EscapedIsOnePass` | backend/scripts/phase0b_local_catalog_copy.py:134 | The two chained replacements equal one simultaneous escape |
| `JsonPointer.EscapedIsToken` | backend/scripts/phase0b_local_catalog_copy.py:134 | An escaped key holds no "/" and only complete escape sequences |
| `JsonPointer.UnescapedEscaped` | backend/scripts/phase0b_local_catalog_copy.py:134 | The two-step decoding of section 4 of RFC 6901 undoes the escape, for all strings |
| `JsonPointer.EscapedUnescaped` | backend/scripts/phase0b_local_catalog_copy.py:134 | Every well-formed token is the escape of its decoding |
| `JsonPointer.EscapeInverse` | backend/scripts/phase0b_local_catalog_copy.py:134 | A key escapes to a token exactly when the token is well formed and decodes to the key |
| `JsonPointer.DecimalInverse` | backend/scripts/phase0b_local_catalog_copy.py:138-141 | An item number is written as a token exactly when the token is an array index with that value |
| `JsonPointer.TokensOfPointer` | backend/scripts/phase0b_local_catalog_copy.py:126-143 | A pointer text built from tokens splits into them |
| `JsonPointer.PointerOfTokens` | backend/scripts/phase0b_local_catalog_copy.py:126-143 | Every text that is a pointer is rebuilt from its tokens |
| `JsonPointer.LocatorsLocate` | backend/scripts/phase0b_local_catalog_copy.py:126-143 | The locator of a position evaluates to what is there, and two positions of one value have the same locator only if they are the same |
| `JsonPointer.LocatedPosition` | backend/scripts/phase0b_local_catalog_copy.py:126-143 | Every pointer text that leads anywhere in a value is the locator of the position it leads to |
| `PhysicalReferences.LocatorsAreExact` | backend/scripts/phase0b_local_catalog_copy.py:126-143 | For every text, the references emitted with it are, in order and with multiplicity, those of the string it reaches when evaluated as a JSON Pointer, and none if it reaches no string |
| `PhysicalReferences.EachLeafOwnLocator` | backend/scripts/phase0b_local_catalog_copy.py:126-143 | Every position has a locator of its own, and exactly the references of the string there are emitted with it |
| `PhysicalReferences.RowLocatorsAreExact` | backend/scripts/phase0b_local_catalog_copy.py:171-183 | The same on whole rows, over the scanned fields of a table |
| `PhysicalReferences.ReferenceFieldsPlain` | backend/scripts/phase0b_local_catalog_copy.py:28-39 | The configured fields are distinct and need no escape, so the row statement applies to them |
| `PhysicalReferences.IndexField` | backend/scripts/phase0b_local_catalog_copy.py:177-191 | The inner loop extends the index by exactly the occurrences of one field |
| `PhysicalReferences.IndexRow` | backend/scripts/phase0b_local_catalog_copy.py:171-191 | The loop over the fields of a row does so for the row |
| `PhysicalReferences.IndexTable` | backend/scripts/phase0b_local_catalog_copy.py:160-191 | The loop over the rows does so for the table |
| `PhysicalReferences.RowKeyExact` | backend/scripts/phase0b_local_catalog_copy.py:159-169 | The key of a row is the text of every primary-key column, or the digest of the row exactly when one of these columns is null or absent |
| `PhysicalReferences.SourceDigestExact` | backend/scripts/phase0b_local_catalog_copy.py:170-175 | A row has a source digest exactly when its table has a digest column and the row a true value there: the text of the value, with the prefix "sha256:" added exactly when missing |
| `PhysicalReferences.TruthyExact` | backend/scripts/phase0b_local_catalog_copy.py:170-187 | The false values are None, False, 0, 0.0 and the empty string, list, tuple, set and mapping, and no others |
| `PhysicalReferences.PhysicalReferenceOrigins` | backend/scripts/phase0b_local_catalog_copy.py:146-195 | The index has exactly the references of the plain scan; each list is the stable sort, and so a permutation, of the scanned origins; the list lengths add up to all occurrences; every origin names the table and field where the reference was found at its locator, with the key and source digest its row tells, and every citation of every scanned row has such an origin |
| `PhysicalReferences.OriginsAddUp` | backend/scripts/phase0b_local_catalog_copy.py:146-195 | Grouping occurrences by reference loses and invents none |
| `Ordering.StrLeExact` | backend/scripts/phase0b_local_catalog_copy.py:192-195 | The order of the sort: a prefix comes first, and otherwise the first difference of code points decides |
| `Ordering.KeyLeExact` | backend/scripts/phase0b_local_catalog_copy.py:192-195 | The same on tuples of strings: the first different component decides |
| `Promotion.FileSystem.Replace` | backend/scripts/phase0b_local_catalog_copy.py:258 | A rename moves the content or, when it fails, changes nothing |
| `Promotion.FileSystem.Unlink` | backend/scripts/phase0b_local_catalog_copy.py:263 | An unlink removes the file or, when it fails, changes nothing |
| `Promotion.BackUp` | backend/scripts/phase0b_local_catalog_copy.py:251-256 | The first loop moves existing finals aside in order, and says at which final it stops and why |
| `Promotion.RenameAll` | backend/scripts/phase0b_local_catalog_copy.py:257-258 | The second loop renames in order and stops at the first rename that fails, or at the shorter list |
| `Promotion.UnlinkFinals` | backend/scripts/phase0b_local_catalog_copy.py:261-263 | The handler unlinks every final that is there, also those that were never backed up, and stops exactly when one of these unlinks is faulted |
| `Promotion.RestoreBackups` | backend/scripts/phase0b_local_catalog_copy.py:264-265 | The handler moves the backups it was given back, in order, and stops exactly when one of these moves is faulted |
| `Promotion.Attempt` | backend/scripts/phase0b_local_catalog_copy.py:249-259 | Both loops together reach exactly the state of the finals considered and the renames done, both computed from faults and files, and go through exactly when the inputs promote |
| `Promotion.RollBack` | backend/scripts/phase0b_local_catalog_copy.py:260-266 | From such a state the handler reaches exactly the state of the finals unlinked and the backups moved back, and does all of both exactly when none of its operations is faulted |
| `Promotion.HandlerOperations` | backend/scripts/phase0b_local_catalog_copy.py:260-265 | The handler has one operation for every rename that was done and for every final that existed |
| `Promotion.PromoteTargets` | backend/scripts/phase0b_local_catalog_copy.py:244-269 | For any number of files and every fault pattern the outcome is a function of the inputs, and it settles the files: on success every final holds its staged content and nothing else changed; after a handler that is not faulted every final is decided and only the staged files before the failed rename are consumed; after a faulted handler no content of a final that was moved aside is lost, finals not considered are as they were or gone, and staged files and other paths are as after the loops |
| `Promotion.RestorationExact` | backend/scripts/phase0b_local_catalog_copy.py:249-268 | However far the handler got, the files are settled as the inputs say; when the inputs do not promote and no operation of the handler is faulted, every final is as it was if and only if no backup stops the first loop: a condition on faults, files and the flag alone |
| `Promotion.LoseAFinal` | backend/scripts/phase0b_local_catalog_copy.py:251-263 | A concrete run: an existing final that may be replaced, a staged file, and one faulted operation, the move to the backup; afterwards only the staged file is left |
| `Promotion.NothingLost` | backend/scripts/phase0b_local_catalog_copy.py:260-266 | However far the handler gets, a final that was moved aside is in its place or in its backup |
| `Promotion.MovedAsideFacts` | backend/scripts/phase0b_local_catalog_copy.py:251-256 | A file moved aside is absent from its place and unchanged as its backup |
| `Promotion.StageLayout` | backend/scripts/phase0b_local_catalog_copy.py:291-322 | The two paths of the stage are laid out as the promotion needs them |
| `VectorCandidates.VectorClient.Insert` | backend/scripts/phase8_local_dense_candidate.py:322-323 | An insert appends its slice, does nothing when refused, and appends and still raises when its reply is lost |
| `VectorCandidates.VectorClient.DropCollection` | backend/scripts/phase8_local_dense_candidate.py:341 | A drop removes the collection, does nothing when refused, and removes it and still raises when its reply is lost |
| `VectorCandidates.InsertBatches` | backend/scripts/phase8_local_dense_candidate.py:322-323 | The slices of 128 concatenate to the payload: after any number of them the collection holds a gap-free prefix, in order |
| `VectorCandidates.Populate` | backend/scripts/phase8_local_dense_candidate.py:312-329 | From the schema to the row count: passes exactly when all calls work, with the whole payload in place; an unacknowledged collection is there exactly when the two calls before the creation worked and the reply of the creation was lost |
| `VectorCandidates.Fill` | backend/scripts/phase8_local_dense_candidate.py:322-329 | From the inserts to the row count: passes exactly when all calls work; the collection always holds a prefix of the payload |
| `VectorCandidates.RollBack` | backend/scripts/phase8_local_dense_candidate.py:337-345 | A created candidate is reported as dropped exactly when the reply of the drop arrives, and as a failed cleanup otherwise; a candidate whose creation was not acknowledged is left alone |
| `VectorCandidates.BuildDense` | backend/scripts/phase8_local_dense_candidate.py:312-345 | From the schema to the report: what it leaves behind is complete or reported exactly when the creation was not lost |
| `VectorCandidates.GateExact` | backend/scripts/phase8_local_dense_candidate.py:208-226 | The gate is closed exactly when nothing was allowed, and open for exactly three combinations of options; every other is an error |
| `ReuseAudit.LoadInputsExact` | backend/scripts/phase8_local_dense_candidate.py:100-133 | The inputs are accepted exactly when both files name the dense collection and one manifest, no asset and no chunk ID comes twice, every document has a chunk, and every chunk has the document of its asset, revision and digest |
| `ReuseAudit.LoadedInputsAreBound` | backend/scripts/phase8_local_dense_candidate.py:100-133 | Accepted inputs have all different chunk IDs, a chunk for every document, and in every chunk the digest and revision of each document with its asset |
| `VectorCandidates.EmbeddedRowsFollowChunks` | backend/knowledge_platform/catalog/vector_rebuild.py:339-369 | Embedded rows follow the chunks one for one, in order, with vectors of the right length, whatever the batch size |
| `VectorCandidates.EmbeddedRowsExact` | backend/knowledge_platform/catalog/vector_rebuild.py:339-369 | Embedding succeeds exactly when the provider answers the texts of every batch with one finite vector of the dimension each; every row then has its chunk and the numbers of its vector in that answer |
| `VectorCandidates.BuildEmbeddedRows` | backend/knowledge_platform/catalog/vector_rebuild.py:339-369 | The batch loop equals the recursive embedding, with the same refusals |
| `VectorCandidates.RunDense` | backend/scripts/phase8_local_dense_candidate.py:154-353 | For every pattern of replies: a collection that existed is untouched; PASS exactly when gate, provider, embedding and all calls work, and then every row has its chunk and the vector the provider gave its text; and a collection is left behind unreported exactly when the run got to the creation, all calls before it worked and its reply was lost, so never without lost replies |
| `VectorCandidates.VerifyHits` | backend/scripts/phase8_local_lexical_candidate.py:215-229 | The loop over the hits accepts exactly a non-empty list of hits bound to a chunk and an asset without a physical path, and counts them |
| `VectorCandidates.SearchAndVerify` | backend/scripts/phase8_local_lexical_candidate.py:207-229 | The search and the check of its hits pass exactly when there is a first chunk, the call works and all hits are bound |
| `VectorCandidates.BuildLexical` | backend/scripts/phase8_local_lexical_candidate.py:182-240 | From the schema to the report of the lexical build, with the same exact containment and the fields of every row it leaves |
| `VectorCandidates.RunLexical` | backend/scripts/phase8_local_lexical_candidate.py:182-247 | The same exact containment for the lexical build, PASS exactly when all calls work and the search result is verified; in every collection it leaves, the i-th row has the ID, the asset as document and the text of the i-th chunk, and on PASS there are as many rows as chunks |
| `VectorCandidates.LoseTheCreation` | backend/scripts/phase8_local_lexical_candidate.py:182-240 | A run with working calls but a lost reply of the creation: it leaves an empty collection and its report does not mention it |
| `EmbeddingCheckpoint.Restore` | backend/knowledge_platform/catalog/vector_rebuild.py:415-464 | The loop over the saved rows accepts exactly no file, or one of the same manifest, signature and dimension with no more rows than chunks, each with a finite vector and the provenance of the last chunk with its ID, no ID twice; and completes exactly these rows |
| `EmbeddingCheckpoint.RestoredExact` | backend/knowledge_platform/catalog/vector_rebuild.py:415-464 | What a run finds completed is that of exactly these files, and exactly their rows |
| `EmbeddingCheckpoint.RestoredOfWritten` | backend/knowledge_platform/catalog/vector_rebuild.py:415-483 | A checkpoint is read back as it was written, unless a completed ID belongs to two chunks, and then it can never be reused |
| `EmbeddingCheckpoint.RepeatedIdIsRefused` | backend/knowledge_platform/catalog/vector_rebuild.py:415-483 | What a run writes for two chunks with one ID no run can reuse |
| `EmbeddingCheckpoint.EmbedMissing` | backend/knowledge_platform/catalog/vector_rebuild.py:485-502 | The loop leaves a prefix of the batches in the checkpoint; it ends at the last batch, or at the first that gets no answer or whose checkpoint does not work, with all batches before it saved |
| `EmbeddingCheckpoint.ProgressEmbeds` | backend/knowledge_platform/catalog/vector_rebuild.py:486-501 | The rows of the answered batches, one batch after the other, are the embedding of the chunks they cover |
| `EmbeddingCheckpoint.NextInCheckpoint` | backend/knowledge_platform/catalog/vector_rebuild.py:495-502 | Noting the vectors of one more batch and saving gives the checkpoint of one batch more |
| `EmbeddingCheckpoint.AdmissibleExact` | backend/knowledge_platform/catalog/vector_rebuild.py:388-413 | The checks before the checkpoint is read, with the bounds of every size and the characters of the signature by their codes |
| `EmbeddingCheckpoint.BuildCheckpointed` | backend/knowledge_platform/catalog/vector_rebuild.py:372-504 | A run with inadmissible sizes, digest, signature or path, or with a file that is not exactly one of the same manifest, signature and dimension about chunks of the job, touches nothing; any other starts from exactly the rows of that file, leaves them plus a prefix of the missing chunks, loses no batch before the one that stopped it, and delivers if and only if the provider answers for all missing chunks and the replacement after each of their batches works |
| `EmbeddingCheckpoint.CallsExact` | backend/knowledge_platform/catalog/vector_rebuild.py:485-502 | There is an n-th batch exactly when n full batches do not cover the chunks |
| `EmbeddingCheckpoint.StoppedMeans` | backend/knowledge_platform/catalog/vector_rebuild.py:485-502 | When the replacement after every batch works, only a provider that does not answer stops a run, and then a run without checkpoint over the missing chunks fails too |
| `EmbeddingCheckpoint.EmbedInTwo` | backend/knowledge_platform/catalog/vector_rebuild.py:485-502 | Embedding full batches and then the rest equals embedding everything |
| `EmbeddingCheckpoint.RunResumable` | backend/knowledge_platform/catalog/vector_rebuild.py:415-504 | After any run, however it ended and whatever the provider answered, the next one can reuse the checkpoint and finds exactly what was completed |
| `EmbeddingCheckpoint.RunFaithful` | backend/knowledge_platform/catalog/vector_rebuild.py:485-504 | With a provider that gives a text the same vector in every call, completed vectors stay those of the texts |
| `EmbeddingCheckpoint.ResumedIsPlain` | backend/knowledge_platform/catalog/vector_rebuild.py:339-504 | Any number of interrupted runs with any batch sizes and a last one that delivers give the rows of one uninterrupted run without checkpoint |
| `RelativePaths.ComponentsByPosition` | backend/scripts/phase10_local_migration_manifest.py:32 | A word is a component of the split path exactly when it stands between separators or ends |
| `RelativePaths.PortableRelativeExact` | backend/scripts/phase10_local_migration_manifest.py:32 | The expression accepts exactly the non-empty strings over its characters, given by their codes, without a leading "/" and without a component ".." |
| `RelativePaths.PortableStaysUnderRoot` | backend/scripts/phase10_local_migration_manifest.py:32 | Such a path never climbs above the root, and names the root itself exactly when all its components are empty or "." |
| `RelativePaths.PortableMayNameRoot` | backend/scripts/phase10_local_migration_manifest.py:32 | A concrete accepted path that names the root |
| `RelativePaths.SafeNameExact` | backend/scripts/phase10_development_extract.py:82-94 | The guard by positions in the text: not empty, no leading "/", no backslash, no code below 32 and no 127, and no stretch between separators or ends that is empty, ".", ".." or ".git" |
| `RelativePaths.SafeNameIsNormal` | backend/scripts/phase10_development_extract.py:82-101 | A path the component guard accepts is its own normal form and lies strictly under the root |
| `RelativePaths.NormalFormExact` | backend/scripts/phase10_development_extract.py:82-101 | A path is its own normal form exactly when no component is empty, "." or ".." |
| `BackupSet.AcceptedIsFlat` | backend/scripts/phase10_local_migration_manifest.py:86-93 | If no listed entry is anything but a regular file, then nothing is nested: a directory anywhere fails the check |
| `BackupSet.FileSetExact` | backend/scripts/phase10_local_migration_manifest.py:84-95 | The set comparison and the path expression together accept exactly the flat sets of regular files with plain portable names; the "/" in the expression never matters |
| `BackupSet.CheckFiles` | backend/scripts/phase10_local_migration_manifest.py:96-103 | The loop accepts exactly when every declared file has its size and digest and no secret |
| `BackupSet.ValidateBackup` | backend/scripts/phase10_local_migration_manifest.py:67-104 | A backup passes exactly when it is a real directory whose manifest has its constant fields and its own digest, and that holds the manifest and, at the top, the declared regular files with their content, and nothing else |
| `BackupSet.CheckBoundary` | backend/scripts/phase10_local_migration_manifest.py:71-87 | The checks of the manifest accept exactly one with its constant fields and its own digest |
| `BackupSet.PassedContents` | backend/scripts/phase10_local_migration_manifest.py:96-103 | With an injective digest, a backup that passes holds the contents its descriptors were made from |
| `DevelopmentExtraction.Run.SafeInSource` | backend/scripts/phase10_development_extract.py:82-101 | Accepts only a safe name every step of which was seen without a link during the call; against a source that stands still, exactly the names without a link on the way or at the end |
| `DevelopmentExtraction.Run.VerifyRecord` | backend/scripts/phase10_development_extract.py:158-171 | Accepts only if every recorded fact was seen at some moment of the call; against a source that stands still, exactly if the record describes it |
| `DevelopmentExtraction.Run.VerifyFile` | backend/scripts/phase10_development_extract.py:164-170 | Presence, mode, size and digest, each seen at its own moment; against a source that stands still, exactly the recorded file |
| `DevelopmentExtraction.Run.VerifySelectedSource` | backend/scripts/phase10_development_extract.py:150-172 | Accepts only if the recorded revision and every recorded fact were seen during the call; against a source that stands still, exactly if all records hold; returns the sorted paths |
| `DevelopmentExtraction.Run.MakeParents` | backend/scripts/phase10_development_extract.py:257 | The parents are made in order, exactly as far as nothing but directories is in the way; what was made stays |
| `DevelopmentExtraction.Run.Show` | backend/scripts/phase10_development_extract.py:258-260 | What a turn copies is what the source showed at its own looks; a copy may fail half way |
| `DevelopmentExtraction.Run.LeaveHalf` | backend/scripts/phase10_development_extract.py:258-259 | A copy that fails half way touches only its own path, or has a directory there |
| `DevelopmentExtraction.Run.CopyOne` | backend/scripts/phase10_development_extract.py:254-265 | One turn changes the clone by the copy step for something the source showed during the turn; a turn that fails may leave new parents or a half copy, and nothing else |
| `DevelopmentExtraction.Run.CopySelected` | backend/scripts/phase10_development_extract.py:253-265 | The copied clone replays, path by path, what the source showed during the loop; only selected paths and their new parents change, or a selected path has become a directory; against a source that stands still it equals the static copy |
| `DevelopmentExtraction.Run.CheckDestinations` | backend/scripts/phase10_development_extract.py:270-282 | Passes exactly when every record is served: absent, or a regular file with digest, size and mode |
| `DevelopmentExtraction.Run.CheckDigests` | backend/scripts/phase10_development_extract.py:290-295 | Passes exactly when every file that was not deleted has its recorded digest |
| `DevelopmentExtraction.Run.CopyAndCheck` | backend/scripts/phase10_development_extract.py:248-282 | With the source changing arbitrarily: a run that passes had the source confirmed twice before and once after the copy, the clone replays what was shown in between, agrees with the snapshot on every record and is unchanged elsewhere, and no record lies inside another; against a calm source it passes exactly when snapshot and clone can be copied |
| `DevelopmentExtraction.Run.Finish` | backend/scripts/phase10_development_extract.py:284-295 | The mapping file is the only later change, the source is confirmed once more, and digests still hold; against a calm source it passes exactly when no directory has that name and a record of a file there has the digest of the mapping |
| `DevelopmentExtraction.Run.Apply` | backend/scripts/phase10_development_extract.py:211-312 | The whole run: what must hold when the commit is reached, from the four confirmations of the source, none of which met a failed look, to every path of the clone; no record then has a component that is empty, ".", ".." or ".git", and nothing inside a Git directory was touched; and a calm source commits exactly when snapshot and clone can be copied, no directory has the name of the mapping file, and a record of a file there has the digest of the mapping |
| `DevelopmentExtraction.CopyStepKeeps` | backend/scripts/phase10_development_extract.py:254-265 | A turn touches its own path and new parents only, or leaves a directory at its path |
| `DevelopmentExtraction.CopyIntoExact` | backend/scripts/phase10_development_extract.py:258-259 | Where a copy goes: over a file or nothing, through a link, into a directory under its own name, and nowhere when a directory has that name |
| `DevelopmentExtraction.TurnExact` | backend/scripts/phase10_development_extract.py:254-265 | A turn serves its record exactly when the clone is ready for it |
| `DevelopmentExtraction.NestedNeverAgrees` | backend/scripts/phase10_development_extract.py:253-282 | A clone never agrees with a record and with another inside it, so a snapshot that replaces a directory by a file is never committed |
| `DevelopmentExtraction.TurnAgain` | backend/scripts/phase10_development_extract.py:254-265 | A second turn for the same path: a deletion goes through only once, a copy as often as wanted |
| `DevelopmentExtraction.CopyPrefix` | backend/scripts/phase10_development_extract.py:253-265 | Any first turns go through if the clone was ready for them and nothing is deleted twice, serve exactly the records for which it was ready, and leave the readiness for the others alone, but for deleted files |
| `DevelopmentExtraction.CopyExact` | backend/scripts/phase10_development_extract.py:253-282 | Against a source that stands still and matches the snapshot, copy and check succeed exactly when no record lies inside another, nothing is deleted twice, deleted files exist in the clone and nothing stands in the way |
| `DevelopmentExtraction.DeleteTwice` | backend/scripts/phase10_development_extract.py:253-265 | For every deleted record that holds and for which the clone is ready, a snapshot that lists it twice fails to copy at the second turn |
| `DevelopmentExtraction.OneToDelete` | backend/scripts/phase10_development_extract.py:253-265 | A source, a clone and a record of that kind |
| `DevelopmentExtraction.MappingKeeps` | backend/scripts/phase10_development_extract.py:284-285 | Writing the mapping file disturbs no other record |
| `DevelopmentExtraction.MappingDigests` | backend/scripts/phase10_development_extract.py:284-295 | After the mapping file is written the last digests hold exactly when a record of a file in its place has the digest of the mapping |
| `CandidateEvidence.ContentMatchExact` | backend/scripts/phase0b_local_catalog_copy.py:213-222 | A match says that there are origins and that every one of them carries the digest of the candidate |
| `CandidateEvidence.OriginCounts` | backend/scripts/phase0b_local_catalog_copy.py:213-223 | The two counts of an annotation are the numbers of origins with a digest and with the digest of the candidate |
| `CandidateEvidence.ConfirmedShareDigest` | backend/scripts/phase0b_local_catalog_copy.py:213-224 | All confirmed candidates of one reference have the same digest |
| `CandidateEvidence.StatusMeaning` | backend/scripts/phase0b_local_catalog_copy.py:225-236 | What each status says about the number of candidates and of confirmed ones |
| `CandidateEvidence.CandidateVerification` | backend/scripts/phase0b_local_catalog_copy.py:210-236 | The loop annotates every candidate in place and returns the verification of their digests |
| `CandidateEvidence.VerifyCandidates` | backend/scripts/phase0b_restore_review_manifest.py:72-104 | Stops at the first candidate that is not the regular file it was, with the reason; otherwise recomputes every annotation |
| `CandidateEvidence.NormalizedOrigins` | backend/scripts/phase0b_restore_review_manifest.py:57-69 | The loop returns the records, or the first origin that is none |
| `CandidateEvidence.VerificationFromCandidates` | backend/scripts/phase0b_restore_review_manifest.py:155-169 | Recomputes from the annotations the verification of the digests |
| `CandidateEvidence.ValidateCandidateEvidence` | backend/scripts/phase0b_restore_review_manifest.py:172-185 | Exactly when each refusal happens, in order: no origins, no list of candidates, an ill-formed origin, the first candidate that changed, no verification, another verification than the files and origins give |
| `CandidateEvidence.ReviewStaged` | backend/scripts/phase0b_restore_review_manifest.py:172-185 | A staged item, reviewed on any later disk, is never refused as tampered; it is accepted exactly when every candidate is a regular file with the digest it had, and a refusal names a candidate that is not; so on unchanged files only links are refused |
| `CandidateEvidence.ReviewALink` | backend/scripts/phase0b_restore_review_manifest.py:78-80 | A staged candidate that is a link, refused on the very disk it was staged from |
| `CandidateEvidence.CountDecisions` | backend/scripts/phase0b_restore_review_manifest.py:272-275 | The counting loop gives every decision its number of items |
| `CandidateEvidence.DecisionMeaning` | backend/scripts/phase0b_restore_review_manifest.py:188-195 | Each decision in terms of the digests: one confirmed candidate alone, several with a confirmed one, none, or none confirmed |
| `CandidateEvidence.DecisionCountsMirrorStatuses` | backend/scripts/phase0b_restore_review_manifest.py:188-195 | The decision counts of the review repeat the status counts of the stage report |
| `CandidateEvidence.TriageAddsUp` | backend/scripts/phase0b_local_catalog_copy.py:410-421 | The three classes of the triage add up to the missing references, and the first is the no-candidate status |
| `RuntimeReview.PendingItemsExact` | backend/scripts/phase0a_runtime_review_queue.py:122-151 | The items are exactly those of the pending probes |
| `RuntimeReview.PendingItemsShow` | backend/scripts/phase0a_runtime_review_queue.py:122-151 | Every item shows the ID, family, reference and reason of a pending probe, what was observed of it, and the ID of that evidence; and every pending probe is shown |
| `RuntimeReview.BuildReviewQueue` | backend/scripts/phase0a_runtime_review_queue.py:122-161 | The queue is the items of the pending probes sorted by probe ID; it fails only for a replay that does not match, at the first pending probe without valid evidence, or when the finished queue is refused, and its own coverage check never fires |
| `RuntimeReview.CoverageHolds` | backend/scripts/phase0a_runtime_review_queue.py:152-161 | The sorted items cover exactly the pending probe IDs |
| `RuntimeReview.BoundaryReview.Approve` | backend/scripts/phase0a_runtime_review_prepare.py:98-100 | An approval rewrites the three fields of the review in place |
| `RuntimeReview.ApprovePending` | backend/scripts/phase0a_runtime_review_prepare.py:89-100 | The loop approves every pending review, a shared one for the first probe that shares it, and halts exactly at a pending probe without an approval, with the probes before it approved |
| `RuntimeReview.PrepareReviewedRegistry` | backend/scripts/phase0a_runtime_review_prepare.py:64-110 | Exactly when each refusal happens and that the early ones change no review; when it gets through, every pending review is reviewed with its approval, every other is unchanged, and the verdict follows from the families, the outputs, whether a replayed ID repeats, and whether every probe had a review that was pending or reviewed |
| `RuntimeReview.ApprovedIsOwn` | backend/scripts/phase0a_runtime_review_prepare.py:88 | With one item per probe, the approval found under a probe is that of its item |
| `RuntimeReview.QueueThenPrepare` | backend/scripts/phase0a_runtime_review_prepare.py:88-110 | Preparing the registry a queue was built from, with all its IDs, never misses an item; when the replay matches, no probe stays pending, each gets the review ID of the first probe sharing its review, and nothing else changes; with injective IDs each gets its own exactly when no pending review is shared with an earlier probe |
| `RuntimeReview.OwnExactly` | backend/scripts/phase0a_runtime_review_prepare.py:88-100 | The same equivalence for any states before and after such approvals |
| `RuntimeReview.ShareAReview` | backend/scripts/phase0a_runtime_review_prepare.py:88-100 | Two probes with one review: after the approvals one of them has the review ID of the other |
| `ReuseAudit.AsManyAsEntries` | backend/scripts/phase8_local_dense_reuse_audit.py:71-83 | Pigeonhole: as many distinct IDs as rows means that every row has an ID and no two are equal |
| `ReuseAudit.SummaryExact` | backend/scripts/phase8_local_dense_reuse_audit.py:58-102 | What every field of a summary counts, in terms of the chunks and rows themselves, and that it is compatible exactly when there is a chunk, the counts agree, and the IDs and pairs of the chunks are among those of the rows |
| `ReuseAudit.CompatibleExact` | backend/scripts/phase8_local_dense_reuse_audit.py:67-87 | On accepted inputs, compatible says exactly: complete observation, rows and chunks in bijection by ID, and every current pair of asset and text digest among the legacy pairs |
| `ReuseAudit.OneRowEach` | backend/scripts/phase8_local_dense_reuse_audit.py:79-87 | Each chunk has exactly one row and each row exactly one chunk |
| `ReuseAudit.DistinctPairsExact` | backend/scripts/phase8_local_dense_reuse_audit.py:70-87 | When the current pairs are distinct, the legacy pairs are exactly they |
| `ReuseAudit.TiedExactly` | backend/scripts/phase8_local_dense_reuse_audit.py:67-87 | For accepted inputs, whatever the legacy rows: compatible ties every ID to the asset and text digest of its chunk if and only if there is exactly one chunk |
| `ReuseAudit.UntiedRows` | backend/scripts/phase8_local_dense_reuse_audit.py:67-87 | For two or more chunks, compatible rows in which an ID carries another pair than its chunk |
| `ReuseAudit.PairsNotTiedToIds` | backend/scripts/phase8_local_dense_reuse_audit.py:79-87 | A concrete accepted manifest of two chunks and compatible rows that exchanged their documents |
| `DigestDrifts.IndexedExact` | backend/scripts/phase0a_golden_replay.py:78-85 | The index of a list: the last item with a path decides its digest |
| `DigestDrifts.DriftsExact` | backend/scripts/phase0a_golden_replay.py:87-97 | The drifts are strictly sorted by path and are exactly the paths whose digests differ, each with both digests |
| `DigestDrifts.DriftsListed` | backend/scripts/phase0a_golden_replay.py:77-97 | A drift is listed exactly when the last entries of its path in the two lists have different digests, or only one list has one, and it shows these two |
| `DigestDrifts.DriftsUnique` | backend/scripts/phase0a_golden_replay.py:87-97 | The drifts are the only list sorted by path of exactly these drifts |
| `DigestDrifts.NoDriftExactly` | backend/scripts/phase0a_golden_replay.py:77-97 | No drift exactly when both lists index to the same digests |
| `DigestDrifts.PatchExact` | backend/scripts/phase0a_golden_replay.py:89-97 | Applying the drifts to the expected digests, with "missing" meaning delete, gives the observed ones if and only if no drifted observed digest is the text "missing" itself |
| `DigestDrifts.MissingIsDeleted` | backend/scripts/phase0a_golden_replay.py:89-97 | A digest that is the text "missing", and that its own drift deletes |
| `DigestDrifts.ReversedExact` | backend/scripts/phase0a_golden_replay.py:89-97 | Exchanging the arguments exchanges both digests of every drift, so the reversed drifts undo the change under the mirrored condition |
| `RowDeltas.DeltasExact` | backend/scripts/phase0a_table_query_observer.py:86-96 | The deltas are sorted by table and list exactly the tables whose row count changed, with both counts |
| `RowDeltas.DeltasListed` | backend/scripts/phase0a_table_query_observer.py:83-96 | A delta is listed exactly when its counts are those of the last entries of its table, 0 without one, and its change is their difference and not 0 |
| `RowDeltas.DeltasUnique` | backend/scripts/phase0a_table_query_observer.py:86-96 | The deltas are the only list sorted by table of exactly these deltas |
| `RowDeltas.DeltasConserve` | backend/scripts/phase0a_table_query_observer.py:83-96 | The deltas add up to the total after minus the total before, by the last entry of each table |
| `RowDeltas.TotalOfUnique` | backend/scripts/phase0a_table_query_observer.py:99-128 | A snapshot with unique names, as the database gives it, totals to the sum of its entries |
| `RowDeltas.DeltasConserveRows` | backend/scripts/phase0a_table_query_observer.py:224 | With unique names the reported sum is the rows listed after minus the rows listed before |
| `RowDeltas.ToldExact` | backend/scripts/phase0a_table_query_observer.py:86-96 | What the deltas say about any table, listed or not, is its change |
| `RowDeltas.DeltasCompose` | backend/scripts/phase0a_table_query_observer.py:224-226 | Over successive snapshots the deltas add, table by table and in total |
| `KnowledgeUri.SegmentMatches` | backend/knowledge_contracts/query.py:21-23 | The expression of one segment matches exactly the legal segments of bounded length |
| `KnowledgeUri.LegalSegmentExact` | backend/knowledge_contracts/query.py:21-23 | A legal segment by the codes of its characters |
| `KnowledgeUri.ValidExactly` | backend/knowledge_contracts/query.py:32-35 | A text matches the expression exactly when it parses, and exactly when it is the scheme followed by two or more legal segments; printing the parsed segments gives the text back |
| `KnowledgeUri.ParsedOfPrinted` | backend/knowledge_contracts/query.py:21-35 | Printed segments parse back to themselves exactly when they are legal |
| `KnowledgeUri.SegmentsUnique` | backend/knowledge_contracts/query.py:21-35 | No two lists of legal segments print the same |

## Left out

- Lease queue, installation-migration state machine, ordered cutover, sidecar continuity, activation
  controllers, vault rehearsal and crosswalk builders: the scripts only drive services elsewhere.
- Process launching, HTTP and MCP calls, Git, SQL, Milvus internals, embedding models, Excel and CSV reading;
  report writing, argument parsing and status texts; the shadow drivers of phases 6 to 8 other than the two
  candidate builds.
- Field checks of single dataclasses, schema validation of registries and manifests, and the heuristics for
  secrets and display text; in `BackupSet` the scan for secrets is an arbitrary predicate.
- Hashing: an arbitrary function, injective only where a statement says so. `_physical_path_references`: an
  arbitrary function from a string to a sequence of strings. Permissions beyond the recorded mode, timestamps
  and encodings are not modelled; a character stands for a byte when lengths are compared.
- Floats: NaN, infinities and equal values of different numeric types inside sets; a float is an opaque token
  in `Values` and a real number in embeddings.
- FileSystem: existence checks do not fail, and a failing rename or unlink has no effect. Creating the output
  directory and removing the temporary directory, with any backup left in it, happen outside the model.
- PromoteTargets: finals are assumed to have distinct names outside the staging directory and staged files to be
  apart from finals and backups, which `StageLayout` shows of the only caller.
- FreezeThawFreeze: sets have no order; thawing a set lists its members in an arbitrary fixed order.
- RunDense: the embedding configuration from the vault and the closing of the provider are not modelled; the run
  with a checkpoint takes its rows from `BuildCheckpointed` instead and is otherwise the same, so the two are
  verified separately.
- RunLexical: reading the catalog and building the chunks is one input that may be absent.
- BuildCheckpointed: what is found on the path of the checkpoint is one input; reading the file does not fail, an
  unreadable file is refused.
- ResumedIsPlain: supposes a provider that gives a text the same vector in every run; with another provider the
  vectors are those of the run that embedded the chunk.
- LocatorsAreExact: supposes distinct key texts in every mapping, as in decoded JSON; with colliding keys two
  leaves share a locator.
- PhysicalReferenceOrigins: rows arrive as decoded values; the decoding of JSON columns and of the database is
  part of the catalog.
- Apply: git checkout, staging and commit are left out, and so is loading the snapshot; the clone is changed by the
  run only. A link holds its own content, so writing the mapping file through a link changes no other path of the
  clone.
- VerifyFile: reading a whole file for its digest is one look at the source, and so is reading it for the copy
  (`Show`), while the program reads in chunks.
- ValidateCandidateEvidence: a source digest in an origin is a text or absent, and so is the digest of a candidate.
- ReviewStaged: the provenance of the stage report and of its databases, and the recheck of origins against the
  source database, are left out.
- BuildReviewQueue: the observed report is looked up by probe ID; how a path and a report are validated is one
  input.
- PrepareReviewedRegistry: the report of the replay, the coverage of the families and the validity of the outputs
  are inputs.
- Summarize: `embedding_dimension` and `reuse_allowed` carry no logic.
- ValidateBackup: the schema of the manifest and the projection its own digest is taken from are inputs.
- The legacy runtime review scripts, which do the same as the pair in `RuntimeReview`.
