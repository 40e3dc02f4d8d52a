# Conflation compare worker, modelled in Dafny

This project models the comparison worker of the address conflation stage
(`lib/conflate/compare.js`). For every incoming address feature the worker
picks one of three outcomes:

- **create**: the feature becomes a new record.
- **modify**: the new street names are appended to an existing record, and the result is staged.
- **drop**: the feature adds nothing.

After all workers finish, one instance reads the staged rows grouped by target record. It merges each group into a single modify record.

Files:

- `types.dfy` (module `ConflateTypes`): the records as values: street entries, properties, input features, known records, candidate rows, decisions, staged rows, grouped rows, errors. `Env` holds the worker's collaborators, each given as a function:
  - the street tokenizer `tok`, with the abbreviation table already applied;
  - the geodesic distance `dist`, in kilometres;
  - the line decoder `decode` (JSON parsing followed by the optional map function);
  - the candidate query `query`, which yields `None` when the database query fails.
- `matching.dfy` (module `Matching`): `create`, `compare` and `modify`.
  - The reference functions are `CreateRecord`, `Decide` and `ModifyOutcome`.
  - The methods `Compare` and `ModifyKnown` keep the source's nested loops. Each is proved to compute its reference function.
  - Lemmas state the matching rules: first match decides, later rows are ignored, the 0.5 km cut-off is strict, and drop happens exactly when nothing is new.
- `reading.dfy` (module `Reading`): the rules of `read`.
  - Record-separator removal (`StripRS`).
  - The worker partition (`Keep`, `Assigned`), with the proof that `total` workers together handle every line exactly once.
  - The 100-line batch (`ReadBatch`).
- `uniq.dfy` (module `UniqBy`): lodash `uniqBy(list, 'display')`. It is proved equal to an independent definition that keeps only the first entry for each display string, in order.
- `worker.dfy` (module `Worker`):
  - the option-key check of the constructor;
  - the per-line step `Handle` and its sequential semantics `Run`;
  - the class `Compare`. Its field `output` holds the records written to the output stream. Its field `staged` holds the rows inserted into the staging table `modified`. Its methods `ProcessLine`, `ProcessBatch`, `Reader`, `Read`, `MergeGroup` and `ModifyGroups` model the source's loops.

Behaviour of the code that the model keeps:

- A malformed line ends the worker. If `JSON.parse` (or the map function) throws, the task calls `done(err)` (`lib/conflate/compare.js:93`). The batch callback passes that error to `cb` (line 142), and the message handler throws it (line 312). In the model `Handle` yields `Fatal(ParseError)`.
- A group with a single staged row is not deduplicated (line 184): its properties are emitted as stored. Only groups with two or more rows go through `uniqBy` on `display`.
- The candidate match uses the stored `name[].tokenized` values of each row. The novelty check in `modify` re-tokenizes the `display` of each known street entry. The model keeps the two apart: `Candidate.tokenized` versus `Tokens(known.props.street, tok)`.

## Model

| member | source | states |
|---|---|---|
| `Matching.CreateRecord` | lib/conflate/compare.js:240-251 | the create record carries action create, the input's geometry, and as properties exactly the input's number, street list and source |
| `Matching.Compare` | lib/conflate/compare.js:205-232 | the nested search loops compute `Decide`; with no candidate rows the result is the create record of the input |
| `Matching.ModifyKnown` | lib/conflate/compare.js:260-289 | the push loop computes `ModifyOutcome`: drop (`false`) exactly when every input street token is a known token; otherwise id, version, geometry and other properties are the known record's, the known street list is kept unchanged as a prefix, and after it come exactly the novel input entries in input order |
| `Matching.ModifyOutcomeShape` | lib/conflate/compare.js:260-289 | the same shape for the reference function: drop iff no input token is new; known list as prefix followed by the novel entries; id, version and geometry of the known record |
| `Matching.NovelMembers` | lib/conflate/compare.js:264-281 | an input entry is appended exactly when its token differs from the token of every known entry |
| `Matching.NovelAppend` | lib/conflate/compare.js:264-281 | the appended entries of a concatenated input are those of each part, in order: novelty is decided entry by entry, against the known list only |
| `Matching.NovelStep` | lib/conflate/compare.js:264-281 | one more input entry extends the appended list by that entry exactly when its token is not a known token |
| `Matching.NearbyMembers` | lib/conflate/compare.js:210-212 | a candidate survives the distance filter exactly when it is in the rows and strictly closer than 0.5 km |
| `Matching.DecideIgnoresFar` | lib/conflate/compare.js:210-212 | a candidate at exactly 0.5 km or farther, inserted anywhere among the rows, never changes the decision |
| `Matching.DecideFirstMatch` | lib/conflate/compare.js:218-229 | the first row, in store order, that is within the cut-off and whose stored tokenized names contain an input token decides: the result is `modify` of that row's record |
| `Matching.DecideIgnoresLater` | lib/conflate/compare.js:218-229 | once a near matching row exists, rows appended after the list never influence the decision |
| `Matching.DecideNoMatch` | lib/conflate/compare.js:218-231 | when no row is both near and matching (including when there are no rows), the result is the create record |
| `Matching.DecideDrop` | lib/conflate/compare.js:218-227 | the feature is dropped exactly when a deciding row exists and every input street token is already a token of that record's streets |
| `Matching.FirstMatchNearby` | lib/conflate/compare.js:209-222 | filtering keeps store order, so the first near matching row is the first match among the filtered candidates |
| `Matching.FirstMatchNearbyNone` | lib/conflate/compare.js:209-231 | with no near matching row, the search over the filtered candidates finds nothing |
| `Reading.StripRS` | lib/conflate/compare.js:82-83 | the cleaned line contains no record separator (0x1E), and every other character of the line, and only those, remains |
| `Reading.StripRSAppend` | lib/conflate/compare.js:83 | separator removal works character by character: it distributes over concatenation |
| `Reading.StripRSNoSeparator` | lib/conflate/compare.js:83 | a line without separators is unchanged |
| `Reading.StripRSIdempotent` | lib/conflate/compare.js:83 | removing separators twice is removing them once |
| `Reading.KeepExactlyOne` | lib/conflate/compare.js:78-79 | with ids 0 .. total-1, line number `num` is processed by worker `num % total` and by no other |
| `Reading.WorkersCoverInput` | lib/conflate/compare.js:78-79 | the lines assigned to the workers 0 .. total-1 add up to the whole input: every line is processed once |
| `Reading.AssignedAppend` | lib/conflate/compare.js:68-79 | the line counter carries across batches: the assignment of a concatenation is that of each part, numbered on |
| `Reading.ReadBatch` | lib/conflate/compare.js:66-79 | one pass of the `while (true)` loop reads at most 100 lines; it stops early exactly when the file ends first; it returns exactly the lines of this worker among those read, with the line counter advanced by the number read |
| `Worker.CheckOptions` | lib/conflate/compare.js:34-37 | an error is raised exactly when some option key is not one of id, total, context, output, pool, map, read, tokens; it names the first such key in key order |
| `Worker.RunAppend` | lib/conflate/compare.js:141-146 | processing lines in batches is processing them in one sequence: the second part runs only if the first produced no error |
| `Worker.RunSnoc` | lib/conflate/compare.js:81-138 | processing one more line adds that line's effect |
| `Worker.RunAssignedSplit` | lib/conflate/compare.js:62-146 | this worker's work up to a file position is its work up to an earlier position followed by its work between the two |
| `Worker.CollectSeparatesActions` | lib/conflate/compare.js:118-136 | only create records are written to the output; every staged row comes from a modify decision; each line yields at most one record |
| `Worker.Compare.ProcessLine` | lib/conflate/compare.js:81-137 | one task: strip separators, decode (a parse failure is fatal, a non-actionable result is skipped), query (a query failure is fatal), decide, then write a create record or stage a modify row |
| `Worker.Compare.ProcessBatch` | lib/conflate/compare.js:141-146 | the tasks of a batch take effect in order and the first error ends the batch |
| `Worker.Compare.Reader` | lib/conflate/compare.js:62-146 | one `reader` call reads at most 100 lines and processes exactly this worker's lines among them |
| `Worker.Compare.Read` | lib/conflate/compare.js:51-148 | the whole run writes and stages exactly what processing this worker's assigned lines in file order yields, stopping at the first error |
| `Worker.ConcatStreetsSnoc` | lib/conflate/compare.js:188-191 | the reduce appends each member's street list in turn |
| `Worker.ReduceDuplicateHarmless` | lib/conflate/compare.js:188-193 | the reduce is seeded with the first member and then visits it again, so its street list appears twice; after deduplication the result equals deduplicating the plain concatenation |
| `Worker.Compare.MergeGroup` | lib/conflate/compare.js:182-196 | the reduce loop followed by `uniqBy` computes `MergedGroup` |
| `Worker.MergedGroupShape` | lib/conflate/compare.js:184-195 | the merged record is a modify record for the group's id, version and geometry, with the first member's other properties; a one-member group is emitted unchanged; a larger group has no two entries with the same display, keeps every display of the concatenation, and keeps exactly the first occurrences in order |
| `Worker.Compare.ModifyGroups` | lib/conflate/compare.js:173-200 | one merged modify record per group is written, in scan order, after what was already written; nothing is staged |
| `UniqBy.UniqFrom` | lib/conflate/compare.js:193 | the scan keeps only entries not seen before, never two with the same display, and never more than it was given |
| `UniqBy.UniqFromAppend` | lib/conflate/compare.js:193 | deduplicating a concatenation is deduplicating the first part, then the second against everything the first part showed |
| `UniqBy.UniqFromAllSeen` | lib/conflate/compare.js:193 | entries whose display strings were all seen already are all dropped |
| `UniqBy.UniqFromNoneSeen` | lib/conflate/compare.js:193 | distinct entries whose display strings were not seen are all kept |
| `UniqBy.UniqByIsKeepFirst` | lib/conflate/compare.js:193 | `uniqBy` by display equals the reference definition: the entries whose display does not occur earlier, in order |
| `UniqBy.KeepFirstKeeps` | lib/conflate/compare.js:193 | the first entry with each display string is kept |
| `UniqBy.KeepFirstOnlyFirsts` | lib/conflate/compare.js:193 | every kept entry is the first entry with its display string |
| `UniqBy.UniqByDisplays` | lib/conflate/compare.js:193 | deduplication loses no display string |
| `UniqBy.UniqByDistinctUnchanged` | lib/conflate/compare.js:193 | a list without repeated display strings is left unchanged |
| `UniqBy.UniqByIdempotent` | lib/conflate/compare.js:193 | deduplicating twice is deduplicating once, so merging an already merged list changes nothing |
| `UniqBy.UniqByRepeatedPrefix` | lib/conflate/compare.js:193 | repeating a prefix does not change the deduplicated list |

## Left out

- The coordinator (`lib/conflate.js`) is not part of this model. This covers:
  - forking the workers and piping their output lines;
  - the `ready`/`end` messages and the counter that triggers the grouping pass;
  - killing finished workers.
  These only coordinate processes. The message handler at the end of `compare.js` (its `ready`/`end` messages and the `throw` on error) is left out for the same reason; `Read` returns the error instead.
- `lib/map.js` and `lib/help.js` are not part of this model: the first is pipeline orchestration, the second prints help text.
- The SQL is replaced by its results:
  - The candidate query (address-number equality and `ST_DWithin` 0.02°) is the collaborator `query`.
  - The `INSERT INTO modified` is an append to `staged`. A failure of that insert (fatal in the source) is not modelled.
  - The cursor over `GROUP BY id, version, geom` with `JSONB_AGG` is the input sequence of `ModifyGroups`.
  - Paging through the cursor 1000 rows at a time, cursor read errors, and the connection error that `pool.connect` ignores are left out.
- `turf.distance` is the collaborator `dist`, with no floating-point geodesy. The tokenizer (`tokenize.main`, `replaceToken`, the abbreviation tables) is the collaborator `tok`, with no internals. JSON parsing and the pluggable map function are the collaborator `decode`. All three are deterministic functions of their inputs.
- Output is kept as records, not as their `JSON.stringify` text. The constant `type: 'Feature'` member is omitted, and `action` is the constructor of `Decision`.
- Properties have exactly the fields `number`, `street` and `source`. Other property keys of input or stored records are not modelled, so the fact that `create` drops them is not visible.
- Concurrency inside a batch is not modelled. The source runs up to 10 tasks at once on a queue, and they may write out of order. The model runs the tasks one after another in queue order.
- `Worker.Compare.ProcessBatch` and `Worker.Compare.Read` on a failing batch: the model keeps the records of the batch's lines before the failing line. In the source, the first error goes through `awaitAll` to `cb` (line 142), and the message handler throws at once (line 312), so the worker exits. Only the tasks of that batch whose queries had already returned have written. Which tasks those are depends on timing, and it may be none: a line that fails to parse fails synchronously, while the earlier tasks still wait on their queries. The model is exact when no error occurs, and for every batch before the failing one.
- `Matching.ModifyKnown`: in the source `modify` overwrites the street list and the action of the candidate's feature object in place and returns that object. The model returns an updated value instead. `compare` returns immediately and never uses the candidate rows again, so no caller can tell the two apart.
- `Worker.Compare.constructor` takes only the id and the total. The option whitelist is checked by `CheckOptions`. Defaulting the output to standard output, loading the map module and creating the connection pool are left out.
- `kill()` (closing the connection pool) is left out: it only releases a resource.
- `Worker.Compare.MergeGroup` and `Worker.Compare.ModifyGroups` require every group to have at least one member, which `GROUP BY` always ensures.
- `Worker.Compare.Read`, `Worker.Compare.Reader` and `Worker.Compare.ProcessBatch` state their effect in terms of a ghost per-line handler that they require to agree with `Handle` on every line. This is the same statement as one phrased with `Handle` directly.
