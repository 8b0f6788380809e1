# Verified model of the MDA platform's core protocols

A Dafny 4.11 model of the hard parts of the platform: the report compiler and its CSV format,
sharing rules, attachment storage, metadata publishing, team and role hierarchies, the expression
evaluator, field mappings, the webhook relay, record versions, bulk import and mail framing.
`dafny verify dfyconfig.toml` checks all of it.

A database transaction is one atomic step over in-memory tables; what the program does in several
transactions, or outside any (file writes, the unlink after commit, the relay's separate inserts), is
several steps that interleave with everything else. A recursive SQL query is a worklist loop over a
graph. Code that updates tables or local variables in place is a class or a method with loops, proved
equal to a function; the properties are lemmas about that function, and about every run of steps.

| file | subject |
|---|---|
| Common, Graphs, Ordering, Paths | results, trimming, reachability and guarded edge insertion, sorted key lists, dotted paths |
| Reports, ReportCollisions, ReportLeaves | reference paths to LEFT JOINs, with and without distinct aliases; which paths resolve and which stored value each reads |
| Csv, CsvLineEnds | printing and parsing CSV |
| Expressions, ExpressionMeaning | the bounded evaluator against an unlimited one; what each form means |
| Sharing, SharingMachine, SharingGrants, SharingTables | rule-derived shares, the epoch machine, what edits and writes grant, the handlers |
| Readers, ReadAccess, ManualShares | the read predicate and the notification fan-out, also row by row; shares given by hand |
| Blobs, BlobOwners | upload and delete, statement by statement; who adds rows and who takes them away |
| DraftModels, Publishing, PublishEffects, ActiveModels, ReferenceCycles | draft models, publish/retire/un-retire, what a publish stores and refuses, loading the active model, relationship cycles |
| TeamHierarchies, RoleHierarchies, HierarchyEffects | team and role parents, their edits and imports, row by row |
| Mappings, Relays | integration mappings; the webhook relay |
| Versions, Imports, ImportEffects, Mail | record versions and as-of; import commit and what each row does; SMTP DATA |

## Where the code differs from what is said about it

The model follows the code. Each difference has a lemma, but for `set_null`, where the database decides.

- `update_share_rule` says its rows carry the new epoch (admin.rs:1213); the row it scans with was taken
  before the bump, so after any effective edit no share of the rule passes the gate
  (`SharingMachine.EditLeavesNothingLive`, example `SharingMachine.WideningRevokesExample`), and the
  leftover rows block a following recompute, which makes live exactly what the edit's own scan did not
  reach (`SharingMachine.EditThenRecomputeGrants`). A write to the record repairs it
  (`SharingMachine.WriteGrants`).
- Shares are kept in step with every write of a record, but a metadata publish that retires or brings back
  a field changes the document of every record of the entity and recomputes nothing: the share of a rule on
  that field stays, although its condition no longer matches (`SharingMachine.RetiredFieldExample`). Soundness
  survives a publish iff each record still matches the rules of its live shares
  (`SharingMachine.PublishSoundIff`), as it does when no rule names what is retired or brought back
  (`SharingMachine.UnmentionedIsCovered`); without publishes it always holds
  (`SharingMachine.UnpublishedRunsSound`).
- The audit log keeps what a record showed when it was written. The as-of lookup answers that, which is what a
  read returned iff nothing the row holds was retired or brought back in between
  (`Versions.AsOfIsReadIff`, example `Versions.RetiredFieldExample`).
- docs/adr/0015 has `set_null` clear the reference of the rows that point at a deleted record. The key is
  (tenant, column) with ON DELETE SET NULL and no column list (crates/mda-data/src/ddl.rs:322-350), the tenant
  column is NOT NULL (ddl.rs:91), and the database clears both: the delete is refused. It is one of the
  refusals that `SharingTables.Tables.Delete` and `Versions.RecordTable.DeleteRecord` are given.
- Un-retiring is described as fully reversible; it re-activates the row with the content it was stored
  with. The active model becomes the draft iff no stored row differs and no stray row joins
  (`Publishing.PublishYieldsDraftIff`, example `Publishing.RelabelledFieldExample`).
- `from_csv` undoes `to_csv` only under the exact condition `Csv.Survives`: array and object cells are
  printed unquoted (`Csv.ArrayCellBreaks`).
- The join merge relies on one alias per prefix; `a_b` and `a.b` share one. For a runner who sees every
  entity crossed, all leaves are read right on all databases iff no two prefixes share an alias
  (`ReportCollisions.AllRightIffDistinct`, example `ReportCollisions.CollisionMisreads`).
- `resolve_record_readers` speaks of every user who can read; who is missed is stated exactly by
  `Readers.MissedReaders`.
- An import of teams can refuse a bundle whose hierarchy is a forest, depending on row order
  (`TeamHierarchies.ImportOrderMatters`). It is accepted iff the links made so far form a forest after every
  row (`TeamHierarchies.ImportAcceptedIff`); order stops mattering when the bundle's teams start unlinked
  (`TeamHierarchies.UnlinkedBundleOrderFree`).
- The webhook cursor assumes that events commit in the order of their numbers, which are drawn before the
  commit. One that commits behind the cursor is never delivered, all others once
  (`Relays.DeliveredOnceIffInTime`).
- A field mapping reads blank path segments that writing drops; the exact condition for the round trip is
  `Mappings.RoundTripIff`.

## Model

| member | source | states |
|---|---|---|
| Reports.CompileTraversals | crates/mda-reports/src/lib.rs:88-261 | compiling succeeds iff every path resolves and every path outside the select list is readable; each kept leaf then reads, from the one joined row of a base row, what the hop-by-hop walk gives, Null from the first missing, foreign or invisible target on, when the distinct prefixes of the kept paths have distinct aliases; the joins are those of merging and guarding the kept paths in any case (`ReportLeaves.ResolvesIff` and `ReportLeaves.CompiledReadsValues` say which paths resolve and what is read, in terms of the stored rows) |
| Reports.JoinsMeanWalk | crates/mda-reports/src/lib.rs:228-261 | running the guarded LEFT JOINs in order from any base row yields exactly one row, which binds each planned alias to the row its prefix walks to |
| Reports.ParentRow | crates/mda-reports/src/lib.rs:483-520 | a join's parent alias is bound before it, to the row of the shorter prefix and in the table the join expects |
| Reports.ResolveField | crates/mda-reports/src/lib.rs:410-534 | a path resolves iff every hop is a reference that has a column and the last segment names a column of the entity reached (spelled out by `ReportLeaves.ResolvesIff`); the joins, hops and leaf are those of its prefixes |
| Reports.MergeJoins | crates/mda-reports/src/lib.rs:696-713 | per alias the first join and the first hop are kept, in order of appearance |
| Reports.MergeExtendsPlan | crates/mda-reports/src/lib.rs:692-713 | merging one more path adds exactly its new prefixes, each after its parent, given distinct aliases |
| Reports.GuardHops | crates/mda-reports/src/lib.rs:228-261 | the per-hop pass equals its specification, a guard added to the join of each hop that needs one |
| Reports.GuardedPlan | crates/mda-reports/src/lib.rs:228-261 | after the pass every join carries the guard of the entity it enters, exactly once |
| Reports.PlainNamesDistinct | crates/mda-reports/src/lib.rs:489-496 | names without underscores satisfy the alias hypothesis |
| Reports.PlannedMeansWalk | crates/mda-reports/src/lib.rs:228-261 | for any list of crossable paths with distinct prefix aliases, the merged and guarded joins read every path where its walk ends, on every database and from every base row |
| ReportLeaves.ResolvesIff | crates/mda-reports/src/lib.rs:410-534 | a path resolves iff no name on it is blank, it has at most three hops, each hop is the first relationship of that name of the entity reached and not many-to-many, and the last name is a column of the last entity: a system column, a reference with a column, or else a declared field |
| ReportLeaves.LeafWithoutColumnRefused | crates/mda-reports/src/lib.rs:436-470 | a path whose last name is a many-to-many relationship is refused as invalid, and so is one whose last name names nothing of the entity reached |
| ReportLeaves.AliasCharacters | crates/mda-reports/src/lib.rs:715-725 | an alias keeps ASCII letters, digits and underscores and has an underscore for every other character |
| ReportLeaves.WalkIsTrail | crates/mda-reports/src/lib.rs:228-261 | the walk of a path ends on a row iff stored reference values lead to it, each to a row of the tenant that the runner may see |
| ReportLeaves.CompiledReadsValues | crates/mda-reports/src/lib.rs:88-261 | given distinct aliases, on every database with the schema's columns and from every base row each kept leaf reads, by the SQL expression of its kind, the value the walked row holds under the path's last name: the reference column, the attribute or the system column, Null where the walk ends in nothing |
| Paths.SplitJoins | crates/mda-reports/src/lib.rs:410-425 | joining the parts of a split path with dots gives the path back |
| Paths.JoinSplits | crates/mda-reports/src/lib.rs:410-425 | splitting dotless parts joined with dots gives the parts back |
| ReportCollisions.AllRightIffDistinct | crates/mda-reports/src/lib.rs:489-496 | for a runner who sees every entity crossed, the compiled joins read every path where its walk ends, on all databases and from all base rows, iff no two prefixes share an alias |
| ReportCollisions.OneRowEach | crates/mda-reports/src/lib.rs:228-261 | joins on primary keys give exactly one row per base row, whatever the aliases |
| ReportCollisions.JoinedRowsVisible | crates/mda-reports/src/lib.rs:228-261 | with distinct aliases or not, for every runner and database, the one joined row binds the base alias and the alias of each join, and holds under each join's alias nothing, or a row of the tenant that the runner may see in the entity the join enters |
| ReportCollisions.LeafShowsVisible | crates/mda-reports/src/lib.rs:228-261 | so every kept leaf behind a reference is read from such a row |
| ReportCollisions.CollidingJoins | crates/mda-reports/src/lib.rs:489-496 | resolving and merging `a_b.name` and `a.b.name` keeps the joins of `a_b` and `a` and drops that of `a.b` |
| ReportCollisions.CollisionMisreads | crates/mda-reports/src/lib.rs:489-496 | compiling those two requests succeeds, and on some database one of them is read from the wrong row |
| Csv.RoundTripIff | crates/mda-reports/src/lib.rs:728-872 | for every result, parsing the printed text gives the same columns and cell texts iff there is a column, names are distinct, the first shows no bare byte-order mark and no array or object cell holds a separator |
| Csv.CrlfSameParse | crates/mda-reports/src/lib.rs:776-872 | for a result with a column and no separator in an array or object cell, CRLF for every record end gives the same parse, errors included |
| Csv.CrlfParseDiffers | crates/mda-reports/src/lib.rs:776-872 | an array cell that opens a quote after a comma, such as `["x,"]`, takes the record end into the next cell, and CRLF and LF parse differently |
| CsvLineEnds.CrlfSameIff | crates/mda-reports/src/lib.rs:776-872 | for every result, CRLF and LF record ends parse alike iff the printed text does not parse or no record of it ends inside quotes |
| Csv.ToCsv | crates/mda-reports/src/lib.rs:728-745 | the printing loop equals the printed-text specification |
| Csv.FromCsv | crates/mda-reports/src/lib.rs:776-872 | the parser equals its specification: mark stripped, records read, header checked, rows built |
| Csv.ReadRecords | crates/mda-reports/src/lib.rs:784-850 | the character loop with its flush equals the scanner automaton |
| Csv.TextReportCells | crates/mda-reports/src/lib.rs:747-755 | the text that comes back under a column is the value's text, empty for null or absent |
| Csv.CellsComeBack | crates/mda-reports/src/lib.rs:728-872 | parsing the print gives under each column `true` or `false` for a boolean, a number's rendering, a string itself, the JSON of an array or object, and nothing for null or a missing key |
| Csv.ReturnEndsRecord | crates/mda-reports/src/lib.rs:784-850 | outside quotes a return ends the record, with or without a newline after it, and takes only that newline along |
| Csv.ArrayCellBreaks | crates/mda-reports/src/lib.rs:747-755 | a two-element array cell does not survive |
| Csv.ScanKeeps | crates/mda-reports/src/lib.rs:784-850 | no record or field once parsed is taken back |
| Csv.ScanUnsafeCell | crates/mda-reports/src/lib.rs:747-763 | an array or object with a separator reads back as something else, whatever follows |
| Expressions.EvaluatedExactly | crates/mda-expression/src/lib.rs:134-205 | evaluation is the unlimited one, and fails with a limit error iff that goes deeper than 32 or visits more than 10000 nodes |
| Expressions.BoundedRefinesUnbounded | crates/mda-expression/src/lib.rs:134-205 | any value returned is the unlimited value |
| Expressions.SmallExpressionsExact | crates/mda-expression/src/lib.rs:134-205 | height at most 32 and at most 10000 nodes give exactly the unlimited result or error |
| Expressions.StepsWithinNodes | crates/mda-expression/src/lib.rs:144-165 | steps used never exceed the node count, whether evaluation ends in a value, an error or a limit |
| Expressions.OnlyMentionedFields | crates/mda-expression/src/lib.rs:144-205 | an evaluation depends only on the fields the expression mentions |
| ExpressionMeaning.AndMeans | crates/mda-expression/src/lib.rs:144-205 | `And` is true when every operand is, and otherwise is decided by the first that is not: false if it is falsy, its error if it fails; later operands are not evaluated |
| ExpressionMeaning.OrMeans | crates/mda-expression/src/lib.rs:144-205 | `Or` is false when every operand is falsy, and otherwise is decided by the first that is not |
| ExpressionMeaning.CallMeans | crates/mda-expression/src/lib.rs:144-205 | a call passes its arguments in order, failing at the first that fails and for an unknown function |
| ExpressionMeaning.CompareMeans | crates/mda-expression/src/lib.rs:223-259 | numbers compare by size, strings by their first different character, false before true; null matches nothing; values of different types, arrays and objects and unknown kinds fail |
| ExpressionMeaning.CmpMeans | crates/mda-expression/src/lib.rs:144-259 | a comparison evaluates left, then right, and compares the results |
| ExpressionMeaning.CalculateMeans | crates/mda-expression/src/lib.rs:261-291 | each operation is its real-number counterpart, rounded, failing on overflow, a zero divisor, a non-number or an unknown operation; null makes it null |
| ExpressionMeaning.CalculatesExactly | crates/mda-expression/src/lib.rs:261-291 | where rounding changes nothing the results are the exact sum, difference, product and quotient |
| Expressions.DepthLimitTight | crates/mda-expression/src/lib.rs:144-155 | 32 nested negations evaluate, 33 do not |
| Expressions.EvalInner | crates/mda-expression/src/lib.rs:144-205 | the recursive evaluator with its shared counter equals the bounded specification |
| Expressions.EvalTop | crates/mda-expression/src/lib.rs:134-138 | evaluation starts at depth 0 with the whole budget |
| SharingMachine.EveryRunSound | crates/mda-data/src/sharing.rs:81-158 | over every interleaving of record writes and deletes, cascades, metadata publishes, rule create, edit and delete, manual shares and two-step recomputes, a share that passes the gate belongs to an active rule whose principal and access it carries, and whose condition matches the record now, if the record exists and its last publish since it was written left its live shares matching |
| SharingMachine.ReachableSound | crates/mda-data/src/crud.rs:154-162 | from empty tables, with every publish covered, every live share of an existing record has its match |
| SharingMachine.UnpublishedRunsSound | crates/mda-data/src/crud.rs:154-162 | so it has in every run without publishes |
| SharingMachine.PublishSoundIff | crates/mda-api/src/studio.rs:784-808 | a publish keeps soundness iff, on every record of the entity, each rule share that passes the gate belongs to a rule that matches the document the new fields show |
| SharingMachine.UnmentionedIsCovered | crates/mda-data/src/crud.rs:1309-1341 | it does when no rule of the entity names a field or reference that the publish hides or brings back on some record |
| SharingMachine.UnmentionedRunsCovered | crates/mda-data/src/crud.rs:1309-1341 | a run whose publishes are all of that kind is covered throughout |
| SharingMachine.RetiredFieldExample | crates/mda-data/src/crud.rs:1309-1341 | from empty tables, a rule on a field, an order it matches, the field retired: the share is live before and after, and after it the tables are unsound |
| SharingMachine.StepKeepsValid | crates/mda-api/src/admin.rs:1092-1368 | every transaction keeps the invariant, stale rows read by a pending recompute included |
| SharingMachine.EpochsGrow | crates/mda-data/src/sharing.rs:142-158 | over every run a rule's epoch never falls, and a deleted rule's id never comes back |
| SharingMachine.ManualUntouched | crates/mda-api/src/admin.rs:1092-1368 | no rule operation or recompute adds, changes or removes a manual share |
| SharingMachine.CreateGrants | crates/mda-api/src/admin.rs:1092-1131 | after a rule is created its live shares are exactly the matches among the scanned records whose slot was free |
| SharingMachine.RecomputeGrants | crates/mda-api/src/admin.rs:1261-1297 | a recompute from a fresh read makes live exactly the scanned matches with a free slot, next to what was live |
| SharingMachine.EditLeavesNothingLive | crates/mda-api/src/admin.rs:1133-1234 | after any effective edit no share of the rule passes the gate |
| SharingMachine.WideningRevokesExample | crates/mda-api/src/admin.rs:1183-1230 | on a concrete table, widening a rule to write access revokes a share the rule still matches |
| SharingMachine.EditThenRecomputeGrants | crates/mda-api/src/admin.rs:1183-1297 | after an effective edit of an active rule, a read and a scan, a share is live iff its slot was free of other rules and manual rows, it names the rule's principal, the scan grants it and the edit's own scan did not reach it |
| SharingMachine.WriteGrants | crates/mda-data/src/sharing.rs:81-121 | writing a record makes the share of the first matching rule live at once |
| SharingGrants.RecomputeGrantsOldest | crates/mda-data/src/sharing.rs:43-121 | per principal, a share given by hand stays; otherwise the oldest active rule of the entity that names the principal and matches the document gives its access at its epoch, and if none applies there is no share |
| SharingGrants.EditIsStored | crates/mda-api/src/admin.rs:1183-1195 | an edit stores each column it is given, keeps the others with entity and creation time, and leaves the other rules alone |
| SharingGrants.EditThenWriteGrants | crates/mda-api/src/admin.rs:1133-1234 | once an edit is followed by a write of a record, a live share of the rule there names the new principal, has the new access, and the active rule's new condition matches; and there is such a share unless a manual share or an older rule holds the place |
| SharingGrants.PublishShows | crates/mda-data/src/crud.rs:1309-1341 | a publish takes nothing from a row: what it holds is shown under the active names and the system columns and hidden otherwise, with its value |
| SharingGrants.RowsOfRuleGone | crates/mda-api/src/admin.rs:1200-1259 | a rule that is deleted or switched off keeps no share row, and no other row is touched |
| SharingGrants.CountIsOfMatches | crates/mda-api/src/admin.rs:1330-1368 | the count a recompute reports is the number of scanned records that match |
| Sharing.RecomputedExactly | crates/mda-data/src/sharing.rs:43-121 | after a record's recompute its shares are its unchanged manual rows plus, per principal without one, the first matching active rule by (created_at, id) at its current epoch; other records' rows are untouched |
| Sharing.ResumedIsOneScan | crates/mda-api/src/admin.rs:1299-1368 | resuming from the reported last id with any limits of at least 1 ends, scans every record once in order and leaves the shares of one unbounded scan |
| Sharing.MaterializeRule | crates/mda-api/src/admin.rs:1299-1368 | one pass scans the first min(limit, remaining) records in id order, whatever the batch size, and reports count, last id and truncation exactly |
| Sharing.MaterializedExactly | crates/mda-api/src/admin.rs:1330-1360 | a scan adds a row exactly for each matching scanned record whose slot was free and changes no other |
| SharingTables.Tables.RecomputeRecord | crates/mda-data/src/sharing.rs:81-121 | the table loop equals the specification of `RecomputedExactly` |
| SharingTables.Tables.Write | crates/mda-data/src/crud.rs:264-590 | a record write with its recompute is one step of the machine |
| SharingTables.Tables.Delete | crates/mda-data/src/crud.rs:660-693 | an absent record is not found, a delete that a foreign key refuses changes nothing, and otherwise the record goes with the records that cascade from it, as a run of the machine, and with exactly its own shares |
| SharingTables.Tables.AddRule | crates/mda-api/src/admin.rs:1092-1131 | the create handler is one step of the machine |
| SharingTables.Tables.BumpEpoch | crates/mda-data/src/sharing.rs:142-158 | the rule's epoch grows by one; every share it has given stops passing the gate and no other share changes |
| SharingTables.Tables.UpdateRule | crates/mda-api/src/admin.rs:1133-1234 | the edit handler, in the code's order, is one step of the machine: each given column takes its new value, the others, entity and creation time stay, the epoch grows iff something was given, other rules are unchanged, and a missing rule is not found |
| SharingTables.Tables.RemoveRule | crates/mda-api/src/admin.rs:1236-1259 | deleting a rule removes its rows with it |
| SharingTables.Tables.BeginRecompute | crates/mda-api/src/admin.rs:1261-1285 | the first transaction only remembers the rule row; missing and inactive rules are refused |
| SharingTables.Tables.FinishRecompute | crates/mda-api/src/admin.rs:1285-1297 | the second scans with that row, however old, and reports scanned and matching records, last id and truncation; it fails only when the rule is gone and a row would be inserted |
| Readers.ResolveRecordReaders | crates/mda-api/src/notifications.rs:714-807 | the returned set is exactly the notified users |
| Readers.NotifiedCanRead | crates/mda-api/src/notifications.rs:714-807 | every returned user satisfies the read predicate for the record |
| Readers.TeamPartExact | crates/mda-api/src/notifications.rs:740-790 | the team part is exact, on cyclic parent links too: upward closure of the owner's team against downward closure of the viewer's |
| Readers.MissedReaders | crates/mda-api/src/notifications.rs:700-807 | an object-level reader can read and is missed iff the record is not public, not theirs, not shared to them, not seen through a team default, and superuser rights, a share of the team or the role hierarchy let them |
| Readers.SuperusersMissed | crates/mda-security/src/identity.rs:79 | a superuser who neither owns a private record nor holds a share of it can read it and is missed |
| Readers.TeamSharesNotifyNobody | crates/mda-api/src/notifications.rs:714-807 | a member who reads only through a team share is not notified |
| Readers.CanRead | crates/mda-data/src/crud.rs:132-177 | evaluating the predicate with its two recursive walks decides the read rule |
| Readers.OwnerTeamBelow | crates/mda-data/src/crud.rs:138-152 | the downward team walk decides whether the owner's team is at or below the viewer's |
| Readers.WriteImpliesRead | crates/mda-data/src/crud.rs:132-206 | whoever may write a record may read it |
| ReadAccess.ReadableIff | crates/mda-data/src/crud.rs:132-177 | row by row: a record is readable iff the viewer is a superuser, it is public, theirs, shared with them or their team by a manual row or by an active rule at the row's epoch, or owned by someone below them in team or role with `read` held |
| ReadAccess.WritableIff | crates/mda-data/src/crud.rs:179-206 | it is writable iff the viewer is a superuser, it is public to write, theirs, or so shared with access `write` |
| ReadAccess.NotifiedIff | crates/mda-api/src/notifications.rs:714-807 | a user is notified iff active and one of these reads it: a holder of `read` on a public record, the owner, a direct live share, or a team line above the owner |
| ManualShares.SharedUntilTakenBack | crates/mda-api/src/data.rs:1608-1760 | a record shared by hand, where no rule's row holds the place, is readable by the principal, and writable if shared for writing, over every run until the share is given anew, taken back, or the record deleted; for a team, by whoever is in it then |
| ManualShares.TakenBack | crates/mda-api/src/data.rs:1724-1760 | a share taken back gives its principal nothing |
| ManualShares.DeletedGivesNothing | crates/mda-data/src/crud.rs:660-693 | nor does any share of a deleted record |
| SharingTables.Tables.ShareRecord | crates/mda-api/src/data.rs:1608-1675 | giving a share is one step of the machine: a new manual row, or a new access on the row that is there |
| SharingTables.Tables.UnshareRecord | crates/mda-api/src/data.rs:1724-1760 | taking back removes a manual row and nothing else; without one it is not found |
| Blobs.EveryRowHasItsBytes | crates/mda-api/src/blobs.rs:126-286 | after any interleaving of upload and delete statements, duplicate deletes and uploads before an unlink included, every row's key has bytes with its checksum, and two rows share a key iff they have the same tenant and checksum |
| Blobs.QuietStoreIsExact | crates/mda-api/src/blobs.rs:126-286 | with no request under way the stored keys are the referenced ones and at most what failures leaked |
| Blobs.FinishedRequestsLeakNothing | crates/mda-api/src/blobs.rs:126-286 | with no failed request or unlink they are exactly the referenced keys |
| BlobOwners.RowsWereUploaded | crates/mda-api/src/blobs.rs:108-186 | over every interleaving each row was uploaded under its id, in its tenant and by its owner, with bytes of its checksum |
| BlobOwners.DeletedByOwner | crates/mda-api/src/blobs.rs:234-286 | over every interleaving a row that no request is deleting stays as it is until its owner, or a superuser of its tenant, asks to delete it |
| BlobOwners.LeaksExactly | crates/mda-api/src/blobs.rs:126-286 | bytes leak only when a request fails between storing new ones and its commit, or before unlinking the last ones |
| Blobs.StepKeepsValid | crates/mda-api/src/blobs.rs:126-286 | every statement of every request keeps the protocol invariant |
| Blobs.CountedAlone | crates/mda-api/src/blobs.rs:266-275 | a count of 0 within the tenant means no row of any tenant has the key |
| Blobs.UploadIsRun | crates/mda-api/src/blobs.rs:108-186 | the effect of a lone upload is a run of its five statements, keeps the invariant, and adds bytes to the store exactly when the tenant had none with that checksum |
| Blobs.DeleteIsRun | crates/mda-api/src/blobs.rs:234-286 | the effect of a lone delete is a run of its five statements, keeps the invariant, and takes bytes away exactly when their last row goes |
| Blobs.BlobStore.Upload | crates/mda-api/src/blobs.rs:108-186 | the lookup is right, and the new row has the found key, or its own id with the bytes stored under it |
| Blobs.BlobStore.Delete | crates/mda-api/src/blobs.rs:234-286 | absent and foreign rows are not found, other owners forbidden; else the row goes, and its bytes when the count of sharers is 0 |
| Publishing.PublishYieldsDraftIff | crates/mda-api/src/studio.rs:460-899 | after a publish the loaded entities, fields and relationships are exactly the draft's, content included, iff no stored row of the draft differs and no stray row joins its entities; the modules loaded are the stored ones and the draft's, each with its columns, so the whole model that loads is the draft iff besides the draft names every stored module |
| Publishing.PublishedAt | crates/mda-api/src/studio.rs:581-808 | per artifact: active afterwards iff in the draft (or a stray row left active), never rewritten, and its retirement rows cleared, added or kept accordingly |
| Publishing.ModulesStored | crates/mda-api/src/studio.rs:581-598 | after a publish the module table holds exactly the stored modules, unchanged, and the draft's, each with the draft's columns |
| PublishEffects.PublishOkIff | crates/mda-api/src/studio.rs:460-692 | a publish goes through iff the draft is there and open, the remaining checks pass, no id occurs twice, nothing active is changed, no relationship leaves the draft, no new entity takes another tenant's table, and no new artifact or module takes a stored or earlier name |
| PublishEffects.PublishRefused | crates/mda-api/src/studio.rs:273-580 | and which error answers each of the reasons found before anything is written, the tables unchanged |
| PublishEffects.ArtifactsStored | crates/mda-api/src/studio.rs:600-782 | each entity, field and relationship of the draft is active afterwards with no retirement row, as stored before or, if new, with the draft's columns, owner, target and cardinality |
| PublishEffects.DroppedRetired | crates/mda-api/src/studio.rs:784-808 | each active artifact the draft drops is kept as stored, retired, with one retirement row |
| PublishEffects.LoadedRows | crates/mda-meta/src/loader.rs:24-68 | the active model's entities, fields and relationships are exactly the active rows under active entities, with their content |
| Publishing.EveryRunValid | crates/mda-api/src/studio.rs:460-1033 | over every run of publishes an artifact has exactly one retirement row iff it is retired, snapshots are the last ten with consecutive versions, and every snapshot is still stored in full |
| Publishing.RollbackRestores | crates/mda-api/src/studio.rs:460-899 | after any run, publishing a snapshot succeeds iff draft status, remaining checks and table names allow and its targets are its own entities; then it is restored in full iff no stray joins, modules unchanged, version one up |
| Publishing.CarefulRollback | crates/mda-api/src/studio.rs:460-899 | if no draft redefined a stored id, every permitted rollback restores its snapshot in full |
| Publishing.CarefulPublishYieldsDraft | crates/mda-api/src/studio.rs:460-899 | in such a run every publish makes the active model its draft |
| Publishing.EntitiesAfter | crates/mda-api/src/studio.rs:600-808 | the active entities after any publish are exactly the draft's |
| Publishing.ReaddedKeepsOldContent | crates/mda-api/src/studio.rs:600-692 | a draft that redefines a stored id publishes, and the old content becomes active |
| Publishing.RelabelledFieldExample | crates/mda-api/src/studio.rs:626-657 | a retired field added back under a new label becomes active under the old one |
| Publishing.PublishGrows | crates/mda-api/src/studio.rs:581-808 | no publish deletes a row or module or changes what it holds |
| ActiveModels.EveryRunLoads | crates/mda-meta/src/loader.rs:24-68 | after every run there is an active model to load, built from the visible rows alone |
| ActiveModels.ActiveModelIsUnique | crates/mda-meta/src/loader.rs:24-68 | and it is the only one, up to order |
| Publishing.AddArtifacts | crates/mda-api/src/studio.rs:600-692 | the three insert passes equal the fold over entities, then fields, then relationships |
| Publishing.RetirePass | crates/mda-api/src/studio.rs:784-808 | the nested retire loop equals the fold over the active artifacts, entity by entity |
| Publishing.MetadataStore.PublishDraft | crates/mda-api/src/studio.rs:273-310 | the handler and its transaction equal the publish specification; after Ok the module table holds exactly the old modules and the draft's new ones with the draft's columns, after an error everything is as it was |
| ReferenceCycles.RelationshipsOnCycles | crates/mda-api/src/studio.rs:1040-1081 | an id is returned iff some non-many-to-many edge with that id lies on a directed cycle of active and draft together |
| ReferenceCycles.ReachesBack | crates/mda-api/src/studio.rs:1058-1078 | the stack search ends on every graph and finds the source iff it is reachable |
| ReferenceCycles.ImmediateKeysAcyclic | crates/mda-api/src/studio.rs:1033-1081 | the keys left immediate form an acyclic graph |
| TeamHierarchies.TeamRunKeepsValid | crates/mda-api/src/admin.rs:157-320 | every run of team create, update, delete and import from a forest ends in a forest of known teams |
| TeamHierarchies.ReparentRefusedIffCycle | crates/mda-api/src/admin.rs:202-255 | re-parenting known teams is refused iff the result would hold a cycle |
| TeamHierarchies.ImportAcceptedIff | crates/mda-api/src/tenants.rs:422-473 | from a forest, an import is accepted iff the links made without any check form a forest after each row, and then it is their end result |
| TeamHierarchies.ImportUnlinkedIff | crates/mda-api/src/tenants.rs:422-473 | when the bundle's teams start unlinked it is accepted iff the finished hierarchy is a forest |
| TeamHierarchies.UnlinkedBundleOrderFree | crates/mda-api/src/tenants.rs:422-473 | and then any order of the rows is accepted or refused alike, with one result |
| TeamHierarchies.ImportOrderMatters | crates/mda-api/src/tenants.rs:422-473 | without that, of two orders of the same rows one is refused and one accepted |
| TeamHierarchies.TeamTable.WouldCycle | crates/mda-api/src/admin.rs:298-320 | the deduplicating upward walk ends on every graph and hits iff the child is an ancestor of the parent |
| TeamHierarchies.TeamTable.Create | crates/mda-api/src/admin.rs:157-200 | creating is one step of the run and keeps the forest |
| TeamHierarchies.TeamTable.Update | crates/mda-api/src/admin.rs:202-255 | updating is one step of the run and keeps the forest |
| TeamHierarchies.TeamTable.Delete | crates/mda-api/src/admin.rs:259-296 | deleting is one step of the run and keeps the forest |
| TeamHierarchies.TeamTable.RestoreTeams | crates/mda-api/src/tenants.rs:373-473 | the two-pass import applies all rows or none and keeps the forest |
| HierarchyEffects.TeamDeleted | crates/mda-api/src/admin.rs:259-296 | deleting a team makes its children roots and changes no other row |
| HierarchyEffects.TeamCreated | crates/mda-api/src/admin.rs:157-200 | a team is created iff its name is neither blank nor another's, its parent is there and its id new, as a row of that name and parent |
| HierarchyEffects.TeamUpdated | crates/mda-api/src/admin.rs:202-255 | an update stores the name and parent it is given and keeps what it is not |
| HierarchyEffects.RowUpserted | crates/mda-api/src/tenants.rs:373-420 | an imported row goes to the team of its name, or renames the team of its id, or is a new root |
| HierarchyEffects.LinksOfRun | crates/mda-api/src/tenants.rs:422-473 | the links touch the bundle's teams alone, each under the team its parent's row went to |
| RoleHierarchies.RoleRunKeepsValid | crates/mda-api/src/admin.rs:1461-1535 | every run of parent add and remove, role delete and import from an acyclic hierarchy stays acyclic |
| RoleHierarchies.AddParentRefusedIffCycle | crates/mda-api/src/admin.rs:1461-1512 | parenting known roles is refused iff the edge would close a cycle |
| RoleHierarchies.RoleTable.WouldCycle | crates/mda-api/src/admin.rs:1475-1500 | the upward walk ends on every graph and is exact |
| RoleHierarchies.RoleTable.Add | crates/mda-api/src/admin.rs:1461-1512 | adding a parent is one step of the run |
| RoleHierarchies.RoleTable.Remove | crates/mda-api/src/admin.rs:1515-1535 | removing a parent is one step of the run |
| RoleHierarchies.RoleTable.RestoreHierarchy | crates/mda-api/src/tenants.rs:1169-1220 | the import links all rows or none and counts the new pairs |
| HierarchyEffects.ParentAdded | crates/mda-api/src/admin.rs:1461-1512 | a parent link is added iff both roles are there and it closes no cycle, and nothing else changes |
| HierarchyEffects.ParentRemoved | crates/mda-api/src/admin.rs:1515-1535 | removing takes exactly that link |
| HierarchyEffects.LinksImported | crates/mda-api/src/tenants.rs:1169-1220 | an accepted import adds exactly the links its rows name |
| Graphs.RecursiveUnion | crates/mda-api/src/admin.rs:298-320 | a recursive UNION ends on every graph and returns exactly the reachable ids |
| Graphs.AddEdgeAcyclic | crates/mda-api/src/admin.rs:1475-1500 | an edge keeps a graph acyclic iff its head does not reach its tail |
| Graphs.ReparentAcyclic | crates/mda-api/src/admin.rs:202-255 | replacing a node's parent keeps it acyclic iff the new parent did not reach the node before |
| Graphs.InverseReaches | crates/mda-data/src/crud.rs:138-152 | walking up meets a node iff walking down from it meets the start |
| Mappings.RoundTripIff | crates/mda-integration/src/lib.rs:387-407 | mapping any record out and in again gives every mapped field its value, absent ones Null, iff no path has a blank segment and no path is a prefix of another |
| Mappings.OrderFreeIff | crates/mda-integration/src/lib.rs:835-873 | the payload is the same in every iteration order iff no path writes over another |
| Mappings.ReadsWhatWasSet | crates/mda-integration/src/lib.rs:850-873 | a written path reads back its value |
| Mappings.SetLeavesOthers | crates/mda-integration/src/lib.rs:850-873 | writing a path leaves incomparable paths as they were |
| Mappings.InboundExact | crates/mda-integration/src/lib.rs:397-407 | mapping in gives each mapped field what stands at its path, and no other field |
| Mappings.ValueArrives | crates/mda-integration/src/lib.rs:835-873 | mapping out puts each field at its path, for non-blank paths none of which writes over another |
| Mappings.PartByPart | crates/mda-integration/src/lib.rs:850-873 | writing leaves out the blank parts of the path, each by itself, and keeps the others in order |
| Paths.TrimExact | crates/mda-integration/src/lib.rs:387-394 | trimming takes exactly the whitespace off both ends |
| Mappings.ResolvePath | crates/mda-integration/src/lib.rs:388-394 | the segment loop equals the recursive walk |
| Mappings.ApplyMapping | crates/mda-integration/src/lib.rs:397-407 | the inbound loop equals its specification |
| Mappings.MapOutbound | crates/mda-integration/src/lib.rs:835-848 | the outbound loop equals its specification |
| Relays.NothingMissed | crates/mda-api/src/webhooks.rs:264-351 | with any number of relayers crashing and overtaking one another, and events committing in any order, every event at or below the cursor has a delivery for every matching subscription, unless the cursor or a pass under way had gone by its number when it committed |
| Relays.InOrderNothingMissed | crates/mda-api/src/webhooks.rs:264-351 | when events commit in the order of their numbers, none at or below the cursor is missed |
| Relays.NothingSpurious | crates/mda-api/src/webhooks.rs:296-340 | every delivery is of a committed event to a subscription that matches it |
| Relays.WantedIsDelivered | crates/mda-api/src/webhooks.rs:264-351 | over every run an event in time at or below the cursor is delivered to each active subscription of its tenant that lists its kind, `*` or none and whose entity filter, if both have one, is the event's |
| Relays.DeliveredIsWanted | crates/mda-api/src/webhooks.rs:296-340 | and every delivery is of a committed event to such a subscription |
| Relays.StepKeepsValid | crates/mda-api/src/webhooks.rs:264-351 | every statement keeps the relay invariant, the cursor moving back included |
| Relays.TurnsKeepExactlyOnce | crates/mda-api/src/webhooks.rs:264-351 | over any alternation of commits and complete passes, each match of an event in time up to the cursor is delivered once and nothing else is |
| Relays.DeliveredOnceIffInTime | crates/mda-api/src/webhooks.rs:274-286 | in such a run an event is delivered to a match, once, iff it committed ahead of the cursor and the cursor has since passed it |
| Relays.PassShortensBacklog | crates/mda-api/src/webhooks.rs:274-286 | each pass takes exactly its batch off the front of the backlog |
| Relays.PassesDrain | crates/mda-api/src/webhooks.rs:264-351 | one pass for every 500 events behind, the rest counting as 500, and every event in time has been delivered to each match exactly once |
| Relays.IdlePass | crates/mda-api/src/webhooks.rs:264-295 | a pass starts from the stored cursor and ends without a trace when nothing is after it |
| Relays.CrashUndoesNothing | crates/mda-api/src/webhooks.rs:264-351 | a crash leaves cursor, outbox and log as they were |
| Relays.PassIsRun | crates/mda-api/src/webhooks.rs:264-351 | the effect of an undisturbed pass is a run of the single statements |
| Relays.WebhookRelay.RelayOnce | crates/mda-api/src/webhooks.rs:264-351 | the loops leave what a complete pass does, and the count returned is that of the new deliveries |
| Relays.WebhookRelay.Commit | migrations/20260110000001_event_log_and_archive.sql:22-32 | the event is in the log, which stays in order, and either among those still to be fetched or late, and then no later pass ever fetches it |
| Relays.WebhookRelay.Enqueue | crates/mda-api/src/webhooks.rs:300-340 | one event gains one delivery per matching subscription |
| Versions.AsOfIff | crates/mda-api/src/history.rs:161-175 | over every run, the lookup answers an image for a version iff a create, update or restore left the record showing that image at that version |
| Versions.AsOfIsReadIff | crates/mda-api/src/history.rs:161-175 | of a record live at some point of a run, the lookup answers, ever after, what a read returned there iff nothing the row holds was retired or brought back since its last write |
| Versions.AsOfIsRead | crates/mda-api/src/history.rs:161-175 | so it does when no publish came between |
| Versions.RetiredFieldExample | crates/mda-data/src/crud.rs:1309-1341 | one create, then its field is retired: read and looked-up image differ at version 1 |
| Versions.CurrentIsWritten | crates/mda-data/src/crud.rs:264-693 | the newest audited image is what the current copy, live or archived, shows under the fields that were active at its last write |
| Versions.AsOfIsUnique | crates/mda-api/src/history.rs:161-175 | at most one audit row shows a record at a version |
| Versions.EveryRunValid | crates/mda-data/src/crud.rs:264-693 | along the audit log a record's versions strictly increase, and its current copy, live or archived, has the owner and version of its newest image |
| Versions.VersionStep | crates/mda-data/src/crud.rs:465-590 | the version grows by one on a successful create, update or restore of the record and on nothing else |
| Versions.StaleUpdateNeverSucceeds | crates/mda-data/src/crud.rs:592-640 | once an update succeeded, no update naming that version or an older one ever succeeds again: not found, in conflict, or of fields no longer active |
| Versions.RestoreContinues | crates/mda-data/src/crud.rs:1247-1307 | the copy a restore finds is the last archived one, with the owner and version of the newest image the record ever had |
| Versions.RetiredValueComesBack | crates/mda-data/src/crud.rs:465-590 | an update keeps the stored values of retired fields, which show again once their field is back |
| Versions.UpdateStores | crates/mda-data/src/crud.rs:465-590 | under each field the updated row stores what was set, nothing where cleared, and otherwise what it stored before |
| Versions.ReadShows | crates/mda-data/src/crud.rs:1309-1341 | a read shows exactly the stored values of active fields |
| Versions.UpdateAnswer | crates/mda-data/src/crud.rs:592-640 | which error answers an update, in the handler's order |
| Versions.RestoreAnswer | crates/mda-data/src/crud.rs:1247-1307 | which error answers a restore |
| Versions.WriteIsAudited | crates/mda-data/src/crud.rs:264-693 | each successful write adds one audit row with the image it left |
| Versions.ScopeIsAllOrNothing | crates/mda-data/src/crud.rs:1262-1282 | a write scope sees all archived copies of a record or none |
| Versions.RecordTable.CreateRecord | crates/mda-data/src/crud.rs:264-440 | a create of active fields starts at version 1, shows what was given and is audited; an unknown field is invalid |
| Versions.RecordTable.UpdateRecord | crates/mda-data/src/crud.rs:465-640 | an update succeeds iff its fields are active and the record live, in scope and at the named version; then set keys take their value, cleared keys go, others stay |
| Versions.RecordTable.DeleteRecord | crates/mda-data/src/crud.rs:660-693 | a delete moves the row to the archive as stored and is audited, and with the rows that cascade from it, archived and not audited, is a run of the machine |
| Versions.RecordTable.RestoreRecord | crates/mda-data/src/crud.rs:1247-1307 | a restore re-inserts the newest copy in scope one version above every earlier one, showing what the copy shows under the active fields |
| Versions.RecordTable.RecordAsOf | crates/mda-api/src/history.rs:153-222 | the search answers with the newest matching image or not found |
| Imports.WriteInChunks | crates/mda-api/src/data.rs:1220-1264 | for every chunk size, chunked transactions with a savepoint per row equal the row-by-row fold that leaves failing rows out, counts and errors included |
| Imports.WriteAll | crates/mda-api/src/data.rs:1181-1219 | one transaction applies every valid row, or leaves the tables as they were with counts 0 and the failure reported |
| Imports.AbortIsContinueWithoutFailures | crates/mda-api/src/data.rs:1178-1266 | `abort` goes through iff `continue` would record no failure, and then ends alike; otherwise it reports the first failure `continue` would record |
| Imports.CountsAddUp | crates/mda-api/src/data.rs:1158-1266 | every valid row is created, updated or reported, and no count exceeds what the dry run announced |
| Imports.AbortCountsAsAnnounced | crates/mda-api/src/data.rs:1158-1219 | after a successful `abort` the counts are the dry run's |
| Imports.CommitImport | crates/mda-api/src/data.rs:1158-1266 | nothing is written on a dry run or on `abort` with validation errors; otherwise the mode decides |
| Imports.ImportIsARun | crates/mda-api/src/data.rs:1326-1345 | a `continue` import changes the tables as the same sequence of single-record requests would |
| ImportEffects.ContinueExactly | crates/mda-api/src/data.rs:1220-1264 | `continue` ends in the tables after the last row with invalid and failing rows left out, counts what it wrote, and reports each failed row with its message after the earlier errors |
| ImportEffects.AbortWritesNothing | crates/mda-api/src/data.rs:1181-1219 | at the first failing row `abort` leaves the tables as they were and reports that row with its message |
| ImportEffects.ValidationErrorsExact | crates/mda-api/src/data.rs:1158-1180 | every validation error of every row is listed under the row's number, in order |
| ImportEffects.ValidationErrorsOnly | crates/mda-api/src/data.rs:1158-1180 | and nothing else is |
| ImportEffects.RowCreatesRecord | crates/mda-api/src/data.rs:1326-1345 | a row that matched nothing becomes a record of the importing user with the values it gives |
| ImportEffects.RowUpdatesRecord | crates/mda-api/src/data.rs:1326-1345 | a row that matched sets and clears what it says on that record, one version up |
| Mail.ReceiverRecoversMessage | crates/mda-api/src/mail.rs:130-150 | a receiver following section 4.5.2 of RFC 5321 recovers exactly the four header lines, an empty line and the lines of the body, with nothing left after the dot, for every message |
| Mail.DotStuffIsJoined | crates/mda-api/src/mail.rs:242-256 | stuffing writes the lines of the body, ended by LF or CRLF, joined by CRLF with leading dots doubled |
| Mail.EnvelopeCommandsAreOneLine | crates/mda-api/src/mail.rs:113-126 | whatever the addresses hold, each envelope command is one line |
| Mail.HeaderScrub | crates/mda-api/src/mail.rs:231-238 | the result has no CR, LF or NUL, and a value without them is unchanged |
| Mail.HeaderScrubExact | crates/mda-api/src/mail.rs:231-238 | each CR, LF or NUL becomes one space and every other character stays in its place |

## Left out

- Reports: SQL text, bind numbering and identifier truncation; joins are modelled by what they select. Filters, groups, ordering and the paging of the outer query.
- Reports: `Reports.CompileTraversals` states what leaves mean only under distinct aliases; without them the converse is proved for runners who see every entity crossed.
- Csv: JSON rendering of a nested cell is an arbitrary text that starts with `[` or `{`, and for `CsvLineEnds.CrlfSameIff` ends with `]` or `}`; number rendering is a text without separators or quotes.
- Expressions: float rounding and the registered functions are parameters that may fail; functions of the clock are fixed for a whole run of the sharing machine, so a share that time alone makes stale is not modelled.
- Sharing: authorization of rule edits and of manual shares; several tenants; importing sharing rules, which overwrites epochs.
- Sharing, Versions: which references restrict, cascade or fail to clear; a delete is given its refusal and the records that cascade. The entity definition is the one published last; a server's cached older one is not modelled. In Versions the tables hold one entity and every validation but that of unknown fields is the refusal passed in.
- SharingMachine: a share granted by an edit, because the code grants none; the lemmas state exactly when shares become live instead.
- Readers: caching of role data, effective channels and the delivery of notifications.
- Blobs: downloads, file names and media types; a file write or unlink is one step, so a half-written file is not modelled; ids repeat in no table, as random UUIDs do not.
- Publishing: the DDL the publish runs; the diff's checks on names, types and identifiers are one verdict passed in; creation times order snapshots by insertion; publishes of a tenant are sequential, because the active model is loaded before the lock.
- TeamHierarchies, RoleHierarchies: one tenant; check and write of a handler are one step.
- Mappings: `set_nested` walks a mutable pointer into the payload; here writing is a recursive function on values, so sharing and update in place are not captured. Mapping entries whose path is not a string are skipped by the code and left out.
- Relays: the delivery worker; subscriptions do not change during a run.
- Versions: coercion, defaults and auto-number fields; the lookup by time; integration writes, which skip the audit log; archive rows are ordered by commit.
- Imports: parsing and validation of rows; a failed write may leave any partial change inside its transaction; a crash between chunks.
- Mail: the session around DATA, replies and timeouts.
- Handlers, routing, GraphQL, streams, rendering to XLSX, PDF and HTML, sessions, tokens and hashing.
