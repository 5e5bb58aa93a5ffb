# BullFrog and its PostgreSQL contrib modules in Dafny

BullFrog is PostgreSQL 11 with lazy schema migration. This project models the migration protocol and the
hardest algorithms of the contrib modules in the tree, and proves what they keep, on all inputs and over all
runs. Where a promise does not hold of the code as it is, there is a witness and the exact condition under
which it does hold.

Verify everything with `dafny verify dfyconfig.toml`.

## What is proved

**Lazy migration** (`Migration*.dfy`). Every load and store of the shared bitmap by any number of backends is
one step of a state machine: claiming a tuple, marking the claimed tuples at the end of a statement, waiting
for the tuples of others, the commit behind it, and the failures: a write canceled as a pivot, which gives
claims back before its copies go, any other error, which leaves claims and lists behind, and a failing
commit. `word |= bit` is two steps, as the partition lock guards a row and not the word that 32 rows share.
Exactly-once migration holds in every run if and only if backends never visit different rows of one word,
every statement commits on its own and only pivots fail; a second theorem says exactly when a backend can be
left waiting for ever.

**intarray** (`Int*.dfy`). The query_int parser accepts exactly a reference grammar and emits its postfix form;
printing and parsing undo each other up to the grouping of `&`; stored links, the evaluator and the GIN
functions compute the meaning of the query. The lossy range compression of GiST keys is the best possible
one if and only if no gap overflows an int, and searching trees of such keys is exact.

**btree_gist** (`BtreeGist*.dfy`). Truncated keys of unions never lose a row under any of the six strategies.
A page split cuts both halves to the longer of the two lengths; the exact condition under which that loses
rows is proved, for one split and for whole trees of unions and splits, with an example of each.

**hstore** (`Hstore*.dfy`). The packed layout, its builders, the set operations as merges of packed values, the
byte-wise order, the text format with its buffers, the round trip through it, and the in-place conversion
of old values.

**bloom** (`Bloom*.dfy`, `BitXor.dfy`). The Park-Miller generator in 32-bit arithmetic, signatures without false
negatives, pages, and the concurrent index as a state machine of locked stretches: conservation of entries,
completeness of bulk deletes and of scans.

**cube** (`Cube*.dfy`). Box operations over missing dimensions, exact GiST search, distances that never grow from
an item to its node, and the comparison, which is not transitive across numbers of dimensions.

**amcheck** (`BtreeCheck*.dfy`). The read-only btree check over arbitrary page graphs: exactly when it ends, with
the search for a right neighbour inside it, exactly what it accepts, and how much order that shows.

`Wrappers.dfy`, `Buffers.dfy`, `Sequences.dfy` and `Lexicographic.dfy` hold what several of these share.

Reading conventions. Ghost parameters such as `ps` or `q` name the abstract value a concrete argument stands
for. A `Search` or `Strategy` is a query with its operator, an `Entry` a tree of index keys; `Reached` says that
a search returns a row from it. Where code and documentation differ, the model follows the code.

## Model

| member | source | states |
|---|---|---|
| `MigrationBitmap.ElementIdsIdentifyTuples` | postgresql-11.0/src/backend/executor/execScan.c:34-40 | in 32-bit arithmetic, element ids identify the tuples of a table if and only if it has one page, or one tuple a page, or at most 15 tuples a page and at most 286331153 pages |
| `MigrationBitmap.BitsAreDistinct` | postgresql-11.0/src/backend/utils/migrate_schema.c:37-52 | the two bits of a row lie in one word of the bitmap, no two rows share a bit, and rows of one word fall under different partition locks |
| `MigrationBitmap.SetLockBit` | postgresql-11.0/src/backend/utils/migrate_schema.c:66-71 | sets the lock bit of one row and leaves every other bit of every row alone |
| `MigrationBitmap.ResetLockBit` | postgresql-11.0/src/backend/utils/migrate_schema.c:73-78 | clears the lock bit of one row and leaves every other bit alone |
| `MigrationBitmap.SetMigrateBit` | postgresql-11.0/src/backend/utils/migrate_schema.c:80-85 | sets the migrate bit of one row and leaves every other bit alone |
| `MigrationSafety.StepKeepsInv` | postgresql-11.0/src/backend/executor/execScan.c:26-84 | with word-disjoint, autocommitted work every memory access, commit, failed commit and pivot of every backend keeps the invariant: one owner per claimed row, no stale word, copies and bits in agreement |
| `MigrationSafety.RunKeepsInv` | postgresql-11.0/src/backend/executor/execScan.c:26-84 | the invariant holds after every interleaving of any number of backends, failing commits and pivots included |
| `MigrationSafety.SafeRuns` | README.md:7 | in every run of word-disjoint, autocommitted work in which only pivots fail, no row is copied twice and every row marked as moved has its copy, committed or in an open transaction |
| `MigrationSafety.CompletedStatement` | postgresql-11.0/src/backend/tcop/postgres.c:885-922 | when a migration statement may end, every row it visited, whoever claimed it, is moved and has exactly one copy, committed or in one open transaction |
| `MigrationSafety.ReleaseStep` | postgresql-11.0/src/backend/executor/execScan.c:57-84 | giving up the partition lock with a claimed, contended or moved row keeps the invariant |
| `MigrationSafety.StoreStep` | postgresql-11.0/src/backend/executor/execScan.c:64-65 | the store half of the claim keeps the invariant |
| `MigrationSafety.MarkStep` | postgresql-11.0/src/backend/tcop/postgres.c:893-896 | setting the migrate bits at the end of a statement keeps the invariant |
| `MigrationSafety.UndoStep` | postgresql-11.0/src/backend/storage/lmgr/predicate.c:4474-4489 | giving claims back while the failing transaction still holds its copies keeps the invariant |
| `MigrationSafety.AbortStep` | postgresql-11.0/src/backend/storage/lmgr/predicate.c:4637-4650 | rolling back the copies after the claims are given back keeps the invariant |
| `MigrationSafety.EndStep` | postgresql-11.0/src/backend/tcop/postgres.c:1175-1190 | the commit behind the bookkeeping, whether it succeeds or fails, keeps the invariant of claims and words |
| `MigrationSafety.QuiescentRowsAreDone` | postgresql-11.0/src/backend/tcop/postgres.c:885-922 | once every backend is idle, the claimed rows, the moved rows and the rows with one committed copy are the same |
| `MigrationSafety.QuiescentClaimsAreMoved` | postgresql-11.0/src/backend/tcop/postgres.c:898-913 | with every backend idle, waiting or about to commit, the claimed rows are exactly the moved rows, even where commits have failed |
| `MigrationWaits.StepKeepsWaits` | postgresql-11.0/src/backend/tcop/postgres.c:898-913 | every step keeps what is known of waiting: a row a backend waits for stays claimed where no pivot is canceled, and is its own claim, moved, or visited by another backend |
| `MigrationWaits.NeverStuck` | postgresql-11.0/src/backend/tcop/postgres.c:898-913 | in every run nobody is left waiting with all others idle, waiting too or about to commit, unless a pivot can give back a row that two backends visit |
| `MigrationRaces.ExactlyOnceIff` | README.md:7 | exactly-once migration holds in every run if and only if different backends never visit different rows of one bitmap word, every statement commits on its own, and nothing fails but writes of pivots |
| `MigrationRaces.LostUpdate` | postgresql-11.0/src/backend/executor/execScan.c:64-65 | whenever two backends visit different rows of one word there is a run that commits two copies of a row |
| `MigrationRaces.LateRollback` | postgresql-11.0/src/backend/tcop/postgres.c:885-922 | without autocommit there is a run in which a row is marked as moved but has no copy |
| `MigrationRaces.FailedCommit` | postgresql-11.0/src/backend/access/transam/xact.c:2042 | a commit that fails after the bits are set leaves a row marked as moved without a copy |
| `MigrationRaces.StaleMark` | postgresql-11.0/src/backend/storage/lmgr/predicate.c:4655-4664 | after a failure without clean-up the next statement of the backend marks the row that was rolled back |
| `MigrationRaces.StuckWaiter` | postgresql-11.0/src/backend/storage/lmgr/predicate.c:4474-4489 | if a write can be canceled as a pivot, two backends that visit one row can reach a state in which one waits for a row nobody claims, with no step left |
| `MigrationRaces.StuckAlone` | postgresql-11.0/src/backend/storage/lmgr/predicate.c:4655-4664 | after a failure without clean-up a backend can wait for its own forgotten claim |
| `MigrationRaces.StuckIff` | postgresql-11.0/src/backend/tcop/postgres.c:898-913 | with word-disjoint, autocommitted work a backend can be left waiting, with all others at rest or waiting, if and only if a statement can fail without clean-up, or a pivot can give back a row that two backends visit |
| `IntQuerySyntax.WorkState.GetToken` | postgresql-11.0/contrib/intarray/_int_bool.c:49-131 | the character loop returns the token, position, state and parenthesis count of the token function |
| `IntQuerySyntax.WorkState.PopTight` | postgresql-11.0/contrib/intarray/_int_bool.c:170-175 | pops the tight operators and emits them in stack order |
| `IntQuerySyntax.WorkState.MakePolish` | postgresql-11.0/contrib/intarray/_int_bool.c:154-224 | the recursive parser with its operator stack computes what MakePol says, with both error outcomes |
| `IntQueryGrammar.ParseIff` | postgresql-11.0/contrib/intarray/_int_bool.c:154-224 | a text is accepted with output `out` if and only if it is written in the grammar with ! over & over |, needs at most 16 pending operators, and `out` is its postfix form |
| `IntQueryGrammar.ParseAccepts` | postgresql-11.0/contrib/intarray/_int_bool.c:154-224 | every text of the grammar within the stack depth is accepted |
| `IntQueryExec.FindOprnd` | postgresql-11.0/contrib/intarray/_int_bool.c:441-471 | fills in every operand link of a postfix query, cut to 16 bits, and touches nothing else |
| `IntQueryExec.ItemsStored` | postgresql-11.0/contrib/intarray/_int_bool.c:441-471 | every query has a stored form, wherever it stands among other items |
| `IntQueryExec.LinksRightIff` | postgresql-11.0/contrib/intarray/_int_bool.c:441-471 | all links lead to their left operands if and only if no right operand has more than 32767 items |
| `IntQueryExec.SmallQueriesFit` | postgresql-11.0/contrib/intarray/_int_bool.c:441-471 | queries of at most 32767 items are never affected |
| `IntQueryExec.BqarrIn` | postgresql-11.0/contrib/intarray/_int_bool.c:478-543 | input gives a syntax error, a complexity error, a size error, or the stored form of an expression the text writes |
| `IntQueryExec.ExecuteMeans` | postgresql-11.0/contrib/intarray/_int_bool.c:267-295 | the evaluator over linked items computes the meaning of the query; without calcnot, the query with negations taken to hold |
| `IntQueryExec.RelaxCovers` | postgresql-11.0/contrib/intarray/_int_bool.c:267-295 | a match is never turned away by the relaxed evaluation over a larger set of values |
| `IntQueryExec.CheckConditionArr` | postgresql-11.0/contrib/intarray/_int_bool.c:236-255 | binary search: found if and only if the value is in the sorted array |
| `IntQueryExec.BoolOpMeans` | postgresql-11.0/contrib/intarray/_int_bool.c:420-438 | the operator answers whether the elements satisfy the query |
| `IntQueryExec.GinQueryExtract` | postgresql-11.0/contrib/intarray/_int_gin.c:43-56 | extracts the values of the VAL items in item order |
| `IntQueryExec.GinBoolConsistent` | postgresql-11.0/contrib/intarray/_int_bool.c:337-362 | answers per extracted value are mapped back to items, and the result is the meaning of the query |
| `IntQueryExec.RequiredValue` | postgresql-11.0/contrib/intarray/_int_bool.c:365-397 | a query with required values is satisfied only by arrays that hold one of its values |
| `IntQueryExec.GinMissesNothing` | postgresql-11.0/contrib/intarray/_int_gin.c:33-56 | no row that satisfies the query is missing from the candidates GIN looks up |
| `IntQueryExec.GinSearchIsExact` | postgresql-11.0/contrib/intarray/_int_gin.c:33-56 | a GIN search returns exactly the rows that satisfy the query, with required values or without |
| `IntQueryPrint.Infix.Append` | postgresql-11.0/contrib/intarray/_int_bool.c:557-562 | the buffer is doubled until the text and its terminator fit; fails exactly when that takes more than 2^29 bytes |
| `IntQueryPrint.Infix.Print` | postgresql-11.0/contrib/intarray/_int_bool.c:565-638 | prints exactly the text of the query from its postfix items and leaves the position before them, unless a buffer on the way is refused |
| `IntQueryPrint.BqarrOut` | postgresql-11.0/contrib/intarray/_int_bool.c:642-660 | output is the text of the stored query exactly when no buffer exceeds the allocation limit, else an error |
| `IntQueryPrint.OutputBound` | postgresql-11.0/contrib/intarray/_int_bool.c:557-660 | texts of at most 2^29 - 12 characters are always printed, and none of 2^29 - 1 or more |
| `IntQueryPrint.PrintedMeans` | postgresql-11.0/contrib/intarray/_int_bool.c:565-638 | the expression the text writes means the same as the query on every array, although & is regrouped |
| `IntQueryRoundTrip.NodesUnique` | postgresql-11.0/contrib/intarray/_int_bool.c:478-543 | different queries have different postfix forms |
| `IntQueryRoundTrip.RoundTrip` | postgresql-11.0/contrib/intarray/_int_bool.c:478-660 | whatever text output gives for a stored query, input stores a query for it again, with as many items, the same meaning on every array and the same text |
| `IntQueryRoundTrip.LinkCanBeWrong` | postgresql-11.0/contrib/intarray/_int_bool.c:441-543 | a text with 16384 alternatives under a negation for which input always stores a link at the root that leads past the end of the query |
| `IntRanges.SmallestGap` | postgresql-11.0/contrib/intarray/_int_gist.c:196-202 | the inner loop finds a smallest gap by the 32-bit difference, although its start value is INT_MAX |
| `IntRanges.Double` | postgresql-11.0/contrib/intarray/_int_gist.c:189-190 | doubles all elements in place |
| `IntRanges.CloseGap` | postgresql-11.0/contrib/intarray/_int_gist.c:203-204 | the move closes exactly the two bounds of the gap |
| `IntRanges.Compress` | postgresql-11.0/contrib/intarray/_int_gist.c:172-214 | short keys stay; a long key becomes the bounds of 100 ranges, no closed gap wider than an open one by 32-bit difference |
| `IntRangesOptimal.InternalSizeLoop` | postgresql-11.0/contrib/intarray/_int_tool.c:289-301 | adds up the ranges, counting touching bounds once |
| `IntRangesOptimal.SizeIsCost` | postgresql-11.0/contrib/intarray/_int_tool.c:289-301 | the size of a compressed key is one more than the cost of its closed gaps |
| `IntRangesOptimal.Exchange` | postgresql-11.0/contrib/intarray/_int_gist.c:194-205 | trading open gaps for narrower ones never pays |
| `IntRangesOptimal.GreedyIsBest` | postgresql-11.0/contrib/intarray/_int_gist.c:181-211 | without overflowing gaps no cover by as many intervals, whatever its shape, holds fewer integers |
| `IntRangesOptimal.WideGapLoses` | postgresql-11.0/contrib/intarray/_int_gist.c:196-202 | with an overflowing gap there is a strictly smaller cover by as many intervals |
| `IntRangesOptimal.CompressionIsBestIff` | postgresql-11.0/contrib/intarray/_int_gist.c:181-211 | the compressed key is a smallest cover by at most 100 intervals if and only if no neighbouring elements are more than INT_MAX apart |
| `IntRangesOptimal.CompressionCanLose` | postgresql-11.0/contrib/intarray/_int_gist.c:196-202 | a concrete key, the least integer and 200 others, whose compressed form is larger than need be |
| `IntGist.InnerContains` | postgresql-11.0/contrib/intarray/_int_tool.c:13-44 | the merge answers whether all elements of one array are in the other |
| `IntGist.InnerOverlap` | postgresql-11.0/contrib/intarray/_int_tool.c:48-74 | the merge answers whether two arrays have a common element |
| `IntGist.Unique` | postgresql-11.0/contrib/intarray/_int_tool.c:305-324 | removes duplicates in place, keeping the set of elements |
| `IntGist.Union` | postgresql-11.0/contrib/intarray/_int_gist.c:99-133 | the sorted union of all entries, each element once |
| `IntGist.Decompress` | postgresql-11.0/contrib/intarray/_int_gist.c:217-279 | lists exactly the integers of the ranges, and fills the array it sized beforehand exactly |
| `IntGist.CompressionCovers` | postgresql-11.0/contrib/intarray/_int_gist.c:139-214 | a compressed key holds every element of the key |
| `IntGist.CompressedIsValid` | postgresql-11.0/contrib/intarray/_int_gist.c:139-214 | a compressed key can be decompressed and compressed again |
| `IntGist.NodeKey` | postgresql-11.0/contrib/intarray/_int_gist.c:99-279 | decompressing, joining and compressing gives a valid key that holds what any part holds |
| `IntGist.Consistent` | postgresql-11.0/contrib/intarray/_int_gist.c:34-96 | the consistency function answers the test of its strategy on the set the key stands for, and asks for a recheck only for equality |
| `IntGist.KeyCovers` | postgresql-11.0/contrib/intarray/_int_gist.c:99-279 | however many lossy levels up, a key holds every element of every row below |
| `IntGist.LeafTest` | postgresql-11.0/contrib/intarray/_int_gist.c:34-96 | on a row's own key the test is the operator, except that equality is only covered |
| `IntGist.NodeTest` | postgresql-11.0/contrib/intarray/_int_gist.c:34-96 | no inner key turns a search away from a matching row |
| `IntGist.SearchIsExact` | postgresql-11.0/contrib/intarray/_int_gist.c:34-279 | in every index tree the search for every strategy returns exactly the matching rows, nonempty ones for contained-by |
| `IntGist.ContainedByIff` | postgresql-11.0/contrib/intarray/_int_gist.c:82-90 | contained-by finds a row in every index and for every query it matches exactly when the row is not empty |
| `IntGist.LongRowIff` | postgresql-11.0/contrib/intarray/_int_gist.c:150-165 | a stored row of 200 or more elements, an even number of them, is read back as ranges; the tests on it are right for every search but equality exactly when those ranges hold nothing but the elements |
| `IntBigGist.LeafKey` | postgresql-11.0/contrib/intarray/_intbig_gist.c:137-204 | the signature has exactly the bits of the row's elements |
| `IntBigGist.Compress` | postgresql-11.0/contrib/intarray/_intbig_gist.c:137-204 | a key with all bits set, and only such a key, becomes the flag |
| `IntBigGist.UnionKey` | postgresql-11.0/contrib/intarray/_intbig_gist.c:256-266 | ORs one key into the sum and reports a full one |
| `IntBigGist.NodeKey` | postgresql-11.0/contrib/intarray/_intbig_gist.c:269-298 | the key of a node has exactly the bits some part has |
| `IntBigGist.BigOverlap` | postgresql-11.0/contrib/intarray/_intbig_gist.c:69-84 | whether some element of the query may be in the key |
| `IntBigGist.BigContains` | postgresql-11.0/contrib/intarray/_intbig_gist.c:87-102 | whether all elements of the query may be in the key |
| `IntBigGist.Consistent` | postgresql-11.0/contrib/intarray/_intbig_gist.c:492-601 | the consistency function answers the test of its strategy and always asks for a recheck |
| `IntBigGist.TestCovers` | postgresql-11.0/contrib/intarray/_intbig_gist.c:492-601 | no signature on any level turns away a search from a matching row |
| `IntBigGist.SearchIsExact` | postgresql-11.0/contrib/intarray/_intbig_gist.c:137-601 | after the recheck the search returns exactly the matching rows, nonempty ones for contained-by |
| `IntBigGist.ContainedByIff` | postgresql-11.0/contrib/intarray/_intbig_gist.c:492-601 | contained-by finds a row in every index and for every query it matches exactly when the row is not empty |
| `Lexicographic.CommonLength` | postgresql-11.0/contrib/btree_gist/btree_utils_var.c:122-163 | the length of the longest common prefix |
| `Lexicographic.Compare` | postgresql-11.0/contrib/hstore/hstore_op.c:1117-1124 | the byte comparison decides the lexicographic order with shorter first |
| `Lexicographic.LeTransitive` | postgresql-11.0/contrib/hstore/hstore_op.c:1088-1164 | the lexicographic order is transitive |
| `Lexicographic.Between` | postgresql-11.0/contrib/btree_gist/btree_utils_var.c:192-198 | what lies between two strings has their common prefixes |
| `BtreeGistVar.BinUnion` | postgresql-11.0/contrib/btree_gist/btree_utils_var.c:235-279 | the smallest key around both |
| `BtreeGistVar.Union` | postgresql-11.0/contrib/btree_gist/btree_utils_var.c:324-359 | the fold of the entries, cut to two bytes past the common prefix |
| `BtreeGistVar.UnionUnder` | postgresql-11.0/contrib/btree_gist/btree_utils_var.c:206-359 | a truncated union stays true of every row any entry may stand for |
| `BtreeGistVar.Consistent` | postgresql-11.0/contrib/btree_gist/btree_utils_var.c:556-614 | the six strategies with the prefix match on inner pages |
| `BtreeGistVar.EqualityDecides` | postgresql-11.0/contrib/btree_gist/btree_utils_var.c:556-614 | a key that equality on a row gets past is one that every search the row matches gets past |
| `BtreeGistVar.RowsStayUnder` | postgresql-11.0/contrib/btree_gist/btree_utils_var.c:206-359 | however many truncations lie in between, a key stays true of every row below it |
| `BtreeGistVar.SearchIsExact` | postgresql-11.0/contrib/btree_gist/btree_utils_var.c:206-614 | in every tree of unions all six searches return exactly the matching rows |
| `BtreeGistSplit.SplitKeepsAllIff` | postgresql-11.0/contrib/btree_gist/btree_utils_var.c:531-546 | a half of a page split keeps every row its entries, be they rows, unions or halves of earlier splits, may stand for if and only if its key, cut to the shared length, has outgrown none of them |
| `BtreeGistSplit.OwnLengthNeverOutgrows` | postgresql-11.0/contrib/btree_gist/btree_utils_var.c:347-356 | cut to its own length, as a union cuts it, no key outgrows an entry |
| `BtreeGistSplit.UnderIsReal` | postgresql-11.0/contrib/btree_gist/btree_utils_var.c:206-359 | every row a key of a union may stand for is below that key in some index, so the loss is not only on paper |
| `BtreeGistSplit.SplitCanLose` | postgresql-11.0/contrib/btree_gist/btree_utils_var.c:506-546 | four sorted entries, split in the middle, after which a row may no longer be found |
| `BtreeGistSplit.SplitSearchIff` | postgresql-11.0/contrib/btree_gist/btree_utils_var.c:206-614 | in every tree built by unions and splits a search returns only matching rows, and every search a row matches returns it if and only if the row has a place where it lies beyond none of the keys above it |
| `BtreeGistSplit.UnionsInBounds` | postgresql-11.0/contrib/btree_gist/btree_utils_var.c:206-359 | in a tree of unions every row has such a place |
| `BtreeGistSplit.SearchCanMiss` | postgresql-11.0/contrib/btree_gist/btree_utils_var.c:506-546 | a tree of two unions and a split that holds a row which a search for it does not find |
| `Hstore.ReadBack` | postgresql-11.0/contrib/hstore/hstore.h:11-83 | the packed form gives back count, keys, values and nulls, with key and value side by side |
| `Hstore.LayoutInjective` | postgresql-11.0/contrib/hstore/hstore.h:11-83 | equal packed forms come from equal lists of pairs |
| `Hstore.SortedUnique` | postgresql-11.0/contrib/hstore/hstore_io.c:282-352 | a map has one sorted list of pairs, hence one packed form |
| `Hstore.KeyCompare` | postgresql-11.0/contrib/hstore/hstore_io.c:282-303 | keys are ordered by length and then by bytes, and compare equal only if they are equal |
| `Hstore.GetKey` | postgresql-11.0/contrib/hstore/hstore.h:79-81 | reads a key from a packed value |
| `Hstore.GetVal` | postgresql-11.0/contrib/hstore/hstore.h:80-83 | reads a value or null from a packed value |
| `HstorePairs.UniquePairs` | postgresql-11.0/contrib/hstore/hstore_io.c:312-352 | closes up over duplicate keys in place, keeping the first, and adds up the bytes of what stays |
| `HstorePairs.DedupMeans` | postgresql-11.0/contrib/hstore/hstore_io.c:312-352 | the result is strictly sorted and has only pairs of the input |
| `HstorePairs.DedupKeys` | postgresql-11.0/contrib/hstore/hstore_io.c:312-352 | no key is lost or invented |
| `HstorePairs.DedupSorted` | postgresql-11.0/contrib/hstore/hstore_io.c:312-352 | a list without duplicates stays as it is |
| `HstorePairs.CopyItem` | postgresql-11.0/contrib/hstore/hstore.h:92-106 | appends a pair whose key and value are copied in one piece |
| `HstorePairs.AddItem` | postgresql-11.0/contrib/hstore/hstore.h:108-126 | appends a pair from two pieces |
| `HstorePairs.Finalize` | postgresql-11.0/contrib/hstore/hstore.h:128-140 | what has been appended becomes the packed form of exactly those pairs |
| `HstorePairs.HstoreOfPairs` | postgresql-11.0/contrib/hstore/hstore_io.c:376-402 | packs a list of pairs into a value of exactly the computed size, or fails beyond the allocation limit |
| `HstoreOps.FindKey` | postgresql-11.0/contrib/hstore/hstore_op.c:37-71 | binary search from a carried-over bound: finds the key or proves it absent, and the new bound is good for every later key |
| `HstoreOps.CollectKeys` | postgresql-11.0/contrib/hstore/hstore_op.c:74-126 | the first loop collects the elements that are not null, in order |
| `HstoreOps.ArrayKeys` | postgresql-11.0/contrib/hstore/hstore_op.c:74-126 | the keys of an array with its nulls left out, each once, in key order, whatever the library sort does with duplicates; an error exactly for more elements than pairs can be allocated |
| `HstoreOps.Delete` | postgresql-11.0/contrib/hstore/hstore_op.c:248-290 | the packed form of all pairs but those of one key |
| `HstoreOps.DeleteArray` | postgresql-11.0/contrib/hstore/hstore_op.c:295-369 | the packed form of the pairs whose key is not listed, or the error on too many keys |
| `HstoreOps.DeleteHstore` | postgresql-11.0/contrib/hstore/hstore_op.c:374-469 | the packed form of the pairs not in the other value with the same value or null |
| `HstoreOps.Concat` | postgresql-11.0/contrib/hstore/hstore_op.c:474-567 | the packed form of the map override; fails only beyond the allocation limit |
| `HstoreOps.SliceToHstore` | postgresql-11.0/contrib/hstore/hstore_op.c:635-692 | the packed form of the pairs whose key is listed, or the error on too many keys |
| `HstoreOps.Contains` | postgresql-11.0/contrib/hstore/hstore_op.c:968-1011 | whether every pair of the template is in the value |
| `HstoreOps.ConcatAssociative` | postgresql-11.0/contrib/hstore/hstore_op.c:474-567 | concatenation is associative down to the bytes |
| `HstoreOps.DeleteUndoesConcatIff` | postgresql-11.0/contrib/hstore/hstore_op.c:295-567 | deleting the keys of b undoes concatenation with b if and only if the two share no key |
| `HstoreCmp.HstoreCmp` | postgresql-11.0/contrib/hstore/hstore_op.c:1088-1164 | the comparison decides a total order on values and is 0 exactly for equal maps |
| `HstoreCmp.HLeTotal` | postgresql-11.0/contrib/hstore/hstore_op.c:1088-1164 | any two values are comparable |
| `HstoreCmp.HLeTransitive` | postgresql-11.0/contrib/hstore/hstore_op.c:1088-1164 | the order is transitive |
| `HstoreCmp.HLeAntisymmetric` | postgresql-11.0/contrib/hstore/hstore_op.c:1088-1164 | values that compare equal hold the same map |
| `HstoreParser.HSParser.Push` | postgresql-11.0/contrib/hstore/hstore_io.c:42-51 | the word and its terminator fit the doubled buffer; fails exactly on a word of 2^29 - 1 bytes, whose buffer is refused |
| `HstoreParser.HSParser.Reserve` | postgresql-11.0/contrib/hstore/hstore_io.c:199-203 | makes room for one more pair; fails exactly when the array is full at 2^24 pairs |
| `HstoreParser.HSParser.GetVal` | postgresql-11.0/contrib/hstore/hstore_io.c:61-173 | the scanner returns the word, the escape flag and the position, or the error, of the scan function, buffer limit included |
| `HstoreParser.HSParser.ParseHstore` | postgresql-11.0/contrib/hstore/hstore_io.c:183-279 | the parser loop returns the pairs or the error of the parse function, the limit on pairs included |
| `HstoreParser.NeverTooLong` | postgresql-11.0/contrib/hstore/hstore_io.c:183-279 | no text gets as far as the errors on the length of keys and values, as the word's buffer is refused before |
| `HstoreIO.Cpw` | postgresql-11.0/contrib/hstore/hstore_io.c:1140-1151 | copies a string, escaping quotes and backslashes, and stays inside the buffer |
| `HstoreIO.PrintFits` | postgresql-11.0/contrib/hstore/hstore_io.c:1169-1189 | all that is printed, and the terminator, fits the reckoned buffer |
| `HstoreIO.BufLenIsInt` | postgresql-11.0/contrib/hstore/hstore_io.c:1169-1189 | the reckoned size of any value stays in the range of int |
| `HstoreIO.HstoreOut` | postgresql-11.0/contrib/hstore/hstore_io.c:1155-1221 | output is the text of the map exactly when the reckoned buffer is within the allocation limit, else an error |
| `HstoreIO.HstoreIn` | postgresql-11.0/contrib/hstore/hstore_io.c:407-422 | input gives a syntax, end or memory error of the parser, a size error or a value, whatever the library sort does with duplicates |
| `HstoreIO.InputIsCanonical` | postgresql-11.0/contrib/hstore/hstore_io.c:407-422 | an accepted text becomes a canonical value with exactly the keys of the text |
| `HstoreRoundTrip.PrintParses` | postgresql-11.0/contrib/hstore/hstore_io.c:61-279 | the text of every map of at most 2^24 pairs without NUL bytes parses to exactly its pairs |
| `HstoreRoundTrip.NulFails` | postgresql-11.0/contrib/hstore/hstore_io.c:61-279 | a NUL byte behind at most 2^24 whole keys cuts the text inside quotes, and parsing ends unexpectedly |
| `HstoreRoundTrip.TooManyFails` | postgresql-11.0/contrib/hstore/hstore_io.c:183-206 | with more than 2^24 whole keys before the first NUL byte, if there is one, parsing runs out of memory |
| `HstoreRoundTrip.RoundTripIff` | postgresql-11.0/contrib/hstore/hstore_io.c:407-1221 | output followed by input gives the identical value if and only if the reckoned buffer is within the allocation limit, the map has no NUL byte and at most 2^24 pairs; and what comes out in every other case |
| `HstoreLimits.OnePairTooMany` | postgresql-11.0/contrib/hstore/hstore_io.c:183-206 | 2^24 + 1 pairs with keys of four bytes: output gives a text, and input always runs out of memory on it |
| `HstoreLimits.QuotedWordIff` | postgresql-11.0/contrib/hstore/hstore_io.c:42-173 | a quoted word is read if and only if it has at most 2^29 - 1 bytes |
| `HstoreCompat.ValidOldFormat` | postgresql-11.0/contrib/hstore/hstore_compat.c:171-229 | accepts exactly the well-formed old values, and reports exactly which of them have no slop |
| `HstoreCompat.ValidHasPairs` | postgresql-11.0/contrib/hstore/hstore_compat.c:171-229 | every valid old value holds pairs, one for each slot |
| `HstoreCompat.Upgrade` | postgresql-11.0/contrib/hstore/hstore_compat.c:321-356 | the in-place conversion rewrites every pair of words without reading one it has overwritten |
| `HstoreCompat.UpgradeKeepsPairs` | postgresql-11.0/contrib/hstore/hstore_compat.c:321-356 | the converted value is the packed form of exactly the pairs the old one held |
| `HstoreCompat.FastPathMistakesIff` | postgresql-11.0/contrib/hstore/hstore_compat.c:243-247 | a valid old value under 32 kB is taken for a new one exactly when its first value is null with a stored length of 32768 or more |
| `HstoreCompat.FastPathCanMistake` | postgresql-11.0/contrib/hstore/hstore_compat.c:243-247 | the smallest old value that is taken for a new one |
| `BloomRand.SplitRange` | postgresql-11.0/contrib/bloom/blutils.c:214-238 | no product or difference of the generator leaves int32, and the split form is congruent to the product |
| `BloomRand.SplitIsNext` | postgresql-11.0/contrib/bloom/blutils.c:214-238 | the split computation is multiplication by 16807 modulo 2^31 - 1 |
| `BloomRand.Generator.MyRand` | postgresql-11.0/contrib/bloom/blutils.c:214-238 | one step of the generator, in range; from state 0 it stays there and draws -1 |
| `BloomRand.Generator.MySrand` | postgresql-11.0/contrib/bloom/blutils.c:241-246 | the state after seeding, with the int32 conversion of the seed |
| `BloomRand.SeedIff` | postgresql-11.0/contrib/bloom/blutils.c:241-246 | exactly two seeds leave the generator at 0 |
| `BloomRand.DrawsInRangeIff` | postgresql-11.0/contrib/bloom/blutils.c:214-246 | every number drawn lies in [0, 0x7ffffffd] if and only if the seed is not one of the two |
| `BloomSign.GoodHashIff` | postgresql-11.0/contrib/bloom/blutils.c:252-279 | in every column exactly two hash values leave the generator at 0 |
| `BloomSign.SignValue` | postgresql-11.0/contrib/bloom/blutils.c:252-279 | sets exactly the bits of the value, whatever the generator did before |
| `BloomSign.FormTuple` | postgresql-11.0/contrib/bloom/blutils.c:285-303 | the signature of a row has exactly the bits of its values that are not null |
| `BloomSign.ScanSign` | postgresql-11.0/contrib/bloom/blscan.c:91-117 | no signature exactly when a key is null, else exactly the bits of the keys |
| `BloomSign.Covers` | postgresql-11.0/contrib/bloom/blscan.c:143-156 | word by word, whether the row's signature covers the scan's |
| `BloomSign.NoFalseNegatives` | postgresql-11.0/contrib/bloom/blscan.c:91-156 | a row that satisfies all keys has all bits of the scan |
| `BloomPages.Buffer.AddItem` | postgresql-11.0/contrib/bloom/blutils.c:310-337 | appends unless the page is full, and never writes past the page |
| `BloomPages.Buffer.Compact` | postgresql-11.0/contrib/bloom/blvacuum.c:81-137 | the page keeps exactly its live tuples in order, and is marked deleted when none is left |
| `BloomPages.KeepMembers` | postgresql-11.0/contrib/bloom/blvacuum.c:81-137 | compaction keeps a tuple if and only if it is on the page and not dead |
| `BloomPages.Build` | postgresql-11.0/contrib/bloom/blinsert.c:47-159 | the pages of a build hold all rows in order, each page within its size |
| `BloomIndexSafety.StepKeepsInv` | postgresql-11.0/contrib/bloom/blinsert.c:198-366 | every locked stretch of insertion, vacuum, cleanup and scan keeps the invariant of pages, metapage list and free space map |
| `BloomIndexSafety.RunKeepsInv` | postgresql-11.0/contrib/bloom/blinsert.c:198-366 | the invariant holds in every interleaving of any number of insertions with a vacuum and a scan |
| `BloomIndexSafety.Conservation` | postgresql-11.0/contrib/bloom/blinsert.c:122-366 | in every state reachable from a built index an entry is in the index exactly when it was built or inserted and not vacuumed, and on one page only |
| `BloomIndexSafety.BulkDeleteComplete` | postgresql-11.0/contrib/bloom/blvacuum.c:34-161 | a finished bulk delete leaves no entry of its dead set, whatever ran beside it, unless one was inserted meanwhile |
| `BloomIndexSafety.ScanComplete` | postgresql-11.0/contrib/bloom/blscan.c:126-169 | a finished scan has found every matching entry that was there at its start and not vacuumed, and nothing else but matches |
| `BloomSearch.ScanFindsRows` | postgresql-11.0/contrib/bloom/blscan.c:82-173 | a finished scan by keys has found every row that satisfies all of them and was there at its start, whatever ran beside it, unless it was vacuumed |
| `Cube.ContainsLoop` | postgresql-11.0/contrib/cube/cube.c:1077-1112 | containment with missing dimensions taken as zero |
| `Cube.OverlapLoop` | postgresql-11.0/contrib/cube/cube.c:1147-1182 | overlap with missing dimensions taken as zero |
| `Cube.Union` | postgresql-11.0/contrib/cube/cube.c:693-754 | the union takes the smallest lower and largest upper bounds, in either order of corners and with unequal dimensions |
| `Cube.UnionBounds` | postgresql-11.0/contrib/cube/cube.c:693-754 | a union bounds both its parts |
| `Cube.IsPoint` | postgresql-11.0/contrib/cube/cube.c:1483-1503 | whether both corners agree in every dimension |
| `Cube.JoinAll` | postgresql-11.0/contrib/cube/cube.c:370-394 | a key joined from any number of entries is valid and joins them all |
| `Cube.KeyBounds` | postgresql-11.0/contrib/cube/cube.c:370-394 | a key bounds every item below it on every level |
| `Cube.NodeTest` | postgresql-11.0/contrib/cube/cube.c:653-677 | no inner key turns a search away from a matching item, for contained-by if the query reaches zero |
| `Cube.SearchIsExact` | postgresql-11.0/contrib/cube/cube.c:336-394 | in every tree the search returns exactly the matching items, for contained-by those for which the query reaches zero |
| `Cube.ContainedByIff` | postgresql-11.0/contrib/cube/cube.c:653-677 | contained-by finds a matching item in every index it is in exactly when the query reaches zero in the dimensions only the query has |
| `CubeDistance.Taxicab` | postgresql-11.0/contrib/cube/cube.c:1255-1296 | the sum of the gaps of all dimensions, although the boxes are swapped by dimension |
| `CubeDistance.SquaredDistance` | postgresql-11.0/contrib/cube/cube.c:1206-1252 | the sum of the squares of the gaps |
| `CubeDistance.Chebyshev` | postgresql-11.0/contrib/cube/cube.c:1299-1348 | the largest gap |
| `CubeDistance.NodeDistances` | postgresql-11.0/contrib/cube/cube.c:1351-1453 | for all four distances a node is never farther from the query than an item below it, so nearest-first search is in order |
| `CubeOrder.CmpLoop` | postgresql-11.0/contrib/cube/cube.c:890-967 | the comparison loops compute Cmp |
| `CubeOrder.CmpReverses` | postgresql-11.0/contrib/cube/cube.c:890-967 | swapping the boxes turns the answer round, and only equal boxes compare equal |
| `CubeOrder.Cycle` | postgresql-11.0/contrib/cube/cube.c:890-967 | for any two different numbers of dimensions above 0 three boxes form a cycle |
| `CubeOrder.CmpOrdersIff` | postgresql-11.0/contrib/cube/cube.c:890-967 | the comparison is transitive on boxes with a given set of dimension counts if and only if at most one of the counts is not 0 |
| `BtreeCheck.ChildCheck` | postgresql-11.0/contrib/amcheck/verify_nbtree.c:1307-1426 | accepts a downlink exactly when the child can be read, is not deleted, and has no item before the downlink's key |
| `BtreeCheck.RightCheck` | postgresql-11.0/contrib/amcheck/verify_nbtree.c:1102-1295 | wherever the search over ignorable pages ends, accepts the last item exactly when the page found has no real item or one that is not before it |
| `BtreeCheck.TargetCheck` | postgresql-11.0/contrib/amcheck/verify_nbtree.c:789-1083 | unless it gets to a search that never ends, accepts a page exactly when all its items pass |
| `BtreeCheckWalk.PageCheck` | postgresql-11.0/contrib/amcheck/verify_nbtree.c:597-733 | one round of the loop over a level passes a page exactly when it is half-dead and linked on, or level, links and items are right |
| `BtreeCheckWalk.LevelCheck` | postgresql-11.0/contrib/amcheck/verify_nbtree.c:571-754 | on every page graph, unless it is endless, the walk ends and accepts exactly the levels it passes through to the right end |
| `BtreeCheckLevels.CheckEveryLevel` | postgresql-11.0/contrib/amcheck/verify_nbtree.c:443-473 | on every page graph, unless the check of a level it gets to is endless, it ends and accepts exactly the indexes all of whose levels are accepted from the root downwards |
| `BtreeCheckLevels.NotTwice` | postgresql-11.0/contrib/amcheck/verify_nbtree.c:702-733 | where left links agree with right links no block is met twice |
| `BtreeCheckLevels.CompleteIff` | postgresql-11.0/contrib/amcheck/verify_nbtree.c:443-754 | on graphs of live pages, however corrupt, the check ends and accepts exactly the indexes with levels linked both ways and in order, all the way down |
| `BtreeCheckResults.PagesSorted` | postgresql-11.0/contrib/amcheck/verify_nbtree.c:789-1083 | on an accepted level items of pages with nothing but nonempty pages between them are in order |
| `BtreeCheckResults.OrderShownIff` | postgresql-11.0/contrib/amcheck/verify_nbtree.c:1102-1295 | the leaf level of every accepted index, root and all, with these leaf item counts is sorted from end to end if and only if no empty leaf stands between two nonempty ones |
| `BtreeCheckResults.LeavesReachedIff` | postgresql-11.0/contrib/amcheck/verify_nbtree.c:443-473 | the check of an accepted index has gone down to the leaf level exactly when no first downlink on the leftmost way down is block 0 |
| `BtreeCheckResults.StopsEarly` | postgresql-11.0/contrib/amcheck/verify_nbtree.c:443-473 | for every height there is an accepted index whose check stops at the root because its first downlink is block 0 |
| `BtreeCheckWalk.SearchesOnIff` | postgresql-11.0/contrib/amcheck/verify_nbtree.c:1142-1162 | the search for a right page with items never ends if and only if it meets an ignorable page twice |
| `BtreeCheckWalk.EndlessIff` | postgresql-11.0/contrib/amcheck/verify_nbtree.c:594-748 | the check of a level, with the real checks of its pages, never ends if and only if within as many steps as there are blocks the walk meets a half-dead page twice or a search it gets to meets an ignorable page twice |
| `BtreeCheckWalk.LiveEnds` | postgresql-11.0/contrib/amcheck/verify_nbtree.c:594-748 | where every page is live the check always ends |
| `BtreeCheckWalk.WalkCanBeEndless` | postgresql-11.0/contrib/amcheck/verify_nbtree.c:594-748 | three pages on which the walk never ends |
| `BtreeCheckWalk.SearchCanBeEndless` | postgresql-11.0/contrib/amcheck/verify_nbtree.c:1142-1162 | two pages on which the search inside the check of the first page never ends |

## Left out

- MigrationSafety.SafeRuns: scans that return no heap tuple, for which the code reports success without claiming, are not part of the state machine.
- Migration: only half of the partition locks are initialised at start-up; the model treats all of them as working locks.
- Migration: `uint64` words are sets of bit numbers, and a load or store of a word is taken as atomic.
- IntQueryRoundTrip.RoundTrip: stands for queries with int32 values, which are the only ones that can be stored.
- intarray: the check of the stack depth in the recursive functions, whose limit is a setting.
- IntRangesOptimal.InternalSizeLoop: adds in unbounded integers; the int of the code overflows for keys that cover more than INT_MAX integers.
- IntGist.SearchIsExact: rows have fewer than 200 distinct elements; longer ones draw a notice in the code, and LongRowIff says what they cost.
- IntGist.LongRowIff: for an odd number of elements the code reads one integer past the array; only even numbers are modelled.
- IntGist.Decompress: the loop variable of the code overflows when a range ends at INT_MAX, and the array it sizes may exceed the allocation limit; the model counts in unbounded integers and always allocates.
- intarray: penalty and picksplit heuristics, the sort itself, set operators on arrays and the selectivity estimators.
- IntBigGist.NodeKey: signatures are sequences of bits, not bytes of a varlena.
- IntBigGist.SearchIsExact: excludes empty rows for contained-by, where the code turns the search away; ContainedByIff says that this is the exact condition.
- Lexicographic.CommonLength: counts single bytes; the branch for multibyte encodings, which counts characters, is not modelled.
- BtreeGistVar.SearchIsExact: stated for trees of unions; BtreeGistSplit.SplitSearchIff covers trees with splits.
- BtreeGistVar: keys are bytes compared as bytea; multibyte encodings, collations and the fixed-size types are not modelled.
- HstoreIO.HstoreIn: the library sort may leave equal keys in any order; the model allows every outcome.
- HstoreParser.HSParser.GetVal: white space is that of the C locale.
- HstoreParser.HSParser.Reserve: a pair takes 40 bytes, as it does where pointers have eight.
- HstoreCompat.Upgrade: the choice between the formats when a value is valid in both, and the warnings, are not modelled.
- hstore: binary input, records, JSON and the GIN and GiST opclasses.
- BloomSign.SignValue: for the two hash values per column that stop the generator every draw is -1, and the code shifts by a negative amount, which C leaves undefined; the model excludes them, and GoodHashIff says which they are.
- BloomSign.FormTuple: excludes rows with one of those hash values, for the same reason.
- BloomSign.ScanSign: excludes keys with one of those hash values, for the same reason.
- BloomSign.NoFalseNegatives: excludes rows with one of those hash values, for the same reason.
- BloomSearch.ScanFindsRows: excludes rows with one of those hash values, for the same reason.
- BloomIndexSafety.Conservation: one vacuum at a time, as the lock on the table makes sure, and one scan; WAL, page checksums and cost estimation are not modelled.
- CubeDistance.SquaredDistance: the square root is not taken.
- cube: in all of it coordinates are reals without rounding, NaN or infinity.
- cube: the text parser, subset, enlarge and intersection functions, penalty and picksplit.
- BtreeCheckResults.OrderShownIff: stated for indexes of live pages.
- BtreeCheck: keys are ranks of a total order; page headers, the metapage flag of other blocks, tuple sizes, attribute counts, page item limits, the missing-downlink check, the heap check by Bloom filter and the concurrent mode are not modelled.
- The rest of PostgreSQL: planner, executor, storage, replication, the other contrib modules and the client programs.
