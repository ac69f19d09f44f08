# Verified models of PostgreSQL contrib modules

This project models the parts of five contrib modules whose correctness depends on
several functions working together, and proves what those parts promise.

- **hstore** (`HStore*.dfy`): the byte layout of an hstore value and the macros that
  fill it; the text parser and printer; sorting and removing duplicate pairs; lookup,
  deletion, concatenation, slicing and comparison; the upgrade of old-format values;
  the GiST signature index.
- **bloom** (`Bloom*.dfy`): the signature generator, data pages, and the index as a
  state machine in which any number of builds, inserts, bulk deletes, cleanups and
  scans interleave page by page.
- **btree_gist** (`BtreeGist*.dfy`): variable-length keys with prefix truncation.
- **cube** (`Cube*.dfy`): boxes of mixed dimension, over the reals, and their GiST
  index with nearest-neighbour ordering.
- **amcheck** (`Nbtree*.dfy`, `Heap*.dfy`): the parent/child walk over a B-tree, the
  chunks of toasted values, and the widening of transaction ids.

`Bytes.dfy` holds byte strings and their two orders, `Sorting.dfy` what the code
expects of `qsort`. Code that updates things in place is modelled with classes and
arrays (`Builder`, `HSParser`, `Generator`, `DataPage`, `BtreeCheckState`,
`HeapCheckContext`, the `array` parameters); each method is proved against a function
or predicate on values, and the theorems are about those. Code that only computes a
value is modelled by functions. An `elog(ERROR)`, `ereport(ERROR)` or failed
allocation is an `Error`, a `Corrupt`, or a false result.

## Results

- Printing an hstore and parsing the text gives back the identical value, exactly
  when no key or value contains a NUL byte, the size estimate of the printer can be
  allocated, and there are at most 2^24 pairs (`HStoreText.OutThenIn`). The estimate
  always covers the text and its terminator (`HStorePrint.PrintFits`). The texts the
  parser accepts are exactly those of a grammar stated apart from it, and each is read
  as the pairs it stands for (`HStoreGrammar.AcceptsExactly`).
- Concatenation, the three deletions and the slice are the map operations they are
  documented to be, and every result is again in the one canonical form
  (`HStoreMerge`). Two canonical values are byte for byte equal when they stand for
  the same dictionary, and the comparison operator is a total order that says so
  (`HStoreLayout.AbsDetermines`, `HStoreCmp.OrderZero`).
- Over every interleaving of bloom index processes, the tuples on live pages are the
  tuples placed minus those removed by vacuum; every process places each of its
  tuples once; a scan returns every matching tuple that stays on its page while the
  scan lasts, and nothing it did not see on a page; a vacuum leaves none of the tuples
  it was to remove; no process gets stuck except behind the metapage lock
  (`BloomTheorems`). The list of not-full pages
  holds what vacuum found, inserts skip and extend only past full pages, and cleanup
  records the unused blocks (`BloomSpace`).
- The bloom generator never overflows and yields bit numbers in range, for every
  seed except 0x80000001 and 0xFFFFFFFF (`BloomSign.ColumnBitsInRange`).
- Search reaches every matching leaf through keys made by compression, union and page
  split (`SearchComplete` in `HStoreGist`, `BtreeGistTree`, `CubeGist`; `SplitBuilds`
  and `UnionBuilds` say that the split and union code makes such keys). For btree_gist
  this covers unions on all levels and splits of leaf pages; splits of inner pages are
  below. What an inner key lets through is exact as well (`HStoreGist.ConsistentExact`,
  `BtreeGistVar.InnerExact`, `CubePoints.AdmitsExact`). Inner nearest-neighbour values
  of cubes are lower bounds (`CubeKnn.TreeBound`).
- When the passes of amcheck over two consecutive levels have returned and no downlink
  is zero, the child blocks visited from the upper level are those of the lower pass:
  one walk through the downlinks in order, every block without a downlink excused
  (`NbtreeLevels.LowerLevel`). High keys match the parent's separators in lockstep
  (`NbtreeLockstep.HighKeysInLockstep`). The conditions for a call, for the check of a
  page and for the pass over a level to return are exact (`NbtreeCheck`).
- The toast check is silent exactly on intact values, and an xid is recovered
  exactly when it is within half the id space of the next one (`HeapToast`,
  `HeapXid`).

Where the code does not do what one would expect of it, the model keeps the code and
the project states how far the property holds:

- The parser's array of pairs grows by doubling and cannot grow past 2^24 pairs, so a
  larger value can be printed but not read back: `HStoreText.PrintableOfAnyCount`,
  `HStoreText.OutThenIn`. For the same reason a word of 2^29 bytes or more is an error,
  long before the limit on key and value lengths.
- `gbt_var_picksplit` truncates both halves of a page at one length. On inner pages
  a search can then miss a leaf: `BtreeGistSplit.InnerSplitLosesLeaf` is an example
  and `BtreeGistSplit.SplitExact` the exact condition, for all six strategies.
- A cube index can miss a match of the contained-by operator when the query has more
  dimensions than the stored box: `CubeGist.ContainedByMisses`,
  `CubeGist.ContainedByExact`.
- `hstoreUpgrade` takes some old-format values for new ones and turns a null into a
  string: `HStoreCompat.UpgradeLosesNull`, `HStoreCompat.UpgradeExact`. An unflagged
  new-format value is misread exactly when the old-format test accepts it and the
  shortcut does not: `HStoreCompat.UpgradeNewExact`, with `HStoreCompat.UpgradeReadsSlop`
  as an example.
- `cube_cmp`, the btree comparison of cubes, has cycles: `CubeOrder.CycleThroughHighs`,
  `CubeOrder.CycleThroughZero`. `CubeOrder.CmpTransitiveExactly` says between which
  dimensions it is an order.
- A column value of bloom can hash to a seed for which every bit number is -1:
  `BloomSign.BadColumnBits`, `BloomSign.ColumnBitsInRange`.
- A right link holding the invalid block number restarts the child walk of amcheck, and
  a zero downlink skips it; the pass over the upper level returns in both cases:
  `NbtreeLevels.BrokenLinkPasses`, `NbtreeLevels.ZeroDownlinkPasses`.
  `NbtreeLockstep.LevelIsOneWalk` is the exact condition. The next level's pass
  excludes the first case (`NbtreeLevels.NextLevelIsVisited`).

## Model

| member | source | states |
|---|---|---|
| HStoreLayout.EncodeDecodes | polardb/contrib/hstore/hstore.h:18-83 | Laying out any list of pairs leaves no stray flag or byte, and the accessor macros read the same list back |
| HStoreLayout.EncodeCanonical | polardb/contrib/hstore/hstore.h:59-83 | A key-sorted list that fits is laid out as a canonical value |
| HStoreLayout.DecodeEncode | polardb/contrib/hstore/hstore.h:18-83 | Every canonical value is the layout of the list it reads as: layout and reading are inverse |
| HStoreLayout.ToMapInjective | polardb/contrib/hstore/hstore.h:66-83 | A key-sorted list is determined by the dictionary it stands for |
| HStoreLayout.AbsDetermines | polardb/contrib/hstore/hstore.h:66-83 | Two canonical values are equal exactly when they stand for the same dictionary |
| HStoreRaw.UnpackPack | polardb/contrib/hstore/hstore.h:18-36 | An entry survives packing into 32 bits, for positions below 2^30 |
| HStoreRaw.LoadAfterStore | polardb/contrib/hstore/hstore.h:18-36 | An entry stored as four little-endian bytes is read back |
| HStoreRaw.MemCopy | polardb/contrib/hstore/hstore.h:99-140 | memcpy replaces the addressed bytes and no others |
| HStoreBuilder.Builder.constructor | polardb/contrib/hstore/hstore_op.c:255-270 | A fresh output buffer holds no pairs |
| HStoreBuilder.Builder.CopyItem | polardb/contrib/hstore/hstore.h:99-110 | HS_COPYITEM appends one pair taken from adjacent key and value bytes and keeps all earlier ones |
| HStoreBuilder.Builder.AddItem | polardb/contrib/hstore/hstore.h:112-127 | HS_ADDITEM appends one pair and keeps all earlier ones |
| HStoreBuilder.Builder.Finalize | polardb/contrib/hstore/hstore.h:129-140 | HS_FINALIZE, moving the strings down over unused entries, leaves the exact layout of the pairs added |
| HStorePairs.CompareMeaning | polardb/contrib/hstore/hstore_io.c:289-311 | comparePairs orders by length, bytes, then pairs that need no freeing first, and is total |
| HStorePairs.CompareTransitive | polardb/contrib/hstore/hstore_io.c:289-311 | comparePairs is transitive |
| HStorePairs.QSort | polardb/contrib/hstore/hstore_io.c:336 | The sorted prefix is an ordered permutation and the rest of the array is untouched |
| HStorePairs.CompactUnique | polardb/contrib/hstore/hstore_io.c:338-362 | Keeping the first pair of every run keeps every key once, in strict order, preferring pairs that need no freeing |
| HStorePairs.CompactInPlace | polardb/contrib/hstore/hstore_io.c:337-364 | The in-place loop leaves the first pair of every run and counts their string bytes |
| HStorePairs.UniquePairsInPlace | polardb/contrib/hstore/hstore_io.c:319-365 | hstoreUniquePairs leaves strictly increasing keys, the same key set, only input pairs, no pair that needs freeing where another exists, and the exact string length |
| HStorePairs.BufLenChars | polardb/contrib/hstore/hstore_io.c:319-365 | The length hstoreUniquePairs reports is the number of string bytes written for the pairs |
| HStorePairs.HStoreFromPairs | polardb/contrib/hstore/hstore_io.c:388-415 | hstorePairs lays out exactly the given pairs, and fails exactly when the value cannot be allocated |
| HStoreParse.HSParser.Resize | polardb/contrib/hstore/hstore_io.c:42-51 | Growing the word buffer leaves room for a byte and a terminator, and fails exactly when the word has 2^29 - 1 bytes |
| HStoreParse.HSParser.GetVal | polardb/contrib/hstore/hstore_io.c:60-175 | get_val agrees with the recursive scanner on result, position, word and quoting, errors of syntax and of allocation included, and never writes past its buffer |
| HStoreParse.HSParser.GrowPairs | polardb/contrib/hstore/hstore_io.c:202-206 | Growing the array of pairs by doubling makes room for one more, and fails exactly at 2^24 pairs |
| HStoreParse.HSParser.ParseHStore | polardb/contrib/hstore/hstore_io.c:184-287 | parse_hstore yields the pairs of the recursive grammar, or an error of syntax or allocation, and never writes past its array |
| HStorePrint.PrintFits | polardb/contrib/hstore/hstore_io.c:1168-1198 | From every pair on, the rest of the text and the terminator fit what the estimate has left |
| HStorePrint.EstimateIs | polardb/contrib/hstore/hstore_io.c:1185-1196 | The estimate is eight bytes for each pair, two for each byte of a key or value and two for each null |
| HStorePrint.PrintExample | polardb/contrib/hstore/hstore_io.c:1200-1230 | The text of two pairs, byte by byte |
| HStorePrint.EstimateBound | polardb/contrib/hstore/hstore_io.c:1185-1196 | The estimate is at most twice the size of the value |
| HStorePrint.CopyWord | polardb/contrib/hstore/hstore_io.c:1152-1164 | cpw writes the escaped word at the pointer and keeps what was written before |
| HStorePrint.HStoreOut | polardb/contrib/hstore/hstore_io.c:1167-1234 | hstore_out writes the text of the pairs inside its buffer, and fails exactly when the estimate cannot be allocated |
| HStoreGrammar.TokenRead | polardb/contrib/hstore/hstore_io.c:60-175 | A quoted or bare word, with backslashes before any of its bytes, is read as exactly the word meant, with its end position and whether it was quoted |
| HStoreGrammar.KeyRead | polardb/contrib/hstore/hstore_io.c:184-244 | A key and its arrow, with blanks around both, are read as the key |
| HStoreGrammar.ValRead | polardb/contrib/hstore/hstore_io.c:245-262 | A value with blanks around it is read as the value, null exactly for a bare word that says null in any case of letters |
| HStoreGrammar.DocumentRead | polardb/contrib/hstore/hstore_io.c:184-287 | Every text of the format is read as the pairs it stands for, unless a word or the array of pairs cannot be allocated |
| HStoreGrammar.DocumentFound | polardb/contrib/hstore/hstore_io.c:184-287 | Every text that is accepted follows the format, and its pairs are those it stands for |
| HStoreGrammar.AcceptsExactly | polardb/contrib/hstore/hstore_io.c:184-287 | The texts that are accepted, with their pairs, are exactly those of the format whose words and pairs can be allocated |
| HStoreText.ScanEscaped | polardb/contrib/hstore/hstore_io.c:112-142 | Inside quotes the scanner undoes the printer's escaping, and ends in an error exactly at a NUL or when the word reaches 2^29 bytes |
| HStoreText.ScanNull | polardb/contrib/hstore/hstore_io.c:69-111 | An unquoted NULL before a comma or the end is read as the word NULL, not as a quoted string |
| HStoreText.ParsePrinted | polardb/contrib/hstore/hstore_io.c:184-287 | Parsing the printed text from any pair on yields the pairs from there on, and is an error exactly if one has a NUL or a word of 2^29 bytes, or the array cannot hold them |
| HStoreText.ParseOfPrint | polardb/contrib/hstore/hstore_io.c:184-287 | Parsing a printed list yields that list, nulls told from the string NULL, or an error in exactly those cases |
| HStoreText.HStoreIn | polardb/contrib/hstore/hstore_io.c:419-435 | hstore_in yields a canonical value whose dictionary has the parsed keys, each with a value of one of its pairs; it fails exactly when the parse does or the value cannot be allocated |
| HStoreText.OutThenIn | polardb/contrib/hstore/hstore_io.c:1167-1234 | Output followed by input gives back the identical value, exactly when the estimate can be allocated, no string has a NUL and there are at most 2^24 pairs |
| HStoreText.PrintableOfAnyCount | polardb/contrib/hstore/hstore_io.c:184-206 | For every number of pairs up to 59 million there is a canonical value without NUL whose text can be printed, so the bound on the pairs excludes real values |
| HStoreSearch.IndexMeaning | polardb/contrib/hstore/hstore_op.c:26-70 | The index a full search finds is that of the key, and there is one exactly when the key is in the dictionary |
| HStoreSearch.FindKey | polardb/contrib/hstore/hstore_op.c:35-70 | Searching from a carried lower bound finds what a search from zero finds, and leaves a bound that separates smaller keys from greater ones |
| HStoreSearch.CarryOver | polardb/contrib/hstore/hstore_op.c:35-70 | The bound left by one search may start the search for any greater key |
| HStoreSearch.ArrayToPairs | polardb/contrib/hstore/hstore_op.c:72-125 | The key list is strictly increasing and has exactly the non-null keys of the array; an error exactly when the array has more keys than pairs can be allocated |
| HStoreSearch.ExistsAny | polardb/contrib/hstore/hstore_op.c:162-193 | True exactly when some key of the array is in the dictionary; an error exactly when the array is too long |
| HStoreSearch.ExistsAll | polardb/contrib/hstore/hstore_op.c:196-227 | True exactly when every non-null key of the array is in the dictionary; an error exactly when the array is too long |
| HStoreSearch.ValuesDifferMeaning | polardb/contrib/hstore/hstore_op.c:996-1003 | The value test is inequality of values, a null being equal to a null only |
| HStoreSearch.Contains | polardb/contrib/hstore/hstore_op.c:965-1010 | True exactly when every entry of the template is an entry of the value |
| HStoreMerge.FilterMap | polardb/contrib/hstore/hstore_op.c:245-468 | Filtering sorted pairs is restricting the dictionary |
| HStoreMerge.CopyFrom | polardb/contrib/hstore/hstore_op.c:276-281 | Copying pair i of a value appends that pair to the output |
| HStoreMerge.Delete | polardb/contrib/hstore/hstore_op.c:245-289 | The canonical value of the dictionary without the key |
| HStoreMerge.DeleteArray | polardb/contrib/hstore/hstore_op.c:292-368 | The canonical value of the dictionary without the keys of the array; an error exactly when the array is too long |
| HStoreMerge.DeleteHStore | polardb/contrib/hstore/hstore_op.c:371-468 | The canonical value of the dictionary without the entries the second one has with the same value |
| HStoreMerge.Concat | polardb/contrib/hstore/hstore_op.c:471-566 | The canonical value of the first dictionary overridden by the second; fails exactly when the sum of the sizes cannot be allocated |
| HStoreMerge.SliceToHStore | polardb/contrib/hstore/hstore_op.c:632-691 | The canonical value of the dictionary restricted to the keys of the array; an error exactly when the array is too long |
| HStoreCmp.OrderAntisymmetric | polardb/contrib/hstore/hstore_op.c:1085-1163 | Swapping the arguments negates the comparison |
| HStoreCmp.OrderTransitive | polardb/contrib/hstore/hstore_op.c:1085-1163 | The comparison is transitive |
| HStoreCmp.EmptyLeast | polardb/contrib/hstore/hstore_op.c:1098-1111 | The empty hstore is below every other and equal only to an empty one |
| HStoreCmp.OrderZero | polardb/contrib/hstore/hstore_op.c:1085-1163 | Comparison yields zero exactly for equal dictionaries, and then the values are identical |
| HStoreCmp.OrderMeaning | polardb/contrib/hstore/hstore_op.c:1085-1163 | Which of two values is the smaller: the empty one, else by the first differing byte of the strings, a string that is a prefix first, then fewer pairs, then the first smaller position or missing null flag |
| Bytes.LexMeaning | polardb/contrib/hstore/hstore_op.c:1113-1117 | The comparison of strings is decided by the first differing byte, a prefix coming first |
| Bytes.KeyLessMeaning | polardb/contrib/hstore/hstore_io.c:289-311 | Keys are ordered by length, those of one length by the first differing byte |
| HStoreCmp.CompareEntries | polardb/contrib/hstore/hstore_op.c:1129-1147 | The entry loop yields the first difference in position, then in the null flag |
| HStoreCmp.Compare | polardb/contrib/hstore/hstore_op.c:1085-1163 | hstore_cmp computes the order: strings as one block, then their lengths, then counts, then entries |
| HStoreCompat.ValidOldFormat | polardb/contrib/hstore/hstore_compat.c:165-229 | Nonzero exactly for old-format values, two exactly when the size is exact as well |
| HStoreCompat.OldChars | polardb/contrib/hstore/hstore_compat.c:195-216 | The strings of an accepted old value are contiguous in pair order |
| HStoreCompat.Rewrite | polardb/contrib/hstore/hstore_compat.c:316-344 | Overwriting the entries in place leaves the exact new-format layout of the old pairs |
| HStoreCompat.UpgradeKeepsPairs | polardb/contrib/hstore/hstore_compat.c:316-344 | The rewritten value reads as the old pairs, has no slop, and is canonical if the keys were in order |
| HStoreCompat.ValidNewFormat | polardb/contrib/hstore/hstore_compat.c:119-163 | Nonzero exactly for values that are flagged, empty or pass every new-format test; two exactly when the size is exact as well |
| HStoreCompat.NewFormatReadable | polardb/contrib/hstore/hstore_compat.c:119-163 | A value that passes the new-format tests can be read, and comes out of the upgrade with its exact size and no slop |
| HStoreCompat.Upgrade | polardb/contrib/hstore/hstore_compat.c:236-347 | hstoreUpgrade on every value: flagged values unchanged, shortcut and new-format values flagged and cut to size, old-format values rewritten, all others an error; the memory changes only where a value is rewritten |
| HStoreCompat.TakenOnlyIfNull | polardb/contrib/hstore/hstore_compat.c:250-256 | The shortcut catches an accepted old value exactly when it is short and its first value is null with a length of 32768 or more |
| HStoreCompat.UpgradeExact | polardb/contrib/hstore/hstore_compat.c:236-347 | The upgrade keeps the pairs of an accepted old value exactly when the shortcut does not catch it |
| HStoreCompat.UpgradeNewExact | polardb/contrib/hstore/hstore_compat.c:236-347 | The upgrade of an unflagged new-format value reads the same exactly when the shortcut catches it or the old-format test rejects it |
| HStoreUpgrade.UpgradeFlagged | polardb/contrib/hstore/hstore_compat.c:243-244 | A flagged canonical value is returned unchanged |
| HStoreUpgrade.UpgradeEmpty | polardb/contrib/hstore/hstore_compat.c:250-256 | A size word of zero is the empty hstore |
| HStoreUpgrade.UpgradeFails | polardb/contrib/hstore/hstore_compat.c:258-276 | The upgrade is an error exactly for an unflagged value that the shortcut does not catch and that passes neither test |
| HStoreUpgrade.NewFormatMeaning | polardb/contrib/hstore/hstore_compat.c:119-163 | The new-format test accepts exactly the values that can be read and whose keys, as read, do not get shorter and are not null from the second on |
| HStoreUpgrade.CanonicalIsNew | polardb/contrib/hstore/hstore_compat.c:119-163 | Every nonempty canonical value passes the new-format test and is what the upgrade cuts its memory to |
| HStoreUpgrade.UpgradeUnflagged | polardb/contrib/hstore/hstore_compat.c:236-347 | Without its flag a canonical value is restored exactly when the shortcut catches it or the old-format test rejects it |
| HStoreUpgrade.OldImageRead | polardb/contrib/hstore/hstore_compat.c:98-106 | Whatever pairs the old format could hold, with keys that do not get shorter, the test accepts their image and reads them back |
| HStoreUpgrade.OldKeysGrow | polardb/contrib/hstore/hstore_compat.c:195-202 | The keys of an accepted old value do not get shorter |
| HStoreUpgrade.AIs1 | polardb/contrib/hstore/hstore.h:18-83 | The bytes of one small value, and what they read as |
| HStoreCompat.UpgradeReadsSlop | polardb/contrib/hstore/hstore_compat.c:258-314 | An unflagged new value of two empty strings with 32768 bytes of slop: both tests accept it, and its upgrade reads the slop as the value |
| HStoreCompat.UpgradeLosesNull | polardb/contrib/hstore/hstore_compat.c:250-256 | An accepted old value with a null whose upgrade reads as an empty string instead |
| HStoreGist.CompressLeaf | polardb/contrib/hstore/hstore_gist.c:141-172 | The leaf signature has the bits of every key and non-null value |
| HStoreGist.LeafExact | polardb/contrib/hstore/hstore_gist.c:141-172 | A bit of a leaf signature is set exactly when some key or non-null value hashes to it |
| HStoreGist.LeafCovers | polardb/contrib/hstore/hstore_gist.c:141-172 | A leaf signature covers its hstore |
| HStoreGist.CompressInner | polardb/contrib/hstore/hstore_gist.c:173-198 | An inner signature of all ones becomes the all-true flag, any other is left alone |
| HStoreGist.CompressedSame | polardb/contrib/hstore/hstore_gist.c:173-198 | Compressing an inner key changes no bit |
| HStoreGist.UnionKey | polardb/contrib/hstore/hstore_gist.c:289-300 | unionkey ors a signature into the base in place, or reports an all-true key and leaves the base |
| HStoreGist.Union | polardb/contrib/hstore/hstore_gist.c:302-327 | ghstore_union yields the union key |
| HStoreGist.UnionFromHas | polardb/contrib/hstore/hstore_gist.c:302-327 | A bit is in a union exactly when it is in one of the keys |
| HStoreGist.CoversConsistent | polardb/contrib/hstore/hstore_gist.c:500-607 | A key that covers an hstore is consistent with every query the hstore satisfies, for all four strategies |
| HStoreGist.GhstoreConsistent | polardb/contrib/hstore/hstore_gist.c:500-607 | The loops of ghstore_consistent decide the consistency test |
| HStoreGist.ConsistentExact | polardb/contrib/hstore/hstore_gist.c:500-607 | A key is consistent with a query exactly when it is all true or covers some hstore that satisfies the query |
| HStoreGist.HashCongruent | polardb/contrib/hstore/hstore_gist.c:44 | The bit of a string is its checksum up to a multiple of the signature length |
| HStoreGist.TreeCovers | polardb/contrib/hstore/hstore_gist.c:141-327 | Every key of a tree grown by compress, union and split covers every hstore below it |
| HStoreGist.SearchComplete | polardb/contrib/hstore/hstore_gist.c:500-607 | Every key above a matching hstore is consistent with the query |
| HStoreGistSplit.SizeBitVec | polardb/contrib/hstore/hstore_gist.c:245-257 | Adding up bytes counts the one-bits of the signature |
| HStoreGistSplit.HemDist | polardb/contrib/hstore/hstore_gist.c:259-287 | hemdist is the number of differing bits, an all-true key counting as all ones |
| HStoreGistSplit.DistanceZero | polardb/contrib/hstore/hstore_gist.c:273-287 | The distance is zero exactly for equal bits |
| HStoreGistSplit.DistanceTriangle | polardb/contrib/hstore/hstore_gist.c:273-287 | The distance is symmetric and meets the triangle inequality |
| HStoreGistSplit.PickSeeds | polardb/contrib/hstore/hstore_gist.c:386-411 | The seeds are distinct offsets, at least as far apart as any candidate pair |
| HStoreGistSplit.SortCosts | polardb/contrib/hstore/hstore_gist.c:423-433 | The offsets are a permutation, and no later cost is below an earlier one |
| HStoreGistSplit.Place | polardb/contrib/hstore/hstore_gist.c:451-487 | A key goes to the nearer side, with the bias towards the shorter one, and that side's key gains exactly its bits |
| HStoreGistSplit.WishSign | polardb/contrib/hstore/hstore_gist.c:76 | The bias is against the longer side, and none for sides of equal length |
| HStoreGistSplit.PickSplit | polardb/contrib/hstore/hstore_gist.c:357-497 | Each offset goes to one side, neither side is empty, and each side's key has exactly the bits of its members; the keys are taken in order of cost, a seed to its own side and any other to the side it differs less from at that moment, with the bias |
| HStoreGistSplit.SideIncludes | polardb/contrib/hstore/hstore_gist.c:357-497 | The key of a side covers each member, as a tree needs it |
| HStoreGistSplit.SplitBuilds | polardb/contrib/hstore/hstore_gist.c:357-497 | The two halves of a split page are nodes of an index tree, and every hstore below the page is below one of them |
| BloomRand.NoOverflow | polardb/contrib/bloom/blutils.c:222-247 | No intermediate value of the generator leaves the 32-bit range |
| BloomRand.SchrageCongruent | polardb/contrib/bloom/blutils.c:238-241 | The split multiplication equals the product up to a multiple of the modulus, with truncating division on negative states too |
| BloomRand.GeneratorStep | polardb/contrib/bloom/blutils.c:222-247 | From every nonzero state the next one is in range and congruent to 16807 times the state |
| BloomRand.SeedDomain | polardb/contrib/bloom/blutils.c:249-255 | The seed operation yields a legal state, zero for exactly two seeds |
| BloomRand.BitsInRange | polardb/contrib/bloom/blutils.c:282-287 | All later bit numbers are in range for a nonzero state, and minus one for a zero state |
| BloomRand.BitAt | polardb/contrib/bloom/blutils.c:282-287 | Bit number j of a value is ((7^(5(j+1)) times the seed state) mod (2^31 - 1)) - 1, modulo the signature length |
| BloomRand.ValueSeedIs | polardb/contrib/bloom/blutils.c:267-280 | The seed of a value is its hash, exclusive or 16807 times the one-based column number, less one |
| BloomRand.ColumnsDiffer | polardb/contrib/bloom/blutils.c:267-280 | The same value in two columns seeds the generator differently |
| BloomRand.Generator.MyRand | polardb/contrib/bloom/blutils.c:222-247 | One call advances the state by one step |
| BloomRand.Generator.MySrand | polardb/contrib/bloom/blutils.c:249-255 | Seeding sets the state for the seed |
| BloomSign.ColumnBitsInRange | polardb/contrib/bloom/blutils.c:260-288 | The bits of a column value are inside the signature exactly unless its seed is one of the two bad ones |
| BloomSign.ColumnBitAt | polardb/contrib/bloom/blutils.c:260-288 | The bit numbers of a column value, in closed form |
| BloomSign.BadColumnBits | polardb/contrib/bloom/blutils.c:260-288 | In every column there is a hash whose seed is a bad one: every bit number it yields is -1 |
| BloomSign.SignValue | polardb/contrib/bloom/blutils.c:260-288 | signValue sets exactly the bits of the column value |
| BloomSign.FormSignature | polardb/contrib/bloom/blutils.c:293-312 | The signature of a row has the bits of its non-null columns |
| BloomSign.ScanSignature | polardb/contrib/bloom/blscan.c:90-119 | The signature of a scan has the bits of its keys; a null key ends the scan |
| BloomSign.SignAllExact | polardb/contrib/bloom/blutils.c:260-312 | A bit of a signature is set exactly when it is a bit of one of the columns |
| BloomSign.MatchingRowCovered | polardb/contrib/bloom/blscan.c:142-161 | The signature of a row covers that of every scan whose keys equal columns of the row |
| BloomPage.RoomMeaning | polardb/contrib/bloom/bloom.h:152-155 | A page has room for another tuple exactly when header, tuples and special area then still fit the block |
| BloomPage.FreshPageFits | polardb/contrib/bloom/bloom.h:152-155 | A tuple of any permitted length fits a freshly initialised page |
| BloomPage.DataPage.constructor | polardb/contrib/bloom/blutils.c:408-417 | A block that was never initialised counts as a new page |
| BloomPage.DataPage.Init | polardb/contrib/bloom/blutils.c:407-417 | Initialising a block makes it an empty live page |
| BloomPage.DataPage.AddItem | polardb/contrib/bloom/blutils.c:318-346 | A tuple is appended exactly when it fits; otherwise the page is unchanged |
| BloomPage.DataPage.InsertHere | polardb/contrib/bloom/blinsert.c:226-253 | A new or deleted page is initialised before the attempt; the page gains the tuple exactly when it fits, and is otherwise as it was |
| BloomPage.DataPage.CollectMatches | polardb/contrib/bloom/blscan.c:142-161 | The tuples reported are those whose signature covers the scan's |
| BloomPage.DataPage.Compact | polardb/contrib/bloom/blvacuum.c:81-141 | A page keeps exactly the tuples not chosen, in order, with the matching count; it is marked deleted exactly when none is left; it is listed exactly when it is not full and not deleted |
| BloomPage.DataPage.CompactTuples | polardb/contrib/bloom/blvacuum.c:81-112 | The two-pointer loop, counting maxoff down once per removed tuple, leaves the order-preserving filter and a count that agrees with the write pointer |
| BloomPage.KeptContents | polardb/contrib/bloom/blvacuum.c:92-112 | The filter keeps each tuple as often as it was there, or not at all if its row is chosen |
| BloomPage.VacuumedTuples | polardb/contrib/bloom/blvacuum.c:114-141 | The tuples of a vacuumed page are the filtered tuples, whichever way the page is marked |
| BloomIndex.NextKeeps | polardb/contrib/bloom/blinsert.c:197-366 | Every step of every process keeps nStart <= nEnd <= BloomMetaBlockN, listed blocks being data blocks, pages within capacity and live pages nonempty |
| BloomIndex.RunKeeps | polardb/contrib/bloom/blvacuum.c:34-161 | The invariant holds in every state of every run |
| BloomTheorems.StepConserves | polardb/contrib/bloom/blinsert.c:73-158 | One step adds exactly what it places to the stored tuples and takes exactly what it removes |
| BloomTheorems.LostWasDead | polardb/contrib/bloom/blvacuum.c:92-112 | A tuple is removed only by a vacuum step whose callback chose it |
| BloomTheorems.RunConserves | polardb/contrib/bloom/blinsert.c:197-366 | In every run, stored plus removed tuples are the tuples placed, as multisets |
| BloomTheorems.PlacedExactlyOnce | polardb/contrib/bloom/blinsert.c:73-158 | In every run a finished insert has placed its tuple once, and a build has placed what it was fed, less the page it still holds |
| BloomTheorems.TupleStays | polardb/contrib/bloom/blvacuum.c:58-160 | A tuple stays on its block unless the step is a vacuum of that block that chose it |
| BloomTheorems.ScanComplete | polardb/contrib/bloom/blscan.c:122-171 | A scan has returned every covering tuple that was there when it began and was not removed, on all blocks it has passed |
| BloomTheorems.ScanFindsEqualRows | polardb/contrib/bloom/blscan.c:81-173 | A finished scan has returned every such row whose columns equal the scan keys |
| BloomTheorems.ScanSound | polardb/contrib/bloom/blscan.c:122-171 | Every row a scan has returned had a tuple with a covering signature on a block at the step in which the scan read it |
| BloomTheorems.TupleArrives | polardb/contrib/bloom/blinsert.c:197-366 | A tuple gets onto a block only by a step that places it |
| BloomTheorems.VacuumComplete | polardb/contrib/bloom/blvacuum.c:58-160 | A vacuum has removed every chosen tuple from the blocks it has passed, and when done from all blocks there at its begin, unless a later step placed the tuple |
| BloomTheorems.NeverStuck | polardb/contrib/bloom/blinsert.c:281-354 | Every unfinished process can take a step or waits for another one's metapage lock |
| BloomSpace.VacuumList | polardb/contrib/bloom/blvacuum.c:58-140 | In every state of every run the list of a vacuum under way is in block order and has exactly the blocks it has passed and left with a tuple and space for another, while the list was not full |
| BloomSpace.VacuumPublishes | polardb/contrib/bloom/blvacuum.c:142-157 | A vacuum that finishes leaves its list as the not-full pages of the metapage |
| BloomSpace.FsmArrives | polardb/contrib/bloom/blvacuum.c:196-217 | A block gets into the free space map only when a cleanup finds it new or deleted |
| BloomSpace.FsmLeaves | polardb/contrib/bloom/blutils.c:349-390 | A block leaves the map only when a process asks for a free block |
| BloomSpace.CleanupComplete | polardb/contrib/bloom/blvacuum.c:189-214 | A cleanup visits every block there at its begin, and the new or deleted ones are then in the map unless taken since |
| BloomSpace.FirstListedFirst | polardb/contrib/bloom/blinsert.c:223-233 | An insert first tries the first listed page |
| BloomSpace.SearchInOrder | polardb/contrib/bloom/blinsert.c:262-331 | In every run an insert under way has tried, and found full, every listed page it has skipped |
| BloomSpace.SkipOnlyIfFull | polardb/contrib/bloom/blinsert.c:294-331 | The list loses first pages only to an insert that found them full, and the page that took the tuple becomes the first |
| BloomSpace.AllocateOnlyIfFull | polardb/contrib/bloom/blinsert.c:294-337 | A new page is taken only after every listed page has been found full |
| BloomSpace.AllocateLists | polardb/contrib/bloom/blinsert.c:333-354 | A new page holds the tuple and is then the only listed one |
| BtreeGistVar.CommonPrefixLen | polardb/contrib/btree_gist/btree_utils_var.c:120-162 | The loop yields the length of the common prefix |
| BtreeGistVar.Union | polardb/contrib/btree_gist/btree_utils_var.c:321-357 | gbt_var_union yields the truncated union of the entries |
| BtreeGistVar.RawUnionEncloses | polardb/contrib/btree_gist/btree_utils_var.c:232-277 | The range before truncation encloses each entry's range |
| BtreeGistVar.CutKeepsPrefix | polardb/contrib/btree_gist/btree_utils_var.c:203-228 | Truncating past the common prefix leaves the common prefix as it was |
| BtreeGistVar.TruncateInside | polardb/contrib/btree_gist/btree_utils_var.c:203-228 | A string inside the range is covered by the truncated range |
| BtreeGistVar.TruncateBeyond | polardb/contrib/btree_gist/btree_utils_var.c:203-228 | A string that an entry covers only by its truncated upper bound is covered by the truncated union |
| BtreeGistVar.UnionCovers | polardb/contrib/btree_gist/btree_utils_var.c:321-357 | A union covers every string that one of its entries covers |
| BtreeGistVar.LeafDecides | polardb/contrib/btree_gist/btree_utils_var.c:554-612 | On a leaf the test decides the operator, which is stated by equality and the first differing byte |
| BtreeGistVar.OperatorsAgree | polardb/contrib/btree_gist/btree_utils_var.c:554-612 | The six operators are those of one total order |
| BtreeGistVar.CoversConsistent | polardb/contrib/btree_gist/btree_utils_var.c:554-612 | A key that covers a string is consistent with every query the string satisfies, for all six strategies |
| BtreeGistVar.InnerExact | polardb/contrib/btree_gist/btree_utils_var.c:554-612 | An inner key lets a query through exactly when a string it covers satisfies the operator, bounds included, or, looking upwards, when a bound is a prefix of the query |
| BtreeGistVar.RawUnionAttained | polardb/contrib/btree_gist/btree_utils_var.c:232-277 | Each bound of a union is that of one of its entries |
| BtreeGistVar.UnionCut | polardb/contrib/btree_gist/btree_utils_var.c:321-357 | A union key keeps of each bound the common prefix and at most two bytes more |
| BtreeGistTree.TreeCovers | polardb/contrib/btree_gist/btree_utils_var.c:321-357 | Keys grown from leaf-page halves and unions, at any number of levels, cover every leaf below |
| BtreeGistTree.SearchComplete | polardb/contrib/btree_gist/btree_utils_var.c:554-612 | Every inner key above a matching leaf is consistent with the query, for all six strategies |
| BtreeGistTree.LeafHalves | polardb/contrib/btree_gist/btree_utils_var.c:534-544 | Both halves picksplit makes of a leaf page are such nodes |
| BtreeGistTree.TreeOrdered | polardb/contrib/btree_gist/btree_utils_var.c:203-277 | In every such key the lower bound is not above the upper |
| BtreeGistSplit.KeyOrderMeaning | polardb/contrib/btree_gist/btree_utils_var.c:442-454 | Entries are ordered by the lower bound, then the upper, each by the first differing byte |
| BtreeGistSplit.SortOffsets | polardb/contrib/btree_gist/btree_utils_var.c:442-506 | The offsets are a permutation ordered by lower, then upper bound |
| BtreeGistSplit.PickSplit | polardb/contrib/btree_gist/btree_utils_var.c:457-547 | The lower half of the ordered entries, rounded down, goes left and the rest right, and both keys are cut at the shared length |
| BtreeGistSplit.TightEntryCovered | polardb/contrib/btree_gist/btree_utils_var.c:534-544 | An entry whose upper bound stands for no longer strings is covered at any cut past the common prefix |
| BtreeGistSplit.LeafPageSplitCovers | polardb/contrib/btree_gist/btree_utils_var.c:534-544 | On leaf pages the shared cut still covers every member |
| BtreeGistSplit.NoGapFinds | polardb/contrib/btree_gist/btree_utils_var.c:534-544 | Without a gap the half is consistent with every query that a string its entry covers satisfies, for all six strategies |
| BtreeGistSplit.GapMisses | polardb/contrib/btree_gist/btree_utils_var.c:534-544 | With a gap there is a covered string that the half turns away |
| BtreeGistSplit.SplitExact | polardb/contrib/btree_gist/btree_utils_var.c:534-544 | A half is consistent with every query, of any strategy, that a string its entries cover satisfies, exactly when none of the entries has a gap |
| BtreeGistSplit.InnerSplitLosesLeaf | polardb/contrib/btree_gist/btree_utils_var.c:534-544 | Splitting a page of four inner entries yields a left half whose key turns away a leaf that its first entry covers |
| CubeBox.UnionV0 | polardb/contrib/cube/cube.c:745-804 | cube_union_v0 has the outer bounds of both boxes in every dimension, a missing one reading as zero, and the larger dimension |
| CubeBox.InterV0 | polardb/contrib/cube/cube.c:820-894 | cube_inter has the inner bounds of both boxes |
| CubeBox.CubeSize | polardb/contrib/cube/cube.c:908-931 | The size is the product of the side lengths, zero for points |
| CubeBox.ContainsV0 | polardb/contrib/cube/cube.c:1120-1158 | True exactly when the bounds of the second box lie inside the first in the second's dimensions |
| CubeBox.OverlapV0 | polardb/contrib/cube/cube.c:1190-1228 | True exactly when the boxes meet in every dimension |
| CubeBox.CmpV0 | polardb/contrib/cube/cube.c:933-1013 | cube_cmp_v0 yields the first difference of lower, then upper bounds, then of the excess dimensions against zero |
| CubeBox.CmpAntisymmetric | polardb/contrib/cube/cube.c:933-1013 | The comparison is antisymmetric and zero exactly for boxes with the same dimension and bounds |
| CubePoints.CmpMeaning | polardb/contrib/cube/cube.c:933-1013 | Which of two boxes is the smaller: by lower bounds in the common dimensions, then upper bounds, then the excess dimensions against zero, then the number of dimensions |
| CubePoints.ContainsPoints | polardb/contrib/cube/cube.c:1120-1158 | A box contains another exactly when every point of the other, in the dimensions it has, lies in the box |
| CubePoints.OverlapPoints | polardb/contrib/cube/cube.c:1190-1228 | Two boxes overlap exactly when they have a point in common |
| CubeOrder.CmpTransitiveExactly | polardb/contrib/cube/cube.c:933-1013 | For dimensions d1 <= d2 <= d3 the comparison is transitive on all boxes of those dimensions exactly when d1 = d2, or d1 = 0 and d2 = d3 |
| CubeOrder.CycleThroughHighs | polardb/contrib/cube/cube.c:933-1013 | For 0 < d1 < d2 <= d3, three boxes each below the next |
| CubeOrder.CycleThroughZero | polardb/contrib/cube/cube.c:933-1013 | For 0 < d2 < d3, such a cycle with the box of dimension zero |
| CubeBox.GapIsDistance | polardb/contrib/cube/cube.c:1501-1514 | distance_1D is the gap between the projections, whichever way round the corners are |
| CubeBox.DistanceV0 | polardb/contrib/cube/cube.c:1246-1394 | The three distance loops accumulate the gaps over all dimensions either box has |
| CubePoints.GapIsLeast | polardb/contrib/cube/cube.c:1501-1514 | The gap on an axis is at most the distance there of any two points of the boxes |
| CubePoints.GapReached | polardb/contrib/cube/cube.c:1501-1514 | Two points of the boxes are just that far apart |
| CubePoints.DistanceMeaning | polardb/contrib/cube/cube.c:1246-1394 | The taxicab distance is the sum of the gaps, the squared Euclidean one the sum of their squares, and the Chebyshev distance the largest gap |
| CubeGist.Union | polardb/contrib/cube/cube.c:419-448 | g_cube_union is the smallest box around all entries: it covers them, and each bound is one of theirs |
| CubeGist.BoundingGrows | polardb/contrib/cube/cube.c:745-804 | Adding a box to a smallest box by union gives a smallest box |
| CubeGist.Consistent | polardb/contrib/cube/cube.c:387-416 | Leaf and inner tests decide the operator and the inner relation |
| CubeGist.CoversAdmits | polardb/contrib/cube/cube.c:677-731 | An inner box that covers a matching box admits the query |
| CubePoints.AdmitsExact | polardb/contrib/cube/cube.c:677-731 | For overlap, contains and contained-by an inner box admits a query exactly when a box it covers could satisfy the operator |
| CubeGist.TreeCovers | polardb/contrib/cube/cube.c:419-448 | Every inner box of a tree covers every box below it |
| CubeGist.SearchComplete | polardb/contrib/cube/cube.c:677-731 | A search finds every matching box, for contained-by when the query reaches zero in its excess dimensions |
| CubeGist.UnionBuilds | polardb/contrib/cube/cube.c:419-448 | The union of the boxes of tree nodes makes a node above them |
| CubeGist.ContainedByExact | polardb/contrib/cube/cube.c:723-726 | For contained-by that condition is exact: it holds just when every tree with the box yields it |
| CubeGist.ContainedByMisses | polardb/contrib/cube/cube.c:723-726 | A stored point and a query for which the inner test fails |
| CubeKnn.DistanceBound | polardb/contrib/cube/cube.c:1246-1394 | For each metric the distance to an inner box is at most that to any box it covers |
| CubeKnn.OverlapIsZero | polardb/contrib/cube/cube.c:1246-1394 | For each metric the distance is zero exactly for overlapping boxes |
| CubeKnn.CoordMeaning | polardb/contrib/cube/cube.c:1619-1698 | Coordinate 2n-1 is the lower and 2n the upper bound of dimension n, negated for negative numbers, whichever way round the corners are |
| CubeKnn.CoordLeaf | polardb/contrib/cube/cube.c:1404-1467 | On a leaf the index yields the operator's value |
| CubeKnn.CoordInner | polardb/contrib/cube/cube.c:1404-1467 | The inner value of a coordinate is the lower bound of its dimension, for negative numbers the negated upper bound |
| CubeKnn.CoordBound | polardb/contrib/cube/cube.c:1404-1467 | The inner value of a coordinate is at most the value of any box covered, for both signs |
| CubeKnn.TreeBound | polardb/contrib/cube/cube.c:1396-1499 | In every tree all inner values on the way to a box are at most its value |
| CubeSplit.Waste | polardb/contrib/cube/cube.c:551-569 | The waste of a pair is the volume of its union less that of its intersection |
| CubeSplit.PickSeeds | polardb/contrib/cube/cube.c:551-581 | The seeds are two distinct offsets that waste at least as much space as any pair the loops compare |
| CubeSplit.Place | polardb/contrib/cube/cube.c:624-647 | An entry goes to the side whose box needs less enlargement for it, to the right one if both need the same |
| CubeSplit.PickSplit | polardb/contrib/cube/cube.c:509-654 | The offsets go in order to two nonempty sides, each on one side only, each datum is the smallest box around its side, and each entry but the seeds is where it needed less enlargement |
| CubeSplit.SplitBuilds | polardb/contrib/cube/cube.c:509-654 | The two halves of a split page are nodes of an index tree, and every box below the page is below one of them |
| NbtreePages.LeftmostIgnoringHalfDead | polardb/contrib/amcheck/verify_nbtree.c:932-984 | The walk over half-dead left siblings always ends; true exactly when it reached the left end of the level, an error exactly when it met a left link it cannot read |
| NbtreePages.HighKeyThere | polardb/contrib/amcheck/verify_nbtree.c:3166-3211 | A page that passes the sanity checks has the high key its links call for |
| NbtreePages.PathStaysDistinct | polardb/contrib/amcheck/verify_nbtree.c:954-962 | A walk over pages that link back never meets itself |
| NbtreePages.DownlinkMissingCheck | polardb/contrib/amcheck/verify_nbtree.c:2348-2514 | It returns exactly when the page is a root, follows an incomplete split, or heads an interrupted deletion within the bound |
| NbtreeCheck.BtreeCheckState.constructor | polardb/contrib/amcheck/verify_nbtree.c:68-121 | No low key and no right link is remembered at first |
| NbtreeCheck.BtreeCheckState.HighKeyCheck | polardb/contrib/amcheck/verify_nbtree.c:2049-2149 | It passes exactly when the high key has the data, and in a heapkeyspace index the offset number, of the target key after, or before, the downlink |
| NbtreeCheck.BtreeCheckState.StepCheck | polardb/contrib/amcheck/verify_nbtree.c:2003-2149 | One block of the walk passes exactly when it can be read, is leftmost if it must be, is on the level, is neither its own left sibling nor the block the walk started from, has a downlink or may lack it, and has the right high key |
| NbtreeCheck.BtreeCheckState.ChildHighKeyCheck | polardb/contrib/amcheck/verify_nbtree.c:1936-2168 | It returns exactly on a linked list of passing blocks that ends at the downlink or at the end of the level, and reports corruption only if there is none; the state remembers the last right link and split flag |
| NbtreeCheck.OneWay | polardb/contrib/amcheck/verify_nbtree.c:1936-2168 | The blocks of a returning call are determined by the index |
| NbtreeCheck.EnoughFuel | polardb/contrib/amcheck/verify_nbtree.c:1936-2168 | Where such a list exists, every large enough bound lets the call return |
| NbtreeCheck.BtreeCheckState.DownlinkCheck | polardb/contrib/amcheck/verify_nbtree.c:1269-1284 | The calls for one downlink return exactly when the walk passes and the child is live |
| NbtreeCheck.BtreeCheckState.TargetPageCheck | polardb/contrib/amcheck/verify_nbtree.c:1269-1284 | It returns exactly when one call passes for each downlink of the page in order, and the last call at the right end |
| NbtreeCheck.BtreeCheckState.VisitTarget | polardb/contrib/amcheck/verify_nbtree.c:738-870 | The visit of a page returns exactly when the page is half-dead and not rightmost, or is on the level, links back, is leftmost and the root where it must be, and all its calls pass; the first page not skipped gives the start of the next level |
| NbtreeCheck.BtreeCheckState.CheckLevelFromLeftmost | polardb/contrib/amcheck/verify_nbtree.c:699-924 | It returns exactly when a right-link walk from the leftmost block to the end of the level passes every test; then the target blocks are linked both ways on one level, the next level starts at the first downlink of the first page not skipped, and all calls for the level were good |
| NbtreeCheck.LevelLonger | polardb/contrib/amcheck/verify_nbtree.c:699-924 | A pass that returns within one bound returns within every larger one |
| NbtreeLockstep.LevelIsOneWalk | polardb/contrib/amcheck/verify_nbtree.c:1936-2168 | The blocks visited are one right-link walk to the end of the level through the downlinks in order, exactly when no downlink is zero and no visited right link is the invalid block number |
| NbtreeLockstep.WalkStartsLeftmost | polardb/contrib/amcheck/verify_nbtree.c:2011-2021 | The walk starts at the leftmost block of the child level |
| NbtreeLockstep.EveryBlockAccountedFor | polardb/contrib/amcheck/verify_nbtree.c:2038-2042 | Every visited block that is not ignorable has a downlink, is a root, follows a block with an incomplete split, or heads an interrupted deletion |
| NbtreeLockstep.EntriesAdjacent | polardb/contrib/amcheck/verify_nbtree.c:872-906 | The low key carried over from the left target page is the key after its last downlink, so both ways to find a separator agree |
| NbtreeLockstep.StraySeparator | polardb/contrib/amcheck/verify_nbtree.c:2049-2149 | Every visited page before a downlink that has a high key and no incomplete split ends at the key before that downlink: same data, and in a heapkeyspace index the same offset number |
| NbtreeLockstep.DownSeparator | polardb/contrib/amcheck/verify_nbtree.c:2049-2149 | Every visited page with a downlink, under the same conditions, ends at the key after its downlink, in the same sense |
| NbtreeLockstep.HighKeysInLockstep | polardb/contrib/amcheck/verify_nbtree.c:2049-2149 | Every visited page that has a high key and no incomplete split ends at the target key after the downlink whose range it lies in, in the same sense |
| NbtreeLockstep.WalkUnique | polardb/contrib/amcheck/verify_nbtree.c:726-916 | Two walks from one block to the end of the level are the same |
| NbtreeLevels.VisitedIsWalk | polardb/contrib/amcheck/verify_nbtree.c:1936-2168 | If no downlink is zero and a full walk along the child level starts at the first one, the blocks visited are that walk and all links followed are proper |
| NbtreeLevels.NextLevelIsVisited | polardb/contrib/amcheck/verify_nbtree.c:699-924 | If no downlink is zero, the child blocks visited from a level are the target blocks of the next level, and no link followed is the invalid block number |
| NbtreeLevels.LowerLevel | polardb/contrib/amcheck/verify_nbtree.c:699-924 | Two consecutive passes show the lower level to be one walk through the downlinks in order, every block of it skipped, with a downlink, or excused |
| NbtreeLevels.LowerLevelUnbroken | polardb/contrib/amcheck/verify_nbtree.c:699-924 | They also show that an inner lower level has no page to skip, as the lockstep of high keys needs |
| NbtreeLevels.NoSelfLink | polardb/contrib/amcheck/verify_nbtree.c:2032-2036 | No visited block is its own left sibling |
| NbtreeLevels.BrokenLinkPasses | polardb/contrib/amcheck/verify_nbtree.c:1975-1979 | On a root over two leaves that are not linked to each other the pass over the upper level returns, and the pass over the leaves does not |
| NbtreeLevels.ZeroDownlinkPasses | polardb/contrib/amcheck/verify_nbtree.c:1975-1993 | On a root whose first downlink is zero the pass over the upper level returns, no visited block answers that downlink, and no further level is checked |
| HeapToast.HeapCheckContext.Report | polardb/contrib/amcheck/verify_heapam.c:598-613 | A finding is added and the value marked corrupt |
| HeapToast.HeapCheckContext.CheckToastTuple | polardb/contrib/amcheck/verify_heapam.c:1162-1246 | Nothing is reported exactly when the chunk is the expected one, with the right size |
| HeapToast.HeapCheckContext.CheckToastedAttribute | polardb/contrib/amcheck/verify_heapam.c:1468-1519 | Nothing is reported exactly when the chunks are 0 to last in order, each of its proper size |
| HeapToast.LastSize | polardb/contrib/amcheck/verify_heapam.c:1238-1239 | The last chunk holds what the others leave, between one byte and a full chunk |
| HeapToast.IntactTotal | polardb/contrib/amcheck/verify_heapam.c:1468-1519 | The chunks of an intact value add up to its size; a size word of zero reads as 2^32 |
| HeapXid.KeepsLowBits | polardb/contrib/amcheck/verify_heapam.c:1580-1617 | The result is a normal id, and unless clamped has the 32 bits given |
| HeapXid.RecoversExactly | polardb/contrib/amcheck/verify_heapam.c:1580-1617 | A full id is recovered from its low 32 bits exactly when it lies in the half-open window of 2^32 ids around the next one, modulo 2^64 |
| HeapXid.ClampedExactly | polardb/contrib/amcheck/verify_heapam.c:1604-1611 | The result is clamped to the first normal id exactly when no normal id of the window has those 32 bits |

## Left out

- Memory contexts, detoasting, the function manager, WAL, locking of buffers, error texts and interrupts: plumbing around the logic modelled.
- Freeing of pairs in `hstoreUniquePairs`, and `int32` overflow of its `buflen`, which the limit of 1 GB on a text or an array excludes: only the allocation limits are modelled.
- `strcasecmp` in the NULL test of the parser uses ASCII case folding.
- hstore conversions to and from JSON, records, arrays and the wire format: they call libraries that are not part of this model.
- HStoreCompat.ValidNewFormat: asks that the entries its tests read lie inside the value; the source reads them without such a test, so that nothing can be said of a value that ends before them.
- HStoreCompat.Upgrade: asks the same.
- HStoreGistSplit.Place: the bias of `WISH_F` is computed over the reals.
- Hashing (`crc32`, the bloom support functions) is a parameter.
- BloomSign.SignValue: the two bad seeds set no bit here; in C the shift they lead to is undefined.
- BloomIndex.NextKeeps: `BloomNewBuffer` is one step that grants a new block or a block that is new or deleted; races inside it are not modelled.
- The generic WAL records of bloom: each page change is one atomic step.
- BtreeGistTree.SearchComplete: bytea keys only; the bit type and locale-dependent collations are not modelled. Splits of inner pages are not among the nodes, since they can lose leaves (`BtreeGistSplit.SplitExact`).
- `gbt_var_penalty`, `g_cube_penalty` and `ghstore_penalty` beyond the Hamming distance: they only steer where entries go.
- Rounding, NaN and infinities in cube: coordinates are reals.
- CubeBox.DistanceV0: `cube_distance` is modelled before its square root, since there is no square root on the reals of the model; it would change no comparison of distances.
- The `~>` operator with the smallest `int32` as coordinate: coordinates are unbounded integers.
- NbtreeCheck.BtreeCheckState.ChildHighKeyCheck: the walk is bounded by `fuel`, since a ring of right links keeps the code from returning; `NbtreeCheck.EnoughFuel` says that the bound excludes no call that returns. The descent of `NbtreePages.DownlinkMissingCheck` and the walk over a level are bounded in the same way.
- NbtreeLockstep.HighKeysInLockstep: asks for a target level without half-dead pages. `NbtreeLevels.LowerLevelUnbroken` provides that below the top level; for a top level with one, `NbtreeLockstep.StraySeparator` and `NbtreeLockstep.DownSeparator` still hold.
- NbtreeCheck.BtreeCheckState.TargetPageCheck: ordering of items, key comparison, heap fingerprints and the lower-bound test of `bt_child_check` are not modelled; a target item at offset zero counts as unreadable.
- NbtreeCheck.BtreeCheckState.CheckLevelFromLeftmost: models the mode that holds a ShareLock. A level without a page that can be descended from is reported here rather than by the caller.
- HeapToast.HeapCheckContext.CheckToastedAttribute: the maximum chunk size is a parameter greater than two; its definition is not part of this model.
- Tuple visibility, multixacts and header checks of `verify_heapam`: they read state that is not part of this model.
- dblink, file_fdw, citext, isn, dict_*, metaphone and the other contrib modules: I/O, thin wrappers or tables.
