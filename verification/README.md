# Verified models of NAPASTAK

Dafny models of the data structures, algorithms and concurrent protocols at the core of NAPASTAK, a data
platform in C: the paged B+ tree, the Robin Hood hash map, the query engine's text distances, pull operators
and hash aggregate, the JSON builder and parser, the UTF-8 and UTF-16 code, the arena, the thread pool, the
connection pool, and replication with its wire protocol. `dafny verify dfyconfig.toml` checks all of it.

How the models are built:

- Code that updates state in place is modelled by classes and loops over arrays, proved against functions on
  values; what the code is for is then proved about those functions. `BTreeFile.BTree` runs the recursive
  insertion over a map of numbered pages and stores exactly the index that `BTreeIndex.Insert` describes;
  `HashMap.HashMap` stands for a plain map; `JsonParser.Parser` moves one position along the text.
- Code that runs under a mutex is a step system: one event for each stretch under the mutex, sleeping callers
  marked as such, a choice in the event for every signal that may wake one of several, and events for spurious
  wakeups. Theorems are about every run of such events.
- Where the code does not do what its documentation says, the code is kept. A lemma gives an input for which
  the promise fails and another says, as an equivalence, exactly when it holds. These are:
  - duplicate keys in the B+ tree (`lib/index/btree.h:24` says keys need not be unique): an insertion keeps
    the tree valid if and only if no full page on the way down pushes up the very separator to its right
    (`BTreeIndex.InsertValidIff`); lookups are right for every run in which no key comes more than 128 times,
    and 128 is the largest such number (`BTreeDuplicates.CopiesThreshold`);
  - UTF-8 input copied unchanged (`lib/core/textenc.h:50`): past 65536 bytes only when the probe ends between
    characters or no single-byte table scores on it (`TextEnc.Utf8LeftAlone`, `TextEnc.LongTextChanged`);
  - the mark that is always taken off (`lib/core/textenc.h:49`): a text without one, its encoding asked for, is
    converted to itself exactly if its first bytes are no mark of any encoding (`TextMeaning.AskedText`,
    `TextMeaning.AskedBytes`, `TextMeaning.AskedTextLost`);
  - the single-byte encoding that makes the more plausible Russian text (`lib/core/textenc.h:42-43`): it is the first
    of Windows-1251, CP866 and KOI8-R in which every byte past 0x7F is a letter, if there is one
    (`TextMeaning.FirstFit`). So Russian text in KOI8-R is recognised exactly if it has the letter io and a letter
    that is none in CP866, and without the letter io every letter of it comes out wrong
    (`TextMeaning.Koi8rDetected`, `TextMeaning.Koi8rMisread`, `TextMeaning.Cp866Detected`);
  - decoding that never loses data (`lib/qengine/qengine.c:40-43`): exactly on the strings each of whose
    characters has the shape of one and is as short as the encoder writes it (`Utf8.QeDecodeFaithful`,
    `Utf8.QeDecodeMerges`);
  - JSON keys, written without escapes: read back exactly when they hold no quote and no backslash
    (`JsonRoundTrip.KeySurvives`, `JsonRoundTrip.QuoteEndsKey`); and what is written is then JSON, and means the tree
    it was written for, exactly when no key holds a control character (`JsonWritten.WrittenIsJson`,
    `JsonWritten.LineFeedInKey`);
  - JSON input in general: the parser returns exactly on the texts that one pass with a stack of open brackets
    gets through (`JsonReturns.ReturnsIff`, `JsonReturns.OpenBracket`), which all texts of RFC 8259 are, and
    of these it reads as meant exactly those without a `\b`, a `\f` or a surrogate pair
    (`JsonUnique.ReadText`, `JsonGrammar.BackspaceMisread`). A text has one form at most
    (`JsonUnique.DocUnique`), so these are properties of the text;
  - AVG divides by all rows of a group: the mean exactly when no argument is null or the sum is zero, and zero
    where there is no mean (`HashAgg.AverageRight`, `HashAgg.AverageMisses`);
  - MIN and MAX do not compare booleans and show the first: the least exactly when the first is false or none is,
    the greatest exactly when the first is true or none is (`HashAgg.BooleansRight`);
  - the driver stops at an empty batch, which LIMIT can emit: complete exactly under the condition of
    `Pipeline.DriverRight` (`Pipeline.DriverMisses`);
  - the limit on one connection (`lib/connector/conn_pool.h:33-34`): the number of its slots in use, with a live
    session or with one being opened, passes it exactly when a caller finds as many slots of the connection on
    lease as it may have, fewer of them with its own label, none of these idle, and room in the pool
    (`ConnPoolLimit.LimitIff`). Live sessions pass it when such an opening then succeeds: two configurations of
    one connection suffice for that, and so does an invalidation while a session is in use
    (`ConnPoolExamples`); with one configuration and no such invalidation live sessions keep to the limit
    (`ConnPoolLimit.SessionLimit`);
  - an invalidated session is closed at the end of its lease, exactly unless that was a ping that found it alive
    (`ConnPoolRuns.DeadLeaseEnds`, `ConnPoolExamples.PingKeepsInvalidated`); and a session being opened always
    gets its label back (`ConnPoolRuns.InvalidationUndone`, `ConnPoolExamples.OpeningUndoesInvalidation`);
  - all submitted tasks are run exactly if none entered the queue after the last worker had left
    (`ThreadPool.AllRunIff`, `ThreadPool.LateTaskLost`);
  - records reach a replica in queue order exactly if it never reads from a connection after a later one
    (`ReplicationOrder.OrderIff`, `Replication.CanCross`).

The B+ tree keeps the distinction between two views of the leaves, the tree and the chain of `next` links:
`BTreeIndex.Sound` is what every file keeps whatever the keys, `BTreeIndex.Valid` adds key order and the
agreement of the two views. A page is a record of its fields, not bytes. On an internal page whose number of
children is not its number of keys plus one, which no file reaches, the insertion function is the identity.

UTF-8 masks and shifts are stated as ranges, products and remainders; `Utf8.Masks` and `Utf8.Shifts` say the
two agree on machine words. Strings are those up to the terminator, and JSON text is over characters that
stand for bytes. The reader of numbers (`strtod`) is exact on plain integers up to 2^53 and otherwise any
function.

## Model

| member | source | states |
|---|---|---|
| BTreeModel.InsShape | lib/index/btree.c:119-242 | every insertion keeps all leaves at one depth and every page within its capacity and at least half full, and a split yields two such halves |
| BTreeModel.InsOccurs | lib/index/btree.c:142-160 | every insertion exchanges, in the leaves of the tree, exactly the page the descent ends at for its replacement or its two halves |
| BTreeModel.InsUses | lib/index/btree.c:78-83 | an insertion leaves every old page used as often as before and uses each page it allocates exactly once |
| BTreeOrder.SlotOfPromoted | lib/index/btree.c:169-170 | on an ordered page the slot searched again for the promoted key is the descended child, unless that key equals the separator to its right |
| BTreeOrder.InsOrdered | lib/index/btree.c:214-242 | without a clash insertion keeps left subtree <= separator <= right subtree at every page, and the leaves run in the order the chain wants |
| BTreeOrder.ClashDisorder | lib/index/btree.c:169-170 | with a clash two leaves end up in the tree in the opposite order of their links in the chain |
| BTreeIndex.InsertSound | lib/index/btree.c:245-264 | any insertion with any key keeps depth, capacities, single use of every page, the set of leaves on the chain and the key counter |
| BTreeIndex.InsertKeepsAll | lib/index/btree.c:245-264 | any insertion adds exactly its own pair to the pairs in the leaves, even where it breaks their order |
| BTreeIndex.InsertValidIff | lib/index/btree.c:214-264 | an insertion into a valid index leaves a valid one if and only if no full page on its way down pushes up the separator to its right |
| BTreeIndex.QueryRight | lib/index/btree.c:267-304 | on a valid index the left-on-equality descent and the early-stopping walk along the chain return exactly the offsets with lo <= key <= hi, in key order, cut to 131072 |
| BTreeIndex.HeightBound | lib/index/btree.c:142-261 | a tree with h >= 1 internal levels holds at least 2 * 171^(h-1) * 128 entries |
| BTreeRuns.RunSound | lib/index/btree.c:245-264 | after any run of insertions the file is sound and nkeys is the number of insertions |
| BTreeRuns.RunKeepsAll | lib/index/btree.c:245-264 | after any run the leaves hold each inserted pair as often as it was inserted |
| BTreeRuns.RunValidIff | lib/index/btree.c:245-264 | all states of a run are valid if and only if no insertion of it clashes |
| BTreeRuns.ClashMany | lib/index/btree.c:169-225 | a clash needs some key to be held at least 129 times |
| BTreeRuns.SafeRunValid | lib/index/btree.c:245-264 | after a safe run the index is valid and its entries are the stable sort of the insertions by key |
| BTreeRuns.SafeRunQuery | lib/index/btree.c:283-304 | after a safe run a range query returns the stable sort of the run restricted to the range, cut to capacity |
| BTreeRuns.SafeRunLookup | lib/index/btree.c:307-309 | after a safe run a lookup returns the offsets inserted under the key in insertion order, cut to capacity |
| BTreeRuns.InRangeSelects | lib/index/btree.c:295-299 | a range means the offsets of just the entries with lo <= key <= hi, in the order of the entries |
| BTreeRuns.SafeRunWhole | lib/index/btree.h:16-17 | after a safe run a range of at most 131072 entries is answered whole, a longer one by its first 131072 |
| BTreeRuns.FewCopiesSafe | lib/index/btree.c:214-264 | a run with at most 128 copies of any key, distinct keys in particular, is safe |
| BTreeRuns.AscendingSafe | lib/index/btree.c:214-264 | a run in nondecreasing key order, duplicates allowed, is safe |
| BTreeDuplicates.BadLookup | lib/index/btree.c:169-170 | after a run of 385 insertions with 129 copies of a key a lookup of it finds 128 |
| BTreeDuplicates.CopiesThreshold | lib/index/btree.h:24-28 | all lookups are right after every run with at most m copies of each key if and only if m <= 128 |
| BTreePages.LeafBuf.Find | lib/index/btree.c:125-126 | the slot loop of a leaf stops after all keys <= key |
| BTreePages.LeafBuf.Put | lib/index/btree.c:128-134 | insertion into a leaf with room puts the entry at its slot and moves the rest up by one |
| BTreePages.LeafBuf.Divide | lib/index/btree.c:136-160 | a full leaf and the entry are cut at 128; the right half takes the old link, the left one links to it; the first right key goes up |
| BTreePages.IntBuf.Find | lib/index/btree.c:169-170 | the slot loop of an internal page steps past equal keys |
| BTreePages.IntBuf.Put | lib/index/btree.c:172-181 | insertion into a page with room puts key and child at their slots and moves the rest up by one |
| BTreePages.IntBuf.Widen | lib/index/btree.c:185-192 | the temporary arrays hold the keys and children of a full page with the new ones in place |
| BTreePages.IntBuf.Divide | lib/index/btree.c:183-210 | a full page is cut at its middle key, which goes up and into neither half |
| BTreeFile.BTree.AllocPg | lib/index/btree.c:78-83 | the next page number, a blank page there, nothing else touched |
| BTreeFile.BTree.FlushHdr | lib/index/btree.c:86-92 | the header page holds root, key and page counters |
| BTreeFile.BTree.LeafInsert | lib/index/btree.c:119-161 | the leaf's page, and on a split the new one, hold what the model's leaf insertion says; the chain of links is spliced accordingly; other pages are as before |
| BTreeFile.BTree.IntInsert | lib/index/btree.c:166-241 | the internal page, and on a split the new one, hold the keys and children with the new ones in place, cut at the middle key |
| BTreeFile.BTree.DoInsert | lib/index/btree.c:214-242 | the recursive descent over pages turns the pages of a subtree into those of the model's insertion and leaves all others alone |
| BTreeFile.BTree.NewRoot | lib/index/btree.c:250-260 | a new page above the two halves becomes the root |
| BTreeFile.BTree.Insert | lib/index/btree.c:245-264 | every insertion, with any key, leaves the file storing the index that the run of insertions describes |
| BTreeFile.BTree.FindLeafGe | lib/index/btree.c:267-279 | the loop ends at the leaf the model's descent ends at |
| BTreeFile.BTree.ScanPage | lib/index/btree.c:295-299 | one page adds exactly its part of the scan, and stops it for good at a key above hi or when the buffer is full |
| BTreeFile.BTree.Follow | lib/index/btree.c:291-301 | the walk along the links terminates and collects the scan of the rest of the chain, cut to capacity |
| BTreeFile.BTree.Range | lib/index/btree.c:283-304 | after a safe run: the offsets in range, in key order, equal keys in insertion order, cut to capacity |
| BTreeFile.BTree.Lookup | lib/index/btree.c:307-309 | after a safe run: the offsets inserted under the key, in insertion order, cut to capacity |
| BTreeFile.BTree.Count | lib/index/btree.c:356-356 | the number of insertions |
| BTreeFile.BTree.constructor | lib/index/btree.c:312-330 | a new file stores the empty index |
| BTreeFile.Open | lib/index/btree.c:333-346 | opening fails exactly without the magic number and otherwise finds the stored index again |
| RobinHood.BackRun | lib/core/hashmap.c:1-4 | behind an entry p places from home the slots back to its home are taken, by entries correspondingly far from theirs |
| RobinHood.NotBefore | lib/core/hashmap.c:82-87 | a free slot, or an entry nearer home than the probe has gone, proves the key absent |
| RobinHood.Swap | lib/core/hashmap.c:36-36 | exchanging the entry in flight for a richer one keeps the invariant and leaves a well placed entry in flight |
| RobinHood.Advance | lib/core/hashmap.c:37-37 | going on past an entry at least as poor keeps the entry in flight well placed and comes nearer to a free slot |
| RobinHood.HoleShift | lib/core/hashmap.c:103-108 | moving the next entry back into the hole keeps the invariant but for the slot behind the new hole |
| RobinHood.HoleEnd | lib/core/hashmap.c:106-106 | when the next entry is at home or missing the hole can stay, and the invariant holds everywhere |
| HashMap.InsertSlot | lib/core/hashmap.c:30-39 | the displacement loop terminates, keeps stored distances right and chains unbroken, and adds exactly the new pair |
| HashMap.Rehash | lib/core/hashmap.c:42-53 | rehashing into twice the capacity keeps the map and the invariant |
| HashMap.FindAny | lib/core/hashmap.c:57-66 | the search up to a free slot finds the key exactly when it is in the map |
| HashMap.FindEarly | lib/core/hashmap.c:77-88 | the search that stops early on distance finds the key exactly when it is in the map |
| HashMap.BackShift | lib/core/hashmap.c:97-113 | backward shifting terminates and removes exactly that key, with no mark left behind |
| HashMap.HashMap.constructor | lib/core/hashmap.c:20-26 | an empty map over the least power of two that is at least 8 and the asked capacity |
| HashMap.HashMap.Set | lib/core/hashmap.c:56-73 | the map with the key set; growth at three quarters, so that a slot stays free |
| HashMap.HashMap.Get | lib/core/hashmap.c:76-87 | the value of the map, or none |
| HashMap.HashMap.Del | lib/core/hashmap.c:91-118 | the map without the key, and whether it was there |
| HashMap.HashMap.Clear | lib/core/hashmap.c:121-129 | the empty map |
| HashMap.HashMap.NextEntry | lib/core/hashmap.c:144-149 | the next taken slot at or after the index, or -1 when there is none |
| HashMap.HashMap.Drain | lib/core/hashmap.c:144-149 | iterating from 0 to -1 yields each live key once, with its value |
| Levenshtein.NextRow | lib/qengine/qengine.c:103-110 | one pass of the inner loop turns the row of distances to x[..i] into that to x[..i+1] |
| Levenshtein.Distance | lib/qengine/qengine.c:98-113 | the two-row, swapping computation is the recursive edit distance |
| Levenshtein.Symmetric | lib/qengine/qengine.c:94-114 | the distance is symmetric |
| Levenshtein.ZeroIffEqual | lib/qengine/qengine.c:94-114 | the distance is zero exactly on equal sequences |
| Levenshtein.Triangle | lib/qengine/qengine.c:94-114 | the triangle inequality |
| Levenshtein.Bounds | lib/qengine/qengine.c:94-114 | the distance lies between the difference and the maximum of the lengths |
| Levenshtein.LeastEdits | lib/qengine/qengine.c:90-94 | the distance is the least number of single-element insertions, deletions and replacements that turn one sequence into the other |
| FuzzyMatch.TextDistance | lib/qengine/qengine.c:94-114 | on byte strings the distance is that of the decoded code points |
| FuzzyMatch.DistanceOfText | lib/qengine/qengine.c:90-94 | on encoded text the distance counts characters, whatever their number of bytes |
| FuzzyMatch.ZeroOnText | lib/qengine/qengine.c:94-114 | on strings the encoder can write, well-formed UTF-8 in particular, distance zero is equality of the bytes |
| FuzzyMatch.ZeroOffText | lib/qengine/qengine.c:55-63 | on other bytes different strings can be at distance zero |
| JaroWinkler.Match | lib/qengine/qengine.c:129-138 | the loops mark what the greedy matching marks, and the marks are an injective pairing of equal characters within the window, equally many in both texts |
| JaroWinkler.Transpositions | lib/qengine/qengine.c:140-146 | the unguarded inner loop never leaves its array, and the result is the number of places in which the marked characters of the two texts, taken in order, differ |
| JaroWinkler.Similarity | lib/qengine/qengine.c:122-153 | over reals the loops compute the average of the three shares, of matches and transpositions, plus a tenth of what is missing for each character of the common start |
| JaroWinkler.ScoreMeans | lib/qengine/qengine.c:116-117 | the score lies in [0, 1], is 1 if and only if the texts are equal, and, on texts that are not empty, 0 if and only if no two equal characters are within the window |
| JaroWinkler.TextSimilarity | lib/qengine/qengine.c:122-125 | the score of two byte strings is that of their code points |
| JaroSwap.MeetWithin | lib/qengine/qengine.c:127-136 | equal characters may be paired at the same place, or d places apart with 2 (d + 1) no more than the length of the longer text |
| JaroSwap.SwapCosts | lib/qengine/qengine.c:136-152 | exchanging neighbours i and i + 1 in a text of n >= 4 different characters scores 1 - (1 - p / 10) / (3 n), p the lesser of i and 4 |
| Utf8.ShapePut | lib/core/textenc.c:185-199 | an encoded code point reads back from the head of any bytes it starts, in both decoders |
| Utf8.PutShape | lib/core/textenc.c:112-132 | an accepted character is a scalar value and its bytes are the ones the encoder writes |
| Utf8.PutForm | lib/core/textenc.c:185-199 | the bytes of a code point: a first one that tells their number, then six bits each, the highest first |
| Utf8.DecodeEncode | lib/core/textenc.c:107-199 | validating and decoding what was encoded from scalar values gives them back |
| Utf8.EncodeDecode | lib/core/textenc.c:107-199 | what the validator accepts is the encoding of the scalar values it reads |
| Utf8.IsUtf8 | lib/core/textenc.c:107-135 | accepts a byte string if and only if it is a concatenation of encodings of scalar values |
| Utf8.QeDecodeInto | lib/qengine/qengine.c:44-68 | the loop fills a buffer of as many code points as bytes with the lenient reading |
| Utf8.QeDecodeEncode | lib/qengine/qengine.c:44-68 | the query engine's decoder undoes the encoder |
| Utf8.WellFormedReadings | lib/qengine/qengine.c:44-68 | on well-formed strings both decoders agree |
| Utf8.QeDecodeFaithful | lib/qengine/qengine.c:40-43 | encoding what was decoded gives the string back if and only if each of its characters has the shape of one and is in its shortest form |
| Utf8.CanonicalEncoded | lib/core/textenc.c:185-199 | these strings are exactly those the encoder can write |
| Utf8.QeDecodeMerges | lib/qengine/qengine.c:55-55 | a stray byte decodes to the same code point as a proper character |
| TextEnc.PutAt | lib/core/textenc.c:185-199 | the encoder appends the encoding and returns its length |
| TextEnc.FromSingleByte | lib/core/textenc.c:201-216 | at most three bytes a character, within the buffer, and well-formed UTF-8 for exactly the table's characters |
| TextEnc.Tables | lib/core/textenc.c:12-67 | no table holds a surrogate, and what a high byte stands for takes more than one byte |
| TextEnc.FromUtf16 | lib/core/textenc.c:218-240 | at most two bytes for each byte of any input, within the buffer, encoding the code points read |
| TextEnc.ReadWrite16 | lib/core/textenc.c:223-234 | the UTF-16 form of scalar values, in either byte order, is read back as them |
| TextEnc.TranscodesExactly | lib/core/textenc.c:218-240 | the output is well-formed UTF-8 if and only if the input, less an odd last byte, is well-formed UTF-16, and then has the same scalar values |
| TextEnc.Room16 | lib/core/textenc.c:220-220 | the buffer of twice the input length suffices |
| TextEnc.Detect | lib/core/textenc.c:157-182 | a byte-order mark decides, then validity of the probe, then the best positive score |
| TextEnc.ToUtf8 | lib/core/textenc.c:242-272 | the conversion asked for or detected, of the text without its mark |
| TextEnc.Utf8LeftAlone | lib/core/textenc.h:49-51 | UTF-8 without a mark is left alone exactly when the probe is well formed or no table scores on it; always up to 65536 bytes |
| TextEnc.LongTextChanged | lib/core/textenc.c:164-179 | a well-formed text of 65537 bytes that the conversion changes |
| TextEnc.MarkTakenOff | lib/core/textenc.c:247-251 | only the mark is taken off text that begins with the UTF-8 one |
| TextMeaning.MarkedText | lib/core/textenc.c:242-258 | a file in UTF-16 with its mark, in either byte order, is converted to its text |
| TextMeaning.AskedText | lib/core/textenc.c:247-258 | UTF-16 without a mark, asked for, is converted to its text if and only if its first bytes are no mark of any encoding |
| TextMeaning.AskedTextLost | lib/core/textenc.c:98-105 | two characters in UTF-16LE that look like the mark of UTF-8 are lost |
| TextMeaning.AskedBytes | lib/core/textenc.c:247-256 | text in a single-byte encoding, asked for, is converted byte for byte if and only if its first bytes are no mark of any encoding |
| TextMeaning.Cp1251Letters | lib/core/textenc.c:12-29 | in Windows-1251 the bytes from 0xC0 on are the letters from U+0410 on |
| TextMeaning.Cp866Letters | lib/core/textenc.c:31-48 | in CP866 the letters lie at 0x80 to 0xAF and 0xE0 to 0xEF |
| TextMeaning.Koi8rLetters | lib/core/textenc.c:50-67 | in KOI8-R the letters lie from 0xC0 on in the order of RFC 1489, the capitals 0x20 bytes further |
| TextMeaning.Cp1251Text | lib/core/textenc.c:201-216 | letters of Windows-1251 and ASCII come out as U+0410 to U+044F and as themselves |
| TextMeaning.UndefinedByte | lib/core/textenc.c:211-212 | the byte 0x98, undefined in Windows-1251, comes out as U+FFFD |
| TextMeaning.ScoreFits | lib/core/textenc.c:142-155 | a text scores three for each byte past 0x7F at most, and just that if all of them are Russian letters |
| TextMeaning.FirstFit | lib/core/textenc.c:170-182 | detection takes the first of Windows-1251, CP866, KOI8-R in which all bytes past 0x7F are letters, if there is one |
| TextMeaning.Koi8rDetected | lib/core/textenc.c:170-182 | text of Russian letters in KOI8-R is taken for such if and only if it has the letter io and a letter that is none in CP866 |
| TextMeaning.Cp866Detected | lib/core/textenc.c:170-182 | text of Russian letters in CP866 is taken for such if and only if it has a letter that is none in Windows-1251 |
| TextMeaning.Koi8rMisread | lib/core/textenc.c:170-182 | text in KOI8-R without the letter io is read as Windows-1251, and every letter of it wrong |
| JsonText.ReadEscapedAll | lib/core/json.c:60-73 | a string written with escapes is read back, over all bytes |
| JsonRoundTrip.ReadDecimal | lib/core/json.c:75-78 | an integer up to 2^53 written in decimal is read back with just its digits taken |
| JsonRoundTrip.ReadBack | lib/core/json.c:137-258 | in any surroundings the parser reads the text of a tree back as the tree and stops right behind it |
| JsonRoundTrip.RoundTrip | lib/core/json.c:260-263 | json_parse terminates on the text of every writable tree and returns the tree |
| JsonRoundTrip.TextInjective | lib/core/json.c:30-78 | different writable trees have different texts |
| JsonRoundTrip.KeySurvives | lib/core/json.c:47-52 | a key is read back up to its closing quote if and only if it holds no quote and no backslash |
| JsonRoundTrip.QuoteEndsKey | lib/core/json.c:47-52 | a key that holds a quote is read only up to it |
| JsonRoundTrip.Shrinks | lib/core/json.c:135-141 | a string never decodes to more than the text it takes |
| JsonReturns.ReturnsIff | lib/core/json.c:189-258 | the parser returns if and only if a single pass, with a stack of open brackets, meets no place inside one where neither a value nor a separator nor the closing bracket stands |
| JsonReturns.ArrayTurn | lib/core/json.c:197-204 | a turn of the array loop leaves the place where it was if and only if no value, comma or closing bracket stands there, and then the loop never ends |
| JsonReturns.ObjectTurn | lib/core/json.c:219-234 | so with the object loop where no value, comma, colon or closing brace stands |
| JsonReturns.NeverReturns | lib/core/json.c:189-238 | any array or object that opens on such a place is never read |
| JsonReturns.OpenBracket | lib/core/json.c:197-204 | the parser does not return on `[x` nor on `{x` |
| JsonGrammar.ReadPieces | lib/core/json.c:137-186 | a string of RFC 8259 with any escapes is read to its closing quote |
| JsonGrammar.StringRight | lib/core/json.c:146-177 | it is read as the code points it stands for, in UTF-8, if and only if it has no \b, no \f and no surrogate pair |
| JsonGrammar.ReadToken | lib/core/json.c:251-256 | a number of RFC 8259 is taken whole, whatever ends it, if the library reads such numbers whole |
| JsonGrammar.ReadForm | lib/core/json.c:137-258 | every value of RFC 8259, with blanks between its tokens, is read to its end and as the tree of its text |
| JsonGrammar.ReadDocument | lib/core/json.c:260-263 | json_parse returns on the text of every form of RFC 8259, with the tree that is meant if and only if no string in the form has a \b, a \f or a surrogate pair |
| JsonGrammar.BackspaceMisread | lib/core/json.c:146-177 | the text of a backspace is read as the letter b |
| JsonUnique.NumberUnique | lib/core/json.c:251-256 | two numbers of RFC 8259, each ended by a blank, a comma, a bracket or the end of the text, that make the same text are the same number |
| JsonUnique.PiecesUnique | lib/core/json.c:137-186 | strings with the same text have the same characters and escapes, a high and a low half next to each other being one pair |
| JsonUnique.FormUnique | lib/core/json.c:189-258 | values with the same text, blanks included, are the same form and end at the same place |
| JsonUnique.DocUnique | lib/core/json.c:260-263 | a document has one form at most |
| JsonUnique.ReadText | lib/core/json.c:260-263 | json_parse returns on every text of RFC 8259, and of it with control characters in strings, with what the text means if and only if no string in the text has a \b, a \f or a surrogate pair |
| JsonUnique.PairIsOne | lib/core/json.c:153-175 | the text of a surrogate pair is one pair and not two units |
| JsonUnique.SomeLibrary | lib/core/json.c:251-256 | there are readers of numbers that take those of RFC 8259 whole: the one that takes the longest run of digits, signs, points and exponent marks |
| JsonUnique.IsDocumentIff | lib/core/json.c:260-263 | the texts of RFC 8259 are those of the forms with no control character as it is in a string |
| JsonWritten.EscapedPiece | lib/core/json.c:63-70 | each character is written as one piece of the grammar, never a bare control character, and that piece means the character |
| JsonWritten.EscapedPieces | lib/core/json.c:60-73 | so with strings: what is written means the string, over all bytes |
| JsonWritten.DecimalNumber | lib/core/json.c:75-78 | an integer is written as a number of RFC 8259 |
| JsonWritten.Written | lib/core/json.c:30-108 | the text of a tree is that of a form of the grammar, control characters in keys aside |
| JsonWritten.WrittenIsJson | lib/core/json.c:30-108 | the text written for a tree means that tree, and is JSON if and only if no key holds a control character |
| JsonWritten.LineFeedInKey | lib/core/json.c:47-52 | a key with a line feed is written as it is, which is no JSON |
| JsonWritten.EscapedExample | lib/core/json.c:60-73 | the bytes written for a line feed, a quote and a control character |
| JsonBuilder.JBuf.Ensure | lib/core/json.c:14-20 | room for the bytes to come, in place or in an array of twice the capacity, the bytes asked for and 64, into which what was written has been copied |
| JsonBuilder.JBuf.Comma | lib/core/json.c:30-35 | a comma unless the last byte opens a bracket or ends a key |
| JsonBuilder.JBuf.Key | lib/core/json.c:47-52 | appends the key as it is, after a comma where one is due |
| JsonBuilder.JBuf.Strn | lib/core/json.c:60-73 | appends the escaped string, after a comma where one is due |
| JsonBuilder.LastOf | lib/core/json.c:28-35 | after any whole value the comma rule gives a comma |
| JsonBuilder.JBuf.Write | lib/core/json.c:30-108 | the natural calls for a tree append exactly its text |
| JsonBuilder.WriteThenParse | lib/core/json.c:30-263 | a tree written into an empty buffer and parsed comes back |
| JsonParser.ParseString | lib/core/json.c:137-186 | the loop decodes the string within the buffer it allocated, never reading past the terminator |
| JsonParser.EscapeInto | lib/core/json.c:146-179 | one escape, hexadecimal ones in UTF-8, within the buffer |
| JsonParser.Parser.ParseArray | lib/core/json.c:189-208 | the loop reads the items the text means, or reports that it would repeat for ever |
| JsonParser.Parser.ParseItemLoop | lib/core/json.c:197-204 | the loop collects the items in order and ends at the closing bracket or the end of the text |
| JsonParser.Parser.ParseObject | lib/core/json.c:210-238 | the same for the members of an object |
| JsonParser.Parser.ParseKey | lib/core/json.c:228-231 | a key, its colon and the blanks around it |
| JsonParser.Parser.ParseMemberLoop | lib/core/json.c:220-235 | the loop collects the members in order |
| JsonParser.Parser.ParseValue | lib/core/json.c:241-258 | the imperative parser is the parser on what is left of the text |
| ThreadPool.AccountsKept | lib/core/threadpool.c:17-31 | every step keeps tasks in submission order and each task waiting, queued, running or finished as often as handed in |
| ThreadPool.ForgottenKept | lib/core/threadpool.c:13-33 | every step keeps some worker up while work is queued, and work queued or active while anyone sleeps on cond_idle |
| ThreadPool.DrainedKept | lib/core/threadpool.c:15-16 | workers leave only after shutdown and after all tasks submitted before it have started |
| ThreadPool.Safety | lib/core/threadpool.c:9-96 | in every reachable state tasks have started in submission order, none twice or lost, and the queue is within its bound until shutdown |
| ThreadPool.WaitQuiescent | lib/core/threadpool.c:77-81 | tp_wait returns only when every task submitted so far is done |
| ThreadPool.WhoSleeps | lib/core/threadpool.c:13-79 | a submitter sleeps just before a full queue until the shutdown, a waiter just while work is queued or active, a worker just when there is none; workers leave just when there is none after the shutdown |
| ThreadPool.RestingDone | lib/core/threadpool.c:9-96 | when nothing can move and no task came after the last worker left, every call has returned and every task was run as often as handed in |
| ThreadPool.RunBounded | lib/core/threadpool.c:9-96 | every schedule without spurious wakeups has a length bounded by its start |
| ThreadPool.AllSchedulesComplete | lib/core/threadpool.c:9-96 | every schedule of a finite set of calls ends, and ends with all calls returned and all tasks run, unless one came too late |
| ThreadPool.NeverLate | lib/core/threadpool.c:85-91 | without tp_destroy no task comes too late |
| ThreadPool.LateForGood | lib/core/threadpool.c:9-37 | once a task has entered the queue after the last worker left, nothing ever starts again |
| ThreadPool.AllRunIff | lib/core/threadpool.c:9-96 | where a schedule ends, every task has been run if and only if none entered the queue after the last worker had left |
| ThreadPool.LateTaskLost | lib/core/threadpool.c:64-75 | it happens: one worker, told to stop, leaves before a task comes in |
| ConnPool.ScanWorks | lib/connector/conn_pool.c:216-240 | the scan frees only idle slots of another configuration, takes only an idle session of the same one, and finds a slot to reopen or counts leased ones |
| ConnPool.CoreKept | lib/connector/conn_pool.c:58-379 | every step keeps exactly one holder for each leased slot, labels that match sessions, and each holder's session in its slot |
| ConnPool.LeaseUntouched | lib/connector/conn_pool.c:58-80 | a step of another thread never closes, replaces or takes a session on lease; at most it takes the slot's label |
| ConnPool.AcquireSleeps | lib/connector/conn_pool.c:265-292 | acquire goes to sleep only while some slot is leased |
| ConnPool.AsleepAfter | lib/connector/conn_pool.c:187-188 | every end of a lease wakes the sleepers |
| ConnPool.Safety | lib/connector/conn_pool.c:205-292 | in every reachable state a leased slot has exactly one holder, and a holder's session was opened for the connection and configuration it asked for |
| ConnPool.ClosedUnleased | lib/connector/conn_pool.c:105-127 | the pool is taken down only when nothing is leased |
| ConnPoolRuns.AllSchedulesEnd | lib/connector/conn_pool.c:205-379 | every schedule of finitely many calls that return their leases ends with every call returned |
| ConnPoolRuns.InvalidationSticks | lib/connector/conn_pool.c:325-341 | a session that lost its label never gets it back and is never given to anyone who did not have it then |
| ConnPoolRuns.InvalidatedClosed | lib/connector/conn_pool.c:299-323 | at rest every session that lost its label has been closed, unless an invalidation ever hit a slot under ping |
| ConnPoolRuns.DeadLeaseEnds | lib/connector/conn_pool.c:299-377 | the end of a lease closes an invalidated session, exactly unless it was a ping that found it alive |
| ConnPoolRuns.InvalidationUndone | lib/connector/conn_pool.c:148-151 | a slot that is being opened when its connection is invalidated gets its label back |
| ConnPoolRuns.LabelLimit | lib/connector/conn_pool.c:249-281 | no more than max_per_conn slots carry one label, in runs in which no invalidation hits a slot before its opener wrote its labels again |
| ConnPoolLimit.ScanNone | lib/connector/conn_pool.c:216-240 | the scan finds nothing to reuse if and only if no slot with the label is idle, and then leaves the connection only slots on lease |
| ConnPoolLimit.LimitStep | lib/connector/conn_pool.c:205-292 | a connection within its limit is taken past it by exactly one kind of step: an acquire that finds max_per_conn of its slots on lease, fewer of them with its own label, none of these idle, and room in the pool |
| ConnPoolLimit.LimitIff | lib/connector/conn_pool.h:33-34 | in every run from an empty pool a connection keeps to its limit at all times if and only if no caller ever finds it so |
| ConnPoolLimit.SessionLimit | lib/connector/conn_pool.h:33-34 | a connection asked for with one configuration, and never invalidated while on lease, never has more live sessions than max_per_conn |
| ConnPoolExamples.TwoConfigurations | lib/connector/conn_pool.h:39-47 | with two configurations, and no invalidation, a connection gets two live sessions where one is allowed |
| ConnPoolExamples.InvalidatedInUse | lib/connector/conn_pool.c:325-341 | so it does with one configuration when it is invalidated while its session is in use |
| ConnPoolExamples.PingKeepsInvalidated | lib/connector/conn_pool.c:364-377 | a session invalidated under ping stays open after every call has returned |
| ConnPoolExamples.OpeningUndoesInvalidation | lib/connector/conn_pool.c:148-150 | an invalidation during opening is undone, and the session limit is exceeded |
| ConnPoolSessions.ScanStops | lib/connector/conn_pool.c:216-240 | the scan stops at the first idle session of the configuration, having freed just the idle slots of others before it |
| ConnPoolSessions.ClosedIff | lib/connector/conn_pool.c:105-379 | exactly which steps close a session: its return as broken or after an invalidation, a ping without answer, an opening that fails, an invalidation that finds it idle, an acquire with another configuration or that has no other slot, and the end of the pool |
| ConnPoolSessions.BrokenNeverAgain | lib/connector/conn_pool.c:316-320 | in every run a session given back as broken is never in a slot again |
| ConnPoolSessions.SilentNeverAgain | lib/connector/conn_pool.c:364-371 | so with one that did not answer a ping |
| ConnPoolSessions.InvalidationLeaves | lib/connector/conn_pool.c:325-341 | an invalidation leaves just the sessions of other connections and those on lease, and takes the labels of these |
| ConnPoolSessions.GivenFirst | lib/connector/conn_pool.c:230-239 | an acquire is given the first idle session of its configuration if there is one |
| ConnPoolSessions.GivenNone | lib/connector/conn_pool.c:244-291 | otherwise it is told of a recent failure, opens in a slot of its own, opens in a free slot while below the limit, or waits, each in exactly its case |
| ConnPoolSessions.HealthyServes | lib/connector/conn_pool.c:312-315 | a session given back in order stays open and serves the next caller of its configuration |
| ConnPoolSessions.PingsIff | lib/connector/conn_pool.c:349-358 | the keepalive round takes on lease and pings just the idle sessions that are due |
| Proto.WriteAll | lib/cluster/proto.c:15-26 | under every schedule of short writes, signals and failures a prefix goes out, all of it exactly on success |
| Proto.ReadAll | lib/cluster/proto.c:29-41 | under every schedule exactly the asked bytes are taken on success, and end of stream fails |
| Proto.FrameBack | lib/cluster/proto.c:45-88 | a frame is received as its message, whatever follows, exactly when its body is within 64 MiB |
| Proto.FrameBytes | lib/cluster/proto.c:45-58 | the bytes of a frame: mark, version, kind, request and length with the highest byte first, zeros, body |
| Proto.CutFrame | lib/cluster/proto.c:63-88 | a frame cut short is never taken for a message |
| Proto.Send | lib/cluster/proto.c:45-58 | the whole frame goes out or a strict prefix of it |
| Proto.Receive | lib/cluster/proto.c:63-88 | under every schedule a message received is what the bytes decode to, and just its frame is taken |
| Replication.BodyBack | lib/cluster/replicator.c:30-36 | the record body decodes to the record |
| Replication.BodyBytes | lib/cluster/replicator.c:30-36 | the bytes of a body: the name filled up with zeros, number and length with the lowest byte first, the data |
| Replication.Ring.Enqueue | lib/cluster/replicator.c:140-163 | the ring appends the record, or drops it when full |
| Replication.Ring.Dequeue | lib/cluster/replicator.c:72-76 | the ring gives the oldest record |
| Replication.CoreKept | lib/cluster/replicator.c:21-89 | every step keeps at most one undecoded record on each connection and each record decoded at most once |
| Replication.OrderedKept | lib/cluster/replicator.c:21-57 | every step keeps arrival in queue order while no connection is opened over a whole unread message |
| Replication.Delivery | lib/cluster/replicator.c:62-163 | under every schedule the replica decodes queued records, none twice, in queue order unless connections crossed, and all of them by the time the worker has left unless one was dropped, given up or queued after the worker had left |
| Replication.LostIff | lib/cluster/replicator.c:21-163 | a record is lost by exactly these steps: queued behind 1024 others or after the worker left, or given up for want of a connection, of memory, or of an answer |
| Replication.GetsOn | lib/cluster/replicator.c:62-90 | a worker with something to do can always go on, or its replica can, without losing a record |
| Replication.CanCross | lib/cluster/replicator.c:48-55 | any two records can arrive the other way round |
| ReplicationOrder.OrderIff | lib/cluster/replicator.c:107-163 | under every schedule the replica decodes records in queue order if and only if it never reads from a connection after reading from a later one |
| Pipeline.Filter.Next | lib/qengine/qengine.c:666-695 | the next batch with a row left in it, never an empty one |
| Pipeline.KeptPlaces | lib/qengine/qengine.c:680-689 | what the filter keeps are the rows for which the predicate holds, each as often as it comes and in the order of the input |
| Pipeline.KeptMembers | lib/qengine/qengine.c:680-689 | a row is kept if and only if it is in the input and the predicate holds |
| Pipeline.Limit.Next | lib/qengine/qengine.c:724-757 | one batch of the child, cut by offset and limit |
| Pipeline.Limit.Drain | lib/qengine/qengine.c:724-757 | draining until the end code yields all batches to come |
| Pipeline.LimitedFlat | lib/qengine/qengine.c:724-757 | over any batches: the rows after the offset, up to the limit, a negative one being none |
| Pipeline.WindowRows | lib/qengine/qengine.c:724-757 | row i of the result is row offset + i of the input, as many as there are up to the limit |
| Pipeline.PipelineRight | lib/qengine/qengine.c:666-757 | for every cutting of the input, limit over filter drained to the end is take(limit, drop(offset, filter(rows))) |
| Pipeline.Limit.Exec | lib/qengine/qengine.c:1618-1623 | the driver takes batches up to the first empty one |
| Pipeline.DriverRight | lib/qengine/qengine.c:1623-1623 | the driver gets all rows exactly when the offset ends inside the first filtered batch or nothing is to be had |
| Pipeline.DriverMisses | lib/qengine/qengine.c:1623-1623 | with offset 1 and batches of one row the driver gets none of two rows |
| HashAgg.Agg.FindGroup | lib/qengine/qengine.c:966-982 | the group of the key, a new one behind the others, or -1 past 4096 |
| HashAgg.Agg.Add | lib/qengine/qengine.c:1060-1098 | one row leaves every accumulator equal to the fold over its group's rows |
| HashAgg.Agg.Build | lib/qengine/qengine.c:1056-1101 | all rows up to the first empty batch are tallied, however they are cut |
| HashAgg.Agg.Next | lib/qengine/qengine.c:1134-1180 | one row for each group in the order of first appearance, showing the folds over exactly its rows |
| HashAgg.CountsRight | lib/qengine/qengine.c:987-996 | COUNT(*) is the size of the group, COUNT(x) its non-null arguments, SUM their sum, a text or a boolean counting as whatever number its bytes are read as |
| AggMeaning.SumSteps | lib/qengine/qengine.c:992-995 | SUM begins at zero, and a row adds its number to it, or nothing for a null |
| AggMeaning.NonNullsCount | lib/qengine/qengine.c:987-991 | COUNT(x) is the number of rows in which x is not null |
| AggMeaning.OfSelects | lib/qengine/qengine.c:966-982 | the rows of a group are those with its key, each as often as it comes and in the order of the input |
| HashAgg.AverageRight | lib/qengine/qengine.c:989-991 | AVG is the mean of the non-null arguments, taken as SUM takes them, if and only if none is null or they sum to zero; where all are null it is zero |
| HashAgg.AverageMisses | lib/qengine/qengine.c:989-991 | over the values 1 and null AVG shows one half |
| HashAgg.LessOrders | lib/qengine/qengine.c:1003-1008 | on numbers of one kind, texts or booleans the comparison is a strict total order |
| HashAgg.LeastRight | lib/qengine/qengine.c:997-1015 | MIN is null when all arguments are and otherwise one of them, whatever their kinds; where they are numbers of one kind or texts none is less |
| HashAgg.GreatestRight | lib/qengine/qengine.c:1016-1035 | MAX is null when all arguments are and otherwise one of them, whatever their kinds; where they are numbers of one kind or texts none is greater |
| AggMeaning.TextOrder | lib/qengine/qengine.c:1007-1008 | the comparison of texts is that of dictionaries: the first character that differs decides, or the end of one |
| AggMeaning.MinIsSmallest | lib/qengine/qengine.c:997-1015 | over numbers of one kind MIN shows an argument <= all others, over texts one that none comes before; null only when all are |
| AggMeaning.MaxIsLargest | lib/qengine/qengine.c:1016-1035 | over numbers of one kind MAX shows an argument >= all others, over texts one that comes before none; null only when all are |
| HashAgg.FirstShown | lib/qengine/qengine.c:997-1035 | over booleans MIN and MAX show the first that is not null |
| HashAgg.BooleansRight | lib/qengine/qengine.c:1003-1027 | over booleans MIN is the least if and only if the first is false or none is, and MAX the greatest if and only if the first is true or none is |
| HashAgg.FirstRight | lib/qengine/qengine.c:1087-1096 | a plain column shows its value in the first row of the group |
| HashAgg.GroupsRight | lib/qengine/qengine.c:966-982 | groups are distinct keys of the input in the order of their first rows; their sizes add up to the input if and only if every row has a group, if and only if there are at most 4096 keys; a row without one comes after the first rows of all groups |
| Arena.MaskRounds | lib/core/arena.c:11-11 | on numbers that fit a word the bit mask rounds up to the next multiple of sixteen, as AlignUp does |
| Arena.Arena.Alloc | lib/core/arena.c:38-64 | the new region is aligned, large enough, inside its block and apart from every live one, wherever malloc puts a new block clear of the others; a new block always fits the request |
| Arena.BumpedSound | lib/core/arena.c:43-63 | an allocation keeps regions apart and inside their blocks and moves nothing given out |
| Arena.AllocTight | lib/core/arena.c:38-55 | a region is the size asked for rounded up to sixteen, lies at the first place with room in the block in use, and a new block is taken if and only if there is none |
| Arena.LargeTwice | lib/core/arena.c:57-59 | a block taken for a request past 65536 bytes has room for another one like it |
| Arena.Arena.TakeMark | lib/core/arena.c:105-105 | a mark records the block in use and what is taken of it |
| Arena.Arena.Restore | lib/core/arena.c:109-112 | what was live at the mark is live again, at its place, and the rest is gone |
| Arena.Arena.Reset | lib/core/arena.c:96-101 | nothing is live and only the first block stays |
| Arena.BalancedKeeps | lib/core/arena.c:103-112 | whatever allocations and nested marks and returns come between, what was live stays live |
| Arena.RestoreExact | lib/core/arena.c:103-112 | going back to a mark after anything balanced gives just what was live when it was taken |
| Arena.Safety | lib/core/arena.c:38-112 | in every run the live regions are apart, aligned and inside their blocks |

## Left out

- Page input and output: assumed to succeed; page bytes and the widths of keys, offsets, counters and page numbers are not modelled.
- BTreeFile.BTree.Insert: `btree_close` and the NULL checks of the interface are not modelled; concurrent use is not either.
- HashMap.HashMap.Set: the hash is any function of the key (FNV-1a is one instance); 32-bit overflow of count and capacity, the storage of key copies and `hm_free` are not modelled.
- Levenshtein.Distance: the `int` width of lengths is not modelled.
- JaroWinkler.Similarity: computed over reals; floating-point rounding is not modelled.
- TextEnc.Detect: where bytes past 0x7F are letters in none of the single-byte encodings, the best score decides and nothing more is claimed; encoding names and their parsing are left out.
- JsonGrammar.ReadToken: the value of a number that is no plain integer within 2^53 is whatever the library returns for its text.
- JsonRoundTrip.RoundTrip: doubles, raw fragments, `jb_str` of NULL and the accessors after parsing are not modelled; a key pointer that ends at an embedded zero byte is kept whole.
- JsonGrammar.StringRight: a `\u` escape of half a pair that stands alone, whose meaning RFC 8259 leaves open, is counted as the code point of its number.
- JsonParser.Parser.ParseValue: where the program would loop for ever the model returns Stuck; growth of the item arrays is not modelled.
- ThreadPool.Safety: thread creation, stack sizes and freeing the pool are not modelled; a call after the pool is freed is outside the model.
- ConnPool.Safety: clocks are choices in the events (idle time, throttling of retries, the oldest idle slot as victim); configurations are compared by fingerprint; status reporting is left out.
- ConnPoolRuns.AllSchedulesEnd: assumes that holders give their leases back and that opening and pinging return.
- Replication.Delivery: one replica; the worker serves the others in between. Acknowledgement contents are not checked by the program and not modelled; the packed header is that of a machine that stores the lowest byte first; a payload copy that fails and a record beyond 32-bit length are excluded.
- Replication.Ring.Dequeue: the wait on the condition variable is part of the step system, not of the class.
- Pipeline.Filter.Next: rows are values and the predicate is any function of a row; column layout and null bitmaps are not modelled.
- HashAgg.Agg.Next: keys and arguments are any functions of a row, accumulators are kept by group instead of in flat arrays, sums are over reals, and the typing of output columns from the first group is left out.
- HashAgg.LeastRight: on a mixture of kinds the program compares the bytes of one kind read as another, which is any relation here; nothing is claimed about the order then. So with HashAgg.GreatestRight.
- HashAgg.CountsRight: what number the bytes of a text or a boolean are read as is any function of the value here.
- Arena.Arena.Alloc: malloc succeeds and puts a new block clear of the others, in any place; sizes do not overflow.
- Join, sort, window, scan, SQL expressions, authentication, PostgreSQL wire protocol, materialised views, connectors, networking, logging and the user interface.
