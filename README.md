# Card scanner catalog and matcher, modelled in Dafny

This project models the fingerprint catalog and matching engine of a trading-card
scanner. It proves properties of that model.

The scanner keeps a `cards/` tree of reference images: one directory per set,
one `.png` per card. `CardLoader` scans the tree. It skips hidden entries and
plain files, sorts the set directories by name, and sorts each set's `.png`
files by numeric stem. It gives every loaded card a global id and records four
perceptual hashes (average, wavelet, perceptual and difference hash) of the
image in four orientations (as is, mirrored, flipped, flipped mirror).

`createDatabase` writes the scan out as two parallel JSON files:

- `evolutions_set.json`, the identity index;
- `evolutions_cards.json`, the sixteen hash strings of each card.

`needsDatabaseRegeneration` decides whether those files must be rebuilt.
`compareCards` looks up a captured card:

- it decodes each stored hex hash;
- it takes the Hamming distance to the query hash of the same family;
- it takes the minimum over the four orientations and the maximum over the four families;
- it picks the earliest card with the lowest score;
- it accepts that card when the score is below 22;
- it reports the set record that carries the card's number.

Modules:

- `Wrappers`: `Option` and `Result`.
- `Images`: images as pixel grids, with mirror and flip.
- `HashBits`: hashes as bit sequences, their hex form, and the Hamming distance.
- `FileTree`: the reference tree as a value, the name filters, the file stem and the two sorts.
- `CardLoading`: the class `CardLoader`, with its five lists as fields. Its scan is specified by a fold over the tree (`LoadFile`, `LoadSet`, `LoadSets`, `Scan`), and the lemmas state the invariants that fold keeps.
- `ScanTrace`: which tree entry each scanned card came from, which image each hash tuple was computed from, and the order cards are scanned in.
- `Reductions`: Python's `min`, `max` and `list.index`.
- `CardData`: the staleness rule, the database build and the matcher, each as a method with the source's loop structure, proved against a specification function.
- `Matching`: what a score means, what `compareCards` answers, and that a database built from an aligned catalog finds each card's image again.
- `EndToEnd`: the same property for a catalog produced by scanning the tree, stated about the image of the file each card was loaded from.

External effects are parameters:

- The filesystem is a `CardsTree` value, with integer modification times.
- The two JSON files are `JsonFile` values: `Missing`, `Malformed` or `Written(records, mtime)`.
- Each file's fate is part of the tree. `Image.open` can fail, or one of the four orientation hash calls can raise (`Hashing.FailsAt(k)`).
- The four hash algorithms are the fields of a `Hashers` value. Each is a function from images to 64-bit hashes.
- The clock is a `now` parameter.

Behaviours of the code that the model keeps, which a reader may not expect:

- An empty cards file makes `compareCards` raise on `min([])`. The model answers `Failure(EmptyCatalog)`, not "no match".
- The staleness check builds a full `CardLoader`, which hashes every image. It compares the stored count with the number of images that opened, not with the number of files on disk.
- Nothing checks that the two files agree with each other.
- There is no atomic swap of the files.
- An image that fails partway through hashing leaves the five lists misaligned. The next card reuses the id of the failed one (`PartialFailureReusesId`).

## Model

| member | source | states |
|---|---|---|
| Images.FlipOfMirrorIsHalfTurn | cardLoader.py:114-115 | 'hashudmir' (flip after mirror) turns the image by 180 degrees: pixel (i, j) comes from row n-1-i, column w-1-j |
| Images.MirrorFlipCommute | cardLoader.py:114-115 | mirroring then flipping equals flipping then mirroring |
| Images.ReverseAt | cardLoader.py:110-113 | reversing a row or the row list of length n puts element n-1-i at position i |
| Images.Mirror | cardLoader.py:110-111 | `ImageOps.mirror` keeps the row count; properties in MirrorRow and MirrorPixels |
| Images.MirrorRow | cardLoader.py:110-111 | row i of the mirrored image is row i of the original read right to left |
| Images.MirrorPixels | cardLoader.py:110-111 | mirroring keeps the row count and each row's length, and puts pixel w-1-j of row i at column j |
| Images.Flip | cardLoader.py:112-113 | `ImageOps.flip`: the rows in bottom-to-top order; properties in FlipRows |
| Images.FlipRows | cardLoader.py:112-113 | flipping keeps the row count, and row i of the flipped image is row n-1-i of the original |
| HashBits.HexChar | cardLoader.py:121-124 | each digit `str(hash)` writes decodes to the nibble it encodes |
| HashBits.NibbleValue | cardLoader.py:121-124 | the value of four bits is below 16, and the four bits of that value are the input |
| HashBits.BitsToHex | cardLoader.py:121-124 | `str(hash)` of n bits has n/4 hex digits |
| HashBits.DecodeDigits | cardData.py:170 | digits decode exactly when every character is a hex digit; the result has four bits per digit |
| HashBits.HexToBitsAccepts | cardData.py:170 | `hex_to_hash` accepts exactly the non-empty strings of hex digits whose value fits in `hash_size * hash_size` bits or, when wider, fills whole rows of `hash_size` bits |
| HashBits.HexToBits | cardData.py:170 | `hex_to_hash`: `hash_size = int(sqrt(4 * len(s)))`; the value of the digits in binary, zero-padded to `hash_size * hash_size` bits, cut into rows of `hash_size`; properties in HexToBitsAccepts and HexToBitsValue |
| HashBits.IntSqrtBounds | cardData.py:170 | the `hash_size` computed is the largest k with k * k <= 4 * len(s), and at least 1 for a non-empty string |
| HashBits.SqrtUnique | cardData.py:170 | the integer square root is the only k with k * k <= n < (k + 1) * (k + 1) |
| HashBits.StripZerosSpec | cardData.py:170 | the binary form of the value drops only leading zeros and keeps no leading zero |
| HashBits.StripZerosOfZeros | cardData.py:170 | leading zero bits do not change the value's binary form |
| HashBits.PadToSpec | cardData.py:170 | the `'{:0>{width}b}'` padding adds only leading zeros, up to the width and never truncates |
| HashBits.SquareWholeRows | cardData.py:170 | a square number of bits always fills whole rows of its root |
| HashBits.HexToBitsValue | cardData.py:170 | a parsed hash has the numeric value of its digits, and is `hash_size * hash_size` bits wide unless the value needs more bits |
| HashBits.SquareWidthDecodes | cardData.py:170 | when 4 * len(s) is a perfect square, `hex_to_hash` gives exactly four bits per digit |
| HashBits.PadStripped | cardData.py:170 | padding the value back to the original width restores the original bits |
| HashBits.DecodeLeadingZero | cardData.py:170 | a leading '0' digit contributes four zero bits |
| HashBits.LeadingZeroDigitKeepsHash | cardData.py:170 | a 64-bit hash written with one extra leading '0' (17 digits) still reads back as the same 64 bits, since int(sqrt(68)) is 8 |
| HashBits.RoundTripNeedsSquareWidth | cardLoader.py:121-124 | at width 8, which is not a square, `hex_to_hash(str(h))` is not h: 00001111 reads back as the four bits 1111 |
| HashBits.HexRoundTrip | cardData.py:170 | `hex_to_hash(str(h)) == h` for every non-empty hash whose width is a multiple of 4 and a perfect square |
| HashBits.HashRoundTrip | cardData.py:170 | `hex_to_hash(str(h)) == h` for every 64-bit hash, the width the loader stores |
| HashBits.DigitsRoundTrip | cardData.py:170 | decoding the digits of a hash gives back its bits |
| HashBits.Xor | cardData.py:170 | bit k of the xor is set exactly when the two hashes differ at k |
| HashBits.PopCount | cardData.py:170 | the number of set bits is at most the width, and zero exactly when no bit is set |
| HashBits.Distance | cardData.py:170 | `h1 - h2` is at most the width |
| HashBits.DistanceZeroIffEqual | cardData.py:170 | the distance is 0 exactly when the two hashes are equal |
| HashBits.DistanceSymmetric | cardData.py:170 | `h1 - h2 == h2 - h1` |
| HashBits.TriangleInequality | cardData.py:170-188 | the distance obeys the triangle inequality |
| FileTree.Lower | cardLoader.py:62 | `lower()` keeps the length and lower-cases each character |
| FileTree.IsHidden | cardLoader.py:47 | a name starting with '.' is hidden |
| FileTree.VisibleSets | cardLoader.py:46-47 | the kept entries are exactly the directories whose name does not start with '.' |
| FileTree.VisibleSetsAppend | cardLoader.py:46-47 | the filter keeps listing order: the sets kept from a + b are those kept from a, then those kept from b |
| FileTree.IsPng | cardLoader.py:62 | a name whose lower-cased form ends in `.png` |
| FileTree.PngFiles | cardLoader.py:61-62 | the kept files are exactly those whose lower-cased name ends in `.png` |
| FileTree.PngFilesAppend | cardLoader.py:61-62 | the filter keeps listing order: the files kept from a + b are those kept from a, then those kept from b |
| FileTree.LastDot | cardLoader.py:69 | the position of the last '.' in a name, or -1 when there is none |
| FileTree.Stem | cardLoader.py:69 | `os.path.splitext(name)[0]`: the name up to its last dot, unless only dots precede that dot |
| FileTree.StemIsPrefix | cardLoader.py:69 | the stem is a prefix of the file name |
| FileTree.PngStem | cardLoader.py:69 | `splitext` of a `.png` name drops the last four characters, unless only dots come before them |
| FileTree.LeadingZeroKeepsValue | cardLoader.py:65 | a leading '0' does not change the numeric sort key, so "01.png" and "1.png" tie |
| FileTree.StemKey | cardLoader.py:65 | the sort key of a stem: its decimal value when it is all digits, else 0 |
| FileTree.SortKey | cardLoader.py:65 | the sort key of a file: the key of its stem |
| FileTree.WithKeyAppend | cardLoader.py:65 | the elements of a given key in a concatenation are those of each part, in order |
| FileTree.InsertByKey | cardLoader.py:65 | inserting adds exactly the one element |
| FileTree.InsertByKeySorted | cardLoader.py:65 | inserting into a key-sorted list keeps it sorted |
| FileTree.InsertByKeyWithKey | cardLoader.py:65 | inserting puts the new element after every element with the same key (stability) |
| FileTree.SortByKey | cardLoader.py:65 | `list.sort(key=...)` is sorted by key, is a permutation, and keeps the order of elements with equal keys |
| FileTree.CardFiles | cardLoader.py:61-65 | a set's card files: its `.png` files, sorted stably by numeric stem; properties in CardFilesSorted, CardFilesStable, CardFilesMembers |
| FileTree.CardFilesSorted | cardLoader.py:61-65 | a set's card files come in numeric-stem order, with non-numeric stems as 0 |
| FileTree.CardFilesStable | cardLoader.py:61-65 | files with equal sort keys keep their listing order |
| FileTree.CardFilesMembers | cardLoader.py:61-65 | a set's card files are exactly its `.png` files |
| FileTree.LexLeTotal | cardLoader.py:53 | string order is total |
| FileTree.LexLeTransitive | cardLoader.py:53 | string order is transitive |
| FileTree.LexLeAntisymmetric | cardLoader.py:53 | string order is antisymmetric |
| FileTree.InsertSetSorted | cardLoader.py:53 | inserting a directory by name keeps the list sorted |
| FileTree.SortSets | cardLoader.py:53 | `sets.sort()` is sorted by name and is a permutation |
| FileTree.SetOrder | cardLoader.py:41-53 | the sets visited: none for a missing root, else the visible directories sorted by name; properties in SetOrderSpec |
| FileTree.SetOrderSpec | cardLoader.py:41-53 | the visited sets are sorted, and are exactly the visible directories of an existing root |
| CardLoading.FingerprintOf | cardLoader.py:120-125 | all four algorithms give 64-bit hashes |
| CardLoading.Oriented | cardLoader.py:108-117 | the orientation dispatch of `_get_hashes_for_image`; properties in OrientedDispatch and OrientedShape |
| CardLoading.OrientedShape | cardLoader.py:108-117 | an unknown orientation tag leaves the image as it is; every orientation keeps the row count |
| CardLoading.OrientedDispatch | cardLoader.py:108-115 | 'hash' keeps the image, 'hashmir' mirrors it, 'hashud' flips it, 'hashudmir' flips the mirrored image |
| CardLoading.HashesForImage | cardLoader.py:96-125 | `_get_hashes_for_image` returns exactly four strings |
| CardLoading.HashesForImageDecode | cardLoader.py:108-125 | string f is 16 hex digits and decodes to family f's hash (average, wavelet, perceptual, difference) of the oriented image |
| CardLoading.HashesForImageTuple | cardLoader.py:120-125 | each returned string decodes to a 64-bit hash |
| CardLoading.CompletedSteps | cardLoader.py:84-89 | at most four appends run, and all four run exactly when hashing completes |
| CardLoading.LoadFile | cardLoader.py:68-92 | one file's `try` block as a step on the five lists and the next id; invariants in LoadFileConsistent and LoadFileTrace |
| CardLoading.LoadFileShaped | cardLoader.py:71-92 | loading a file keeps each hash list no longer than the one before it, four strings per tuple, and the next id at one more than the last list's length |
| CardLoading.LoadFileDecodable | cardLoader.py:71-92 | loading a file keeps every stored hash string decodable |
| CardLoading.LoadFileKeepsIdsDense | cardLoader.py:76-89 | when the lists are aligned after loading a file, card k has id k+1 |
| CardLoading.LoadFileConsistent | cardLoader.py:71-92 | one file's `try` block keeps the scan invariant |
| CardLoading.LoadSet | cardLoader.py:58-92 | one set's loop as a fold of LoadFile over its card files; invariants in LoadSetConsistent and LoadSetTrace |
| CardLoading.LoadSets | cardLoader.py:57-92 | the set loop as a fold of LoadSet over the visited sets; invariants in LoadSetsConsistent and LoadSetsTrace |
| CardLoading.LoadSetConsistent | cardLoader.py:67-92 | one set's loop keeps the scan invariant |
| CardLoading.LoadSetsConsistent | cardLoader.py:57-92 | the set loop keeps the scan invariant |
| CardLoading.Scan | cardLoader.py:36-94 | a scan leaves nested, decodable lists; when they are aligned, ids are exactly 1..N in order |
| CardLoading.ScanEmptyWithoutSets | cardLoader.py:36-51 | a missing root, or one with no visible set directory, leaves all five lists empty |
| CardLoading.PartialFailureReusesId | cardLoader.py:71-92 | a file whose hashing raises, followed by a file that loads, adds two cards with the same id and leaves the lists misaligned |
| CardLoading.CardLoader.constructor | cardLoader.py:22-37 | a new loader's five lists are the scan of its root |
| CardLoading.CardLoader.LoadAllCards | cardLoader.py:39-94 | `_load_all_cards` appends the fold of the sorted visible sets to the lists, starting at id 1 |
| CardLoading.CardLoader.LoadSetDirectories | cardLoader.py:55-92 | the set loop appends the fold over the given sets |
| CardLoading.CardLoader.LoadSetDirectory | cardLoader.py:58-92 | one set's loop over its sorted `.png` files appends that set's fold and returns the next id |
| CardLoading.CardLoader.LoadCardFile | cardLoader.py:68-92 | one `try` block leaves the lists and the next id as the fold step prescribes |
| CardLoading.CardLoader.AppendCard | cardLoader.py:76-87 | for an image that opened, the card's metadata is appended, then the hash tuple of each orientation hashed before hashing raised, in list order; the lists of orientations not reached stay as they were |
| CardLoading.CardLoader.GetCardCount | cardLoader.py:127-129 | the count is the length of `cards` |
| CardLoading.CardLoader.GetCardMetadata | cardLoader.py:131-143 | an answer comes exactly for ids 1..count, and it is `cards[id-1]` |
| CardLoading.MetadataHasRequestedId | cardLoader.py:131-143 | on aligned lists the card returned for an id carries that id |
| ScanTrace.OriginsMembers | cardLoader.py:57-73 | the scanned files are exactly the opened card files of the visited sets |
| ScanTrace.HashedCountAll | cardLoader.py:76-89 | all files are fully hashed exactly when the fully hashed count equals the file count |
| ScanTrace.LoadFileTrace | cardLoader.py:68-92 | an opened file appends one card, described by the file; a file that fails to open changes nothing |
| ScanTrace.LoadSetTrace | cardLoader.py:67-92 | a set's loop appends one card per opened file, in file order |
| ScanTrace.LoadSetsTrace | cardLoader.py:57-92 | the whole scan appends one card per opened file, in visiting order |
| ScanTrace.ScanTraced | cardLoader.py:57-92 | card k carries its set's name, the stem of its file and the joined path |
| ScanTrace.OriginsAreOpenedPngs | cardLoader.py:46-73 | every card comes from an opened `.png` in a visible set directory of an existing root |
| ScanTrace.ScanAlignedIffAllHashed | cardLoader.py:71-92 | the five lists end aligned exactly when every opened image hashed in all four orientations |
| ScanTrace.LoadFileHashes | cardLoader.py:71-89 | a fully hashed file that opens appends its image's tuple to each orientation list; a file that fails to open appends nothing |
| ScanTrace.FileListTraced | cardLoader.py:84-87 | one file's append is a traced stretch of an orientation list: one tuple from its image if it opens, none otherwise |
| ScanTrace.ListTracedAppend | cardLoader.py:57-92 | traced stretches of one hash list compose |
| ScanTrace.LoadSetHashes | cardLoader.py:67-92 | when every opened file of a set is fully hashed, each orientation list gains one tuple per opened file, from that file's image |
| ScanTrace.LoadSetsHashes | cardLoader.py:57-92 | the same over all visited sets |
| ScanTrace.ScanHashesTraced | cardLoader.py:71-92 | in an aligned scan, entry k of each of the four hash lists is the hash tuple, in that orientation, of the image of the file card k came from |
| ScanTrace.ScanCardImage | cardLoader.py:71-92 | card i of an aligned scan describes its opened file, and its upright tuple is that file's image hashed as is |
| ScanTrace.OriginsOrdered | cardLoader.py:53-65 | cards come set by set, and within a set in numeric-stem order |
| ScanTrace.ScanSetOrder | cardLoader.py:53-57 | cards come in set-name order |
| ScanTrace.ScanCardOrderInSet | cardLoader.py:61-69 | within a set, cards come in numeric-stem order |
| Reductions.Min | cardData.py:191 | `min` is an element no larger than any other |
| Reductions.Max | cardData.py:192 | `max` is an element no smaller than any other |
| Reductions.IndexOf | cardData.py:196 | `index` is the first position holding the value |
| CardData.CreateDatabase | cardData.py:59-117 | `createDatabase` writes what the build of a fresh loader's scan prescribes |
| CardData.WriteDatabase | cardData.py:66-113 | the record loop and the two writes produce the build of the loader's lists |
| CardData.BuildDatabase | cardData.py:66-113 | the files `createDatabase` writes: none with no cards, else one set record and one card record per card, stamped now, or IndexError on a short hash list; properties in BuildRecords and BuildFailsIffMisaligned |
| CardData.BuildWithNoCardsWritesNothing | cardData.py:66-69 | with no cards, neither file changes |
| CardData.BuildFailsIffMisaligned | cardData.py:77-106 | with cards, the build raises exactly when the last hash list is shorter than `cards` |
| CardData.BuildRecords | cardData.py:77-113 | both files get one record per card, stamped now; record i of each carries card number i+1 and card i's set name and number in set |
| CardData.CardRecordHashes | cardData.py:90-105 | hash field (family f, orientation o) of record i is entry f of tuple i of orientation list o |
| CardData.AnyImageNewer | cardData.py:38-55 | the mtime loop answers true exactly when some visible `.png` is strictly newer than the JSON file, or its time cannot be read |
| CardData.SomeImageNewer | cardData.py:38-53 | a missing root, or a `.png` in a visible set whose time is later than the JSON file's or cannot be read |
| CardData.Stale | cardData.py:8-55 | the regeneration rule in the code's order; properties in MissingFileIsStale, NoCardsNeverStale, BuiltDatabaseFreshUntilNewerImage |
| CardData.NeedsDatabaseRegeneration | cardData.py:8-55 | `needsDatabaseRegeneration` answers: rebuild if a file is missing; not if the scan finds no card; rebuild if the cards file is malformed or its entry count differs from the scan's card count; otherwise rebuild exactly when an image is newer than the cards file |
| CardData.MissingFileIsStale | cardData.py:17-18 | a missing file forces a rebuild |
| CardData.NoCardsNeverStale | cardData.py:21-26 | with both files present and a scan that loads no card (no visible set, or every image fails to open), nothing is rebuilt, whatever the files hold |
| CardData.BuiltDatabaseFreshUntilNewerImage | cardData.py:29-55 | a database just built is stale exactly when an image is newer than its write time; an equal time does not count |
| CardData.HashDistanceSpec | cardData.py:170-188 | a stored hash is comparable exactly when it decodes to the query's width; the distance is then at most the width, and 0 exactly on equality |
| CardData.HashDistance | cardData.py:170 | `hashes[k] - hex_to_hash(s)`: BadHex when the string does not parse, ShapeMismatch on a width other than the query's, else the Hamming distance; properties in HashDistanceSpec |
| CardData.FamilyDistances | cardData.py:170-188 | a family's distance array has four entries |
| CardData.CardScore | cardData.py:149-192 | one card's score: the max over families of the min over orientations, or the first decode error; properties in CardScoreMaxMin |
| CardData.ScoreAll | cardData.py:147-192 | the card loop: the scores in order, or the first card's error; properties in ScoreAllSpec and ScoreAllFailureStays |
| CardData.Scores | cardData.py:147-192 | the card loop with CardScore; properties in ScoresSpec |
| CardData.FindByCardNumber | cardData.py:199-201 | `next(...)` is None exactly when no record has the number; otherwise it is the first record that does |
| CardData.Compare | cardData.py:125-212 | `compareCards`: None for a missing cards file, errors for unreadable files, bad hashes or no cards, else the decision of Answer; properties in CompareFailsIff, CompareOutcome, CompareMatchIsEarliestBest |
| CardData.Answer | cardData.py:194-212 | the decision on the score list: EmptyCatalog for none, None at a best score of 22 or more or a missing set record, else the first set record with the best card's number; properties in AnswerOutcome and AnswerMatchIsEarliestBest |
| CardData.FillDistances | cardData.py:170-188 | the four assignments fill the array with the family's distances, or report the error the first failing decode raises |
| CardData.ScoreAllFailureStays | cardData.py:147-192 | once a card cannot be scored, the whole loop fails with that error |
| CardData.ScoreCards | cardData.py:145-192 | the card loop produces the score list, or the first error |
| CardData.ScoreCard | cardData.py:149-192 | one iteration overwrites the four arrays and yields the card's score |
| CardData.FindSetRecord | cardData.py:199 | the generator search returns the first record with the card number |
| CardData.CompareCards | cardData.py:125-212 | `compareCards` returns the matcher's answer, including its error outcomes |
| Matching.FamilyWithinMin | cardData.py:191 | a family whose minimum distance is at most s has an orientation within s of the query |
| Matching.FamilyAtLeastMin | cardData.py:191 | a family whose minimum distance is at least s has every orientation at least s away from the query |
| Matching.CardScoreDefined | cardData.py:170-192 | a card can be scored exactly when all sixteen stored hashes are comparable |
| Matching.CardScoreMaxMin | cardData.py:191-192 | a card's score s means: every family has an orientation within s, and some family has no orientation closer than s |
| Matching.FamilyWithinZero | cardData.py:170-191 | a family's minimum is 0 exactly when some stored orientation equals the query hash |
| Matching.ExactBoundsAtLeast | cardData.py:191 | an exact orientation forces the family's minimum to 0 |
| Matching.ScoreZeroIffExactInSomeOrientation | cardData.py:170-192 | a card scores 0 exactly when, for every family, some orientation equals the query hash |
| Matching.ScoreAllSpec | cardData.py:147-192 | the loop succeeds exactly when every card can be scored, and then score k belongs to card k |
| Matching.ScoresSpec | cardData.py:147-192 | the score list has one entry per stored card, in order, each that card's score |
| Matching.EarliestBestIsIndexOfMin | cardData.py:194-196 | `index(min(...))` is the one lowest-scoring position that no earlier position ties |
| Matching.AnswerMatchIsEarliestBest | cardData.py:194-211 | a named card is the earliest best, scores below 22, and carries the fields of the first set record with its number |
| Matching.CompareMatchIsEarliestBest | cardData.py:125-211 | when `compareCards` names a card, both files were read, every card was scored, and the card is the earliest best below 22 |
| Matching.AnswerOutcome | cardData.py:194-212 | for the earliest best card b, the answer is None exactly when its score is 22 or more or no set record has number b+1; otherwise it is number b+1 |
| Matching.CompareOutcome | cardData.py:133-212 | with both files read and all cards scored, `compareCards` answers as the decision for the earliest best card prescribes |
| Matching.NoMatchAtOrAboveCutoff | cardData.py:126-212 | a best score of 22 or more gives None |
| Matching.CompareFailsIff | cardData.py:129-194 | `compareCards` raises exactly when the cards file is malformed, or it was read and the set file is missing or malformed, a card cannot be scored, or it holds no cards; a missing cards file gives None |
| Matching.QueryOf | cardData.py:170-188 | the four query hashes are the image's average, wavelet, perceptual and difference hashes |
| Matching.BuiltRecordDecodes | cardData.py:86-105 | every hash field a build writes decodes to a 64-bit hash |
| Matching.DecodingRecordIsScored | cardData.py:170-192 | a record whose sixteen hashes decode to 64 bits can always be scored against a 64-bit query |
| Matching.SelfMatchScoresZero | cardData.py:170-192 | a built record scores 0 against its own image's upright hashes |
| Matching.DenseIndexFinds | cardData.py:199 | when set record k has number k+1, looking up b+1 finds record b |
| Matching.DenseIndexAnswer | cardData.py:194-211 | with dense card numbers, an earliest best card b below 22 is reported with set record b's fields |
| Matching.BuildDatabaseBuiltFrom | cardData.py:77-113 | a successful build writes exactly one set record and one card record per card, in order |
| Matching.BuiltScores | cardData.py:147-192 | every record of a built database can be scored, one score per card |
| Matching.SelfMatchIsBest | cardData.py:194-196 | a scanned image's own upright hashes make the earliest best card one that scores 0, no later than the image's card |
| Matching.BuiltAnswerNamesCard | cardData.py:194-211 | in a built database, the earliest best card b below 22 is reported with card b's set name and number in set |
| Matching.FindsItsImage | cardData.py:125-212 | looking up a scanned image in the database built from its scan names a card no later than its own, which scores 0, with that card's own fields |
| Matching.BuiltCatalogFindsItsImage | cardData.py:59-212 | build from an aligned catalog, then look up an image whose upright hashes are card i's; the answer is card b+1 for some b <= i scoring 0, with card b's set name and number in set |
| EndToEnd.BuiltDatabaseFindsItsImage | cardData.py:59-212 | end to end: `createDatabase` on an aligned scan of the tree, then look up the image of the file card i was loaded from; the answer is card b+1 for some b <= i scoring 0, with card b's set name and number in set |

## Left out

- `print` diagnostics (warnings, load errors, the loaded-card summary) are left out; no result depends on them.
- `os.path.join` is string concatenation with '/'. Absolute second arguments and doubled separators are not modelled.
- `str.lower` and `str.isdigit` are modelled for ASCII only. Unicode case folding and non-ASCII digits are not modelled.
- `os.listdir` on an unreadable directory (it raises in `_load_all_cards`) is not modelled. The tree is always listable once it exists.
- The perceptual hash algorithms and PIL decoding are left out as foreign code. They are the fields of `Hashers`, and `Image.open` is the file's `Load` value.
- `HashBits.HexToBits`: `int(s, 16)` also accepts a `0x` prefix, underscores and surrounding whitespace, which the model rejects as `BadHex`. A value wider than the square that leaves a short last row is modelled as an error, as numpy 1.24 and later raise; older numpy builds an object array instead. `numpy.sqrt` is taken as the exact integer square root.
- `HashBits.HexRoundTrip`: holds only when the width is a perfect square, because `hex_to_hash` sizes the hash from the string length; RoundTripNeedsSquareWidth shows the failure at width 8. The 64-bit hashes the program stores are square.
- JSON decoding is reduced to `Malformed`. A missing key (`KeyError`) and a file that is not a list of objects are not distinguished. The `'Unknown'` defaults of `card_data.get` are not modelled, because every record carries both fields. In `needsDatabaseRegeneration`, a cards file holding a JSON value without a length (a number, `null`) makes `len` raise `TypeError`, which the handler at cardData.py:34 does not catch. The model answers True there, as for any `Malformed` file. A JSON object or string is compared by its `len` in the code, but is also `Malformed` in the model.
- numpy float storage of distances is left out. The distances are integer bit counts and are modelled as `nat`.
- `CardData.Compare`: requires exactly four query hashes. The caller always passes the four hashes of one image; a shorter list would make `hashes[k]` raise `IndexError` once a card is read.
- `CardData.CompareCards`: requires exactly four query hashes, for the same reason.
- `ScanTrace.ScanCardOrderInSet`: requires the visited set names to be distinct. Names in one directory listing always are.
- `main.py` (camera capture, contour detection, display) and `tcgdex.py` (downloading reference images) are not part of this model.
- The raw best score that `compareCards` prints for diagnostics is not part of the modelled result.
