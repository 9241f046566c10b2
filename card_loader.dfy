/**
  The card loader: scans the `cards/` tree, assigns global card ids and keeps
  five parallel lists (card metadata, and the four-hash tuple of each
  orientation). The perceptual hash algorithms are given as functions.
 */
module CardLoading {
  import opened Wrappers
  import opened HashBits
  import opened Images
  import opened FileTree

  /** The four perceptual hash algorithms: average, wavelet, perceptual (DCT) and difference hash. */
  datatype Hashers = Hashers(average: Image -> Hash, wavelet: Image -> Hash, perceptual: Image -> Hash, difference: Image -> Hash)

  /** The four hashes of one image in one orientation, family 0..3 = average, wavelet, perceptual, difference. */
  datatype Fingerprint = Fingerprint(average: Bits, wavelet: Bits, perceptual: Bits, difference: Bits)

  function Family(fp: Fingerprint, family: nat): Bits
    requires family < 4
  {
    if family == 0 then fp.average
    else if family == 1 then fp.wavelet
    else if family == 2 then fp.perceptual
    else fp.difference
  }

  function FingerprintOf(h: Hashers, img: Image): (fp: Fingerprint)
    ensures forall family :: 0 <= family < 4 ==> |Family(fp, family)| == HashWidth
  {
    Fingerprint(h.average(img), h.wavelet(img), h.perceptual(img), h.difference(img))
  }

  /** The orientation tags, in the order of the loader's four lists. */
  const OrientationTags: seq<string> := ["hash", "hashmir", "hashud", "hashudmir"]

  /** The image a tag asks to hash: as is, mirrored, flipped, or mirrored then flipped; any other tag leaves it as is. */
  function Oriented(img: Image, tag: string): Image
  {
    if tag == "hash" then img
    else if tag == "hashmir" then Mirror(img)
    else if tag == "hashud" then Flip(img)
    else if tag == "hashudmir" then Flip(Mirror(img))
    else img
  }

  /** Each known tag selects its transform: none, mirror, flip, and flip after mirror. */
  lemma OrientedDispatch(img: Image)
    ensures Oriented(img, "hash") == img
    ensures Oriented(img, "hashmir") == Mirror(img)
    ensures Oriented(img, "hashud") == Flip(img)
    ensures Oriented(img, "hashudmir") == Flip(Mirror(img))
  {
  }

  /** An unknown tag leaves the image as it is, and every orientation keeps the row count. */
  lemma OrientedShape(img: Image, tag: string)
    ensures tag !in OrientationTags ==> Oriented(img, tag) == img
    ensures |Oriented(img, tag)| == |img|
  {
  }

  /**
    `_get_hashes_for_image`: four hash strings, one per family in the order
    average, wavelet, perceptual, difference.
   */
  function HashesForImage(h: Hashers, img: Image, tag: string): (r: seq<string>)
    ensures |r| == 4
  {
    var fp := FingerprintOf(h, Oriented(img, tag));
    [BitsToHex(fp.average), BitsToHex(fp.wavelet), BitsToHex(fp.perceptual), BitsToHex(fp.difference)]
  }

  /**
    Each string `_get_hashes_for_image` returns is the 16-digit hex form of its
    family's hash of the oriented image, and reads back as exactly that hash.
   */
  lemma HashesForImageDecode(h: Hashers, img: Image, tag: string)
    ensures forall family :: 0 <= family < 4 ==>
      var r := HashesForImage(h, img, tag);
      |r[family]| == HashWidth / 4 && HexToBits(r[family]) == Some(Family(FingerprintOf(h, Oriented(img, tag)), family))
  {
    var fp := FingerprintOf(h, Oriented(img, tag));
    var r := HashesForImage(h, img, tag);
    forall family | 0 <= family < 4
      ensures |r[family]| == HashWidth / 4 && HexToBits(r[family]) == Some(Family(fp, family))
    {
      assert r[family] == BitsToHex(Family(fp, family));
      HashRoundTrip(Family(fp, family));
    }
  }

  // ---------------------------------------------------------------------------
  // The loader's state and the scan that fills it

  /** One entry of `cards`. */
  datatype CardMeta = CardMeta(globalId: int, setName: string, cardNumberInSet: string, filePath: string)

  /** The five parallel lists: `cards`, `hashes`, `hashesmir`, `hashesud`, `hashesudmir`. */
  datatype Catalog = Catalog(
    cards: seq<CardMeta>,
    hashes: seq<seq<string>>,
    hashesMir: seq<seq<string>>,
    hashesUd: seq<seq<string>>,
    hashesUdMir: seq<seq<string>>)

  const EmptyCatalog := Catalog([], [], [], [], [])

  /** The hash list of orientation o, in the order of OrientationTags. */
  function OrientationHashes(c: Catalog, o: nat): seq<seq<string>>
    requires o < 4
  {
    if o == 0 then c.hashes else if o == 1 then c.hashesMir else if o == 2 then c.hashesUd else c.hashesUdMir
  }

  /** The lists, together with the loop's `global_card_id` counter. */
  datatype ScanState = ScanState(catalog: Catalog, nextId: int)

  /** `os.path.join` of a directory and a name. */
  function Join(dir: string, name: string): string
  {
    dir + "/" + name
  }

  /** How many of the four orientation hash lists receive an entry before hashing stops. */
  function CompletedSteps(hashing: Hashing): (n: nat)
    ensures n <= 4 && (n == 4 <==> hashing.Completes?)
  {
    match hashing
    case Completes => 4
    case FailsAt(k) => k
  }

  /**
    One iteration of the inner loop. A file that `Image.open` rejects changes
    nothing. Otherwise the card's metadata is appended first, then one hash
    tuple per orientation until hashing raises, and the id counter moves on
    only when all four orientations were hashed.
   */
  function LoadFile(s: ScanState, h: Hashers, setPath: string, setName: string, file: FileEntry): ScanState
  {
    match file.load
    case OpenFails => s
    case Opens(img, hashing) =>
      var c, n := s.catalog, CompletedSteps(hashing);
      var meta := CardMeta(s.nextId, setName, Stem(file.name), Join(setPath, file.name));
      ScanState(
        Catalog(
          c.cards + [meta],
          if 0 < n then c.hashes + [HashesForImage(h, img, "hash")] else c.hashes,
          if 1 < n then c.hashesMir + [HashesForImage(h, img, "hashmir")] else c.hashesMir,
          if 2 < n then c.hashesUd + [HashesForImage(h, img, "hashud")] else c.hashesUd,
          if 3 < n then c.hashesUdMir + [HashesForImage(h, img, "hashudmir")] else c.hashesUdMir),
        if n == 4 then s.nextId + 1 else s.nextId)
  }

  /** The state after loading a file that opens, written out list by list. Only unfolds LoadFile, to keep the proofs that use it cheap. */
  lemma LoadFileOpens(c: Catalog, id: int, h: Hashers, setPath: string, setName: string, file: FileEntry, img: Image, hashing: Hashing)
    requires file.load == Opens(img, hashing)
    ensures var n := CompletedSteps(hashing);
      LoadFile(ScanState(c, id), h, setPath, setName, file) ==
      ScanState(Catalog(c.cards + [CardMeta(id, setName, Stem(file.name), Join(setPath, file.name))],
        if 0 < n then c.hashes + [HashesForImage(h, img, "hash")] else c.hashes,
        if 1 < n then c.hashesMir + [HashesForImage(h, img, "hashmir")] else c.hashesMir,
        if 2 < n then c.hashesUd + [HashesForImage(h, img, "hashud")] else c.hashesUd,
        if 3 < n then c.hashesUdMir + [HashesForImage(h, img, "hashudmir")] else c.hashesUdMir),
        if n == 4 then id + 1 else id)
  {
  }

  /** The inner loop over the files of set directory d. */
  function LoadSet(s: ScanState, h: Hashers, root: string, d: DirEntry, files: seq<FileEntry>): ScanState
  {
    if files == [] then s
    else LoadFile(LoadSet(s, h, root, d, files[..|files| - 1]), h, Join(root, d.name), d.name, files[|files| - 1])
  }

  /** The fold over a prefix of the files, one file further. */
  lemma LoadSetStep(s: ScanState, h: Hashers, root: string, d: DirEntry, files: seq<FileEntry>, i: nat)
    requires i < |files|
    ensures LoadSet(s, h, root, d, files[..i + 1]) == LoadFile(LoadSet(s, h, root, d, files[..i]), h, Join(root, d.name), d.name, files[i])
  {
    assert files[..i + 1][..i] == files[..i];
  }

  /** The outer loop over the set directories. */
  function LoadSets(s: ScanState, h: Hashers, root: string, sets: seq<DirEntry>): ScanState
  {
    if sets == [] then s
    else
      var d := sets[|sets| - 1];
      LoadSet(LoadSets(s, h, root, sets[..|sets| - 1]), h, root, d, CardFiles(d))
  }

  // ---------------------------------------------------------------------------
  // Invariants of the scan

  /** Four hash strings, each the hex form of a 64-bit hash. */
  predicate HashTuple(t: seq<string>)
  {
    |t| == 4 && forall family :: 0 <= family < 4 ==> HexToBits(t[family]).Some? && |HexToBits(t[family]).value| == HashWidth
  }

  lemma HashesForImageTuple(h: Hashers, img: Image, tag: string)
    ensures HashTuple(HashesForImage(h, img, tag))
  {
    HashesForImageDecode(h, img, tag);
  }

  predicate FourPerCard(l: seq<seq<string>>)
  {
    forall i :: 0 <= i < |l| ==> |l[i]| == 4
  }

  /** Each later list is no longer than the one before it. */
  predicate Nested(c: Catalog)
  {
    |c.hashesUdMir| <= |c.hashesUd| <= |c.hashesMir| <= |c.hashes| <= |c.cards|
  }

  /** Each later list is a prefix-length of the one before it, and every tuple holds four hashes. */
  predicate Shaped(c: Catalog)
  {
    && Nested(c)
    && FourPerCard(c.hashes) && FourPerCard(c.hashesMir) && FourPerCard(c.hashesUd) && FourPerCard(c.hashesUdMir)
  }

  predicate Decodable(l: seq<seq<string>>)
  {
    forall i :: 0 <= i < |l| ==> HashTuple(l[i])
  }

  /** Every stored hash string reads back as a 64-bit hash. */
  predicate HashesDecode(c: Catalog)
  {
    Decodable(c.hashes) && Decodable(c.hashesMir) && Decodable(c.hashesUd) && Decodable(c.hashesUdMir)
  }

  /** All five lists have one entry per card. */
  predicate Aligned(c: Catalog)
  {
    |c.hashes| == |c.cards| && |c.hashesMir| == |c.cards| && |c.hashesUd| == |c.cards| && |c.hashesUdMir| == |c.cards|
  }

  /** `cards[k].global_id == k + 1` for every card. */
  predicate DenseIds(c: Catalog)
  {
    forall k :: 0 <= k < |c.cards| ==> c.cards[k].globalId == k + 1
  }

  predicate Consistent(s: ScanState)
  {
    && Shaped(s.catalog)
    && HashesDecode(s.catalog)
    && s.nextId == |s.catalog.hashesUdMir| + 1
    && (Aligned(s.catalog) ==> DenseIds(s.catalog))
  }

  lemma LoadFileConsistent(s: ScanState, h: Hashers, setPath: string, setName: string, file: FileEntry)
    requires Consistent(s)
    ensures Consistent(LoadFile(s, h, setPath, setName, file))
  {
    LoadFileShaped(s, h, setPath, setName, file);
    LoadFileDecodable(s, h, setPath, setName, file);
    LoadFileKeepsIdsDense(s, h, setPath, setName, file);
  }

  lemma LoadFileShaped(s: ScanState, h: Hashers, setPath: string, setName: string, file: FileEntry)
    requires Consistent(s)
    ensures var s' := LoadFile(s, h, setPath, setName, file);
      Shaped(s'.catalog) && s'.nextId == |s'.catalog.hashesUdMir| + 1
  {
    match file.load
    case OpenFails =>
    case Opens(img, hashing) =>
      var c, c' := s.catalog, LoadFile(s, h, setPath, setName, file).catalog;
      AppendTuple(c.hashes, c'.hashes, HashesForImage(h, img, "hash"));
      AppendTuple(c.hashesMir, c'.hashesMir, HashesForImage(h, img, "hashmir"));
      AppendTuple(c.hashesUd, c'.hashesUd, HashesForImage(h, img, "hashud"));
      AppendTuple(c.hashesUdMir, c'.hashesUdMir, HashesForImage(h, img, "hashudmir"));
  }

  lemma AppendTuple(l: seq<seq<string>>, l': seq<seq<string>>, t: seq<string>)
    requires FourPerCard(l) && |t| == 4
    requires l' == l || l' == l + [t]
    ensures FourPerCard(l')
  {
  }

  lemma LoadFileDecodable(s: ScanState, h: Hashers, setPath: string, setName: string, file: FileEntry)
    requires HashesDecode(s.catalog)
    ensures HashesDecode(LoadFile(s, h, setPath, setName, file).catalog)
  {
    match file.load
    case OpenFails =>
    case Opens(img, hashing) =>
      var c, c' := s.catalog, LoadFile(s, h, setPath, setName, file).catalog;
      HashesForImageTuple(h, img, "hash");
      HashesForImageTuple(h, img, "hashmir");
      HashesForImageTuple(h, img, "hashud");
      HashesForImageTuple(h, img, "hashudmir");
      AppendDecodable(c.hashes, c'.hashes, HashesForImage(h, img, "hash"));
      AppendDecodable(c.hashesMir, c'.hashesMir, HashesForImage(h, img, "hashmir"));
      AppendDecodable(c.hashesUd, c'.hashesUd, HashesForImage(h, img, "hashud"));
      AppendDecodable(c.hashesUdMir, c'.hashesUdMir, HashesForImage(h, img, "hashudmir"));
  }

  lemma AppendDecodable(l: seq<seq<string>>, l': seq<seq<string>>, t: seq<string>)
    requires Decodable(l) && HashTuple(t)
    requires l' == l || l' == l + [t]
    ensures Decodable(l')
  {
  }

  lemma LoadFileKeepsIdsDense(s: ScanState, h: Hashers, setPath: string, setName: string, file: FileEntry)
    requires Nested(s.catalog) && s.nextId == |s.catalog.hashesUdMir| + 1
    requires Aligned(s.catalog) ==> DenseIds(s.catalog)
    ensures var s' := LoadFile(s, h, setPath, setName, file); Aligned(s'.catalog) ==> DenseIds(s'.catalog)
  {
    match file.load
    case OpenFails =>
    case Opens(img, hashing) =>
      var c, c' := s.catalog, LoadFile(s, h, setPath, setName, file).catalog;
      var n := CompletedSteps(hashing);
      var meta := CardMeta(s.nextId, setName, Stem(file.name), Join(setPath, file.name));
      assert c'.cards == c.cards + [meta];
      assert |c'.hashesUdMir| == if 3 < n then |c.hashesUdMir| + 1 else |c.hashesUdMir|;
      if Aligned(c') {
        assert |c.hashesUdMir| == |c.cards| && Aligned(c);
        AppendKeepsIdsDense(c, c', meta);
      }
  }

  /** Appending the card whose id is one more than the card count keeps ids dense. */
  lemma AppendKeepsIdsDense(c: Catalog, c': Catalog, meta: CardMeta)
    requires DenseIds(c) && c'.cards == c.cards + [meta] && meta.globalId == |c.cards| + 1
    ensures DenseIds(c')
  {
    forall k | 0 <= k < |c'.cards| ensures c'.cards[k].globalId == k + 1 {
      if k < |c.cards| {
        assert c'.cards[k] == c.cards[k];
      }
    }
  }

  lemma {:induction false} LoadSetConsistent(s: ScanState, h: Hashers, root: string, d: DirEntry, files: seq<FileEntry>)
    requires Consistent(s)
    ensures Consistent(LoadSet(s, h, root, d, files))
  {
    if files != [] {
      LoadSetConsistent(s, h, root, d, files[..|files| - 1]);
      LoadFileConsistent(LoadSet(s, h, root, d, files[..|files| - 1]), h, Join(root, d.name), d.name, files[|files| - 1]);
    }
  }

  lemma {:induction false} LoadSetsConsistent(s: ScanState, h: Hashers, root: string, sets: seq<DirEntry>)
    requires Consistent(s)
    ensures Consistent(LoadSets(s, h, root, sets))
  {
    if sets != [] {
      var d := sets[|sets| - 1];
      LoadSetsConsistent(s, h, root, sets[..|sets| - 1]);
      LoadSetConsistent(LoadSets(s, h, root, sets[..|sets| - 1]), h, root, d, CardFiles(d));
    }
  }

  /** The state a fresh scan starts from: the given lists and `global_card_id = 1`. */
  function Start(c: Catalog): ScanState
  {
    ScanState(c, 1)
  }

  /**
    What a new loader holds once its constructor returns: the tuple lists
    never outrun `cards`, each tuple holds four hashes, and when the five
    lists are aligned the ids are exactly 1..N in list order.
   */
  function Scan(root: string, tree: CardsTree, h: Hashers): (c: Catalog)
    ensures Shaped(c) && HashesDecode(c)
    ensures Aligned(c) ==> DenseIds(c)
  {
    LoadSetsConsistent(Start(EmptyCatalog), h, root, SetOrder(tree));
    LoadSets(Start(EmptyCatalog), h, root, SetOrder(tree)).catalog
  }

  /** With the root missing, or without a visible set directory, all five lists stay empty. */
  lemma ScanEmptyWithoutSets(root: string, tree: CardsTree, h: Hashers)
    requires !tree.present || VisibleSets(tree.listing) == []
    ensures Scan(root, tree, h) == EmptyCatalog
  {
  }

  /**
    When hashing raises after the metadata append, the card stays in `cards`
    without a full set of tuples and the counter does not move, so the next
    file that loads fully gets the same id and the lists stay misaligned.
   */
  lemma PartialFailureReusesId(s: ScanState, h: Hashers, setPath: string, setName: string, a: FileEntry, b: FileEntry)
    requires Consistent(s) && Aligned(s.catalog)
    requires a.load.Opens? && a.load.hashing.FailsAt?
    requires b.load.Opens? && b.load.hashing.Completes?
    ensures var n, s2 := |s.catalog.cards|, LoadFile(LoadFile(s, h, setPath, setName, a), h, setPath, setName, b);
      && |s2.catalog.cards| == n + 2
      && s2.catalog.cards[n].globalId == n + 1
      && s2.catalog.cards[n + 1].globalId == n + 1
      && |s2.catalog.hashesUdMir| == n + 1
      && !Aligned(s2.catalog)
  {
  }

  // ---------------------------------------------------------------------------
  // The loader object

  class CardLoader {
    const cardsRoot: string
    var cards: seq<CardMeta>
    var hashes: seq<seq<string>>
    var hashesMir: seq<seq<string>>
    var hashesUd: seq<seq<string>>
    var hashesUdMir: seq<seq<string>>

    function Contents(): Catalog
      reads this
    {
      Catalog(cards, hashes, hashesMir, hashesUd, hashesUdMir)
    }

    /** `CardLoader(cards_root)`: empty lists, filled by a scan when the root exists. */
    constructor (cardsRoot: string, tree: CardsTree, h: Hashers)
      ensures this.cardsRoot == cardsRoot
      ensures Contents() == Scan(cardsRoot, tree, h)
    {
      this.cardsRoot := cardsRoot;
      cards, hashes, hashesMir, hashesUd, hashesUdMir := [], [], [], [], [];
      new;
      if tree.present {
        LoadAllCards(tree, h);
      }
    }

    /**
      `_load_all_cards`: visits the set directories in name order and, within
      each, the `.png` files in key order, appending to the five lists.
     */
    method LoadAllCards(tree: CardsTree, h: Hashers)
      modifies this
      ensures Contents() == LoadSets(Start(old(Contents())), h, cardsRoot, SetOrder(tree)).catalog
    {
      if !tree.present {
        return;
      }
      var sets := SortSets(VisibleSets(tree.listing));
      if |sets| == 0 {
        return;
      }
      LoadSetDirectories(h, sets);
    }

    /** The outer loop: each set directory in turn, numbering cards from 1. */
    method LoadSetDirectories(h: Hashers, sets: seq<DirEntry>)
      modifies this
      ensures Contents() == LoadSets(Start(old(Contents())), h, cardsRoot, sets).catalog
    {
      var globalCardId := 1;
      var si := 0;
      while si < |sets|
        invariant 0 <= si <= |sets|
        invariant ScanState(Contents(), globalCardId) == LoadSets(Start(old(Contents())), h, cardsRoot, sets[..si])
      {
        globalCardId := LoadSetDirectory(h, sets[si], globalCardId);
        assert sets[..si + 1][..si] == sets[..si];
        si := si + 1;
      }
      assert sets[..si] == sets;
    }

    /** One pass of the outer loop's body: the `.png` files of one set directory, in key order. */
    method LoadSetDirectory(h: Hashers, d: DirEntry, globalCardId: int) returns (nextId: int)
      modifies this
      ensures ScanState(Contents(), nextId) == LoadSet(ScanState(old(Contents()), globalCardId), h, cardsRoot, d, CardFiles(d))
    {
      var setName := d.name;
      var setPath := Join(cardsRoot, setName);
      var cardFiles := CardFiles(d);
      nextId := globalCardId;
      var fi := 0;
      while fi < |cardFiles|
        invariant 0 <= fi <= |cardFiles|
        invariant ScanState(Contents(), nextId) == LoadSet(ScanState(old(Contents()), globalCardId), h, cardsRoot, d, cardFiles[..fi])
      {
        LoadSetStep(ScanState(old(Contents()), globalCardId), h, cardsRoot, d, cardFiles, fi);
        nextId := LoadCardFile(h, setPath, setName, cardFiles[fi], nextId);
        fi := fi + 1;
      }
      assert cardFiles[..fi] == cardFiles;
    }

    /** One pass of the inner loop's body: the `try` block for one card file. */
    method LoadCardFile(h: Hashers, setPath: string, setName: string, cardFile: FileEntry, globalCardId: int)
      returns (nextId: int)
      modifies this
      ensures ScanState(Contents(), nextId) == LoadFile(ScanState(old(Contents()), globalCardId), h, setPath, setName, cardFile)
    {
      nextId := globalCardId;
      var cardPath := Join(setPath, cardFile.name);
      var cardNumberInSet := Stem(cardFile.name);
      match cardFile.load {
        case OpenFails =>
          // Image.open raised: the handler reports the file and nothing is appended.
        case Opens(img, hashing) =>
          ghost var before := Contents();
          var completed := AppendCard(h, img, hashing, CardMeta(globalCardId, setName, cardNumberInSet, cardPath));
          // The id moves on only after the last append.
          if completed == 4 {
            nextId := globalCardId + 1;
          }
          LoadFileOpens(before, globalCardId, h, setPath, setName, cardFile, img, hashing);
      }
    }

    /**
      The appends of the `try` block for an image that opened: the card's
      metadata, then one hash tuple per orientation hashed before hashing
      raised; `completed` counts those orientations.
     */
    method AppendCard(h: Hashers, img: Image, hashing: Hashing, meta: CardMeta) returns (completed: nat)
      modifies this
      ensures completed == CompletedSteps(hashing)
      ensures Contents() == Catalog(old(cards) + [meta],
        if 0 < completed then old(hashes) + [HashesForImage(h, img, "hash")] else old(hashes),
        if 1 < completed then old(hashesMir) + [HashesForImage(h, img, "hashmir")] else old(hashesMir),
        if 2 < completed then old(hashesUd) + [HashesForImage(h, img, "hashud")] else old(hashesUd),
        if 3 < completed then old(hashesUdMir) + [HashesForImage(h, img, "hashudmir")] else old(hashesUdMir))
    {
      completed := CompletedSteps(hashing);
      cards := cards + [meta];
      // Orientation k is appended only when the hashing of every orientation before it did not raise.
      hashes := if 0 < completed then hashes + [HashesForImage(h, img, "hash")] else hashes;
      hashesMir := if 1 < completed then hashesMir + [HashesForImage(h, img, "hashmir")] else hashesMir;
      hashesUd := if 2 < completed then hashesUd + [HashesForImage(h, img, "hashud")] else hashesUd;
      hashesUdMir := if 3 < completed then hashesUdMir + [HashesForImage(h, img, "hashudmir")] else hashesUdMir;
    }

    /** `get_card_count`: the number of entries in `cards`. */
    function GetCardCount(): (n: nat)
      reads this
      ensures n == |cards|
    {
      |cards|
    }

    /** `get_card_metadata`: the card at position id-1 when 1 <= id <= the count, None otherwise. */
    function GetCardMetadata(globalId: int): (r: Option<CardMeta>)
      reads this
      ensures r.Some? <==> 1 <= globalId <= |cards|
      ensures r.Some? ==> r.value == cards[globalId - 1]
    {
      if 1 <= globalId <= |cards| then Some(cards[globalId - 1]) else None
    }
  }

  /**
    On a loader whose lists are aligned, `get_card_metadata(id)` answers with
    the card whose global id is the one asked for, and answers for every id
    from 1 to the count.
   */
  lemma MetadataHasRequestedId(loader: CardLoader, globalId: int)
    requires Aligned(loader.Contents()) && DenseIds(loader.Contents())
    ensures loader.GetCardMetadata(globalId).Some? <==> 1 <= globalId <= loader.GetCardCount()
    ensures loader.GetCardMetadata(globalId).Some? ==> loader.GetCardMetadata(globalId).value.globalId == globalId
  {
  }
}
