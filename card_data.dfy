/**
  The card database: the staleness rule that decides whether the two JSON
  files must be rebuilt, the build itself, and the matcher that looks a
  scanned card's four hashes up in the stored catalog.
 */
module CardData {
  import opened Wrappers
  import opened HashBits
  import opened Images
  import opened FileTree
  import opened CardLoading
  import opened Reductions

  // ---------------------------------------------------------------------------
  // The two JSON files

  /** One entry of `evolutions_set.json`. */
  datatype SetRecord = SetRecord(cardnumber: int, setName: string, cardNumberInSet: string)

  /**
    One entry of `evolutions_cards.json`: the card's identity and sixteen hash
    strings, one per family (average, wavelet, perceptual, difference) and
    orientation (as is, mirrored, flipped, flipped mirror).
   */
  datatype CardRecord = CardRecord(
    cardnumber: int, setName: string, cardNumberInSet: string,
    avgHashes: string, avgHashesMir: string, avgHashesUd: string, avgHashesUdMir: string,
    wHashes: string, wHashesMir: string, wHashesUd: string, wHashesUdMir: string,
    pHashes: string, pHashesMir: string, pHashesUd: string, pHashesUdMir: string,
    dHashes: string, dHashesMir: string, dHashesUd: string, dHashesUdMir: string)

  /** The stored hash of one family in one orientation. */
  function StoredHash(rec: CardRecord, family: nat, orientation: nat): string
    requires family < 4 && orientation < 4
  {
    if family == 0 then
      [rec.avgHashes, rec.avgHashesMir, rec.avgHashesUd, rec.avgHashesUdMir][orientation]
    else if family == 1 then
      [rec.wHashes, rec.wHashesMir, rec.wHashesUd, rec.wHashesUdMir][orientation]
    else if family == 2 then
      [rec.pHashes, rec.pHashesMir, rec.pHashesUd, rec.pHashesUdMir][orientation]
    else
      [rec.dHashes, rec.dHashesMir, rec.dHashesUd, rec.dHashesUdMir][orientation]
  }

  /** A JSON file on disk: absent, present but not decodable, or a list of records with its modification time. */
  datatype JsonFile<T> = Missing | Malformed | Written(records: seq<T>, mtime: int)

  /** `evolutions_set.json` and `evolutions_cards.json`. */
  datatype Database = Database(setFile: JsonFile<SetRecord>, cardsFile: JsonFile<CardRecord>)

  /** The folder both the build and the staleness check scan. */
  const CardsRoot: string := "cards"

  /** The largest score, exclusive, that still counts as a match. */
  const Cutoff: nat := 22

  // ---------------------------------------------------------------------------
  // `createDatabase`

  datatype BuildError = IndexError

  function SetRecordOf(m: CardMeta): SetRecord
  {
    SetRecord(m.globalId, m.setName, m.cardNumberInSet)
  }

  /** The record for card i, reading the four orientation tuples at index i. */
  function CardRecordOf(c: Catalog, i: nat): CardRecord
    requires Shaped(c) && i < |c.hashesUdMir|
  {
    var m, n, mi, u, um := c.cards[i], c.hashes[i], c.hashesMir[i], c.hashesUd[i], c.hashesUdMir[i];
    CardRecord(m.globalId, m.setName, m.cardNumberInSet,
      n[0], mi[0], u[0], um[0],
      n[1], mi[1], u[1], um[1],
      n[2], mi[2], u[2], um[2],
      n[3], mi[3], u[3], um[3])
  }

  /**
    What `createDatabase` leaves behind, given what the loader scanned: with no
    cards nothing is written; when a hash list is shorter than `cards` the
    loop raises `IndexError` before anything is written; otherwise both files
    are rewritten, one record per card, stamped with the time of writing.
   */
  function BuildDatabase(c: Catalog, db: Database, now: int): Result<Database, BuildError>
    requires Shaped(c)
  {
    if |c.cards| == 0 then Success(db)
    else if !Aligned(c) then Failure(IndexError)
    else
      var n := |c.cards|;
      Success(Database(
        Written(seq(n, i requires 0 <= i < n => SetRecordOf(c.cards[i])), now),
        Written(seq(n, i requires 0 <= i < n => CardRecordOf(c, i)), now)))
  }

  /** `createDatabase()`: scans `cards/` with a fresh loader and writes both files. */
  method CreateDatabase(tree: CardsTree, h: Hashers, db: Database, now: int) returns (r: Result<Database, BuildError>)
    ensures r == BuildDatabase(Scan(CardsRoot, tree, h), db, now)
  {
    var loader := new CardLoader(CardsRoot, tree, h);
    r := WriteDatabase(loader, db, now);
  }

  /** The body of `createDatabase` once the loader has scanned: the record loop and the two writes. */
  method WriteDatabase(loader: CardLoader, db: Database, now: int) returns (r: Result<Database, BuildError>)
    requires Shaped(loader.Contents())
    ensures r == BuildDatabase(loader.Contents(), db, now)
  {
    var count := loader.GetCardCount();
    if count == 0 {
      return Success(db);
    }
    var c := loader.Contents();
    var evolutionsSetData: seq<SetRecord> := [];
    var evolutionsCardsData: seq<CardRecord> := [];
    var i := 0;
    while i < count
      invariant 0 <= i <= count == |c.cards|
      invariant i <= |c.hashesUdMir|
      invariant |evolutionsSetData| == |evolutionsCardsData| == i
      invariant forall k :: 0 <= k < i ==> evolutionsSetData[k] == SetRecordOf(c.cards[k])
      invariant forall k :: 0 <= k < i ==> evolutionsCardsData[k] == CardRecordOf(c, k)
    {
      var cardMeta := c.cards[i];
      evolutionsSetData := evolutionsSetData + [SetRecordOf(cardMeta)];
      if i >= |c.hashes| || i >= |c.hashesMir| || i >= |c.hashesUd| || i >= |c.hashesUdMir| {
        return Failure(IndexError);
      }
      var record := CardRecordOf(c, i);
      evolutionsCardsData := evolutionsCardsData + [record];
      i := i + 1;
    }
    assert Aligned(c);
    assert evolutionsSetData == seq(count, k requires 0 <= k < count => SetRecordOf(c.cards[k]));
    assert evolutionsCardsData == seq(count, k requires 0 <= k < count => CardRecordOf(c, k));
    return Success(Database(Written(evolutionsSetData, now), Written(evolutionsCardsData, now)));
  }

  /** With no cards scanned, neither file is touched. */
  lemma BuildWithNoCardsWritesNothing(c: Catalog, db: Database, now: int)
    requires Shaped(c) && |c.cards| == 0
    ensures BuildDatabase(c, db, now) == Success(db)
  {
  }

  /** With cards scanned, the build fails exactly when the five lists are not aligned. */
  lemma BuildFailsIffMisaligned(c: Catalog, db: Database, now: int)
    requires Shaped(c) && |c.cards| > 0
    ensures BuildDatabase(c, db, now).Failure? <==> |c.hashesUdMir| < |c.cards|
  {
  }

  /**
    A successful build writes two lists as long as `cards`, both stamped with
    the time of writing. Record i of each carries card i's id, which is
    i + 1, and its set name and stem.
   */
  lemma BuildRecords(c: Catalog, db: Database, now: int)
    requires Shaped(c) && Aligned(c) && DenseIds(c) && |c.cards| > 0
    ensures var r := BuildDatabase(c, db, now);
      && r.Success? && r.value.setFile.Written? && r.value.cardsFile.Written?
      && r.value.setFile.mtime == now && r.value.cardsFile.mtime == now
      && var index, store := r.value.setFile.records, r.value.cardsFile.records;
      && |index| == |store| == |c.cards|
      && forall i :: 0 <= i < |c.cards| ==>
        && index[i] == SetRecord(i + 1, c.cards[i].setName, c.cards[i].cardNumberInSet)
        && store[i].cardnumber == i + 1
        && store[i].setName == c.cards[i].setName
        && store[i].cardNumberInSet == c.cards[i].cardNumberInSet
  {
  }

  /** The hash of family f in orientation o in card i's record is entry f of tuple i of orientation o's list. */
  lemma CardRecordHashes(c: Catalog, i: nat, f: nat, o: nat)
    requires Shaped(c) && i < |c.hashesUdMir| && f < 4 && o < 4
    ensures StoredHash(CardRecordOf(c, i), f, o) == OrientationHashes(c, o)[i][f]
  {
  }

  // ---------------------------------------------------------------------------
  // `needsDatabaseRegeneration`

  /** `getmtime(path) > json_mtime`, where an unreadable time raises and so counts as newer. */
  predicate Newer(f: FileEntry, t: int)
  {
    f.mtime.None? || f.mtime.value > t
  }

  /**
    Some `.png` file in a non-hidden set directory is newer than t, or cannot
    be timed; a missing root counts too, since listing it raises.
   */
  predicate SomeImageNewer(tree: CardsTree, t: int)
  {
    || !tree.present
    || exists d, f :: d in tree.listing && IsSetDir(d) && f in d.files && IsPng(f.name) && Newer(f, t)
  }

  /** The modification-time scan, in listing order, stopping at the first newer file. */
  method AnyImageNewer(tree: CardsTree, jsonMtime: int) returns (r: bool)
    ensures r == SomeImageNewer(tree, jsonMtime)
  {
    if !tree.present {
      return true;
    }
    var i := 0;
    while i < |tree.listing|
      invariant 0 <= i <= |tree.listing|
      invariant forall d, f :: d in tree.listing[..i] && IsSetDir(d) && f in d.files && IsPng(f.name) ==> !Newer(f, jsonMtime)
    {
      var setDir := tree.listing[i];
      if IsSetDir(setDir) {
        var j := 0;
        while j < |setDir.files|
          invariant 0 <= j <= |setDir.files|
          invariant forall f :: f in setDir.files[..j] && IsPng(f.name) ==> !Newer(f, jsonMtime)
        {
          var file := setDir.files[j];
          if IsPng(file.name) && Newer(file, jsonMtime) {
            return true;
          }
          assert setDir.files[..j + 1] == setDir.files[..j] + [file];
          j := j + 1;
        }
        assert setDir.files[..j] == setDir.files;
      }
      assert tree.listing[..i + 1] == tree.listing[..i] + [setDir];
      i := i + 1;
    }
    assert tree.listing[..i] == tree.listing;
    return false;
  }

  /**
    The regeneration rule, tried in order: a missing file means rebuild; no
    scanned cards means do not; an undecodable cards file or a different
    number of entries means rebuild; otherwise rebuild exactly when an image
    is newer than the cards file.
   */
  predicate Stale(tree: CardsTree, h: Hashers, db: Database)
  {
    if db.setFile.Missing? || db.cardsFile.Missing? then true
    else
      var count := |Scan(CardsRoot, tree, h).cards|;
      if count == 0 then false
      else match db.cardsFile
        case Malformed => true
        case Written(records, jsonMtime) => |records| != count || SomeImageNewer(tree, jsonMtime)
  }

  /** `needsDatabaseRegeneration()`. */
  method NeedsDatabaseRegeneration(tree: CardsTree, h: Hashers, db: Database) returns (stale: bool)
    ensures stale == Stale(tree, h, db)
  {
    if db.setFile.Missing? || db.cardsFile.Missing? {
      return true;
    }
    var loader := new CardLoader(CardsRoot, tree, h);
    var cardCount := loader.GetCardCount();
    if cardCount == 0 {
      return false;
    }
    match db.cardsFile {
      case Malformed =>
        return true;
      case Written(cardsData, jsonMtime) =>
        if |cardsData| != cardCount {
          return true;
        }
        stale := AnyImageNewer(tree, jsonMtime);
    }
  }

  /** A missing file forces a rebuild before anything else is looked at. */
  lemma MissingFileIsStale(tree: CardsTree, h: Hashers, db: Database)
    requires db.setFile.Missing? || db.cardsFile.Missing?
    ensures Stale(tree, h, db)
  {
  }

  /** With both files present and no cards to scan, nothing is rebuilt, whatever the files hold. */
  lemma NoCardsNeverStale(tree: CardsTree, h: Hashers, db: Database)
    requires !db.setFile.Missing? && !db.cardsFile.Missing?
    requires |Scan(CardsRoot, tree, h).cards| == 0
    ensures !Stale(tree, h, db)
  {
  }

  /**
    A database just built from the scan is stale again exactly when some image
    is newer than the time it was written; an image stamped with that very
    time does not count.
   */
  lemma BuiltDatabaseFreshUntilNewerImage(tree: CardsTree, h: Hashers, db: Database, now: int)
    requires |Scan(CardsRoot, tree, h).cards| > 0
    requires BuildDatabase(Scan(CardsRoot, tree, h), db, now).Success?
    ensures Stale(tree, h, BuildDatabase(Scan(CardsRoot, tree, h), db, now).value) == SomeImageNewer(tree, now)
  {
  }

  // ---------------------------------------------------------------------------
  // `compareCards`

  /**
    The ways `compareCards` raises: a stored string `hex_to_hash` rejects, hashes
    of different shapes, a file `json.load` rejects, a missing set file, and
    `min` of an empty list.
   */
  datatype CompareError = BadHex | ShapeMismatch | MalformedJson | SetFileMissing | EmptyCatalog

  /** The returned dictionary: card number, set name and number in set. */
  datatype Match = Match(cardNumber: int, setName: string, cardNumberInSet: string)

  /** `query - hex_to_hash(hex)`: the Hamming distance to the decoded stored hash. */
  function HashDistance(q: Bits, hex: string): Result<nat, CompareError>
  {
    match HexToBits(hex)
    case None => Failure(BadHex)
    case Some(stored) => if |stored| != |q| then Failure(ShapeMismatch) else Success(Distance(q, stored))
  }

  /**
    The distance is defined exactly when the string decodes to a hash of the
    query's width; it is then at most that width, and zero exactly when the
    stored hash is the query.
   */
  lemma HashDistanceSpec(q: Bits, hex: string)
    ensures HashDistance(q, hex).Success? <==> HexToBits(hex).Some? && |HexToBits(hex).value| == |q|
    ensures HashDistance(q, hex).Success? ==>
      HashDistance(q, hex).value <= |q| && (HashDistance(q, hex).value == 0 <==> HexToBits(hex).value == q)
  {
    if HexToBits(hex).Some? && |HexToBits(hex).value| == |q| {
      DistanceZeroIffEqual(q, HexToBits(hex).value);
    }
  }

  /** The distance between the query's hash of family f and the card's stored hash of that family in orientation o. */
  function PairDistance(query: seq<Bits>, rec: CardRecord, f: nat, o: nat): Result<nat, CompareError>
    requires |query| == 4 && f < 4 && o < 4
  {
    HashDistance(query[f], StoredHash(rec, f, o))
  }

  /** The four distances of one family, in orientation order, stopping at the first that raises. */
  function FamilyDistances(query: seq<Bits>, rec: CardRecord, family: nat): (r: Result<seq<nat>, CompareError>)
    requires |query| == 4 && family < 4
    ensures r.Success? ==> |r.value| == 4
  {
    var d0 :- PairDistance(query, rec, family, 0);
    var d1 :- PairDistance(query, rec, family, 1);
    var d2 :- PairDistance(query, rec, family, 2);
    var d3 :- PairDistance(query, rec, family, 3);
    Success([d0, d1, d2, d3])
  }

  /** A card's score: the largest over the families of the smallest distance over the orientations. */
  function CardScore(query: seq<Bits>, rec: CardRecord): Result<nat, CompareError>
    requires |query| == 4
  {
    match FamilyDistances(query, rec, 0)
    case Failure(e) => Failure(e)
    case Success(avg) =>
      match FamilyDistances(query, rec, 1)
      case Failure(e) => Failure(e)
      case Success(w) =>
        match FamilyDistances(query, rec, 2)
        case Failure(e) => Failure(e)
        case Success(p) =>
          match FamilyDistances(query, rec, 3)
          case Failure(e) => Failure(e)
          case Success(d) => Success(Max([Min(avg), Min(w), Min(p), Min(d)]))
  }

  /** The body of the scoring loop as a function value: one record to its score. */
  function ScoreOf(query: seq<Bits>): CardRecord -> Result<nat, CompareError>
    requires |query| == 4
  {
    rec => CardScore(query, rec)
  }

  /** Each record's score, in record order, or the first error a record raises. */
  function ScoreAll(score: CardRecord -> Result<nat, CompareError>, cards: seq<CardRecord>): Result<seq<nat>, CompareError>
  {
    if cards == [] then Success([])
    else
      var init :- ScoreAll(score, cards[..|cards| - 1]);
      var last :- score(cards[|cards| - 1]);
      Success(init + [last])
  }

  /** `maxHashDists` for a list of records, or the first error raised. */
  function Scores(query: seq<Bits>, cards: seq<CardRecord>): Result<seq<nat>, CompareError>
    requires |query| == 4
  {
    ScoreAll(ScoreOf(query), cards)
  }

  /** `next(card for card in evolutions_set if card['cardnumber'] == n)`, or None. */
  function FindByCardNumber(index: seq<SetRecord>, n: int): (r: Option<SetRecord>)
    ensures r.None? <==> forall i :: 0 <= i < |index| ==> index[i].cardnumber != n
    ensures r.Some? ==> exists i :: 0 <= i < |index| && index[i] == r.value && r.value.cardnumber == n &&
                                   forall j :: 0 <= j < i ==> index[j].cardnumber != n
  {
    if index == [] then None
    else if index[0].cardnumber == n then Some(index[0])
    else
      var r := FindByCardNumber(index[1..], n);
      assert forall i :: 1 <= i < |index| ==> index[i] == index[1..][i - 1];
      r
  }

  /**
    `compareCards(hashes)`: no cards file means no answer; otherwise every
    stored card is scored, the earliest best-scoring card is taken when its
    score is below the cutoff, and its set record is looked up by card number.
   */
  function Compare(query: seq<Bits>, db: Database): Result<Option<Match>, CompareError>
    requires |query| == 4
  {
    match db.cardsFile
    case Missing => Success(None)
    case Malformed => Failure(MalformedJson)
    case Written(cards, _) =>
      match db.setFile
      case Missing => Failure(SetFileMissing)
      case Malformed => Failure(MalformedJson)
      case Written(index, _) =>
        var scores :- Scores(query, cards);
        Answer(scores, index)
  }

  /**
    The decision `compareCards` takes once every card is scored: `min` of no
    scores raises; the earliest best card is named, with the set record
    carrying its number, when its score is below the cutoff.
   */
  function Answer(scores: seq<nat>, index: seq<SetRecord>): Result<Option<Match>, CompareError>
  {
    if scores == [] then Failure(EmptyCatalog)
    else
      var best := Min(scores);
      if best < Cutoff then
        var minCardNum := IndexOf(scores, best) + 1;
        match FindByCardNumber(index, minCardNum)
        case None => Success(None)
        case Some(cardData) => Success(Some(Match(minCardNum, cardData.setName, cardData.cardNumberInSet)))
      else Success(None)
  }

  /** One family's block of four assignments into its distance array. */
  method FillDistances(query: seq<Bits>, card: CardRecord, family: nat, dists: array<nat>) returns (err: Option<CompareError>)
    requires |query| == 4 && family < 4 && dists.Length == 4
    modifies dists
    ensures err.None? ==> FamilyDistances(query, card, family) == Success(dists[..])
    ensures err.Some? ==> FamilyDistances(query, card, family) == Failure(err.value)
  {
    var d0 := PairDistance(query, card, family, 0);
    if d0.Failure? {
      return Some(d0.error);
    }
    dists[0] := d0.value;
    var d1 := PairDistance(query, card, family, 1);
    if d1.Failure? {
      return Some(d1.error);
    }
    dists[1] := d1.value;
    var d2 := PairDistance(query, card, family, 2);
    if d2.Failure? {
      return Some(d2.error);
    }
    dists[2] := d2.value;
    var d3 := PairDistance(query, card, family, 3);
    if d3.Failure? {
      return Some(d3.error);
    }
    dists[3] := d3.value;
    assert dists[..] == [d0.value, d1.value, d2.value, d3.value];
    return None;
  }

  /** Once a prefix of the records raises, the whole list raises the same error. */
  lemma {:induction false} ScoreAllFailureStays(score: CardRecord -> Result<nat, CompareError>, cards: seq<CardRecord>, i: nat)
    requires i <= |cards|
    requires ScoreAll(score, cards[..i]).Failure?
    ensures ScoreAll(score, cards) == ScoreAll(score, cards[..i])
  {
    if i < |cards| {
      assert cards[..|cards| - 1][..i] == cards[..i];
      ScoreAllFailureStays(score, cards[..|cards| - 1], i);
    } else {
      assert cards[..i] == cards;
    }
  }

  /** Extending the scored prefix by one record that scores x appends x. Only unfolds ScoreAll, to keep the loop proof cheap. */
  lemma ScoreAllStep(score: CardRecord -> Result<nat, CompareError>, cards: seq<CardRecord>, i: nat, scores: seq<nat>, x: nat)
    requires i < |cards|
    requires ScoreAll(score, cards[..i]) == Success(scores)
    requires score(cards[i]) == Success(x)
    ensures ScoreAll(score, cards[..i + 1]) == Success(scores + [x])
  {
    assert cards[..i + 1][..i] == cards[..i];
  }

  /** A card whose four families all decode scores the max of the four family minima. Only unfolds CardScore, to keep the proofs that use it cheap. */
  lemma CardScoreOfFamilies(query: seq<Bits>, card: CardRecord, avg: seq<nat>, w: seq<nat>, p: seq<nat>, d: seq<nat>)
    requires |query| == 4
    requires FamilyDistances(query, card, 0) == Success(avg)
    requires FamilyDistances(query, card, 1) == Success(w)
    requires FamilyDistances(query, card, 2) == Success(p)
    requires FamilyDistances(query, card, 3) == Success(d)
    ensures CardScore(query, card) == Success(Max([Min(avg), Min(w), Min(p), Min(d)]))
  {
  }

  /** The scoring loop of `compareCards`: `maxHashDists`, or the first error raised. */
  method ScoreCards(query: seq<Bits>, evolutionsCards: seq<CardRecord>) returns (r: Result<seq<nat>, CompareError>)
    requires |query| == 4
    ensures r == Scores(query, evolutionsCards)
  {
    var avgHashesDists := new nat[4];
    var wHashesDists := new nat[4];
    var pHashesDists := new nat[4];
    var dHashesDists := new nat[4];
    var maxHashDists: seq<nat> := [];
    var i := 0;
    while i < |evolutionsCards|
      invariant 0 <= i <= |evolutionsCards|
      invariant Scores(query, evolutionsCards[..i]) == Success(maxHashDists)
    {
      var score := ScoreCard(query, evolutionsCards[i], avgHashesDists, wHashesDists, pHashesDists, dHashesDists);
      if score.Failure? {
        assert evolutionsCards[..i + 1][..i] == evolutionsCards[..i];
        ScoreAllFailureStays(ScoreOf(query), evolutionsCards, i + 1);
        return Failure(score.error);
      }
      ScoreAllStep(ScoreOf(query), evolutionsCards, i, maxHashDists, score.value);
      maxHashDists := maxHashDists + [score.value];
      i := i + 1;
    }
    assert evolutionsCards[..i] == evolutionsCards;
    return Success(maxHashDists);
  }

  /** One pass of the scoring loop: overwrite the four distance arrays, then take the max of their minima. */
  method ScoreCard(query: seq<Bits>, card: CardRecord, avgHashesDists: array<nat>, wHashesDists: array<nat>,
                   pHashesDists: array<nat>, dHashesDists: array<nat>) returns (r: Result<nat, CompareError>)
    requires |query| == 4
    requires avgHashesDists.Length == wHashesDists.Length == pHashesDists.Length == dHashesDists.Length == 4
    requires avgHashesDists != wHashesDists && avgHashesDists != pHashesDists && avgHashesDists != dHashesDists
    requires wHashesDists != pHashesDists && wHashesDists != dHashesDists && pHashesDists != dHashesDists
    modifies avgHashesDists, wHashesDists, pHashesDists, dHashesDists
    ensures r == CardScore(query, card)
  {
    var err := FillDistances(query, card, 0, avgHashesDists);
    if err.Some? {
      return Failure(err.value);
    }
    err := FillDistances(query, card, 1, wHashesDists);
    if err.Some? {
      return Failure(err.value);
    }
    err := FillDistances(query, card, 2, pHashesDists);
    if err.Some? {
      return Failure(err.value);
    }
    err := FillDistances(query, card, 3, dHashesDists);
    if err.Some? {
      return Failure(err.value);
    }
    CardScoreOfFamilies(query, card, avgHashesDists[..], wHashesDists[..], pHashesDists[..], dHashesDists[..]);
    var hashDistances := [Min(avgHashesDists[..]), Min(wHashesDists[..]), Min(pHashesDists[..]), Min(dHashesDists[..])];
    return Success(Max(hashDistances));
  }

  /** The generator passed to `next`: the first set record with the given card number. */
  method FindSetRecord(evolutionsSet: seq<SetRecord>, minCardNum: int) returns (r: Option<SetRecord>)
    ensures r == FindByCardNumber(evolutionsSet, minCardNum)
  {
    var j := 0;
    while j < |evolutionsSet| && evolutionsSet[j].cardnumber != minCardNum
      invariant 0 <= j <= |evolutionsSet|
      invariant forall k :: 0 <= k < j ==> evolutionsSet[k].cardnumber != minCardNum
    {
      j := j + 1;
    }
    if j == |evolutionsSet| {
      return None;
    }
    return Some(evolutionsSet[j]);
  }

  /** `compareCards(hashes)`. */
  method CompareCards(query: seq<Bits>, db: Database) returns (r: Result<Option<Match>, CompareError>)
    requires |query| == 4
    ensures r == Compare(query, db)
  {
    if db.cardsFile.Missing? {
      return Success(None);
    }
    if db.cardsFile.Malformed? {
      return Failure(MalformedJson);
    }
    if db.setFile.Missing? {
      return Failure(SetFileMissing);
    }
    if db.setFile.Malformed? {
      return Failure(MalformedJson);
    }
    var evolutionsCards, evolutionsSet := db.cardsFile.records, db.setFile.records;
    var scored := ScoreCards(query, evolutionsCards);
    if scored.Failure? {
      return Failure(scored.error);
    }
    var maxHashDists := scored.value;
    if |maxHashDists| == 0 {
      return Failure(EmptyCatalog);
    }
    var best := Min(maxHashDists);
    if best < Cutoff {
      var minCardNum := IndexOf(maxHashDists, best) + 1;
      var cardData := FindSetRecord(evolutionsSet, minCardNum);
      if cardData.None? {
        return Success(None);
      }
      return Success(Some(Match(minCardNum, cardData.value.setName, cardData.value.cardNumberInSet)));
    }
    return Success(None);
  }
}
