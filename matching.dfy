/**
  What the matcher's answer means: a card's score as the max-min of its
  sixteen distances, the list of scores, the cutoff and the earliest-best
  choice, and the answer for an image the database was built from.
 */
module Matching {
  import opened Wrappers
  import opened HashBits
  import opened Images
  import opened FileTree
  import opened CardLoading
  import opened Reductions
  import opened CardData

  // ---------------------------------------------------------------------------
  // One card's score

  /** All four distances of family f are defined. */
  predicate FamilyDefined(query: seq<Bits>, rec: CardRecord, f: nat)
    requires |query| == 4 && f < 4
  {
    && PairDistance(query, rec, f, 0).Success? && PairDistance(query, rec, f, 1).Success?
    && PairDistance(query, rec, f, 2).Success? && PairDistance(query, rec, f, 3).Success?
  }

  /**
    A family's distances are defined exactly when all four are, and are then
    the four pair distances in orientation order. Only unfolds
    FamilyDistances, to keep the proofs that use it cheap.
   */
  lemma FamilyDistancesSpec(query: seq<Bits>, rec: CardRecord, f: nat)
    requires |query| == 4 && f < 4
    ensures FamilyDistances(query, rec, f).Success? <==> FamilyDefined(query, rec, f)
    ensures FamilyDistances(query, rec, f).Success? ==>
      FamilyDistances(query, rec, f).value == [PairDistance(query, rec, f, 0).value, PairDistance(query, rec, f, 1).value,
                                               PairDistance(query, rec, f, 2).value, PairDistance(query, rec, f, 3).value]
  {
  }

  /** Some orientation of family f is within s of the query. */
  predicate FamilyWithin(query: seq<Bits>, rec: CardRecord, f: nat, s: nat)
    requires |query| == 4 && f < 4
  {
    exists o :: 0 <= o < 4 && PairDistance(query, rec, f, o).Success? && PairDistance(query, rec, f, o).value <= s
  }

  /** Every orientation of family f is at least s from the query. */
  predicate FamilyAtLeast(query: seq<Bits>, rec: CardRecord, f: nat, s: nat)
    requires |query| == 4 && f < 4
  {
    forall o :: 0 <= o < 4 ==> PairDistance(query, rec, f, o).Success? && s <= PairDistance(query, rec, f, o).value
  }

  /** Each of the four families has an orientation within s of the query. */
  predicate EveryFamilyWithin(query: seq<Bits>, rec: CardRecord, s: nat)
    requires |query| == 4
  {
    FamilyWithin(query, rec, 0, s) && FamilyWithin(query, rec, 1, s) && FamilyWithin(query, rec, 2, s) && FamilyWithin(query, rec, 3, s)
  }

  /** One of the four families has all its orientations at least s from the query. */
  predicate SomeFamilyAtLeast(query: seq<Bits>, rec: CardRecord, s: nat)
    requires |query| == 4
  {
    FamilyAtLeast(query, rec, 0, s) || FamilyAtLeast(query, rec, 1, s) || FamilyAtLeast(query, rec, 2, s) || FamilyAtLeast(query, rec, 3, s)
  }

  /** The family's nearest orientation is within any bound on its minimum distance. */
  lemma FamilyWithinMin(query: seq<Bits>, rec: CardRecord, f: nat, s: nat)
    requires |query| == 4 && f < 4
    requires FamilyDistances(query, rec, f).Success? && Min(FamilyDistances(query, rec, f).value) <= s
    ensures FamilyWithin(query, rec, f, s)
  {
    FamilyDistancesSpec(query, rec, f);
    var ds := FamilyDistances(query, rec, f).value;
    var o := IndexOf(ds, Min(ds));
    assert PairDistance(query, rec, f, o).value <= s;
  }

  /** Every orientation of a family is at least its minimum distance. */
  lemma FamilyAtLeastMin(query: seq<Bits>, rec: CardRecord, f: nat, s: nat)
    requires |query| == 4 && f < 4
    requires FamilyDistances(query, rec, f).Success? && s <= Min(FamilyDistances(query, rec, f).value)
    ensures FamilyAtLeast(query, rec, f, s)
  {
    FamilyDistancesSpec(query, rec, f);
    var ds := FamilyDistances(query, rec, f).value;
    forall o | 0 <= o < 4 ensures PairDistance(query, rec, f, o).Success? && s <= PairDistance(query, rec, f, o).value {
      assert s <= ds[o];
      if o == 0 {
      } else if o == 1 {
      } else if o == 2 {
      } else {
      }
    }
  }

  /** A card is scored exactly when all sixteen of its stored hashes decode to the query's widths. */
  lemma CardScoreDefined(query: seq<Bits>, rec: CardRecord)
    requires |query| == 4
    ensures CardScore(query, rec).Success? <==>
      FamilyDefined(query, rec, 0) && FamilyDefined(query, rec, 1) && FamilyDefined(query, rec, 2) && FamilyDefined(query, rec, 3)
  {
    FamilyDistancesSpec(query, rec, 0);
    FamilyDistancesSpec(query, rec, 1);
    FamilyDistancesSpec(query, rec, 2);
    FamilyDistancesSpec(query, rec, 3);
  }

  /**
    A card's score s is the max-min of its distances: every family has an
    orientation within s of the query, and some family has no orientation
    closer than s.
   */
  lemma CardScoreMaxMin(query: seq<Bits>, rec: CardRecord)
    requires |query| == 4 && CardScore(query, rec).Success?
    ensures EveryFamilyWithin(query, rec, CardScore(query, rec).value)
    ensures SomeFamilyAtLeast(query, rec, CardScore(query, rec).value)
  {
    var m0, m1 := Min(FamilyDistances(query, rec, 0).value), Min(FamilyDistances(query, rec, 1).value);
    var m2, m3 := Min(FamilyDistances(query, rec, 2).value), Min(FamilyDistances(query, rec, 3).value);
    var minima := [m0, m1, m2, m3];
    var s := Max(minima);
    assert minima[0] == m0 && minima[1] == m1 && minima[2] == m2 && minima[3] == m3;
    assert CardScore(query, rec).value == s;
    FamilyWithinMin(query, rec, 0, s);
    FamilyWithinMin(query, rec, 1, s);
    FamilyWithinMin(query, rec, 2, s);
    FamilyWithinMin(query, rec, 3, s);
    var k := IndexOf(minima, s);
    if k == 0 {
      FamilyAtLeastMin(query, rec, 0, s);
    } else if k == 1 {
      FamilyAtLeastMin(query, rec, 1, s);
    } else if k == 2 {
      FamilyAtLeastMin(query, rec, 2, s);
    } else {
      FamilyAtLeastMin(query, rec, 3, s);
    }
  }

  /** Some orientation of family f stores exactly the query's hash of that family. */
  predicate FamilyExact(query: seq<Bits>, rec: CardRecord, f: nat)
    requires |query| == 4 && f < 4
  {
    exists o :: 0 <= o < 4 && HexToBits(StoredHash(rec, f, o)) == Some(query[f])
  }

  lemma FamilyWithinZero(query: seq<Bits>, rec: CardRecord, f: nat)
    requires |query| == 4 && f < 4
    ensures FamilyWithin(query, rec, f, 0) <==> FamilyExact(query, rec, f)
  {
    if FamilyWithin(query, rec, f, 0) {
      var o :| 0 <= o < 4 && PairDistance(query, rec, f, o).Success? && PairDistance(query, rec, f, o).value <= 0;
      HashDistanceSpec(query[f], StoredHash(rec, f, o));
    }
    if FamilyExact(query, rec, f) {
      var o :| 0 <= o < 4 && HexToBits(StoredHash(rec, f, o)) == Some(query[f]);
      HashDistanceSpec(query[f], StoredHash(rec, f, o));
      assert PairDistance(query, rec, f, o).Success? && PairDistance(query, rec, f, o).value == 0;
    }
  }

  /** A family with an exact orientation caps what "every orientation at least s" can mean at s = 0. */
  lemma ExactBoundsAtLeast(query: seq<Bits>, rec: CardRecord, f: nat, s: nat)
    requires |query| == 4 && f < 4
    requires FamilyExact(query, rec, f) && FamilyAtLeast(query, rec, f, s)
    ensures s == 0
  {
    FamilyWithinZero(query, rec, f);
    var o :| 0 <= o < 4 && PairDistance(query, rec, f, o).Success? && PairDistance(query, rec, f, o).value <= 0;
  }

  /**
    A scored card scores 0 exactly when, for every family, one of its four
    orientations stores precisely the query's hash.
   */
  lemma ScoreZeroIffExactInSomeOrientation(query: seq<Bits>, rec: CardRecord)
    requires |query| == 4 && CardScore(query, rec).Success?
    ensures CardScore(query, rec).value == 0 <==>
      FamilyExact(query, rec, 0) && FamilyExact(query, rec, 1) && FamilyExact(query, rec, 2) && FamilyExact(query, rec, 3)
  {
    var s := CardScore(query, rec).value;
    CardScoreMaxMin(query, rec);
    FamilyWithinZero(query, rec, 0);
    FamilyWithinZero(query, rec, 1);
    FamilyWithinZero(query, rec, 2);
    FamilyWithinZero(query, rec, 3);
    if FamilyExact(query, rec, 0) && FamilyExact(query, rec, 1) && FamilyExact(query, rec, 2) && FamilyExact(query, rec, 3) {
      if FamilyAtLeast(query, rec, 0, s) {
        ExactBoundsAtLeast(query, rec, 0, s);
      } else if FamilyAtLeast(query, rec, 1, s) {
        ExactBoundsAtLeast(query, rec, 1, s);
      } else if FamilyAtLeast(query, rec, 2, s) {
        ExactBoundsAtLeast(query, rec, 2, s);
      } else {
        ExactBoundsAtLeast(query, rec, 3, s);
      }
    }
  }

  // ---------------------------------------------------------------------------
  // The list of scores

  /**
    The list of scores is produced exactly when every record can be scored,
    and then holds one score per record, in record order.
   */
  lemma {:induction false} ScoreAllSpec(score: CardRecord -> Result<nat, CompareError>, cards: seq<CardRecord>)
    ensures ScoreAll(score, cards).Success? <==> forall k :: 0 <= k < |cards| ==> score(cards[k]).Success?
    ensures ScoreAll(score, cards).Success? ==>
      && |ScoreAll(score, cards).value| == |cards|
      && forall k :: 0 <= k < |cards| ==> ScoreAll(score, cards).value[k] == score(cards[k]).value
  {
    if cards != [] {
      var n := |cards| - 1;
      var init, last := cards[..n], cards[n];
      ScoreAllSpec(score, init);
      assert forall k :: 0 <= k < n ==> init[k] == cards[k];
      if ScoreAll(score, init).Failure? {
        var k :| 0 <= k < n && score(init[k]).Failure?;
        assert score(cards[k]).Failure?;
      } else if score(last).Failure? {
        assert score(cards[n]).Failure?;
      } else {
        var scores, x := ScoreAll(score, init).value, score(last).value;
        assert ScoreAll(score, cards) == Success(scores + [x]);
        forall k | 0 <= k < |cards| ensures score(cards[k]).Success? && (scores + [x])[k] == score(cards[k]).value {
          if k < n {
            assert (scores + [x])[k] == scores[k];
          }
        }
      }
    }
  }

  /** `maxHashDists` is produced exactly when every card can be scored, and then holds each card's score in card order. */
  lemma ScoresSpec(query: seq<Bits>, cards: seq<CardRecord>)
    requires |query| == 4
    ensures Scores(query, cards).Success? <==> forall k :: 0 <= k < |cards| ==> CardScore(query, cards[k]).Success?
    ensures Scores(query, cards).Success? ==>
      && |Scores(query, cards).value| == |cards|
      && forall k :: 0 <= k < |cards| ==> Scores(query, cards).value[k] == CardScore(query, cards[k]).value
  {
    ScoreAllSpec(ScoreOf(query), cards);
  }

  // ---------------------------------------------------------------------------
  // The answer

  /** Position b holds the lowest score, and no earlier position ties with it. */
  predicate EarliestBest(scores: seq<nat>, b: nat)
  {
    && b < |scores|
    && (forall j :: 0 <= j < |scores| ==> scores[b] <= scores[j])
    && (forall j :: 0 <= j < b ==> scores[b] < scores[j])
  }

  /** `maxHashDists.index(min(maxHashDists))` is the one earliest best position. */
  lemma EarliestBestIsIndexOfMin(scores: seq<nat>, b: nat)
    requires |scores| > 0
    ensures EarliestBest(scores, IndexOf(scores, Min(scores)))
    ensures EarliestBest(scores, b) ==> b == IndexOf(scores, Min(scores))
  {
    var i := IndexOf(scores, Min(scores));
    if EarliestBest(scores, b) {
      assert scores[b] == Min(scores) == scores[i];
    }
  }

  /**
    When `compareCards` names a card, both files were read and every card was
    scored; the named card is the earliest best one, its score is below the
    cutoff, and the set fields come from the first set record carrying its
    number.
   */
  lemma CompareMatchIsEarliestBest(query: seq<Bits>, db: Database)
    requires |query| == 4 && Compare(query, db).Success? && Compare(query, db).value.Some?
    ensures db.cardsFile.Written? && db.setFile.Written? && Scores(query, db.cardsFile.records).Success?
    ensures var scores, m := Scores(query, db.cardsFile.records).value, Compare(query, db).value.value;
      && m.cardNumber >= 1
      && EarliestBest(scores, m.cardNumber - 1)
      && scores[m.cardNumber - 1] < Cutoff
      && FindByCardNumber(db.setFile.records, m.cardNumber) == Some(SetRecord(m.cardNumber, m.setName, m.cardNumberInSet))
  {
    AnswerMatchIsEarliestBest(Scores(query, db.cardsFile.records).value, db.setFile.records);
  }

  /** A named card is the earliest best one, below the cutoff, with the set fields of its record. */
  lemma AnswerMatchIsEarliestBest(scores: seq<nat>, index: seq<SetRecord>)
    requires Answer(scores, index).Success? && Answer(scores, index).value.Some?
    ensures var m := Answer(scores, index).value.value;
      && m.cardNumber >= 1
      && EarliestBest(scores, m.cardNumber - 1)
      && scores[m.cardNumber - 1] < Cutoff
      && FindByCardNumber(index, m.cardNumber) == Some(SetRecord(m.cardNumber, m.setName, m.cardNumberInSet))
  {
    EarliestBestIsIndexOfMin(scores, 0);
  }

  /**
    With both files read and every card scored, the answer is determined by
    the earliest best card b: nothing when its score is the cutoff or more, or
    when no set record carries number b + 1; otherwise card number b + 1 with
    the set fields of the first set record carrying that number.
   */
  lemma CompareOutcome(query: seq<Bits>, db: Database, b: nat)
    requires |query| == 4 && db.cardsFile.Written? && db.setFile.Written?
    requires Scores(query, db.cardsFile.records).Success?
    requires EarliestBest(Scores(query, db.cardsFile.records).value, b)
    ensures Compare(query, db).Success?
    ensures Compare(query, db).value.None? <==>
      || Scores(query, db.cardsFile.records).value[b] >= Cutoff
      || forall k :: 0 <= k < |db.setFile.records| ==> db.setFile.records[k].cardnumber != b + 1
    ensures Compare(query, db).value.Some? ==>
      && Compare(query, db).value.value.cardNumber == b + 1
      && FindByCardNumber(db.setFile.records, b + 1) == Some(SetRecord(b + 1, Compare(query, db).value.value.setName, Compare(query, db).value.value.cardNumberInSet))
  {
    AnswerOutcome(Scores(query, db.cardsFile.records).value, db.setFile.records, b);
  }

  /** The decision once every card is scored, in terms of the earliest best card b. */
  lemma AnswerOutcome(scores: seq<nat>, index: seq<SetRecord>, b: nat)
    requires EarliestBest(scores, b)
    ensures Answer(scores, index).Success?
    ensures Answer(scores, index).value.None? <==>
      || scores[b] >= Cutoff
      || forall k :: 0 <= k < |index| ==> index[k].cardnumber != b + 1
    ensures Answer(scores, index).value.Some? ==>
      && Answer(scores, index).value.value.cardNumber == b + 1
      && FindByCardNumber(index, b + 1) == Some(SetRecord(b + 1, Answer(scores, index).value.value.setName, Answer(scores, index).value.value.cardNumberInSet))
  {
    EarliestBestIsIndexOfMin(scores, b);
  }

  /** A best score of the cutoff or more, 22 included, gives no answer. */
  lemma NoMatchAtOrAboveCutoff(query: seq<Bits>, db: Database)
    requires |query| == 4 && db.cardsFile.Written? && db.setFile.Written?
    requires Scores(query, db.cardsFile.records).Success? && Scores(query, db.cardsFile.records).value != []
    requires forall j :: 0 <= j < |Scores(query, db.cardsFile.records).value| ==> Scores(query, db.cardsFile.records).value[j] >= Cutoff
    ensures Compare(query, db) == Success(None)
  {
  }

  /**
    `compareCards` raises exactly when the cards file is unreadable, or it was
    read and the set file is missing or unreadable, a card cannot be scored,
    or there are no cards; a missing cards file answers None.
   */
  lemma CompareFailsIff(query: seq<Bits>, db: Database)
    requires |query| == 4
    ensures Compare(query, db).Failure? <==>
      || db.cardsFile.Malformed?
      || (db.cardsFile.Written? && (db.setFile.Missing? || db.setFile.Malformed? ||
          Scores(query, db.cardsFile.records).Failure? || db.cardsFile.records == []))
    ensures db.cardsFile.Missing? ==> Compare(query, db) == Success(None)
  {
    if db.cardsFile.Written? && db.setFile.Written? && Scores(query, db.cardsFile.records).Success? {
      ScoresSpec(query, db.cardsFile.records);
    }
  }

  // ---------------------------------------------------------------------------
  // Looking up an image the database was built from

  /** The hashes the scanner passes for an image, in the order `compareCards` reads them: average, wavelet, perceptual, difference. */
  function QueryOf(h: Hashers, img: Image): (q: seq<Bits>)
    ensures |q| == 4 && forall f :: 0 <= f < 4 ==> q[f] == Family(FingerprintOf(h, img), f) && |q[f]| == HashWidth
  {
    [h.average(img), h.wavelet(img), h.perceptual(img), h.difference(img)]
  }

  /** All sixteen stored strings read back as 64-bit hashes. */
  predicate RecordDecodes(rec: CardRecord)
  {
    forall f, o :: 0 <= f < 4 && 0 <= o < 4 ==>
      HexToBits(StoredHash(rec, f, o)).Some? && |HexToBits(StoredHash(rec, f, o)).value| == HashWidth
  }

  /** A record built from a scanned catalog stores only strings that read back as 64-bit hashes. */
  lemma BuiltRecordDecodes(c: Catalog, i: nat)
    requires Shaped(c) && HashesDecode(c) && i < |c.hashesUdMir|
    ensures RecordDecodes(CardRecordOf(c, i))
  {
    forall f, o | 0 <= f < 4 && 0 <= o < 4
      ensures HexToBits(StoredHash(CardRecordOf(c, i), f, o)).Some? && |HexToBits(StoredHash(CardRecordOf(c, i), f, o)).value| == HashWidth
    {
      CardRecordHashes(c, i, f, o);
      OrientationTuple(c, o, i);
    }
  }

  lemma OrientationTuple(c: Catalog, o: nat, i: nat)
    requires Shaped(c) && HashesDecode(c) && o < 4 && i < |c.hashesUdMir|
    ensures i < |OrientationHashes(c, o)| && HashTuple(OrientationHashes(c, o)[i])
  {
  }

  /** A query of 64-bit hashes scores every record whose strings all decode to 64-bit hashes. */
  lemma DecodingRecordIsScored(query: seq<Bits>, rec: CardRecord)
    requires |query| == 4 && (forall f :: 0 <= f < 4 ==> |query[f]| == HashWidth) && RecordDecodes(rec)
    ensures CardScore(query, rec).Success?
  {
    forall f, o | 0 <= f < 4 && 0 <= o < 4 ensures PairDistance(query, rec, f, o).Success? {
      HashDistanceSpec(query[f], StoredHash(rec, f, o));
    }
    CardScoreDefined(query, rec);
  }

  /**
    A record built from a catalog whose as-is tuple is the hashes of an image
    scores 0 against that image's query: its as-is orientation matches in
    every family.
   */
  lemma SelfMatchScoresZero(c: Catalog, i: nat, h: Hashers, img: Image)
    requires Shaped(c) && HashesDecode(c) && i < |c.hashesUdMir|
    requires c.hashes[i] == HashesForImage(h, img, "hash")
    ensures CardScore(QueryOf(h, img), CardRecordOf(c, i)) == Success(0)
  {
    var q, rec := QueryOf(h, img), CardRecordOf(c, i);
    BuiltRecordDecodes(c, i);
    DecodingRecordIsScored(q, rec);
    HashesForImageDecode(h, img, "hash");
    forall f | 0 <= f < 4 ensures FamilyExact(q, rec, f) {
      CardRecordHashes(c, i, f, 0);
      assert HexToBits(StoredHash(rec, f, 0)) == Some(q[f]);
    }
    ScoreZeroIffExactInSomeOrientation(q, rec);
  }

  /** In a set index whose k-th record carries number k + 1, the lookup of number b + 1 finds record b. */
  lemma DenseIndexFinds(index: seq<SetRecord>, b: nat)
    requires b < |index| && forall k :: 0 <= k < |index| ==> index[k].cardnumber == k + 1
    ensures FindByCardNumber(index, b + 1) == Some(index[b])
  {
    assert index[b].cardnumber == b + 1;
    var j :| 0 <= j < |index| && index[j] == FindByCardNumber(index, b + 1).value && index[j].cardnumber == b + 1;
  }

  /**
    With card numbers dense in the set file, an earliest best card b scoring
    below the cutoff is reported as card number b + 1 with the set fields of
    set record b.
   */
  lemma DenseIndexAnswer(query: seq<Bits>, db: Database, b: nat)
    requires |query| == 4 && db.cardsFile.Written? && db.setFile.Written?
    requires Scores(query, db.cardsFile.records).Success?
    requires EarliestBest(Scores(query, db.cardsFile.records).value, b)
    requires Scores(query, db.cardsFile.records).value[b] < Cutoff
    requires b < |db.setFile.records|
    requires forall k :: 0 <= k < |db.setFile.records| ==> db.setFile.records[k].cardnumber == k + 1
    ensures Compare(query, db) == Success(Some(Match(b + 1, db.setFile.records[b].setName, db.setFile.records[b].cardNumberInSet)))
  {
    DenseIndexFinds(db.setFile.records, b);
    CompareOutcome(query, db, b);
  }

  /** The two files hold exactly the records a successful build writes for catalog c. */
  predicate BuiltFrom(c: Catalog, built: Database)
  {
    && Shaped(c) && Aligned(c)
    && built.setFile.Written? && built.cardsFile.Written?
    && |built.setFile.records| == |c.cards|
    && (forall k :: 0 <= k < |c.cards| ==>
         built.setFile.records[k] == SetRecord(k + 1, c.cards[k].setName, c.cards[k].cardNumberInSet))
    && built.cardsFile.records == seq(|c.cards|, k requires 0 <= k < |c.cards| => CardRecordOf(c, k))
  }

  lemma BuildDatabaseBuiltFrom(c: Catalog, db: Database, now: int, built: Database)
    requires Shaped(c) && Aligned(c) && DenseIds(c) && |c.cards| > 0
    requires BuildDatabase(c, db, now) == Success(built)
    ensures BuiltFrom(c, built)
  {
    BuildRecords(c, db, now);
  }

  /** A query of 64-bit hashes scores every record of a database built from a scan, in card order. */
  lemma BuiltScores(c: Catalog, built: Database, q: seq<Bits>)
    requires HashesDecode(c) && BuiltFrom(c, built)
    requires |q| == 4 && forall f :: 0 <= f < 4 ==> |q[f]| == HashWidth
    ensures Scores(q, built.cardsFile.records).Success?
    ensures |Scores(q, built.cardsFile.records).value| == |c.cards|
    ensures forall k :: 0 <= k < |c.cards| ==> CardScore(q, CardRecordOf(c, k)) == Success(Scores(q, built.cardsFile.records).value[k])
  {
    var store := built.cardsFile.records;
    forall k | 0 <= k < |c.cards| ensures CardScore(q, store[k]).Success? {
      BuiltRecordDecodes(c, k);
      DecodingRecordIsScored(q, store[k]);
    }
    ScoresSpec(q, store);
  }

  /**
    The image card i was loaded from scores 0 against record i, so the
    earliest best card b comes no later than i and scores 0 as well.
   */
  lemma SelfMatchIsBest(c: Catalog, built: Database, h: Hashers, img: Image, i: nat) returns (b: nat)
    requires HashesDecode(c) && BuiltFrom(c, built)
    requires i < |c.cards| && c.hashes[i] == HashesForImage(h, img, "hash")
    ensures Scores(QueryOf(h, img), built.cardsFile.records).Success?
    ensures EarliestBest(Scores(QueryOf(h, img), built.cardsFile.records).value, b)
    ensures b <= i && Scores(QueryOf(h, img), built.cardsFile.records).value[b] == 0
    ensures CardScore(QueryOf(h, img), CardRecordOf(c, b)) == Success(0)
  {
    var q := QueryOf(h, img);
    BuiltScores(c, built, q);
    var scores := Scores(q, built.cardsFile.records).value;
    SelfMatchScoresZero(c, i, h, img);
    b := IndexOf(scores, Min(scores));
    EarliestBestIsIndexOfMin(scores, b);
    assert scores[b] <= scores[i] == 0;
  }

  /**
    In a database built from c, an earliest best card b scoring below the
    cutoff is reported with its own card number and set fields.
   */
  lemma BuiltAnswerNamesCard(c: Catalog, built: Database, q: seq<Bits>, b: nat)
    requires BuiltFrom(c, built) && |q| == 4
    requires Scores(q, built.cardsFile.records).Success?
    requires EarliestBest(Scores(q, built.cardsFile.records).value, b)
    requires Scores(q, built.cardsFile.records).value[b] < Cutoff
    requires b < |c.cards|
    ensures Compare(q, built) == Success(Some(Match(b + 1, c.cards[b].setName, c.cards[b].cardNumberInSet)))
  {
    DenseIndexAnswer(q, built, b);
    assert built.setFile.records[b] == SetRecord(b + 1, c.cards[b].setName, c.cards[b].cardNumberInSet);
  }

  /**
    Looking up, in the database built from an aligned catalog, the hashes of
    the image card i was loaded from gives an answer: some card b no later
    than card i that also scores 0, reported as card number b + 1 with its
    own set name and number in set.
   */
  lemma FindsItsImage(c: Catalog, built: Database, h: Hashers, img: Image, i: nat) returns (b: nat)
    requires HashesDecode(c) && BuiltFrom(c, built)
    requires i < |c.cards| && c.hashes[i] == HashesForImage(h, img, "hash")
    ensures b <= i
    ensures Compare(QueryOf(h, img), built) == Success(Some(Match(b + 1, c.cards[b].setName, c.cards[b].cardNumberInSet)))
    ensures CardScore(QueryOf(h, img), CardRecordOf(c, b)) == Success(0)
  {
    b := SelfMatchIsBest(c, built, h, img, i);
    BuiltAnswerNamesCard(c, built, QueryOf(h, img), b);
  }

  /**
    Build the database from an aligned catalog, then look up an image whose
    upright hashes are card i's: the answer is a card b no later than i that
    scores 0, reported with its own set name and number in set.
   */
  lemma BuiltCatalogFindsItsImage(c: Catalog, db: Database, now: int, built: Database, h: Hashers, img: Image, i: nat) returns (b: nat)
    requires Shaped(c) && HashesDecode(c) && Aligned(c) && DenseIds(c)
    requires BuildDatabase(c, db, now) == Success(built)
    requires i < |c.cards| && c.hashes[i] == HashesForImage(h, img, "hash")
    ensures b <= i
    ensures Compare(QueryOf(h, img), built) == Success(Some(Match(b + 1, c.cards[b].setName, c.cards[b].cardNumberInSet)))
    ensures CardScore(QueryOf(h, img), CardRecordOf(c, b)) == Success(0)
  {
    BuildDatabaseBuiltFrom(c, db, now, built);
    b := FindsItsImage(c, built, h, img, i);
  }
}
