/**
  The whole pipeline on one tree: scan it, build the database from the scan,
  then look up a scanned image.
 */
module EndToEnd {
  import opened Wrappers
  import opened FileTree
  import opened CardLoading
  import opened CardData
  import opened ScanTrace
  import opened Matching

  /**
    End to end: `createDatabase` writes the database from an aligned scan of
    the cards tree; looking up the image of the file card i was loaded from
    then answers a card b no later than i that scores 0, reported as card
    number b + 1 with its own set name and number in set.
   */
  lemma BuiltDatabaseFindsItsImage(tree: CardsTree, h: Hashers, db: Database, now: int, built: Database, i: nat) returns (b: nat)
    requires Aligned(Scan(CardsRoot, tree, h))
    requires BuildDatabase(Scan(CardsRoot, tree, h), db, now) == Success(built)
    requires i < |Scan(CardsRoot, tree, h).cards|
    ensures var sets, o := SetOrder(tree), Origins(SetOrder(tree));
      && i < |o| && o[i].setIndex < |sets| && o[i].file.load.Opens?
      && Describes(Scan(CardsRoot, tree, h).cards[i], CardsRoot, sets[o[i].setIndex], o[i].file)
    ensures var c, img := Scan(CardsRoot, tree, h), Origins(SetOrder(tree))[i].file.load.image;
      && b <= i
      && Compare(QueryOf(h, img), built) == Success(Some(Match(b + 1, c.cards[b].setName, c.cards[b].cardNumberInSet)))
      && CardScore(QueryOf(h, img), CardRecordOf(c, b)) == Success(0)
  {
    var c := Scan(CardsRoot, tree, h);
    ScanCardImage(CardsRoot, tree, h, i);
    b := BuiltCatalogFindsItsImage(c, db, now, built, h, Origins(SetOrder(tree))[i].file.load.image, i);
  }
}
