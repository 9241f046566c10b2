/**
  Where the loader's entries come from: each card, and each hash tuple, is traced back to the
  set directory and `.png` file it was read from, which gives the number of
  cards, their order, and when the five lists end up aligned.
 */
module ScanTrace {
  import opened Wrappers
  import opened FileTree
  import opened CardLoading

  /** A file the scan opened, with the position of its set directory in the visiting order. */
  datatype Origin = Origin(setIndex: nat, file: FileEntry)

  /** The files of one set that `Image.open` accepts, in loading order, tagged with the set's position. */
  function SetOrigins(n: nat, files: seq<FileEntry>): seq<Origin>
  {
    if files == [] then []
    else
      var last := files[|files| - 1];
      SetOrigins(n, files[..|files| - 1]) + if last.load.Opens? then [Origin(n, last)] else []
  }

  /** The files of every set, in the order the scan visits them. */
  function Origins(sets: seq<DirEntry>): seq<Origin>
  {
    if sets == [] then []
    else Origins(sets[..|sets| - 1]) + SetOrigins(|sets| - 1, CardFiles(sets[|sets| - 1]))
  }

  /** A set contributes exactly its files that open, tagged with its position. */
  lemma {:induction false} SetOriginsMembers(n: nat, files: seq<FileEntry>)
    ensures forall i: nat, f :: Origin(i, f) in SetOrigins(n, files) <==> i == n && f in files && f.load.Opens?
  {
    if files != [] {
      var init := files[..|files| - 1];
      SetOriginsMembers(n, init);
      assert files == init + [files[|files| - 1]];
    }
  }

  /** The scan reaches exactly the opening card files of the visited sets. */
  lemma {:induction false} OriginsMembers(sets: seq<DirEntry>)
    ensures forall i: nat, f :: Origin(i, f) in Origins(sets) <==> i < |sets| && f in CardFiles(sets[i]) && f.load.Opens?
  {
    if sets != [] {
      var n := |sets| - 1;
      var o1, o2 := Origins(sets[..n]), SetOrigins(n, CardFiles(sets[n]));
      assert Origins(sets) == o1 + o2;
      OriginsMembers(sets[..n]);
      SetOriginsMembers(n, CardFiles(sets[n]));
      forall i: nat, f
        ensures Origin(i, f) in o1 + o2 <==> i < |sets| && f in CardFiles(sets[i]) && f.load.Opens?
      {
        if i < n {
          assert sets[..n][i] == sets[i];
        }
      }
    }
  }

  lemma {:induction false} SetOriginsTagged(n: nat, files: seq<FileEntry>)
    ensures forall k :: 0 <= k < |SetOrigins(n, files)| ==> SetOrigins(n, files)[k].setIndex == n
  {
    if files != [] {
      SetOriginsTagged(n, files[..|files| - 1]);
    }
  }

  lemma OriginsIndexBound(sets: seq<DirEntry>)
    ensures forall k :: 0 <= k < |Origins(sets)| ==> Origins(sets)[k].setIndex < |sets|
  {
    var o := Origins(sets);
    OriginsMembers(sets);
    forall k | 0 <= k < |o| ensures o[k].setIndex < |sets| {
      assert Origin(o[k].setIndex, o[k].file) in o;
    }
  }

  /** A card entry records its set's name, the file's stem and the joined path. */
  predicate Describes(m: CardMeta, root: string, d: DirEntry, f: FileEntry)
  {
    && m.setName == d.name
    && m.cardNumberInSet == Stem(f.name)
    && m.filePath == Join(Join(root, d.name), f.name)
  }

  /** All four orientations of the file were hashed. */
  predicate FullyHashed(o: Origin)
  {
    o.file.load.Opens? && o.file.load.hashing.Completes?
  }

  /** How many of the origins were fully hashed. */
  function HashedCount(o: seq<Origin>): nat
  {
    if o == [] then 0
    else HashedCount(o[..|o| - 1]) + if FullyHashed(o[|o| - 1]) then 1 else 0
  }

  /** At most every origin is fully hashed, and all of them are exactly when the count reaches the length. */
  lemma {:induction false} HashedCountAll(o: seq<Origin>)
    ensures HashedCount(o) <= |o|
    ensures HashedCount(o) == |o| <==> forall k :: 0 <= k < |o| ==> FullyHashed(o[k])
  {
    if o != [] {
      var init := o[..|o| - 1];
      HashedCountAll(init);
      assert forall k :: 0 <= k < |init| ==> init[k] == o[k];
    }
  }

  lemma {:induction false} HashedCountAppend(a: seq<Origin>, b: seq<Origin>)
    ensures HashedCount(a + b) == HashedCount(a) + HashedCount(b)
  {
    if b == [] {
      assert a + b == a;
    } else {
      HashedCountAppend(a, b[..|b| - 1]);
      assert (a + b)[..|a + b| - 1] == a + b[..|b| - 1];
    }
  }

  /** `after` is `before` followed by one card per origin, each describing its file of set d. */
  predicate SetTraced(root: string, d: DirEntry, before: seq<CardMeta>, after: seq<CardMeta>, o: seq<Origin>)
  {
    && |after| == |before| + |o|
    && after[..|before|] == before
    && forall k :: 0 <= k < |o| ==> Describes(after[|before| + k], root, d, o[k].file)
  }

  /** One file adds a card exactly when it opens, and a last-orientation tuple exactly when it is fully hashed. */
  lemma LoadFileTrace(s: ScanState, h: Hashers, root: string, d: DirEntry, n: nat, f: FileEntry)
    ensures var c, c' := s.catalog, LoadFile(s, h, Join(root, d.name), d.name, f).catalog;
      && (f.load.Opens? ==> |c'.cards| == |c.cards| + 1 && c'.cards[..|c.cards|] == c.cards && Describes(c'.cards[|c.cards|], root, d, f))
      && (!f.load.Opens? ==> LoadFile(s, h, Join(root, d.name), d.name, f) == s)
      && |c'.hashesUdMir| == |c.hashesUdMir| + if FullyHashed(Origin(n, f)) then 1 else 0
  {
  }

  /**
    Loading one set appends one card per opened file, in loading order, each
    describing its file.
   */
  lemma {:induction false} LoadSetTrace(s: ScanState, h: Hashers, root: string, d: DirEntry, n: nat, files: seq<FileEntry>)
    ensures SetTraced(root, d, s.catalog.cards, LoadSet(s, h, root, d, files).catalog.cards, SetOrigins(n, files))
  {
    if files != [] {
      var init, last := files[..|files| - 1], files[|files| - 1];
      LoadSetTrace(s, h, root, d, n, init);
      var s1 := LoadSet(s, h, root, d, init);
      LoadFileTrace(s1, h, root, d, n, last);
      var o1 := SetOrigins(n, init);
      var c, c1, c' := s.catalog, s1.catalog, LoadSet(s, h, root, d, files).catalog;
      assert c' == LoadFile(s1, h, Join(root, d.name), d.name, last).catalog;
      if last.load.Opens? {
        var o := o1 + [Origin(n, last)];
        assert SetOrigins(n, files) == o;
        forall k | 0 <= k < |o|
          ensures Describes(c'.cards[|c.cards| + k], root, d, o[k].file)
        {
          if k < |o1| {
            assert c'.cards[|c.cards| + k] == c1.cards[|c.cards| + k];
          }
        }
      } else {
        assert SetOrigins(n, files) == o1;
      }
    }
  }

  /** Loading one set adds one tuple to `hashesudmir` per file hashed in all four orientations. */
  lemma {:induction false} LoadSetHashed(s: ScanState, h: Hashers, root: string, d: DirEntry, n: nat, files: seq<FileEntry>)
    ensures |LoadSet(s, h, root, d, files).catalog.hashesUdMir| == |s.catalog.hashesUdMir| + HashedCount(SetOrigins(n, files))
  {
    if files != [] {
      var init, last := files[..|files| - 1], files[|files| - 1];
      LoadSetHashed(s, h, root, d, n, init);
      var s1 := LoadSet(s, h, root, d, init);
      LoadFileTrace(s1, h, root, d, n, last);
      var o1 := SetOrigins(n, init);
      if last.load.Opens? {
        assert SetOrigins(n, files) == o1 + [Origin(n, last)];
        HashedCountAppend(o1, [Origin(n, last)]);
        assert HashedCount([Origin(n, last)]) == if FullyHashed(Origin(n, last)) then 1 else 0;
      } else {
        assert SetOrigins(n, files) == o1;
      }
    }
  }

  /** `after` is `before` followed by one card per origin, each describing its file. */
  predicate Traced(root: string, sets: seq<DirEntry>, before: seq<CardMeta>, after: seq<CardMeta>, o: seq<Origin>)
  {
    && |after| == |before| + |o|
    && after[..|before|] == before
    && forall k :: 0 <= k < |o| ==>
      o[k].setIndex < |sets| && Describes(after[|before| + k], root, sets[o[k].setIndex], o[k].file)
  }

  /** The same for the outer loop over the set directories. */
  lemma {:induction false} LoadSetsTrace(s: ScanState, h: Hashers, root: string, sets: seq<DirEntry>)
    ensures Traced(root, sets, s.catalog.cards, LoadSets(s, h, root, sets).catalog.cards, Origins(sets))
  {
    if sets != [] {
      var n := |sets| - 1;
      LoadSetsTrace(s, h, root, sets[..n]);
      var s1 := LoadSets(s, h, root, sets[..n]);
      LoadSetTrace(s1, h, root, sets[n], n, CardFiles(sets[n]));
      TracedStep(root, sets, s.catalog.cards, s1.catalog.cards, LoadSets(s, h, root, sets).catalog.cards);
    }
  }

  /** Gluing the trace of the earlier sets to the trace of the last one. */
  lemma TracedStep(root: string, sets: seq<DirEntry>, c: seq<CardMeta>, c1: seq<CardMeta>, c': seq<CardMeta>)
    requires sets != []
    requires Traced(root, sets[..|sets| - 1], c, c1, Origins(sets[..|sets| - 1]))
    requires SetTraced(root, sets[|sets| - 1], c1, c', SetOrigins(|sets| - 1, CardFiles(sets[|sets| - 1])))
    ensures Traced(root, sets, c, c', Origins(sets))
  {
    var n := |sets| - 1;
    var o1, o2 := Origins(sets[..n]), SetOrigins(n, CardFiles(sets[n]));
    assert Origins(sets) == o1 + o2;
    SetOriginsTagged(n, CardFiles(sets[n]));
    TracedAppend(root, sets, c, c1, c', o1, o2);
  }

  lemma TracedAppend(root: string, sets: seq<DirEntry>, c: seq<CardMeta>, c1: seq<CardMeta>, c': seq<CardMeta>, o1: seq<Origin>, o2: seq<Origin>)
    requires sets != []
    requires Traced(root, sets[..|sets| - 1], c, c1, o1)
    requires SetTraced(root, sets[|sets| - 1], c1, c', o2)
    requires forall k :: 0 <= k < |o2| ==> o2[k].setIndex == |sets| - 1
    ensures Traced(root, sets, c, c', o1 + o2)
  {
    var n := |sets| - 1;
    var o := o1 + o2;
    assert c'[..|c|] == c1[..|c|];
    forall k | 0 <= k < |o|
      ensures o[k].setIndex < |sets| && Describes(c'[|c| + k], root, sets[o[k].setIndex], o[k].file)
    {
      if k < |o1| {
        assert o[k] == o1[k];
        assert c'[|c| + k] == c1[|c| + k];
        assert sets[o[k].setIndex] == sets[..n][o1[k].setIndex];
      } else {
        assert o[k] == o2[k - |o1|];
      }
    }
  }

  lemma {:induction false} LoadSetsHashed(s: ScanState, h: Hashers, root: string, sets: seq<DirEntry>)
    ensures |LoadSets(s, h, root, sets).catalog.hashesUdMir| == |s.catalog.hashesUdMir| + HashedCount(Origins(sets))
  {
    if sets != [] {
      var n := |sets| - 1;
      var init, d := sets[..n], sets[n];
      LoadSetsHashed(s, h, root, init);
      LoadSetHashed(LoadSets(s, h, root, init), h, root, d, n, CardFiles(d));
      HashedCountAppend(Origins(init), SetOrigins(n, CardFiles(d)));
    }
  }

  /**
    The loader holds one card per `.png` file that `Image.open` accepted in a
    visible set directory, in visiting order, each carrying its set's name,
    its file's stem and its path under the root.
   */
  lemma ScanTraced(root: string, tree: CardsTree, h: Hashers)
    ensures var c, sets := Scan(root, tree, h).cards, SetOrder(tree); var o := Origins(sets);
      && |c| == |o|
      && forall k :: 0 <= k < |o| ==> o[k].setIndex < |sets| && Describes(c[k], root, sets[o[k].setIndex], o[k].file)
  {
    LoadSetsTrace(Start(EmptyCatalog), h, root, SetOrder(tree));
  }

  /** Every traced file is a `.png` file of a visible set directory, and it opened. */
  lemma OriginsAreOpenedPngs(tree: CardsTree)
    ensures var sets := SetOrder(tree); var o := Origins(sets);
      forall k :: 0 <= k < |o| ==>
        && o[k].setIndex < |sets|
        && tree.present && sets[o[k].setIndex] in tree.listing && IsSetDir(sets[o[k].setIndex])
        && o[k].file in sets[o[k].setIndex].files && IsPng(o[k].file.name) && o[k].file.load.Opens?
  {
    var sets := SetOrder(tree);
    var o := Origins(sets);
    SetOrderSpec(tree);
    OriginsMembers(sets);
    forall k | 0 <= k < |o|
      ensures && o[k].setIndex < |sets|
        && tree.present && sets[o[k].setIndex] in tree.listing && IsSetDir(sets[o[k].setIndex])
        && o[k].file in sets[o[k].setIndex].files && IsPng(o[k].file.name) && o[k].file.load.Opens?
    {
      assert Origin(o[k].setIndex, o[k].file) in o;
      CardFilesMembers(sets[o[k].setIndex]);
    }
  }

  /**
    The five lists come out aligned exactly when every opened file was hashed
    in all four orientations; one failure leaves `hashesudmir` shorter than
    `cards`.
   */
  lemma ScanAlignedIffAllHashed(root: string, tree: CardsTree, h: Hashers)
    ensures var o := Origins(SetOrder(tree));
      Aligned(Scan(root, tree, h)) <==> forall k :: 0 <= k < |o| ==> FullyHashed(o[k])
  {
    var c := Scan(root, tree, h);
    LoadSetsTrace(Start(EmptyCatalog), h, root, SetOrder(tree));
    LoadSetsHashed(Start(EmptyCatalog), h, root, SetOrder(tree));
    HashedCountAll(Origins(SetOrder(tree)));
    assert Shaped(c);
  }

  /** Dropping the files that fail to open keeps the key order. */
  lemma {:induction false} SetOriginsSorted(n: nat, files: seq<FileEntry>)
    requires KeySorted(files, SortKey)
    ensures forall i, j :: 0 <= i < j < |SetOrigins(n, files)| ==>
      SortKey(SetOrigins(n, files)[i].file) <= SortKey(SetOrigins(n, files)[j].file)
  {
    if files != [] {
      var init, last := files[..|files| - 1], files[|files| - 1];
      assert KeySorted(init, SortKey);
      SetOriginsSorted(n, init);
      SetOriginsMembers(n, init);
      var o1 := SetOrigins(n, init);
      var o := SetOrigins(n, files);
      if last.load.Opens? {
        assert o == o1 + [Origin(n, last)];
      } else {
        assert o == o1;
      }
      forall i, j | 0 <= i < j < |o|
        ensures SortKey(o[i].file) <= SortKey(o[j].file)
      {
        if j < |o1| {
          assert o[i] == o1[i] && o[j] == o1[j];
          assert SortKey(o1[i].file) <= SortKey(o1[j].file);
        } else {
          assert o[i] == o1[i] && o[j] == Origin(n, last);
          assert Origin(o1[i].setIndex, o1[i].file) in o1;
          assert o1[i].file in init;
          var p :| 0 <= p < |init| && init[p] == o1[i].file;
          assert files[p] == init[p] && p < |files| - 1;
          assert SortKey(files[p]) <= SortKey(files[|files| - 1]);
          assert SortKey(o[i].file) <= SortKey(o[j].file);
        }
      }
    }
  }

  /** Set by set, and within a set in key order. */
  predicate InVisitOrder(o: seq<Origin>)
  {
    forall i, j :: 0 <= i < j < |o| ==>
      && o[i].setIndex <= o[j].setIndex
      && (o[i].setIndex == o[j].setIndex ==> SortKey(o[i].file) <= SortKey(o[j].file))
  }

  lemma InVisitOrderAppend(o1: seq<Origin>, o2: seq<Origin>, n: nat)
    requires InVisitOrder(o1) && forall k :: 0 <= k < |o1| ==> o1[k].setIndex < n
    requires forall k :: 0 <= k < |o2| ==> o2[k].setIndex == n
    requires forall i, j :: 0 <= i < j < |o2| ==> SortKey(o2[i].file) <= SortKey(o2[j].file)
    ensures InVisitOrder(o1 + o2)
  {
    var o := o1 + o2;
    forall i, j | 0 <= i < j < |o|
      ensures o[i].setIndex <= o[j].setIndex
      ensures o[i].setIndex == o[j].setIndex ==> SortKey(o[i].file) <= SortKey(o[j].file)
    {
      if j < |o1| {
        assert o[i] == o1[i] && o[j] == o1[j];
      } else if i < |o1| {
        assert o[i] == o1[i] && o[j] == o2[j - |o1|];
      } else {
        assert o[i] == o2[i - |o1|] && o[j] == o2[j - |o1|];
      }
    }
  }

  /** The origins come set by set, and within a set in key order. */
  lemma {:induction false} OriginsOrdered(sets: seq<DirEntry>)
    ensures InVisitOrder(Origins(sets))
  {
    if sets != [] {
      var n := |sets| - 1;
      OriginsOrdered(sets[..n]);
      OriginsIndexBound(sets[..n]);
      CardFilesSorted(sets[n]);
      SetOriginsSorted(n, CardFiles(sets[n]));
      SetOriginsTagged(n, CardFiles(sets[n]));
      InVisitOrderAppend(Origins(sets[..n]), SetOrigins(n, CardFiles(sets[n])), n);
    }
  }

  /** Cards come out grouped by set, in the sorted order of the set names. */
  lemma ScanSetOrder(root: string, tree: CardsTree, h: Hashers)
    ensures var c := Scan(root, tree, h).cards;
      forall i, j :: 0 <= i < j < |c| ==> LexLe(c[i].setName, c[j].setName)
  {
    var c, sets := Scan(root, tree, h).cards, SetOrder(tree);
    var o := Origins(sets);
    ScanTraced(root, tree, h);
    OriginsOrdered(sets);
    SetOrderSpec(tree);
    forall i, j | 0 <= i < j < |c|
      ensures LexLe(c[i].setName, c[j].setName)
    {
      if o[i].setIndex == o[j].setIndex {
        LexLeTotal(c[i].setName, c[i].setName);
      }
    }
  }

  /**
    Within one set (set directory names being distinct, as in any directory),
    cards come in the order of their numeric stems, non-numeric stems first.
   */
  lemma ScanCardOrderInSet(root: string, tree: CardsTree, h: Hashers)
    requires DistinctNames(SetOrder(tree))
    ensures var c := Scan(root, tree, h).cards;
      forall i, j :: 0 <= i < j < |c| && c[i].setName == c[j].setName ==>
        StemKey(c[i].cardNumberInSet) <= StemKey(c[j].cardNumberInSet)
  {
    var c, sets := Scan(root, tree, h).cards, SetOrder(tree);
    var o := Origins(sets);
    ScanTraced(root, tree, h);
    OriginsOrdered(sets);
    forall i, j | 0 <= i < j < |c| && c[i].setName == c[j].setName
      ensures StemKey(c[i].cardNumberInSet) <= StemKey(c[j].cardNumberInSet)
    {
      assert o[i].setIndex == o[j].setIndex;
    }
  }
  // ---------------------------------------------------------------------------
  // Which image each hash tuple was computed from

  /** Every origin was hashed in all four orientations. */
  predicate AllHashed(o: seq<Origin>)
  {
    forall k :: 0 <= k < |o| ==> FullyHashed(o[k])
  }

  /**
    The hash list of orientation t grew from `before` to `after` by one tuple
    per origin, each the hashes of that origin's image in orientation t.
   */
  predicate ListTraced(h: Hashers, t: nat, before: seq<seq<string>>, after: seq<seq<string>>, o: seq<Origin>)
    requires t < 4
  {
    && |after| == |before| + |o|
    && after[..|before|] == before
    && forall k :: 0 <= k < |o| ==>
      o[k].file.load.Opens? && after[|before| + k] == HashesForImage(h, o[k].file.load.image, OrientationTags[t])
  }

  /** A file that opens and is fully hashed adds its image's tuple to every orientation list; one that fails to open adds nothing. */
  lemma LoadFileHashes(s: ScanState, h: Hashers, setPath: string, setName: string, f: FileEntry, t: nat)
    requires t < 4
    requires f.load.Opens? ==> f.load.hashing.Completes?
    ensures OrientationHashes(LoadFile(s, h, setPath, setName, f).catalog, t) ==
      OrientationHashes(s.catalog, t) + if f.load.Opens? then [HashesForImage(h, f.load.image, OrientationTags[t])] else []
  {
  }

  /** Two traced stretches of one list make one. */
  lemma ListTracedAppend(h: Hashers, t: nat, c: seq<seq<string>>, c1: seq<seq<string>>, c': seq<seq<string>>, o1: seq<Origin>, o2: seq<Origin>)
    requires t < 4
    requires ListTraced(h, t, c, c1, o1) && ListTraced(h, t, c1, c', o2)
    ensures ListTraced(h, t, c, c', o1 + o2)
  {
    var o := o1 + o2;
    assert c'[..|c|] == c1[..|c|];
    forall k | 0 <= k < |o|
      ensures o[k].file.load.Opens? && c'[|c| + k] == HashesForImage(h, o[k].file.load.image, OrientationTags[t])
    {
      if k < |o1| {
        assert o[k] == o1[k] && c'[|c| + k] == c1[|c| + k];
      } else {
        assert o[k] == o2[k - |o1|];
      }
    }
  }

  /** The origins of a prefix of the files are a prefix of the origins. */
  lemma AllHashedPrefix(o1: seq<Origin>, o2: seq<Origin>)
    requires AllHashed(o1 + o2)
    ensures AllHashed(o1) && AllHashed(o2)
  {
    assert forall k :: 0 <= k < |o1| ==> o1[k] == (o1 + o2)[k];
    assert forall k :: 0 <= k < |o2| ==> o2[k] == (o1 + o2)[|o1| + k];
  }

  /** One file's append, as a traced stretch of orientation list t: one tuple from its image if it opens, none otherwise. */
  lemma FileListTraced(h: Hashers, t: nat, before: seq<seq<string>>, after: seq<seq<string>>, n: nat, f: FileEntry)
    requires t < 4
    requires after == before + if f.load.Opens? then [HashesForImage(h, f.load.image, OrientationTags[t])] else []
    ensures ListTraced(h, t, before, after, if f.load.Opens? then [Origin(n, f)] else [])
  {
  }

  /** When every opened file of a set is fully hashed, each orientation list gains one tuple per origin, from its image. */
  lemma {:induction false} LoadSetHashes(s: ScanState, h: Hashers, root: string, d: DirEntry, n: nat, files: seq<FileEntry>, t: nat)
    requires t < 4 && AllHashed(SetOrigins(n, files))
    ensures ListTraced(h, t, OrientationHashes(s.catalog, t), OrientationHashes(LoadSet(s, h, root, d, files).catalog, t), SetOrigins(n, files))
  {
    if files == [] {
      assert OrientationHashes(LoadSet(s, h, root, d, files).catalog, t) == OrientationHashes(s.catalog, t);
    } else {
      var init, last := files[..|files| - 1], files[|files| - 1];
      var o1 := SetOrigins(n, init);
      var o2 := if last.load.Opens? then [Origin(n, last)] else [];
      assert SetOrigins(n, files) == o1 + o2;
      AllHashedPrefix(o1, o2);
      LoadSetHashes(s, h, root, d, n, init, t);
      var s1 := LoadSet(s, h, root, d, init);
      if last.load.Opens? {
        assert FullyHashed(o2[0]);
      }
      LoadFileHashes(s1, h, Join(root, d.name), d.name, last, t);
      var l1, l' := OrientationHashes(s1.catalog, t), OrientationHashes(LoadSet(s, h, root, d, files).catalog, t);
      FileListTraced(h, t, l1, l', n, last);
      ListTracedAppend(h, t, OrientationHashes(s.catalog, t), l1, l', o1, o2);
    }
  }

  /** The same over the set directories. */
  lemma {:induction false} LoadSetsHashes(s: ScanState, h: Hashers, root: string, sets: seq<DirEntry>, t: nat)
    requires t < 4 && AllHashed(Origins(sets))
    ensures ListTraced(h, t, OrientationHashes(s.catalog, t), OrientationHashes(LoadSets(s, h, root, sets).catalog, t), Origins(sets))
  {
    if sets == [] {
      assert OrientationHashes(LoadSets(s, h, root, sets).catalog, t) == OrientationHashes(s.catalog, t);
    } else {
      var n := |sets| - 1;
      var init, d := sets[..n], sets[n];
      var o1, o2 := Origins(init), SetOrigins(n, CardFiles(d));
      assert Origins(sets) == o1 + o2;
      AllHashedPrefix(o1, o2);
      LoadSetsHashes(s, h, root, init, t);
      var s1 := LoadSets(s, h, root, init);
      LoadSetHashes(s1, h, root, d, n, CardFiles(d), t);
      ListTracedAppend(h, t, OrientationHashes(s.catalog, t), OrientationHashes(s1.catalog, t),
        OrientationHashes(LoadSets(s, h, root, sets).catalog, t), o1, o2);
    }
  }

  /**
    In an aligned scan, entry k of each of the four hash lists holds the
    hashes, in that list's orientation, of the image of the file card k was
    loaded from: the five lists line up card by card.
   */
  lemma ScanHashesTraced(root: string, tree: CardsTree, h: Hashers)
    requires Aligned(Scan(root, tree, h))
    ensures var c, o := Scan(root, tree, h), Origins(SetOrder(tree));
      && |o| == |c.cards|
      && forall k, t :: 0 <= k < |o| && 0 <= t < 4 ==>
        o[k].file.load.Opens? && OrientationHashes(c, t)[k] == HashesForImage(h, o[k].file.load.image, OrientationTags[t])
  {
    var c, o := Scan(root, tree, h), Origins(SetOrder(tree));
    ScanTraced(root, tree, h);
    ScanAlignedIffAllHashed(root, tree, h);
    forall t | 0 <= t < 4
      ensures ListTraced(h, t, [], OrientationHashes(c, t), o)
    {
      LoadSetsHashes(Start(EmptyCatalog), h, root, SetOrder(tree), t);
      assert OrientationHashes(Start(EmptyCatalog).catalog, t) == [];
    }
  }

  /** The upright tuple of card i of an aligned scan is the image of its opened file, hashed as is. */
  lemma ScanUprightHashes(root: string, tree: CardsTree, h: Hashers, i: nat)
    requires Aligned(Scan(root, tree, h)) && i < |Scan(root, tree, h).cards|
    ensures var o := Origins(SetOrder(tree));
      && i < |o| && o[i].file.load.Opens?
      && Scan(root, tree, h).hashes[i] == HashesForImage(h, o[i].file.load.image, "hash")
  {
    ScanHashesTraced(root, tree, h);
    var c, o := Scan(root, tree, h), Origins(SetOrder(tree));
    assert OrientationHashes(c, 0)[i] == HashesForImage(h, o[i].file.load.image, OrientationTags[0]);
  }

  /**
    Card i of an aligned scan was loaded from the opened file o[i], and its
    upright hash tuple is that file's image hashed as is.
   */
  lemma ScanCardImage(root: string, tree: CardsTree, h: Hashers, i: nat)
    requires Aligned(Scan(root, tree, h)) && i < |Scan(root, tree, h).cards|
    ensures var sets, o := SetOrder(tree), Origins(SetOrder(tree));
      && i < |o| && o[i].setIndex < |sets| && o[i].file.load.Opens?
      && Describes(Scan(root, tree, h).cards[i], root, sets[o[i].setIndex], o[i].file)
      && Scan(root, tree, h).hashes[i] == HashesForImage(h, o[i].file.load.image, "hash")
  {
    ScanTraced(root, tree, h);
    ScanUprightHashes(root, tree, h, i);
  }
}
