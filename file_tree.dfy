/**
  The `cards/` reference tree as a value: the root's listing in the order the
  operating system returns it, each set directory with its files, and for each
  file its modification time and what happens when the loader opens and hashes
  it. Also the name rules the loader applies: the `.png` filter, the hidden
  directory filter, the filename stem, and the two sorts.
 */
module FileTree {
  import opened Wrappers
  import opened Images

  /** Index of the orientation hash call that raises: 0 'hash', 1 'hashmir', 2 'hashud', 3 'hashudmir'. */
  type HashStep = k: nat | k < 4

  /** How the four orientation hash computations on an opened image end. */
  datatype Hashing = Completes | FailsAt(step: HashStep)

  /** What `Image.open` and the hashing that follows do with a file. */
  datatype Load = OpenFails | Opens(image: Image, hashing: Hashing)

  /** A file in a set directory; `mtime` is None when `os.path.getmtime` raises. */
  datatype FileEntry = FileEntry(name: string, mtime: Option<int>, load: Load)

  /** An entry of the cards root; only directories have files. */
  datatype DirEntry = DirEntry(name: string, isDir: bool, files: seq<FileEntry>)

  /** The cards root: whether it exists, and its listing in `os.listdir` order. */
  datatype CardsTree = CardsTree(present: bool, listing: seq<DirEntry>)

  function LowerChar(c: char): char
  {
    if 'A' <= c <= 'Z' then (c as int - 'A' as int + 'a' as int) as char else c
  }

  /** `str.lower` on ASCII letters. */
  function Lower(s: string): (r: string)
    ensures |r| == |s|
    ensures forall i :: 0 <= i < |s| ==> r[i] == LowerChar(s[i])
  {
    seq(|s|, i requires 0 <= i < |s| => LowerChar(s[i]))
  }

  /** `name.lower().endswith('.png')`. */
  predicate IsPng(name: string)
  {
    |name| >= 4 && Lower(name[|name| - 4..]) == ".png"
  }

  predicate IsHidden(name: string)
  {
    |name| > 0 && name[0] == '.'
  }

  /** A set directory: a directory whose name does not start with a dot. */
  predicate IsSetDir(d: DirEntry)
  {
    d.isDir && !IsHidden(d.name)
  }

  /** The set directories of a listing, in listing order. */
  function VisibleSets(listing: seq<DirEntry>): (r: seq<DirEntry>)
    ensures forall d :: d in r <==> d in listing && IsSetDir(d)
  {
    if listing == [] then []
    else
      var last := listing[|listing| - 1];
      VisibleSets(listing[..|listing| - 1]) + if IsSetDir(last) then [last] else []
  }

  /** The `.png` files of a set directory, in listing order. */
  function PngFiles(files: seq<FileEntry>): (r: seq<FileEntry>)
    ensures forall f :: f in r <==> f in files && IsPng(f.name)
  {
    if files == [] then []
    else
      var last := files[|files| - 1];
      PngFiles(files[..|files| - 1]) + if IsPng(last.name) then [last] else []
  }

  /** Filtering keeps the listing order: the directories kept from a + b are those kept from a, then those from b. */
  lemma {:induction false} VisibleSetsAppend(a: seq<DirEntry>, b: seq<DirEntry>)
    ensures VisibleSets(a + b) == VisibleSets(a) + VisibleSets(b)
    decreases |b|
  {
    if b == [] {
      assert a + b == a;
    } else {
      var init, last := b[..|b| - 1], b[|b| - 1];
      var kept := if IsSetDir(last) then [last] else [];
      VisibleSetsAppend(a, init);
      assert (a + b)[..|a + b| - 1] == a + init;
      assert (a + b)[|a + b| - 1] == last;
      assert VisibleSets(a + b) == VisibleSets(a + init) + kept;
      assert VisibleSets(b) == VisibleSets(init) + kept;
      AppendAssociative(VisibleSets(a), VisibleSets(init), kept);
    }
  }

  /** Filtering keeps the listing order: the files kept from a + b are those kept from a, then those from b. */
  lemma {:induction false} PngFilesAppend(a: seq<FileEntry>, b: seq<FileEntry>)
    ensures PngFiles(a + b) == PngFiles(a) + PngFiles(b)
    decreases |b|
  {
    if b == [] {
      assert a + b == a;
    } else {
      var init, last := b[..|b| - 1], b[|b| - 1];
      var kept := if IsPng(last.name) then [last] else [];
      PngFilesAppend(a, init);
      assert (a + b)[..|a + b| - 1] == a + init;
      assert (a + b)[|a + b| - 1] == last;
      assert PngFiles(a + b) == PngFiles(a + init) + kept;
      assert PngFiles(b) == PngFiles(init) + kept;
      AppendAssociative(PngFiles(a), PngFiles(init), kept);
    }
  }

  // ---------------------------------------------------------------------------
  // Filename stem and numeric sort key

  /** Position of the last '.', or -1. */
  function LastDot(s: string): (i: int)
    ensures -1 <= i < |s|
    ensures i >= 0 ==> s[i] == '.'
    ensures forall j :: i < j < |s| ==> s[j] != '.'
  {
    if s == [] then -1
    else if s[|s| - 1] == '.' then |s| - 1
    else LastDot(s[..|s| - 1])
  }

  predicate AllDots(s: string)
  {
    forall j :: 0 <= j < |s| ==> s[j] == '.'
  }

  /**
    `os.path.splitext(name)[0]`: the name up to its last dot, unless only dots
    come before that dot (".png" has no extension).
   */
  function Stem(name: string): string
  {
    var d := LastDot(name);
    if d > 0 && !AllDots(name[..d]) then name[..d] else name
  }

  /** The stem is a prefix of the name. */
  lemma StemIsPrefix(name: string)
    ensures |Stem(name)| <= |name| && Stem(name) == name[..|Stem(name)|]
  {
  }

  /** The stem of a `.png` file name is the name without its last four characters, unless those are preceded only by dots. */
  lemma PngStem(name: string)
    requires IsPng(name)
    ensures Stem(name) == if AllDots(name[..|name| - 4]) then name else name[..|name| - 4]
  {
    var n := |name|;
    assert Lower(name[n - 4..])[0] == '.' && LowerChar(name[n - 4]) == '.';
    assert forall j :: n - 4 < j < n ==> LowerChar(name[j]) == Lower(name[n - 4..])[j - (n - 4)] != '.';
    assert LastDot(name) == n - 4;
  }

  /** `str.isdigit` on ASCII: a non-empty string of decimal digits. */
  predicate IsDigits(s: string)
  {
    |s| > 0 && forall i :: 0 <= i < |s| ==> '0' <= s[i] <= '9'
  }

  /** `int(s)` for a string of decimal digits. */
  function DecimalValue(s: string): nat
    requires forall i :: 0 <= i < |s| ==> '0' <= s[i] <= '9'
  {
    if s == [] then 0 else DecimalValue(s[..|s| - 1]) * 10 + (s[|s| - 1] as int - '0' as int)
  }

  /** A leading zero does not change the numeric value, so "007" sorts with key 7. */
  lemma {:induction false} LeadingZeroKeepsValue(s: string)
    requires forall i :: 0 <= i < |s| ==> '0' <= s[i] <= '9'
    ensures DecimalValue("0" + s) == DecimalValue(s)
  {
    if s != [] {
      LeadingZeroKeepsValue(s[..|s| - 1]);
      assert ("0" + s)[..|s|] == "0" + s[..|s| - 1];
    }
  }

  /** The key the loader sorts a stem by: its number when it is all digits, 0 otherwise. */
  function StemKey(stem: string): nat
  {
    if IsDigits(stem) then DecimalValue(stem) else 0
  }

  function SortKey(f: FileEntry): nat
  {
    StemKey(Stem(f.name))
  }

  // ---------------------------------------------------------------------------
  // `card_files.sort(key=...)`: a stable sort by a numeric key

  predicate KeySorted<T>(s: seq<T>, key: T -> nat)
  {
    forall i, j :: 0 <= i < j < |s| ==> key(s[i]) <= key(s[j])
  }

  /** The elements of s whose key is k, in their order in s. */
  function WithKey<T>(s: seq<T>, key: T -> nat, k: nat): seq<T>
  {
    if s == [] then []
    else WithKey(s[..|s| - 1], key, k) + if key(s[|s| - 1]) == k then [s[|s| - 1]] else []
  }

  lemma {:induction false} WithKeyAppend<T>(a: seq<T>, b: seq<T>, key: T -> nat, k: nat)
    ensures WithKey(a + b, key, k) == WithKey(a, key, k) + WithKey(b, key, k)
  {
    if b == [] {
      assert a + b == a;
    } else {
      var ab := a + b;
      WithKeyAppend(a, b[..|b| - 1], key, k);
      assert ab[..|ab| - 1] == a + b[..|b| - 1];
      assert ab[|ab| - 1] == b[|b| - 1];
    }
  }

  lemma {:induction false} WithKeyAbsent<T>(s: seq<T>, key: T -> nat, k: nat)
    requires forall i :: 0 <= i < |s| ==> key(s[i]) != k
    ensures WithKey(s, key, k) == []
  {
    if s != [] {
      WithKeyAbsent(s[..|s| - 1], key, k);
    }
  }

  lemma WithKeySingle<T>(x: T, key: T -> nat, k: nat)
    ensures WithKey([x], key, k) == if key(x) == k then [x] else []
  {
    assert [x][..0] == [];
  }

  /** Puts x after every element whose key is not greater than its own. */
  function InsertByKey<T>(x: T, s: seq<T>, key: T -> nat): (r: seq<T>)
    ensures multiset(r) == multiset(s) + multiset{x}
  {
    if s == [] then [x]
    else if key(x) < key(s[0]) then [x] + s
    else
      assert s == [s[0]] + s[1..];
      [s[0]] + InsertByKey(x, s[1..], key)
  }

  lemma {:induction false} InsertByKeySorted<T>(x: T, s: seq<T>, key: T -> nat)
    requires KeySorted(s, key)
    ensures KeySorted(InsertByKey(x, s, key), key)
  {
    if s != [] && key(x) >= key(s[0]) {
      var rest := InsertByKey(x, s[1..], key);
      InsertByKeySorted(x, s[1..], key);
      forall j | 0 <= j < |rest| ensures key(s[0]) <= key(rest[j]) {
        assert rest[j] in multiset(rest);
        assert rest[j] == x || rest[j] in s[1..];
      }
      assert forall j :: 0 < j < |[s[0]] + rest| ==> ([s[0]] + rest)[j] == rest[j - 1];
    }
  }

  lemma {:induction false} InsertByKeyWithKey<T>(x: T, s: seq<T>, key: T -> nat, k: nat)
    requires KeySorted(s, key)
    ensures WithKey(InsertByKey(x, s, key), key, k) == WithKey(s, key, k) + if key(x) == k then [x] else []
  {
    if s == [] {
      WithKeySingle(x, key, k);
    } else if key(x) < key(s[0]) {
      InsertAtFront(x, s, key, k);
    } else {
      var tail := s[1..];
      assert KeySorted(tail, key) by {
        forall i, j | 0 <= i < j < |tail| ensures key(tail[i]) <= key(tail[j]) {
          assert tail[i] == s[i + 1] && tail[j] == s[j + 1];
        }
      }
      InsertByKeyWithKey(x, tail, key, k);
      InsertBehind(x, s, key, k);
    }
  }

  lemma InsertAtFront<T>(x: T, s: seq<T>, key: T -> nat, k: nat)
    requires KeySorted(s, key) && s != [] && key(x) < key(s[0])
    ensures WithKey(InsertByKey(x, s, key), key, k) == WithKey(s, key, k) + if key(x) == k then [x] else []
  {
    assert InsertByKey(x, s, key) == [x] + s;
    WithKeyAppend([x], s, key, k);
    WithKeySingle(x, key, k);
    if key(x) == k {
      WithKeyAbsent(s, key, k);
    }
  }

  lemma AppendAssociative<T>(a: seq<T>, b: seq<T>, c: seq<T>)
    ensures a + (b + c) == (a + b) + c
  {
  }

  lemma InsertBehind<T>(x: T, s: seq<T>, key: T -> nat, k: nat)
    requires s != [] && key(x) >= key(s[0])
    requires WithKey(InsertByKey(x, s[1..], key), key, k) == WithKey(s[1..], key, k) + if key(x) == k then [x] else []
    ensures WithKey(InsertByKey(x, s, key), key, k) == WithKey(s, key, k) + if key(x) == k then [x] else []
  {
    var tail, rest := s[1..], InsertByKey(x, s[1..], key);
    var added: seq<T> := if key(x) == k then [x] else [];
    assert s == [s[0]] + tail;
    assert InsertByKey(x, s, key) == [s[0]] + rest;
    WithKeyAppend([s[0]], rest, key, k);
    WithKeyAppend([s[0]], tail, key, k);
    var head := WithKey([s[0]], key, k);
    calc {
      WithKey(InsertByKey(x, s, key), key, k);
      head + WithKey(rest, key, k);
      head + (WithKey(tail, key, k) + added);
      { AppendAssociative(head, WithKey(tail, key, k), added); }
      WithKey(s, key, k) + added;
    }
  }

  /**
    Python's `list.sort(key=key)`, which is stable: the result is ordered by
    key, holds the same elements, and elements of equal key keep their order.
   */
  function SortByKey<T>(s: seq<T>, key: T -> nat): (r: seq<T>)
    ensures KeySorted(r, key)
    ensures multiset(r) == multiset(s)
    ensures forall k :: WithKey(r, key, k) == WithKey(s, key, k)
  {
    if s == [] then []
    else
      var init, last := s[..|s| - 1], s[|s| - 1];
      var sortedInit := SortByKey(init, key);
      InsertByKeySorted(last, sortedInit, key);
      assert s == init + [last];
      assert forall k :: WithKey(InsertByKey(last, sortedInit, key), key, k) == WithKey(s, key, k) by {
        forall k ensures WithKey(InsertByKey(last, sortedInit, key), key, k) == WithKey(s, key, k) {
          InsertByKeyWithKey(last, sortedInit, key, k);
        }
      }
      InsertByKey(last, sortedInit, key)
  }

  /** The files a set contributes, in loading order: its `.png` files sorted by key. */
  function CardFiles(d: DirEntry): seq<FileEntry>
  {
    SortByKey(PngFiles(d.files), SortKey)
  }

  /** The files of a set come in key order. */
  lemma CardFilesSorted(d: DirEntry)
    ensures KeySorted(CardFiles(d), SortKey)
  {
  }

  /** Files of equal key (every non-numeric stem has key 0) keep their listing order. */
  lemma CardFilesStable(d: DirEntry)
    ensures forall k :: WithKey(CardFiles(d), SortKey, k) == WithKey(PngFiles(d.files), SortKey, k)
  {
  }

  /** The files of a set are exactly its `.png` files. */
  lemma CardFilesMembers(d: DirEntry)
    ensures forall f :: f in CardFiles(d) <==> f in d.files && IsPng(f.name)
  {
    var r := CardFiles(d);
    assert forall f :: f in r <==> f in multiset(r);
  }

  // ---------------------------------------------------------------------------
  // `sets.sort()`: Python's ordering of strings, by code point

  /** `a <= b` on Python strings. */
  predicate LexLe(a: string, b: string)
  {
    |a| == 0 || (|b| > 0 && (a[0] < b[0] || (a[0] == b[0] && LexLe(a[1..], b[1..]))))
  }

  lemma {:induction false} LexLeTotal(a: string, b: string)
    ensures LexLe(a, b) || LexLe(b, a)
  {
    if |a| > 0 && |b| > 0 && a[0] == b[0] {
      LexLeTotal(a[1..], b[1..]);
    }
  }

  lemma {:induction false} LexLeTransitive(a: string, b: string, c: string)
    requires LexLe(a, b) && LexLe(b, c)
    ensures LexLe(a, c)
  {
    if |a| > 0 && a[0] == b[0] && b[0] == c[0] {
      LexLeTransitive(a[1..], b[1..], c[1..]);
    }
  }

  lemma {:induction false} LexLeAntisymmetric(a: string, b: string)
    requires LexLe(a, b) && LexLe(b, a)
    ensures a == b
  {
    if |a| > 0 {
      LexLeAntisymmetric(a[1..], b[1..]);
      assert a == [a[0]] + a[1..] && b == [b[0]] + b[1..];
    }
  }

  predicate NamesSorted(s: seq<DirEntry>)
  {
    forall i, j :: 0 <= i < j < |s| ==> LexLe(s[i].name, s[j].name)
  }

  function InsertSet(d: DirEntry, s: seq<DirEntry>): (r: seq<DirEntry>)
    ensures multiset(r) == multiset(s) + multiset{d}
  {
    if s == [] then [d]
    else if !LexLe(s[0].name, d.name) then [d] + s
    else
      assert s == [s[0]] + s[1..];
      [s[0]] + InsertSet(d, s[1..])
  }

  lemma {:induction false} InsertSetSorted(d: DirEntry, s: seq<DirEntry>)
    requires NamesSorted(s)
    ensures NamesSorted(InsertSet(d, s))
  {
    if s == [] {
    } else if !LexLe(s[0].name, d.name) {
      LexLeTotal(s[0].name, d.name);
      forall j | 0 <= j < |s| ensures LexLe(d.name, s[j].name) {
        if j > 0 {
          LexLeTransitive(d.name, s[0].name, s[j].name);
        }
      }
      assert forall j :: 0 < j < |[d] + s| ==> ([d] + s)[j] == s[j - 1];
    } else {
      var rest := InsertSet(d, s[1..]);
      InsertSetSorted(d, s[1..]);
      forall j | 0 <= j < |rest| ensures LexLe(s[0].name, rest[j].name) {
        assert rest[j] in multiset(rest);
        assert rest[j] == d || rest[j] in s[1..];
      }
      assert forall j :: 0 < j < |[s[0]] + rest| ==> ([s[0]] + rest)[j] == rest[j - 1];
    }
  }

  /** `sorted` by name: set directories in lexicographic order, the same entries as the input. */
  function SortSets(s: seq<DirEntry>): (r: seq<DirEntry>)
    ensures NamesSorted(r)
    ensures multiset(r) == multiset(s)
  {
    if s == [] then []
    else
      var sortedInit := SortSets(s[..|s| - 1]);
      InsertSetSorted(s[|s| - 1], sortedInit);
      assert s == s[..|s| - 1] + [s[|s| - 1]];
      InsertSet(s[|s| - 1], sortedInit)
  }

  /**
    The set directories in the order the loader visits them: none when the root
    is missing; otherwise every non-hidden directory of the root, sorted by name.
   */
  function SetOrder(tree: CardsTree): seq<DirEntry>
  {
    if tree.present then SortSets(VisibleSets(tree.listing)) else []
  }

  /** The sets are visited in name order, and they are exactly the visible directories. */
  lemma SetOrderSpec(tree: CardsTree)
    ensures NamesSorted(SetOrder(tree))
    ensures forall d :: d in SetOrder(tree) <==> tree.present && d in tree.listing && IsSetDir(d)
  {
    var r := SetOrder(tree);
    assert forall d :: d in r <==> d in multiset(r);
  }

  predicate DistinctNames(listing: seq<DirEntry>)
  {
    forall i, j :: 0 <= i < j < |listing| ==> listing[i].name != listing[j].name
  }
}
