/**
  Raster images as grids of pixels (a sequence of rows), with the two
  geometric transforms the loader applies before hashing: `ImageOps.mirror`
  (left-right) and `ImageOps.flip` (top-bottom).
 */
module Images {

  type Pixel = int

  /** Rows of pixels, top row first. */
  type Image = seq<seq<Pixel>>

  function Reverse<T>(s: seq<T>): (r: seq<T>)
    ensures |r| == |s|
  {
    if s == [] then [] else Reverse(s[1..]) + [s[0]]
  }

  /** Element i of the reversal is element |s|-1-i of the original. */
  lemma {:induction false} ReverseAt<T>(s: seq<T>, i: nat)
    requires i < |s|
    ensures Reverse(s)[i] == s[|s| - 1 - i]
    decreases |s|
  {
    if i < |s| - 1 {
      ReverseAt(s[1..], i);
    }
  }

  /** `ImageOps.mirror`: every row read right to left. */
  function Mirror(img: Image): (r: Image)
    ensures |r| == |img|
  {
    if img == [] then [] else [Reverse(img[0])] + Mirror(img[1..])
  }

  /** `ImageOps.flip`: the rows in bottom-to-top order. */
  function Flip(img: Image): Image
  {
    Reverse(img)
  }

  /** Row i of the mirrored image is row i of the original, reversed. */
  lemma {:induction false} MirrorRow(img: Image, i: nat)
    requires i < |img|
    ensures Mirror(img)[i] == Reverse(img[i])
    decreases |img|
  {
    if i > 0 {
      MirrorRow(img[1..], i - 1);
    }
  }

  /** Mirroring keeps the row count and every row's length, and reads pixel j of row i from column w-1-j. */
  lemma MirrorPixels(img: Image, i: nat, j: nat)
    requires i < |img| && j < |img[i]|
    ensures |Mirror(img)| == |img|
    ensures |Mirror(img)[i]| == |img[i]|
    ensures Mirror(img)[i][j] == img[i][|img[i]| - 1 - j]
  {
    MirrorRow(img, i);
    ReverseAt(img[i], j);
  }

  /** Flipping keeps the row count and every row, and puts row i where row |img|-1-i was. */
  lemma FlipRows(img: Image, i: nat)
    requires i < |img|
    ensures |Flip(img)| == |img|
    ensures Flip(img)[i] == img[|img| - 1 - i]
  {
    ReverseAt(img, i);
  }

  /**
    Flipping a mirrored image turns it by 180 degrees: the pixel at row i,
    column j comes from row |img|-1-i, column w-1-j of the original.
   */
  lemma FlipOfMirrorIsHalfTurn(img: Image, i: nat, j: nat)
    requires i < |img| && j < |img[|img| - 1 - i]|
    ensures |Flip(Mirror(img))[i]| == |img[|img| - 1 - i]|
    ensures Flip(Mirror(img))[i][j] == img[|img| - 1 - i][|img[|img| - 1 - i]| - 1 - j]
  {
    FlipRows(Mirror(img), i);
    MirrorPixels(img, |img| - 1 - i, j);
  }

  /** Mirroring and flipping commute, so the order the loader applies them in does not matter. */
  lemma MirrorFlipCommute(img: Image)
    ensures Flip(Mirror(img)) == Mirror(Flip(img))
  {
    forall i | 0 <= i < |img|
      ensures Flip(Mirror(img))[i] == Mirror(Flip(img))[i]
    {
      FlipRows(Mirror(img), i);
      FlipRows(img, i);
      MirrorRow(img, |img| - 1 - i);
      MirrorRow(Flip(img), i);
    }
  }
}
