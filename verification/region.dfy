/**
 * The crop of main.py:47-48: `gray[y:y + h, x:x + w]`, a NumPy slice of the
 * grayscale image by the bounding box of the selected boundary.
 */
module Region {
  import opened Candidates

  /** One 8-bit grayscale intensity (`cv2.COLOR_BGR2GRAY` yields `uint8`). */
  type Pixel = p: int | 0 <= p < 256

  /** An image as its rows of pixels. */
  type Grid = seq<seq<Pixel>>

  /** Every row of `g` has `width` pixels. */
  predicate IsRect(g: Grid, width: nat)
  {
    forall i :: 0 <= i < |g| ==> |g[i]| == width
  }

  /**
   * Python's `s[start:stop]` for non-negative bounds: both bounds are clamped
   * to the length, and a stop before the start gives an empty slice.
   */
  function Slice<T>(s: seq<T>, start: nat, stop: nat): (r: seq<T>)
    ensures r != [] ==> start + |r| <= |s|
    ensures |r| <= stop - start || (stop <= start && r == [])
    ensures start <= stop <= |s| ==> |r| == stop - start
    ensures forall k :: 0 <= k < |r| ==> r[k] == s[start + k]
  {
    var lo, hi := Min(start, |s|), Min(stop, |s|);
    if lo <= hi then s[lo..hi] else []
  }

  /**
   * The pixels inside the box: rows `y .. y+h` of the image, and in each of
   * them columns `x .. x+w`, clamped at the image border as NumPy does.
   */
  function CropBox(gray: Grid, b: Box): (crop: Grid)
    ensures |crop| <= b.h
    ensures forall i :: 0 <= i < |crop| ==> |crop[i]| <= b.w
    ensures forall i, j :: 0 <= i < |crop| && 0 <= j < |crop[i]| ==>
              b.y + i < |gray| && b.x + j < |gray[b.y + i]| && crop[i][j] == gray[b.y + i][b.x + j]
  {
    var rows := Slice(gray, b.y, b.y + b.h);
    seq(|rows|, i requires 0 <= i < |rows| => Slice(rows[i], b.x, b.x + b.w))
  }

  /**
   * A box that lies inside a rectangular image is cut out exactly: `h` rows of
   * `w` pixels, each the source pixel at the same offset; no padding, no
   * resampling.
   */
  lemma CropInsideImage(gray: Grid, width: nat, b: Box)
    requires IsRect(gray, width)
    requires b.y + b.h <= |gray| && b.x + b.w <= width
    ensures |CropBox(gray, b)| == b.h
    ensures forall i :: 0 <= i < b.h ==> |CropBox(gray, b)[i]| == b.w
    ensures forall i, j :: 0 <= i < b.h && 0 <= j < b.w ==> CropBox(gray, b)[i][j] == gray[b.y + i][b.x + j]
  {
    var crop := CropBox(gray, b);
    forall i | 0 <= i < b.h
      ensures |crop[i]| == b.w
    {
      assert |gray[b.y + i]| == width;
    }
  }

  /**
   * Whatever the box, the crop of a rectangular image is rectangular, with the
   * box's size cut back to the part that overlaps the image.
   */
  lemma CropIsRect(gray: Grid, width: nat, b: Box)
    requires IsRect(gray, width)
    ensures |CropBox(gray, b)| == if b.y < |gray| then Min(b.h, |gray| - b.y) else 0
    ensures IsRect(CropBox(gray, b), if b.x < width then Min(b.w, width - b.x) else 0)
  {
    var crop := CropBox(gray, b);
    forall i | 0 <= i < |crop|
      ensures |crop[i]| == if b.x < width then Min(b.w, width - b.x) else 0
    {
      assert |gray[b.y + i]| == width;
    }
  }

  /** A box covering the whole image gives the image back. */
  lemma CropWholeImage(gray: Grid, width: nat)
    requires IsRect(gray, width)
    ensures CropBox(gray, Box(0, 0, width, |gray|)) == gray
  {
    var b := Box(0, 0, width, |gray|);
    CropInsideImage(gray, width, b);
    var crop := CropBox(gray, b);
    forall i | 0 <= i < |gray|
      ensures crop[i] == gray[i]
    {
      assert |crop[i]| == |gray[i]|;
    }
  }
}
