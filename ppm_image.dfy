/**
 * The image operations behind the image differ, as values: enlarging an
 * image with zero values, upgrading its version, and XOR-ing two images
 * after both were brought to a common version and size.
 */
module PPMImage {
  import opened PPM

  // ---------------------------------------------------------------------
  // Enlarging
  // ---------------------------------------------------------------------

  /** `n` zero values, appended one at a time. */
  function Zeros(n: nat): (z: seq<Unsigned>)
    ensures |z| == n
  {
    if n == 0 then [] else Zeros(n - 1) + [0]
  }

  /** The `n` values from index `from` on, each 0 past the end of `data`. */
  function CopyValues(data: seq<Unsigned>, from: nat, n: nat): (r: seq<Unsigned>)
    ensures |r| == n
  {
    if n == 0 then [] else CopyValues(data, from, n - 1) + [At(data, from + n - 1)]
  }

  /**
   * The first `rows` rows of an enlarged image: each old row of `current`
   * values (read on from where the previous row stopped), then `extra` zeros.
   */
  function EnlargedRows(data: seq<Unsigned>, rows: nat, current: nat, extra: nat): (r: seq<Unsigned>)
  {
    if rows == 0 then []
    else EnlargedRows(data, rows - 1, current, extra) + CopyValues(data, Times(rows - 1, current), current) + Zeros(extra)
  }

  /** How much a dimension grows towards a target: nothing when the target is not larger. */
  function Growth(current: nat, target: nat): (g: nat)
    ensures current + g == if target > current then target else current
  {
    if target > current then target - current else 0
  }

  /**
   * `enlarge`: the image grown to at least `targetWidth` by `targetHeight`;
   * every old row keeps its values and gets zeros on its right, and zero
   * rows follow below.
   */
  function Enlarged(img: Image, targetWidth: nat, targetHeight: nat): (r: Image)
  {
    Image(
      img.version,
      img.width + Growth(img.width, targetWidth),
      img.height + Growth(img.height, targetHeight),
      img.colorDepth,
      EnlargedRows(img.data, img.height, Times(img.width, ValuesPerPixel(img.version)), Times(Growth(img.width, targetWidth), ValuesPerPixel(img.version)))
      + Zeros(Times(Growth(img.height, targetHeight), Times(img.width + Growth(img.width, targetWidth), ValuesPerPixel(img.version)))))
  }

  lemma {:induction false} ZerosAreZero(n: nat, k: nat)
    requires k < n
    ensures Zeros(n)[k] == 0
    decreases n
  {
    if k < n - 1 {
      ZerosAreZero(n - 1, k);
    }
  }

  lemma {:induction false} CopyValuesAt(data: seq<Unsigned>, from: nat, n: nat, k: nat)
    requires k < n
    ensures CopyValues(data, from, n)[k] == At(data, from + k)
    decreases n
  {
    if k < n - 1 {
      CopyValuesAt(data, from, n - 1, k);
    }
  }

  /** Copying every value from the start gives the values back. */
  lemma CopyAllValues(data: seq<Unsigned>)
    ensures CopyValues(data, 0, |data|) == data
  {
    forall k | 0 <= k < |data|
      ensures CopyValues(data, 0, |data|)[k] == data[k]
    {
      CopyValuesAt(data, 0, |data|, k);
    }
  }

  lemma {:induction false} CopyValuesAppend(data: seq<Unsigned>, from: nat, n: nat, m: nat)
    ensures CopyValues(data, from, n) + CopyValues(data, from + n, m) == CopyValues(data, from, n + m)
    decreases m
  {
    if m > 0 {
      CopyValuesAppend(data, from, n, m - 1);
      assert from + n + m - 1 == from + (n + m) - 1;
    }
  }

  lemma {:induction false} EnlargedRowsLength(data: seq<Unsigned>, rows: nat, current: nat, extra: nat)
    ensures |EnlargedRows(data, rows, current, extra)| == Times(rows, current + extra)
    decreases rows
  {
    if rows > 0 {
      EnlargedRowsLength(data, rows - 1, current, extra);
      TimesAppend(rows - 1, current + extra);
    }
  }

  /** `Times` grows by `b` at the top as well as at the bottom. */
  lemma TimesAppend(a: nat, b: nat)
    ensures Times(a + 1, b) == Times(a, b) + b
  {
  }

  lemma {:induction false} TimesMonotone(a: nat, c: nat, b: nat)
    requires a <= c
    ensures Times(a, b) <= Times(c, b)
    decreases c
  {
    if a < c {
      TimesMonotone(a, c - 1, b);
    }
  }

  /**
   * The value at column `c` of row `r` of the first `rows` enlarged rows:
   * the old row's value when `c` is inside the old row, 0 to its right.
   */
  lemma {:induction false} EnlargedRowsAt(data: seq<Unsigned>, rows: nat, current: nat, extra: nat, r: nat, c: nat)
    requires r < rows && c < current + extra
    ensures Times(r, current + extra) + c < |EnlargedRows(data, rows, current, extra)|
    ensures EnlargedRows(data, rows, current, extra)[Times(r, current + extra) + c]
         == if c < current then At(data, Times(r, current) + c) else 0
    decreases rows
  {
    var prefix := EnlargedRows(data, rows - 1, current, extra);
    var copied := CopyValues(data, Times(rows - 1, current), current);
    var zeros := Zeros(extra);
    EnlargedRowsLength(data, rows - 1, current, extra);
    if r < rows - 1 {
      EnlargedRowsAt(data, rows - 1, current, extra, r, c);
      ConcatenationPrefixAt(prefix, copied, zeros, Times(r, current + extra) + c);
    } else {
      ConcatenationAt(prefix, copied, zeros, c);
      if c < current {
        CopyValuesAt(data, Times(r, current), current, c);
      } else {
        ZerosAreZero(extra, c - current);
      }
    }
  }

  /** Index `i` inside `a` in `a + b + z` lands in `a`. */
  lemma ConcatenationPrefixAt(a: seq<Unsigned>, b: seq<Unsigned>, z: seq<Unsigned>, i: nat)
    requires i < |a|
    ensures i < |a + b + z| && (a + b + z)[i] == a[i]
  {
  }

  /** Index `c` past the end of `a` in `a + b + z` lands in `b`, or else in `z`. */
  lemma ConcatenationAt(a: seq<Unsigned>, b: seq<Unsigned>, z: seq<Unsigned>, c: nat)
    requires c < |b| + |z|
    ensures |a| + c < |a + b + z|
    ensures (a + b + z)[|a| + c] == if c < |b| then b[c] else z[c - |b|]
  {
  }

  /** Rows enlarged by nothing are the old values, read on from the start. */
  lemma {:induction false} EnlargedRowsWithoutExtra(data: seq<Unsigned>, rows: nat, current: nat)
    ensures EnlargedRows(data, rows, current, 0) == CopyValues(data, 0, Times(rows, current))
    decreases rows
  {
    if rows > 0 {
      var before := Times(rows - 1, current);
      var prefix := EnlargedRows(data, rows - 1, current, 0);
      var copied := CopyValues(data, before, current);
      assert EnlargedRows(data, rows, current, 0) == prefix + copied + Zeros(0);
      assert prefix + copied + Zeros(0) == prefix + copied;
      EnlargedRowsWithoutExtra(data, rows - 1, current);
      CopyValuesAppend(data, 0, before, current);
      TimesAppend(rows - 1, current);
    }
  }

  /** `Times` distributes over a sum of its first arguments. */
  lemma {:induction false} TimesAddLeft(a: nat, c: nat, b: nat)
    ensures Times(a + c, b) == Times(a, b) + Times(c, b)
    decreases a
  {
    if a > 0 {
      TimesAddLeft(a - 1, c, b);
      assert a + c - 1 == (a - 1) + c;
    }
  }

  /**
   * The enlarged image is as wide and as high as the larger of its old size
   * and the target, keeps version and depth, and holds exactly the values
   * its new size calls for, whatever the old number of values was.
   */
  lemma EnlargedShape(img: Image, targetWidth: nat, targetHeight: nat)
    ensures var r := Enlarged(img, targetWidth, targetHeight);
      && r.version == img.version && r.colorDepth == img.colorDepth
      && r.width == (if targetWidth > img.width then targetWidth else img.width)
      && r.height == (if targetHeight > img.height then targetHeight else img.height)
      && WellSized(r)
  {
    var r := Enlarged(img, targetWidth, targetHeight);
    var vpp := ValuesPerPixel(img.version);
    var gw := Growth(img.width, targetWidth);
    var gh := Growth(img.height, targetHeight);
    var newRow := Times(img.width + gw, vpp);
    EnlargedRowsLength(img.data, img.height, Times(img.width, vpp), Times(gw, vpp));
    TimesAddLeft(img.width, gw, vpp);
    TimesAddLeft(img.height, gh, newRow);
    assert |r.data| == Times(r.height, Times(r.width, ValuesPerPixel(r.version)));
    ValueCountByRows(r);
  }

  /**
   * The value at column `c` of row `r` of enlarged values (the enlarged
   * rows, then zero rows below): the old value inside the old rows, 0
   * elsewhere.
   */
  lemma EnlargedDataAt(data: seq<Unsigned>, rows: nat, below: nat, current: nat, extra: nat, r: nat, c: nat)
    requires r < rows + below && c < current + extra
    ensures var d := EnlargedRows(data, rows, current, extra) + Zeros(Times(below, current + extra));
      && Times(r, current + extra) + c < |d|
      && d[Times(r, current + extra) + c] == if r < rows && c < current then At(data, Times(r, current) + c) else 0
  {
    var upper := EnlargedRows(data, rows, current, extra);
    var zeros := Zeros(Times(below, current + extra));
    var i := Times(r, current + extra) + c;
    EnlargedRowsLength(data, rows, current, extra);
    if r < rows {
      EnlargedRowsAt(data, rows, current, extra, r, c);
      assert (upper + zeros)[i] == upper[i];
    } else {
      var k := r - rows;
      TimesAddLeft(rows, k, current + extra);
      TimesAppend(k, current + extra);
      TimesMonotone(k + 1, below, current + extra);
      ZerosAreZero(Times(below, current + extra), Times(k, current + extra) + c);
      assert (upper + zeros)[i] == zeros[Times(k, current + extra) + c];
    }
  }

  /** The enlarged image's values: the enlarged old rows, then the zero rows. */
  lemma EnlargedData(img: Image, targetWidth: nat, targetHeight: nat)
    ensures var vpp := ValuesPerPixel(img.version);
      var e := Enlarged(img, targetWidth, targetHeight);
      var current := Times(img.width, vpp);
      var extra := Times(Growth(img.width, targetWidth), vpp);
      && Times(e.width, vpp) == current + extra
      && e.data == EnlargedRows(img.data, img.height, current, extra) + Zeros(Times(Growth(img.height, targetHeight), current + extra))
  {
    TimesAddLeft(img.width, Growth(img.width, targetWidth), ValuesPerPixel(img.version));
  }

  /**
   * Every old value keeps its row and its place in the row: the value at
   * row `r`, index `c` of an old row is found at row `r`, index `c` of the
   * enlarged one (0 if the old image had too few values).
   */
  lemma EnlargedKeepsValues(img: Image, targetWidth: nat, targetHeight: nat, r: nat, c: nat)
    requires r < img.height && c < img.width * ValuesPerPixel(img.version)
    ensures var e := Enlarged(img, targetWidth, targetHeight);
      var i := r * (e.width * ValuesPerPixel(img.version)) + c;
      i < |e.data| && e.data[i] == At(img.data, r * (img.width * ValuesPerPixel(img.version)) + c)
  {
    var e := Enlarged(img, targetWidth, targetHeight);
    var vpp := ValuesPerPixel(img.version);
    var current := Times(img.width, vpp);
    var extra := Times(Growth(img.width, targetWidth), vpp);
    EnlargedData(img, targetWidth, targetHeight);
    TimesIsProduct(img.width, vpp);
    TimesIsProduct(e.width, vpp);
    EnlargedDataAt(img.data, img.height, Growth(img.height, targetHeight), current, extra, r, c);
    TimesIsProduct(r, current + extra);
    TimesIsProduct(r, current);
  }

  /** Everything the old image did not cover is 0: black in a P2 or P3, white in a P1. */
  lemma EnlargedIsZeroElsewhere(img: Image, targetWidth: nat, targetHeight: nat, r: nat, c: nat)
    requires var e := Enlarged(img, targetWidth, targetHeight);
      r < e.height && c < e.width * ValuesPerPixel(img.version)
    requires r >= img.height || c >= img.width * ValuesPerPixel(img.version)
    ensures var e := Enlarged(img, targetWidth, targetHeight);
      var i := r * (e.width * ValuesPerPixel(img.version)) + c;
      i < |e.data| && e.data[i] == 0
  {
    var e := Enlarged(img, targetWidth, targetHeight);
    var vpp := ValuesPerPixel(img.version);
    var current := Times(img.width, vpp);
    var extra := Times(Growth(img.width, targetWidth), vpp);
    EnlargedData(img, targetWidth, targetHeight);
    TimesIsProduct(img.width, vpp);
    TimesIsProduct(e.width, vpp);
    var w := e.width * vpp;
    assert w == current + extra && (r >= img.height || c >= current);
    TimesIsProduct(r, current + extra);
    assert r * w == Times(r, current + extra);
    EnlargedDataAt(img.data, img.height, Growth(img.height, targetHeight), current, extra, r, c);
  }

  /** Targets no larger than the image are ignored: enlarging to them is enlarging to the image's own size. */
  lemma EnlargeIgnoresSmallerTargets(img: Image, targetWidth: nat, targetHeight: nat)
    requires targetWidth <= img.width && targetHeight <= img.height
    ensures Enlarged(img, targetWidth, targetHeight) == Enlarged(img, img.width, img.height)
  {
  }

  /** An image that holds exactly its values is unchanged by enlarging it to its own size. */
  lemma EnlargeToOwnSizeIsIdentity(img: Image)
    requires WellSized(img)
    ensures Enlarged(img, img.width, img.height) == img
  {
    var current := Times(img.width, ValuesPerPixel(img.version));
    EnlargedRowsWithoutExtra(img.data, img.height, current);
    ValueCountByRows(img);
    CopyAllValues(img.data);
    assert Zeros(0) == [];
  }

  // ---------------------------------------------------------------------
  // Upgrading the version
  // ---------------------------------------------------------------------

  /**
   * A P1 value as a P2 gray: 0 stays 0, anything else becomes the target
   * depth, cut to the 32 bits of `unsigned`. A P1 reads 1 as black and a P2
   * reads its depth as white, so the colours come out inverted.
   */
  function GrayOf(value: Unsigned, targetColorDepth: nat): (g: Unsigned)
  {
    if value == 0 then 0 else (targetColorDepth % UNSIGNED_MODULUS) as Unsigned
  }

  function GraysOf(data: seq<Unsigned>, targetColorDepth: nat): (r: seq<Unsigned>)
    ensures |r| == |data|
  {
    seq(|data|, k requires 0 <= k < |data| => GrayOf(data[k], targetColorDepth))
  }

  /** The P1 to P2 step: values become grays and the version 2. */
  function UpgradedToP2(img: Image, targetColorDepth: nat): (r: Image)
  {
    if img.version == 1 then img.(version := 2, data := GraysOf(img.data, targetColorDepth)) else img
  }

  /**
   * The P2 to P3 step. The three-value pixels are computed but never stored,
   * so only the version changes.
   */
  function UpgradedToP3(img: Image, targetVersion: nat): (r: Image)
  {
    if img.version == 2 && targetVersion == 3 then img.(version := 3) else img
  }

  /**
   * `upgradeVersion`: nothing when the target is not above the current
   * version; otherwise the P1 to P2 and P2 to P3 steps as far as the target
   * asks, and the depth becomes the target depth.
   */
  function Upgraded(img: Image, targetVersion: nat, targetColorDepth: nat): (r: Image)
  {
    if targetVersion <= img.version then img
    else UpgradedToP3(UpgradedToP2(img, targetColorDepth), targetVersion).(colorDepth := targetColorDepth)
  }

  /** A target not above the current version changes nothing, not even the depth. */
  lemma UpgradeToLowerIsNoOp(img: Image, targetVersion: nat, targetColorDepth: nat)
    requires targetVersion <= img.version
    ensures Upgraded(img, targetVersion, targetColorDepth) == img
  {
  }

  /**
   * Between known versions, the upgraded version is the larger of the two,
   * width, height and the number of values are kept, and the depth is the
   * target's exactly when the version went up.
   */
  lemma UpgradedShape(img: Image, targetVersion: nat, targetColorDepth: nat)
    requires ValidVersion(img.version) && ValidVersion(targetVersion)
    ensures var r := Upgraded(img, targetVersion, targetColorDepth);
      && r.version == (if targetVersion > img.version then targetVersion else img.version)
      && r.width == img.width && r.height == img.height && |r.data| == |img.data|
      && r.colorDepth == (if targetVersion > img.version then targetColorDepth else img.colorDepth)
  {
  }

  /** Upgrading a P1: 0 stays 0, every other value becomes the target depth. */
  lemma UpgradeOfBitmap(img: Image, targetVersion: nat, targetColorDepth: nat, k: nat)
    requires img.version == 1 && targetVersion > 1 && k < |img.data|
    ensures var r := Upgraded(img, targetVersion, targetColorDepth);
      r.data[k] == (if img.data[k] == 0 then 0 else (targetColorDepth % UNSIGNED_MODULUS) as Unsigned)
  {
    var p2 := UpgradedToP2(img, targetColorDepth);
    assert p2.data == GraysOf(img.data, targetColorDepth);
    assert Upgraded(img, targetVersion, targetColorDepth).data == p2.data;
    assert p2.data[k] == GrayOf(img.data[k], targetColorDepth);
  }

  /**
   * Upgrading a P2 to P3 keeps one value per pixel: as written, the result
   * no longer holds the three values per pixel a P3 of its size needs.
   */
  lemma UpgradeToPixmapKeepsGrays(img: Image, targetColorDepth: nat)
    requires img.version == 2 && WellSized(img) && img.width * img.height >= 1
    ensures Upgraded(img, 3, targetColorDepth).data == img.data
    ensures !WellSized(Upgraded(img, 3, targetColorDepth))
  {
    var r := Upgraded(img, 3, targetColorDepth);
    assert ValueCount(r) == img.width * img.height * 3;
  }

  // ---------------------------------------------------------------------
  // XOR of two images
  // ---------------------------------------------------------------------

  /** Values XOR-ed position by position. */
  function XorValues(a: seq<Unsigned>, b: seq<Unsigned>): (r: seq<Unsigned>)
    requires |a| == |b|
    ensures |r| == |a|
  {
    seq(|a|, k requires 0 <= k < |a| => Xor(a[k], b[k]))
  }

  /** The receiver after the two upgrades and its enlargement. */
  function XorLeft(a: Image, b: Image): Image {
    Enlarged(Upgraded(a, b.version, b.colorDepth), b.width, b.height)
  }

  /** The copy of the right operand after the two upgrades and its enlargement. */
  function XorRight(a: Image, b: Image): Image {
    var left := Upgraded(a, b.version, b.colorDepth);
    Enlarged(Upgraded(b, left.version, left.colorDepth), XorLeft(a, b).width, XorLeft(a, b).height)
  }

  /**
   * Both operands end with the same version, the larger width and height,
   * and the same number of values: the three assertions before the XOR loop hold.
   */
  lemma XorOperandsAgree(a: Image, b: Image)
    requires ValidVersion(a.version) && ValidVersion(b.version)
    ensures var l := XorLeft(a, b); var r := XorRight(a, b);
      && l.version == r.version == (if a.version > b.version then a.version else b.version)
      && l.width == r.width == (if a.width > b.width then a.width else b.width)
      && l.height == r.height == (if a.height > b.height then a.height else b.height)
      && WellSized(l) && WellSized(r) && |l.data| == |r.data|
  {
    var left := Upgraded(a, b.version, b.colorDepth);
    UpgradedShape(a, b.version, b.colorDepth);
    var right := Upgraded(b, left.version, left.colorDepth);
    UpgradedShape(b, left.version, left.colorDepth);
    EnlargedShape(left, b.width, b.height);
    var l := XorLeft(a, b);
    EnlargedShape(right, l.width, l.height);
  }

  /**
   * `XORWith`: both images brought to the larger version (the receiver
   * first, then a copy of the right operand to the receiver's new version
   * and depth) and to the larger size, then the values XOR-ed.
   */
  function Xored(a: Image, b: Image): (r: Image)
    requires ValidVersion(a.version) && ValidVersion(b.version)
  {
    XorOperandsAgree(a, b);
    XorLeft(a, b).(data := XorValues(XorLeft(a, b).data, XorRight(a, b).data))
  }

  /**
   * The XOR image has the larger version, width and height of the two and
   * holds exactly the values its size calls for.
   */
  lemma XoredShape(a: Image, b: Image)
    requires ValidVersion(a.version) && ValidVersion(b.version)
    ensures var r := Xored(a, b);
      && r.version == (if a.version > b.version then a.version else b.version)
      && r.width == (if a.width > b.width then a.width else b.width)
      && r.height == (if a.height > b.height then a.height else b.height)
      && WellSized(r)
  {
    XorOperandsAgree(a, b);
  }

  /** Images of the same version and size, each holding exactly its values. */
  predicate SameShape(a: Image, b: Image) {
    && ValidVersion(a.version) && a.version == b.version
    && a.width == b.width && a.height == b.height
    && WellSized(a) && WellSized(b)
  }

  /**
   * For images of the same shape nothing is upgraded or enlarged: the XOR
   * keeps the receiver's header and XORs the values position by position.
   */
  lemma XorOfSameShape(a: Image, b: Image)
    requires SameShape(a, b)
    ensures Xored(a, b) == a.(data := XorValues(a.data, b.data))
  {
    UpgradeToLowerIsNoOp(a, b.version, b.colorDepth);
    UpgradeToLowerIsNoOp(b, a.version, a.colorDepth);
    EnlargeToOwnSizeIsIdentity(a);
    EnlargeToOwnSizeIsIdentity(b);
  }

  /** An image XOR-ed with itself has every value 0. */
  lemma XorWithItselfIsZero(a: Image)
    requires ValidVersion(a.version) && WellSized(a)
    ensures Xored(a, a) == a.(data := Zeros(|a.data|))
  {
    XorOfSameShape(a, a);
    forall k | 0 <= k < |a.data|
      ensures Xored(a, a).data[k] == Zeros(|a.data|)[k]
    {
      ZerosAreZero(|a.data|, k);
      XorSelf(a.data[k]);
    }
  }

  /** XOR-ing the difference with the second image again gives the first image back. */
  lemma XorTwiceRestores(a: Image, b: Image)
    requires SameShape(a, b)
    ensures Xored(Xored(a, b), b) == a
  {
    XorOfSameShape(a, b);
    var d := Xored(a, b);
    assert SameShape(d, b);
    XorOfSameShape(d, b);
    forall k | 0 <= k < |a.data|
      ensures Xored(d, b).data[k] == a.data[k]
    {
      XorCancel(a.data[k], b.data[k]);
    }
  }
}
