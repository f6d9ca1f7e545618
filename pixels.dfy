/** The three pixel scans of the shared library Train/lib.js: colour keying,
    the content bounding box and the opacity probe. Image data is the RGBA
    byte array of a canvas `ImageData`, four bytes per pixel, row by row. */
module Pixels {
  import opened Common
  import opened Geometry

  type Byte = b: int | 0 <= b < 256

  /** An RGB colour key such as `[255, 174, 201]`. */
  datatype Rgb = Rgb(r: Byte, g: Byte, b: Byte)

  /** A decoded canvas: its size and its RGBA bytes. */
  datatype Image = Image(width: nat, height: nat, data: seq<Byte>)

  predicate WellFormed(img: Image) {
    |img.data| == 4 * (img.width * img.height)
  }

  /** The alpha byte of pixel number p. */
  function Alpha(s: seq<Byte>, p: nat): Byte
    requires 4 * p + 3 < |s|
  {
    s[4 * p + 3]
  }

  /** The colour of the pixel whose alpha byte is at index j equals the key. */
  predicate KeyAt(s: seq<Byte>, j: int, c: Rgb)
    requires 3 <= j < |s|
  {
    s[j - 3] == c.r && s[j - 2] == c.g && s[j - 1] == c.b
  }

  /** Byte j after keying: an alpha byte whose pixel has the key colour becomes 0. */
  function KeyedByte(s: seq<Byte>, j: nat, c: Rgb): Byte
    requires j < |s|
  {
    if j % 4 == 3 && KeyAt(s, j, c) then 0 else s[j]
  }

  /** The bytes after the keying pass of `replaceColorByAlpha`. */
  function Keyed(s: seq<Byte>, c: Rgb): (r: seq<Byte>)
    requires |s| % 4 == 0
    ensures |r| == |s|
    ensures forall j :: 0 <= j < |s| && j % 4 != 3 ==> r[j] == s[j]
    ensures forall j :: 0 <= j < |s| && j % 4 == 3 ==> r[j] == if KeyAt(s, j, c) then 0 else s[j]
  {
    seq(|s|, j requires 0 <= j < |s| => KeyedByte(s, j, c))
  }

  /** Keying never touches a colour byte, so a second pass finds the same
      pixels and changes nothing. */
  lemma KeyedIdempotent(s: seq<Byte>, c: Rgb)
    requires |s| % 4 == 0
    ensures Keyed(Keyed(s, c), c) == Keyed(s, c)
  {
    var k := Keyed(s, c);
    var kk := Keyed(k, c);
    forall j | 0 <= j < |s| ensures kk[j] == k[j] {
      var i := PixelStart(j);
      assert j == i || j == i + 1 || j == i + 2 || j == i + 3;
      KeyedPixel(s, c, i);
      KeyedPixel(k, c, i);
    }
    assert kk == k;
  }

  /** The pixel loop of `replaceColorByAlpha`: a falsy key returns the image as
      is; otherwise the alpha byte of each pixel whose RGB equals the key is
      set to 0, in place. */
  method ReplaceColorByAlpha(data: array<Byte>, color: Option<Rgb>)
    requires data.Length % 4 == 0
    modifies data
    ensures color.None? ==> data[..] == old(data[..])
    ensures color.Some? ==> data[..] == Keyed(old(data[..]), color.value)
  {
    if color.None? {
      return;
    }
    var c := color.value;
    ghost var s0 := data[..];
    ghost var n := 0;
    var i := 0;
    while i < data.Length
      invariant 0 <= i <= data.Length && i == 4 * n
      invariant forall j {:trigger data[j]} :: 0 <= j < i ==> data[j] == KeyedByte(s0, j, c)
      invariant forall j {:trigger data[j]} :: i <= j < data.Length ==> data[j] == s0[j]
    {
      assert i % 4 == 0 && i + 3 < data.Length;
      KeyedBytes(s0, c, i);
      KeyPixel(data, i, c);
      assert data[i] == KeyedByte(s0, i, c) && data[i + 1] == KeyedByte(s0, i + 1, c);
      assert data[i + 2] == KeyedByte(s0, i + 2, c) && data[i + 3] == KeyedByte(s0, i + 3, c);
      forall j | i <= j < i + 4
        ensures data[j] == KeyedByte(s0, j, c)
      {
        assert j == i || j == i + 1 || j == i + 2 || j == i + 3;
      }
      i := i + 4;
      n := n + 1;
    }
    assert data[..] == Keyed(s0, c);
  }

  /** One step of the loop: the pixel starting at index i becomes transparent
      when its colour is the key; no other byte changes. */
  method KeyPixel(data: array<Byte>, i: nat, c: Rgb)
    requires i + 3 < data.Length
    modifies data
    ensures data[i + 3] == if old(data[i]) == c.r && old(data[i + 1]) == c.g && old(data[i + 2]) == c.b
      then 0 else old(data[i + 3])
    ensures forall j :: 0 <= j < data.Length && j != i + 3 ==> data[j] == old(data[j])
  {
    if data[i + 0] == c.r && data[i + 1] == c.g && data[i + 2] == c.b {
      data[i + 3] := 0;
    }
  }

  /** The index of the first byte of the pixel that byte j belongs to. */
  lemma PixelStart(j: nat) returns (i: nat)
    ensures i % 4 == 0 && i <= j < i + 4
  {
    i := j - j % 4;
  }

  /** The four bytes of the pixel starting at index i after keying, byte by byte. */
  lemma KeyedBytes(s: seq<Byte>, c: Rgb, i: nat)
    requires |s| % 4 == 0 && i % 4 == 0 && i + 3 < |s|
    ensures KeyedByte(s, i, c) == s[i] && KeyedByte(s, i + 1, c) == s[i + 1] && KeyedByte(s, i + 2, c) == s[i + 2]
    ensures KeyedByte(s, i + 3, c) == if s[i] == c.r && s[i + 1] == c.g && s[i + 2] == c.b then 0 else s[i + 3]
  {
    assert (i + 1) % 4 == 1 && (i + 2) % 4 == 2 && (i + 3) % 4 == 3;
  }

  /** The four bytes of the pixel starting at index i after keying. */
  lemma KeyedPixel(s: seq<Byte>, c: Rgb, i: nat)
    requires |s| % 4 == 0 && i % 4 == 0 && i + 3 < |s|
    ensures var r := Keyed(s, c);
      r[i] == s[i] && r[i + 1] == s[i + 1] && r[i + 2] == s[i + 2]
      && r[i + 3] == if s[i] == c.r && s[i + 1] == c.g && s[i + 2] == c.b then 0 else s[i + 3]
  {
    assert (i + 1) % 4 == 1 && (i + 2) % 4 == 2 && (i + 3) % 4 == 3;
  }

  /** The box `computeImageContentBBox` returns when no pixel is visible. */
  const NoContent := Box(0.0, 0.0, -1.0, -1.0)

  /** Pixel p of a `width`-wide image lies inside box b. */
  predicate PixelInside(b: Box, width: nat, p: nat)
    requires width > 0
  {
    Inside(b, (p % width) as real, (p / width) as real)
  }

  /** After scanning the first n pixels of s, the running box (minx, miny,
      maxx, maxy) is still the sentinel when none was visible, and otherwise
      holds every visible pixel seen so far, each side touched by the pixel
      named beside it. */
  ghost predicate Tracks(s: seq<Byte>, width: nat, n: nat, minx: int, miny: int, maxx: int, maxy: int,
                         pMinx: nat, pMaxx: nat, pMiny: nat, pMaxy: nat)
    requires 4 * n <= |s|
  {
    && (maxx == -1 ==> minx == 0 && miny == 0 && maxy == -1)
    && (maxx == -1 ==> forall p :: 0 <= p < n ==> Alpha(s, p) == 0)
    && (maxx != -1 ==> width > 0 && maxx >= 1)
    && (maxx != -1 ==> forall p :: 0 <= p < n && Alpha(s, p) > 0 ==>
         minx <= p % width < maxx && miny <= p / width < maxy)
    && (maxx != -1 ==>
         && pMinx < n && Alpha(s, pMinx) > 0 && pMinx % width == minx
         && pMaxx < n && Alpha(s, pMaxx) > 0 && pMaxx % width + 1 == maxx
         && pMiny < n && Alpha(s, pMiny) > 0 && pMiny / width == miny
         && pMaxy < n && Alpha(s, pMaxy) > 0 && pMaxy / width + 1 == maxy)
  }

  /** One pass of the loop of `computeImageContentBBox`, at byte i of pixel n:
      a visible pixel opens the box or widens it to take the pixel in. */
  method ScanPixel(data: array<Byte>, width: nat, height: nat, i: nat, minx: int, miny: int, maxx: int, maxy: int,
                   ghost n: nat, ghost pMinx: nat, ghost pMaxx: nat, ghost pMiny: nat, ghost pMaxy: nat)
    returns (minx': int, miny': int, maxx': int, maxy': int,
             ghost pMinx': nat, ghost pMaxx': nat, ghost pMiny': nat, ghost pMaxy': nat)
    requires data.Length == 4 * (width * height) && i == 4 * n && n < width * height
    requires Tracks(data[..], width, n, minx, miny, maxx, maxy, pMinx, pMaxx, pMiny, pMaxy)
    ensures Tracks(data[..], width, n + 1, minx', miny', maxx', maxy', pMinx', pMaxx', pMiny', pMaxy')
  {
    minx', miny', maxx', maxy' := minx, miny, maxx, maxy;
    pMinx', pMaxx', pMiny', pMaxy' := pMinx, pMaxx, pMiny, pMaxy;
    if data[i + 3] > 0 {
      assert Alpha(data[..], n) > 0;
      assert i / 4 == n && width > 0;
      var x := (i / 4) % width;
      var y := (i / 4) / width;
      if maxx == -1 {
        minx', miny', maxx', maxy' := x, y, x + 1, y + 1;
        pMinx', pMaxx', pMiny', pMaxy' := n, n, n, n;
      } else {
        if x < minx { minx' := x; pMinx' := n; }
        if y < miny { miny' := y; pMiny' := n; }
        if x + 1 > maxx { maxx' := x + 1; pMaxx' := n; }
        if y + 1 > maxy { maxy' := y + 1; pMaxy' := n; }
      }
    } else {
      assert Alpha(data[..], n) == 0;
    }
  }

  /** `computeImageContentBBox`: the smallest half-open box holding every
      pixel whose alpha is positive, or the sentinel {0, 0, -1, -1} when there
      is none. */
  method ComputeImageContentBBox(data: array<Byte>, width: nat, height: nat) returns (b: Box)
    requires data.Length == 4 * (width * height)
    ensures (forall p :: 0 <= p < width * height ==> Alpha(data[..], p) == 0) ==> b == NoContent
    ensures (exists p :: 0 <= p < width * height && Alpha(data[..], p) > 0) ==>
      && width > 0
      && (forall p :: 0 <= p < width * height && Alpha(data[..], p) > 0 ==> PixelInside(b, width, p))
      && (exists p :: 0 <= p < width * height && Alpha(data[..], p) > 0 && (p % width) as real == b.minx)
      && (exists p :: 0 <= p < width * height && Alpha(data[..], p) > 0 && (p % width + 1) as real == b.maxx)
      && (exists p :: 0 <= p < width * height && Alpha(data[..], p) > 0 && (p / width) as real == b.miny)
      && (exists p :: 0 <= p < width * height && Alpha(data[..], p) > 0 && (p / width + 1) as real == b.maxy)
  {
    var minx, miny, maxx, maxy := 0, 0, -1, -1;
    ghost var pMinx, pMaxx, pMiny, pMaxy := 0, 0, 0, 0;
    ghost var n := 0;
    var i := 0;
    while i < data.Length
      invariant 0 <= i <= data.Length && i == 4 * n
      invariant Tracks(data[..], width, n, minx, miny, maxx, maxy, pMinx, pMaxx, pMiny, pMaxy)
    {
      minx, miny, maxx, maxy, pMinx, pMaxx, pMiny, pMaxy :=
        ScanPixel(data, width, height, i, minx, miny, maxx, maxy, n, pMinx, pMaxx, pMiny, pMaxy);
      i := i + 4;
      n := n + 1;
    }
    assert n == width * height;
    b := Box(minx as real, miny as real, maxx as real, maxy as real);
  }

  /** The alpha byte of the pixel in column px, row py. */
  function PixelAlpha(img: Image, px: int, py: int): Byte
    requires WellFormed(img)
    requires 0 <= px < img.width && 0 <= py < img.height
  {
    PixelIndexInRange(px, py, img.width, img.height);
    Alpha(img.data, py * img.width + px)
  }

  /** `isOpaqueAt`: positions outside [0, width) x [0, height) are never
      opaque; inside, `getImageData` truncates the position to the pixel under
      it, whose alpha decides. */
  function IsOpaqueAt(img: Image, x: real, y: real): (r: bool)
    requires WellFormed(img)
    ensures !(0.0 <= x < img.width as real && 0.0 <= y < img.height as real) ==> !r
    ensures 0.0 <= x < img.width as real && 0.0 <= y < img.height as real ==>
      0 <= x.Floor < img.width && 0 <= y.Floor < img.height
      && (r <==> PixelAlpha(img, x.Floor, y.Floor) > 0)
  {
    if x < 0.0 || x >= img.width as real || y < 0.0 || y >= img.height as real then false
    else PixelAlpha(img, x.Floor, y.Floor) > 0
  }

  /** Every position inside one pixel gets the same answer as the pixel's corner. */
  lemma OpaqueIsPerPixel(img: Image, x: real, y: real)
    requires WellFormed(img)
    ensures IsOpaqueAt(img, x, y) == IsOpaqueAt(img, x.Floor as real, y.Floor as real)
  {
  }

  lemma PixelIndexInRange(x: int, y: int, w: nat, h: nat)
    requires 0 <= x < w && 0 <= y < h
    ensures 0 <= y * w + x < w * h
  {
    assert y * w <= (h - 1) * w;
  }
}
