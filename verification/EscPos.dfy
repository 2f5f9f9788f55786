/** The 24-dot column image mode of ESC/POS (pkg/printer/image.go). */
module EscPos {
  import opened Prelude
  import opened Grid

  type Byte = x: nat | x < 256

  const ESC: Byte := 0x1B
  const LF: Byte := 10

  // ------------------------------------------------------------------------ bits

  /** Bit p of n, counted from the low end. */
  predicate Bit(n: nat, p: nat) {
    if p == 0 then n % 2 == 1 else Bit(n / 2, p - 1)
  }

  /** n | 1 << p. */
  function WithBit(n: nat, p: nat): nat {
    if p > 0 then 2 * WithBit(n / 2, p - 1) + n % 2
    else if n % 2 == 1 then n
    else n + 1
  }

  lemma {:induction false} WithBitFits(n: nat, p: nat, k: nat)
    requires n < Power(2, k) && p < k
    ensures WithBit(n, p) < Power(2, k)
  {
    if p > 0 { WithBitFits(n / 2, p - 1, k - 1); }
  }

  lemma {:induction false} WithBitAt(n: nat, p: nat, q: nat)
    ensures Bit(WithBit(n, p), q) <==> p == q || Bit(n, q)
  {
    if p > 0 && q > 0 { WithBitAt(n / 2, p - 1, q - 1); }
  }

  lemma {:induction false} NoBits(q: nat)
    ensures !Bit(0, q)
  {
    if q > 0 { NoBits(q - 1); }
  }

  /** b |= 1 << (7 - k). */
  function SetBit(b: Byte, k: nat): Byte
    requires k < 8
  {
    assert Power(2, 8) == 256;
    WithBitFits(b, 7 - k, 8);
    WithBit(b, 7 - k)
  }

  // --------------------------------------------------------------------- columns

  ghost predicate Proper(r: Raster) {
    |r.black| == Above(r.width, r.height)
  }

  /** Whether the dot at (x, y) is black; below the image nothing is. */
  predicate Dot(r: Raster, x: nat, y: nat)
    requires Proper(r) && x < r.width
  {
    if y >= r.height then false
    else
      AboveGrows(r.width, y, r.height);
      r.black[Above(r.width, y) + x]
  }

  /** The three bytes of a column after n of its 24 dots, most significant bit on top. */
  function Column(r: Raster, x: nat, y0: nat, n: nat): (c: seq<Byte>)
    requires Proper(r) && x < r.width && n <= 24
    ensures |c| == 3
  {
    if n == 0 then [0, 0, 0]
    else
      var c, bit := Column(r, x, y0, n - 1), n - 1;
      if Dot(r, x, y0 + bit) then c[bit / 8 := SetBit(c[bit / 8], bit % 8)] else c
  }

  /** Taking in dot n touches its own bit alone. */
  lemma {:induction false} ColumnStep(r: Raster, x: nat, y0: nat, n: nat, b: nat)
    requires Proper(r) && x < r.width && n < 24 && b < 24
    ensures Bit(Column(r, x, y0, n + 1)[b / 8], 7 - b % 8)
       <==> Bit(Column(r, x, y0, n)[b / 8], 7 - b % 8) || (b == n && Dot(r, x, y0 + n))
  {
    var c := Column(r, x, y0, n);
    if !Dot(r, x, y0 + n) {
      assert Column(r, x, y0, n + 1) == c;
    } else {
      assert Column(r, x, y0, n + 1) == c[n / 8 := SetBit(c[n / 8], n % 8)];
      if b / 8 == n / 8 {
        WithBitAt(c[n / 8], 7 - n % 8, 7 - b % 8);
        assert b == n <==> b % 8 == n % 8;
      }
    }
  }

  lemma {:induction false} ColumnBit(r: Raster, x: nat, y0: nat, n: nat, b: nat)
    requires Proper(r) && x < r.width && n <= 24 && b < 24
    ensures Bit(Column(r, x, y0, n)[b / 8], 7 - b % 8) <==> b < n && Dot(r, x, y0 + b)
  {
    if n == 0 {
      NoBits(7 - b % 8);
    } else {
      ColumnBit(r, x, y0, n - 1, b);
      ColumnStep(r, x, y0, n - 1, b);
    }
  }

  function Columns(r: Raster, x: nat, y0: nat): (c: seq<Byte>)
    requires Proper(r) && x <= r.width
    ensures |c| == 3 * x
  {
    if x == 0 then [] else Columns(r, x - 1, y0) + Column(r, x - 1, y0, 24)
  }

  function Header(width: nat): (h: seq<Byte>)
    ensures |h| == 5
  {
    [ESC, 0x2A, 33, width % 256, width / 256 % 256]
  }

  function Band(r: Raster, y0: nat): seq<Byte>
    requires Proper(r)
  {
    Header(r.width) + Columns(r, r.width, y0) + [LF]
  }

  /** The bands from row y0 to the end. */
  function Bands(r: Raster, y0: nat): seq<Byte>
    requires Proper(r)
    decreases r.height - y0
  {
    if y0 >= r.height then [] else Band(r, y0) + Bands(r, y0 + 24)
  }

  // --------------------------------------------------------------------- printer

  /** What the printer makes of one band: its width and column bytes. */
  datatype Strip = Strip(width: nat, columns: seq<Byte>)

  /** The printer's reading of a stream of bands. */
  function ReadStrips(s: seq<Byte>): Option<seq<Strip>> {
    if s == [] then Some([])
    else if |s| < 5 || s[0] != ESC || s[1] != 0x2A || s[2] != 33 then None
    else
      var w := s[3] as nat + 256 * s[4] as nat;
      var end := 5 + 3 * w;
      if |s| <= end || s[end] != LF then None
      else
        var rest := ReadStrips(s[end + 1..]);
        if rest.None? then None else Some([Strip(w, s[5..end])] + rest.value)
  }

  lemma {:induction false} HeaderWidth(width: nat)
    ensures Header(width)[..3] == [0x1B, 0x2A, 33]
    ensures Header(width)[3] as nat + 256 * Header(width)[4] as nat == width <==> width <= 65535
  {
  }

  lemma {:induction false} ReadBand(s: seq<Byte>, w: nat, columns: seq<Byte>, rest: seq<Byte>, tail: seq<Strip>)
    requires s == Header(w) + columns + [LF] + rest
    requires w <= 65535 && |columns| == 3 * w && ReadStrips(rest) == Some(tail)
    ensures ReadStrips(s) == Some([Strip(w, columns)] + tail)
  {
    HeaderWidth(w);
    assert s[..5] == Header(w) && forall k | 0 <= k < 5 :: s[k] == Header(w)[k];
    assert s[5..5 + 3 * w] == columns && s[5 + 3 * w] == LF && s[5 + 3 * w + 1..] == rest;
  }

  /** The printer puts a dot in column x, b dots down strip k. */
  ghost predicate Prints(strips: seq<Strip>, x: nat, k: nat, b: nat)
    requires b < 24
  {
    k < |strips| && 3 * x + b / 8 < |strips[k].columns| && Bit(strips[k].columns[3 * x + b / 8], 7 - b % 8)
  }

  function Strips(r: Raster, y0: nat): seq<Strip>
    requires Proper(r)
    decreases r.height - y0
  {
    if y0 >= r.height then []
    else [Strip(r.width, Columns(r, r.width, y0))] + Strips(r, y0 + 24)
  }

  lemma {:induction false} StripAt(r: Raster, y0: nat, k: nat)
    requires Proper(r)
    ensures k < |Strips(r, y0)| <==> y0 + 24 * k < r.height
    ensures k < |Strips(r, y0)| ==> Strips(r, y0)[k] == Strip(r.width, Columns(r, r.width, y0 + 24 * k))
    decreases k
  {
    if y0 < r.height && k > 0 { StripAt(r, y0 + 24, k - 1); }
  }

  predicate Fits(strip: Strip) {
    strip.width <= 65535 && |strip.columns| == 3 * strip.width
  }

  /** The bytes that make the printer print these strips. */
  function Stream(strips: seq<Strip>): seq<Byte>
    requires forall i | 0 <= i < |strips| :: Fits(strips[i])
  {
    if strips == [] then []
    else Header(strips[0].width) + strips[0].columns + [LF] + Stream(strips[1..])
  }

  lemma {:induction false} StreamRead(strips: seq<Strip>)
    requires forall i | 0 <= i < |strips| :: Fits(strips[i])
    ensures ReadStrips(Stream(strips)) == Some(strips)
  {
    if strips != [] {
      var head, tail := strips[0], strips[1..];
      StreamRead(tail);
      ReadBand(Stream(strips), head.width, head.columns, Stream(tail), tail);
      assert strips == [Strip(head.width, head.columns)] + tail;
    }
  }

  lemma {:induction false} BandsAreStream(r: Raster, y0: nat)
    requires Proper(r) && r.width <= 65535
    ensures var strips := Strips(r, y0); (forall i | 0 <= i < |strips| :: Fits(strips[i])) && Bands(r, y0) == Stream(strips)
    decreases r.height - y0
  {
    if y0 < r.height {
      BandsAreStream(r, y0 + 24);
      var strips := Strips(r, y0);
      assert strips[1..] == Strips(r, y0 + 24) && strips[0] == Strip(r.width, Columns(r, r.width, y0));
    }
  }

  lemma {:induction false} BandsRead(r: Raster, y0: nat)
    requires Proper(r) && r.width <= 65535
    ensures ReadStrips(Bands(r, y0)) == Some(Strips(r, y0))
  {
    BandsAreStream(r, y0);
    StreamRead(Strips(r, y0));
  }

  lemma {:induction false} ColumnsAt(r: Raster, n: nat, y0: nat, x: nat, j: nat)
    requires Proper(r) && x < n <= r.width && j < 3
    ensures Columns(r, n, y0)[3 * x + j] == Column(r, x, y0, 24)[j]
  {
    if x < n - 1 { ColumnsAt(r, n - 1, y0, x, j); }
  }

  lemma {:induction false} StripDots(r: Raster, x: nat, k: nat, b: nat)
    requires Proper(r) && x < r.width && b < 24
    ensures Prints(Strips(r, 0), x, k, b) <==> Dot(r, x, 24 * k + b)
  {
    StripAt(r, 0, k);
    if k < |Strips(r, 0)| {
      ColumnsAt(r, r.width, 24 * k, x, b / 8);
      ColumnBit(r, x, 24 * k, 24, b);
    }
  }

  /**
   * The printer puts a dot in row 24k+b of column x exactly where the raster
   * is black, and none on the padding rows of the last band.
   */
  lemma {:induction false} PrintedDots(r: Raster, x: nat, k: nat, b: nat)
    requires Proper(r) && r.width <= 65535 && x < r.width && b < 24
    ensures ReadStrips(Bands(r, 0)).Some?
    ensures Prints(ReadStrips(Bands(r, 0)).value, x, k, b) <==> Dot(r, x, 24 * k + b)
  {
    BandsRead(r, 0);
    StripDots(r, x, k, b);
  }

  // ------------------------------------------------------------------ operations

  method PackColumn(r: Raster, x: nat, y0: nat) returns (column: seq<Byte>)
    requires Proper(r) && x < r.width
    ensures column == Column(r, x, y0, 24)
  {
    var col := new Byte[3](i => 0);
    var bit := 0;
    assert col[..] == [0, 0, 0];
    while bit < 24
      invariant 0 <= bit <= 24 && col[..] == Column(r, x, y0, bit)
    {
      var black := DotAt(r, x, y0 + bit);
      if black {
        col[bit / 8] := SetBit(col[bit / 8], bit % 8);
      }
      bit := bit + 1;
    }
    column := col[..];
  }

  /** Rows below the image are skipped. */
  method DotAt(r: Raster, x: nat, y: nat) returns (black: bool)
    requires Proper(r) && x < r.width
    ensures black == Dot(r, x, y)
  {
    if y >= r.height { return false; }
    AboveGrows(r.width, y, r.height);
    AboveIs(r.width, y);
    black := r.black[y * r.width + x];
  }

  method PrintBand(r: Raster, y0: nat) returns (b: seq<Byte>)
    requires Proper(r)
    ensures b == Band(r, y0)
  {
    b := [ESC, 0x2A, 33, r.width % 256, r.width / 256 % 256];
    var x := 0;
    while x < r.width
      invariant 0 <= x <= r.width
      invariant b == Header(r.width) + Columns(r, x, y0)
    {
      var col := PackColumn(r, x, y0);
      b := b + col;
      x := x + 1;
    }
    b := b + [LF];
  }
}
