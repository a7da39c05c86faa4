/**
 * Bit-level transposition of a byte matrix in place.  The matrix holds
 * `rows` rows of equal byte width, each read as a row of bits in lsb0
 * order; after the call the buffer holds the columns of that bit matrix,
 * one after another, packed lsb0.
 */
module Transpose {
  import opened Wrappers
  import opened Arith
  import opened Blocks

  datatype TransposeError = InvalidNumberOfRows | MalformedSlice | InvalidNumberOfColumns

  predicate IsPow2(n: nat)
    decreases n
  {
    n == 1 || (n >= 2 && n % 2 == 0 && IsPow2(n / 2))
  }

  /** Packs eight bits, lowest first, into a byte. */
  function PackByte(b: seq<bool>): bv8
    requires |b| == 8
  {
    (if b[0] then 0x01 else 0) | (if b[1] then 0x02 else 0) | (if b[2] then 0x04 else 0)
    | (if b[3] then 0x08 else 0) | (if b[4] then 0x10 else 0) | (if b[5] then 0x20 else 0)
    | (if b[6] then 0x40 else 0) | (if b[7] then 0x80 else 0)
  }

  lemma PackByteBit(b: seq<bool>, t: nat)
    requires |b| == 8 && t < 8
    ensures ByteBit(PackByte(b), t) == b[t]
  {
    if t == 0 {} else if t == 1 {} else if t == 2 {} else if t == 3 {}
    else if t == 4 {} else if t == 5 {} else if t == 6 {} else {}
  }

  /** Bit n of a byte string, lsb0 within each byte. */
  predicate DataBit(d: seq<bv8>, n: nat)
    requires n < 8 * |d|
  {
    ByteBit(d[n / 8], n % 8)
  }

  /** Two byte strings with the same bits are equal. */
  lemma BitsDetermineBytes(a: seq<bv8>, b: seq<bv8>)
    requires |a| == |b|
    requires forall n :: 0 <= n < 8 * |a| ==> DataBit(a, n) == DataBit(b, n)
    ensures a == b
  {
    forall m | 0 <= m < |a|
      ensures a[m] == b[m]
    {
      forall t | 0 <= t < 8
        ensures ByteBit(a[m], t) == ByteBit(b[m], t)
      {
        DivModUnique(8 * m + t, 8, m, t);
        assert DataBit(a, 8 * m + t) == DataBit(b, 8 * m + t);
      }
      SameBitsSameByte(a[m], b[m]);
    }
  }

  lemma SameBitsSameByte(x: bv8, y: bv8)
    requires forall t :: 0 <= t < 8 ==> ByteBit(x, t) == ByteBit(y, t)
    ensures x == y
  {
    assert ByteBit(x, 0) == ByteBit(y, 0) && ByteBit(x, 1) == ByteBit(y, 1);
    assert ByteBit(x, 2) == ByteBit(y, 2) && ByteBit(x, 3) == ByteBit(y, 3);
    assert ByteBit(x, 4) == ByteBit(y, 4) && ByteBit(x, 5) == ByteBit(y, 5);
    assert ByteBit(x, 6) == ByteBit(y, 6) && ByteBit(x, 7) == ByteBit(y, 7);
  }

  /**
   * Where bit n of the transpose of a `rows`×`cols` bit matrix comes from:
   * the output lists the columns one after another, so bit n is row
   * `n % rows` of column `n / rows`.
   */
  function TIndex(rows: nat, cols: nat, n: nat): (k: nat)
    requires rows >= 1 && n < rows * cols
    ensures k < rows * cols
  {
    QuotientBelow(n, rows, cols);
    CellInside(rows, cols, n % rows, n / rows);
    (n % rows) * cols + n / rows
  }

  /** Transposing the index map twice gives the identity. */
  lemma TIndexTwice(rows: nat, cols: nat, n: nat)
    requires rows >= 1 && cols >= 1 && n < rows * cols
    ensures TIndex(cols, rows, n) < rows * cols
    ensures TIndex(rows, cols, TIndex(cols, rows, n)) == n
  {
    var i, j := n / cols, n % cols;
    DivisionOf(n, cols);
    QuotientBelow(n, cols, rows);
    TIndexIs(cols, rows, n, i, j);
    TIndexIs(rows, cols, j * rows + i, j, i);
  }

  /** Index n of row q, column r of a `rows`-column layout goes to row r, column q. */
  lemma TIndexIs(rows: nat, cols: nat, n: nat, q: nat, r: nat)
    requires rows >= 1 && n == q * rows + r && r < rows && q < cols
    ensures n < rows * cols && TIndex(rows, cols, n) == r * cols + q
  {
    DivModUnique(n, rows, q, r);
    CellInside(cols, rows, q, r);
  }

  /**
   * Bit n of the transposed matrix: the output lists the columns one after
   * another, so bit n is row `n % rows` of column `n / rows`.
   */
  predicate TBit(d: seq<bv8>, rows: nat, n: nat)
    requires rows >= 1 && |d| % rows == 0 && n < 8 * |d|
  {
    var cols := 8 * (|d| / rows);
    assert 8 * |d| == rows * cols;
    DataBit(d, TIndex(rows, cols, n))
  }

  /** The transposed matrix, packed lsb0: the specification of the in-place transpose. */
  function Transposed(d: seq<bv8>, rows: nat): (r: seq<bv8>)
    requires rows >= 1 && |d| % rows == 0
    ensures |r| == |d|
  {
    seq(|d|, m requires 0 <= m < |d| => OutByte(d, rows, m))
  }

  function OutByte(d: seq<bv8>, rows: nat, m: nat): bv8
    requires rows >= 1 && |d| % rows == 0 && m < |d|
  {
    PackByte(seq(8, t requires 0 <= t < 8 => TBit(d, rows, 8 * m + t)))
  }

  /** Every bit of the output is the matching bit of the transposed matrix. */
  lemma TransposedBit(d: seq<bv8>, rows: nat, n: nat)
    requires rows >= 1 && |d| % rows == 0 && n < 8 * |d|
    ensures DataBit(Transposed(d, rows), n) == TBit(d, rows, n)
  {
    var m, t := n / 8, n % 8;
    PackByteBit(seq(8, t requires 0 <= t < 8 => TBit(d, rows, 8 * m + t)), t);
  }

  /**
   * Transposing an r×8w bit matrix and then the 8w×r result gives the
   * matrix back, when r is a multiple of 8 (so both are byte matrices).
   */
  lemma TransposeTwice(d: seq<bv8>, rows: nat)
    requires rows >= 8 && rows % 8 == 0 && |d| % rows == 0 && |d| > 0
    ensures var cols := 8 * (|d| / rows);
            cols >= 1 && |d| % cols == 0 && Transposed(Transposed(d, rows), cols) == d
  {
    var w := |d| / rows;
    var cols := 8 * w;
    DivModUnique(|d|, rows, w, 0);
    assert w >= 1;
    var r8 := rows / 8;
    DivModUnique(rows, 8, r8, 0);
    assert |d| == r8 * cols;
    DivModUnique(|d|, cols, r8, 0);
    assert 8 * (|d| / cols) == rows;
    var t := Transposed(d, rows);
    var tt := Transposed(t, cols);
    forall n | 0 <= n < 8 * |d|
      ensures DataBit(tt, n) == DataBit(d, n)
    {
      TwiceBit(d, rows, cols, n);
    }
    BitsDetermineBytes(tt, d);
  }

  lemma TwiceBit(d: seq<bv8>, rows: nat, cols: nat, n: nat)
    requires rows >= 1 && |d| % rows == 0 && cols == 8 * (|d| / rows) && cols >= 1
    requires |d| % cols == 0 && 8 * (|d| / cols) == rows && n < 8 * |d|
    ensures DataBit(Transposed(Transposed(d, rows), cols), n) == DataBit(d, n)
  {
    var t := Transposed(d, rows);
    assert 8 * |d| == rows * cols;
    TransposedBit(t, cols, n);
    TIndexTwice(rows, cols, n);
    TransposedBit(d, rows, TIndex(cols, rows, n));
  }

  /**
   * The reference transpose: split the data into rows of `width` bytes,
   * transpose the bit matrix, and pack each of the 8·width output rows
   * lsb0 into whole bytes, padding the last byte of each with zeros.
   */
  function NaiveTranspose(d: seq<bv8>, width: nat): (r: seq<bv8>)
    requires width >= 1 && |d| % width == 0 && |d| > 0
    ensures |r| == 8 * width * ((|d| / width + 7) / 8)
  {
    var rows := |d| / width;
    var perCol := (rows + 7) / 8;
    assert perCol >= 1;
    seq(8 * width * perCol, m requires 0 <= m < 8 * width * perCol => NaiveByte(d, width, m))
  }

  function NaiveByte(d: seq<bv8>, width: nat, m: nat): bv8
    requires width >= 1 && |d| % width == 0 && |d| > 0
    requires m < 8 * width * ((|d| / width + 7) / 8)
  {
    var rows := |d| / width;
    var perCol := (rows + 7) / 8;
    assert perCol >= 1;
    var i, b := m / perCol, m % perCol;
    QuotientBelow(m, perCol, 8 * width);
    PackByte(seq(8, t requires 0 <= t < 8 => NaiveBit(d, width, i, 8 * b + t)))
  }

  /** Row j of column i of the bit matrix, or a padding zero past the last row. */
  predicate NaiveBit(d: seq<bv8>, width: nat, i: nat, j: nat)
    requires width >= 1 && |d| % width == 0 && i < 8 * width
  {
    var rows := |d| / width;
    if j < rows then
      CellInside(rows, 8 * width, j, i);
      assert rows * (8 * width) == 8 * |d| by { DivModUnique(|d|, width, rows, 0); }
      DataBit(d, j * (8 * width) + i)
    else false
  }

  /** With a multiple of 8 rows no padding is needed, and the reference transpose is the dense one. */
  lemma NaiveIsTransposed(d: seq<bv8>, rows: nat)
    requires rows >= 8 && rows % 8 == 0 && |d| % rows == 0 && |d| > 0
    ensures var width := |d| / rows;
            width >= 1 && |d| % width == 0 && NaiveTranspose(d, width) == Transposed(d, rows)
  {
    var width := |d| / rows;
    DivModUnique(|d|, rows, width, 0);
    assert width >= 1 && |d| == width * rows;
    DivModUnique(|d|, width, rows, 0);
    var perCol := (rows + 7) / 8;
    DivModUnique(rows + 7, 8, rows / 8, 7);
    assert perCol * 8 == rows;
    var a := NaiveTranspose(d, width);
    var b := Transposed(d, rows);
    assert |a| == |d|;
    forall n | 0 <= n < 8 * |d|
      ensures DataBit(a, n) == DataBit(b, n)
    {
      NaiveBitAt(d, rows, width, perCol, n);
      TransposedBit(d, rows, n);
    }
    BitsDetermineBytes(a, b);
  }

  /** Bit t of byte b of column i in the padded layout is bit n of the dense one. */
  lemma NaiveIndex(rows: nat, width: nat, perCol: nat, n: nat, i: nat, b: nat, t: nat)
    requires rows >= 8 && perCol * 8 == rows && i < 8 * width && b < perCol && t < 8
    requires n == 8 * (i * perCol + b) + t
    ensures n < rows * (8 * width) && 8 * b + t < rows
    ensures TIndex(rows, 8 * width, n) == (8 * b + t) * (8 * width) + i
  {
    assert i * rows == 8 * (i * perCol);
    TIndexIs(rows, 8 * width, n, i, 8 * b + t);
  }

  /** Bit n of the reference output is row `8b + t` of column i, for byte `i·perCol + b`. */
  lemma NaiveOutBit(d: seq<bv8>, width: nat, perCol: nat, n: nat, i: nat, b: nat, t: nat)
    requires width >= 1 && |d| % width == 0 && |d| > 0 && perCol == (|d| / width + 7) / 8
    requires i < 8 * width && b < perCol && t < 8 && n == 8 * (i * perCol + b) + t
    ensures n < 8 * |NaiveTranspose(d, width)|
    ensures DataBit(NaiveTranspose(d, width), n) == NaiveBit(d, width, i, 8 * b + t)
  {
    var m := i * perCol + b;
    DivModUnique(n, 8, m, t);
    CellInside(8 * width, perCol, i, b);
    DivModUnique(m, perCol, i, b);
    assert NaiveTranspose(d, width)[m] == NaiveByte(d, width, m);
    PackByteBit(seq(8, t requires 0 <= t < 8 => NaiveBit(d, width, i, 8 * b + t)), t);
  }

  /** Row j of column i of the reference layout is the matrix cell `(j, i)`. */
  lemma NaiveBitIs(d: seq<bv8>, width: nat, rows: nat, i: nat, j: nat)
    requires width >= 1 && |d| % width == 0 && |d| / width == rows && i < 8 * width && j < rows
    ensures j * (8 * width) + i < 8 * |d|
    ensures NaiveBit(d, width, i, j) == DataBit(d, j * (8 * width) + i)
  {
    CellInside(rows, 8 * width, j, i);
    DivModUnique(|d|, width, rows, 0);
  }

  /** Bit n of the dense transpose with rows of `width` bytes. */
  lemma TBitIs(d: seq<bv8>, rows: nat, width: nat, n: nat)
    requires rows >= 1 && |d| % rows == 0 && |d| / rows == width && n < 8 * |d|
    ensures n < rows * (8 * width) && TIndex(rows, 8 * width, n) < 8 * |d|
    ensures TBit(d, rows, n) == DataBit(d, TIndex(rows, 8 * width, n))
  {
    DivModUnique(|d|, rows, width, 0);
  }

  lemma NaiveBitAt(d: seq<bv8>, rows: nat, width: nat, perCol: nat, n: nat)
    requires rows >= 8 && width >= 1 && |d| == width * rows && perCol * 8 == rows
    requires |d| / width == rows && (rows + 7) / 8 == perCol && |d| / rows == width
    requires |d| % width == 0 && |d| % rows == 0 && n < 8 * |d|
    ensures |NaiveTranspose(d, width)| == |d|
    ensures DataBit(NaiveTranspose(d, width), n) == TBit(d, rows, n)
  {
    assert 8 * width * perCol == |d|;
    var m, t := n / 8, n % 8;
    DivisionOf(n, 8);
    DivisionOf(m, perCol);
    var i, b := m / perCol, m % perCol;
    QuotientBelow(m, perCol, 8 * width);
    var j := 8 * b + t;
    NaiveIndex(rows, width, perCol, n, i, b, t);
    var k := j * (8 * width) + i;
    NaiveOutBit(d, width, perCol, n, i, b, t);
    NaiveBitIs(d, width, rows, i, j);
    assert DataBit(NaiveTranspose(d, width), n) == DataBit(d, k);
    TBitIs(d, rows, width, n);
    assert TIndex(rows, 8 * width, n) == k;
  }

  /** Bit m of each of the eight bytes, in order. */
  function ColumnBits(d: seq<bv8>, m: nat): (bs: seq<bool>)
    requires |d| == 8 && m < 8
    ensures |bs| == 8
  {
    seq(8, t requires 0 <= t < 8 => ByteBit(d[t], m))
  }

  /** With eight one-byte rows, output byte m packs bit m of every row. */
  lemma NaiveWidthOne(d: seq<bv8>, e: seq<bv8>)
    requires |d| == 8 && |e| == 8
    requires forall m :: 0 <= m < 8 ==> PackByte(ColumnBits(d, m)) == e[m]
    ensures NaiveTranspose(d, 1) == e
  {
    var nt := NaiveTranspose(d, 1);
    assert |nt| == 8;
    forall n | 0 <= n < 64
      ensures DataBit(nt, n) == DataBit(e, n)
    {
      NaiveWidthOneBit(d, n);
      PackByteBit(ColumnBits(d, n / 8), n % 8);
    }
    BitsDetermineBytes(nt, e);
  }

  lemma NaiveWidthOneBit(d: seq<bv8>, n: nat)
    requires |d| == 8 && n < 64
    ensures |NaiveTranspose(d, 1)| == 8
    ensures DataBit(NaiveTranspose(d, 1), n) == ByteBit(d[n % 8], n / 8)
  {
    var m, t := n / 8, n % 8;
    DivisionOf(n, 8);
    assert (|d| / 1 + 7) / 8 == 1;
    var k := t * 8 + m;
    NaiveBitIs(d, 1, 8, m, t);
    assert NaiveBit(d, 1, m, t) == DataBit(d, k);
    DivModUnique(k, 8, t, m);
    NaiveOutBit(d, 1, 1, n, m, 0, t);
  }

  /** The eight-row example: the reference transpose of these bytes is the expected matrix. */
  lemma NaiveExample()
    ensures NaiveTranspose([3, 76, 120, 9, 17, 102, 53, 125], 1) == [217, 33, 226, 142, 212, 228, 166, 0]
  {
    forall m | 0 <= m < 8
      ensures PackByte(ColumnBits([3, 76, 120, 9, 17, 102, 53, 125], m)) == [217, 33, 226, 142, 212, 228, 166, 0][m]
    {
      ExampleColumn(m);
    }
    NaiveWidthOne([3, 76, 120, 9, 17, 102, 53, 125], [217, 33, 226, 142, 212, 228, 166, 0]);
  }

  lemma ExampleColumn(m: nat)
    requires m < 8
    ensures PackByte(ColumnBits([3, 76, 120, 9, 17, 102, 53, 125], m)) == [217, 33, 226, 142, 212, 228, 166, 0][m]
  {
    if m == 0 {} else if m == 1 {} else if m == 2 {} else if m == 3 {}
    else if m == 4 {} else if m == 5 {} else if m == 6 {} else {}
  }

  /**
   * Checks the shape, then transposes the buffer in place.  The row count
   * must be a power of two, the buffer must split into that many rows, and
   * each row must be a positive multiple of 8 bytes wide.  A zero row
   * count makes the source's first check underflow, so it is excluded.
   */
  method TransposeBits(matrix: array<bv8>, rows: nat) returns (r: Result<(), TransposeError>)
    requires rows >= 1
    modifies matrix
    ensures !IsPow2(rows) ==> r == Err(InvalidNumberOfRows)
    ensures IsPow2(rows) && matrix.Length % rows != 0 ==> r == Err(MalformedSlice)
    ensures IsPow2(rows) && matrix.Length % rows == 0
            && ((matrix.Length / rows) % 8 != 0 || matrix.Length / rows < 8)
            ==> r == Err(InvalidNumberOfColumns)
    ensures r.Ok? <==> IsPow2(rows) && matrix.Length % rows == 0
                       && (matrix.Length / rows) % 8 == 0 && matrix.Length / rows >= 8
    ensures r.Err? ==> matrix[..] == old(matrix[..])
    ensures r.Ok? ==> matrix[..] == Transposed(old(matrix[..]), rows)
  {
    if !IsPow2(rows) {
      return Err(InvalidNumberOfRows);
    }
    if matrix.Length % rows != 0 {
      return Err(MalformedSlice);
    }
    var columns := matrix.Length / rows;
    if columns % 8 != 0 || columns < 8 {
      return Err(InvalidNumberOfColumns);
    }
    // The byte-level kernel is not part of this model: the bits are read from a copy.
    var src := matrix[..];
    var m := 0;
    while m < matrix.Length
      invariant 0 <= m <= matrix.Length
      invariant matrix[..m] == Transposed(src, rows)[..m]
      invariant matrix[m..] == src[m..]
    {
      matrix[m] := OutByte(src, rows, m);
      m := m + 1;
    }
    return Ok(());
  }
}
