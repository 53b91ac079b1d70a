/**
 * The parts of `ImageUtil.YUV_420_888toNV21` that both copies share: the image planes as views
 * into byte memory (so that the U and V planes can overlap), the bulk `ByteBuffer.get`, the
 * aliasing probe with the V/U interleave, and the NV21 layout the conversion produces.
 */
module Yuv {
  import Int32
  import opened DepthImage

  /** `ImageFormat.YUV_420_888`. */
  const YUV_420_888: int := 0x23

  /**
   * One plane's `ByteBuffer`: `length` bytes of `mem` from `offset` on. Two planes alias when
   * they are views of the same memory. `writable` is false for a read-only buffer.
   */
  datatype Plane = Plane(mem: array<bv8>, offset: nat, length: nat, rowStride: int, pixelStride: int,
                         writable: bool)

  predicate Within(p: Plane) {
    p.offset + p.length <= p.mem.Length
  }

  /** The bytes the buffer currently holds. */
  function Bytes(p: Plane): (b: seq<bv8>)
    reads p.mem
    requires Within(p)
    ensures |b| == p.length
  {
    p.mem[p.offset .. p.offset + p.length]
  }

  /** The buffer holds exactly the bytes `b`. */
  predicate Holds(p: Plane, b: seq<bv8>)
    reads p.mem
  {
    Within(p) && p.length == |b| && forall i :: 0 <= i < |b| ==> p.mem[p.offset + i] == b[i]
  }

  lemma HoldsBytes(p: Plane, b: seq<bv8>)
    requires Holds(p, b)
    ensures Bytes(p) == b
  {
  }

  /** An `android.media.Image`: format, dimensions, and planes 0 (Y), 1 (U) and 2 (V). */
  datatype Image = Image(format: int, width: int, height: int, y: Plane, u: Plane, v: Plane)

  /**
   * Whether writing byte 1 of the V buffer shows up as byte 0 of the U buffer: the V buffer
   * accepts the write and the U plane starts one byte after the V plane in the same memory.
   */
  predicate ProbeSeesWrite(img: Image) {
    img.v.writable && img.u.mem == img.v.mem && img.u.offset == img.v.offset + 1
  }

  /** The contents of an image at one moment, as the conversion sees them. */
  datatype Frame = Frame(width: nat, height: nat, yRowStride: int, rowStride: int, pixelStride: int,
                         y: seq<bv8>, u: seq<bv8>, v: seq<bv8>, probeSeesWrite: bool)

  predicate PlanesWithin(img: Image) {
    Within(img.y) && Within(img.u) && Within(img.v) && 0 <= img.width && 0 <= img.height
  }

  function Snapshot(img: Image): Frame
    reads img.y.mem, img.u.mem, img.v.mem
    requires PlanesWithin(img)
  {
    Frame(img.width, img.height, img.y.rowStride, img.v.rowStride, img.v.pixelStride,
          Bytes(img.y), Bytes(img.u), Bytes(img.v), ProbeSeesWrite(img))
  }

  /** Each plane holds what the snapshot records for it. */
  lemma HoldsSnapshot(img: Image)
    requires PlanesWithin(img)
    ensures Holds(img.y, Snapshot(img).y) && Holds(img.u, Snapshot(img).u) && Holds(img.v, Snapshot(img).v)
  {
  }

  /** `width * height`: the number of Y bytes. */
  function YSize(f: Frame): (n: int)
    ensures n >= 0
  {
    MulMonotone(0, f.width, f.height);
    f.width * f.height
  }

  /** `width * height / 4`: the number of bytes of each chroma plane's worth in NV21. */
  function UvSize(f: Frame): int {
    YSize(f) / 4
  }

  /** How many V/U pairs the interleave writes: one per 2 x 2 block. */
  function Pairs(f: Frame): (n: int)
    ensures 0 <= n <= UvSize(f)
  {
    PairsFit(f.width, f.height);
    (f.height / 2) * (f.width / 2)
  }

  lemma PairsFit(width: nat, height: nat)
    ensures 0 <= (height / 2) * (width / 2) <= (width * height) / 4
  {
    var a, b := height / 2, width / 2;
    MulMonotone(0, a, b);
    MulMonotone(2 * a, height, 2 * b);
    MulMonotone(2 * b, width, height);
    assert 4 * (a * b) <= width * height;
  }

  /** The NV21 array length, `ySize + uvSize * 2`, is a Java int. */
  predicate SizesFit(f: Frame) {
    YSize(f) + UvSize(f) * 2 <= Int32.MAX_VALUE
  }

  /**
   * What copying `rows` rows of `width` bytes from offsets 0, step, 2 * step, ... needs: no
   * negative position (from the second row on) and the last row inside the plane.
   */
  predicate RowsReadable(n: int, width: nat, step: int, rows: nat) {
    rows > 0 ==> (rows > 1 ==> step >= 0) && (rows - 1) * step + width <= n
  }

  lemma RowReadable(n: int, width: nat, step: int, rows: nat, r: nat)
    requires RowsReadable(n, width, step, rows) && r < rows
    ensures 0 <= r * step && r * step + width <= n
  {
    if r > 0 {
      MulMonotone(r, rows - 1, step);
    }
  }

  /** Rows 0 .. rows - 1 of `width` bytes, row r taken from offset r * step. */
  function Rows(ys: seq<bv8>, width: nat, step: int, rows: nat): (out: seq<bv8>)
    requires RowsReadable(|ys|, width, step, rows)
    ensures |out| == rows * width
  {
    if rows == 0 then []
    else
      RowReadable(|ys|, width, step, rows, rows - 1);
      assert RowsReadable(|ys|, width, step, rows - 1) by {
        if rows - 1 > 0 {
          MulMonotone(rows - 2, rows - 1, step);
        }
      }
      Rows(ys, width, step, rows - 1) + ys[(rows - 1) * step .. (rows - 1) * step + width]
  }

  /** Output byte `r * width + c` of the row copy is plane byte `r * step + c`. */
  lemma {:induction false} RowsAt(ys: seq<bv8>, width: nat, step: int, rows: nat, r: nat, c: nat)
    requires RowsReadable(|ys|, width, step, rows) && r < rows && c < width
    ensures 0 <= r * width + c < rows * width
    ensures 0 <= r * step + c < |ys|
    ensures Rows(ys, width, step, rows)[r * width + c] == ys[r * step + c]
  {
    RowMajorBound(width, rows, c, r);
    RowReadable(|ys|, width, step, rows, r);
    assert RowsReadable(|ys|, width, step, rows - 1) by {
      if rows - 1 > 0 {
        MulMonotone(rows - 2, rows - 1, step);
      }
    }
    if r < rows - 1 {
      RowsAt(ys, width, step, rows - 1, r, c);
    } else {
      assert |Rows(ys, width, step, rows - 1)| == r * width;
    }
  }

  /** Fewer rows need no more of the plane. */
  lemma RowsReadableBelow(n: int, width: nat, step: int, rows: nat, r: nat)
    requires RowsReadable(n, width, step, rows) && r <= rows
    ensures RowsReadable(n, width, step, r)
  {
    if 0 < r {
      RowReadable(n, width, step, rows, r - 1);
    }
  }

  /** Row r + 1 of the row copy extends rows 0 .. r by the bytes at offset r * step. */
  lemma RowsNext(ys: seq<bv8>, width: nat, step: int, rows: nat, r: nat)
    requires RowsReadable(|ys|, width, step, rows) && r < rows
    ensures RowsReadable(|ys|, width, step, r) && RowsReadable(|ys|, width, step, r + 1)
    ensures 0 <= r * step && r * step + width <= |ys|
    ensures Rows(ys, width, step, r + 1) == Rows(ys, width, step, r) + ys[r * step .. r * step + width]
  {
    RowsReadableBelow(|ys|, width, step, rows, r + 1);
    RowsReadableBelow(|ys|, width, step, rows, r);
    RowReadable(|ys|, width, step, rows, r);
  }

  /**
   * The row loop `for (; pos < ySize; pos += width)` with `pos == row * width`: while it runs
   * there is a row left, and when it stops every row has been copied (or there are no bytes).
   */
  lemma RowLoop(width: nat, height: nat, row: nat)
    requires row <= height
    ensures row * width < width * height ==> row < height && row * width + width <= width * height
    ensures row * width >= width * height ==> row == height || width == 0
  {
    if row < height {
      MulMonotone(row + 1, height, width);
    }
    if row * width >= width * height && width > 0 && row < height {
      MulMonotone(row + 1, height, width);
    }
  }

  /** One more row of the copy loop stays within the plane and moves both offsets by one row. */
  lemma NextRow(width: nat, height: nat, step: int, row: nat, pos: int)
    requires row <= height && pos == row * width && pos < width * height
    ensures row < height && pos + width <= width * height
    ensures (row + 1) * width == pos + width && (row + 1) * step == row * step + step
  {
    RowLoop(width, height, row);
  }

  lemma MulSucc(r: int, step: int)
    ensures (r + 1) * step == r * step + step
  {
  }

  /** Row r of the Y plane starts at `r * rowStride`: the offset step the copy should use. */
  function IntendedStep(f: Frame): int {
    f.yRowStride
  }

  /**
   * The offset step both `ImageUtil` copies use: `yBufferPos` grows by `rowStride - width` per
   * row, so row r is read from `r * (rowStride - width)`.
   */
  function AsWrittenStep(f: Frame): int {
    f.yRowStride - f.width
  }

  /** What the Y copy needs: the bulk copy reads ySize bytes, the row copy reads every row. */
  predicate YReadable(f: Frame, step: int) {
    if f.yRowStride == f.width then YSize(f) <= |f.y|
    else RowsReadable(|f.y|, f.width, step, f.height)
  }

  /**
   * The first ySize bytes of the output: the Y plane verbatim when its row stride is the width,
   * otherwise the rows copied from offsets 0, step, 2 * step, ...
   */
  function YPart(f: Frame, step: int): (out: seq<bv8>)
    requires YReadable(f, step)
    ensures |out| == YSize(f)
  {
    if f.yRowStride == f.width then f.y[..YSize(f)] else Rows(f.y, f.width, step, f.height)
  }

  /** What evaluating the guard needs: `uBuffer.get(0)` and `vBuffer.get(1)` are in range. */
  predicate GuardReadable(f: Frame) {
    f.pixelStride == 2 && f.rowStride == f.width ==> 1 <= |f.u| && 2 <= |f.v|
  }

  /** The interleave guard: V/U pixel stride 2, row stride equal to the width, u[0] == v[1]. */
  predicate Guard(f: Frame)
    requires GuardReadable(f)
  {
    f.pixelStride == 2 && f.rowStride == f.width && f.u[0] == f.v[1]
  }

  /** The alias shortcut is taken: the probe saw its write and the V buffer holds uvSize bytes. */
  predicate Shortcut(f: Frame)
    requires GuardReadable(f)
  {
    Guard(f) && f.probeSeesWrite && UvSize(f) <= |f.v|
  }

  /** `col * pixelStride + row * rowStride`. */
  function VuPos(f: Frame, row: int, col: int): int {
    col * f.pixelStride + row * f.rowStride
  }

  /** Every V/U position the interleave reads lies in both buffers. */
  predicate ChromaReadable(f: Frame) {
    forall row, col :: 0 <= row < f.height / 2 && 0 <= col < f.width / 2 ==>
      0 <= VuPos(f, row, col) < |f.u| && VuPos(f, row, col) < |f.v|
  }

  /** The pairs written for columns 0 .. cols - 1 of chroma row `row`: V byte, then U byte. */
  function RowPairs(f: Frame, row: int, cols: nat): (out: seq<bv8>)
    requires ChromaReadable(f) && 0 <= row < f.height / 2 && cols <= f.width / 2
    ensures |out| == 2 * cols
  {
    if cols == 0 then []
    else
      var p := VuPos(f, row, cols - 1);
      RowPairs(f, row, cols - 1) + [f.v[p], f.u[p]]
  }

  /** The pairs written for chroma rows 0 .. rows - 1. */
  function RowsPairs(f: Frame, rows: nat): (out: seq<bv8>)
    requires ChromaReadable(f) && rows <= f.height / 2
    ensures |out| == 2 * (rows * (f.width / 2))
  {
    if rows == 0 then []
    else RowsPairs(f, rows - 1) + RowPairs(f, rows - 1, f.width / 2)
  }

  /** The whole interleave. */
  function Interleaved(f: Frame): (out: seq<bv8>)
    requires ChromaReadable(f)
    ensures |out| == 2 * Pairs(f)
  {
    RowsPairs(f, f.height / 2)
  }

  function Zeros(n: nat): (z: seq<bv8>)
    ensures |z| == n && forall i :: 0 <= i < n ==> z[i] == 0
  {
    seq(n, _ => 0)
  }

  /**
   * The last 2 * uvSize bytes of the output: zeros when the guard fails; uvSize bytes of the V
   * buffer and then zeros on the alias shortcut; otherwise the V/U pairs and then zeros.
   */
  function Chroma(f: Frame): (out: seq<bv8>)
    requires GuardReadable(f) && ChromaReadable(f)
    ensures |out| == 2 * UvSize(f)
    ensures !Guard(f) ==> forall i :: 0 <= i < |out| ==> out[i] == 0
    ensures Shortcut(f) ==> out[..UvSize(f)] == f.v[..UvSize(f)]
    ensures Shortcut(f) ==> forall i :: UvSize(f) <= i < |out| ==> out[i] == 0
    ensures Guard(f) && !Shortcut(f) ==> out[..2 * Pairs(f)] == Interleaved(f)
    ensures Guard(f) && !Shortcut(f) ==> forall i :: 2 * Pairs(f) <= i < |out| ==> out[i] == 0
  {
    if !Guard(f) then Zeros(2 * UvSize(f))
    else if Shortcut(f) then f.v[..UvSize(f)] + Zeros(UvSize(f))
    else Interleaved(f) + Zeros(2 * UvSize(f) - 2 * Pairs(f))
  }

  /** Everything one conversion needs of the frame when Y row r is read from r * step. */
  predicate Convertible(f: Frame, step: int) {
    SizesFit(f) && YReadable(f, step) && GuardReadable(f) && ChromaReadable(f)
  }

  /** The NV21 array: Y bytes, then the chroma bytes. */
  function NV21(f: Frame, step: int): (out: seq<bv8>)
    requires Convertible(f, step)
    ensures |out| == YSize(f) + 2 * UvSize(f) <= Int32.MAX_VALUE
    ensures out[..YSize(f)] == YPart(f, step) && out[YSize(f)..] == Chroma(f)
  {
    YPart(f, step) + Chroma(f)
  }

  /** An array holding the Y part and then the chroma part is the NV21 array. */
  lemma Assembled(a: seq<bv8>, f: Frame, step: int)
    requires Convertible(f, step) && YSize(f) <= |a|
    requires a[..YSize(f)] == YPart(f, step) && a[YSize(f)..] == Chroma(f)
    ensures a == NV21(f, step)
  {
    assert a == a[..YSize(f)] + a[YSize(f)..];
  }

  /**
   * The pair for chroma pixel (row, col) sits at slot row * (width / 2) + col: its V byte first,
   * then its U byte, both read at `VuPos(row, col)`.
   */
  lemma {:induction false} InterleavedAt(f: Frame, rows: nat, row: nat, col: nat)
    requires ChromaReadable(f) && rows <= f.height / 2 && row < rows && col < f.width / 2
    ensures 0 <= row * (f.width / 2) + col < rows * (f.width / 2)
    ensures var k := row * (f.width / 2) + col; var p := VuPos(f, row, col);
      RowsPairs(f, rows)[2 * k] == f.v[p] && RowsPairs(f, rows)[2 * k + 1] == f.u[p]
  {
    RowMajorBound(f.width / 2, rows, col, row);
    if row < rows - 1 {
      InterleavedAt(f, rows - 1, row, col);
    } else {
      RowPairsAt(f, row, f.width / 2, col);
    }
  }

  lemma {:induction false} RowPairsAt(f: Frame, row: nat, cols: nat, col: nat)
    requires ChromaReadable(f) && row < f.height / 2 && col < cols <= f.width / 2
    ensures var p := VuPos(f, row, col);
      RowPairs(f, row, cols)[2 * col] == f.v[p] && RowPairs(f, row, cols)[2 * col + 1] == f.u[p]
  {
    if col < cols - 1 {
      RowPairsAt(f, row, cols - 1, col);
    }
  }

  /**
   * `ByteBuffer.get(dst, pos, count)` with the buffer positioned at `from`: copies `count` bytes
   * and leaves the rest of `dst` alone. A buffer with fewer bytes left throws, so that is excluded.
   */
  method Get(p: Plane, from: int, dst: array<bv8>, pos: int, count: int)
    requires Within(p) && dst != p.mem
    requires 0 <= from && 0 <= count && from + count <= p.length
    requires 0 <= pos && pos + count <= dst.Length
    modifies dst
    ensures dst[..pos] == old(dst[..pos])
    ensures dst[pos..pos + count] == Bytes(p)[from..from + count]
    ensures dst[pos + count..] == old(dst[pos + count..])
  {
    var i := 0;
    while i < count
      invariant 0 <= i <= count
      invariant forall k :: 0 <= k < dst.Length && !(pos <= k < pos + i) ==> dst[k] == old(dst[k])
      invariant forall k :: pos <= k < pos + i ==> dst[k] == p.mem[p.offset + from + (k - pos)]
    {
      dst[pos + i] := p.mem[p.offset + from + i];
      i := i + 1;
    }
  }

  /**
   * One pass of a row-by-row Y loop: `width` bytes read from offset `from == row * step` land
   * after the rows copied so far, and nothing from ySize on changes.
   */
  method CopyRow(p: Plane, nv21: array<bv8>, ghost ys: seq<bv8>, width: nat, ghost step: int, ghost rows: nat,
                 ghost row: nat, from: int, pos: int, ghost ySize: int)
    requires Holds(p, ys) && nv21 != p.mem
    requires RowsReadable(|ys|, width, step, rows) && row < rows && from == row * step
    requires pos == row * width && pos + width <= ySize <= nv21.Length
    requires nv21[..pos] == Rows(ys, width, step, row)
    modifies nv21
    ensures RowsReadable(|ys|, width, step, row + 1)
    ensures nv21[..pos + width] == Rows(ys, width, step, row + 1)
    ensures nv21[ySize..] == old(nv21[ySize..])
  {
    RowsNext(ys, width, step, rows, row);
    HoldsBytes(p, ys);
    ghost var a := nv21[..];
    Get(p, from, nv21, pos, width);
    RowCopied(a, nv21[..], ys, pos, width, from, ySize, Rows(ys, width, step, row), Rows(ys, width, step, row + 1));
  }

  /**
   * One `yBuffer.get(nv21, pos, width)` as the row loop sees it, `a` before and `b` after: the
   * output so far, `done`, grows to `next` by the bytes read, and everything from ySize on stays.
   */
  lemma RowCopied(a: seq<bv8>, b: seq<bv8>, bytes: seq<bv8>, pos: int, width: int, from: int, ySize: int,
                  done: seq<bv8>, next: seq<bv8>)
    requires |a| == |b| && 0 <= pos && 0 <= width && pos + width <= ySize <= |a|
    requires 0 <= from && from + width <= |bytes|
    requires a[..pos] == done && next == done + bytes[from..from + width]
    requires b[..pos] == a[..pos] && b[pos..pos + width] == bytes[from..from + width]
    requires b[pos + width..] == a[pos + width..]
    ensures b[..pos + width] == next
    ensures b[ySize..] == a[ySize..]
  {
    assert b[..pos + width] == b[..pos] + b[pos..pos + width];
    assert b[ySize..] == b[pos + width..][ySize - pos - width..];
  }

  /**
   * The chroma half of `YUV_420_888toNV21`, after the Y copy: the guard, the aliasing probe
   * that writes `~v[1]` and puts the saved byte back, the shortcut copy of uvSize V bytes, and
   * otherwise the nested V/U interleave. A read-only V buffer makes the probe throw; the
   * exception is caught and the interleave runs. The V plane is the same afterwards.
   */
  method FillChroma(img: Image, nv21: array<bv8>, ghost f: Frame, ghost step: int)
    requires PlanesWithin(img) && f == Snapshot(img) && Convertible(f, step)
    requires nv21 != img.y.mem && nv21 != img.u.mem && nv21 != img.v.mem
    requires nv21.Length == YSize(f) + 2 * UvSize(f)
    requires forall k :: YSize(f) <= k < nv21.Length ==> nv21[k] == 0
    modifies nv21, img.v.mem
    ensures img.v.mem[..] == old(img.v.mem[..]) && Snapshot(img) == f
    ensures nv21[..YSize(f)] == old(nv21[..YSize(f)])
    ensures nv21[YSize(f)..] == Chroma(f)
  {
    var width, height := img.width, img.height;
    var ySize := width * height;
    var uvSize := width * height / 4;
    assert ySize == YSize(f) && uvSize == UvSize(f);
    var rowStride := img.v.rowStride;
    var pixelStride := img.v.pixelStride;
    if pixelStride == 2 && rowStride == width && img.u.mem[img.u.offset] == img.v.mem[img.v.offset + 1] {
      assert Guard(f);
      var seen := Probe(img);
      assert Snapshot(img) == f by {
        assert Bytes(img.y) == f.y && Bytes(img.u) == f.u && Bytes(img.v) == f.v;
      }
      if seen && uvSize <= img.v.length {
        assert Shortcut(f);
        CopyV(img, nv21, f);
        return;
      }
      assert !Shortcut(f);
      assert Holds(img.u, f.u) && Holds(img.v, f.v);
      Interleave(img, nv21, f);
    } else {
      assert !Guard(f);
      ZeroTail(nv21[..], ySize);
    }
  }

  /** The shortcut: `vBuffer.get(nv21, ySize, uvSize)`, uvSize bytes of V after the Y bytes. */
  method CopyV(img: Image, nv21: array<bv8>, ghost f: Frame)
    requires PlanesWithin(img) && f == Snapshot(img) && GuardReadable(f) && ChromaReadable(f)
    requires Shortcut(f) && nv21 != img.v.mem
    requires nv21.Length == YSize(f) + 2 * UvSize(f)
    requires forall k :: YSize(f) <= k < nv21.Length ==> nv21[k] == 0
    modifies nv21
    ensures nv21[..YSize(f)] == old(nv21[..YSize(f)])
    ensures nv21[YSize(f)..] == Chroma(f)
  {
    var ySize := img.width * img.height;
    var uvSize := img.width * img.height / 4;
    assert ySize == YSize(f) && uvSize == UvSize(f);
    Get(img.v, 0, nv21, ySize, uvSize);
    ZeroTail(nv21[..], ySize + uvSize);
    assert nv21[ySize..] == nv21[ySize..ySize + uvSize] + nv21[ySize + uvSize..];
  }

  /**
   * The aliasing probe: save v[1], write its complement, look at u[0], and put the saved byte
   * back. The answer is whether u[0] showed the complement; a read-only V buffer throws on the
   * first write, which the caller catches, and counts here as not seen.
   */
  method Probe(img: Image) returns (seen: bool)
    requires PlanesWithin(img) && 1 <= img.u.length && 2 <= img.v.length
    requires img.u.mem[img.u.offset] == img.v.mem[img.v.offset + 1]
    modifies img.v.mem
    ensures img.v.mem[..] == old(img.v.mem[..])
    ensures seen == ProbeSeesWrite(img)
  {
    seen := false;
    var savePixel := img.v.mem[img.v.offset + 1];
    if img.v.writable {
      img.v.mem[img.v.offset + 1] := !savePixel;
      assert savePixel != !savePixel;
      seen := img.u.mem[img.u.offset] == !savePixel;
      img.v.mem[img.v.offset + 1] := savePixel;
    }
  }

  /** The nested loop over the chroma rows and columns, writing through the `pos` cursor. */
  method Interleave(img: Image, nv21: array<bv8>, ghost f: Frame)
    requires PlanesWithin(img) && GuardReadable(f) && ChromaReadable(f)
    requires Holds(img.u, f.u) && Holds(img.v, f.v) && img.width == f.width && img.height == f.height
    requires nv21 != img.u.mem && nv21 != img.v.mem
    requires nv21.Length == YSize(f) + 2 * UvSize(f)
    requires forall k :: YSize(f) <= k < nv21.Length ==> nv21[k] == 0
    requires img.v.pixelStride == f.pixelStride && img.v.rowStride == f.rowStride
    modifies nv21
    ensures nv21[..YSize(f)] == old(nv21[..YSize(f)])
    ensures nv21[YSize(f)..] == Interleaved(f) + Zeros(2 * UvSize(f) - 2 * Pairs(f))
  {
    var width, height := img.width, img.height;
    var ySize := width * height;
    assert ySize == YSize(f);
    var pos := ySize;
    var row := 0;
    ghost var ys := nv21[..ySize];
    while row < height / 2
      invariant 0 <= row <= f.height / 2 && pos <= nv21.Length
      invariant pos == ySize + 2 * (row * (f.width / 2)) && row * (f.width / 2) <= Pairs(f)
      invariant nv21[..ySize] == ys
      invariant nv21[ySize..pos] == RowsPairs(f, row)
      invariant forall k :: pos <= k < nv21.Length ==> nv21[k] == 0
    {
      pos := InterleaveNextRow(img, nv21, f, row, pos, ySize);
      row := row + 1;
    }
    InterleaveDone(nv21[..], f, ySize, row, pos);
  }

  /** When the outer loop ends, the pairs written so far are the whole interleave and zeros follow. */
  lemma InterleaveDone(a: seq<bv8>, f: Frame, ySize: int, row: int, pos: int)
    requires ChromaReadable(f) && ySize == YSize(f) && |a| == YSize(f) + 2 * UvSize(f)
    requires row == f.height / 2 && pos == ySize + 2 * (row * (f.width / 2)) && pos <= |a|
    requires a[ySize..pos] == RowsPairs(f, row)
    requires forall k :: pos <= k < |a| ==> a[k] == 0
    ensures a[ySize..] == Interleaved(f) + Zeros(2 * UvSize(f) - 2 * Pairs(f))
  {
    assert pos == ySize + 2 * Pairs(f);
    ZeroTail(a, pos);
    assert a[ySize..] == a[ySize..pos] + a[pos..];
  }

  lemma ZeroTail(a: seq<bv8>, pos: int)
    requires 0 <= pos <= |a| && forall k :: pos <= k < |a| ==> a[k] == 0
    ensures a[pos..] == Zeros(|a| - pos)
  {
  }

  lemma SplitSlice(a: seq<bv8>, i: int, j: int, k: int)
    requires 0 <= i <= j <= k <= |a|
    ensures a[i..k] == a[i..j] + a[j..k]
  {
  }

  /** After chroma row `row`, the cursor is still within the pairs of the whole image. */
  lemma NextRowFits(halfW: nat, halfH: nat, row: nat)
    requires row < halfH
    ensures row * halfW + halfW == (row + 1) * halfW <= halfH * halfW == halfW * halfH
  {
    MulMonotone(row + 1, halfH, halfW);
  }

  /**
   * What one row of the interleave does to the array, `a` before and `b` after: the pairs so
   * far grow by the row's pairs, and the Y bytes and the zeros after the cursor stay.
   */
  lemma RowWritten(a: seq<bv8>, b: seq<bv8>, ySize: int, pos0: int, pos: int, done: seq<bv8>, row: seq<bv8>)
    requires |a| == |b| && 0 <= ySize <= pos0 <= pos <= |a|
    requires forall k :: 0 <= k < |a| && !(pos0 <= k < pos) ==> b[k] == a[k]
    requires a[ySize..pos0] == done && b[pos0..pos] == row
    requires forall k :: pos0 <= k < |a| ==> a[k] == 0
    ensures b[..ySize] == a[..ySize]
    ensures b[ySize..pos] == done + row
    ensures forall k :: pos <= k < |b| ==> b[k] == 0
  {
    assert b[ySize..pos] == b[ySize..pos0] + b[pos0..pos];
  }

  /** One pass of the outer interleave loop: the next row's pairs follow the ones written so far. */
  method InterleaveNextRow(img: Image, nv21: array<bv8>, ghost f: Frame, row: int, pos0: int, ghost ySize: int)
    returns (pos: int)
    requires PlanesWithin(img) && GuardReadable(f) && ChromaReadable(f)
    requires Holds(img.u, f.u) && Holds(img.v, f.v) && img.width == f.width && img.height == f.height
    requires nv21 != img.u.mem && nv21 != img.v.mem
    requires img.v.pixelStride == f.pixelStride && img.v.rowStride == f.rowStride
    requires 0 <= row < f.height / 2 && ySize == YSize(f) && nv21.Length == YSize(f) + 2 * UvSize(f)
    requires pos0 == ySize + 2 * (row * (f.width / 2)) && row * (f.width / 2) <= Pairs(f)
    requires nv21[ySize..pos0] == RowsPairs(f, row)
    requires forall k :: pos0 <= k < nv21.Length ==> nv21[k] == 0
    modifies nv21
    ensures pos == ySize + 2 * ((row + 1) * (f.width / 2)) && (row + 1) * (f.width / 2) <= Pairs(f)
    ensures nv21[..ySize] == old(nv21[..ySize])
    ensures nv21[ySize..pos] == RowsPairs(f, row + 1)
    ensures forall k :: pos <= k < nv21.Length ==> nv21[k] == 0
  {
    NextRowFits(f.width / 2, f.height / 2, row);
    ghost var a := nv21[..];
    pos := InterleaveRow(img, nv21, f, row, pos0);
    RowWritten(a, nv21[..], ySize, pos0, pos, RowsPairs(f, row), RowPairs(f, row, f.width / 2));
  }

  /** One chroma row: `nv21[pos++] = v[vuPos]; nv21[pos++] = u[vuPos]` for each column. */
  method InterleaveRow(img: Image, nv21: array<bv8>, ghost f: Frame, row: int, pos0: int)
    returns (pos: int)
    requires PlanesWithin(img) && GuardReadable(f) && ChromaReadable(f)
    requires Holds(img.u, f.u) && Holds(img.v, f.v) && img.width == f.width && img.height == f.height
    requires nv21 != img.u.mem && nv21 != img.v.mem
    requires img.v.pixelStride == f.pixelStride && img.v.rowStride == f.rowStride
    requires 0 <= row < f.height / 2
    requires 0 <= pos0 && pos0 + 2 * (f.width / 2) <= nv21.Length
    modifies nv21
    ensures pos == pos0 + 2 * (f.width / 2)
    ensures forall k :: 0 <= k < nv21.Length && !(pos0 <= k < pos) ==> nv21[k] == old(nv21[k])
    ensures nv21[pos0..pos] == RowPairs(f, row, f.width / 2)
  {
    ghost var orig := nv21[..];
    pos := pos0;
    var col := 0;
    while col < img.width / 2
      invariant 0 <= col <= f.width / 2 && pos == pos0 + 2 * col
      invariant forall k :: 0 <= k < nv21.Length && !(pos0 <= k < pos) ==> nv21[k] == orig[k]
      invariant nv21[pos0..pos] == RowPairs(f, row, col)
    {
      ghost var a := nv21[..];
      PairAt(f, row, col);
      var vb, ub := ReadPair(img, f, row, col);
      nv21[pos] := vb;
      nv21[pos + 1] := ub;
      PairWritten(a, nv21[..], pos0, pos, vb, ub);
      pos := pos + 2;
      col := col + 1;
    }
  }

  /** `vuPos = col * pixelStride + row * rowStride`, then `vBuffer.get(vuPos)` and `uBuffer.get(vuPos)`. */
  method ReadPair(img: Image, ghost f: Frame, row: int, col: int) returns (vb: bv8, ub: bv8)
    requires Holds(img.u, f.u) && Holds(img.v, f.v)
    requires img.v.pixelStride == f.pixelStride && img.v.rowStride == f.rowStride
    requires 0 <= VuPos(f, row, col) < |f.u| && VuPos(f, row, col) < |f.v|
    ensures vb == f.v[VuPos(f, row, col)] && ub == f.u[VuPos(f, row, col)]
  {
    var vuPos := col * img.v.pixelStride + row * img.v.rowStride;
    assert vuPos == VuPos(f, row, col);
    vb := img.v.mem[img.v.offset + vuPos];
    ub := img.u.mem[img.u.offset + vuPos];
  }

  /** Column `col` of chroma row `row` reads inside both buffers and extends the row's pairs. */
  lemma PairAt(f: Frame, row: int, col: int)
    requires ChromaReadable(f) && 0 <= row < f.height / 2 && 0 <= col < f.width / 2
    ensures 0 <= VuPos(f, row, col) < |f.u| && VuPos(f, row, col) < |f.v|
    ensures RowPairs(f, row, col + 1) == RowPairs(f, row, col) + [f.v[VuPos(f, row, col)], f.u[VuPos(f, row, col)]]
  {
  }

  /** Two array writes at pos and pos + 1, `a` before and `b` after. */
  lemma PairWritten(a: seq<bv8>, b: seq<bv8>, pos0: int, pos: int, vb: bv8, ub: bv8)
    requires 0 <= pos0 <= pos && pos + 2 <= |a|
    requires b == a[pos := vb][pos + 1 := ub]
    ensures b[pos0..pos + 2] == a[pos0..pos] + [vb, ub]
    ensures forall k :: 0 <= k < |b| && !(pos0 <= k < pos + 2) ==> b[k] == a[k]
  {
  }

  // ---------------------------------------------------------------------------------------
  // The Y row offset and the alias shortcut, as written and as intended
  // ---------------------------------------------------------------------------------------

  /**
   * With the step the source uses, a 2 x 2 image whose Y rows are 4 bytes apart gets its first
   * row's padding in place of its second row; the intended step gives the two pixel rows.
   */
  lemma AsWrittenStepMisreadsRows()
    ensures var f := Frame(2, 2, 4, 2, 2, [1, 2, 9, 9, 3, 4, 9, 9], [], [], false);
      YReadable(f, AsWrittenStep(f)) && YReadable(f, IntendedStep(f)) &&
      YPart(f, AsWrittenStep(f)) == [1, 2, 9, 9] && YPart(f, IntendedStep(f)) == [1, 2, 3, 4]
  {
    var f := Frame(2, 2, 4, 2, 2, [1, 2, 9, 9, 3, 4, 9, 9], [], [], false);
    var ys: seq<bv8> := [1, 2, 9, 9, 3, 4, 9, 9];
    assert f.y == ys && AsWrittenStep(f) == 2 && IntendedStep(f) == 4;
    assert RowsReadable(8, 2, 2, 2) && RowsReadable(8, 2, 4, 2);
    var first := Rows(ys, 2, 2, 1);
    assert first == Rows(ys, 2, 4, 1) == ys[0..2];
    assert Rows(ys, 2, 2, 2) == first + ys[2..4];
    assert Rows(ys, 2, 4, 2) == first + ys[4..6];
  }

  /**
   * With the intended step the Y part is the image: NV21 byte `r * width + c` is the Y plane's
   * byte for pixel (r, c), at `r * rowStride + c`, whichever branch copies it.
   */
  lemma IntendedRowsArePixels(f: Frame, r: nat, c: nat)
    requires YReadable(f, IntendedStep(f)) && r < f.height && c < f.width
    ensures 0 <= r * f.width + c < YSize(f) && 0 <= r * f.yRowStride + c < |f.y|
    ensures YPart(f, IntendedStep(f))[r * f.width + c] == f.y[r * f.yRowStride + c]
  {
    if f.yRowStride == f.width {
      RowMajorBound(f.width, f.height, c, r);
    } else {
      RowsAt(f.y, f.width, f.yRowStride, f.height, r, c);
    }
  }

  /**
   * The U buffer starts one byte after the V buffer in the same memory, so U byte i is V byte
   * i + 1 wherever both exist.
   */
  predicate Aliased(f: Frame) {
    forall i :: 0 <= i < |f.u| && i + 1 < |f.v| ==> f.u[i] == f.v[i + 1]
  }

  /** An image whose probe sees its write has aliased planes. */
  lemma ProbeMeansAliased(img: Image)
    requires PlanesWithin(img) && ProbeSeesWrite(img)
    ensures Aliased(Snapshot(img))
  {
  }

  /** A 2 x 2 image whose U buffer is its V buffer moved on by one byte. */
  function AliasedExample(): (f: Frame)
    ensures f.width == 2 && f.height == 2 && f.rowStride == 2 && f.pixelStride == 2
  {
    Frame(2, 2, 2, 2, 2, [1, 2, 3, 4], [7], [5, 7], true)
  }

  lemma AliasedExampleReadable()
    ensures ChromaReadable(AliasedExample())
  {
    var f := AliasedExample();
    assert |f.u| == 1 && |f.v| == 2;
    assert VuPos(f, 0, 0) == 0 by {
      assert 0 * f.pixelStride == 0 && 0 * f.rowStride == 0;
    }
    OneBlockReadable(f);
  }

  /** An image of a single 2 x 2 block reads only chroma position (0, 0). */
  lemma OneBlockReadable(f: Frame)
    requires f.height / 2 == 1 && f.width / 2 == 1
    requires 0 <= VuPos(f, 0, 0) < |f.u| && VuPos(f, 0, 0) < |f.v|
    ensures ChromaReadable(f)
  {
    forall row, col | 0 <= row < f.height / 2 && 0 <= col < f.width / 2
      ensures 0 <= VuPos(f, row, col) < |f.u| && VuPos(f, row, col) < |f.v|
    {
      assert row == 0 && col == 0;
    }
  }

  lemma AliasedExampleAliased()
    ensures Aliased(AliasedExample())
  {
    var f := AliasedExample();
    forall i | 0 <= i < |f.u| && i + 1 < |f.v|
      ensures f.u[i] == f.v[i + 1]
    {
      assert i == 0;
    }
  }

  lemma AliasedExampleTakesShortcut()
    ensures var f := AliasedExample();
      GuardReadable(f) && ChromaReadable(f) && Shortcut(f) && Aliased(f) && UvSize(f) == 1 && Pairs(f) == 1
  {
    var f := AliasedExample();
    AliasedExampleReadable();
    AliasedExampleAliased();
    assert YSize(f) == 4;
  }

  lemma AliasedExampleChroma()
    ensures GuardReadable(AliasedExample()) && ChromaReadable(AliasedExample())
    ensures Chroma(AliasedExample()) == [5, 0]
  {
    var f := AliasedExample();
    AliasedExampleTakesShortcut();
    assert Zeros(1) == [0] && f.v[..1] == [5];
    assert Chroma(f) == f.v[..1] + Zeros(1);
  }

  lemma AliasedExampleInterleaved()
    ensures ChromaReadable(AliasedExample()) && Interleaved(AliasedExample()) == [5, 7]
  {
    var f := AliasedExample();
    AliasedExampleTakesShortcut();
    PackedPair(f, 0);
    var inter := Interleaved(f);
    assert |inter| == 2 && inter[0] == 5 && inter[1] == 7;
  }

  /**
   * On a 2 x 2 image with aliased planes the shortcut copies one chroma byte and leaves the
   * second zero, where the interleave loop writes the U byte.
   */
  lemma AsWrittenShortcutDropsU()
    ensures var f := AliasedExample();
      GuardReadable(f) && ChromaReadable(f) && Shortcut(f) && Aliased(f) &&
      Chroma(f) == [5, 0] && Interleaved(f) == [5, 7]
  {
    AliasedExampleTakesShortcut();
    AliasedExampleChroma();
    AliasedExampleInterleaved();
  }

  /**
   * The shortcut that copies the whole interleaved chroma: the first V byte, then the
   * 2 * uvSize - 1 bytes of the U buffer, which run V, U, V, ... through the shared memory.
   */
  function ShortcutIntended(f: Frame): (out: seq<bv8>)
    requires 1 <= |f.v| && 1 <= UvSize(f) && 2 * UvSize(f) - 1 <= |f.u|
    ensures |out| == 2 * UvSize(f)
  {
    f.v[..1] + f.u[..2 * UvSize(f) - 1]
  }

  /**
   * For even dimensions and aliased planes that pass the guard, the intended shortcut writes
   * exactly the bytes of the interleave loop: it is only a faster way to the same NV21 array.
   */
  lemma ShortcutIntendedInterleaves(f: Frame)
    requires GuardReadable(f) && ChromaReadable(f) && Guard(f) && Aliased(f)
    requires f.width % 2 == 0 && f.height % 2 == 0 && 1 <= UvSize(f) && 2 * UvSize(f) - 1 <= |f.u|
    ensures 1 <= |f.v| && Pairs(f) == UvSize(f)
    ensures ShortcutIntended(f) == Interleaved(f)
  {
    EvenArea(f.width, f.height);
    assert Pairs(f) == UvSize(f);
    var out, inter := ShortcutIntended(f), Interleaved(f);
    forall j | 0 <= j < |out|
      ensures out[j] == inter[j]
    {
      ShortcutByteAt(f, j);
    }
  }

  /** Even dimensions split into whole 2 x 2 blocks. */
  lemma EvenArea(width: nat, height: nat)
    requires width % 2 == 0 && height % 2 == 0
    ensures (width * height) / 4 == (height / 2) * (width / 2)
  {
    var a, b := width / 2, height / 2;
    assert width * height == 4 * (a * b);
  }

  /** Byte j of the intended shortcut is byte j of the interleave. */
  lemma ShortcutByteAt(f: Frame, j: nat)
    requires GuardReadable(f) && ChromaReadable(f) && Guard(f) && Aliased(f)
    requires f.width % 2 == 0 && 1 <= UvSize(f) && 2 * UvSize(f) - 1 <= |f.u| && Pairs(f) == UvSize(f)
    requires j < 2 * UvSize(f)
    ensures 1 <= |f.v|
    ensures ShortcutIntended(f)[j] == Interleaved(f)[j]
  {
    var k := j / 2;
    PackedPair(f, k);
    if j % 2 == 1 {
      assert j == 2 * k + 1;
    } else if k > 0 {
      assert j == 2 * k;
      assert f.u[2 * k - 1] == f.v[2 * k];
    }
  }

  /** With pixel stride 2 and rows as wide as the image, pair k is read at V/U position 2 * k. */
  lemma PackedPair(f: Frame, k: nat)
    requires GuardReadable(f) && ChromaReadable(f) && Guard(f)
    requires f.width % 2 == 0 && k < Pairs(f)
    ensures 2 * k < |f.u| && 2 * k < |f.v|
    ensures Interleaved(f)[2 * k] == f.v[2 * k] && Interleaved(f)[2 * k + 1] == f.u[2 * k]
  {
    var a, b := f.width / 2, f.height / 2;
    assert f.rowStride == 2 * a;
    Slot(a, b, k);
    var row, col := k / a, k % a;
    PackedVuPos(f, a, row, col);
    InterleavedAt(f, b, row, col);
  }

  /** With pixel stride 2 and rows of 2 * a bytes, chroma pixel (row, col) is pair row * a + col. */
  lemma PackedVuPos(f: Frame, a: int, row: int, col: int)
    requires f.pixelStride == 2 && f.rowStride == 2 * a
    ensures VuPos(f, row, col) == 2 * (row * a + col)
  {
    assert row * (2 * a) == 2 * (row * a);
  }

  /** Pair k of the interleave belongs to chroma row k / a, column k % a. */
  lemma Slot(a: nat, b: nat, k: nat)
    requires k < b * a
    ensures 0 < a && k / a < b && k == (k / a) * a + k % a
  {
    if k / a >= b {
      MulMonotone(b, k / a, a);
    }
  }
}
