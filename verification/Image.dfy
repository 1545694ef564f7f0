/** Unpacking the 12-bit stream and regrouping it into the matcher's frame. */
module Image {
  import opened Common

  const WIDTH: nat := 64
  const HEIGHT: nat := 80
  const FRAME_PIXELS: nat := WIDTH * HEIGHT

  type Sample = x: int | 0 <= x < 0x1_0000

  // ---- raw12 ------------------------------------------------------------------

  /** The four 12-bit samples in six packed bytes. */
  function Unpack(g: Bytes): (p: seq<Sample>)
    requires |g| == 6
    ensures |p| == 4
  {
    var g0: int, g1: int, g2: int, g3: int, g4: int, g5: int := g[0], g[1], g[2], g[3], g[4], g[5];
    [(g0 % 16) * 256 + g1, g3 * 16 + g0 / 16, (g5 % 16) * 256 + g2, g4 * 16 + g5 / 16]
  }

  /** The six bytes a group of samples came from. */
  lemma Repack(g: Bytes)
    requires |g| == 6
    ensures var p := Unpack(g);
            && g == [p[0] / 256 + p[1] % 16 * 16, p[0] % 256, p[2] % 256,
                     p[1] / 16, p[3] / 16, p[2] / 256 + p[3] % 16 * 16]
            && forall i | 0 <= i < 4 :: p[i] < 0x1000
  {
    DivModUnique(g[0] % 16, g[1], 256);
    DivModUnique(g[3], g[0] / 16, 16);
    DivModUnique(g[5] % 16, g[2], 256);
    DivModUnique(g[4], g[5] / 16, 16);
  }

  /** Every sample has 12 bits, and no packed bit is lost: equal samples come from equal bytes. */
  lemma UnpackLossless(a: Bytes, b: Bytes)
    requires |a| == 6 && |b| == 6
    ensures forall i | 0 <= i < 4 :: Unpack(a)[i] < 0x1000
    ensures Unpack(a) == Unpack(b) ==> a == b
  {
    Repack(a);
    Repack(b);
  }

  /** The samples of the first groups. */
  function Unpacked(packed: Bytes, groups: nat): (p: seq<Sample>)
    requires 6 * groups <= |packed|
    ensures |p| == 4 * groups
  {
    if groups == 0 then [] else Unpacked(packed, groups - 1) + Unpack(packed[6 * groups - 6..6 * groups])
  }

  /** How many whole groups both buffers hold. */
  function Groups(packedLength: nat, capacity: nat): (n: nat)
    ensures 6 * n <= packedLength && 4 * n <= capacity
  {
    if packedLength / 6 < capacity / 4 then packedLength / 6 else capacity / 4
  }

  /** Decodes whole groups, as many as both buffers hold. */
  method Raw12Decode(packed: Bytes, pixels: array<Sample>) returns (decoded: nat)
    modifies pixels
    ensures decoded == 4 * Groups(|packed|, pixels.Length)
    ensures pixels[..decoded] == Unpacked(packed, Groups(|packed|, pixels.Length))
    ensures pixels[decoded..] == old(pixels[decoded..])
  {
    var groups := Groups(|packed|, pixels.Length);
    for group := 0 to groups
      invariant pixels[0..4 * group] == Unpacked(packed, group)
      invariant pixels[4 * groups..] == old(pixels[4 * groups..])
    {
      ghost var before, room := pixels[..], 4 * (groups - group - 1);
      Memcpy(pixels, 4 * group, Unpack(packed[6 * group..6 * group + 6]));
      SliceTwice(before, 4 * group + 4, room);
      SliceTwice(pixels[..], 4 * group + 4, room);
    }
    decoded := 4 * groups;
  }

  // ---- regroup ----------------------------------------------------------------

  /** Where the n-th streamed sample goes: fast axis of w samples, columns of h. */
  function Target(n: nat, w: nat, h: nat): (m: nat)
    requires w > 0
  {
    (n % w) * h + n / w
  }

  lemma MulMonotone(a: nat, b: nat, d: nat)
    requires a <= b
    ensures a * d <= b * d
  {
  }

  lemma DivModUnique(q: nat, r: nat, d: nat)
    requires r < d
    ensures (q * d + r) / d == q && (q * d + r) % d == r
  {
    var x := q * d + r;
    var p := x / d;
    assert x == p * d + x % d;
    if p < q {
      MulMonotone(p + 1, q, d);
    } else if p > q {
      MulMonotone(q + 1, p, d);
    }
  }

  /** For every width and height the regroup is a bijection on the frame, and regrouping back inverts it. */
  lemma TargetBijection(n: nat, w: nat, h: nat)
    requires w > 0 && h > 0 && n < w * h
    ensures Target(n, w, h) < w * h
    ensures Target(Target(n, w, h), h, w) == n
  {
    var q, r := n / w, n % w;
    assert n == q * w + r;
    if q >= h {
      MulMonotone(h, q, w);
    }
    MulMonotone(r + 1, w, h);
    DivModUnique(r, q, h);
  }

  /** Zeroes a whole buffer, as memset does. */
  method Memzero(out16: array<Sample>)
    modifies out16
    ensures out16[..] == Zeros(out16.Length)
  {
    for i := 0 to out16.Length
      invariant out16[..i] == Zeros(i)
    {
      out16[i] := 0;
    }
    FullSlice(out16[..], out16.Length);
  }

  /** Writes each sample at its target; with a bijective target every cell is written once. */
  method Scatter(stream: seq<Sample>, out16: array<Sample>, target: nat -> nat, ghost source: nat -> nat)
    requires |stream| == out16.Length && Inverse(target, source, |stream|)
    modifies out16
    ensures Placed(out16[..], stream, |stream|, target)
    ensures multiset(out16[..]) == multiset(stream)
  {
    Memzero(out16);
    assert stream[..0] == [];
    for n := 0 to |stream|
      invariant Placed(out16[..], stream, n, target) && Unwritten(out16[..], n, source)
      invariant SameSamples(out16[..], stream, n)
    {
      var dst := target(n);
      ScatterStep(out16[..], stream, n, target, source);
      if dst < out16.Length {
        out16[dst] := stream[n];
      }
    }
    SameSamplesEnd(out16[..], stream);
  }

  /** The source undoes the target on the frame. */
  ghost predicate Inverse(target: nat -> nat, source: nat -> nat, size: nat) {
    forall n: nat | n < size :: target(n) < size && source(target(n)) == n
  }

  /** The first n samples are at their targets. */
  ghost predicate Placed(cells: seq<Sample>, stream: seq<Sample>, n: nat, target: nat -> nat)
    requires n <= |stream|
  {
    forall k: nat | k < n :: target(k) < |cells| && cells[target(k)] == stream[k]
  }

  /** The cells of the later samples still hold zero. */
  ghost predicate Unwritten(cells: seq<Sample>, n: nat, source: nat -> nat) {
    forall m: nat | m < |cells| && source(m) >= n :: cells[m] == 0
  }

  lemma ScatterStep(cells: seq<Sample>, stream: seq<Sample>, n: nat, target: nat -> nat, source: nat -> nat)
    requires n < |stream| == |cells| && Inverse(target, source, |stream|)
    requires Placed(cells, stream, n, target) && Unwritten(cells, n, source) && SameSamples(cells, stream, n)
    ensures target(n) < |cells|
    ensures var after := cells[target(n) := stream[n]];
            && Placed(after, stream, n + 1, target) && Unwritten(after, n + 1, source)
            && SameSamples(after, stream, n + 1)
  {
    SameSamplesStep(cells, stream, n, target(n));
  }

  /** The cells hold the first n samples, and zeros in the cells not yet written. */
  ghost predicate SameSamples(cells: seq<Sample>, stream: seq<Sample>, n: nat)
    requires n <= |stream|
  {
    multiset(cells) + multiset(Zeros(n)) == multiset(stream[..n]) + multiset(Zeros(|stream|))
  }

  lemma SameSamplesStep(cells: seq<Sample>, stream: seq<Sample>, n: nat, dst: nat)
    requires n < |stream| && dst < |cells| && cells[dst] == 0 && SameSamples(cells, stream, n)
    ensures SameSamples(cells[dst := stream[n]], stream, n + 1)
  {
    assert stream[..n + 1] == stream[..n] + [stream[n]];
    assert Zeros(n + 1) == Zeros(n) + [0];
    var x: Sample, zero: Sample := stream[n], 0;
    var a, b, z, s := multiset(cells), multiset(cells[dst := x]), multiset(Zeros(n)), multiset(stream[..n]);
    assert b + multiset{zero} == a + multiset{x};
    assert multiset(Zeros(n + 1)) == z + multiset{zero};
    assert multiset(stream[..n + 1]) == s + multiset{x};
    assert b + (z + multiset{zero}) == (b + multiset{zero}) + z == (a + z) + multiset{x};
  }

  lemma SameSamplesEnd(cells: seq<Sample>, stream: seq<Sample>)
    requires SameSamples(cells, stream, |stream|)
    ensures multiset(cells) == multiset(stream)
  {
    assert stream[..|stream|] == stream;
    Cancel(multiset(cells), multiset(stream), multiset(Zeros(|stream|)));
  }

  lemma Cancel<T>(a: multiset<T>, b: multiset<T>, z: multiset<T>)
    requires a + z == b + z
    ensures a == b
  {
    assert a == a + z - z;
    assert b == b + z - z;
  }

  function Zeros(n: nat): (z: seq<Sample>)
    ensures |z| == n && forall i | 0 <= i < n :: z[i] == 0
  {
    seq(n, _ => 0)
  }

  /** The cell of row r, column c of the frame, and the stream position of run c, offset r. */
  ghost predicate CellFrom(stream: seq<Sample>, frame: seq<Sample>, r: nat, c: nat, w: nat, h: nat) {
    && r * h + c < |frame| && c * w + r < |stream|
    && frame[r * h + c] == stream[c * w + r]
  }

  ghost predicate Transposed(stream: seq<Sample>, frame: seq<Sample>, w: nat, h: nat) {
    && |frame| == |stream|
    && forall r: nat, c: nat | r < w && c < h :: CellFrom(stream, frame, r, c, w, h)
  }

  lemma CellIsTarget(r: nat, c: nat, w: nat, h: nat)
    requires r < w && c < h
    ensures r * h + c < w * h && c * w + r < w * h
    ensures Target(c * w + r, w, h) == r * h + c
  {
    MulMonotone(r + 1, w, h);
    MulMonotone(c + 1, h, w);
    DivModUnique(c, r, w);
  }

  lemma TargetsInverse(target: nat -> nat, source: nat -> nat, w: nat, h: nat)
    requires w > 0 && h > 0
    requires forall n: nat :: target(n) == Target(n, w, h) && source(n) == Target(n, h, w)
    ensures Inverse(target, source, w * h)
  {
    forall n: nat | n < w * h ensures target(n) < w * h && source(target(n)) == n {
      TargetBijection(n, w, h);
    }
  }

  lemma PlacedTransposes(cells: seq<Sample>, stream: seq<Sample>, target: nat -> nat, w: nat, h: nat)
    requires w > 0 && |stream| == |cells| == w * h && Placed(cells, stream, |stream|, target)
    requires forall n: nat :: target(n) == Target(n, w, h)
    ensures Transposed(stream, cells, w, h)
  {
    forall r: nat, c: nat | r < w && c < h ensures CellFrom(stream, cells, r, c, w, h) {
      CellIsTarget(r, c, w, h);
    }
  }

  /** The regroup loop: the result is the transpose of the stream, and holds the same samples. */
  method Regroup(stream: seq<Sample>, out16: array<Sample>, w: nat, h: nat)
    requires w > 0 && h > 0 && |stream| == out16.Length == w * h
    modifies out16
    ensures Transposed(stream, out16[..], w, h)
    ensures multiset(out16[..]) == multiset(stream)
  {
    var target: nat -> nat, source: nat -> nat := n => Target(n, w, h), m => Target(m, h, w);
    TargetsInverse(target, source, w, h);
    Scatter(stream, out16, target, source);
    PlacedTransposes(out16[..], stream, target, w, h);
  }

  /** The groups of a full payload fill the frame exactly. */
  lemma FullFrame()
    ensures FRAME_PIXELS == WIDTH * HEIGHT == 5120
    ensures Groups(7680, FRAME_PIXELS) == FRAME_PIXELS / 4 == 1280
  {
  }

  /** Decode and regroup where the packed bytes hold exactly the samples of a frame of that width and height. */
  method DecodeExact(packed: Bytes, out16: array<Sample>, w: nat, h: nat, groups: nat)
    requires w > 0 && h > 0 && out16.Length == w * h
    requires groups == Groups(|packed|, out16.Length) && 4 * groups == out16.Length
    modifies out16
    ensures Transposed(Unpacked(packed, groups), out16[..], w, h)
    ensures multiset(out16[..]) == multiset(Unpacked(packed, groups))
  {
    var samples := new Sample[out16.Length];
    var decoded := Raw12Decode(packed, samples);
    FullSlice(samples[..], decoded);
    Regroup(samples[..], out16, w, h);
  }

  /** Decode and regroup a full frame. */
  method DecodeFrame(packed: Bytes, out16: array<Sample>)
    requires |packed| == 7680 && out16.Length == FRAME_PIXELS
    modifies out16
    ensures Transposed(Unpacked(packed, FRAME_PIXELS / 4), out16[..], WIDTH, HEIGHT)
    ensures multiset(out16[..]) == multiset(Unpacked(packed, FRAME_PIXELS / 4))
  {
    FullFrame();
    DecodeExact(packed, out16, WIDTH, HEIGHT, FRAME_PIXELS / 4);
  }
}
