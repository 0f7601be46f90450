/**
  The CPU-side staging copy of the shader constants (`s_ubo_buffer`): one
  byte buffer holding the pixel-shader block followed by the vertex-shader
  block, a dirty flag, and the upload that hands the whole buffer to the
  streaming buffer and binds the two blocks to uniform binding points 1 and 2.

  Constant values are opaque bytes. The streaming buffer is external: the
  offset its upload returns is a parameter.
 */
module ConstantBuffer {

  newtype byte = x: int | 0 <= x < 256

  /** Bytes of one four-component float vector (`4 * sizeof(float)`). */
  const Vec4Bytes: nat := 16

  lemma ScaledAtLeast(d: int, m: int)
    requires m > 0
    ensures d >= 1 ==> d * m >= m
    ensures d <= -1 ==> d * m <= -m
  {
  }

  /** A whole number of `m`s leaves no remainder. */
  lemma MultipleHasNoRemainder(n: int, m: int, k: int)
    requires m > 0 && n == k * m
    ensures n % m == 0
  {
    var d := k - n / m;
    assert n == (n / m) * m + n % m;
    assert d * m == n % m;
    ScaledAtLeast(d, m);
  }

  /** `ROUND_UP(x, align)`: the smallest multiple of `align` not below `x`. */
  function RoundUp(x: nat, align: nat): (r: nat)
    requires align > 0
    ensures r % align == 0
    ensures x <= r < x + align
  {
    var y := x + align - 1;
    var q := y / align;
    assert y == q * align + y % align;
    MultipleHasNoRemainder(q * align, align, q);
    q * align
  }

  /** Where the vertex block starts (`s_vs_data_offset`) and the size of the
      whole buffer (`s_ubo_buffer_size`), both in bytes. */
  datatype Layout = Layout(vsDataOffset: nat, bufferSize: nat)

  /** The sizes `Init` computes from the two constant counts
      (`C_PENVCONST_END`, `C_VENVCONST_END`, in vectors) and the driver's
      `GL_UNIFORM_BUFFER_OFFSET_ALIGNMENT`: each block is rounded up on its
      own, the vertex block starts at the rounded pixel block. */
  function ComputeLayout(psConstEnd: nat, vsConstEnd: nat, align: nat): (l: Layout)
    requires align > 0
    ensures l.vsDataOffset % align == 0 && l.bufferSize % align == 0
    ensures psConstEnd * Vec4Bytes <= l.vsDataOffset < psConstEnd * Vec4Bytes + align
    ensures l.vsDataOffset <= l.bufferSize
    ensures vsConstEnd * Vec4Bytes <= l.bufferSize - l.vsDataOffset < vsConstEnd * Vec4Bytes + align
  {
    var psDataSize := RoundUp(psConstEnd * Vec4Bytes, align);
    var vsDataSize := RoundUp(vsConstEnd * Vec4Bytes, align);
    assert (psDataSize + vsDataSize) % align == 0 by {
      SumOfMultiples(psDataSize, vsDataSize, align);
    }
    Layout(psDataSize, psDataSize + vsDataSize)
  }

  lemma SumOfMultiples(a: nat, b: nat, m: nat)
    requires m > 0 && a % m == 0 && b % m == 0
    ensures (a + b) % m == 0
  {
    var p, q := a / m, b / m;
    assert a == p * m + a % m;
    assert b == q * m + b % m;
    assert a + b == (p + q) * m;
    MultipleHasNoRemainder(a + b, m, p + q);
  }

  /** The staging buffer: its layout, its bytes, and whether they changed
      since the last upload (`s_ubo_dirty`). */
  datatype Staging = Staging(layout: Layout, data: seq<byte>, dirty: bool)

  /** The byte buffer has the size of the layout, and the vertex block starts
      inside it. */
  ghost predicate Valid(s: Staging)
  {
    s.layout.vsDataOffset <= s.layout.bufferSize == |s.data|
  }

  /** The UBO part of `Init`: a zero-filled buffer of the computed size,
      marked dirty so that the first upload happens before first use. */
  function InitStaging(psConstEnd: nat, vsConstEnd: nat, align: nat): (s: Staging)
    requires align > 0
    ensures Valid(s)
    ensures s.layout == ComputeLayout(psConstEnd, vsConstEnd, align)
    ensures forall i :: 0 <= i < |s.data| ==> s.data[i] == 0
    ensures s.dirty
  {
    var l := ComputeLayout(psConstEnd, vsConstEnd, align);
    Staging(l, seq(l.bufferSize, _ => 0), true)
  }

  /** `memcpy(dst + at, src, |src|)` on a byte sequence: the bytes from `at`
      on are those of `src`, every other byte is kept. */
  function CopyInto(dst: seq<byte>, at: nat, src: seq<byte>): (r: seq<byte>)
    requires at + |src| <= |dst|
    ensures |r| == |dst|
    ensures forall i :: 0 <= i < |r| ==>
      r[i] == if at <= i < at + |src| then src[i - at] else dst[i]
  {
    dst[..at] + src + dst[at + |src|..]
  }

  /** A write of `count` vectors at vector `offset` of the pixel block stays
      inside that block (the caller's duty: nothing checks it). */
  predicate PSWriteFits(l: Layout, offset: nat, count: nat)
  {
    (offset + count) * Vec4Bytes <= l.vsDataOffset
  }

  /** A write of `count` vectors at vector `offset` of the vertex block stays
      inside that block. */
  predicate VSWriteFits(l: Layout, offset: nat, count: nat)
  {
    l.vsDataOffset + (offset + count) * Vec4Bytes <= l.bufferSize
  }

  /** `SetMultiPSConstant4fv(offset, f, count)`: copies the first
      `count * 16` bytes of `f` to byte `offset * 16` and marks the buffer
      dirty; no other byte changes. */
  function SetMultiPSConstant4fv(s: Staging, offset: nat, f: seq<byte>, count: nat): (r: Staging)
    requires Valid(s)
    requires count * Vec4Bytes <= |f|
    requires PSWriteFits(s.layout, offset, count)
    ensures Valid(r) && r.layout == s.layout
    ensures r.dirty
    ensures forall i :: 0 <= i < |r.data| ==>
      r.data[i] == if offset * Vec4Bytes <= i < (offset + count) * Vec4Bytes
                   then f[i - offset * Vec4Bytes] else s.data[i]
  {
    s.(data := CopyInto(s.data, offset * Vec4Bytes, f[..count * Vec4Bytes]), dirty := true)
  }

  /** `SetMultiVSConstant4fv(offset, f, count)`: as the pixel-shader write,
      shifted by the start of the vertex block. */
  function SetMultiVSConstant4fv(s: Staging, offset: nat, f: seq<byte>, count: nat): (r: Staging)
    requires Valid(s)
    requires count * Vec4Bytes <= |f|
    requires VSWriteFits(s.layout, offset, count)
    ensures Valid(r) && r.layout == s.layout
    ensures r.dirty
    ensures forall i :: 0 <= i < |r.data| ==>
      r.data[i] == if s.layout.vsDataOffset + offset * Vec4Bytes <= i < s.layout.vsDataOffset + (offset + count) * Vec4Bytes
                   then f[i - s.layout.vsDataOffset - offset * Vec4Bytes] else s.data[i]
  {
    s.(data := CopyInto(s.data, s.layout.vsDataOffset + offset * Vec4Bytes, f[..count * Vec4Bytes]), dirty := true)
  }

  /** `glBindBufferRange(GL_UNIFORM_BUFFER, index, buffer, offset, size)` on
      the streaming buffer. */
  datatype BufferRange = BufferRange(index: nat, offset: nat, size: nat)

  /** One upload: the bytes handed to the streaming buffer, the offset at
      which it placed them, and the two ranges bound afterwards. */
  datatype Upload = Upload(base: nat, bytes: seq<byte>, psRange: BufferRange, vsRange: BufferRange)

  /** Whether an upload happened, and which. */
  datatype MaybeUpload = NoUpload | Uploaded(value: Upload)

  datatype Flush = Flush(staging: Staging, upload: MaybeUpload)

  /** The bytes a shader sees through a bound range of an upload. */
  function Visible(u: Upload, range: BufferRange): seq<byte>
    requires u.base <= range.offset && range.offset + range.size <= u.base + |u.bytes|
  {
    u.bytes[range.offset - u.base .. range.offset - u.base + range.size]
  }

  /** `UploadConstants`. A clean buffer is left alone. A dirty one is uploaded
      whole at offset `base` of the streaming buffer; binding point 1 then
      shows exactly the pixel block and binding point 2 exactly the vertex
      block, the two ranges adjoin and together cover the upload, and the
      buffer is clean. */
  function UploadConstants(s: Staging, base: nat): (r: Flush)
    requires Valid(s)
    ensures Valid(r.staging)
    ensures r.staging.layout == s.layout && r.staging.data == s.data
    ensures !r.staging.dirty
    ensures !s.dirty ==> r.upload == NoUpload && r.staging == s
    ensures s.dirty ==> r.upload.Uploaded? && r.upload.value.base == base && r.upload.value.bytes == s.data
    ensures r.upload.Uploaded? ==>
      var u := r.upload.value;
      && u.psRange.index == 1 && u.vsRange.index == 2
      && u.psRange.offset == base
      && u.psRange.offset + u.psRange.size == u.vsRange.offset
      && u.psRange.size + u.vsRange.size == s.layout.bufferSize
      && Visible(u, u.psRange) == s.data[..s.layout.vsDataOffset]
      && Visible(u, u.vsRange) == s.data[s.layout.vsDataOffset..]
  {
    if s.dirty then
      var l := s.layout;
      var u := Upload(base, s.data,
                      BufferRange(1, base, l.vsDataOffset),
                      BufferRange(2, base + l.vsDataOffset, l.bufferSize - l.vsDataOffset));
      Flush(s.(dirty := false), Uploaded(u))
    else
      Flush(s, NoUpload)
  }

  // ---------------------------------------------------------------------
  // Properties of single operations

  /** A pixel-block write leaves the vertex block as it was. */
  lemma PSWriteKeepsVSBlock(s: Staging, offset: nat, f: seq<byte>, count: nat)
    requires Valid(s)
    requires count * Vec4Bytes <= |f|
    requires PSWriteFits(s.layout, offset, count)
    ensures SetMultiPSConstant4fv(s, offset, f, count).data[s.layout.vsDataOffset..]
         == s.data[s.layout.vsDataOffset..]
  {
    var r := SetMultiPSConstant4fv(s, offset, f, count);
    var v := s.layout.vsDataOffset;
    forall i | 0 <= i < |s.data| - v
      ensures r.data[v..][i] == s.data[v..][i]
    {
      assert r.data[v + i] == s.data[v + i];
    }
  }

  /** A vertex-block write leaves the pixel block as it was. */
  lemma VSWriteKeepsPSBlock(s: Staging, offset: nat, f: seq<byte>, count: nat)
    requires Valid(s)
    requires count * Vec4Bytes <= |f|
    requires VSWriteFits(s.layout, offset, count)
    ensures SetMultiVSConstant4fv(s, offset, f, count).data[..s.layout.vsDataOffset]
         == s.data[..s.layout.vsDataOffset]
  {
    var r := SetMultiVSConstant4fv(s, offset, f, count);
    var v := s.layout.vsDataOffset;
    forall i | 0 <= i < v
      ensures r.data[..v][i] == s.data[..v][i]
    {
      assert r.data[i] == s.data[i];
    }
  }

  /** Writing pixel constants and then uploading shows them through binding
      point 1 at their vector offset. */
  lemma PSWriteThenUploadIsVisible(s: Staging, offset: nat, f: seq<byte>, count: nat, base: nat)
    requires Valid(s)
    requires count * Vec4Bytes <= |f|
    requires PSWriteFits(s.layout, offset, count)
    ensures var u := UploadConstants(SetMultiPSConstant4fv(s, offset, f, count), base).upload;
      && u.Uploaded?
      && u.value.psRange.size == s.layout.vsDataOffset
      && u.value.vsRange.size == s.layout.bufferSize - s.layout.vsDataOffset
      && Visible(u.value, u.value.psRange)[offset * Vec4Bytes .. (offset + count) * Vec4Bytes]
         == f[..count * Vec4Bytes]
  {
    var w := SetMultiPSConstant4fv(s, offset, f, count);
    var u := UploadConstants(w, base).upload.value;
    var seen := Visible(u, u.psRange)[offset * Vec4Bytes .. (offset + count) * Vec4Bytes];
    forall i | 0 <= i < count * Vec4Bytes
      ensures seen[i] == f[..count * Vec4Bytes][i]
    {
      assert seen[i] == w.data[offset * Vec4Bytes + i];
    }
  }

  /** Uploading twice with no write in between uploads once: the second
      call finds the buffer clean. */
  lemma SecondUploadDoesNothing(s: Staging, base1: nat, base2: nat)
    requires Valid(s)
    ensures var r1 := UploadConstants(s, base1);
      UploadConstants(r1.staging, base2) == Flush(r1.staging, NoUpload)
  {
  }

  // ---------------------------------------------------------------------
  // Sequences of writes and uploads

  /** One call on the staging buffer; `Flush` carries the offset the
      streaming buffer would place an upload at. */
  datatype Op =
    | WritePS(offset: nat, f: seq<byte>, count: nat)
    | WriteVS(offset: nat, f: seq<byte>, count: nat)
    | UploadAt(base: nat)
  {
    predicate IsWrite() { WritePS? || WriteVS? }
  }

  /** The caller keeps each write inside its block and passes enough bytes. */
  predicate Fits(l: Layout, op: Op)
  {
    match op
    case WritePS(offset, f, count) => count * Vec4Bytes <= |f| && PSWriteFits(l, offset, count)
    case WriteVS(offset, f, count) => count * Vec4Bytes <= |f| && VSWriteFits(l, offset, count)
    case UploadAt(_) => true
  }

  ghost predicate AllFit(l: Layout, ops: seq<Op>)
  {
    forall i :: 0 <= i < |ops| ==> Fits(l, ops[i])
  }

  function ApplyOp(s: Staging, op: Op): (r: Flush)
    requires Valid(s) && Fits(s.layout, op)
    ensures Valid(r.staging) && r.staging.layout == s.layout
  {
    match op
    case WritePS(offset, f, count) => Flush(SetMultiPSConstant4fv(s, offset, f, count), NoUpload)
    case WriteVS(offset, f, count) => Flush(SetMultiVSConstant4fv(s, offset, f, count), NoUpload)
    case UploadAt(base) => UploadConstants(s, base)
  }

  /** The staging buffer after a sequence of calls. The layout fixed by
      `Init` never changes, so every call of the sequence meets its
      precondition. */
  function RunOps(s: Staging, ops: seq<Op>): (r: Staging)
    requires Valid(s) && AllFit(s.layout, ops)
    ensures Valid(r) && r.layout == s.layout
    decreases |ops|
  {
    if ops == [] then s else RunOps(ApplyOp(s, ops[0]).staging, ops[1..])
  }

  /** How many of the calls uploaded. */
  function Uploads(s: Staging, ops: seq<Op>): nat
    requires Valid(s) && AllFit(s.layout, ops)
    decreases |ops|
  {
    if ops == [] then 0
    else
      var r := ApplyOp(s, ops[0]);
      (if r.upload.Uploaded? then 1 else 0) + Uploads(r.staging, ops[1..])
  }

  /** The dirty flag after a sequence of calls is true exactly when the last
      call was a write, or, for no call at all, when it was true before:
      every write since the last upload leaves it set and every upload
      clears it. */
  lemma {:induction false} DirtyIffLastWasWrite(s: Staging, ops: seq<Op>)
    requires Valid(s) && AllFit(s.layout, ops)
    ensures RunOps(s, ops).dirty == if ops == [] then s.dirty else ops[|ops| - 1].IsWrite()
    decreases |ops|
  {
    if ops != [] {
      var r := ApplyOp(s, ops[0]).staging;
      assert r.dirty == ops[0].IsWrite();
      DirtyIffLastWasWrite(r, ops[1..]);
    }
  }

  /** A reference count of uploads that looks at the calls alone: an upload
      call counts when it comes right after a write, or first on a dirty
      buffer. */
  function UploadsWanted(dirty: bool, ops: seq<Op>): nat
    decreases |ops|
  {
    if ops == [] then 0
    else (if ops[0].UploadAt? && dirty then 1 else 0) + UploadsWanted(ops[0].IsWrite(), ops[1..])
  }

  /** Each upload call uploads exactly when a write came since the previous
      upload, so a run of uploads with no write between them uploads at most
      once. */
  lemma {:induction false} UploadsOnlyAfterWrites(s: Staging, ops: seq<Op>)
    requires Valid(s) && AllFit(s.layout, ops)
    ensures Uploads(s, ops) == UploadsWanted(s.dirty, ops)
    decreases |ops|
  {
    if ops != [] {
      var r := ApplyOp(s, ops[0]);
      assert r.upload.Uploaded? <==> ops[0].UploadAt? && s.dirty;
      assert r.staging.dirty == ops[0].IsWrite();
      UploadsOnlyAfterWrites(r.staging, ops[1..]);
    }
  }

  /** Upload calls with no write among them upload at most once, and once
      exactly when the buffer was dirty to begin with. */
  lemma {:induction false} RepeatedUploadsUploadOnce(s: Staging, ops: seq<Op>)
    requires Valid(s) && AllFit(s.layout, ops)
    requires forall i :: 0 <= i < |ops| ==> ops[i].UploadAt?
    ensures Uploads(s, ops) == if ops != [] && s.dirty then 1 else 0
    decreases |ops|
  {
    if ops != [] {
      var r := ApplyOp(s, ops[0]);
      assert !r.staging.dirty;
      RepeatedUploadsUploadOnce(r.staging, ops[1..]);
    }
  }

  /** Pixel-block writes never reach the vertex block, and vertex-block
      writes never reach the pixel block, over any sequence of calls. */
  lemma {:induction false} BlocksStaySeparate(s: Staging, ops: seq<Op>)
    requires Valid(s) && AllFit(s.layout, ops)
    ensures (forall i :: 0 <= i < |ops| ==> !ops[i].WriteVS?) ==>
      RunOps(s, ops).data[s.layout.vsDataOffset..] == s.data[s.layout.vsDataOffset..]
    ensures (forall i :: 0 <= i < |ops| ==> !ops[i].WritePS?) ==>
      RunOps(s, ops).data[..s.layout.vsDataOffset] == s.data[..s.layout.vsDataOffset]
    decreases |ops|
  {
    if ops != [] {
      var r := ApplyOp(s, ops[0]).staging;
      BlocksStaySeparate(r, ops[1..]);
      match ops[0] {
        case WritePS(offset, f, count) => PSWriteKeepsVSBlock(s, offset, f, count);
        case WriteVS(offset, f, count) => VSWriteKeepsPSBlock(s, offset, f, count);
        case UploadAt(_) =>
      }
    }
  }
}
