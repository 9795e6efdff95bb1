/** The arithmetic of chunked uploads, in the source's 64-bit integers. */
module UploadSpec {
  import opened Options

  const MAX_INT64: int := 0x7fff_ffff_ffff_ffff
  const DEFAULT_CHUNK_SIZE: int := 25 * 1024 * 1024
  const MAX_CHUNK_SIZE: int := 128 * 1024 * 1024

  type int64 = x: int | -MAX_INT64 - 1 <= x <= MAX_INT64

  /** Two's-complement wrap-around of a 64-bit result. */
  function Wrap(x: int): int64 {
    var m := x % 0x1_0000_0000_0000_0000;
    if m > MAX_INT64 then m - 0x1_0000_0000_0000_0000 else m
  }

  /** Division as Go does it, toward zero. */
  function Quotient(a: int, b: int): int
    requires b > 0
  {
    if a >= 0 then a / b else -((-a) / b)
  }

  function ChunkCount(size: int64, chunkSize: int64): int {
    if size <= 0 || chunkSize <= 0 then 0 else Quotient(Wrap(Wrap(size + chunkSize) - 1), chunkSize)
  }

  datatype Args = Args(
    path: string, uploadId: string, offset: int64, index: int64, count: int64, total: int64,
    chunkSize: int64, first: bool)

  datatype Spec = Spec(
    path: string, uploadId: string, offset: int64, index: int64, count: int64, total: int64, chunkSize: int64,
    expected: int64, first: bool)

  function SizeOf(chunkSize: int64): int64 {
    if chunkSize == 0 then DEFAULT_CHUNK_SIZE else chunkSize
  }

  /** Chunk `index` of a file cut into `chunkSize` pieces starts at `offset` and is `expected`
      long, computed without any bound on the integers. */
  predicate Cuts(total: int, chunkSize: int, count: int, index: int, offset: int, expected: int) {
    && 0 < chunkSize && 0 < total
    && (count - 1) * chunkSize < total <= count * chunkSize
    && 0 <= index < count && offset == index * chunkSize
    && expected == (if index == count - 1 then total - offset else chunkSize)
  }

  /** What the parser promises its callers, free of overflow. */
  ghost predicate Acceptable(a: Args) {
    && a.uploadId != "" && a.path != "/" && a.path != "."
    && SizeOf(a.chunkSize) <= MAX_CHUNK_SIZE
    && a.total + SizeOf(a.chunkSize) <= MAX_INT64 + 1
    && exists expected :: Cuts(a.total, SizeOf(a.chunkSize), a.count, a.index, a.offset, expected)
  }

  /** Accepts exactly the chunks of a mathematically correct cut that leaves the rounding sum
      within 64 bits; no accepted value has wrapped around. */
  method ParseUploadStreamSpec(a: Args) returns (r: Option<Spec>)
    ensures r.Some? <==> Acceptable(a)
    ensures r.Some? ==> Cuts(a.total, SizeOf(a.chunkSize), a.count, a.index, a.offset, r.value.expected)
    ensures r.Some? ==> r.value == Spec(a.path, a.uploadId, a.offset, a.index, a.count, a.total, SizeOf(a.chunkSize),
                                        r.value.expected, a.first)
  {
    hide Acceptable, Cuts, Wrap, Quotient;
    NotAChunk(a);
    var spec := Spec(a.path, a.uploadId, a.offset, a.index, a.count, a.total, a.chunkSize, 0, a.first);
    if spec.chunkSize == 0 { spec := spec.(chunkSize := DEFAULT_CHUNK_SIZE); }
    if spec.uploadId == "" { return None; }
    if spec.path == "/" || spec.path == "." { return None; }
    if spec.offset < 0 || spec.count <= 0 || spec.total <= 0 { return None; }
    if spec.chunkSize <= 0 || spec.chunkSize > MAX_CHUNK_SIZE { return None; }
    if spec.count != Quotient(Wrap(Wrap(spec.total + spec.chunkSize) - 1), spec.chunkSize) {
      CountMismatch(a);
      return None;
    }
    CountIsCeiling(spec.total, spec.chunkSize, spec.count);
    Verdict(a);
    if spec.index < 0 || spec.index >= spec.count { return None; }
    if spec.offset != Wrap(spec.index * spec.chunkSize) { return None; }
    var rest := spec.total - spec.offset;
    spec := spec.(expected := if spec.chunkSize < rest then spec.chunkSize else rest);
    if spec.expected <= 0 { return None; }
    r := Some(spec);
  }

  lemma NotAChunk(a: Args)
    ensures Acceptable(a) ==>
              a.uploadId != "" && a.path != "/" && a.path != "." && a.offset >= 0 && a.count > 0 && a.total > 0
    ensures Acceptable(a) ==> 0 < SizeOf(a.chunkSize) <= MAX_CHUNK_SIZE
  {
    if Acceptable(a) {
      OffsetFits(a.total, SizeOf(a.chunkSize), a.count, a.index);
    }
  }

  /** Once the count is right, the index and the offset decide. */
  lemma Verdict(a: Args)
    requires a.uploadId != "" && a.path != "/" && a.path != "."
    requires 0 < a.total && 0 < SizeOf(a.chunkSize) <= MAX_CHUNK_SIZE && a.total + SizeOf(a.chunkSize) <= MAX_INT64 + 1
    requires (a.count - 1) * SizeOf(a.chunkSize) < a.total <= a.count * SizeOf(a.chunkSize)
    ensures Acceptable(a) <==> 0 <= a.index < a.count && a.offset == Wrap(a.index * SizeOf(a.chunkSize))
    ensures Acceptable(a) ==>
              var rest := a.total - a.offset;
              var expected := if SizeOf(a.chunkSize) < rest then SizeOf(a.chunkSize) else rest;
              0 < expected <= MAX_INT64 && Cuts(a.total, SizeOf(a.chunkSize), a.count, a.index, a.offset, expected)
  {
    if 0 <= a.index < a.count {
      var c := SizeOf(a.chunkSize);
      OffsetFits(a.total, c, a.count, a.index);
      LastChunk(a.total, c, a.count, a.index);
      if a.offset == a.index * c {
        assert Cuts(a.total, c, a.count, a.index, a.offset, Length(a.total, c, a.count, a.index));
      }
    }
  }

  /** The rounding sum is either exact or wraps to a negative number. */
  lemma SumWraps(total: int64, chunkSize: int64)
    requires 0 < total && 0 < chunkSize <= MAX_CHUNK_SIZE
    ensures total + chunkSize <= MAX_INT64 + 1 ==> Wrap(Wrap(total + chunkSize) - 1) == total + chunkSize - 1
    ensures total + chunkSize > MAX_INT64 + 1 ==> Wrap(Wrap(total + chunkSize) - 1) < 0
  {
  }

  lemma Scaled(a: int, b: int, c: int)
    requires a <= b && 0 <= c
    ensures a * c <= b * c
  {
  }

  lemma OneMore(a: int, c: int)
    ensures (a + 1) * c == a * c + c && (a - 1) * c == a * c - c
  {
  }

  lemma Divides(sum: int, c: int)
    requires 0 <= sum && 0 < c
    ensures sum == sum / c * c + sum % c && 0 <= sum % c < c
  {
  }

  lemma NegativeQuotient(a: int, b: int)
    requires b > 0
    ensures a < 0 ==> Quotient(a, b) <= 0
  {
  }

  lemma CountIsCeiling(total: int64, chunkSize: int64, count: int)
    requires 0 < total && 0 < chunkSize <= MAX_CHUNK_SIZE && 0 < count
    requires count == Quotient(Wrap(Wrap(total + chunkSize) - 1), chunkSize)
    ensures total + chunkSize <= MAX_INT64 + 1
    ensures (count - 1) * chunkSize < total <= count * chunkSize
  {
    SumWraps(total, chunkSize);
    var sum := Wrap(Wrap(total + chunkSize) - 1);
    NegativeQuotient(sum, chunkSize);
    Divides(sum, chunkSize);
    OneMore(count, chunkSize);
  }

  lemma CountMismatch(a: Args)
    requires 0 < a.total && 0 < SizeOf(a.chunkSize) <= MAX_CHUNK_SIZE
    requires a.count != Quotient(Wrap(Wrap(a.total + SizeOf(a.chunkSize)) - 1), SizeOf(a.chunkSize))
    ensures !Acceptable(a)
  {
    var c := SizeOf(a.chunkSize);
    if a.total + c <= MAX_INT64 + 1 && (a.count - 1) * c < a.total <= a.count * c {
      SumWraps(a.total, c);
      QuotientUnique(a.total + c - 1, c, a.count);
      assert false;
    }
  }

  lemma QuotientUnique(sum: int, c: int, q: int)
    requires 0 <= sum && 0 < c && q * c <= sum < q * c + c
    ensures sum / c == q
  {
    var d := sum / c;
    Divides(sum, c);
    OneMore(d, c);
    OneMore(q, c);
    if d < q {
      Scaled(d + 1, q, c);
    } else if d > q {
      Scaled(q + 1, d, c);
    }
  }

  lemma OffsetFits(total: int64, chunkSize: int64, count: int, index: int)
    requires 0 < chunkSize && 0 <= index < count && (count - 1) * chunkSize < total
    ensures 0 <= index * chunkSize < total
    ensures Wrap(index * chunkSize) == index * chunkSize
  {
    Scaled(index, count - 1, chunkSize);
    Scaled(0, index, chunkSize);
  }

  lemma LastChunk(total: int, chunkSize: int, count: int, index: int)
    requires 0 < chunkSize && 0 <= index < count && (count - 1) * chunkSize < total <= count * chunkSize
    ensures index == count - 1 ==> 0 < total - index * chunkSize <= chunkSize
    ensures index < count - 1 ==> total - index * chunkSize > chunkSize
  {
    OneMore(index, chunkSize);
    OneMore(count, chunkSize);
    if index < count - 1 {
      Scaled(index + 1, count - 1, chunkSize);
    }
  }

  /** The chunks tile the file: every byte lies in the range of exactly one index. */
  lemma ChunksTile(total: int, chunkSize: int, count: int, at: int)
    requires 0 < chunkSize && 0 < total && (count - 1) * chunkSize < total <= count * chunkSize && 0 <= at < total
    ensures 0 <= at / chunkSize < count
    ensures Cuts(total, chunkSize, count, at / chunkSize, at / chunkSize * chunkSize,
                 Length(total, chunkSize, count, at / chunkSize))
    ensures var i := at / chunkSize; i * chunkSize <= at < i * chunkSize + Length(total, chunkSize, count, i)
    ensures forall i :: 0 <= i < count && i * chunkSize <= at < i * chunkSize + Length(total, chunkSize, count, i) ==>
              i == at / chunkSize
  {
    var q := at / chunkSize;
    Divides(at, chunkSize);
    if q >= count {
      Scaled(count, q, chunkSize);
      assert false;
    }
    LastChunk(total, chunkSize, count, q);
    forall i | 0 <= i < count && i * chunkSize <= at < i * chunkSize + Length(total, chunkSize, count, i)
      ensures i == q
    {
      LastChunk(total, chunkSize, count, i);
      QuotientUnique(at, chunkSize, i);
    }
  }

  function Length(total: int, chunkSize: int, count: int, i: int): int {
    if i == count - 1 then total - i * chunkSize else chunkSize
  }
}
