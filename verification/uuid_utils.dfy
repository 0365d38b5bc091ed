/**
 * UUIDs as 16 big-endian bytes, most significant half first. With the swap
 * flag the first eight bytes, taken as four two-byte pairs, are reordered;
 * the last eight bytes are never moved.
 */
module UUIDUtils {
  import opened Wrappers

  const BIN_LEN: int := 16
  const BIN_SUFFIX: int := 8
  /** Where binToUUID takes each pair of its copy from. */
  const SWAP: seq<int> := [6, 4, 0, 2]
  /** The partner position of each pair in uuidToBin's in-place exchanges. */
  const RESTORE: seq<int> := [4, 6, 2, 0]

  /** java.util.UUID: two signed 64-bit halves, here as their bit patterns. */
  datatype Uuid = Uuid(mostBits: bv64, leastBits: bv64)

  datatype UuidError = InvalidArgument

  /** A table of four pair positions: each an even index below BIN_SUFFIX. */
  predicate PairTable(table: seq<int>) {
    |table| == 4 && forall j :: 0 <= j < 4 ==> table[j] in {0, 2, 4, 6}
  }

  /** The eight bytes of a long, most significant first: (byte) ((x >> s) & 0xFF). */
  function LongBytes(x: bv64): (b: seq<bv8>)
    ensures |b| == 8
  {
    [ ((x >> 56) & 0xFF) as bv8,
      ((x >> 48) & 0xFF) as bv8,
      ((x >> 40) & 0xFF) as bv8,
      ((x >> 32) & 0xFF) as bv8,
      ((x >> 24) & 0xFF) as bv8,
      ((x >> 16) & 0xFF) as bv8,
      ((x >> 8) & 0xFF) as bv8,
      (x & 0xFF) as bv8 ]
  }

  /** The long whose bytes, most significant first, are `b`. */
  function BytesLong(b: seq<bv8>): bv64
    requires |b| == 8
  {
    ((b[0] as bv64) << 56)
    | ((b[1] as bv64) << 48)
    | ((b[2] as bv64) << 40)
    | ((b[3] as bv64) << 32)
    | ((b[4] as bv64) << 24)
    | ((b[5] as bv64) << 16)
    | ((b[6] as bv64) << 8)
    | (b[7] as bv64)
  }

  lemma LongBytesRoundTrip(x: bv64)
    ensures BytesLong(LongBytes(x)) == x
  {
  }

  lemma BytesLongRoundTrip(b: seq<bv8>)
    requires |b| == 8
    ensures LongBytes(BytesLong(b)) == b
  {
  }

  /** uuidToBin without swap. */
  function Bytes(u: Uuid): (b: seq<bv8>)
    ensures |b| == BIN_LEN
  {
    LongBytes(u.mostBits) + LongBytes(u.leastBits)
  }

  /** binToUUID without swap. */
  function FromBytes(b: seq<bv8>): Uuid
    requires |b| == BIN_LEN
  {
    Uuid(BytesLong(b[..BIN_SUFFIX]), BytesLong(b[BIN_SUFFIX..]))
  }

  /** Without swap, binToUUID(uuidToBin(u)) == u. */
  lemma UuidRoundTrip(u: Uuid)
    ensures FromBytes(Bytes(u)) == u
  {
    var b := Bytes(u);
    assert b[..BIN_SUFFIX] == LongBytes(u.mostBits);
    assert b[BIN_SUFFIX..] == LongBytes(u.leastBits);
    LongBytesRoundTrip(u.mostBits);
    LongBytesRoundTrip(u.leastBits);
  }

  /** Without swap, uuidToBin(binToUUID(b)) == b for every 16-byte array. */
  lemma BinRoundTrip(b: seq<bv8>)
    requires |b| == BIN_LEN
    ensures Bytes(FromBytes(b)) == b
  {
    BytesLongRoundTrip(b[..BIN_SUFFIX]);
    BytesLongRoundTrip(b[BIN_SUFFIX..]);
    assert b == b[..BIN_SUFFIX] + b[BIN_SUFFIX..];
  }

  /** A copy whose pair j comes from position table[j] and whose last eight bytes are b's. */
  function Gather(b: seq<bv8>, table: seq<int>): (g: seq<bv8>)
    requires |b| == BIN_LEN && PairTable(table)
    ensures |g| == BIN_LEN && g[BIN_SUFFIX..] == b[BIN_SUFFIX..]
  {
    [b[table[0]], b[table[0] + 1], b[table[1]], b[table[1] + 1],
     b[table[2]], b[table[2] + 1], b[table[3]], b[table[3] + 1]] + b[BIN_SUFFIX..]
  }

  /** One exchange of the pair at `i` with the pair at `k`. */
  function SwapPair(b: seq<bv8>, i: int, k: int): (r: seq<bv8>)
    requires |b| == BIN_LEN && 0 <= i < BIN_SUFFIX - 1 && 0 <= k < BIN_SUFFIX - 1
    ensures |r| == BIN_LEN
  {
    b[i := b[k]][k := b[i]][i + 1 := b[k + 1]][k + 1 := b[i + 1]]
  }

  /** The bytes after the first `j` exchanges of uuidToBin's swap loop. */
  function SwapSteps(b: seq<bv8>, j: nat): (r: seq<bv8>)
    requires |b| == BIN_LEN && j <= 4
    ensures |r| == BIN_LEN
  {
    if j == 0 then b else SwapPair(SwapSteps(b, j - 1), 2 * (j - 1), RESTORE[j - 1])
  }

  lemma SwapPair04(x: seq<bv8>)
    requires |x| == BIN_LEN
    ensures SwapPair(x, 0, 4) == [x[4], x[5], x[2], x[3], x[0], x[1], x[6], x[7]] + x[BIN_SUFFIX..]
  {
  }

  lemma SwapPair26(x: seq<bv8>)
    requires |x| == BIN_LEN
    ensures SwapPair(x, 2, 6) == [x[0], x[1], x[6], x[7], x[4], x[5], x[2], x[3]] + x[BIN_SUFFIX..]
  {
  }

  lemma SwapPair42(x: seq<bv8>)
    requires |x| == BIN_LEN
    ensures SwapPair(x, 4, 2) == [x[0], x[1], x[4], x[5], x[2], x[3], x[6], x[7]] + x[BIN_SUFFIX..]
  {
  }

  lemma SwapPair60(x: seq<bv8>)
    requires |x| == BIN_LEN
    ensures SwapPair(x, 6, 0) == [x[6], x[7], x[2], x[3], x[4], x[5], x[0], x[1]] + x[BIN_SUFFIX..]
  {
  }

  /** The four exchanges together put the pairs in the order 1, 0, 3, 2. */
  lemma SwapStepsOrder(b: seq<bv8>)
    requires |b| == BIN_LEN
    ensures SwapSteps(b, 4) == Gather(b, [2, 0, 6, 4])
  {
    var s1 := SwapSteps(b, 1);
    assert SwapSteps(b, 0) == b;
    assert s1 == SwapPair(b, 0, 4);
    SwapPair04(b);
    assert s1 == [b[4], b[5], b[2], b[3], b[0], b[1], b[6], b[7]] + b[BIN_SUFFIX..];
    var s2 := SwapSteps(b, 2);
    assert s2 == SwapPair(s1, 2, 6);
    SwapPair26(s1);
    assert s2 == [b[4], b[5], b[6], b[7], b[0], b[1], b[2], b[3]] + b[BIN_SUFFIX..];
    var s3 := SwapSteps(b, 3);
    assert s3 == SwapPair(s2, 4, 2);
    SwapPair42(s2);
    assert s3 == [b[4], b[5], b[0], b[1], b[6], b[7], b[2], b[3]] + b[BIN_SUFFIX..];
    assert SwapSteps(b, 4) == SwapPair(s3, 6, 0);
    SwapPair60(s3);
  }

  /** Swapping moves only bytes 0..7, in either direction. */
  lemma SwapKeepsSuffix(b: seq<bv8>)
    requires |b| == BIN_LEN
    ensures SwapSteps(b, 4)[BIN_SUFFIX..] == b[BIN_SUFFIX..]
    ensures Gather(b, SWAP)[BIN_SUFFIX..] == b[BIN_SUFFIX..]
  {
    SwapStepsOrder(b);
  }

  /** What uuidToBin(u, swap) returns. */
  function ToBin(u: Uuid, swap: bool): (b: seq<bv8>)
    ensures |b| == BIN_LEN
  {
    if swap then SwapSteps(Bytes(u), 4) else Bytes(u)
  }

  /** What binToUUID(b, swap) returns. */
  function FromBin(b: seq<bv8>, swap: bool): Uuid
    requires |b| == BIN_LEN
  {
    if swap then FromBytes(Gather(b, SWAP)) else FromBytes(b)
  }

  /** With swap, the round trip as written reorders the pairs of the UUID's
    * first half to 2, 3, 1, 0: it is the identity only when pairs 0 and 2
    * are equal and pairs 1 and 3 are equal. */
  lemma SwapRoundTripAsWritten(u: Uuid)
    ensures FromBin(ToBin(u, true), true) == FromBytes(Gather(Bytes(u), RESTORE))
  {
    SwapStepsOrder(Bytes(u));
    var b := Bytes(u);
    assert Gather(Gather(b, [2, 0, 6, 4]), SWAP) == Gather(b, RESTORE);
  }

  /** The input that shows it: most significant bits 0x0001020304050607. */
  lemma SwapRoundTripFails()
    ensures FromBin(ToBin(Uuid(0x0001020304050607, 0), true), true) == Uuid(0x0405060702030001, 0)
  {
    var u := Uuid(0x0001020304050607, 0);
    SwapRoundTripAsWritten(u);
    var b := Bytes(u);
    assert LongBytes(0x0001020304050607) == [0, 1, 2, 3, 4, 5, 6, 7];
    assert Gather(b, RESTORE)[..BIN_SUFFIX] == [4, 5, 6, 7, 2, 3, 0, 1];
    assert BytesLong([4, 5, 6, 7, 2, 3, 0, 1]) == 0x0405060702030001;
  }

  /** uuidToBin(u, swap) corrected: with swap, gather the pairs from RESTORE into a copy. */
  function ToBinCorrected(u: Uuid, swap: bool): (b: seq<bv8>)
    ensures |b| == BIN_LEN
    ensures swap ==> b[BIN_SUFFIX..] == Bytes(u)[BIN_SUFFIX..]
  {
    if swap then Gather(Bytes(u), RESTORE) else Bytes(u)
  }

  /** With the corrected encoder, binToUUID(uuidToBin(u, f), f) == u for both flags. */
  lemma CorrectedRoundTrip(u: Uuid, swap: bool)
    ensures FromBin(ToBinCorrected(u, swap), swap) == u
  {
    var b := Bytes(u);
    assert Gather(Gather(b, RESTORE), SWAP) == b;
    UuidRoundTrip(u);
  }

  /** uuidToBin(UUID, swap): sixteen big-endian bytes, then the in-place exchanges. */
  method UuidToBin(u: Uuid, swap: bool) returns (bin: array<bv8>)
    ensures fresh(bin)
    ensures bin[..] == ToBin(u, swap)
  {
    bin := BigEndianBytes(u);
    if swap {
      SwapInPlace(bin);
    }
  }

  /** uuidToBin(UUID, swap) corrected: with swap, the pairs are gathered from RESTORE into a copy. */
  method UuidToBinCorrected(u: Uuid, swap: bool) returns (bin: array<bv8>)
    ensures fresh(bin)
    ensures bin[..] == ToBinCorrected(u, swap)
  {
    bin := BigEndianBytes(u);
    if swap {
      bin := GatherCopy(bin, RESTORE);
    }
  }

  /** The sixteen byte stores: most significant half first, each big-endian. */
  method BigEndianBytes(u: Uuid) returns (bin: array<bv8>)
    ensures fresh(bin)
    ensures bin[..] == Bytes(u)
  {
    bin := new bv8[BIN_LEN];
    WriteLong(bin, 0, u.mostBits);
    ghost var first := bin[..BIN_SUFFIX];
    WriteLong(bin, BIN_SUFFIX, u.leastBits);
    assert bin[..BIN_SUFFIX] == first == bin[0..0 + 8];
    assert bin[BIN_SUFFIX..] == bin[BIN_SUFFIX..BIN_SUFFIX + 8];
    assert bin[..] == bin[..BIN_SUFFIX] + bin[BIN_SUFFIX..];
    assert bin[..] == Bytes(u);
  }

  /** The eight byte stores of one half: byte k is (byte) ((x >> (56 - 8k)) & 0xFF), as LongBytes lists them. */
  method WriteLong(bin: array<bv8>, off: nat, x: bv64)
    requires off + 8 <= bin.Length
    modifies bin
    ensures bin[off..off + 8] == LongBytes(x)
    ensures forall m :: 0 <= m < bin.Length && !(off <= m < off + 8) ==> bin[m] == old(bin[m])
  {
    var bytes := LongBytes(x);
    for k := 0 to 8
      invariant forall m :: off <= m < off + k ==> bin[m] == bytes[m - off]
      invariant forall m :: 0 <= m < bin.Length && !(off <= m < off + k) ==> bin[m] == old(bin[m])
    {
      bin[off + k] := bytes[k];
    }
    assert bin[off..off + 8] == bytes;
  }

  /** The swap loop of uuidToBin: pair j is exchanged with the pair at RESTORE[j]. */
  method SwapInPlace(bin: array<bv8>)
    requires bin.Length == BIN_LEN
    modifies bin
    ensures bin[..] == SwapSteps(old(bin[..]), 4)
  {
    ghost var original := bin[..];
    var i, j := 0, 0;
    while j < |RESTORE|
      invariant 0 <= j <= 4 && i == 2 * j
      invariant bin[..] == SwapSteps(original, j)
    {
      ghost var before := bin[..];
      var k := RESTORE[j];
      var b := bin[i];
      bin[i] := bin[k];
      bin[k] := b;
      i, k := i + 1, k + 1;
      b := bin[i];
      bin[i] := bin[k];
      bin[k] := b;
      i := i + 1;
      j := j + 1;
      assert bin[..] == SwapPair(before, i - 2, k - 1);
    }
  }

  /** binToUUID(byte[], swap): null or a length other than 16 is rejected; with swap
    * the pairs are gathered into a copy, so the caller's array is not changed. */
  method BinToUuid(uuidBin: array?<bv8>, swap: bool) returns (r: Result<Uuid, UuidError>)
    ensures r.Ok? <==> uuidBin != null && uuidBin.Length == BIN_LEN
    ensures r.Ok? ==> r.value == FromBin(uuidBin[..], swap)
  {
    if !(uuidBin != null && uuidBin.Length == BIN_LEN) {
      return Err(InvalidArgument);
    }
    var bytes := uuidBin[..];
    if swap {
      var copy := GatherCopy(uuidBin, SWAP);
      bytes := copy[..];
    }
    r := Ok(FromBytes(bytes));
  }

  /** The copy binToUUID fills: pair j from table[j], then System.arraycopy of bytes 8..15. */
  method GatherCopy(uuidBin: array<bv8>, table: seq<int>) returns (copy: array<bv8>)
    requires uuidBin.Length == BIN_LEN && PairTable(table)
    ensures fresh(copy)
    ensures copy[..] == Gather(uuidBin[..], table)
  {
    copy := new bv8[BIN_LEN];
    var i, j := 0, 0;
    while j < |table|
      invariant 0 <= j <= 4 && i == 2 * j
      invariant forall m :: 0 <= m < j ==> copy[2 * m] == uuidBin[table[m]] && copy[2 * m + 1] == uuidBin[table[m] + 1]
    {
      var k := table[j];
      copy[i] := uuidBin[k];
      i, k := i + 1, k + 1;
      copy[i] := uuidBin[k];
      i := i + 1;
      j := j + 1;
    }
    ghost var head := copy[..BIN_SUFFIX];
    forall m | BIN_SUFFIX <= m < BIN_LEN {
      copy[m] := uuidBin[m];
    }
    assert copy[..BIN_SUFFIX] == head;
    assert head == [uuidBin[table[0]], uuidBin[table[0] + 1], uuidBin[table[1]], uuidBin[table[1] + 1],
                    uuidBin[table[2]], uuidBin[table[2] + 1], uuidBin[table[3]], uuidBin[table[3] + 1]];
    assert copy[BIN_SUFFIX..] == uuidBin[BIN_SUFFIX..];
    assert copy[..] == copy[..BIN_SUFFIX] + copy[BIN_SUFFIX..];
  }
}
