/** Conversions between a Java UUID and its two protobuf forms: the pair form
    (message `UuidSimple`, two longs) and the array form (message `Uuid`, 16
    bytes), the nil test, and the hex dump of a byte array.

    Although the Java names say "big endian", the byte loops put the least
    significant byte of each long first, and the least significant long
    first: byte k is byte k of the least significant bits and byte 8 + k is
    byte k of the most significant bits, for k in 0..7. The model follows the
    loops. */
module ProtobufUuid {
  import opened JavaArith
  import opened Protos
  import opened ByteStreams

  /** java.util.UUID: its most and least significant 64 bits. */
  datatype JavaUuid = JavaUuid(mostSigBits: Long, leastSigBits: Long)

  const NilUuid := JavaUuid(0, 0)

  // ---- nil test (both overloads)

  predicate IsNilUuidSimple(u: UuidSimple) {
    u.low == 0 && u.high == 0
  }

  predicate IsNilUuid(u: JavaUuid) {
    u.leastSigBits == 0 && u.mostSigBits == 0
  }

  // ---- pair form

  function JavaUuidToProtobufUuidSimple(u: JavaUuid): (r: UuidSimple)
    ensures r.high == u.mostSigBits && r.low == u.leastSigBits
    ensures IsNilUuidSimple(r) <==> IsNilUuid(u)
  {
    UuidSimple(u.mostSigBits, u.leastSigBits)
  }

  function ProtobufUuidSimpleToJavaUuid(s: UuidSimple): (r: JavaUuid)
    ensures r.mostSigBits == s.high && r.leastSigBits == s.low
    ensures IsNilUuid(r) <==> IsNilUuidSimple(s)
  {
    JavaUuid(s.high, s.low)
  }

  /** The pair form loses nothing, in either direction. */
  lemma PairFormRoundTrip(u: JavaUuid, s: UuidSimple)
    ensures ProtobufUuidSimpleToJavaUuid(JavaUuidToProtobufUuidSimple(u)) == u
    ensures JavaUuidToProtobufUuidSimple(ProtobufUuidSimpleToJavaUuid(s)) == s
  {
  }

  /** The two nil tests agree through the pair form, and nil means the
      all-zero UUID; the default `UuidSimple` instance reads back as nil. */
  lemma NilOverloadsAgree(u: JavaUuid)
    ensures IsNilUuid(u) <==> u == NilUuid
    ensures IsNilUuidSimple(JavaUuidToProtobufUuidSimple(u)) <==> IsNilUuid(u)
    ensures ProtobufUuidSimpleToJavaUuid(DefaultUuidSimple) == NilUuid
  {
  }

  // ---- bytes of a long

  /** `v` after n statements `v >>= 8`: floor(v / 256^n). */
  function Shifted(v: int, n: nat): int {
    if n == 0 then v else Shifted(v, n - 1) / 256
  }

  /** The first n bytes `writeLongBigEndianly` writes for `v`: byte k is the
      low byte of `v` shifted right 8k places. */
  function WrittenBytes(v: int, n: nat): (r: seq<Byte>)
    ensures |r| == n
  {
    if n == 0 then [] else WrittenBytes(v, n - 1) + [Shifted(v, n - 1) % 256]
  }

  /** The eight bytes of `v` as the write loop emits them, least significant
      first. */
  function LongBytes(v: Long): (r: seq<Byte>)
    ensures |r| == 8
  {
    WrittenBytes(v, 8)
  }

  /** The number whose little-endian bytes are `bs`: `bs[k]` weighs 2^(8k). */
  function LittleEndian(bs: seq<Byte>): nat {
    if |bs| == 0 then 0
    else LittleEndian(bs[..|bs| - 1]) + bs[|bs| - 1] * Pow2(8 * (|bs| - 1))
  }

  /** n bytes make a number below 2^(8n). */
  lemma {:induction false} LittleEndianBound(bs: seq<Byte>)
    ensures LittleEndian(bs) < Pow2(8 * |bs|)
  {
    if |bs| > 0 {
      var n := |bs| - 1;
      var p := Pow2(8 * n);
      LittleEndianBound(bs[..n]);
      MulMonotone(bs[n], 255, p);
      Pow2Byte(8 * n);
    }
  }

  /** The long the read loop has accumulated after reading the bytes `bs`
      (at most eight): their little-endian number, which the eighth byte can
      push into the sign bit. */
  function LongFromBytes(bs: seq<Byte>): Long
    requires |bs| <= 8
  {
    LittleEndianBound(bs);
    Pow2Monotone(8 * |bs|, 64);
    Pow2Of56And64();
    Signed(LittleEndian(bs))
  }

  /** `(long) b << k` for a byte b and k at most 56: b * 2^k, which does
      not overflow 64 bits. */
  lemma ShiftLeftByte(b: Byte, k: nat)
    requires k <= 56
    ensures b * Pow2(k) < TwoTo64
    ensures Unsigned(ShiftLeft(b, k)) == b * Pow2(k)
  {
    var w := Pow2(k);
    assert b * w <= 255 * 0x100_0000_0000_0000 by {
      Pow2Monotone(k, 56);
      Pow2Of56And64();
      MulMonotone(b, 255, w);
      MulMonotone(w, 0x100_0000_0000_0000, 255);
    }
    BelowTwoTo64(b * w);
  }

  /** Or-ing a byte in above the bits of `lo` adds it there. */
  lemma OrByteAbove(lo: Long, b: Byte, k: nat)
    requires k <= 56 && 0 <= lo < Pow2(k)
    ensures lo + b * Pow2(k) < TwoTo64
    ensures Or(lo, ShiftLeft(b, k)) == Signed(lo + b * Pow2(k))
  {
    var w := Pow2(k);
    var m := b * w;
    assert lo + m < TwoTo64 by {
      Pow2Byte(k);
      Pow2Monotone(k + 8, 64);
      Pow2Of56And64();
      MulMonotone(b, 255, w);
    }
    ShiftLeftByte(b, k);
    assert OrBits(lo, m) == lo + m by {
      MultipleLowBitsClear(b, k);
      OrDisjoint(lo, m, k);
    }
  }

  /** One round of the read loop: or-ing the next byte in at bit offset 8i
      appends it to the bytes read. */
  lemma ReadStep(p: seq<Byte>, b: Byte)
    requires |p| < 8
    ensures Or(LongFromBytes(p), ShiftLeft(b, 8 * |p|)) == LongFromBytes(p + [b])
  {
    var k := 8 * |p|;
    var lo := LittleEndian(p);
    assert lo < Pow2(k) && lo < TwoTo63 by {
      LittleEndianBound(p);
      Pow2Monotone(k, 56);
      Pow2Of56And64();
    }
    assert LongFromBytes(p) == lo;
    OrByteAbove(lo, b, k);
    assert (p + [b])[..|p|] == p;
  }

  /** What the write loop leaves behind: the bytes written, as a number, plus
      the remaining shifted value in the bits above them, give back `v`. */
  lemma {:induction false} WrittenBytesValue(v: int, n: nat)
    ensures LittleEndian(WrittenBytes(v, n)) + Pow2(8 * n) * Shifted(v, n) == v
  {
    if n > 0 {
      var w := WrittenBytes(v, n);
      var p := Pow2(8 * (n - 1));
      var s := Shifted(v, n - 1);
      assert w[..n - 1] == WrittenBytes(v, n - 1);
      WrittenBytesValue(v, n - 1);
      Pow2Byte(8 * (n - 1));
      Distribute(p, s % 256, Shifted(v, n));
    }
  }

  /** Shifting right arithmetically keeps the sign. */
  lemma {:induction false} ShiftedSign(v: int, n: nat)
    ensures Shifted(v, n) >= 0 <==> v >= 0
  {
    if n > 0 {
      ShiftedSign(v, n - 1);
    }
  }

  /** The eight bytes written for `v` are the 64-bit two's complement pattern
      of `v`, least significant byte first. */
  lemma LongBytesPattern(v: Long)
    ensures LittleEndian(LongBytes(v)) == Unsigned(v)
  {
    WrittenBytesValue(v, 8);
    LittleEndianBound(LongBytes(v));
    Pow2Of56And64();
    ShiftedSign(v, 8);
  }

  /** Reading back the eight bytes of a long gives the long, whatever its sign. */
  lemma LongRoundTrip(v: Long)
    ensures LongFromBytes(LongBytes(v)) == v
  {
    LongBytesPattern(v);
  }

  /** The number whose low bytes are `p` and whose value above them is `q`. */
  function Stacked(p: seq<Byte>, q: int): int {
    LittleEndian(p) + Pow2(8 * |p|) * q
  }

  /** Moving the top byte of `p` into the value above leaves the number as
      it is. */
  lemma StackedSplit(p: seq<Byte>, q: int)
    requires |p| > 0
    ensures Stacked(p, q) == Stacked(p[..|p| - 1], p[|p| - 1] + 256 * q)
  {
    var n := |p| - 1;
    var w := Pow2(8 * n);
    assert LittleEndian(p) == LittleEndian(p[..n]) + p[n] * w;
    assert Pow2(8 * |p|) == 256 * w by {
      Pow2Byte(8 * n);
    }
    Distribute(w, p[n], q);
  }

  /** Shifting a number right by as many bytes as lie below `q`'s position
      leaves `q`. */
  lemma {:induction false} ShiftedPastBytes(p: seq<Byte>, q: int)
    ensures Shifted(Stacked(p, q), |p|) == q
  {
    if |p| > 0 {
      var n := |p| - 1;
      var c := p[n];
      var q' := c + 256 * q;
      StackedSplit(p, q);
      ShiftedPastBytes(p[..n], q');
      assert q' / 256 == q by {
        DivUnique(q', 256, q, c);
      }
    }
  }

  /** Writing a number whose low bytes are `p` emits `p`, whatever lies above. */
  lemma {:induction false} WrittenLowBytes(p: seq<Byte>, q: int)
    ensures WrittenBytes(Stacked(p, q), |p|) == p
  {
    if |p| > 0 {
      var n := |p| - 1;
      var c := p[n];
      var q' := c + 256 * q;
      StackedSplit(p, q);
      WrittenLowBytes(p[..n], q');
      assert Shifted(Stacked(p, q), n) % 256 == c by {
        ShiftedPastBytes(p[..n], q');
        ModUnique(q', c, q);
      }
      assert p == p[..n] + [c];
    }
  }

  /** Writing out the long read from eight bytes gives back those bytes. */
  lemma BytesRoundTrip(bs: seq<Byte>)
    requires |bs| == 8
    ensures LongBytes(LongFromBytes(bs)) == bs
  {
    LittleEndianBound(bs);
    Pow2Of56And64();
    var u := LittleEndian(bs);
    if u < TwoTo63 {
      WrittenLowBytes(bs, 0);
      assert Stacked(bs, 0) == LongFromBytes(bs);
    } else {
      WrittenLowBytes(bs, -1);
      assert Stacked(bs, -1) == LongFromBytes(bs);
    }
  }

  /** A zero byte appended to a short read changes nothing. */
  lemma {:induction false} ZeroPadding(bs: seq<Byte>, k: nat)
    requires |bs| + k <= 8
    ensures LongFromBytes(bs + Zeros(k)) == LongFromBytes(bs)
  {
    if k > 0 {
      ZeroPadding(bs, k - 1);
      var q := bs + Zeros(k);
      assert q[..|q| - 1] == bs + Zeros(k - 1);
      assert q[|q| - 1] == 0;
      assert LittleEndian(q) == LittleEndian(bs + Zeros(k - 1));
    } else {
      assert bs + Zeros(0) == bs;
    }
  }

  /** k zero bytes. */
  function Zeros(k: nat): seq<Byte> {
    seq(k, _ => 0)
  }

  /** Byte k of the first n written is the low byte of `v` shifted right by
      k bytes. */
  lemma {:induction false} WrittenByteAt(v: int, n: nat, k: nat)
    requires k < n
    ensures WrittenBytes(v, n)[k] == Shifted(v, k) % 256
  {
    if k < n - 1 {
      WrittenByteAt(v, n - 1, k);
    }
  }

  /** n steps of `>>= 8` are one arithmetic shift right by 8n bits. */
  lemma {:induction false} ShiftedIsShiftRight(v: int, n: nat)
    ensures Shifted(v, n) == v / Pow2(8 * n)
  {
    if n > 0 {
      ShiftedIsShiftRight(v, n - 1);
      Pow2Byte(8 * (n - 1));
      DivByByte(v, Pow2(8 * (n - 1)), Pow2(8 * n));
    }
  }

  // ---- array form

  /** The first (at most) eight bytes of `bs`. */
  function Take8(bs: seq<Byte>): (r: seq<Byte>)
    ensures |r| <= 8
  {
    if |bs| <= 8 then bs else bs[..8]
  }

  /** `bs` without its first eight bytes. */
  function Drop8(bs: seq<Byte>): seq<Byte> {
    if |bs| <= 8 then [] else bs[8..]
  }

  /** The 16 bytes that `uuidToBigEndianArray` produces: the least significant
      long's bytes, then the most significant long's, each least significant
      byte first. */
  function ArrayForm(u: JavaUuid): (r: seq<Byte>)
    ensures |r| == 16
  {
    LongBytes(u.leastSigBits) + LongBytes(u.mostSigBits)
  }

  /** The UUID that `protobufUuidToJavaUuid` reads from `data`: the least
      significant long from the first eight bytes, the most significant from
      the next eight, a missing byte ending the long early, bytes after the
      16th unread. */
  function FromArrayForm(data: seq<Byte>): JavaUuid {
    JavaUuid(LongFromBytes(Take8(Drop8(data))), LongFromBytes(Take8(data)))
  }

  /** The byte layout of the array form, for k in 0..7: byte k is
      `(lsb >> 8k) & 0xFF` and byte 8 + k is `(msb >> 8k) & 0xFF`, whatever
      the signs of the two longs. */
  lemma ArrayFormLayout(u: JavaUuid, k: nat)
    requires k < 8
    ensures ArrayForm(u)[k] == And(ShiftRight(u.leastSigBits, 8 * k), 0xFF)
    ensures ArrayForm(u)[8 + k] == And(ShiftRight(u.mostSigBits, 8 * k), 0xFF)
  {
    WrittenByteAt(u.leastSigBits, 8, k);
    WrittenByteAt(u.mostSigBits, 8, k);
    ShiftedIsShiftRight(u.leastSigBits, k);
    ShiftedIsShiftRight(u.mostSigBits, k);
    AndLowByte(ShiftRight(u.leastSigBits, 8 * k));
    AndLowByte(ShiftRight(u.mostSigBits, 8 * k));
  }

  /** The first 16 bytes of `data`, with zero bytes added when it is shorter. */
  function Padded16(data: seq<Byte>): (r: seq<Byte>)
    ensures |r| == 16
  {
    if |data| >= 16 then data[..16] else data + Zeros(16 - |data|)
  }

  /** Array-form round trip: decoding the encoding gives back the UUID, for all
      2^128 values, and it agrees with the pair-form round trip. */
  lemma ArrayFormRoundTrip(u: JavaUuid)
    ensures FromArrayForm(ArrayForm(u)) == u
    ensures FromArrayForm(ArrayForm(u)) == ProtobufUuidSimpleToJavaUuid(JavaUuidToProtobufUuidSimple(u))
  {
    var d := ArrayForm(u);
    assert Take8(d) == LongBytes(u.leastSigBits);
    assert Take8(Drop8(d)) == LongBytes(u.mostSigBits);
    LongRoundTrip(u.leastSigBits);
    LongRoundTrip(u.mostSigBits);
  }

  /** The bytes one long is read from, padded with zeros to eight. */
  lemma HalfPadded(half: seq<Byte>, padded: seq<Byte>)
    requires |half| <= 8 && |padded| == 8
    requires padded == half + Zeros(8 - |half|)
    ensures LongFromBytes(half) == LongFromBytes(padded)
    ensures LongBytes(LongFromBytes(half)) == padded
  {
    ZeroPadding(half, 8 - |half|);
    BytesRoundTrip(padded);
  }

  /** Decoding reads `data` as if cut or padded with zeros to 16 bytes, and
      encoding the decoded UUID gives back exactly those 16 bytes. So short
      data is no error, empty data gives the nil UUID, and anything after
      the 16th byte is ignored. */
  lemma DecodeReadsPadded16(data: seq<Byte>)
    ensures FromArrayForm(data) == FromArrayForm(Padded16(data))
    ensures ArrayForm(FromArrayForm(data)) == Padded16(data)
    ensures data == [] ==> FromArrayForm(data) == NilUuid
  {
    var p := Padded16(data);
    var lo, hi := Take8(data), Take8(Drop8(data));
    assert Take8(p) == p[..8] && Take8(Drop8(p)) == p[8..];
    assert p[..8] == lo + Zeros(8 - |lo|);
    assert p[8..] == hi + Zeros(8 - |hi|);
    HalfPadded(lo, p[..8]);
    HalfPadded(hi, p[8..]);
    assert p == p[..8] + p[8..];
    if data == [] {
      assert LongFromBytes([]) == 0;
    }
  }

  /** Any two inputs that agree on their first 16 bytes decode alike. */
  lemma OnlySixteenBytesRead(data: seq<Byte>, extra: seq<Byte>)
    requires |data| >= 16
    ensures FromArrayForm(data + extra) == FromArrayForm(data)
  {
    assert Take8(data + extra) == Take8(data);
    assert Take8(Drop8(data + extra)) == Take8(Drop8(data));
  }

  // ---- the byte loops

  /** `writeLongBigEndianly`: eight times, write `(int) (shift & 0xFF)` and
      do `shift >>= 8`. */
  method WriteLongBigEndianly(value: Long, output: ByteOutput)
    modifies output
    ensures output.bytes == old(output.bytes) + LongBytes(value)
  {
    var shift := value;
    for i := 0 to 8
      invariant output.bytes == old(output.bytes) + WrittenBytes(value, i)
      invariant shift == Shifted(value, i)
    {
      AndLowByte(shift);
      ShiftRightByte(shift);
      output.Write(And(shift, 0xFF));
      shift := ShiftRight(shift, 8);
    }
  }

  /** `readLongBigEndianly`: up to eight times, `n = read()`; at the end of
      the stream return what has been read so far, else
      `shift = shift | (long) n << i * 8`. */
  method ReadLongBigEndianly(input: ByteInput) returns (r: Long)
    requires input.Valid()
    modifies input`pos
    ensures input.Valid()
    ensures r == LongFromBytes(Take8(old(input.Remaining())))
    ensures input.Remaining() == Drop8(old(input.Remaining()))
  {
    ghost var data := input.Remaining();
    var shift: Long := 0;
    assert LongFromBytes(data[..0]) == 0;
    for i := 0 to 8
      invariant i <= |data|
      invariant input.Valid() && input.Remaining() == data[i..]
      invariant shift == LongFromBytes(data[..i])
    {
      var n := input.Read();
      if n < 0 {
        assert data[..i] == data;
        return shift;
      }
      ReadStep(data[..i], n);
      assert data[..i] + [n] == data[..i + 1];
      shift := Or(shift, ShiftLeft(n, i * 8));
    }
    assert Take8(data) == data[..8];
    r := shift;
  }

  /** `uuidToBigEndianArray`: the array form, in a fresh array. */
  method UuidToBigEndianArray(u: JavaUuid) returns (a: array<Byte>)
    ensures a[..] == ArrayForm(u)
  {
    var output := new ByteOutput();
    WriteLongBigEndianly(u.leastSigBits, output);
    WriteLongBigEndianly(u.mostSigBits, output);
    a := output.ToByteArray();
  }

  /** `javaUuidToProtobufUuid`: the array form, copied into the `data` field;
      reading it back gives the UUID. */
  method JavaUuidToProtobufUuid(u: JavaUuid) returns (pb: Uuid)
    ensures pb.data == ArrayForm(u)
    ensures FromArrayForm(pb.data) == u
  {
    var bytes := UuidToBigEndianArray(u);
    pb := Uuid(bytes[..]);
    ArrayFormRoundTrip(u);
  }

  /** `protobufUuidToJavaUuid`: two reads from one stream over `data`. */
  method ProtobufUuidToJavaUuid(pb: Uuid) returns (u: JavaUuid)
    ensures u == FromArrayForm(pb.data)
  {
    var input := new ByteInput(pb.data);
    var low := ReadLongBigEndianly(input);
    var high := ReadLongBigEndianly(input);
    u := JavaUuid(high, low);
  }

  // ---- hex dump

  const HexDigits: string := "0123456789abcdef"

  /** `String.format("%02x", b)`: two lower-case hex digits, high nibble
      first. A negative Java byte prints as its unsigned value, which is the
      value `Byte` holds. */
  function HexByte(b: Byte): (s: string)
    ensures |s| == 2
  {
    [HexDigits[b / 16], HexDigits[b % 16]]
  }

  /** The value of a lower-case hex digit, -1 for any other character. */
  function HexValue(c: char): (v: int)
    ensures -1 <= v < 16
    ensures 0 <= v ==> HexDigits[v] == c
  {
    if '0' <= c <= '9' then c as int - '0' as int
    else if 'a' <= c <= 'f' then c as int - 'a' as int + 10
    else -1
  }

  /** The two digits give back the byte: no two bytes print alike. */
  lemma HexByteInverse(b: Byte)
    ensures 0 <= HexValue(HexByte(b)[0]) && 0 <= HexValue(HexByte(b)[1])
    ensures HexValue(HexByte(b)[0]) * 16 + HexValue(HexByte(b)[1]) == b
  {
    DigitValue(b / 16);
    DigitValue(b % 16);
  }

  lemma DigitValue(d: int)
    requires 0 <= d < 16
    ensures HexValue(HexDigits[d]) == d
  {
  }

  /** The bytes of a non-empty array, printed and joined by ".". */
  function HexJoin(bs: seq<Byte>): string
    requires |bs| > 0
  {
    if |bs| == 1 then HexByte(bs[0])
    else HexJoin(bs[..|bs| - 1]) + "." + HexByte(bs[|bs| - 1])
  }

  /** What `bytesToString` returns for `bs`. */
  function HexDump(bs: seq<Byte>): string {
    if |bs| == 0 then "[empty]" else HexJoin(bs)
  }

  /** The layout of a non-empty dump: byte k at positions 3k and 3k + 1, a
      "." at 3k - 1 between bytes, 3n - 1 characters in all. */
  lemma {:induction false} HexJoinLayout(bs: seq<Byte>)
    requires |bs| > 0
    ensures |HexJoin(bs)| == 3 * |bs| - 1
    ensures forall k :: 0 <= k < |bs| ==> HexJoin(bs)[3 * k..3 * k + 2] == HexByte(bs[k])
    ensures forall k :: 0 < k < |bs| ==> HexJoin(bs)[3 * k - 1] == '.'
  {
    if |bs| > 1 {
      var n := |bs| - 1;
      var front := HexJoin(bs[..n]);
      HexJoinLayout(bs[..n]);
      assert bs == bs[..n] + [bs[n]];
      HexJoinSnoc(bs[..n], bs[n]);
      var dump := HexJoin(bs);
      forall k | 0 <= k < |bs|
        ensures dump[3 * k..3 * k + 2] == HexByte(bs[k])
      {
        if k < n {
          assert dump[3 * k..3 * k + 2] == front[3 * k..3 * k + 2];
        } else {
          assert dump[3 * k..3 * k + 2] == dump[|front| + 1..];
        }
      }
      forall k | 0 < k < |bs|
        ensures dump[3 * k - 1] == '.'
      {
        if k < n {
          assert dump[3 * k - 1] == front[3 * k - 1];
        }
      }
    }
  }

  /** One more byte adds a "." and its two digits to the dump. */
  lemma HexJoinSnoc(front: seq<Byte>, b: Byte)
    requires |front| > 0
    ensures HexJoin(front + [b]) == HexJoin(front) + "." + HexByte(b)
  {
    assert (front + [b])[..|front|] == front;
  }

  /** Different byte arrays print differently, "[empty]" included. */
  lemma HexDumpInjective(a: seq<Byte>, b: seq<Byte>)
    requires HexDump(a) == HexDump(b)
    ensures a == b
  {
    if |a| > 0 {
      HexJoinLayout(a);
    }
    if |b| > 0 {
      HexJoinLayout(b);
    }
    if |a| > 0 && |b| > 0 {
      assert |a| == |b|;
      forall k | 0 <= k < |a|
        ensures a[k] == b[k]
      {
        HexByteInverse(a[k]);
        HexByteInverse(b[k]);
        assert HexByte(a[k]) == HexDump(a)[3 * k..3 * k + 2];
      }
    }
  }

  /** `bytesToString`: "[empty]" for an empty array, else each byte as two
      hex digits, with a "." before every byte but the first. */
  method BytesToString(bytes: array<Byte>) returns (s: string)
    ensures s == HexDump(bytes[..])
  {
    var buf := "";
    if bytes.Length == 0 {
      buf := buf + "[empty]";
    } else {
      for i := 0 to bytes.Length
        invariant buf == if i == 0 then "" else HexJoin(bytes[..i])
      {
        assert bytes[..i + 1] == bytes[..i] + [bytes[i]];
        if i > 0 {
          buf := buf + ".";
          HexJoinSnoc(bytes[..i], bytes[i]);
        }
        buf := buf + HexByte(bytes[i]);
      }
      assert bytes[..bytes.Length] == bytes[..];
    }
    s := buf;
  }
}
