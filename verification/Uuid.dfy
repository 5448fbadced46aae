/** The process-monotonic UUIDv7 generator (section 5.7 of RFC 9562). */
module Uuid {
  import opened Wrappers

  const SEQUENCE_VALUES: nat := 4096
  const TIMESTAMP_LIMIT: nat := 0x1_0000_0000_0000

  type Byte = b: nat | b < 256
  type Twelve = n: nat | n < SEQUENCE_VALUES

  /** One call: the clock reading, the two fresh random bytes as a number, and sixteen random bytes. */
  datatype Call = Call(now: int, draw: nat, random: seq<Byte>)

  datatype Clock = Clock(lastTimestamp: nat, sequence: Twelve)

  function Max(a: int, b: int): int { if a < b then b else a }

  /** The module state after a call, whether or not the timestamp still fits. */
  function Tick(c: Clock, call: Call): Clock {
    var timestamp := Max(call.now, c.lastTimestamp);
    if timestamp == c.lastTimestamp then
      var next := (c.sequence + 1) % SEQUENCE_VALUES;
      Clock(if next == 0 then timestamp + 1 else timestamp, next)
    else Clock(timestamp, call.draw % SEQUENCE_VALUES)
  }

  /** The `k` low bytes of `t`, most significant first. */
  function BigEndian(t: nat, k: nat): (p: seq<Byte>)
    ensures |p| == k
  {
    if k == 0 then [] else BigEndian(t / 256, k - 1) + [t % 256]
  }

  /** The sixteen bytes written for a clock state. */
  function Layout(c: Clock, random: seq<Byte>): (r: seq<Byte>)
    requires |random| == 16
  {
    BigEndian(c.lastTimestamp, 6) + [0x70 + c.sequence / 256, c.sequence % 256, 0x80 + random[8] % 64] + random[9..]
  }

  function HexDigit(n: nat): char
    requires n < 16
  {
    "0123456789abcdef"[n]
  }

  /** Two lower-case digits a byte. */
  function Hex(bytes: seq<Byte>): (r: string)
    ensures |r| == 2 * |bytes|
  {
    if bytes == [] then []
    else
      var last := bytes[|bytes| - 1];
      Hex(bytes[..|bytes| - 1]) + [HexDigit(last / 16), HexDigit(last % 16)]
  }

  /** The 8-4-4-4-12 form. */
  function Text(bytes: seq<Byte>): string
    requires |bytes| == 16
  {
    var hex := Hex(bytes);
    hex[..8] + "-" + hex[8..12] + "-" + hex[12..16] + "-" + hex[16..20] + "-" + hex[20..]
  }

  class Generator {
    var lastTimestamp: nat
    var sequence: Twelve

    function State(): Clock
      reads this
    {
      Clock(lastTimestamp, sequence)
    }

    constructor ()
      ensures State() == Clock(0, 0)
    {
      lastTimestamp, sequence := 0, 0;
    }

    /** Fails, after moving the state, once the timestamp no longer fits six bytes. */
    method Next(now: int, draw: nat, random: array<Byte>) returns (id: Option<string>)
      requires random.Length == 16
      modifies this, random
      ensures State() == Tick(old(State()), Call(now, draw, old(random[..])))
      ensures id.None? <==> lastTimestamp >= TIMESTAMP_LIMIT
      ensures id.Some? ==> id.value == Text(Layout(State(), old(random[..])))
    {
      var timestamp := Max(now, lastTimestamp);
      if timestamp == lastTimestamp {
        sequence := (sequence + 1) % SEQUENCE_VALUES;
        if sequence == 0 { timestamp := timestamp + 1; }
      } else {
        sequence := draw % SEQUENCE_VALUES;
      }
      lastTimestamp := timestamp;
      if timestamp >= TIMESTAMP_LIMIT {
        return None;
      }
      WriteBytes(random, timestamp, sequence);
      return Some(Text(random[..]));
    }
  }

  /** Writes timestamp, version, sequence and variant over the random bytes. */
  method WriteBytes(bytes: array<Byte>, timestamp: nat, sequence: Twelve)
    requires bytes.Length == 16
    modifies bytes
    ensures bytes[..] == Layout(Clock(timestamp, sequence), old(bytes[..]))
  {
    WriteTimestamp(bytes, timestamp);
    bytes[6] := 0x70 + sequence / 256;
    bytes[7] := sequence % 256;
    bytes[8] := 0x80 + bytes[8] % 64;
  }

  /** Last byte first, each the remainder by 256 of what is left. */
  method WriteTimestamp(bytes: array<Byte>, timestamp: nat)
    requires bytes.Length == 16
    modifies bytes
    ensures bytes[..] == BigEndian(timestamp, 6) + old(bytes[6..])
  {
    var rest, k := timestamp, 6;
    assert bytes[6..6] == [];
    while k > 0
      invariant 0 <= k <= 6
      invariant BigEndian(timestamp, 6) == BigEndian(rest, k) + bytes[k..6]
      invariant bytes[6..] == old(bytes[6..])
    {
      k := k - 1;
      bytes[k] := rest % 256;
      assert bytes[k..6] == [rest % 256] + bytes[k + 1..6];
      rest := rest / 256;
    }
    assert bytes[..] == bytes[0..6] + bytes[6..];
  }

  predicate LexLt(a: seq<Byte>, b: seq<Byte>)
    requires |a| == |b|
  {
    a != [] && (a[0] < b[0] || (a[0] == b[0] && LexLt(a[1..], b[1..])))
  }

  lemma {:induction false} LexLtAt(a: seq<Byte>, b: seq<Byte>, k: nat)
    requires |a| == |b| && k < |a| && a[..k] == b[..k] && a[k] < b[k]
    ensures LexLt(a, b)
  {
    if k > 0 {
      assert a[0] == a[..k][0] == b[..k][0] == b[0];
      assert a[1..][..k - 1] == a[..k][1..] == b[..k][1..] == b[1..][..k - 1];
      LexLtAt(a[1..], b[1..], k - 1);
    }
  }

  lemma {:induction false} LexLtExtends(a: seq<Byte>, b: seq<Byte>, x: seq<Byte>, y: seq<Byte>)
    requires |a| == |b| && |x| == |y| && LexLt(a, b)
    ensures LexLt(a + x, b + y)
  {
    assert (a + x)[1..] == a[1..] + x && (b + y)[1..] == b[1..] + y;
    if a[0] == b[0] { LexLtExtends(a[1..], b[1..], x, y); }
  }

  function Power256(k: nat): nat {
    if k == 0 then 1 else 256 * Power256(k - 1)
  }

  /** Big-endian bytes order as the numbers do. */
  lemma {:induction false} BigEndianOrder(m: nat, n: nat, k: nat)
    requires m < n < Power256(k)
    ensures LexLt(BigEndian(m, k), BigEndian(n, k))
  {
    if m / 256 < n / 256 {
      BigEndianOrder(m / 256, n / 256, k - 1);
      LexLtExtends(BigEndian(m / 256, k - 1), BigEndian(n / 256, k - 1), [m % 256], [n % 256]);
    } else {
      assert m / 256 == n / 256;
      LexLtAt(BigEndian(m, k), BigEndian(n, k), k - 1);
    }
  }

  function Number(bytes: seq<Byte>): nat {
    if bytes == [] then 0 else 256 * Number(bytes[..|bytes| - 1]) + bytes[|bytes| - 1]
  }

  lemma {:induction false} NumberOfBigEndian(t: nat, k: nat)
    requires t < Power256(k)
    ensures Number(BigEndian(t, k)) == t
  {
    if k > 0 {
      NumberOfBigEndian(t / 256, k - 1);
      assert BigEndian(t, k)[..k - 1] == BigEndian(t / 256, k - 1);
    }
  }

  lemma LimitIsPower()
    ensures Power256(6) == TIMESTAMP_LIMIT
  {
    assert Power256(2) == 0x1_0000;
    assert Power256(4) == 0x1_0000_0000;
  }

  predicate Before(a: Clock, b: Clock) {
    a.lastTimestamp < b.lastTimestamp || (a.lastTimestamp == b.lastTimestamp && a.sequence < b.sequence)
  }

  /** Later states lay out as greater byte strings, whatever the random bits. */
  lemma LayoutOrder(a: Clock, b: Clock, x: seq<Byte>, y: seq<Byte>)
    requires |x| == |y| == 16 && Before(a, b) && b.lastTimestamp < TIMESTAMP_LIMIT
    ensures LexLt(Layout(a, x), Layout(b, y))
  {
    var p, q := Layout(a, x), Layout(b, y);
    if a.lastTimestamp < b.lastTimestamp {
      LimitIsPower();
      BigEndianOrder(a.lastTimestamp, b.lastTimestamp, 6);
      LexLtExtends(BigEndian(a.lastTimestamp, 6), BigEndian(b.lastTimestamp, 6), p[6..], q[6..]);
      assert p == BigEndian(a.lastTimestamp, 6) + p[6..] && q == BigEndian(b.lastTimestamp, 6) + q[6..];
    } else {
      assert p[..6] == BigEndian(a.lastTimestamp, 6) == q[..6];
      assert p[6] <= q[6];
      if p[6] < q[6] {
        LexLtAt(p, q, 6);
      } else {
        assert p[..7] == p[..6] + [p[6]] == q[..7];
        LexLtAt(p, q, 7);
      }
    }
  }

  /** Version 7, variant 10, and the full timestamp and sequence, readable from the bytes. */
  lemma LayoutFields(c: Clock, random: seq<Byte>)
    requires |random| == 16
    ensures var u: seq<nat> := Layout(c, random);
            |u| == 16 && u[6] / 16 == 7 && u[8] / 64 == 2 && u[6] % 16 * 256 + u[7] == c.sequence
    ensures c.lastTimestamp < TIMESTAMP_LIMIT ==> Number(Layout(c, random)[..6]) == c.lastTimestamp
  {
    LimitIsPower();
    if c.lastTimestamp < TIMESTAMP_LIMIT {
      NumberOfBigEndian(c.lastTimestamp, 6);
      assert Layout(c, random)[..6] == BigEndian(c.lastTimestamp, 6);
    }
  }

  /** The 62 bits that remain are those drawn. */
  lemma LayoutDraws(c: Clock, random: seq<Byte>)
    requires |random| == 16
    ensures Layout(c, random)[8] % 64 == random[8] % 64 && Layout(c, random)[9..] == random[9..]
  {
  }

  /**
   * A call after the clock advanced takes the reading and a drawn sequence; any other counts timestamp and sequence
   * up by one, as one number.
   */
  lemma TickCounts(c: Clock, call: Call)
    ensures var t := Tick(c, call);
            if call.now > c.lastTimestamp then t.lastTimestamp == call.now && t.sequence == call.draw % 4096
            else t.lastTimestamp * 4096 + t.sequence == c.lastTimestamp * 4096 + c.sequence + 1
  {
  }

  function DigitValue(c: char): nat {
    if '0' <= c <= '9' then (c - '0') as nat else if 'a' <= c <= 'f' then (c - 'a') as nat + 10 else 0
  }

  /** Where the digits of byte `k` stand in the text. */
  function DigitsAt(k: nat): nat {
    2 * k + if k < 4 then 0 else if k < 6 then 1 else if k < 8 then 2 else if k < 10 then 3 else 4
  }

  lemma DigitReadsBack(n: nat)
    requires n < 16
    ensures DigitValue(HexDigit(n)) == n
  {
  }

  lemma TextAt(bytes: seq<Byte>, k: nat)
    requires |bytes| == 16 && k < 16
    ensures |Text(bytes)| == 36
    ensures Text(bytes)[DigitsAt(k)] == Hex(bytes)[2 * k] && Text(bytes)[DigitsAt(k) + 1] == Hex(bytes)[2 * k + 1]
  {
  }

  /** The text has 36 characters, four of them dashes, and the others are the bytes, read back digit by digit. */
  lemma TextReadsBack(bytes: seq<Byte>, k: nat)
    requires |bytes| == 16 && k < 16
    ensures var t := Text(bytes);
            && |t| == 36 && t[8] == t[13] == t[18] == t[23] == '-'
            && DigitValue(t[DigitsAt(k)]) * 16 + DigitValue(t[DigitsAt(k) + 1]) == bytes[k]
  {
    TextAt(bytes, k);
    HexAt(bytes, k);
    DigitReadsBack(bytes[k] / 16);
    DigitReadsBack(bytes[k] % 16);
  }

  /** The state after `n` calls of a process. */
  function After(calls: seq<Call>, n: nat): Clock
    requires n <= |calls|
  {
    if n == 0 then Clock(0, 0) else Tick(After(calls, n - 1), calls[n - 1])
  }

  lemma {:induction false} StatesIncrease(calls: seq<Call>, i: nat, j: nat)
    requires i < j <= |calls|
    ensures Before(After(calls, i), After(calls, j))
  {
    if i < j - 1 { StatesIncrease(calls, i, j - 1); }
  }

  /** The order of strings as a database or a client compares them, by the first character that differs. */
  ghost predicate TextLt(a: string, b: string) {
    exists k :: DiffersAt(a, b, k)
  }

  ghost predicate DiffersAt(a: string, b: string, k: nat) {
    k < |a| && k < |b| && a[..k] == b[..k] && a[k] < b[k]
  }

  lemma {:induction false} FirstDifference(a: seq<Byte>, b: seq<Byte>) returns (k: nat)
    requires |a| == |b| && LexLt(a, b)
    ensures k < |a| && a[..k] == b[..k] && a[k] < b[k]
  {
    k := 0;
    if a[0] == b[0] {
      k := FirstDifference(a[1..], b[1..]);
      assert a[..k + 1] == [a[0]] + a[1..][..k] && b[..k + 1] == [b[0]] + b[1..][..k];
      k := k + 1;
    }
  }

  lemma DigitsOrdered(m: nat, n: nat)
    requires m < n < 16
    ensures HexDigit(m) < HexDigit(n)
  {
  }

  lemma {:induction false} HexPrefix(bytes: seq<Byte>, k: nat)
    requires k <= |bytes|
    ensures Hex(bytes)[..2 * k] == Hex(bytes[..k])
    decreases |bytes|
  {
    if k == |bytes| {
      assert bytes[..k] == bytes;
    } else {
      HexPrefix(bytes[..|bytes| - 1], k);
      assert bytes[..|bytes| - 1][..k] == bytes[..k];
    }
  }

  lemma {:induction false} HexAt(bytes: seq<Byte>, k: nat)
    requires k < |bytes|
    ensures Hex(bytes)[2 * k] == HexDigit(bytes[k] / 16) && Hex(bytes)[2 * k + 1] == HexDigit(bytes[k] % 16)
    decreases |bytes|
  {
    if k < |bytes| - 1 { HexAt(bytes[..|bytes| - 1], k); }
  }

  lemma PairOrder(s: string, t: string, i: nat)
    requires |s| == |t| && i + 1 < |s| && s[..i] == t[..i]
    requires s[i] < t[i] || (s[i] == t[i] && s[i + 1] < t[i + 1])
    ensures TextLt(s, t)
  {
    if s[i] < t[i] {
      assert DiffersAt(s, t, i);
    } else {
      assert s[..i + 1] == s[..i] + [s[i]] && t[..i + 1] == t[..i] + [t[i]];
      assert DiffersAt(s, t, i + 1);
    }
  }

  lemma DigitsOfByte(m: Byte, n: Byte)
    requires m < n
    ensures HexDigit(m / 16) < HexDigit(n / 16)
      || (HexDigit(m / 16) == HexDigit(n / 16) && HexDigit(m % 16) < HexDigit(n % 16))
  {
    if m / 16 < n / 16 { DigitsOrdered(m / 16, n / 16); } else { DigitsOrdered(m % 16, n % 16); }
  }

  lemma HexOrderAt(a: seq<Byte>, b: seq<Byte>, k: nat)
    requires |a| == |b| && k < |a| && a[..k] == b[..k] && a[k] < b[k]
    ensures TextLt(Hex(a), Hex(b))
  {
    HexPrefix(a, k);
    HexPrefix(b, k);
    HexAt(a, k);
    HexAt(b, k);
    DigitsOfByte(a[k], b[k]);
    PairOrder(Hex(a), Hex(b), 2 * k);
  }

  lemma HexOrder(a: seq<Byte>, b: seq<Byte>)
    requires |a| == |b| && LexLt(a, b)
    ensures TextLt(Hex(a), Hex(b))
  {
    var k := FirstDifference(a, b);
    HexOrderAt(a, b, k);
  }

  function Dashed(s: string, cut: nat): string
    requires cut <= |s|
  {
    s[..cut] + "-" + s[cut..]
  }

  lemma DashKeepsOrder(a: string, b: string, cut: nat)
    requires |a| == |b| && cut <= |a| && TextLt(a, b)
    ensures TextLt(Dashed(a, cut), Dashed(b, cut))
  {
    var i: nat :| DiffersAt(a, b, i);
    var s, t := Dashed(a, cut), Dashed(b, cut);
    if i < cut {
      assert s[..i] == a[..i] && t[..i] == b[..i];
      assert DiffersAt(s, t, i);
    } else {
      assert s[..i + 1] == a[..i][..cut] + "-" + a[..i][cut..] && t[..i + 1] == b[..i][..cut] + "-" + b[..i][cut..];
      assert DiffersAt(s, t, i + 1);
    }
  }

  lemma TextIsDashed(bytes: seq<Byte>)
    requires |bytes| == 16
    ensures Text(bytes) == Dashed(Dashed(Dashed(Dashed(Hex(bytes), 20), 16), 12), 8)
  {
    var hex := Hex(bytes);
    var d := Dashed(hex, 20);
    assert d[..16] == hex[..16] && d[16..] == hex[16..20] + "-" + hex[20..];
    var e := Dashed(d, 16);
    assert e[..12] == hex[..12] && e[12..] == hex[12..16] + "-" + d[16..];
    var f := Dashed(e, 12);
    assert f[..8] == hex[..8] && f[8..] == hex[8..12] + "-" + e[12..];
  }

  /** Identifiers are ordered as text as their bytes are. */
  lemma TextOrder(a: seq<Byte>, b: seq<Byte>)
    requires |a| == |b| == 16 && LexLt(a, b)
    ensures TextLt(Text(a), Text(b))
  {
    HexOrder(a, b);
    DashKeepsOrder(Hex(a), Hex(b), 20);
    DashKeepsOrder(Dashed(Hex(a), 20), Dashed(Hex(b), 20), 16);
    DashKeepsOrder(Dashed(Dashed(Hex(a), 20), 16), Dashed(Dashed(Hex(b), 20), 16), 12);
    DashKeepsOrder(Dashed(Dashed(Dashed(Hex(a), 20), 16), 12), Dashed(Dashed(Dashed(Hex(b), 20), 16), 12), 8);
    TextIsDashed(a);
    TextIsDashed(b);
  }

  /** The identifier that call `n` returns. */
  function Identifier(calls: seq<Call>, n: nat): string
    requires 0 < n <= |calls| && |calls[n - 1].random| == 16
  {
    Text(Layout(After(calls, n), calls[n - 1].random))
  }

  /** Any two calls, under any clock readings: the later identifier is greater, as bytes and as text. */
  lemma IdentifiersIncrease(calls: seq<Call>, i: nat, j: nat)
    requires 0 < i < j <= |calls| && After(calls, j).lastTimestamp < TIMESTAMP_LIMIT
    requires |calls[i - 1].random| == 16 && |calls[j - 1].random| == 16
    ensures LexLt(Layout(After(calls, i), calls[i - 1].random), Layout(After(calls, j), calls[j - 1].random))
    ensures TextLt(Identifier(calls, i), Identifier(calls, j))
  {
    StatesIncrease(calls, i, j);
    LayoutOrder(After(calls, i), After(calls, j), calls[i - 1].random, calls[j - 1].random);
    TextOrder(Layout(After(calls, i), calls[i - 1].random), Layout(After(calls, j), calls[j - 1].random));
  }

  function GreatestReading(calls: seq<Call>, n: nat): nat
    requires n <= |calls|
  {
    if n == 0 then 0 else Max(GreatestReading(calls, n - 1), calls[n - 1].now)
  }

  /** The embedded time never falls behind the clock and runs ahead one tick per 4096 calls. */
  lemma {:induction false} DriftBound(calls: seq<Call>, n: nat)
    requires n <= |calls|
    ensures var drift := After(calls, n).lastTimestamp - GreatestReading(calls, n);
            && 0 <= drift
            && SEQUENCE_VALUES * drift + After(calls, n).sequence <= n + SEQUENCE_VALUES - 1
  {
    if n > 0 { DriftBound(calls, n - 1); }
  }
}
