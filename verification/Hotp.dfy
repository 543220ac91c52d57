/**
 * One-time codes (accounts/totp.ts): the byte loop, bit operations and printing of the program
 * against the arithmetic of RFC 4226.
 */
module Hotp {
  import opened Common
  import opened Bits
  import opened Decimal

  const TOTP_CODE_LENGTH: nat := 6
  const TIME_STEP: int := 30
  const TIME_WINDOW: int := 1
  const DIGEST_LENGTH: nat := 20

  // ---------------------------------------------------------------------------------
  // The counter as a message

  predicate Bytes(s: seq<nat>) {
    forall i :: 0 <= i < |s| ==> s[i] < 256
  }

  /** The last `n` base-256 digits of an integer, the highest first; negative ones in two's complement. */
  function MessageOf(c: int, n: nat): (r: seq<nat>)
    ensures |r| == n && Bytes(r)
    decreases n
  {
    if n == 0 then [] else MessageOf(c / 256, n - 1) + [c % 256]
  }

  function Pow256(n: nat): (r: nat)
    ensures r > 0
  {
    if n == 0 then 1 else 256 * Pow256(n - 1)
  }

  function BigEndian(s: seq<nat>): (r: nat) {
    if s == [] then 0 else 256 * BigEndian(s[..|s| - 1]) + s[|s| - 1]
  }

  lemma {:induction false} MessageValue(c: int, n: nat)
    ensures BigEndian(MessageOf(c, n)) == c % Pow256(n)
    decreases n
  {
    if n > 0 {
      MessageValue(c / 256, n - 1);
      var m := Pow256(n - 1);
      assert MessageOf(c, n)[..n - 1] == MessageOf(c / 256, n - 1);
      ScaledRemainder(c, 256, m);
    }
  }

  /** `counter & 0xff`: the low 32 bits of the counter, masked. */
  function LowByte(c: int): (r: nat) {
    BitAnd(c % 0x1_0000_0000, 0xff)
  }

  lemma LowByteIsRemainder(c: int)
    ensures LowByte(c) == c % 256
  {
    hide BitAnd, Pow2;
    Powers();
    MaskIsRemainder(c % 0x1_0000_0000, 8);
    ScaledRemainder(c, 256, 0x100_0000);
    Remainder(c % 0x1_0000_0000, 256, c / 256 % 0x100_0000, c % 256);
  }

  /** The loop that fills the counter buffer from its end. */
  method CounterBuffer(c: int) returns (buffer: array<nat>)
    ensures fresh(buffer) && buffer.Length == 8
    ensures buffer[..] == MessageOf(c, 8)
  {
    buffer := new nat[8](_ => 0);
    var counter := c;
    var i := 7;
    while i >= 0
      invariant -1 <= i <= 7
      invariant MessageOf(c, 8) == MessageOf(counter, i + 1) + buffer[i + 1..]
    {
      LowByteIsRemainder(counter);
      ghost var rest := buffer[i + 1..];
      buffer[i] := LowByte(counter);
      assert buffer[i..] == [counter % 256] + rest;
      counter := counter / 256;
      i := i - 1;
    }
    assert buffer[0..] == buffer[..];
  }

  // ---------------------------------------------------------------------------------
  // Truncation and printing

  predicate Digest(hash: seq<nat>) {
    |hash| == DIGEST_LENGTH && Bytes(hash)
  }

  /** The offset and the 31-bit value the program takes from a digest. */
  function Offset(hash: seq<nat>): (r: nat)
    requires Digest(hash)
  {
    BitAnd(hash[|hash| - 1], 0x0f)
  }

  lemma OffsetInside(hash: seq<nat>)
    requires Digest(hash)
    ensures Offset(hash) == hash[19] % 16 && Offset(hash) + 3 < |hash|
  {
    MaskIsRemainder(hash[19], 4);
    assert Pow2(4) == 16;
  }

  function Binary(hash: seq<nat>): (r: nat)
    requires Digest(hash)
  {
    OffsetInside(hash);
    var o := Offset(hash);
    BitOr(BitOr(BitOr(ShiftLeft(BitAnd(hash[o], 0x7f), 24), ShiftLeft(BitAnd(hash[o + 1], 0xff), 16)),
                ShiftLeft(BitAnd(hash[o + 2], 0xff), 8)),
          BitAnd(hash[o + 3], 0xff))
  }

  /** Dynamic truncation as section 5.3 of RFC 4226 words it: the last 31 bits of four bytes. */
  function DynamicTruncation(hash: seq<nat>): (r: nat)
    requires Digest(hash)
  {
    var o := hash[19] % 16;
    BigEndian(hash[o..o + 4]) % 0x8000_0000
  }

  lemma FourBytes(a: nat, b: nat, c: nat, d: nat)
    requires a < 256 && b < 256 && c < 256 && d < 256
    ensures BigEndian([a, b, c, d]) == a * 0x100_0000 + b * 0x1_0000 + c * 256 + d
    ensures BigEndian([a, b, c, d]) % 0x8000_0000 == a % 128 * 0x100_0000 + b * 0x1_0000 + c * 256 + d
  {
    assert [a][..0] == [] && BigEndian([a]) == a;
    assert [a, b][..1] == [a] && BigEndian([a, b]) == a * 256 + b;
    assert [a, b, c][..2] == [a, b] && BigEndian([a, b, c]) == a * 0x1_0000 + b * 256 + c;
    assert [a, b, c, d][..3] == [a, b, c];
    assert BigEndian([a, b, c, d]) == a * 0x100_0000 + b * 0x1_0000 + c * 256 + d;
    assert a * 0x100_0000 == (a / 128) * 0x8000_0000 + (a % 128) * 0x100_0000;
    Remainder(BigEndian([a, b, c, d]), 0x8000_0000, a / 128, a % 128 * 0x100_0000 + b * 0x1_0000 + c * 256 + d);
  }

  /** The shifts and ors give the value of the RFC; the shifted bits never overlap. */
  lemma TruncationIsStandard(hash: seq<nat>)
    requires Digest(hash)
    ensures Binary(hash) == DynamicTruncation(hash) && Binary(hash) < 0x8000_0000
  {
    hide BitAnd, BitOr, Pow2, ShiftLeft, BigEndian, Offset;
    OffsetInside(hash);
    Powers();
    var o := Offset(hash);
    var a, b, c, d := hash[o], hash[o + 1], hash[o + 2], hash[o + 3];
    MaskIsRemainder(a, 7);
    MaskIsRemainder(b, 8);
    MaskIsRemainder(c, 8);
    MaskIsRemainder(d, 8);
    OrOfBytes(a % 128, b, c, d);
    FourBytes(a, b, c, d);
    assert hash[o..o + 4] == [a, b, c, d];
  }

  function Zeros(n: nat): (r: string) {
    if n == 0 then "" else "0" + Zeros(n - 1)
  }

  /** `padStart` with zeros. */
  function PadStart(s: string, n: nat): (r: string) {
    if |s| >= n then s else Zeros(n - |s|) + s
  }

  /** The last `k` decimal digits. */
  function FixedDigits(n: nat, k: nat): (r: string)
    ensures |r| == k && AllDigits(r)
  {
    if k == 0 then "" else FixedDigits(n / 10, k - 1) + [Digit(n % 10)]
  }

  function Pow10(k: nat): (r: nat) {
    if k == 0 then 1 else 10 * Pow10(k - 1)
  }

  lemma {:induction false} ZeroDigits(k: nat)
    ensures FixedDigits(0, k) == Zeros(k)
    decreases k
  {
    if k > 0 {
      ZeroDigits(k - 1);
      ZerosSnoc(k - 1);
    }
  }

  lemma {:induction false} ZerosSnoc(k: nat)
    ensures Zeros(k) + "0" == "0" + Zeros(k) && |Zeros(k)| == k
    decreases k
  {
    if k > 0 {
      ZerosSnoc(k - 1);
      assert Zeros(k) + "0" == "0" + (Zeros(k - 1) + "0");
    }
  }

  lemma PaddedDigit(n: nat, k: nat)
    requires n < 10 && k > 0
    ensures PadStart([Digit(n)], k) == FixedDigits(n, k)
  {
    ZeroDigits(k - 1);
    ZerosSnoc(k - 1);
    assert n / 10 == 0 && n % 10 == n;
    if k == 1 {
      assert FixedDigits(0, 0) + [Digit(n)] == [Digit(n)];
    }
  }

  lemma PadSnoc(front: string, d: char, k: nat)
    requires k > 0
    ensures PadStart(front + [d], k) == PadStart(front, k - 1) + [d]
  {
    if |front| < k - 1 {
      var zeros := Zeros(k - 1 - |front|);
      assert zeros + (front + [d]) == (zeros + front) + [d];
    }
  }

  /** Padding a numeral of at most `k` digits gives exactly `k` digits. */
  lemma {:induction false} PaddedIsFixed(n: nat, k: nat)
    requires n < Pow10(k) && k > 0
    ensures PadStart(Numeral(n), k) == FixedDigits(n, k)
    decreases k
  {
    hide PadStart;
    if n < 10 {
      PaddedDigit(n, k);
    } else {
      PaddedIsFixed(n / 10, k - 1);
      PadSnoc(Numeral(n / 10), Digit(n % 10), k);
    }
  }

  /** The digits lose nothing: read back as a numeral they give the number. */
  lemma {:induction false} FixedDigitsValue(n: nat, k: nat)
    requires n < Pow10(k)
    ensures Value(FixedDigits(n, k)) == n
    decreases k
  {
    if k > 0 {
      FixedDigitsValue(n / 10, k - 1);
      assert FixedDigits(n, k)[..k - 1] == FixedDigits(n / 10, k - 1);
    }
  }

  // ---------------------------------------------------------------------------------
  // Codes

  /** HMAC-SHA1 stands for any function from keys and messages to digests. */
  ghost predicate IsHmac(hmac: (seq<nat>, seq<nat>) -> seq<nat>) {
    forall key, message :: Digest(hmac(key, message))
  }

  /** The HOTP value of RFC 4226 for an 8-byte counter, as six digits. */
  function HotpCode(hmac: (seq<nat>, seq<nat>) -> seq<nat>, secret: seq<nat>, c: int): (r: string)
    requires IsHmac(hmac)
  {
    FixedDigits(DynamicTruncation(hmac(secret, MessageOf(c, 8))) % 1_000_000, 6)
  }

  /** The program's code is the standard's, always six digits, and the message encodes the counter. */
  method GenerateHotp(hmac: (seq<nat>, seq<nat>) -> seq<nat>, secret: seq<nat>, counter: int) returns (code: string)
    requires IsHmac(hmac)
    ensures code == HotpCode(hmac, secret, counter)
    ensures |code| == TOTP_CODE_LENGTH && AllDigits(code)
    ensures Value(code) == DynamicTruncation(hmac(secret, MessageOf(counter, 8))) % 1_000_000
    ensures 0 <= counter < Pow256(8) ==> BigEndian(MessageOf(counter, 8)) == counter
  {
    var counterBuffer := CounterBuffer(counter);
    var hash := hmac(secret, counterBuffer[..]);
    var binary := Binary(hash);
    TruncationIsStandard(hash);
    var value := binary % 1_000_000;
    MillionIsPow10();
    PaddedIsFixed(value, 6);
    FixedDigitsValue(value, 6);
    code := PadStart(Numeral(value), TOTP_CODE_LENGTH);
    MessageValue(counter, 8);
    if 0 <= counter < Pow256(8) {
      Remainder(counter, Pow256(8), 0, counter);
    }
  }

  lemma MillionIsPow10()
    ensures Pow10(6) == 1_000_000
  {
    assert Pow10(3) == 1000;
    assert Pow10(6) == 1000 * Pow10(3);
  }

  /** Every safe integer that is not negative is below 2^64, so its message is its encoding. */
  lemma SafeCountersFit(c: nat)
    requires c <= 0x1F_FFFF_FFFF_FFFF
    ensures BigEndian(MessageOf(c, 8)) == c
  {
    MessageValue(c, 8);
    assert Pow256(4) == 0x1_0000_0000 by {
      assert Pow256(2) == 0x1_0000;
    }
    assert Pow256(8) == 0x1_0000_0000 * Pow256(4) by {
      assert Pow256(6) == 0x1_0000 * Pow256(4);
    }
    Remainder(c, Pow256(8), 0, c);
  }

  predicate IsTotpCode(code: string) {
    |code| == TOTP_CODE_LENGTH && AllDigits(code)
  }

  predicate Unused(c: int, lastUsed: Option<int>) {
    lastUsed.None? || c > lastUsed.value
  }

  function CurrentCounter(nowMs: int): (r: int) {
    nowMs / 1000 / TIME_STEP
  }

  /** The first unused counter from `c` to the end of the window whose code is `code`. */
  function FirstMatch(
    hmac: (seq<nat>, seq<nat>) -> seq<nat>, secret: seq<nat>, code: string, lastUsed: Option<int>, c: int, end: int)
    : (r: Option<int>)
    requires IsHmac(hmac)
    decreases end - c
  {
    if c > end then None
    else if Unused(c, lastUsed) && HotpCode(hmac, secret, c) == code then Some(c)
    else FirstMatch(hmac, secret, code, lastUsed, c + 1, end)
  }

  /** A match is unused, lies in the range, has the code, and nothing before it does. */
  lemma {:induction false} FirstMatchIsFirst(
    hmac: (seq<nat>, seq<nat>) -> seq<nat>, secret: seq<nat>, code: string, lastUsed: Option<int>, c: int, end: int)
    requires IsHmac(hmac)
    ensures var r := FirstMatch(hmac, secret, code, lastUsed, c, end);
            && (r.Some? ==> c <= r.value <= end && Unused(r.value, lastUsed) && HotpCode(hmac, secret, r.value) == code)
            && (forall k :: c <= k <= end && (r.Some? ==> k < r.value) ==>
                              !(Unused(k, lastUsed) && HotpCode(hmac, secret, k) == code))
    decreases end - c
  {
    hide HotpCode;
    if c <= end {
      FirstMatchIsFirst(hmac, secret, code, lastUsed, c + 1, end);
    }
  }

  function Verify(
    hmac: (seq<nat>, seq<nat>) -> seq<nat>, secret: seq<nat>, code: string, lastUsed: Option<int>, nowMs: int)
    : (r: Option<int>)
    requires IsHmac(hmac)
  {
    if !IsTotpCode(code) then None
    else
      var current := CurrentCounter(nowMs);
      FirstMatch(hmac, secret, code, lastUsed, current - TIME_WINDOW, current + TIME_WINDOW)
  }

  method VerifyTotpCode(
    hmac: (seq<nat>, seq<nat>) -> seq<nat>, secret: seq<nat>, code: string, lastUsedCounter: Option<int>, nowMs: int)
    returns (r: Option<int>)
    requires IsHmac(hmac)
    ensures r == Verify(hmac, secret, code, lastUsedCounter, nowMs)
  {
    hide HotpCode, MessageOf, Pow256, BigEndian, Value, DynamicTruncation, IsTotpCode;
    if !IsTotpCode(code) {
      return None;
    }
    var currentCounter := nowMs / 1000 / TIME_STEP;
    var i := -TIME_WINDOW;
    while i <= TIME_WINDOW
      invariant -TIME_WINDOW <= i <= TIME_WINDOW + 1
      invariant Verify(hmac, secret, code, lastUsedCounter, nowMs) ==
                FirstMatch(hmac, secret, code, lastUsedCounter, currentCounter + i, currentCounter + TIME_WINDOW)
    {
      var counter := currentCounter + i;
      if lastUsedCounter.None? || counter > lastUsedCounter.value {
        var expectedCode := GenerateHotp(hmac, secret, counter);
        if code == expectedCode {
          return Some(counter);
        }
      }
      i := i + 1;
    }
    r := None;
  }
}
