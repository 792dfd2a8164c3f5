/**
 Time-based one-time passwords: dynamic truncation of a 20-byte MAC to a six-digit code
 (section 5.3 of RFC 4226) and the check of a code against three time steps (section 5.2 of
 RFC 6238). The MAC and the secret's decoding (upper-casing, then base32) are parameters.
 */
module Totp {
  import opened Text

  type Byte = b: int | 0 <= b < 256
  type Mac = m: seq<Byte> | |m| == 20 witness seq(20, i => 0)

  const PERIOD: int := 30
  const DIGITS: nat := 6
  const TWO64: int := 0x1_0000_0000_0000_0000
  const TWO63: int := 0x8000_0000_0000_0000

  // ---- Bits of natural numbers ----

  function Or(a: nat, b: nat): nat
    decreases a + b
  {
    if a + b == 0 then 0 else 2 * Or(a / 2, b / 2) + (if a % 2 == 1 || b % 2 == 1 then 1 else 0)
  }

  function And(a: nat, b: nat): nat
    decreases a
  {
    if a == 0 then 0 else 2 * And(a / 2, b / 2) + (if a % 2 == 1 && b % 2 == 1 then 1 else 0)
  }

  /** A left shift of a 32-bit word. */
  function Shl32(a: nat, k: nat): nat {
    a * Pow(2, k) % 0x1_0000_0000
  }

  lemma {:induction false} OrZero(a: nat)
    ensures Or(a, 0) == a
    decreases a
  {
    if a > 0 { OrZero(a / 2); }
  }

  /** Or with a number below the lowest set bits is addition. */
  lemma {:induction false} OrAdds(a: nat, k: nat, b: nat)
    requires b < Pow(2, k)
    ensures Or(a * Pow(2, k), b) == a * Pow(2, k) + b
  {
    if k == 0 {
      OrZero(a);
    } else {
      var x := a * Pow(2, k - 1);
      OrAdds(a, k - 1, b / 2);
      Doubled(a, k);
      OrStep(x, b);
    }
  }

  lemma Doubled(a: nat, k: nat)
    requires k > 0
    ensures a * Pow(2, k) == 2 * (a * Pow(2, k - 1))
  {
  }

  lemma OrStep(x: nat, b: nat)
    ensures Or(2 * x, b) == 2 * Or(x, b / 2) + b % 2
  {
    if x + b == 0 { assert Or(0, 0) == 0; }
  }

  /** And with k one bits keeps the lowest k bits. */
  lemma {:induction false} AndMasks(a: nat, k: nat)
    ensures And(a, Pow(2, k) - 1) == a % Pow(2, k)
    decreases k
  {
    hide And;
    if k == 0 {
      AndZero(a);
    } else {
      AndMasks(a / 2, k - 1);
      AndMaskStep(a, Pow(2, k - 1));
    }
  }

  lemma AndMaskStep(a: nat, p: nat)
    requires p > 0 && And(a / 2, p - 1) == a / 2 % p
    ensures And(a, 2 * p - 1) == a % (2 * p)
  {
    hide And;
    LowBits(a, p);
    AndStep(a, p - 1);
  }

  lemma AndStep(a: nat, m: nat)
    ensures And(a, 2 * m + 1) == 2 * And(a / 2, m) + a % 2
  {
    assert (2 * m + 1) / 2 == m && (2 * m + 1) % 2 == 1;
    if a == 0 { assert And(0, m) == 0; }
  }

  lemma {:induction false} AndZero(a: nat)
    ensures And(a, 0) == 0
    decreases a
  {
    if a > 0 { AndZero(a / 2); }
  }

  lemma LowBits(a: nat, p: nat)
    requires p > 0
    ensures a % (2 * p) == 2 * (a / 2 % p) + a % 2
  {
    var q, r := a / 2 / p, 2 * (a / 2 % p) + a % 2;
    assert a / 2 == p * q + a / 2 % p;
    assert a == 2 * p * q + r by { assert 2 * (p * q) == 2 * p * q; }
    Remainder(a, 2 * p, q, r);
  }

  lemma Remainder(a: nat, m: nat, q: nat, r: nat)
    requires a == m * q + r && r < m
    ensures a % m == r
  {
    var d := a / m - q;
    assert a == m * (a / m) + a % m;
    assert m * (a / m) - m * q == m * d;
    Multiple(m, d);
  }

  lemma Multiple(m: nat, d: int)
    ensures d >= 1 ==> m * d >= m
    ensures d <= -1 ==> m * d <= 0 - m
  {
    if d >= 1 { assert m * (d - 1) >= 0; }
    if d <= -1 { assert m * (0 - d - 1) >= 0; }
  }

  // ---- Dynamic truncation ----

  function BigEndian(s: seq<Byte>): nat {
    if s == [] then 0 else 256 * BigEndian(s[..|s| - 1]) + s[|s| - 1]
  }

  /** The eight bytes of a 64-bit counter, most significant first. */
  function PutUint64(step: nat): (s: seq<Byte>)
    requires step < TWO64
    ensures |s| == 8
  {
    Bytes(step, 8)
  }

  function Bytes(n: nat, k: nat): (s: seq<Byte>)
    ensures |s| == k
  {
    if k == 0 then [] else Bytes(n / 256, k - 1) + [n % 256]
  }

  lemma {:induction false} BytesReadBack(n: nat, k: nat)
    requires n < Pow(256, k)
    ensures BigEndian(Bytes(n, k)) == n
  {
    if k > 0 {
      BytesReadBack(n / 256, k - 1);
      var s := Bytes(n, k);
      assert s[..|s| - 1] == Bytes(n / 256, k - 1);
    }
  }

  /** The MAC input spells the step: no two steps share one. */
  lemma CounterReadsBack(step: nat)
    requires step < TWO64
    ensures BigEndian(PutUint64(step)) == step
  {
    assert Pow(256, 8) == TWO64 by {
      assert Pow(256, 2) == 0x1_0000;
      assert Pow(256, 4) == 0x1_0000_0000;
      assert Pow(256, 6) == 0x1_0000_0000_0000;
    }
    BytesReadBack(step, 8);
  }

  /** The truncation as the code computes it, with masks, shifts and ors. */
  function Binary32(mac: Mac): nat {
    var offset := And(mac[|mac| - 1], 0x0F);
    assert offset < 16 by { AndMasks(mac[|mac| - 1], 4); MaskValues(); }
    Or(Or(Or(Shl32(And(mac[offset], 0x7F), 24), Shl32(mac[offset + 1], 16)), Shl32(mac[offset + 2], 8)),
       mac[offset + 3])
  }

  lemma MaskValues()
    ensures Pow(2, 4) == 16 && Pow(2, 7) == 128 && Pow(2, 8) == 256
    ensures Pow(2, 16) == 0x1_0000 && Pow(2, 24) == 0x100_0000
  {
    assert Pow(2, 4) == 16;
    assert Pow(2, 8) == 16 * Pow(2, 4);
    assert Pow(2, 12) == 16 * Pow(2, 8);
    assert Pow(2, 16) == 16 * Pow(2, 12);
    assert Pow(2, 20) == 16 * Pow(2, 16);
    assert Pow(2, 24) == 16 * Pow(2, 20);
  }

  lemma ThreeOrs(a: nat, b: nat, c: nat, d: nat)
    requires a < 128 && b < 256 && c < 256 && d < 256
    ensures Or(Or(Or(Shl32(a, 24), Shl32(b, 16)), Shl32(c, 8)), d) == Word(a, b, c, d)
  {
    hide Or, Pow;
    MaskValues();
    OrAdds(a, 24, Shl32(b, 16));
    OrAdds(0x100 * a + b, 16, Shl32(c, 8));
    OrAdds(0x1_0000 * a + 0x100 * b + c, 8, d);
  }

  /** Four bytes as a big-endian number. */
  function Word(a: nat, b: nat, c: nat, d: nat): nat {
    0x100_0000 * a + 0x1_0000 * b + 0x100 * c + d
  }

  /** The truncation is the low 31 bits of the four bytes that the MAC's last nibble points at. */
  lemma TruncationIsBigEndian(mac: Mac)
    ensures
      var offset: nat := mac[19] as nat % 16;
      Binary32(mac) == BigEndian(mac[offset..offset + 4]) % 0x8000_0000
  {
    hide Or, And, Shl32, BigEndian, Word;
    var offset: nat := mac[19] as nat % 16;
    MaskValues();
    AndMasks(mac[19], 4);
    AndMasks(mac[offset], 7);
    ThreeOrs(mac[offset] as nat % 128, mac[offset + 1], mac[offset + 2], mac[offset + 3]);
    FourBytes(mac[offset..offset + 4]);
    TopBit(mac[offset], mac[offset + 1], mac[offset + 2], mac[offset + 3]);
  }

  lemma FourBytes(b: seq<Byte>)
    requires |b| == 4
    ensures BigEndian(b) == Word(b[0], b[1], b[2], b[3])
  {
    assert b[..3][..2] == b[..2] && b[..2][..1] == b[..1] && b[..1][..0] == [];
    assert BigEndian(b[..1]) == b[0] as int;
    assert BigEndian(b[..2]) == 256 * BigEndian(b[..1]) + b[1] as int;
    assert BigEndian(b[..3]) == 256 * BigEndian(b[..2]) + b[2] as int;
  }

  lemma TopBit(a: nat, b: nat, c: nat, d: nat)
    requires a < 256 && b < 256 && c < 256 && d < 256
    ensures Word(a, b, c, d) % 0x8000_0000 == Word(a % 128, b, c, d)
  {
    Remainder(Word(a, b, c, d), 0x8000_0000, a / 128, Word(a % 128, b, c, d));
  }

  // ---- The code ----

  /** A numeral filled up with zeros on the left. */
  function Padded(s: string, width: nat): string {
    if |s| >= width then s else "0" + Padded(s, width - 1)
  }

  function Code(mac: Mac): string {
    Padded(Decimal(Binary32(mac) % Pow(10, DIGITS)), DIGITS)
  }

  lemma {:induction false} ParseZeros(s: string, width: nat)
    requires forall c | c in s :: IsDigit(c)
    ensures forall c | c in Padded(s, width) :: IsDigit(c)
    ensures ParseDecimal(Padded(s, width)) == ParseDecimal(s)
    ensures |Padded(s, width)| == if |s| >= width then |s| else width
  {
    if |s| < width {
      ParseZeros(s, width - 1);
      ParseZero(Padded(s, width - 1));
    }
  }

  lemma {:induction false} ParseZero(s: string)
    requires forall c | c in s :: IsDigit(c)
    ensures ParseDecimal("0" + s) == ParseDecimal(s)
  {
    var z := "0" + s;
    if s == [] {
      assert z[..0] == [] && ParseDecimal(z[..0]) == 0;
    } else {
      ParseZero(s[..|s| - 1]);
      assert z[..|z| - 1] == "0" + s[..|s| - 1];
    }
  }

  /** A code is exactly six digits, and they spell the truncated MAC mod 10^6. */
  lemma CodeIsSixDigits(mac: Mac)
    ensures |Code(mac)| == 6 && forall c | c in Code(mac) :: IsDigit(c)
    ensures ParseDecimal(Code(mac)) == Binary32(mac) % 1_000_000
  {
    hide Binary32;
    assert Pow(10, DIGITS) == 1_000_000 by { PowerValues(); }
    var n := Binary32(mac) % Pow(10, DIGITS);
    DecimalLength(n, DIGITS);
    DecimalRoundTrip(n);
    ParseZeros(Decimal(n), DIGITS);
  }

  type MacOf = (seq<Byte>, seq<Byte>) -> Mac

  /** The code of a secret at a time step. */
  function CodeAt(hmac: MacOf, secret: seq<Byte>, step: nat): string
    requires step < TWO64
  {
    Code(hmac(secret, PutUint64(step)))
  }

  method TotpAt(hmac: MacOf, secret: seq<Byte>, step: nat) returns (code: string)
    requires step < TWO64
    ensures code == CodeAt(hmac, secret, step)
  {
    var hashv := hmac(secret, PutUint64(step));
    var mod := 1;
    for i := 0 to DIGITS
      invariant mod == Pow(10, i)
    {
      mod := mod * 10;
    }
    code := Padded(Decimal(Binary32(hashv) % mod), DIGITS);
  }

  // ---- Verification ----

  datatype Answer = Checked(ok: bool) | BadSecret

  /** Go's division, which truncates toward zero. */
  function Quotient(a: int, b: int): int
    requires b > 0
  {
    if a >= 0 then a / b else -(-a / b)
  }

  /** The step tried for a drift offset: both summands are converted to uint64 and added with wrap-around. */
  function StepAt(now: int, offset: int): (step: nat)
    ensures step < TWO64
  {
    (Quotient(now, PERIOD) % TWO64 + offset % TWO64) % TWO64
  }

  ghost predicate CodeNear(hmac: MacOf, raw: seq<Byte>, code: string, now: int, lo: int, hi: int) {
    exists d | lo <= d < hi :: code == CodeAt(hmac, raw, StepAt(now, d))
  }

  predicate SixDigits(code: string) {
    |code| == DIGITS && forall c | c in code :: IsDigit(c)
  }

  ghost function Verify(hmac: MacOf, decode: string -> Option<seq<Byte>>, secret: string, code: string, now: int)
    : Answer
  {
    var trimmed := TrimSpace(code);
    if !SixDigits(trimmed) then Checked(false)
    else if decode(secret).None? then BadSecret
    else Checked(CodeNear(hmac, decode(secret).value, trimmed, now, -1, 2))
  }

  method VerifyTOTP(hmac: MacOf, decode: string -> Option<seq<Byte>>, secret: string, code: string, now: int)
    returns (r: Answer)
    ensures r == Verify(hmac, decode, secret, code, now)
  {
    hide TrimSpace, StepAt, CodeAt;
    var trimmed := TrimSpace(code);
    if |trimmed| != DIGITS {
      return Checked(false);
    }
    for i := 0 to |trimmed|
      invariant forall c | c in trimmed[..i] :: IsDigit(c)
    {
      if trimmed[i] < '0' || trimmed[i] > '9' {
        assert trimmed[i] in trimmed;
        return Checked(false);
      }
    }
    assert trimmed[..|trimmed|] == trimmed;
    var rawSecret := decode(secret);
    if rawSecret.None? {
      return BadSecret;
    }
    for offset := -1 to 2
      invariant !CodeNear(hmac, rawSecret.value, trimmed, now, -1, offset)
    {
      var expected := TotpAt(hmac, rawSecret.value, StepAt(now, offset));
      if expected == trimmed {
        return Checked(true);
      }
    }
    return Checked(false);
  }

  /**
   From 30 s after the epoch on, the steps tried are the current one and its two neighbours. Up to
   30 s around the epoch the current one is 0, and before that they count down from the top.
   */
  lemma StepsTried(now: int, d: int)
    requires -TWO63 <= now < TWO63 && -1 <= d <= 1
    ensures StepAt(now, d) ==
      if now <= -30 then (TWO64 - -now / 30 + d) % TWO64
      else if now < 30 then (if d == -1 then TWO64 - 1 else d)
      else now / 30 + d
  {
    hide StepAt;
    StepIsWrapped(now, d);
    var q := Quotient(now, 30);
    if now <= -30 {
      WrapTwice(q + d);
    } else if now < 30 {
      assert q == 0;
    } else {
      Wrap(q + d);
    }
  }

  lemma StepIsWrapped(now: int, d: int)
    requires -1 <= d <= 1
    ensures StepAt(now, d) == (Quotient(now, 30) + d) % TWO64
  {
    var q := Quotient(now, 30);
    WrapSum(q, d);
  }

  lemma WrapSum(q: int, d: int)
    requires -1 <= d <= 1
    ensures (q % TWO64 + d % TWO64) % TWO64 == (q + d) % TWO64
  {
    var r := q % TWO64;
    WrapAround(r, d);
    RemainderIs(q + d, q / TWO64 + (r + d) / TWO64, (r + d) % TWO64);
  }

  lemma RemainderIs(x: int, k: int, r: int)
    requires x == TWO64 * k + r && 0 <= r < TWO64
    ensures x % TWO64 == r
  {
  }

  lemma WrapTwice(n: int)
    ensures n % TWO64 == (TWO64 + n) % TWO64
  {
  }

  lemma WrapAround(q: int, d: int)
    requires -1 <= d <= 1
    ensures (q + d % TWO64) % TWO64 == (q + d) % TWO64
  {
    if d == -1 { assert d % TWO64 == d + TWO64; }
  }

  lemma Wrap(n: int)
    requires 0 <= n < TWO64
    ensures n % TWO64 == n
  {
  }

  /**
   A code is accepted exactly when it is, but for white space around it, the code of the current
   30-second step or of a neighbour.
   */
  lemma AcceptedIffInWindow(hmac: MacOf, decode: string -> Option<seq<Byte>>, secret: string, code: string, now: int)
    requires 30 <= now < TWO63
    ensures Verify(hmac, decode, secret, code, now) == Checked(true) <==>
      decode(secret).Some? &&
      exists step: nat | now / 30 - 1 <= step <= now / 30 + 1 :: TrimOf(code, CodeAt(hmac, decode(secret).value, step))
  {
    hide TrimSpace, StepAt, CodeAt, TrimOf;
    if decode(secret).Some? {
      var raw := decode(secret).value;
      forall step: nat | now / 30 - 1 <= step <= now / 30 + 1
        ensures SixDigits(CodeAt(hmac, raw, step)) && step == StepAt(now, step - now / 30)
        ensures TrimOf(code, CodeAt(hmac, raw, step)) <==> TrimSpace(code) == CodeAt(hmac, raw, step)
      {
        CodesAreSixDigits(hmac, raw, step);
        StepsTried(now, step - now / 30);
        TrimSpaceIs(code, CodeAt(hmac, raw, step));
      }
      forall d | -1 <= d < 2 ensures StepAt(now, d) == now / 30 + d { StepsTried(now, d); }
    }
  }

  lemma CodesAreSixDigits(hmac: MacOf, raw: seq<Byte>, step: nat)
    requires step < TWO64
    ensures SixDigits(CodeAt(hmac, raw, step))
  {
    CodeIsSixDigits(hmac(raw, PutUint64(step)));
  }

  /** The secret is complained about exactly when it cannot be decoded and the trimmed code is six digits. */
  lemma BadSecretIff(hmac: MacOf, decode: string -> Option<seq<Byte>>, secret: string, code: string, now: int)
    ensures Verify(hmac, decode, secret, code, now) == BadSecret <==>
      decode(secret).None? &&
      exists core :: TrimOf(code, core) && |core| == 6 && forall c | c in core :: '0' <= c <= '9'
  {
    hide TrimSpace, TrimOf;
    forall core ensures TrimOf(code, core) <==> core == TrimSpace(code) { TrimSpaceIs(code, core); }
  }

  /**
   A code is still accepted, or already accepted, when the two clocks differ by at most one period,
   with any white space around it.
   */
  lemma DriftIsTolerated(hmac: MacOf, decode: string -> Option<seq<Byte>>, secret: string, made: int, now: int,
                         p: string, q: string)
    requires 30 <= now < TWO63 && 0 <= made && -30 <= now - made <= 30
    requires decode(secret).Some? && Blank(p) && Blank(q)
    ensures
      Verify(hmac, decode, secret, p + CodeAt(hmac, decode(secret).value, made / 30) + q, now) == Checked(true)
  {
    hide Verify, Code, TrimSpace;
    var step: nat := made / 30;
    var code := CodeAt(hmac, decode(secret).value, step);
    CodeIsSixDigits(hmac(decode(secret).value, PutUint64(step)));
    DigitsAreNoSpace(code);
    assert TrimOf(p + code + q, code);
    AcceptedIffInWindow(hmac, decode, secret, p + code + q, now);
  }

  lemma DigitsAreNoSpace(code: string)
    requires SixDigits(code)
    ensures !IsSpace(code[0]) && !IsSpace(code[|code| - 1])
  {
    assert code[0] in code && code[|code| - 1] in code;
  }
}
