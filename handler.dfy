/** The request handler: every request gets status 200 and, as its whole body, the
    base-10 rendering of one random byte (`random_bytes.to_string()`). The byte is an
    input here; how it is drawn is left out. */
module Handler {
  import opened Address

  predicate IsDigit(c: char)
  {
    '0' <= c <= '9'
  }

  predicate AllDigits(s: string)
  {
    forall i :: 0 <= i < |s| ==> IsDigit(s[i])
  }

  function DigitChar(d: int): (c: char)
    requires 0 <= d < 10
    ensures IsDigit(c) && DigitValue(c) == d
  {
    ('0' as int + d) as char
  }

  function DigitValue(c: char): int
    requires IsDigit(c)
  {
    c as int - '0' as int
  }

  function Pow10(k: nat): (p: nat)
    ensures p >= 1
  {
    if k == 0 then 1 else 10 * Pow10(k - 1)
  }

  /** What Rust's `Display` prints for an unsigned integer: at least one digit, and
      no leading zero unless the whole string is "0". */
  predicate IsCanonicalDecimal(s: string)
  {
    |s| >= 1 && AllDigits(s) && (s[0] == '0' ==> |s| == 1)
  }

  /** The value a string of decimal digits denotes. */
  function DecimalValue(s: string): nat
    requires AllDigits(s)
  {
    if s == [] then 0 else DecimalValue(s[..|s| - 1]) * 10 + DigitValue(s[|s| - 1])
  }

  /** `to_string` on an unsigned integer: canonical, and exactly as long as the value
      needs (below 10^|s|, and not below 10^(|s|-1)). */
  function ToDecimal(n: nat): (s: string)
    ensures IsCanonicalDecimal(s)
    ensures n < Pow10(|s|) && (|s| > 1 ==> Pow10(|s| - 1) <= n)
  {
    if n < 10 then [DigitChar(n)]
    else
      var s := ToDecimal(n / 10) + [DigitChar(n % 10)];
      assert s[..|s| - 1] == ToDecimal(n / 10);
      s
  }

  /** Reading back what `ToDecimal` printed gives the number again. */
  lemma {:induction false} DecimalRoundTrip(n: nat)
    ensures DecimalValue(ToDecimal(n)) == n
  {
    if n >= 10 {
      var s := ToDecimal(n);
      assert s[..|s| - 1] == ToDecimal(n / 10);
      DecimalRoundTrip(n / 10);
    }
  }

  /** A digit string is worth at least its leading digit times its place value. */
  lemma {:induction false} LeadingDigitBound(s: string)
    requires |s| >= 1 && AllDigits(s)
    ensures DecimalValue(s) >= DigitValue(s[0]) * Pow10(|s| - 1)
  {
    if |s| > 1 {
      var p := s[..|s| - 1];
      assert p[0] == s[0];
      LeadingDigitBound(p);
    }
  }

  /** Every canonical decimal string is what `ToDecimal` prints for its value. */
  lemma {:induction false} DecimalRoundTripBack(s: string)
    requires IsCanonicalDecimal(s)
    ensures ToDecimal(DecimalValue(s)) == s
  {
    if |s| > 1 {
      var p := s[..|s| - 1];
      assert p[0] == s[0] && s == p + [s[|s| - 1]];
      LeadingDigitBound(p);
      DecimalRoundTripBack(p);
    }
  }

  /** The body the handler sends for one byte. */
  function ByteToDecimal(b: Byte): (s: string)
    ensures IsCanonicalDecimal(s) && 1 <= |s| <= 3
    ensures DecimalValue(s) == b
  {
    DecimalRoundTrip(b);
    var s := ToDecimal(b);
    assert |s| <= 3 by {
      if |s| > 3 {
        assert Pow10(|s| - 1) >= Pow10(3) by { Pow10Monotone(3, |s| - 1); }
      }
    }
    s
  }

  lemma {:induction false} Pow10Monotone(j: nat, k: nat)
    requires j <= k
    ensures Pow10(j) <= Pow10(k)
  {
    if j < k {
      Pow10Monotone(j, k - 1);
    }
  }

  /** The decimal literals of 0 to 255, one alternative per branch of the
      pattern ^([0-9]|[1-9][0-9]|1[0-9]{2}|2[0-4][0-9]|25[0-5])$. */
  predicate IsByteLiteral(s: string)
  {
    || (|s| == 1 && IsDigit(s[0]))
    || (|s| == 2 && '1' <= s[0] <= '9' && IsDigit(s[1]))
    || (|s| == 3 && s[0] == '1' && IsDigit(s[1]) && IsDigit(s[2]))
    || (|s| == 3 && s[0] == '2' && '0' <= s[1] <= '4' && IsDigit(s[2]))
    || (|s| == 3 && s[0] == '2' && s[1] == '5' && '0' <= s[2] <= '5')
  }

  /** The value of a string of one, two or three digits, written out positionally. */
  lemma ShortDecimalValue(s: string)
    requires 1 <= |s| <= 3 && AllDigits(s)
    ensures |s| == 1 ==> DecimalValue(s) == DigitValue(s[0])
    ensures |s| == 2 ==> DecimalValue(s) == DigitValue(s[0]) * 10 + DigitValue(s[1])
    ensures |s| == 3 ==>
      DecimalValue(s) == DigitValue(s[0]) * 100 + DigitValue(s[1]) * 10 + DigitValue(s[2])
  {
    var p1 := s[..1];
    assert p1[..0] == [] && p1[0] == s[0];
    if |s| >= 2 {
      var p2 := s[..2];
      assert p2[..1] == p1 && p2[1] == s[1];
    }
  }

  /** The pattern accepts exactly the canonical renderings of the values 0 to 255. */
  lemma ByteLiteralIsCanonicalByte(s: string)
    ensures IsByteLiteral(s) <==> IsCanonicalDecimal(s) && DecimalValue(s) < 0x100
  {
    if IsCanonicalDecimal(s) && |s| > 3 {
      LeadingDigitBound(s);
      Pow10Monotone(3, |s| - 1);
      assert DecimalValue(s) >= 1000;
    }
    if 1 <= |s| <= 3 && AllDigits(s) {
      ShortDecimalValue(s);
    }
  }

  /** Every body the handler can send matches the pattern, and every string matching
      the pattern is the body sent for exactly one byte. */
  lemma ByteBodiesAreByteLiterals(b: Byte, s: string)
    ensures IsByteLiteral(ByteToDecimal(b))
    ensures IsByteLiteral(s) ==> DecimalValue(s) < 0x100 && ByteToDecimal(DecimalValue(s)) == s
    ensures IsByteLiteral(s) ==> (ByteToDecimal(b) == s <==> DecimalValue(s) == b)
  {
    ByteLiteralIsCanonicalByte(ByteToDecimal(b));
    ByteLiteralIsCanonicalByte(s);
    if IsByteLiteral(s) {
      DecimalRoundTripBack(s);
    }
  }

  /** An incoming request; the handler only logs it. */
  datatype Request = Request(verb: string, uri: string, headers: seq<(string, string)>, body: string)

  /** `Response::new(Body::from(..))`: status 200 is `Response::new`'s default. */
  datatype Response = Response(status: nat, body: string)

  /** The service function, given the byte `rand::random::<u8>()` drew. */
  function Respond(req: Request, sample: Byte): (resp: Response)
    ensures resp.status == 200
    ensures IsByteLiteral(resp.body) && DecimalValue(resp.body) == sample
  {
    ByteBodiesAreByteLiterals(sample, "");
    Response(200, ByteToDecimal(sample))
  }

  /** Nothing about the request reaches the response. */
  lemma RespondIgnoresRequest(req1: Request, req2: Request, sample: Byte)
    ensures Respond(req1, sample) == Respond(req2, sample)
  {
  }
}
