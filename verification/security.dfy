/** Password records and access tokens of backend/app/security.py. PBKDF2-HMAC-SHA256
    is the parameter `kdf` (password, salt, iterations) and the JWT codec the pair
    `encode`/`decode`; the random salt and the clock are parameters. What is left
    is the record format, its parsing, and the token expiry rule. */
module Security {
  import opened Common
  import opened Text

  const Algorithm: string := "pbkdf2_sha256"
  const Iterations: nat := 600000
  const SaltBytes: nat := 16

  /** The largest iteration count PBKDF2 accepts (C `INT_MAX`). */
  const IntMax: int := 0x7FFF_FFFF
  /** The range of a C `long`, which the iteration argument is converted to first. */
  const LongMin: int := -0x8000_0000_0000_0000
  const LongMax: int := 0x7FFF_FFFF_FFFF_FFFF

  /** `jwt_expire_minutes` = 60 * 24, in seconds. */
  const TokenLifetime: int := 60 * 24 * 60

  type Kdf = (string, seq<byte>, int) -> seq<byte>

  lemma IterationsText()
    ensures NatToString(Iterations) == "600000"
  {
    assert NatToString(6) == "6";
    assert NatToString(60) == "60";
    assert NatToString(600) == "600";
    assert NatToString(6000) == "6000";
    assert NatToString(60000) == "60000";
  }

  // ---------------------------------------------------------------------------
  // Password records

  /** The four fields of a record stored with `n` iterations. */
  function Fields(n: nat, salt: seq<byte>, digest: seq<byte>): seq<string> {
    [Algorithm, NatToString(n), ToHex(salt), ToHex(digest)]
  }

  /** The four fields of a record written by `hash_password`. */
  function RecordFields(salt: seq<byte>, digest: seq<byte>): seq<string> {
    Fields(Iterations, salt, digest)
  }

  /** `hash_password(password)` with `salt` the 16 random bytes drawn: the fields
      joined by `$`, so that splitting on `$` gives back the algorithm name, the
      iteration count "600000", the salt and the digest as hex. */
  function HashPassword(password: string, salt: seq<byte>, kdf: Kdf): (r: string)
    requires |salt| == SaltBytes
    ensures SplitWhere(r, IsDollar) == ["pbkdf2_sha256", "600000", ToHex(salt), ToHex(kdf(password, salt, Iterations))]
  {
    var d := kdf(password, salt, Iterations);
    RecordSplits(Iterations, salt, d);
    IterationsText();
    Join("$", RecordFields(salt, d))
  }

  /** A stored record has four `$`-separated fields: the algorithm, "600000", the
      32 hex digits of the salt and the hex digits of the digest (64 for the
      32-byte SHA-256 output). */
  lemma HashPasswordFormat(password: string, salt: seq<byte>, kdf: Kdf)
    requires |salt| == SaltBytes
    ensures var fields := SplitWhere(HashPassword(password, salt, kdf), IsDollar);
      fields == ["pbkdf2_sha256", "600000", ToHex(salt), ToHex(kdf(password, salt, Iterations))]
      && |fields[2]| == 32
      && (|kdf(password, salt, Iterations)| == 32 ==> |fields[3]| == 64)
  {
  }

  /** The record is the `$`-join of its four fields, none of which holds a `$`. */
  lemma HashSplits(password: string, salt: seq<byte>, kdf: Kdf)
    requires |salt| == SaltBytes
    ensures SplitWhere(HashPassword(password, salt, kdf), IsDollar)
      == RecordFields(salt, kdf(password, salt, Iterations))
  {
    IterationsText();
  }

  /** A record in the stored layout with any iteration count splits back into
      its four fields. */
  lemma RecordSplits(n: nat, salt: seq<byte>, digest: seq<byte>)
    ensures SplitWhere(Join("$", Fields(n, salt, digest)), IsDollar) == Fields(n, salt, digest)
  {
    var parts := Fields(n, salt, digest);
    FieldsNoDollar(n, salt, digest);
    SplitJoin(parts, IsDollar, '$');
  }

  lemma FieldsNoDollar(n: nat, salt: seq<byte>, digest: seq<byte>)
    ensures var parts := Fields(n, salt, digest);
      forall i, k :: 0 <= i < |parts| && 0 <= k < |parts[i]| ==> !IsDollar(parts[i][k])
  {
    var parts := Fields(n, salt, digest);
    ToHexNoDollar(salt);
    ToHexNoDollar(digest);
    forall i, k | 0 <= i < |parts| && 0 <= k < |parts[i]|
      ensures !IsDollar(parts[i][k])
    {
      if i == 1 {
        assert IsDigit(parts[1][k]);
      }
    }
  }

  /** Python `int(s)` on the forms the model admits: surrounding whitespace, an
      optional sign and ASCII digits; `None` where Python raises ValueError. */
  function ParseInt(s: string): (r: Option<int>)
    ensures AllDigits(Strip(s)) && |Strip(s)| > 0 ==> r == Some(DigitsValue(Strip(s)))
    ensures |Strip(s)| > 1 && Strip(s)[0] == '-' && AllDigits(Strip(s)[1..]) ==> r == Some(-(DigitsValue(Strip(s)[1..]) as int))
    ensures |Strip(s)| > 1 && Strip(s)[0] == '+' && AllDigits(Strip(s)[1..]) ==> r == Some(DigitsValue(Strip(s)[1..]))
    ensures |Strip(s)| == 0 ==> r.None?
  {
    var t := Strip(s);
    if |t| > 0 && (t[0] == '-' || t[0] == '+') then
      var digits := t[1..];
      if |digits| > 0 && AllDigits(digits) then
        var v: int := DigitsValue(digits);
        Some(if t[0] == '-' then -v else v)
      else None
    else if |t| > 0 && AllDigits(t) then Some(DigitsValue(t))
    else None
  }

  /** Verification either answers or raises: a malformed iteration count, salt or
      digest is not caught, and neither is an iteration count PBKDF2 rejects: one
      outside a C `long`, one below 1, or one above `IntMax`. */
  datatype Verdict = Answer(ok: bool) | Raises(reason: string)

  /** `verify_password(password, password_hash)`. */
  function VerifyPassword(password: string, stored: string, kdf: Kdf): (r: Verdict)
    ensures |SplitWhere(stored, IsDollar)| != 4 ==> r == Answer(false)
    ensures |SplitWhere(stored, IsDollar)| == 4 && SplitWhere(stored, IsDollar)[0] != Algorithm ==> r == Answer(false)
    ensures r == Answer(true) ==> var fields := SplitWhere(stored, IsDollar);
      ParseInt(fields[1]).Some? && FromHex(fields[2]).Some? && FromHex(fields[3]).Some?
      && 1 <= ParseInt(fields[1]).value <= IntMax
      && kdf(password, FromHex(fields[2]).value, ParseInt(fields[1]).value) == FromHex(fields[3]).value
    ensures |SplitWhere(stored, IsDollar)| == 4 && SplitWhere(stored, IsDollar)[0] == Algorithm ==>
      (var fields := SplitWhere(stored, IsDollar);
       (ParseInt(fields[1]).Some? && FromHex(fields[2]).Some? && FromHex(fields[3]).Some?
        && !(1 <= ParseInt(fields[1]).value <= IntMax)) ==> r.Raises?)
  {
    var fields := SplitWhere(stored, IsDollar);
    if |fields| != 4 then Answer(false)
    else if fields[0] != Algorithm then Answer(false)
    else
      match ParseInt(fields[1])
      case None => Raises("invalid literal for int()")
      case Some(iterations) =>
        match FromHex(fields[2])
        case None => Raises("non-hexadecimal number found in fromhex()")
        case Some(salt) =>
          match FromHex(fields[3])
          case None => Raises("non-hexadecimal number found in fromhex()")
          case Some(expected) => Pbkdf2Check(password, iterations, salt, expected, kdf)
  }

  /** The final step of verification: PBKDF2 converts the iteration count to a C
      `long`, refuses one below 1 or above `IntMax`, and otherwise the digest it
      derives is compared with the stored one. */
  function Pbkdf2Check(password: string, iterations: int, salt: seq<byte>, expected: seq<byte>, kdf: Kdf): (r: Verdict)
    ensures r.Answer? <==> 1 <= iterations <= IntMax
    ensures r.Answer? ==> (r.ok <==> kdf(password, salt, iterations) == expected)
    ensures IntMax < iterations <= LongMax ==> r == Raises("iteration value is too great.")
  {
    if iterations < LongMin || iterations > LongMax then Raises("Python int too large to convert to C long")
    else if iterations < 1 then Raises("iteration value must be greater than 0.")
    else if iterations > IntMax then Raises("iteration value is too great.")
    else Answer(kdf(password, salt, iterations) == expected)
  }

  /** Once the record splits into the algorithm name and three fields that parse,
      verification is the PBKDF2 step on the parsed values. */
  lemma VerifyParsed(password: string, stored: string, kdf: Kdf,
                     iterations: int, salt: seq<byte>, expected: seq<byte>)
    requires |SplitWhere(stored, IsDollar)| == 4 && SplitWhere(stored, IsDollar)[0] == Algorithm
    requires ParseInt(SplitWhere(stored, IsDollar)[1]) == Some(iterations)
    requires FromHex(SplitWhere(stored, IsDollar)[2]) == Some(salt)
    requires FromHex(SplitWhere(stored, IsDollar)[3]) == Some(expected)
    ensures VerifyPassword(password, stored, kdf) == Pbkdf2Check(password, iterations, salt, expected, kdf)
  {}

  /** Checking a password against a freshly hashed record answers whether the two
      passwords give the same digest under that salt; in particular the password
      that was hashed is accepted. */
  lemma VerifyHashed(password: string, candidate: string, salt: seq<byte>, kdf: Kdf)
    requires |salt| == SaltBytes
    ensures VerifyPassword(candidate, HashPassword(password, salt, kdf), kdf)
      == Answer(kdf(candidate, salt, Iterations) == kdf(password, salt, Iterations))
  {
    RecordVerifies(candidate, Iterations, salt, kdf(password, salt, Iterations), kdf);
  }

  /** Verification of a record in the stored layout, whatever its iteration
      count, comes down to the PBKDF2 step on the count, salt and digest it was
      written from. */
  lemma RecordVerifies(password: string, n: nat, salt: seq<byte>, digest: seq<byte>, kdf: Kdf)
    ensures VerifyPassword(password, Join("$", Fields(n, salt, digest)), kdf)
      == Pbkdf2Check(password, n, salt, digest, kdf)
  {
    RecordSplits(n, salt, digest);
    ParseNatToString(n);
    FromHexToHex(salt);
    FromHexToHex(digest);
    VerifyParsed(password, Join("$", Fields(n, salt, digest)), kdf, n, salt, digest);
  }

  /** The decimal text of a count parses back to the count. */
  lemma ParseNatToString(n: nat)
    ensures ParseInt(NatToString(n)) == Some(n)
  {
    StripDigits(NatToString(n));
    DigitsValueOfNatToString(n);
  }

  lemma VerifyRoundTrip(password: string, salt: seq<byte>, kdf: Kdf)
    requires |salt| == SaltBytes
    ensures VerifyPassword(password, HashPassword(password, salt, kdf), kdf) == Answer(true)
  {
    VerifyHashed(password, password, salt, kdf);
  }

  /** A record with the right algorithm and field count but a non-numeric
      iteration field raises instead of answering false. */
  lemma NonNumericIterationsRaise(password: string, stored: string, kdf: Kdf)
    requires |SplitWhere(stored, IsDollar)| == 4 && SplitWhere(stored, IsDollar)[0] == Algorithm
    requires ParseInt(SplitWhere(stored, IsDollar)[1]).None?
    ensures VerifyPassword(password, stored, kdf).Raises?
  {}

  /** A record in the stored layout whose iteration count is above `IntMax` but
      within a C `long` raises instead of answering, as PBKDF2 refuses it; for
      instance "pbkdf2_sha256$2147483648$$". */
  lemma IterationsTooGreatRaise(password: string, n: nat, salt: seq<byte>, digest: seq<byte>, kdf: Kdf)
    requires IntMax < n <= LongMax
    ensures VerifyPassword(password, Join("$", Fields(n, salt, digest)), kdf)
      == Raises("iteration value is too great.")
  {
    RecordVerifies(password, n, salt, digest, kdf);
  }

  // ---------------------------------------------------------------------------
  // Access tokens

  datatype Claims = Claims(sub: Option<string>, exp: int)

  /** `create_access_token(subject)` at time `now` (seconds). */
  function CreateAccessToken(subject: string, now: int, encode: Claims -> string): (r: string)
    ensures exists c :: r == encode(c) && c.sub == Some(subject) && c.exp == now + 24 * 60 * 60
  {
    var c := Claims(Some(subject), now + TokenLifetime);
    encode(c)
  }

  /** `decode_access_token(token)` at time `now`: `decode` is the signature and
      format check; an expired token, a bad one, or a missing or empty subject
      gives `None`. */
  function DecodeAccessToken(token: string, now: int, decode: string -> Option<Claims>): (r: Option<string>)
    ensures r.Some? ==> r.value != "" && decode(token).Some? && decode(token).value.sub == Some(r.value)
    ensures r.Some? ==> now <= decode(token).value.exp
  {
    match decode(token)
    case None => None
    case Some(c) =>
      if c.exp < now then None
      else match c.sub
        case Some(s) => if s != "" then Some(s) else None
        case None => None
  }

  /** With a codec that inverts itself, a token names its subject for the whole
      lifetime and nothing after it. */
  lemma TokenRoundTrip(subject: string, issued: int, now: int,
                       encode: Claims -> string, decode: string -> Option<Claims>)
    requires forall c :: decode(encode(c)) == Some(c)
    ensures DecodeAccessToken(CreateAccessToken(subject, issued, encode), now, decode)
      == if subject != "" && now <= issued + TokenLifetime then Some(subject) else None
  {
    var c := Claims(Some(subject), issued + TokenLifetime);
    assert decode(encode(c)) == Some(c);
  }
}
