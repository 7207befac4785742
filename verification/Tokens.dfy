/** Stateless login tokens: aat_<id>_<issued at>_<signature>. The signature is any
    function whose results contain no underscore, as hexadecimal text does not. */
module Tokens {
  import opened Wrappers
  import opened Text
  import opened Address

  const TWO_TO_THE_63 := 0x8000_0000_0000_0000

  predicate Int64(n: int) {
    -TWO_TO_THE_63 <= n < TWO_TO_THE_63
  }

  /** Two's complement result of 64-bit arithmetic. */
  function Wrap64(n: int): (r: int)
    ensures Int64(r)
    ensures Int64(n) ==> r == n
  {
    (n + TWO_TO_THE_63) % (2 * TWO_TO_THE_63) - TWO_TO_THE_63
  }

  function FormatInt(n: int): string {
    if n < 0 then "-" + Decimal(-n) else Decimal(n)
  }

  predicate Signed(s: string) {
    s != "" && (s[0] == '-' || s[0] == '+')
  }

  /** A decimal integer with an optional sign, in the range of 64 bits. */
  function ParseInt(s: string): (r: Option<int>)
    ensures r.Some? ==> Int64(r.value)
  {
    var digits := if Signed(s) then s[1..] else s;
    if digits == "" || !AllDigits(digits) then None
    else
      var magnitude: int := Numeral(digits);
      var n := if s[0] == '-' then -magnitude else magnitude;
      if Int64(n) then Some(n) else None
  }

  function CutLast(s: string): Option<(string, string)> {
    var at := LastIndex(s, '_');
    if at < 0 then None else Some((s[..at], s[at + 1..]))
  }

  function Prefix(): string {
    "aat_"
  }

  function CutPrefix(s: string): Option<string> {
    if Prefix() <= s then Some(s[|Prefix()|..]) else None
  }

  function Payload(id: string, issuedAt: string): string {
    Prefix() + id + "_" + issuedAt
  }

  function Issue(id: string, now: int, sign: string -> string): string {
    var payload := Payload(id, FormatInt(now));
    payload + "_" + sign(payload)
  }

  function Verify(token: string, sign: string -> string, now: int, validSecs: int): Option<string> {
    match CutLast(token)
    case None => None
    case Some((payload, signature)) =>
      match CutLast(payload)
      case None => None
      case Some((rest, raw)) =>
        match CutPrefix(rest)
        case None => None
        case Some(id) =>
          if !IdPattern(id) then None
          else
            match ParseInt(raw)
            case None => None
            case Some(issuedAt) =>
              if signature != sign(payload) then None
              else if !Fresh(issuedAt, now, validSecs) then None
              else Some(id)
  }

  predicate Fresh(issuedAt: int, now: int, validSecs: int) {
    0 <= Wrap64(now - issuedAt) < validSecs
  }

  // ---- printing and parsing

  lemma ParseFormatted(n: int)
    requires Int64(n)
    ensures ParseInt(FormatInt(n)) == Some(n)
    ensures '_' !in FormatInt(n)
  {
    var magnitude := if n < 0 then -n else n;
    var digits := Decimal(magnitude);
    NumeralOfDecimal(magnitude);
    ParseDigits(digits, magnitude);
    forall i | 0 <= i < |digits| ensures digits[i] != '_' {
      assert IsDigit(digits[i]);
    }
  }

  lemma ParseDigits(digits: string, magnitude: int)
    requires digits != "" && AllDigits(digits) && Numeral(digits) == magnitude
    ensures ParseInt(digits) == if Int64(magnitude) then Some(magnitude) else None
    ensures ParseInt("-" + digits) == if Int64(-magnitude) then Some(-magnitude) else None
  {
    assert IsDigit(digits[0]);
    assert ("-" + digits)[1..] == digits;
  }

  lemma CutJoined(before: string, after: string)
    requires '_' !in after
    ensures CutLast(before + "_" + after) == Some((before, after))
  {
    var s := before + "_" + after;
    forall i | |before| < i < |s| ensures s[i] != '_' {
      assert s[i] == after[i - |before| - 1];
    }
    LastIndexAt(s, '_', |before|);
    assert s[..|before|] == before && s[|before| + 1..] == after;
  }

  lemma JoinCut(s: string)
    requires CutLast(s).Some?
    ensures s == CutLast(s).value.0 + "_" + CutLast(s).value.1
  {
  }

  lemma CutPayload(id: string, issuedAt: string)
    requires '_' !in issuedAt
    ensures CutLast(Payload(id, issuedAt)) == Some((Prefix() + id, issuedAt))
    ensures CutPrefix(Prefix() + id) == Some(id)
  {
    CutJoined(Prefix() + id, issuedAt);
    assert (Prefix() + id)[|Prefix()|..] == id;
  }

  // ---- the token as a whole

  /** Whatever underscores or prefixes the ID holds, a token it was issued for verifies
      as that ID during its validity window, and never otherwise. */
  lemma IssuedVerifies(id: string, issuedAt: int, sign: string -> string, now: int, validSecs: int)
    requires IdPattern(id) && Int64(issuedAt)
    requires forall p :: '_' !in sign(p)
    ensures Verify(Issue(id, issuedAt, sign), sign, now, validSecs)
         == if Fresh(issuedAt, now, validSecs) then Some(id) else None
  {
    ParseFormatted(issuedAt);
    var payload := Payload(id, FormatInt(issuedAt));
    CutJoined(payload, sign(payload));
    CutPayload(id, FormatInt(issuedAt));
  }

  /** With clocks after 1970 the window is the plain difference of the two readings. */
  lemma ValidityWindow(id: string, issuedAt: int, sign: string -> string, now: int, validSecs: int)
    requires IdPattern(id) && Int64(issuedAt) && Int64(now) && 0 <= issuedAt && 0 <= now
    requires forall p :: '_' !in sign(p)
    ensures Verify(Issue(id, issuedAt, sign), sign, now, validSecs) == Some(id)
       <==> issuedAt <= now < issuedAt + validSecs
  {
    IssuedVerifies(id, issuedAt, sign, now, validSecs);
  }

  /** Everything that verifies is a signed payload of exactly that ID, inside its window. */
  lemma VerifiedIsSigned(token: string, sign: string -> string, now: int, validSecs: int)
    requires Verify(token, sign, now, validSecs).Some?
    ensures var id := Verify(token, sign, now, validSecs).value;
            IdPattern(id) && exists raw :: token == Payload(id, raw) + "_" + sign(Payload(id, raw))
                                           && ParseInt(raw).Some? && Fresh(ParseInt(raw).value, now, validSecs)
  {
    var id := Verify(token, sign, now, validSecs).value;
    var payload := CutLast(token).value.0;
    var (rest, raw) := CutLast(payload).value;
    JoinCut(token);
    JoinCut(payload);
    assert rest == Prefix() + id;
    assert payload == Payload(id, raw);
  }

  /** What is signed determines both the account and the time. */
  lemma PayloadInjective(id: string, issuedAt: int, other: string, otherAt: int)
    requires Int64(issuedAt) && Int64(otherAt)
    requires Payload(id, FormatInt(issuedAt)) == Payload(other, FormatInt(otherAt))
    ensures id == other && issuedAt == otherAt
  {
    ParseFormatted(issuedAt);
    ParseFormatted(otherAt);
    CutPayload(id, FormatInt(issuedAt));
    CutPayload(other, FormatInt(otherAt));
  }
}
