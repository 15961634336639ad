/** One-time codes and their validity (backend/utils/otpGenerator.js). The clock
    (`Date.now()`) and the random source (`Math.random()`) are parameters: `now`
    is a time in milliseconds and each draw is a real in [0, 1). */
module OtpGenerator {
  import opened Wrappers
  import opened Text

  /** Milliseconds since the epoch, as `Date.now()` returns and `Date` compares. */
  type Timestamp = int

  const Digits: string := "0123456789"
  const Alphanumerics: string := "ABCDEFGHIJKLMNOPQRSTUVWXYZabcdefghijklmnopqrstuvwxyz0123456789"
  /** The length `generateOTP` uses when it is given none. */
  const DefaultOtpLength: nat := 6
  const MillisPerMinute: int := 60 * 1000

  /** A value `Math.random()` can return. */
  predicate IsDraw(r: real) {
    0.0 <= r < 1.0
  }

  predicate AllDraws(draws: seq<real>) {
    forall i :: 0 <= i < |draws| ==> IsDraw(draws[i])
  }

  lemma ScaledDrawBelow(r: real, n: nat)
    requires IsDraw(r) && n > 0
    ensures 0 <= (r * n as real).Floor < n
  {
    assert r * n as real < n as real by {
      assert (1.0 - r) * n as real > 0.0;
    }
  }

  /** `chars.charAt(Math.floor(r * chars.length))`. */
  function Pick(alphabet: string, r: real): (c: char)
    requires |alphabet| > 0 && IsDraw(r)
    ensures c in alphabet
  {
    ScaledDrawBelow(r, |alphabet|);
    alphabet[(r * |alphabet| as real).Floor]
  }

  /** The string a loop of `result += Pick(...)` builds from a sequence of draws. */
  function Drawn(alphabet: string, draws: seq<real>): (s: string)
    requires |alphabet| > 0 && AllDraws(draws)
    ensures |s| == |draws|
    ensures forall i :: 0 <= i < |s| ==> s[i] in alphabet
  {
    seq(|draws|, i requires 0 <= i < |draws| => Pick(alphabet, draws[i]))
  }

  /** `generateOTP(length = 6)`: one draw per character, each mapped to a decimal digit. */
  method GenerateOtp(draws: seq<real>, length: nat := DefaultOtpLength) returns (otp: string)
    requires |draws| >= length && AllDraws(draws)
    ensures otp == Drawn(Digits, draws[..length])
  {
    otp := "";
    for i := 0 to length
      invariant otp == Drawn(Digits, draws[..i])
    {
      otp := otp + [Pick(Digits, draws[i])];
    }
  }

  /** `generateRandomString(length = 32)`: one draw per character over the 62 letters and digits. */
  method GenerateRandomString(draws: seq<real>, length: nat := 32) returns (result: string)
    requires |draws| >= length && AllDraws(draws)
    ensures result == Drawn(Alphanumerics, draws[..length])
  {
    result := "";
    for i := 0 to length
      invariant result == Drawn(Alphanumerics, draws[..i])
    {
      result := result + [Pick(Alphanumerics, draws[i])];
    }
  }

  /** A generated code has the requested length and only decimal digits. */
  lemma OtpShape(draws: seq<real>)
    requires AllDraws(draws)
    ensures |Drawn(Digits, draws)| == |draws| && AllDigits(Drawn(Digits, draws))
  {
  }

  /** The draw that selects position `k` of an alphabet of size `n`. */
  function DrawFor(k: nat, n: nat): (r: real)
    requires k < n
    ensures IsDraw(r) && (r * n as real).Floor == k
  {
    var r := k as real / n as real;
    assert r * n as real == k as real;
    r
  }

  function IndexIn(alphabet: string, c: char): (k: nat)
    requires c in alphabet
    ensures k < |alphabet| && alphabet[k] == c
  {
    if alphabet[0] == c then 0 else 1 + IndexIn(alphabet[1..], c)
  }

  /** Draws that make the generator produce `s`, one per character. */
  function DrawsFor(alphabet: string, s: string): (draws: seq<real>)
    requires forall i :: 0 <= i < |s| ==> s[i] in alphabet
    ensures |draws| == |s| && AllDraws(draws)
    ensures forall i :: 0 <= i < |s| ==> draws[i] == DrawFor(IndexIn(alphabet, s[i]), |alphabet|)
  {
    seq(|s|, i requires 0 <= i < |s| => DrawFor(IndexIn(alphabet, s[i]), |alphabet|))
  }

  /** Every string over the alphabet is produced by some sequence of draws: no
      code of the right shape is out of reach of the generator. */
  lemma {:induction false} EveryStringReachable(alphabet: string, s: string)
    requires forall i :: 0 <= i < |s| ==> s[i] in alphabet
    requires |alphabet| > 0
    ensures Drawn(alphabet, DrawsFor(alphabet, s)) == s
  {
    var draws := DrawsFor(alphabet, s);
    forall i | 0 <= i < |s| ensures Pick(alphabet, draws[i]) == s[i] {
      var k := IndexIn(alphabet, s[i]);
      assert (draws[i] * |alphabet| as real).Floor == k;
    }
  }

  /** `getExpiryTime(minutes = 30)`: `minutes` minutes after `now`, in milliseconds. */
  function GetExpiryTime(now: Timestamp, minutes: int := 30): (t: Timestamp)
    ensures t - now == minutes * MillisPerMinute
  {
    now + minutes * 60 * 1000
  }

  /** Without an argument the expiry lies half an hour after `now`. */
  lemma DefaultExpiryHalfHour(now: Timestamp)
    ensures GetExpiryTime(now) == now + 30 * MillisPerMinute
  {
  }

  /** `isValidOTP(otp, storedOTP, expiryTime)`: a missing (or empty) submitted
      code, stored code or expiry makes it false; then the codes must be equal
      without any normalisation; then the expiry is inclusive (`now <= expiry`). */
  function IsValidOtp(otp: Option<string>, storedOtp: Option<string>, expiryTime: Option<Timestamp>, now: Timestamp): (valid: bool)
    ensures valid <==> Present(otp) && otp == storedOtp && expiryTime.Some? && now <= expiryTime.value
  {
    if !Present(otp) || !Present(storedOtp) || expiryTime.None? then false
    else if otp.value != storedOtp.value then false
    else now <= expiryTime.value
  }

  /** The window of a freshly issued code: valid from issuance up to and including
      the expiry instant, invalid one millisecond later. */
  lemma {:induction false} IssuedCodeWindow(code: string, issuedAt: Timestamp, minutes: nat, now: Timestamp)
    requires code != ""
    ensures IsValidOtp(Some(code), Some(code), Some(GetExpiryTime(issuedAt, minutes)), now)
            <==> now <= issuedAt + minutes * MillisPerMinute
  {
  }

  /** The boundary is inclusive: valid at the expiry instant, invalid just after. */
  lemma ValidOtpBoundary(code: string, expiry: Timestamp)
    requires code != ""
    ensures IsValidOtp(Some(code), Some(code), Some(expiry), expiry)
    ensures !IsValidOtp(Some(code), Some(code), Some(expiry), expiry + 1)
  {
  }

  /** A wrong submission never validates, whatever the clock says. */
  lemma MismatchNeverValid(otp: string, stored: string, expiry: Option<Timestamp>, now: Timestamp)
    requires otp != stored
    ensures !IsValidOtp(Some(otp), Some(stored), expiry, now)
  {
  }
}
