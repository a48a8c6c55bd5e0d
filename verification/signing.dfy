/**
 * Request signing of the catalog API client (DomClickApi.__update_headers): before every
 * GET the session's `Timestamp` and `Hash` headers are overwritten, the hash being the
 * versioned MD5 hex digest of a fixed salt, the prepared request URL and the timestamp.
 * The MD5 hex digest is a parameter `md5hex`; the prepared URL is an input.
 */
module Signing {

  datatype Option<T> = None | Some(value: T)

  /** The fixed salt mixed into every signature. */
  const Salt := "ad65f331b02b90d868cbdd660d82aba0"

  /** Version tag in front of the digest. */
  const VersionTag := "v1:"

  /** Identity headers set once when the session is created. */
  const IdentityHeaders: map<string, string> := map[
    "X-Service" := "true",
    "Connection" := "Keep-Alive",
    "User-Agent" := "Android; 12; Google; google_pixel_5; 8.72.0; 8720006; ; NONAUTH"
  ]

  /** The identity headers do not include the two signature headers. */
  lemma IdentityUnsigned()
    ensures "Timestamp" !in IdentityHeaders && "Hash" !in IdentityHeaders
  {
  }

  /** The two bootstrap requests that obtain the session cookies (no query parameters). */
  const EnsureSessionUrl := "https://api.domclick.ru/core/no-auth-zone/api/v1/ensure_session"
  const FeatureTogglesUrl := "https://ipoteka.domclick.ru/mobile/v1/feature_toggles"

  // ---------------------------------------------------------------------------
  // str(int) and its inverse
  // ---------------------------------------------------------------------------

  function DigitChar(d: nat): char
    requires d < 10
  {
    ('0' as int + d) as char
  }

  predicate IsDigit(c: char)
  {
    '0' <= c <= '9'
  }

  function DigitValue(c: char): nat
    requires IsDigit(c)
  {
    c as int - '0' as int
  }

  /** Decimal digits of a natural number, most significant first, no leading zeros. */
  function NatString(n: nat): string
  {
    if n < 10 then [DigitChar(n)] else NatString(n / 10) + [DigitChar(n % 10)]
  }

  /** Python's str() of an int: an optional minus sign and the decimal digits. */
  function IntString(n: int): string
  {
    if n < 0 then "-" + NatString(-n) else NatString(n)
  }

  /** Reads back a non-empty string of decimal digits. */
  function ParseNat(s: string): Option<nat>
  {
    if |s| == 0 || !IsDigit(s[|s| - 1]) then None
    else if |s| == 1 then Some(DigitValue(s[0]))
    else match ParseNat(s[..|s| - 1])
      case None => None
      case Some(m) => Some(m * 10 + DigitValue(s[|s| - 1]))
  }

  /** Reads back an optionally signed decimal integer. */
  function ParseInt(s: string): Option<int>
  {
    if |s| > 0 && s[0] == '-' then
      match ParseNat(s[1..])
      case None => None
      case Some(m) => Some(-(m as int))
    else
      match ParseNat(s)
      case None => None
      case Some(m) => Some(m)
  }

  lemma {:induction false} NatStringRoundTrip(n: nat)
    ensures |NatString(n)| > 0 && IsDigit(NatString(n)[0])
    ensures ParseNat(NatString(n)) == Some(n)
  {
    if n >= 10 {
      NatStringRoundTrip(n / 10);
      var s := NatString(n);
      assert s[..|s| - 1] == NatString(n / 10);
      assert DigitValue(s[|s| - 1]) == n % 10;
    }
  }

  lemma ParseIntNegative(m: nat)
    ensures ParseInt("-" + NatString(m)) == Some(-(m as int))
  {
    NatStringRoundTrip(m);
    var s := "-" + NatString(m);
    assert s[0] == '-' && s[1..] == NatString(m);
  }

  lemma ParseIntNonNegative(m: nat)
    ensures ParseInt(NatString(m)) == Some(m as int)
  {
    NatStringRoundTrip(m);
  }

  /** str() of the timestamp can be read back: different timestamps give different strings. */
  lemma IntStringRoundTrip(n: int)
    ensures ParseInt(IntString(n)) == Some(n)
  {
    if n < 0 {
      ParseIntNegative(-n);
    } else {
      ParseIntNonNegative(n);
    }
  }

  lemma IntStringInjective(a: int, b: int)
    requires IntString(a) == IntString(b)
    ensures a == b
  {
    IntStringRoundTrip(a);
    IntStringRoundTrip(b);
  }

  // ---------------------------------------------------------------------------
  // The signature
  // ---------------------------------------------------------------------------

  /** The string whose digest is taken: salt, prepared URL and timestamp string, in that order. */
  function SignedText(url: string, timestamp: string): string
  {
    Salt + url + timestamp
  }

  /** Value of the `Hash` header. */
  function HashValue(md5hex: string -> string, url: string, timestamp: string): string
  {
    VersionTag + md5hex(SignedText(url, timestamp))
  }

  /** Splits a `Hash` header value into its digest, if it carries the `v1:` tag. */
  function DigestOf(h: string): Option<string>
  {
    if |h| >= |VersionTag| && h[..|VersionTag|] == VersionTag then Some(h[|VersionTag|..]) else None
  }

  /**
   * What the receiving side checks: the `Hash` header is the tagged digest of the salt,
   * the URL it was sent to and the `Timestamp` header sent beside it.
   */
  predicate SignedFor(md5hex: string -> string, url: string, headers: map<string, string>)
  {
    "Timestamp" in headers && "Hash" in headers &&
    DigestOf(headers["Hash"]) == Some(md5hex(SignedText(url, headers["Timestamp"])))
  }

  /** The `Hash` value always carries the `v1:` tag in front of the digest of the signed text. */
  lemma HashValueTagged(md5hex: string -> string, url: string, timestamp: string)
    ensures |HashValue(md5hex, url, timestamp)| >= 3
    ensures HashValue(md5hex, url, timestamp)[..3] == "v1:"
    ensures DigestOf(HashValue(md5hex, url, timestamp)) == Some(md5hex(SignedText(url, timestamp)))
  {
    var h := HashValue(md5hex, url, timestamp);
    assert h[..|VersionTag|] == VersionTag;
  }

  /**
   * The signed text determines the URL and the timestamp it was built from (for a
   * timestamp rendered by str()): signatures of different requests or different seconds
   * are digests of different texts.
   */
  lemma SignedTextInjective(url1: string, t1: int, url2: string, t2: int)
    requires |url1| == |url2|
    requires SignedText(url1, IntString(t1)) == SignedText(url2, IntString(t2))
    ensures url1 == url2 && t1 == t2
  {
    var s1, s2 := SignedText(url1, IntString(t1)), SignedText(url2, IntString(t2));
    assert url1 == s1[|Salt|..|Salt| + |url1|];
    assert url2 == s2[|Salt|..|Salt| + |url2|];
    assert IntString(t1) == s1[|Salt| + |url1|..];
    assert IntString(t2) == s2[|Salt| + |url2|..];
    IntStringInjective(t1, t2);
  }

  /** The session that every request goes through; only its headers are modelled. */
  class DomClickApi {
    var headers: map<string, string>

    /**
     * Session creation: the HTTP library's default headers `defaults`, overridden and
     * extended by the identity headers, then the two bootstrap GETs, each of which first
     * signs the session (at seconds `now1` and `now2`). The sending itself is not modelled.
     */
    constructor (defaults: map<string, string>, md5hex: string -> string, now1: int, now2: int)
      ensures headers.Keys == defaults.Keys + IdentityHeaders.Keys + {"Timestamp", "Hash"}
      ensures forall k :: k in IdentityHeaders ==> headers[k] == IdentityHeaders[k]
      ensures forall k :: k in defaults && k !in IdentityHeaders && k != "Timestamp" && k != "Hash" ==>
        headers[k] == defaults[k]
      ensures headers["Timestamp"] == IntString(now2)
      ensures SignedFor(md5hex, FeatureTogglesUrl, headers)
    {
      headers := defaults + IdentityHeaders;
      new;
      IdentityUnsigned();
      Bootstrap(md5hex, now1, now2);
    }

    /** The two bootstrap GETs, each signing the session for its own URL first. */
    method Bootstrap(md5hex: string -> string, now1: int, now2: int)
      modifies this
      ensures headers.Keys == old(headers).Keys + {"Timestamp", "Hash"}
      ensures forall k :: k in old(headers) && k != "Timestamp" && k != "Hash" ==> headers[k] == old(headers)[k]
      ensures headers["Timestamp"] == IntString(now2)
      ensures SignedFor(md5hex, FeatureTogglesUrl, headers)
    {
      UpdateHeaders(md5hex, EnsureSessionUrl, now1);
      UpdateHeaders(md5hex, FeatureTogglesUrl, now2);
    }

    /**
     * __update_headers: stamps the session with the current second and the matching
     * signature for `preparedUrl`; every other header is left as it was.
     */
    method UpdateHeaders(md5hex: string -> string, preparedUrl: string, now: int)
      modifies this
      ensures headers.Keys == old(headers).Keys + {"Timestamp", "Hash"}
      ensures headers["Timestamp"] == IntString(now)
      ensures headers["Hash"] == HashValue(md5hex, preparedUrl, IntString(now))
      ensures forall k :: k in old(headers) && k != "Timestamp" && k != "Hash" ==> headers[k] == old(headers)[k]
      ensures SignedFor(md5hex, preparedUrl, headers)
    {
      var timestamp := IntString(now);
      var h := md5hex(Salt + preparedUrl + timestamp);
      headers := headers["Timestamp" := timestamp]["Hash" := VersionTag + h];
      HashValueTagged(md5hex, preparedUrl, timestamp);
    }
  }
}
