/** The clip URL template `videos/hero-<index>.mp4`, with the decimal
    rendering of the index that a JavaScript template literal performs for
    integers below 10^21 (from there on JavaScript prints exponent form),
    and a parser that inverts it. */
module VideoSource {

  datatype Option<T> = None | Some(value: T)

  const Prefix: string := "videos/hero-"
  const Suffix: string := ".mp4"

  predicate IsDigit(ch: char)
  {
    '0' <= ch <= '9'
  }

  predicate AllDigits(s: string)
  {
    forall k :: 0 <= k < |s| ==> IsDigit(s[k])
  }

  function DigitChar(d: nat): (ch: char)
    requires d < 10
    ensures IsDigit(ch) && ch as int - '0' as int == d
  {
    ('0' as int + d) as char
  }

  /** The numeral a template literal prints for a non-negative integer below
      10^21: decimal digits only, without leading zeros. */
  function Decimal(x: nat): (s: string)
    ensures |s| >= 1 && AllDigits(s)
    ensures x > 0 ==> s[0] != '0'
  {
    if x < 10 then [DigitChar(x)] else Decimal(x / 10) + [DigitChar(x % 10)]
  }

  /** The value of a string of decimal digits. */
  function DecimalValue(s: string): nat
    requires AllDigits(s)
  {
    if s == [] then 0
    else 10 * DecimalValue(s[..|s| - 1]) + (s[|s| - 1] as int - '0' as int)
  }

  /** Reading the numeral back gives the number. */
  lemma {:induction false} DecimalRoundTrip(x: nat)
    ensures DecimalValue(Decimal(x)) == x
  {
    if x >= 10 {
      DecimalRoundTrip(x / 10);
      var s := Decimal(x);
      assert s[..|s| - 1] == Decimal(x / 10);
    }
  }

  /** `getVideoSrc`: the URL of clip `index`, the fixed prefix and suffix
      around a non-empty numeral. */
  function VideoSrc(index: nat): (url: string)
    ensures |url| > |Prefix| + |Suffix|
    ensures url[..|Prefix|] == Prefix && url[|url| - |Suffix|..] == Suffix
    ensures AllDigits(url[|Prefix|..|url| - |Suffix|])
  {
    Prefix + Decimal(index) + Suffix
  }

  /** The clip index a URL names, when it has the shape `VideoSrc` produces. */
  function ParseVideoSrc(url: string): Option<nat>
  {
    if |url| > |Prefix| + |Suffix|
       && url[..|Prefix|] == Prefix
       && url[|url| - |Suffix|..] == Suffix
       && AllDigits(url[|Prefix|..|url| - |Suffix|])
    then Some(DecimalValue(url[|Prefix|..|url| - |Suffix|]))
    else None
  }

  /** Every clip URL parses back to its index. */
  lemma VideoSrcRoundTrip(index: nat)
    ensures ParseVideoSrc(VideoSrc(index)) == Some(index)
  {
    var d := Decimal(index);
    var url := VideoSrc(index);
    assert url[..|Prefix|] == Prefix;
    assert url[|url| - |Suffix|..] == Suffix;
    assert url[|Prefix|..|url| - |Suffix|] == d;
    DecimalRoundTrip(index);
  }

  /** Distinct clips have distinct URLs. */
  lemma VideoSrcInjective(i: nat, j: nat)
    ensures VideoSrc(i) == VideoSrc(j) <==> i == j
  {
    VideoSrcRoundTrip(i);
    VideoSrcRoundTrip(j);
  }

  /** The URLs of the component's four clips. */
  lemma VideoSrcOfFirstClips()
    ensures VideoSrc(1) == "videos/hero-1.mp4"
    ensures VideoSrc(4) == "videos/hero-4.mp4"
  {
  }
}
