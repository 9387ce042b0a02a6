/** The retry and dead letter decorator: retry state travels in a message header. */
module RetryDlq {
  import opened Common

  datatype Header = Header(key: string, value: string)

  datatype Message = Message(topic: string, value: string, headers: seq<Header>)

  datatype Config = Config(maxRetries: int, backoffBase: int, retryTopicSuffix: string)

  const RETRY_COUNT_HEADER := "x-eci-retry-count"
  const DEFAULT_MAX_RETRIES := 5
  const DEFAULT_BACKOFF_BASE := 1_000_000_000  // one second in nanoseconds
  const TWO_63: int := 0x8000_0000_0000_0000
  const TWO_64: int := 0x1_0000_0000_0000_0000

  function WithDefaults(c: Config): Config {
    c.(maxRetries := if c.maxRetries <= 0 then DEFAULT_MAX_RETRIES else c.maxRetries,
       backoffBase := if c.backoffBase <= 0 then DEFAULT_BACKOFF_BASE else c.backoffBase)
  }

  /** A limit and a base that make sense are kept; otherwise there are five retries, and a second to begin with. */
  lemma DefaultsAreSane(c: Config)
    ensures var d := WithDefaults(c);
            && d.maxRetries > 0 && d.backoffBase > 0 && d.retryTopicSuffix == c.retryTopicSuffix
            && (d.maxRetries == c.maxRetries || (c.maxRetries <= 0 && d.maxRetries == 5))
            && (d.backoffBase == c.backoffBase || (c.backoffBase <= 0 && d.backoffBase == 1_000_000_000))
  {
  }

  // ---------------------------------------------------------------- topics

  predicate HasSuffix(s: string, suffix: string) {
    |suffix| <= |s| && s[|s| - |suffix|..] == suffix
  }

  function OriginalTopic(topic: string, suffix: string): string {
    if suffix != "" && HasSuffix(topic, suffix) then topic[..|topic| - |suffix|] else topic
  }

  function RetryTopic(topic: string, suffix: string): string {
    if suffix == "" then topic else OriginalTopic(topic, suffix) + suffix
  }

  /**
  A copy read from the retry topic is processed under the topic it came from, and goes back to the same retry topic.
  */
  lemma RetryTopicRoundTrip(topic: string, suffix: string)
    ensures OriginalTopic(RetryTopic(topic, suffix), suffix) == OriginalTopic(topic, suffix)
    ensures RetryTopic(RetryTopic(topic, suffix), suffix) == RetryTopic(topic, suffix)
  {
    var o := OriginalTopic(topic, suffix);
    if suffix != "" {
      assert (o + suffix)[|o + suffix| - |suffix|..] == suffix;
      assert (o + suffix)[..|o + suffix| - |suffix|] == o;
    }
  }

  // ---------------------------------------------------------------- the retry count header

  predicate IsDigit(c: char) {
    '0' <= c <= '9'
  }

  function DigitValue(c: char): nat
    requires IsDigit(c)
  {
    c as int - '0' as int
  }

  function DigitsValue(s: string): nat
    requires forall c :: c in s ==> IsDigit(c)
  {
    if s == "" then 0
    else
      assert s[|s| - 1] in s;
      DigitsValue(s[..|s| - 1]) * 10 + DigitValue(s[|s| - 1])
  }

  /** Decimal parsing with an optional sign, into 64 bits; None is a syntax or range error. */
  function Atoi(s: string): Option<int> {
    var negative := s != "" && s[0] == '-';
    var digits := if s != "" && (s[0] == '-' || s[0] == '+') then s[1..] else s;
    if digits == "" || !(forall c :: c in digits ==> IsDigit(c)) then None
    else
      var v: int := if negative then 0 - DigitsValue(digits) else DigitsValue(digits);
      if -TWO_63 <= v < TWO_63 then Some(v) else None
  }

  lemma {:induction false} ItoaDigits(n: nat)
    ensures Itoa(n) != "" && (forall c :: c in Itoa(n) ==> IsDigit(c)) && DigitsValue(Itoa(n)) == n
  {
    var s := Itoa(n);
    if n >= 10 {
      ItoaDigits(n / 10);
      assert s[..|s| - 1] == Itoa(n / 10);
    }
  }

  lemma AtoiOfItoa(n: nat)
    requires n < TWO_63
    ensures Atoi(Itoa(n)) == Some(n)
  {
    ItoaDigits(n);
    assert Itoa(n)[0] in Itoa(n);
  }

  /** The text is a number as the language writes it: digits behind at most one sign, within 64 bits. */
  ghost predicate Reads(s: string, v: int) {
    exists sign, digits ::
      && (sign == "" || sign == "+" || sign == "-") && s == sign + digits
      && digits != "" && (forall c :: c in digits ==> IsDigit(c))
      && v == (if sign == "-" then -1 else 1) * DigitsValue(digits) && -TWO_63 <= v < TWO_63
  }

  lemma AtoiIsExact(s: string, v: int)
    ensures Atoi(s) == Some(v) <==> Reads(s, v)
  {
    if Atoi(s) == Some(v) {
      var sign := if s[0] == '-' || s[0] == '+' then s[..1] else "";
      var digits := if s[0] == '-' || s[0] == '+' then s[1..] else s;
      assert s == sign + digits;
    }
    if Reads(s, v) {
      var sign, digits :| && (sign == "" || sign == "+" || sign == "-") && s == sign + digits
                          && digits != "" && (forall c :: c in digits ==> IsDigit(c))
                          && v == (if sign == "-" then -1 else 1) * DigitsValue(digits) && -TWO_63 <= v < TWO_63;
      assert digits[0] in digits;
      if sign == "" { assert s == digits; } else { assert s[1..] == digits; }
    }
  }

  /** The first retry-count header decides; absent, malformed and negative all count as zero. */
  function RetryCount(headers: seq<Header>): (n: nat)
    ensures n < TWO_63
  {
    if headers == [] then 0
    else if headers[0].key != RETRY_COUNT_HEADER then RetryCount(headers[1..])
    else
      var n := Atoi(headers[0].value);
      if n.None? || n.value < 0 then 0 else n.value
  }

  /** No count header means no retry yet; otherwise the first one counts, if it holds a number that is not negative. */
  lemma {:induction false} FirstCountDecides(headers: seq<Header>, i: nat)
    requires i <= |headers| && forall j :: 0 <= j < i ==> headers[j].key != RETRY_COUNT_HEADER
    ensures i == |headers| ==> RetryCount(headers) == 0
    ensures i < |headers| && headers[i].key == RETRY_COUNT_HEADER ==>
              var v := Atoi(headers[i].value); RetryCount(headers) == if v.Some? && v.value >= 0 then v.value else 0
    decreases i
  {
    hide Atoi;
    if i > 0 {
      assert headers[0].key != RETRY_COUNT_HEADER;
      FirstCountDecides(headers[1..], i - 1);
    }
  }

  function OtherHeaders(headers: seq<Header>): seq<Header> {
    if headers == [] then []
    else (if headers[0].key == RETRY_COUNT_HEADER then [] else [headers[0]]) + OtherHeaders(headers[1..])
  }

  function WithRetryCount(headers: seq<Header>, count: nat): seq<Header> {
    OtherHeaders(headers) + [Header(RETRY_COUNT_HEADER, Itoa(count))]
  }

  method ReadRetryCount(headers: seq<Header>) returns (n: nat)
    ensures n == RetryCount(headers)
  {
    for i := 0 to |headers|
      invariant RetryCount(headers) == RetryCount(headers[i..])
    {
      if headers[i].key == RETRY_COUNT_HEADER {
        var v := Atoi(headers[i].value);
        return if v.None? || v.value < 0 then 0 else v.value;
      }
    }
    n := 0;
  }

  method WithRetryCountHeader(headers: seq<Header>, count: nat) returns (out: seq<Header>)
    ensures out == WithRetryCount(headers, count)
  {
    out := [];
    assert headers[0..] == headers;
    for i := 0 to |headers|
      invariant out + OtherHeaders(headers[i..]) == OtherHeaders(headers)
    {
      assert headers[i..][1..] == headers[i + 1..];
      if headers[i].key != RETRY_COUNT_HEADER { out := out + [headers[i]]; }
    }
    out := out + [Header(RETRY_COUNT_HEADER, Itoa(count))];
  }

  lemma {:induction false} OthersSkipCount(headers: seq<Header>, tail: seq<Header>)
    ensures RetryCount(OtherHeaders(headers) + tail) == RetryCount(tail)
  {
    var none: seq<Header> := [];
    if headers == [] {
      assert none + tail == tail;
    } else {
      OthersSkipCount(headers[1..], tail);
      var rest := OtherHeaders(headers[1..]);
      if headers[0].key == RETRY_COUNT_HEADER {
        assert none + rest == rest;
      } else {
        assert ([headers[0]] + rest + tail)[1..] == rest + tail;
      }
    }
  }

  lemma OthersOfCons(h: Header, rest: seq<Header>)
    ensures OtherHeaders([h] + rest) == if h.key == RETRY_COUNT_HEADER then OtherHeaders(rest)
                                        else [h] + OtherHeaders(rest)
  {
    assert ([h] + rest)[1..] == rest;
    if h.key == RETRY_COUNT_HEADER { assert [] + OtherHeaders(rest) == OtherHeaders(rest); }
  }

  lemma OthersOfNone()
    ensures OtherHeaders([]) == []
  {
  }

  lemma {:induction false} OthersTwice(headers: seq<Header>, tail: seq<Header>)
    ensures OtherHeaders(OtherHeaders(headers) + tail) == OtherHeaders(headers) + OtherHeaders(tail)
  {
    hide OtherHeaders;
    if headers == [] {
      OthersOfNone();
      var none: seq<Header> := [];
      assert none + tail == tail && none + OtherHeaders(tail) == OtherHeaders(tail);
    } else {
      var h, rest := headers[0], OtherHeaders(headers[1..]);
      assert headers == [h] + headers[1..];
      OthersOfCons(h, headers[1..]);
      OthersTwice(headers[1..], tail);
      if h.key != RETRY_COUNT_HEADER {
        OthersOfCons(h, rest + tail);
        assert [h] + rest + tail == [h] + (rest + tail);
        assert [h] + (rest + OtherHeaders(tail)) == [h] + rest + OtherHeaders(tail);
      }
    }
  }

  /** What is written is what is read back; exactly one count header remains and all other headers stay in order. */
  lemma RetryCountRoundTrip(headers: seq<Header>, count: nat)
    requires count < TWO_63
    ensures RetryCount(WithRetryCount(headers, count)) == count
    ensures OtherHeaders(WithRetryCount(headers, count)) == OtherHeaders(headers)
    ensures |WithRetryCount(headers, count)| == |OtherHeaders(headers)| + 1
  {
    OthersSkipCount(headers, [Header(RETRY_COUNT_HEADER, Itoa(count))]);
    OthersTwice(headers, [Header(RETRY_COUNT_HEADER, Itoa(count))]);
    AtoiOfItoa(count);
    var none: seq<Header> := [];
    assert OtherHeaders([Header(RETRY_COUNT_HEADER, Itoa(count))]) == none + OtherHeaders([]);
  }

  // ---------------------------------------------------------------- backoff

  function Pow2(n: nat): nat {
    if n == 0 then 1 else 2 * Pow2(n - 1)
  }

  /** Two's complement wrap-around of a 64-bit signed integer. */
  function Wrap64(x: int): int {
    (x + TWO_63) % TWO_64 - TWO_63
  }

  /** The delay as the 64-bit arithmetic computes it; a timer with a delay that is not positive fires at once. */
  function Delay(backoffBase: int, count: nat): nat {
    var shifted := if count < 64 then Pow2(count) else 0;
    var d := Wrap64(backoffBase * Wrap64(shifted));
    if d > 0 then d else 0
  }

  lemma {:induction false} Pow2Positive(n: nat)
    ensures Pow2(n) >= 1
  {
    if n > 0 { Pow2Positive(n - 1); }
  }

  lemma {:induction false} Pow2Grows(m: nat, n: nat)
    requires m <= n
    ensures Pow2(m) <= Pow2(n)
  {
    if m < n { Pow2Grows(m, n - 1); }
  }

  lemma Pow2Of63()
    ensures Pow2(63) == TWO_63
  {
    assert Pow2(8) == 256;
    assert Pow2(16) == 65536;
    assert Pow2(24) == 0x100_0000;
    assert Pow2(32) == 0x1_0000_0000;
    assert Pow2(40) == 0x100_0000_0000;
    assert Pow2(48) == 0x1_0000_0000_0000;
    assert Pow2(56) == 0x100_0000_0000_0000;
  }

  lemma WrapIsBelow(x: int)
    requires x >= 0
    ensures Wrap64(x) <= x
    ensures Wrap64(x) == x <==> x < TWO_63
  {
  }

  lemma ProductAtLeast(a: int, b: int, c: int)
    requires a >= 0 && b <= c
    ensures a * b <= a * c
  {
  }

  /** The delay never exceeds base times two to the count, and equals it exactly when that fits 64 bits. */
  lemma DelayIsBounded(backoffBase: int, count: nat)
    requires backoffBase > 0
    ensures Delay(backoffBase, count) <= backoffBase * Pow2(count)
    ensures Delay(backoffBase, count) == backoffBase * Pow2(count) <==> backoffBase * Pow2(count) < TWO_63
  {
    Pow2Positive(count);
    Pow2Of63();
    ProductAtLeast(Pow2(count), 1, backoffBase);
    assert Pow2(count) * backoffBase == backoffBase * Pow2(count);
    if count < 63 {
      Pow2Grows(count, 62);
      WrapIsBelow(Pow2(count));
      WrapIsBelow(backoffBase * Pow2(count));
      ProductAtLeast(backoffBase, 1, Pow2(count));
    } else {
      Pow2Grows(63, count);
      assert backoffBase * Pow2(count) >= TWO_63;
      if count == 63 {
        assert Wrap64(Pow2(63)) == -TWO_63;
        NegativeProduct(backoffBase);
      }
    }
  }

  /** The one overflowing shift that stays non-zero gives a delay of zero. */
  lemma NegativeProduct(b: int)
    ensures Wrap64(b * -TWO_63) <= 0
  {
    var x := b * -TWO_63 + TWO_63;
    assert x == (1 - b) * TWO_63;
    var h := (1 - b) / 2;
    var r := (1 - b) % 2;
    assert 1 - b == 2 * h + r;
    assert x == h * TWO_64 + r * TWO_63;
    assert x % TWO_64 == r * TWO_63 by { ModOfSum(h, r * TWO_63); }
  }

  lemma ModOfSum(h: int, r: int)
    requires 0 <= r < TWO_64
    ensures (h * TWO_64 + r) % TWO_64 == r
  {
  }

  /** The delays of the counted attempts from `count` to the limit. */
  function TotalDelay(backoffBase: int, count: nat, maxRetries: nat): nat
    decreases maxRetries - count
  {
    if count >= maxRetries then 0 else Delay(backoffBase, count) + TotalDelay(backoffBase, count + 1, maxRetries)
  }

  lemma {:induction false} TotalDelayIsBounded(backoffBase: int, count: nat, maxRetries: nat)
    requires backoffBase > 0 && count <= maxRetries
    ensures TotalDelay(backoffBase, count, maxRetries) <= backoffBase * (Pow2(maxRetries) - Pow2(count))
    decreases maxRetries - count
  {
    hide Delay;
    if count < maxRetries {
      DelayIsBounded(backoffBase, count);
      TotalDelayIsBounded(backoffBase, count + 1, maxRetries);
      assert Pow2(count + 1) == 2 * Pow2(count);
      hide Pow2;
      Doubles(backoffBase, Pow2(count), Pow2(maxRetries));
    }
  }

  lemma Doubles(b: int, x: int, y: int)
    ensures b * x + b * (y - 2 * x) == b * (y - x)
  {
  }
}
