/** The job-id extraction of `TaskLogCleanThread.checkTaskStatus`: the first
    match of the regular expression `\b(\d{18})\b` in a log file name, parsed
    with `Long.parseLong`. `\d` is an ASCII digit; `\b` sits between a word
    character (ASCII letter, digit, `_`) and a non-word character or an end of
    the name. */
module JobIdPattern {
  import opened Wrappers
  import opened JavaInts

  /** Length of the digit run the pattern captures. */
  const ID_DIGITS: nat := 18

  predicate IsAsciiDigit(c: char) {
    '0' <= c <= '9'
  }

  predicate IsWordChar(c: char) {
    IsAsciiDigit(c) || ('a' <= c <= 'z') || ('A' <= c <= 'Z') || c == '_'
  }

  predicate AllDigits(d: string) {
    forall k :: 0 <= k < |d| ==> IsAsciiDigit(d[k])
  }

  /** The pattern matches at position `p` of `s`: eighteen digits start there,
      and neither neighbour of the run is a word character. Because the run
      itself consists of word characters, this is exactly where both `\b`
      assertions hold. */
  predicate MatchesAt(s: string, p: int) {
    && 0 <= p
    && p + ID_DIGITS <= |s|
    && AllDigits(s[p..p + ID_DIGITS])
    && (p == 0 || !IsWordChar(s[p - 1]))
    && (p + ID_DIGITS == |s| || !IsWordChar(s[p + ID_DIGITS]))
  }

  function Pow10(n: nat): (r: nat)
    ensures r >= 1
  {
    if n == 0 then 1 else 10 * Pow10(n - 1)
  }

  function DigitValue(c: char): (v: nat)
    requires IsAsciiDigit(c)
    ensures v < 10
  {
    c as int - '0' as int
  }

  function DigitChar(v: nat): (c: char)
    requires v < 10
    ensures IsAsciiDigit(c) && DigitValue(c) == v
  {
    ('0' as int + v) as char
  }

  /** The decimal value of a digit string, most significant digit first, as
      `Long.parseLong` reads it (leading zeros allowed). */
  function DigitsValue(d: string): nat
    requires AllDigits(d)
  {
    if |d| == 0 then 0
    else
      AllDigitsPrefix(d, |d| - 1);
      DigitsValue(d[..|d| - 1]) * 10 + DigitValue(d[|d| - 1])
  }

  lemma AllDigitsPrefix(d: string, n: nat)
    requires AllDigits(d) && n <= |d|
    ensures AllDigits(d[..n])
  {
  }

  /** A run of `n` digits denotes a value below 10^n. */
  lemma {:induction false} DigitsValueBound(d: string)
    requires AllDigits(d)
    ensures DigitsValue(d) < Pow10(|d|)
  {
    if |d| > 0 {
      AllDigitsPrefix(d, |d| - 1);
      DigitsValueBound(d[..|d| - 1]);
    }
  }

  /** 10^18 - 1 is below `Long.MAX_VALUE`, so `Long.parseLong` never fails on
      a captured run. */
  lemma IdRangeFitsLong()
    ensures Pow10(ID_DIGITS) == 1_000_000_000_000_000_000
    ensures Pow10(ID_DIGITS) - 1 <= LONG_MAX
  {
    assert Pow10(3) == 1000;
    Pow10Add(3, 3);
    Pow10Add(6, 6);
    Pow10Add(12, 6);
  }

  lemma {:induction false} Pow10Add(a: nat, b: nat)
    ensures Pow10(a + b) == Pow10(a) * Pow10(b)
  {
    if a > 0 {
      Pow10Add(a - 1, b);
    }
  }

  /** The leftmost match at or after position `i`, as `Matcher.find` scans. */
  function FirstMatchFrom(s: string, i: nat): (r: Option<nat>)
    ensures r.Some? ==> i <= r.value && MatchesAt(s, r.value)
    ensures r.Some? ==> forall q :: i <= q < r.value ==> !MatchesAt(s, q)
    ensures r.None? ==> forall q :: i <= q ==> !MatchesAt(s, q)
    decreases |s| - i
  {
    if i + ID_DIGITS > |s| then None
    else if MatchesAt(s, i) then Some(i)
    else FirstMatchFrom(s, i + 1)
  }

  /** The job id embedded in a log file name, if the pattern occurs in it. */
  function ExtractJobId(name: string): (id: Option<nat>)
    ensures id.Some? <==> exists p :: MatchesAt(name, p)
    ensures id.Some? ==>
      exists p :: && MatchesAt(name, p)
                  && (forall q :: 0 <= q < p ==> !MatchesAt(name, q))
                  && id.value == DigitsValue(name[p..p + ID_DIGITS])
    ensures id.Some? ==> id.value < Pow10(ID_DIGITS) && id.value <= LONG_MAX
  {
    match FirstMatchFrom(name, 0)
    case None => None
    case Some(p) =>
      DigitsValueBound(name[p..p + ID_DIGITS]);
      IdRangeFitsLong();
      Some(DigitsValue(name[p..p + ID_DIGITS]))
  }

  /** `n` rendered as exactly `width` decimal digits, zero-padded on the left. */
  function FormatDigits(n: nat, width: nat): (d: string)
    ensures |d| == width && AllDigits(d)
  {
    if width == 0 then []
    else FormatDigits(n / 10, width - 1) + [DigitChar(n % 10)]
  }

  /** Parsing a zero-padded rendering gives the number back. */
  lemma {:induction false} FormatDigitsRoundTrip(n: nat, width: nat)
    requires n < Pow10(width)
    ensures DigitsValue(FormatDigits(n, width)) == n
  {
    if width > 0 {
      var d := FormatDigits(n, width);
      assert d[..|d| - 1] == FormatDigits(n / 10, width - 1);
      FormatDigitsRoundTrip(n / 10, width - 1);
    }
  }

  /** A name made only of digits carries an id only if it has exactly eighteen
      of them: a run of 17 or of 19 digits yields nothing. */
  lemma DigitRunOfWrongLengthHasNoId(s: string)
    requires AllDigits(s)
    requires |s| != ID_DIGITS
    ensures ExtractJobId(s) == None
  {
  }

  /** Eighteen digits glued to a preceding word character (a letter, a digit
      or `_`) yield no id. */
  lemma GluedBeforeHidesId(c: char, d: string)
    requires IsWordChar(c)
    requires |d| == ID_DIGITS && AllDigits(d)
    ensures ExtractJobId([c] + d) == None
  {
  }

  /** Eighteen digits glued to a following word character yield no id. */
  lemma GluedAfterHidesId(d: string, c: char)
    requires IsWordChar(c)
    requires |d| == ID_DIGITS && AllDigits(d)
    ensures ExtractJobId(d + [c]) == None
  {
  }

  /** An id written as eighteen zero-padded digits between a digit-free head
      ending in a non-word character (such as `job-`) and a tail starting with
      a non-word character (such as `.log`) is extracted exactly. */
  lemma EmbeddedIdIsExtracted(head: string, id: nat, tail: string)
    requires id < Pow10(ID_DIGITS)
    requires forall k :: 0 <= k < |head| ==> !IsAsciiDigit(head[k])
    requires |head| == 0 || !IsWordChar(head[|head| - 1])
    requires |tail| == 0 || !IsWordChar(tail[0])
    ensures ExtractJobId(head + FormatDigits(id, ID_DIGITS) + tail) == Some(id)
  {
    var digits := FormatDigits(id, ID_DIGITS);
    var s := head + digits + tail;
    var at := |head|;
    assert s[at..at + ID_DIGITS] == digits;
    assert at > 0 ==> s[at - 1] == head[|head| - 1];
    assert at + ID_DIGITS < |s| ==> s[at + ID_DIGITS] == tail[0];
    assert MatchesAt(s, at);
    forall q | 0 <= q < at ensures !MatchesAt(s, q) {
      assert s[q] == head[q];
      if q + ID_DIGITS <= |s| {
        assert s[q..q + ID_DIGITS][0] == s[q];
      }
    }
    var r := ExtractJobId(s);
    var p :| && MatchesAt(s, p)
             && (forall q :: 0 <= q < p ==> !MatchesAt(s, q))
             && r.value == DigitsValue(s[p..p + ID_DIGITS]);
    assert p == at;
    FormatDigitsRoundTrip(id, ID_DIGITS);
  }
}
