/** The string building the engine does on its scratch string: joining values
    with a delimiter, plain concatenation, and the decimal text of a count. */
module Text {

  /** `parts` separated by `delim`, built left to right the way a loop that
      appends "delimiter, then value" for every value but the first builds it. */
  function Join(parts: seq<string>, delim: string): string {
    if |parts| == 0 then ""
    else if |parts| == 1 then parts[0]
    else Join(parts[..|parts| - 1], delim) + delim + parts[|parts| - 1]
  }

  /** Appending one more part: the delimiter, then the part. */
  lemma JoinSnoc(parts: seq<string>, delim: string, x: string)
    ensures Join(parts + [x], delim) == if |parts| == 0 then x else Join(parts, delim) + delim + x
  {
    assert (parts + [x])[..|parts|] == parts;
  }

  /** One step of the joining loop: the text so far, the delimiter unless
      this is the first part, then the part. */
  lemma JoinStep(parts: seq<string>, j: nat, text: string, delim: string)
    requires j < |parts| && text == Join(parts[..j], delim)
    ensures (if j != 0 then text + delim else text) + parts[j] == Join(parts[..j + 1], delim)
  {
    assert parts[..j + 1] == parts[..j] + [parts[j]];
    JoinSnoc(parts[..j], delim, parts[j]);
  }

  lemma AppendAssoc(a: string, b: string, c: string, d: string)
    ensures (a + b) + (c + d) == a + (b + c + d)
  {
  }

  /** All parts one after the other. */
  function Flatten(parts: seq<string>): string {
    if |parts| == 0 then "" else parts[0] + Flatten(parts[1..])
  }

  function TotalLength(parts: seq<string>): nat {
    if |parts| == 0 then 0 else |parts[0]| + TotalLength(parts[1..])
  }

  lemma {:induction false} FlattenLength(parts: seq<string>)
    ensures |Flatten(parts)| == TotalLength(parts)
  {
    if |parts| > 0 {
      FlattenLength(parts[1..]);
    }
  }

  lemma {:induction false} FlattenSnoc(parts: seq<string>, x: string)
    ensures Flatten(parts + [x]) == Flatten(parts) + x
  {
    if |parts| > 0 {
      assert (parts + [x])[1..] == parts[1..] + [x];
      FlattenSnoc(parts[1..], x);
    }
  }

  /** With an empty delimiter, joining is plain concatenation. */
  lemma {:induction false} JoinEmptyDelimiter(parts: seq<string>)
    ensures Join(parts, "") == Flatten(parts)
  {
    if |parts| > 1 {
      var init := parts[..|parts| - 1];
      JoinEmptyDelimiter(init);
      FlattenSnoc(init, parts[|parts| - 1]);
      assert init + [parts[|parts| - 1]] == parts;
    } else if |parts| == 1 {
      assert Flatten(parts[1..]) == "";
    }
  }

  lemma {:induction false} TotalLengthSnoc(parts: seq<string>, x: string)
    ensures TotalLength(parts + [x]) == TotalLength(parts) + |x|
  {
    if |parts| > 0 {
      assert (parts + [x])[1..] == parts[1..] + [x];
      TotalLengthSnoc(parts[1..], x);
    }
  }

  /** N parts are separated by exactly N - 1 delimiters and nothing else is added. */
  lemma {:induction false} JoinLength(parts: seq<string>, delim: string)
    requires |parts| > 0
    ensures |Join(parts, delim)| == TotalLength(parts) + (|parts| - 1) * |delim|
  {
    if |parts| == 1 {
      assert TotalLength(parts[1..]) == 0;
    } else {
      var init := parts[..|parts| - 1];
      var last := parts[|parts| - 1];
      assert init + [last] == parts;
      JoinLength(init, delim);
      JoinSnoc(init, delim, last);
      TotalLengthSnoc(init, last);
    }
  }

  function DigitChar(d: nat): (c: char)
    requires d < 10
    ensures '0' <= c <= '9' && c as int - '0' as int == d
  {
    (d + '0' as int) as char
  }

  ghost predicate AllDigits(s: string) {
    forall i :: 0 <= i < |s| ==> '0' <= s[i] <= '9'
  }

  /** The decimal numeral of `n`, most significant digit first, no leading zero. */
  function DecimalText(n: nat): (s: string)
    ensures |s| > 0 && AllDigits(s)
    ensures n > 0 ==> s[0] != '0'
  {
    if n < 10 then [DigitChar(n)] else DecimalText(n / 10) + [DigitChar(n % 10)]
  }

  /** The decimal text of a signed count, with a leading '-' when negative. */
  function IntText(i: int): string {
    if i < 0 then "-" + DecimalText(-i) else DecimalText(i)
  }

  /** The number a string of decimal digits denotes. */
  function DecimalValue(s: string): nat
    requires AllDigits(s)
  {
    if |s| == 0 then 0
    else DecimalValue(s[..|s| - 1]) * 10 + (s[|s| - 1] as int - '0' as int)
  }

  lemma {:induction false} DecimalRoundTrip(n: nat)
    ensures DecimalValue(DecimalText(n)) == n
  {
    if n >= 10 {
      DecimalRoundTrip(n / 10);
      var s := DecimalText(n);
      assert s[..|s| - 1] == DecimalText(n / 10);
    }
  }
}
