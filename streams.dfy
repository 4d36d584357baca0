/**
 * What the standard streams do with text in the C locale: `isspace`
 * separates words, `<<` of an unsigned value writes its decimal digits
 * without leading zeros, and `>>` into an unsigned variable reads a whole
 * word of digits whose value fits the variable's type.
 */
module Streams {
  import opened Wrappers

  /** `isspace` in the C locale: space, tab, newline, vertical tab, form feed, carriage return. */
  predicate IsSpace(c: char) {
    c == ' ' || '\t' <= c <= '\r'
  }

  // ---------------------------------------------------------------------
  // Words
  // ---------------------------------------------------------------------

  /** A word: non-empty, with no white space in it. */
  predicate IsWord(w: string) {
    |w| >= 1 && forall k :: 0 <= k < |w| ==> !IsSpace(w[k])
  }

  /** Empty, or ending in white space: what follows cannot extend the last word. */
  predicate EndsInSpace(s: string) {
    s == [] || IsSpace(s[|s| - 1])
  }

  lemma EndsInSpaceAppend(a: string, b: string)
    requires EndsInSpace(a) && EndsInSpace(b)
    ensures EndsInSpace(a + b)
  {
  }

  /** Length of the run of non-space characters `s` starts with. */
  function WordLength(s: string): (n: nat)
    ensures n <= |s|
  {
    if s == [] || IsSpace(s[0]) then 0 else 1 + WordLength(s[1..])
  }

  /** The words of `s`, in order, as successive `>>` into strings read them. */
  function Words(s: string): (ws: seq<string>)
    decreases |s|
  {
    if s == [] then []
    else if IsSpace(s[0]) then Words(s[1..])
    else [s[..WordLength(s)]] + Words(s[WordLength(s)..])
  }

  lemma {:induction false} WordLengthOfAppend(a: string, b: string)
    requires exists k :: 0 <= k < |a| && IsSpace(a[k])
    ensures WordLength(a + b) == WordLength(a)
    decreases |a|
  {
    if !IsSpace(a[0]) {
      assert (a + b)[1..] == a[1..] + b;
      var k :| 0 <= k < |a| && IsSpace(a[k]);
      assert IsSpace(a[1..][k - 1]);
      WordLengthOfAppend(a[1..], b);
    }
  }

  /** Text that ends in white space splits into words independently of what follows it. */
  lemma {:induction false} WordsOfAppend(a: string, b: string)
    requires EndsInSpace(a)
    ensures Words(a + b) == Words(a) + Words(b)
    decreases |a|
  {
    if a == [] {
      assert a + b == b;
    } else if IsSpace(a[0]) {
      assert (a + b)[1..] == a[1..] + b;
      WordsOfAppend(a[1..], b);
    } else {
      WordLengthOfAppend(a, b);
      var n := WordLength(a);
      assert (a + b)[..n] == a[..n];
      assert (a + b)[n..] == a[n..] + b;
      WordsOfAppend(a[n..], b);
    }
  }

  /** Text after a part that ends in white space: the part's words, then the rest's. */
  lemma WordsOfPieces(init: string, rest: string, initWords: seq<string>, restWords: seq<string>)
    requires EndsInSpace(init) && Words(init) == initWords && Words(rest) == restWords
    ensures Words(init + rest) == initWords + restWords
  {
    WordsOfAppend(init, rest);
  }

  /** White space alone holds no word. */
  lemma {:induction false} WordsOfSpaces(s: string)
    requires forall k :: 0 <= k < |s| ==> IsSpace(s[k])
    ensures Words(s) == []
    decreases |s|
  {
    if s != [] {
      WordsOfSpaces(s[1..]);
    }
  }

  /** A word followed by white space is read as that word. */
  lemma WordsOfTerminatedWord(w: string, sep: string)
    requires IsWord(w)
    requires |sep| >= 1 && forall k :: 0 <= k < |sep| ==> IsSpace(sep[k])
    ensures Words(w + sep) == [w]
  {
    var s := w + sep;
    WordLengthOfTerminated(w, sep);
    assert s[..|w|] == w && s[|w|..] == sep;
    WordsOfSpaces(sep);
  }

  lemma {:induction false} WordLengthOfTerminated(w: string, rest: string)
    requires forall k :: 0 <= k < |w| ==> !IsSpace(w[k])
    requires rest != [] && IsSpace(rest[0])
    ensures WordLength(w + rest) == |w|
    decreases |w|
  {
    if w == [] {
      assert w + rest == rest;
    } else {
      assert (w + rest)[1..] == w[1..] + rest;
      WordLengthOfTerminated(w[1..], rest);
    }
  }

  /**
   * One write to a text stream: a word followed by a single space, or a run
   * of white space on its own.
   */
  datatype Token = Field(word: string) | Gap(spaces: string)

  function TokenText(t: Token): string {
    match t
    case Field(word) => word + " "
    case Gap(spaces) => spaces
  }

  /** The text a sequence of writes produces. */
  function Render(ts: seq<Token>): (text: string)
  {
    if ts == [] then [] else TokenText(ts[0]) + Render(ts[1..])
  }

  /** The words written as fields, in order. */
  function FieldWords(ts: seq<Token>): (ws: seq<string>)
  {
    if ts == [] then [] else (if ts[0].Field? then [ts[0].word] else []) + FieldWords(ts[1..])
  }

  /** A field holds a word and a gap only white space. */
  predicate TokenOk(t: Token) {
    match t
    case Field(word) => IsWord(word)
    case Gap(spaces) => forall i :: 0 <= i < |spaces| ==> IsSpace(spaces[i])
  }

  predicate WellFormedTokens(ts: seq<Token>) {
    forall k :: 0 <= k < |ts| ==> TokenOk(ts[k])
  }

  lemma {:induction false} RenderAppend(a: seq<Token>, b: seq<Token>)
    ensures Render(a + b) == Render(a) + Render(b)
    decreases |a|
  {
    if a != [] {
      assert (a + b)[0] == a[0] && (a + b)[1..] == a[1..] + b;
      RenderAppend(a[1..], b);
    } else {
      assert a + b == b;
    }
  }

  lemma {:induction false} FieldWordsAppend(a: seq<Token>, b: seq<Token>)
    ensures FieldWords(a + b) == FieldWords(a) + FieldWords(b)
    decreases |a|
  {
    if a != [] {
      assert (a + b)[0] == a[0] && (a + b)[1..] == a[1..] + b;
      FieldWordsAppend(a[1..], b);
    } else {
      assert a + b == b;
    }
  }

  lemma WellFormedAppend(a: seq<Token>, b: seq<Token>)
    requires WellFormedTokens(a) && WellFormedTokens(b)
    ensures WellFormedTokens(a + b)
  {
    forall k | 0 <= k < |a + b|
      ensures TokenOk((a + b)[k])
    {
      if k >= |a| {
        assert (a + b)[k] == b[k - |a|];
      }
    }
  }

  /** What is written as separate words and white space is read back as those words. */
  lemma {:induction false} WordsOfRender(ts: seq<Token>)
    requires WellFormedTokens(ts)
    ensures Words(Render(ts)) == FieldWords(ts)
    decreases |ts|
  {
    if ts != [] {
      var t := ts[0];
      var rest := ts[1..];
      assert WellFormedTokens(rest) by {
        forall k | 0 <= k < |rest|
          ensures TokenOk(rest[k])
        {
          assert rest[k] == ts[k + 1];
        }
      }
      WordsOfRender(rest);
      var text := TokenText(t);
      if t.Field? {
        WordsOfTerminatedWord(t.word, " ");
      } else {
        WordsOfSpaces(t.spaces);
      }
      assert EndsInSpace(text);
      WordsOfAppend(text, Render(rest));
    }
  }

  // ---------------------------------------------------------------------
  // Decimal numerals
  // ---------------------------------------------------------------------

  predicate IsDigit(c: char) {
    '0' <= c <= '9'
  }

  predicate AllDigits(s: string) {
    forall k :: 0 <= k < |s| ==> IsDigit(s[k])
  }

  function DigitChar(d: nat): (c: char)
    requires d < 10
    ensures IsDigit(c)
  {
    ('0' as int + d) as char
  }

  function DigitValue(c: char): (d: nat)
    requires IsDigit(c)
    ensures d < 10
  {
    c as int - '0' as int
  }

  /** The digits of `n`, most significant first, without leading zeros ("0" for zero). */
  function DecimalString(n: nat): (s: string)
    ensures |s| >= 1 && AllDigits(s)
    ensures |s| > 1 ==> s[0] != '0'
    decreases n
  {
    if n < 10 then [DigitChar(n)] else DecimalString(n / 10) + [DigitChar(n % 10)]
  }

  /** A numeral is a word: digits are not white space. */
  lemma DecimalStringIsWord(n: nat)
    ensures IsWord(DecimalString(n))
  {
  }

  /** Value of a word of digits (the empty word reads as 0). */
  function ParseDecimal(s: string): nat
    requires AllDigits(s)
  {
    if s == [] then 0 else ParseDecimal(s[..|s| - 1]) * 10 + DigitValue(s[|s| - 1])
  }

  /** Reading back what was written gives the value written. */
  lemma {:induction false} DecimalRoundTrip(n: nat)
    ensures ParseDecimal(DecimalString(n)) == n
    decreases n
  {
    if n >= 10 {
      var s := DecimalString(n);
      assert s[..|s| - 1] == DecimalString(n / 10);
      DecimalRoundTrip(n / 10);
    }
  }

  /** Different values are written differently. */
  lemma DecimalStringInjective(a: nat, b: nat)
    requires DecimalString(a) == DecimalString(b)
    ensures a == b
  {
    DecimalRoundTrip(a);
    DecimalRoundTrip(b);
  }

  /** Length of the run of digits `s` starts with. */
  function DigitRun(s: string): (n: nat)
    ensures n <= |s|
    ensures AllDigits(s[..n])
    ensures n < |s| ==> !IsDigit(s[n])
  {
    if s == [] || !IsDigit(s[0]) then 0
    else
      var n := 1 + DigitRun(s[1..]);
      assert s[..n] == [s[0]] + s[1..][..n - 1];
      n
  }

  /** A run of digits stops at the first character that is not one. */
  lemma {:induction false} DigitRunOfDigits(digits: string, tail: string)
    requires AllDigits(digits)
    requires tail == [] || !IsDigit(tail[0])
    ensures DigitRun(digits + tail) == |digits|
    decreases |digits|
  {
    if digits == [] {
      assert digits + tail == tail;
    } else {
      assert (digits + tail)[1..] == digits[1..] + tail;
      DigitRunOfDigits(digits[1..], tail);
    }
  }

  /**
   * Extraction of a whole word into an unsigned variable with `limit`
   * distinct values: absent unless the word is a non-empty run of digits
   * whose value is below the limit.
   */
  function ParseUnsigned(word: string, limit: nat): (r: Option<nat>)
    ensures r.Some? ==> r.value < limit
    ensures r.Some? <==> |word| >= 1 && AllDigits(word) && ParseDecimal(word) < limit
  {
    if |word| >= 1 && AllDigits(word) && ParseDecimal(word) < limit then Some(ParseDecimal(word)) else None
  }

  /** A value that fits is read back from the word written for it. */
  lemma ParseUnsignedOfDecimal(n: nat, limit: nat)
    requires n < limit
    ensures ParseUnsigned(DecimalString(n), limit) == Some(n)
  {
    DecimalRoundTrip(n);
  }
}
