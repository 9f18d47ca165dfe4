/**
  Printing and scanning the pieces of SQL text the compilers produce: delimited identifiers
  (section 5.2 of ISO/IEC 9075-2), decimal integers, words and blanks.

  Each piece has a printer and an independent scanner; a lemma says the scanner reads the piece back
  and stops exactly behind it, whatever text follows.
 */
module SqlText {
  import opened Wrappers

  /** A scanned value and the text behind it. */
  datatype Scan<+T> = Scan(value: T, rest: string)

  predicate StartsWith(s: string, c: char) {
    s != "" && s[0] == c
  }

  /** Skips a fixed text. */
  function Skip(s: string, fixed: string): Option<string> {
    if fixed <= s then Some(s[|fixed|..]) else None
  }

  lemma SkipFixed(fixed: string, rest: string)
    ensures Skip(fixed + rest, fixed) == Some(rest)
  {
    assert (fixed + rest)[|fixed|..] == rest;
  }

  lemma Associate(a: string, b: string, c: string, d: string)
    ensures a + (b + (c + d)) == (a + (b + c)) + d
  {
  }

  // ---------------------------------------------------------------- delimited identifiers

  /** Every double quote written twice. */
  function Doubled(name: string): string {
    if name == "" then ""
    else if name[0] == '"' then "\"\"" + Doubled(name[1..])
    else [name[0]] + Doubled(name[1..])
  }

  /** quoteIdent. */
  function Quote(name: string): string {
    "\"" + Doubled(name) + "\""
  }

  lemma {:induction false} DoubledConcat(a: string, b: string)
    ensures Doubled(a + b) == Doubled(a) + Doubled(b)
  {
    if a == "" {
      assert a + b == b;
    } else {
      assert (a + b)[1..] == a[1..] + b;
      DoubledConcat(a[1..], b);
    }
  }

  lemma {:induction false} NothingDoubled(name: string)
    requires '"' !in name
    ensures Doubled(name) == name
  {
    if name != "" {
      assert name == [name[0]] + name[1..] && name[0] in name;
      NothingDoubled(name[1..]);
    }
  }

  /** A quoted name stands between double quotes as it is, except that each of its own is written twice. */
  lemma QuotedText(before: string, after: string)
    requires '"' !in before
    ensures Quote(before) == "\"" + before + "\""
    ensures Quote(before + "\"" + after) == "\"" + before + "\"\"" + Quote(after)[1..]
  {
    NothingDoubled(before);
    DoubledConcat(before + "\"", after);
    DoubledConcat(before, "\"");
    assert Doubled("\"") == "\"\"" by {
      assert "\""[1..] == "";
    }
  }

  /** How far the closing quote is; two quotes in a row do not close. */
  function BodyLength(s: string): (n: Option<nat>)
    ensures n.Some? ==> n.value < |s|
    decreases |s|
  {
    if s == "" then None
    else if s[0] != '"' then Further(1, BodyLength(s[1..]))
    else if |s| > 1 && s[1] == '"' then Further(2, BodyLength(s[2..]))
    else Some(0)
  }

  function Further(k: nat, n: Option<nat>): Option<nat> {
    if n.None? then None else Some(k + n.value)
  }

  /** Two quotes in a row stand for one. */
  function Undoubled(body: string): string
    decreases |body|
  {
    if body == "" then ""
    else if body[0] == '"' && |body| > 1 then "\"" + Undoubled(body[2..])
    else [body[0]] + Undoubled(body[1..])
  }

  function ScanQuoted(s: string): Option<Scan<string>> {
    if !StartsWith(s, '"') then None
    else match BodyLength(s[1..])
      case None => None
      case Some(n) => Some(Scan(Undoubled(s[1..][..n]), s[1..][n + 1..]))
  }

  lemma {:induction false} BodyLengthOfDoubled(name: string, rest: string)
    requires !StartsWith(rest, '"')
    ensures BodyLength(Doubled(name) + ("\"" + rest)) == Some(|Doubled(name)|)
  {
    var closing := "\"" + rest;
    var s := Doubled(name) + closing;
    if name == "" {
      assert s == closing && closing[1..] == rest;
    } else {
      BodyLengthOfDoubled(name[1..], rest);
      var tail := Doubled(name[1..]) + closing;
      if name[0] == '"' {
        assert s[2..] == tail;
      } else {
        assert s[1..] == tail;
      }
    }
  }

  lemma {:induction false} UndoubledDoubled(name: string)
    ensures Undoubled(Doubled(name)) == name
  {
    if name != "" {
      UndoubledDoubled(name[1..]);
      var body := Doubled(name);
      if name[0] == '"' {
        assert body[2..] == Doubled(name[1..]);
      } else {
        assert body[1..] == Doubled(name[1..]);
      }
      assert name == [name[0]] + name[1..];
    }
  }

  /** A quoted identifier reads back as itself, quotes and all, whatever the identifier contains. */
  lemma QuoteReadsBack(name: string, rest: string)
    requires !StartsWith(rest, '"')
    ensures ScanQuoted(Quote(name) + rest) == Some(Scan(name, rest))
    ensures StartsWith(Quote(name) + rest, '"')
  {
    var body := Doubled(name);
    var inner := body + ("\"" + rest);
    BodyLengthOfDoubled(name, rest);
    UndoubledDoubled(name);
    assert (Quote(name) + rest)[1..] == inner;
    assert inner[..|body|] == body && inner[|body| + 1..] == rest;
  }

  // ---------------------------------------------------------------- integers

  predicate IsDigit(c: char) {
    '0' <= c <= '9'
  }

  function DigitOf(d: nat): char
    requires d < 10
    ensures IsDigit(DigitOf(d))
  {
    ('0' as int + d) as char
  }

  function DigitValue(c: char): nat
    requires IsDigit(c)
  {
    c as int - '0' as int
  }

  function PrintNat(n: nat): string {
    if n < 10 then [DigitOf(n)] else PrintNat(n / 10) + [DigitOf(n % 10)]
  }

  /** The %d verb. */
  function PrintInt(n: int): string {
    if n < 0 then "-" + PrintNat(-n) else PrintNat(n)
  }

  /** Decimal notation: the digits one by one, and a sign. */
  lemma PrintedInts(n: int, d: nat)
    requires d < 10
    ensures PrintInt(d) == [['0', '1', '2', '3', '4', '5', '6', '7', '8', '9'][d]]
    ensures n > 0 ==> PrintInt(10 * n + d) == PrintInt(n) + PrintInt(d) && PrintInt(-n) == "-" + PrintInt(n)
  {
  }

  predicate AllDigits(s: string) {
    forall c :: c in s ==> IsDigit(c)
  }

  function ValueOf(s: string): nat
    requires AllDigits(s)
  {
    if s == "" then 0 else 10 * ValueOf(s[..|s| - 1]) + DigitValue(s[|s| - 1])
  }

  function DigitsLength(s: string): (n: nat)
    ensures n <= |s| && AllDigits(s[..n])
  {
    if s == "" || !IsDigit(s[0]) then 0 else 1 + DigitsLength(s[1..])
  }

  function ScanNat(s: string): Option<Scan<nat>> {
    var n := DigitsLength(s);
    if n == 0 then None else Some(Scan(ValueOf(s[..n]), s[n..]))
  }

  function ScanInt(s: string): Option<Scan<int>> {
    if StartsWith(s, '-') then
      match ScanNat(s[1..])
      case None => None
      case Some(Scan(value, rest)) => var magnitude: int := value; Some(Scan(-magnitude, rest))
    else
      match ScanNat(s)
      case None => None
      case Some(Scan(value, rest)) => Some(Scan(value, rest))
  }

  lemma {:induction false} PrintNatValue(n: nat)
    ensures PrintNat(n) != "" && AllDigits(PrintNat(n)) && ValueOf(PrintNat(n)) == n
  {
    if n >= 10 {
      PrintNatValue(n / 10);
      assert PrintNat(n)[..|PrintNat(n)| - 1] == PrintNat(n / 10);
    } else {
      assert ValueOf([DigitOf(n)]) == 10 * ValueOf([DigitOf(n)][..0]) + n;
    }
  }

  lemma {:induction false} DigitsLengthOf(digits: string, rest: string)
    requires AllDigits(digits) && (rest == "" || !IsDigit(rest[0]))
    ensures DigitsLength(digits + rest) == |digits|
  {
    if digits == "" {
      assert digits + rest == rest;
    } else {
      assert (digits + rest)[1..] == digits[1..] + rest;
      DigitsLengthOf(digits[1..], rest);
    }
  }

  lemma NatReadsBack(n: nat, rest: string)
    requires rest == "" || !IsDigit(rest[0])
    ensures ScanNat(PrintNat(n) + rest) == Some(Scan(n, rest))
    ensures !StartsWith(PrintNat(n) + rest, '-')
  {
    PrintNatValue(n);
    DigitsLengthOf(PrintNat(n), rest);
    var s := PrintNat(n) + rest;
    assert s[..|PrintNat(n)|] == PrintNat(n) && s[|PrintNat(n)|..] == rest;
    assert s[0] == PrintNat(n)[0] && PrintNat(n)[0] in PrintNat(n);
  }

  /** A printed integer reads back, negative ones included. */
  lemma IntReadsBack(n: int, rest: string)
    requires rest == "" || !IsDigit(rest[0])
    ensures ScanInt(PrintInt(n) + rest) == Some(Scan(n, rest))
  {
    if n < 0 {
      var digits := PrintNat(-n) + rest;
      NatReadsBack(-n, rest);
      SignedText(PrintNat(-n), rest);
      assert PrintInt(n) + rest == "-" + digits;
    } else {
      NatReadsBack(n, rest);
    }
  }

  lemma SignedText(digits: string, rest: string)
    ensures ("-" + digits) + rest == "-" + (digits + rest)
    ensures StartsWith("-" + (digits + rest), '-') && ("-" + (digits + rest))[1..] == digits + rest
  {
  }

  // ---------------------------------------------------------------- words and blanks

  predicate IsWordStart(c: char) {
    'a' <= c <= 'z' || 'A' <= c <= 'Z' || c == '_'
  }

  predicate IsWordChar(c: char) {
    IsWordStart(c) || IsDigit(c)
  }

  lemma WordChars(c: char)
    ensures IsWordStart(c) <==> 'a' <= c <= 'z' || 'A' <= c <= 'Z' || c == '_'
    ensures IsWordChar(c) <==> 'a' <= c <= 'z' || 'A' <= c <= 'Z' || c == '_' || '0' <= c <= '9'
  {
  }

  /** The pattern [a-zA-Z_][a-zA-Z0-9_]*. */
  predicate IsWord(s: string) {
    s != "" && IsWordStart(s[0]) && forall c :: c in s ==> IsWordChar(c)
  }

  /** How many word characters a text starts with. */
  function WordLength(s: string): (n: nat)
    ensures n <= |s| && (forall i :: 0 <= i < n ==> IsWordChar(s[i]))
    ensures n < |s| ==> !IsWordChar(s[n])
  {
    if s == "" || !IsWordChar(s[0]) then 0 else 1 + WordLength(s[1..])
  }

  function Blank(n: nat): (s: string)
    ensures |s| == n && forall i :: 0 <= i < n ==> s[i] == ' '
  {
    seq(n, _ => ' ')
  }

  /** How many blanks a text starts with. */
  function Blanks(s: string): (n: nat)
    ensures n <= |s| && (forall i :: 0 <= i < n ==> s[i] == ' ')
    ensures n < |s| ==> s[n] != ' '
  {
    if s == "" || s[0] != ' ' then 0 else 1 + Blanks(s[1..])
  }

  lemma WordLengthOf(word: string, rest: string)
    requires (forall c :: c in word ==> IsWordChar(c)) && (rest == "" || !IsWordChar(rest[0]))
    ensures WordLength(word + rest) == |word|
    ensures (word + rest)[..|word|] == word && (word + rest)[|word|..] == rest
  {
    var s := word + rest;
    assert forall i :: 0 <= i < |word| ==> s[i] == word[i] && word[i] in word;
    assert rest != "" ==> s[|word|] == rest[0];
  }

  lemma BlanksOf(n: nat, rest: string)
    requires !StartsWith(rest, ' ')
    ensures Blanks(Blank(n) + rest) == n && (Blank(n) + rest)[n..] == rest
  {
    var s := Blank(n) + rest;
    assert forall i :: 0 <= i < n ==> s[i] == ' ';
    assert rest != "" ==> s[n] == rest[0];
  }

  /** A text is its leading blanks and the rest. */
  lemma BlanksFirst(s: string)
    ensures s == Blank(Blanks(s)) + s[Blanks(s)..]
  {
  }
}
