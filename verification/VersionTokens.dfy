/** How the text of a version is read: its tokens, their bases and signs, and what becomes of one that is
    out of range. */
module VersionTokens {
  import opened Words
  import opened VersionSpec
  import opened VersionProofs

  // ---------- the tokens of a text ----------

  function Join(tokens: seq<string>): string {
    if tokens == [] then []
    else if |tokens| == 1 then tokens[0]
    else tokens[0] + "." + Join(tokens[1..])
  }

  lemma TokenFirst(d: string, rest: string)
    requires '.' !in d
    ensures Tokens(d + "." + rest) == [d] + Tokens(rest)
    ensures d != [] ==> Tokens(d) == [d]
  {
    TokenLengthOfPrefix(d, rest);
    var s := d + "." + rest;
    assert s[..|d|] == d && s[|d| + 1..] == rest;
    if d != [] { assert AfterToken(d) == [] && d[..|d|] == d; }
  }

  /** An empty last token is no token. */
  function WithoutEmptyEnd(tokens: seq<string>): seq<string> {
    if tokens != [] && tokens[|tokens| - 1] == [] then tokens[..|tokens| - 1] else tokens
  }

  lemma EmptyEndOfMore(d: string, rest: seq<string>)
    requires rest != []
    ensures WithoutEmptyEnd([d] + rest) == [d] + WithoutEmptyEnd(rest)
  {
    assert ([d] + rest)[..|rest|] == [d] + rest[..|rest| - 1];
  }

  /** Texts are cut at their dots, empty parts included, but for an empty one at the end. */
  lemma {:induction false} TokensOfJoin(tokens: seq<string>)
    requires forall t :: t in tokens ==> '.' !in t
    ensures Tokens(Join(tokens)) == WithoutEmptyEnd(tokens)
  {
    if tokens != [] {
      var d, rest := tokens[0], tokens[1..];
      assert tokens == [d] + rest;
      if rest == [] {
        TokenFirst(d, []);
      } else {
        TokenFirst(d, Join(rest));
        TokensOfJoin(rest);
        EmptyEndOfMore(d, rest);
      }
    }
  }

  // ---------- the printed form ----------

  function Numerals(revs: Revisions): seq<string> {
    if revs == [] then [] else [Numeral(revs[0], 10, false)] + Numerals(revs[1..])
  }

  lemma {:induction false} DecimalIsNumeral(n: nat)
    ensures Decimal(n) == Numeral(n, 10, false)
  {
    if n >= 10 { DecimalIsNumeral(n / 10); }
  }

  /** A version is printed as its decimal numerals, with no leading zeros, joined by dots. */
  lemma {:induction false} PrintExactly(revs: Revisions)
    ensures Print(revs) == Join(Numerals(revs))
  {
    if revs != [] {
      DecimalIsNumeral(revs[0]);
      PrintExactly(revs[1..]);
      assert Numerals(revs)[1..] == Numerals(revs[1..]);
    }
  }

  // ---------- the revisions of the tokens ----------

  ghost predicate OneOutOfRange(platform: Platform, tokens: seq<string>, n: nat) {
    exists k :: 0 <= k < n && k < |tokens| && StrToUl(platform, tokens[k]).OutOfRange?
  }

  lemma OutOfRangeTail(platform: Platform, tokens: seq<string>, n: nat)
    requires tokens != [] && n > 0
    ensures OneOutOfRange(platform, tokens, n)
            <==> StrToUl(platform, tokens[0]).OutOfRange? || OneOutOfRange(platform, tokens[1..], n - 1)
  {
    var rest := tokens[1..];
    if k :| 0 <= k < n - 1 && k < |rest| && StrToUl(platform, rest[k]).OutOfRange? {
      assert StrToUl(platform, tokens[k + 1]).OutOfRange?;
    }
    if k :| 0 < k < n && k < |tokens| && StrToUl(platform, tokens[k]).OutOfRange? {
      assert rest[k - 1] == tokens[k];
    }
  }

  ghost predicate ReadFrom(platform: Platform, tokens: seq<string>, revs: Revisions) {
    |revs| <= |tokens| && forall k :: 0 <= k < |revs| ==> RevisionOf(StrToUl(platform, tokens[k]), revs[k])
  }

  /** The revision a conversion gives: its lower 16 bits. */
  predicate RevisionOf(c: Conversion, revision: u16) { c.Value? && revision == c.ul % 0x1_0000 }

  lemma {:induction false} TokensRead(platform: Platform, tokens: seq<string>, room: nat)
    ensures var p := ParseTokens(platform, tokens, room);
            if OneOutOfRange(platform, tokens, room) then p == Rejected
            else p.Revs? && |p.revs| == (if |tokens| <= room then |tokens| else room)
                 && ReadFrom(platform, tokens, p.revs)
    decreases |tokens|
  {
    if tokens != [] && room > 0 {
      var rest := tokens[1..];
      TokensRead(platform, rest, room - 1);
      OutOfRangeTail(platform, tokens, room);
      var first, more := StrToUl(platform, tokens[0]), ParseTokens(platform, rest, room - 1);
      if first.Value? && more.Revs? { ReadOneMore(platform, tokens, U16(first.ul), more.revs); }
    }
  }

  lemma ReadOneMore(platform: Platform, tokens: seq<string>, revision: u16, revs: Revisions)
    requires tokens != [] && RevisionOf(StrToUl(platform, tokens[0]), revision) && ReadFrom(platform, tokens[1..], revs)
    ensures ReadFrom(platform, tokens, [revision] + revs)
  {
    var all := [revision] + revs;
    forall k | 0 <= k < |all| ensures RevisionOf(StrToUl(platform, tokens[k]), all[k]) {
      if k > 0 { assert tokens[1..][k - 1] == tokens[k]; }
    }
  }

  /** Reading a text: the first four tokens give the revisions, each cut to 16 bits, unless one of them is
      out of range, which leaves no revision at all. */
  lemma ParseExactly(platform: Platform, s: string)
    ensures var tokens, revs := Tokens(s), Parse(platform, s);
            if OneOutOfRange(platform, tokens, 4) then revs == []
            else |revs| == (if |tokens| <= 4 then |tokens| else 4) && ReadFrom(platform, tokens, revs)
  {
    TokensRead(platform, Tokens(s), MAX_REVISIONS);
  }

  // ---------- one token ----------

  function DigitChar(d: nat, upper: bool): char
    requires d < 16
  {
    if d < 10 then '0' + d as char else if upper then 'A' + (d - 10) as char else 'a' + (d - 10) as char
  }

  /** A number in some base, with no leading zero. */
  function Numeral(n: nat, base: nat, upper: bool): (s: string)
    requires 2 <= base <= 16
    ensures s != []
  {
    if n < base then [DigitChar(n, upper)]
    else Numeral(n / base, base, upper) + [DigitChar(n % base, upper)]
  }

  predicate DigitsOf(s: string, base: nat) { forall k :: 0 <= k < |s| ==> Digit(s[k]) < base }

  lemma Quotient(n: nat, base: nat)
    requires 2 <= base <= n
    ensures 0 < n / base < n && n / base * base + n % base == n
  {
    var q := n / base;
    assert n == q * base + n % base && q * base >= q * 2;
  }

  lemma OneDigit(d: nat, base: nat, upper: bool, acc: nat)
    requires d < base <= 16
    ensures Digit(DigitChar(d, upper)) == d && Scan([DigitChar(d, upper)], base, acc) == acc * base + d
  {
    assert [DigitChar(d, upper)][1..] == [];
  }

  lemma {:induction false} NumeralReads(n: nat, base: nat, upper: bool)
    requires 2 <= base <= 16
    ensures DigitsOf(Numeral(n, base, upper), base)
    ensures Scan(Numeral(n, base, upper), base, 0) == n
    ensures n > 0 ==> Numeral(n, base, upper)[0] != '0'
    decreases n
  {
    if n < base {
      OneDigit(n, base, upper, 0);
    } else {
      Quotient(n, base);
      var front, r := Numeral(n / base, base, upper), n % base;
      NumeralReads(n / base, base, upper);
      OneDigit(r, base, upper, n / base);
      ScanAppend(front, [DigitChar(r, upper)], base, 0);
    }
  }

  /** White space: blank, tab, line feed, vertical tab, form feed and carriage return. */
  const WHITE_SPACE: seq<char> := [' ', '\t', '\n', 11 as char, 12 as char, '\r']

  lemma SpacesAre(c: char)
    ensures IsSpace(c) <==> c in WHITE_SPACE
  {
    var spaces := WHITE_SPACE;
    assert spaces[0] == ' ' && spaces[1] == 9 as char && spaces[2] == 10 as char;
    assert spaces[3] == 11 as char && spaces[4] == 12 as char && spaces[5] == 13 as char;
    var n := c as int;
    assert c == n as char;
  }

  /** A token that starts with neither white space nor a sign. */
  ghost predicate Plain(t: string) {
    t != [] && t[0] !in WHITE_SPACE && t[0] != '-' && t[0] != '+'
  }

  /** What follows the digits does not matter. */
  lemma ScanStops(a: string, b: string, base: nat, acc: nat)
    requires DigitsOf(a, base) && (b == [] || Digit(b[0]) >= base)
    ensures Scan(a + b, base, acc) == Scan(a, base, acc)
  {
    ScanAppend(a, b, base, acc);
  }

  /** How many values an `unsigned long` has. */
  function Values(platform: Platform): nat {
    if platform == ILP32 then 0x1_0000_0000 else 0x1_0000_0000_0000_0000
  }

  ghost function InRange(platform: Platform, n: nat): Conversion {
    if n < Values(platform) then Value(n) else OutOfRange
  }

  lemma HexPrefix(x: char, digits: string)
    requires (x == 'x' || x == 'X') && digits != [] && Digit(digits[0]) < 16
    ensures ScanAnyBase("0" + [x] + digits) == Scan(digits, 16, 0)
  {
    var t := "0" + [x] + digits;
    assert t[2..] == digits && t[0] == '0' && t[1] == x && t[2] == digits[0];
  }

  lemma Unsigned(platform: Platform, t: string)
    requires Plain(t)
    ensures StrToUl(platform, t) == InRange(platform, ScanAnyBase(t))
  {
    SpacesAre(t[0]);
    assert SkipSpace(t) == t;
  }

  lemma HexReads(platform: Platform, n: nat, upper: bool, x: char, rest: string)
    requires (x == 'x' || x == 'X') && (rest == [] || Digit(rest[0]) >= 16)
    ensures StrToUl(platform, "0" + [x] + (Numeral(n, 16, upper) + rest)) == InRange(platform, n)
  {
    NumeralReads(n, 16, upper);
    ScanStops(Numeral(n, 16, upper), rest, 16, 0);
    var digits := Numeral(n, 16, upper) + rest;
    assert digits[0] == Numeral(n, 16, upper)[0];
    HexPrefix(x, digits);
    Unsigned(platform, "0" + [x] + digits);
  }

  lemma OctalPrefix(digits: string)
    requires digits != [] && Digit(digits[0]) < 8
    ensures ScanAnyBase("0" + digits) == Scan(digits, 8, 0)
  {
    var t := "0" + digits;
    assert t[1..] == digits && t[0] == '0' && t[1] == digits[0];
  }

  lemma OctalReads(platform: Platform, n: nat, upper: bool, rest: string)
    requires rest == [] || Digit(rest[0]) >= 8
    ensures StrToUl(platform, "0" + (Numeral(n, 8, upper) + rest)) == InRange(platform, n)
  {
    NumeralReads(n, 8, upper);
    ScanStops(Numeral(n, 8, upper), rest, 8, 0);
    var digits := Numeral(n, 8, upper) + rest;
    assert digits[0] == Numeral(n, 8, upper)[0];
    OctalPrefix(digits);
    Unsigned(platform, "0" + digits);
  }

  lemma DecimalReads(platform: Platform, n: nat, upper: bool, rest: string)
    requires n > 0 && (rest == [] || Digit(rest[0]) >= 10)
    ensures StrToUl(platform, Numeral(n, 10, upper) + rest) == InRange(platform, n)
  {
    NumeralReads(n, 10, upper);
    ScanStops(Numeral(n, 10, upper), rest, 10, 0);
    var t := Numeral(n, 10, upper) + rest;
    assert Digit(t[0]) < 10 && t[0] != '0';
  }

  /** Numbers are read in hexadecimal behind "0x" or "0X", in octal behind a zero, in decimal otherwise,
      up to the first character that is no digit there, and must be a value of the platform's `unsigned long`. */
  lemma BasesRead(platform: Platform, n: nat, upper: bool, x: char, rest: string)
    requires n > 0 && (x == 'x' || x == 'X')
    ensures rest == [] || Digit(rest[0]) >= 16 ==>
              StrToUl(platform, "0" + [x] + (Numeral(n, 16, upper) + rest)) == InRange(platform, n)
    ensures rest == [] || Digit(rest[0]) >= 8 ==>
              StrToUl(platform, "0" + (Numeral(n, 8, upper) + rest)) == InRange(platform, n)
    ensures rest == [] || Digit(rest[0]) >= 10 ==>
              StrToUl(platform, Numeral(n, 10, upper) + rest) == InRange(platform, n)
  {
    if rest == [] || Digit(rest[0]) >= 16 { HexReads(platform, n, upper, x, rest); }
    if rest == [] || Digit(rest[0]) >= 8 { OctalReads(platform, n, upper, rest); }
    if rest == [] || Digit(rest[0]) >= 10 { DecimalReads(platform, n, upper, rest); }
  }

  /** White space is skipped; a plus sign changes nothing, a minus sign the value to its negative in the
      platform's width. */
  lemma SignsRead(platform: Platform, t: string, space: char)
    requires Plain(t) && space in WHITE_SPACE
    ensures StrToUl(platform, [space] + t) == StrToUl(platform, t)
    ensures StrToUl(platform, "+" + t) == StrToUl(platform, t)
    ensures StrToUl(platform, "-" + t)
         == match StrToUl(platform, t)
            case OutOfRange => OutOfRange
            case Value(ul) => Value(if ul == 0 then 0 else Values(platform) - ul)
  {
    SpacesAre(space);
    SpacesAre(t[0]);
    assert ([space] + t)[1..] == t && ("+" + t)[1..] == t && ("-" + t)[1..] == t;
    assert SkipSpace(t) == t;
  }

  /** A token with no digits reads as zero. */
  lemma NoDigitsRead(platform: Platform, t: string)
    requires t == [] || (Plain(t) && Digit(t[0]) >= 10)
    ensures StrToUl(platform, t) == Value(0)
  {
    if t != [] { SpacesAre(t[0]); }
  }
}
