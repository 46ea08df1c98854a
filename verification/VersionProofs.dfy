/** Reading back what was printed, and what order the packed comparison is. */
module VersionProofs {
  import opened Words
  import opened VersionSpec

  // ---------- round trip ----------

  predicate AllDecimal(s: string) {
    forall k :: 0 <= k < |s| ==> '0' <= s[k] <= '9'
  }

  lemma {:induction false} ScanAppend(a: string, b: string, base: nat, acc: nat)
    requires forall k :: 0 <= k < |a| ==> Digit(a[k]) < base
    ensures Scan(a + b, base, acc) == Scan(b, base, Scan(a, base, acc))
  {
    if a == [] {
      assert a + b == b;
    } else {
      assert (a + b)[0] == a[0] && (a + b)[1..] == a[1..] + b;
      ScanAppend(a[1..], b, base, acc * base + Digit(a[0]));
    }
  }

  /** A number prints as decimal digits with no leading zero, and reads back in base 10. */
  lemma {:induction false} DecimalReadsBack(n: nat)
    ensures AllDecimal(Decimal(n))
    ensures n > 0 ==> Decimal(n)[0] != '0'
    ensures Scan(Decimal(n), 10, 0) == n
  {
    if n >= 10 {
      DecimalReadsBack(n / 10);
      ScanAppend(Decimal(n / 10), ['0' + (n % 10) as char], 10, 0);
    }
  }

  lemma StrToUlDecimal(platform: Platform, n: u16)
    ensures StrToUl(platform, Decimal(n)) == Value(n)
  {
    DecimalReadsBack(n);
    var s := Decimal(n);
    assert '0' <= s[0] <= '9';
    assert SkipSpace(s) == s;
    if n == 0 {
      assert s == ['0'];
      assert Scan(s[1..], 8, 0) == 0;
    }
  }

  lemma {:induction false} TokenLengthOfPrefix(a: string, b: string)
    requires '.' !in a
    ensures TokenLength(a + "." + b) == |a| && TokenLength(a) == |a|
  {
    if a == [] {
      assert a + "." + b == "." + b;
    } else {
      assert (a + "." + b)[1..] == a[1..] + "." + b;
      TokenLengthOfPrefix(a[1..], b);
    }
  }

  lemma TokensOfPrinted(d: string, rest: string)
    requires d != [] && '.' !in d
    ensures Tokens(d) == [d] && Tokens(d + "." + rest) == [d] + Tokens(rest)
  {
    TokenLengthOfPrefix(d, rest);
    var s := d + "." + rest;
    assert s[..|d|] == d && s[|d| + 1..] == rest;
    assert AfterToken(d) == [] && d[..|d|] == d;
  }

  lemma ParseStep(platform: Platform, n: u16, tokens: seq<string>, room: nat)
    requires room > 0 && ParseTokens(platform, tokens, room - 1).Revs?
    ensures ParseTokens(platform, [Decimal(n)] + tokens, room)
         == Revs([n] + ParseTokens(platform, tokens, room - 1).revs)
  {
    StrToUlDecimal(platform, n);
    assert ([Decimal(n)] + tokens)[1..] == tokens;
  }

  /** The decimal form of each revision. */
  function Decimals(revs: Revisions): seq<string> {
    if revs == [] then [] else [Decimal(revs[0])] + Decimals(revs[1..])
  }

  lemma {:induction false} TokensOfPrint(revs: Revisions)
    ensures Tokens(Print(revs)) == Decimals(revs)
  {
    if revs != [] {
      DecimalReadsBack(revs[0]);
      assert '.' !in Decimal(revs[0]);
      TokensOfPrinted(Decimal(revs[0]), Print(revs[1..]));
      TokensOfPrint(revs[1..]);
    }
  }

  lemma {:induction false} DecimalsParse(platform: Platform, revs: Revisions, room: nat)
    ensures ParseTokens(platform, Decimals(revs), room) == Revs(FirstOf(revs, room))
  {
    if revs != [] && room > 0 {
      DecimalsParse(platform, revs[1..], room - 1);
      ParseStep(platform, revs[0], Decimals(revs[1..]), room);
      assert FirstOf(revs, room) == [revs[0]] + FirstOf(revs[1..], room - 1);
    }
  }

  function FirstOf(revs: Revisions, n: nat): Revisions {
    if |revs| <= n then revs else revs[..n]
  }

  /** Reading what was printed gives the version back, cut to the four revisions a version can hold. */
  lemma RoundTrip(platform: Platform, revs: Revisions)
    ensures Parse(platform, Print(revs)) == FirstOf(revs, MAX_REVISIONS)
  {
    TokensOfPrint(revs);
    DecimalsParse(platform, revs, MAX_REVISIONS);
  }

  lemma {:induction false} ParseTokensBounded(platform: Platform, tokens: seq<string>, room: nat)
    ensures var p := ParseTokens(platform, tokens, room); p.Revs? ==> |p.revs| <= room
  {
    if tokens != [] && room > 0 {
      ParseTokensBounded(platform, tokens[1..], room - 1);
    }
  }

  /** Printing is canonical: any text and the printed form of what it was read as are read alike. */
  lemma PrintIsCanonical(platform: Platform, s: string)
    ensures Parse(platform, Print(Parse(platform, s))) == Parse(platform, s)
  {
    ParseTokensBounded(platform, Tokens(s), MAX_REVISIONS);
    RoundTrip(platform, Parse(platform, s));
  }

  // ---------- order ----------

  /** The number whose base-65536 digits are the revisions. */
  function Big(revs: Revisions): (v: nat) {
    if revs == [] then 0 else Big(revs[..|revs| - 1]) * 0x1_0000 + revs[|revs| - 1]
  }

  lemma {:induction false} PackAppend(revs: Revisions, last: u16, word: nat)
    ensures Pack(revs + [last], word) == Shift(Pack(revs, word), last)
  {
    if revs == [] {
      assert ([] + [last])[1..] == [];
    } else {
      assert (revs + [last])[1..] == revs[1..] + [last];
      PackAppend(revs[1..], last, Shift(word, revs[0]));
    }
  }

  lemma BigAppend(front: Revisions, last: u16)
    ensures Big(front + [last]) == Big(front) * 0x1_0000 + last
  {
    assert (front + [last])[..|front|] == front;
  }

  lemma BigOfFour(revs: Revisions)
    requires |revs| == 4
    ensures Big(revs) % TWO_TO_THE_48 == Big(revs[1..])
  {
    var a, b, c, d := revs[0], revs[1], revs[2], revs[3];
    BigAppend([], a);
    BigAppend([a], b);
    BigAppend([a] + [b], c);
    BigAppend([a] + [b] + [c], d);
    BigAppend([], b);
    BigAppend([b], c);
    BigAppend([b] + [c], d);
    assert revs == [a] + [b] + [c] + [d] && revs[1..] == [b] + [c] + [d];
    assert [] + [a] == [a] && [] + [b] == [b];
  }

  /** The 64-bit word holds the number the last four revisions spell. */
  lemma {:induction false} PackIsBig(revs: Revisions)
    ensures Pack(revs, 0) == Big(LastFour(revs)) < 0x1_0000_0000_0000_0000
  {
    if revs != [] {
      var front, last := revs[..|revs| - 1], revs[|revs| - 1];
      assert revs == front + [last];
      PackIsBig(front);
      PackAppend(front, last, 0);
      var kept := if |front| >= 4 then LastFour(front)[1..] else front;
      assert Big(LastFour(front)) % TWO_TO_THE_48 == Big(kept) by {
        if |front| >= 4 { BigOfFour(LastFour(front)); } else { BigBound(front); }
      }
      assert LastFour(revs) == kept + [last];
      BigBound(LastFour(revs));
    }
  }

  lemma BigBound(revs: Revisions)
    requires |revs| <= 4
    ensures Big(revs) < if |revs| <= 3 then TWO_TO_THE_48 else 0x1_0000_0000_0000_0000
  {
    if |revs| > 0 {
      var t := revs[..|revs| - 1];
      if |t| > 0 {
        var u := t[..|t| - 1];
        if |u| > 0 { assert |u[..|u| - 1]| <= 1; }
      }
    }
  }

  lemma {:induction false} LexAppend(a: Revisions, b: Revisions, x: u16, y: u16)
    requires |a| == |b|
    ensures Lex(a + [x], b + [y]) == if Lex(a, b) != 0 then Lex(a, b) else Sign(x, y)
  {
    if a == [] {
      assert ([x] + [])[1..] == [] && Lex([x][1..], [y][1..]) == 0;
      assert a + [x] == [x] && b + [y] == [y];
    } else {
      assert (a + [x])[1..] == a[1..] + [x] && (b + [y])[1..] == b[1..] + [y];
      LexAppend(a[1..], b[1..], x, y);
    }
  }

  lemma {:induction false} BigIsLex(a: Revisions, b: Revisions)
    requires |a| == |b|
    ensures Sign(Big(a), Big(b)) == Lex(a, b)
  {
    if a != [] {
      var n := |a| - 1;
      assert a == a[..n] + [a[n]] && b == b[..n] + [b[n]];
      BigIsLex(a[..n], b[..n]);
      LexAppend(a[..n], b[..n], a[n], b[n]);
    }
  }

  /** Up to 65536 revisions the argument is cut or zero-padded to this version's length. */
  lemma AlignedIsPadded(param: Revisions, n: nat)
    requires n <= 0x1_0000
    ensures Aligned(param, n) == if n <= |param| then param[..n] else param + Zeros(n - |param|)
  {
  }

  /** For lists of every length the packed comparison is the lexicographic order of the last four
      revisions of this version and of those they are compared with: the argument, cut or zero-padded to
      this version's length, as long as the 16-bit index does not wrap. */
  lemma CompareIsLex(revs: Revisions, param: Revisions)
    ensures Compare(revs, param) == Lex(LastFour(revs), LastFour(Aligned(param, |revs|)))
    ensures |revs| <= 0x1_0000 ==>
              Aligned(param, |revs|)
              == if |revs| <= |param| then param[..|revs|] else param + Zeros(|revs| - |param|)
  {
    PackIsBig(revs);
    PackIsBig(Aligned(param, |revs|));
    BigIsLex(LastFour(revs), LastFour(Aligned(param, |revs|)));
    if |revs| <= 0x1_0000 { AlignedIsPadded(param, |revs|); }
  }

  lemma {:induction false} LexZero(a: Revisions, b: Revisions)
    requires |a| == |b|
    ensures Lex(a, b) == 0 <==> a == b
    ensures Lex(b, a) == -Lex(a, b)
  {
    if a != [] {
      LexZero(a[1..], b[1..]);
      assert a == [a[0]] + a[1..] && b == [b[0]] + b[1..];
    }
  }

  lemma {:induction false} LexOfConcat(a: Revisions, b: Revisions, c: Revisions, d: Revisions)
    requires |a| == |b| && |c| == |d|
    ensures Lex(a + c, b + d) == if Lex(a, b) != 0 then Lex(a, b) else Lex(c, d)
  {
    if a == [] {
      assert a + c == c && b + d == d;
    } else {
      assert (a + c)[1..] == a[1..] + c && (b + d)[1..] == b[1..] + d;
      LexOfConcat(a[1..], b[1..], c, d);
    }
  }

  /** Swapping the operands flips the sign exactly when the common part differs or the longer
      version continues with zeros only; otherwise `compare` calls the shorter version equal. */
  lemma CompareFlips(a: Revisions, b: Revisions)
    requires |a| <= |b| <= MAX_REVISIONS
    ensures Compare(a, b) == -Compare(b, a)
            <==> (a != b[..|a|] || forall k :: |a| <= k < |b| ==> b[k] == 0)
  {
    CompareIsLex(a, b);
    CompareIsLex(b, a);
    var tail, zeros := b[|a|..], Zeros(|b| - |a|);
    assert Aligned(b, |a|) == b[..|a|];
    assert b == b[..|a|] + tail && Aligned(a, |b|) == a + zeros;
    LexOfConcat(b[..|a|], a, tail, zeros);
    LexZero(a, b[..|a|]);
    LexZero(tail, zeros);
    assert tail == zeros <==> forall k :: |a| <= k < |b| ==> b[k] == 0 by {
      if tail == zeros {
        forall k | |a| <= k < |b| ensures b[k] == 0 { assert b[k] == tail[k - |a|]; }
      }
    }
  }

  /** Among versions of one length of at most four revisions, `compare` is a total order. */
  lemma CompareOrders(a: Revisions, b: Revisions, c: Revisions)
    requires |a| == |b| == |c| <= MAX_REVISIONS
    ensures Compare(a, b) == 0 <==> a == b
    ensures Compare(a, b) == -Compare(b, a)
    ensures Compare(a, b) >= 0 && Compare(b, c) >= 0 ==> Compare(a, c) >= 0
  {
    CompareIsLex(a, b);
    CompareIsLex(b, a);
    LexZero(a, b);
    assert Aligned(a, |b|) == a && Aligned(b, |a|) == b;
    assert Aligned(c, |b|) == c && Aligned(c, |a|) == c;
  }

  // ---------- what the sign means ----------

  /** The lists differ at i and not before. */
  ghost predicate DifferAt(a: Revisions, b: Revisions, i: nat)
    requires |a| == |b|
  {
    i < |a| && a[i] != b[i] && forall j :: 0 <= j < i ==> a[j] == b[j]
  }

  /** Different lists are decided at their first difference. */
  lemma {:induction false} LexFirst(a: Revisions, b: Revisions) returns (i: nat)
    requires |a| == |b| && a != b
    ensures DifferAt(a, b, i) && Lex(a, b) == if a[i] > b[i] then 1 else -1
  {
    if a[0] != b[0] {
      i := 0;
    } else {
      var a', b' := a[1..], b[1..];
      assert a == [a[0]] + a' && b == [b[0]] + b';
      var k := LexFirst(a', b');
      i := k + 1;
      forall j | 0 <= j < i ensures a[j] == b[j] {
        if j > 0 { assert a'[j - 1] == b'[j - 1]; }
      }
    }
  }

  /** What is compared with: in each place the argument's revision, zero where it has none, the place
      counted in 16 bits. */
  lemma AlignedExactly(param: Revisions, n: nat)
    ensures var against := Aligned(param, n);
            |against| == n
            && forall k :: 0 <= k < n ==>
                 against[k] == if k % 0x1_0000 < |param| then param[k % 0x1_0000] else 0
  {
  }

  /** The first difference among the last four places is in the k-th. */
  ghost predicate FirstDifference(revs: Revisions, against: Revisions, k: nat)
    requires |revs| == |against|
  {
    |revs| - 4 <= k < |revs| && revs[k] != against[k]
    && forall j: nat :: |revs| - 4 <= j < k ==> revs[j] == against[j]
  }

  ghost predicate HigherAt(revs: Revisions, against: Revisions, k: nat)
    requires |revs| == |against|
  {
    FirstDifference(revs, against, k) && revs[k] > against[k]
  }

  ghost predicate LowerAt(revs: Revisions, against: Revisions, k: nat)
    requires |revs| == |against|
  {
    FirstDifference(revs, against, k) && revs[k] < against[k]
  }

  lemma LastPlace(revs: Revisions, i: nat)
    requires i < |LastFour(revs)|
    ensures |LastFour(revs)| <= |revs| && LastFour(revs)[i] == revs[|revs| - |LastFour(revs)| + i]
  {
  }

  lemma PlaceOf(revs: Revisions, against: Revisions, i: nat)
    requires |revs| == |against| && DifferAt(LastFour(revs), LastFour(against), i)
    ensures var k := |revs| - |LastFour(revs)| + i;
            FirstDifference(revs, against, k)
            && revs[k] == LastFour(revs)[i] && against[k] == LastFour(against)[i]
  {
    var from := |revs| - |LastFour(revs)|;
    LastPlace(revs, i);
    LastPlace(against, i);
    forall j: nat | |revs| - 4 <= j < from + i ensures revs[j] == against[j] {
      LastPlace(revs, j - from);
      LastPlace(against, j - from);
    }
  }

  lemma NoDifference(revs: Revisions, against: Revisions)
    requires |revs| == |against| && LastFour(revs) == LastFour(against)
    ensures forall k: nat :: !FirstDifference(revs, against, k)
  {
    var from := |revs| - |LastFour(revs)|;
    forall k: nat | |revs| - 4 <= k < |revs| ensures revs[k] == against[k] {
      LastPlace(revs, k - from);
      LastPlace(against, k - from);
    }
  }

  lemma LexByPlaces(revs: Revisions, against: Revisions)
    requires |revs| == |against|
    ensures var order := Lex(LastFour(revs), LastFour(against));
            && (order == 1 <==> exists k: nat :: HigherAt(revs, against, k))
            && (order == -1 <==> exists k: nat :: LowerAt(revs, against, k))
            && (order == 0 <==> forall k: nat :: !FirstDifference(revs, against, k))
  {
    LexZero(LastFour(revs), LastFour(against));
    if LastFour(revs) == LastFour(against) {
      NoDifference(revs, against);
    } else {
      var i := LexFirst(LastFour(revs), LastFour(against));
      PlaceOf(revs, against, i);
      DecidedAt(revs, against, |revs| - |LastFour(revs)| + i);
    }
  }

  /** `compare` gives 1 if this version is higher at the first difference, -1 if it is lower there, and 0 if
      there is none. */
  lemma CompareMeans(revs: Revisions, param: Revisions)
    ensures var against := Aligned(param, |revs|);
            && (Compare(revs, param) == 1 <==> exists k: nat :: HigherAt(revs, against, k))
            && (Compare(revs, param) == -1 <==> exists k: nat :: LowerAt(revs, against, k))
            && (Compare(revs, param) == 0 <==> forall k: nat :: !FirstDifference(revs, against, k))
  {
    CompareIsLex(revs, param);
    LexByPlaces(revs, Aligned(param, |revs|));
  }

  /** The first difference decides alone. */
  lemma DecidedAt(revs: Revisions, against: Revisions, k: nat)
    requires |revs| == |against| && FirstDifference(revs, against, k)
    ensures (exists j: nat :: HigherAt(revs, against, j)) <==> revs[k] > against[k]
    ensures (exists j: nat :: LowerAt(revs, against, j)) <==> revs[k] < against[k]
  {
    forall j: nat | FirstDifference(revs, against, j) ensures j == k { OneFirst(revs, against, j, k); }
    assert HigherAt(revs, against, k) || LowerAt(revs, against, k);
  }

  lemma OneFirst(revs: Revisions, against: Revisions, k: nat, j: nat)
    requires |revs| == |against| && FirstDifference(revs, against, k) && FirstDifference(revs, against, j)
    ensures k == j
  {
  }
}
