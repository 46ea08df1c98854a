/** What `ctrlm_version_t` reads, prints and compares: the functions its three loops are proved against. */
module VersionSpec {
  import opened Words

  type Revisions = seq<u16>

  const MAX_REVISIONS := 4

  /** The width of `unsigned long`, which bounds what `strtoul` accepts. */
  datatype Platform = ILP32 | LP64 {
    function UlongModulus(): (m: nat)
      ensures m >= 0x1_0000_0000 && m % 0x1_0000 == 0
    {
      if ILP32? then 0x1_0000_0000 else 0x1_0000_0000_0000_0000
    }
  }

  // ---------- std::getline with '.' as the delimiter ----------

  /** The number of characters before the first '.', or before the end. */
  function TokenLength(s: string): (n: nat)
    ensures n <= |s|
    ensures '.' !in s[..n]
    ensures n < |s| ==> s[n] == '.'
  {
    if s == [] || s[0] == '.' then 0 else 1 + TokenLength(s[1..])
  }

  /** What is left after one token and its delimiter have been extracted. */
  function AfterToken(s: string): (rest: string)
    requires s != []
    ensures |rest| < |s|
  {
    var n := TokenLength(s);
    if n == |s| then [] else s[n + 1..]
  }

  /** The tokens successive `getline` calls extract; extraction fails once nothing is left. */
  function Tokens(s: string): seq<string>
    decreases |s|
  {
    if s == [] then [] else [s[..TokenLength(s)]] + Tokens(AfterToken(s))
  }

  // ---------- strtoul with base 0 ----------

  datatype Conversion = Value(ul: nat) | OutOfRange

  predicate IsSpace(c: char) { c == ' ' || '\t' <= c <= '\r' }

  /** The value of a digit, 36 for a character that is no digit in any base. */
  function Digit(c: char): (d: nat)
  {
    if '0' <= c <= '9' then (c - '0') as int
    else if 'a' <= c <= 'z' then (c - 'a') as int + 10
    else if 'A' <= c <= 'Z' then (c - 'A') as int + 10
    else 36
  }

  function SkipSpace(s: string): string {
    if s != [] && IsSpace(s[0]) then SkipSpace(s[1..]) else s
  }

  /** The value of the longest prefix of digits of the base, read after `acc`. */
  function Scan(s: string, base: nat, acc: nat): nat {
    if s == [] || Digit(s[0]) >= base then acc else Scan(s[1..], base, acc * base + Digit(s[0]))
  }

  /** Base 0 picks the base from the prefix; a "0x" no hexadecimal digit follows is just a zero. */
  function ScanAnyBase(s: string): nat {
    if |s| >= 3 && s[0] == '0' && (s[1] == 'x' || s[1] == 'X') && Digit(s[2]) < 16 then Scan(s[2..], 16, 0)
    else if s != [] && s[0] == '0' then Scan(s, 8, 0)
    else Scan(s, 10, 0)
  }

  function StrToUl(platform: Platform, token: string): Conversion {
    var s := SkipSpace(token);
    var signed := s != [] && (s[0] == '-' || s[0] == '+');
    var magnitude := ScanAnyBase(if signed then s[1..] else s);
    if magnitude >= platform.UlongModulus() then OutOfRange
    else Value(if signed && s[0] == '-' && magnitude > 0 then platform.UlongModulus() - magnitude else magnitude)
  }

  // ---------- the three operations ----------

  datatype Parsed = Revs(revs: Revisions) | Rejected

  /** Reads at most `room` tokens; one out-of-range token rejects them all. */
  function ParseTokens(platform: Platform, tokens: seq<string>, room: nat): Parsed {
    if tokens == [] || room == 0 then Revs([])
    else
      match StrToUl(platform, tokens[0])
      case OutOfRange => Rejected
      case Value(ul) =>
        match ParseTokens(platform, tokens[1..], room - 1)
        case Rejected => Rejected
        case Revs(rest) => Revs([U16(ul)] + rest)
  }

  function Parse(platform: Platform, s: string): Revisions {
    match ParseTokens(platform, Tokens(s), MAX_REVISIONS)
    case Rejected => []
    case Revs(revs) => revs
  }

  function Decimal(n: nat): (s: string)
    ensures s != []
  {
    if n < 10 then ['0' + n as char] else Decimal(n / 10) + ['0' + (n % 10) as char]
  }

  function Print(revs: Revisions): string {
    if revs == [] then []
    else if |revs| == 1 then Decimal(revs[0])
    else Decimal(revs[0]) + "." + Print(revs[1..])
  }

  const TWO_TO_THE_48: int := 0x1_0000_0000_0000

  /** `(word << 16) | rev` in 64 bits: the top 16 bits of the word are lost. */
  function Shift(word: nat, rev: u16): nat {
    (word % TWO_TO_THE_48) * 0x1_0000 + rev
  }

  /** The revisions shifted, one after the other, into a 64-bit word. */
  function Pack(revs: Revisions, word: nat): nat {
    if revs == [] then word else Pack(revs[1..], Shift(word, revs[0]))
  }

  /** The revision the loop compares with in its k-th round: its index has 16 bits, so that from round
      65536 on it goes through the argument again. */
  function Partner(param: Revisions, k: nat): u16 {
    if U16(k) < |param| then param[U16(k)] else 0
  }

  /** The revisions compared with: as many as this version has, zeros where the argument has none. */
  function Aligned(param: Revisions, n: nat): (r: Revisions)
    ensures |r| == n && forall k :: 0 <= k < n ==> r[k] == Partner(param, k)
  {
    seq(n, k requires 0 <= k < n => Partner(param, k))
  }

  function Zeros(n: nat): (z: Revisions)
    ensures |z| == n && forall k :: 0 <= k < n ==> z[k] == 0
  {
    seq(n, _ => 0)
  }

  function Sign(a: int, b: int): int {
    if a > b then 1 else if a < b then -1 else 0
  }

  function Compare(revs: Revisions, param: Revisions): int {
    Sign(Pack(revs, 0), Pack(Aligned(param, |revs|), 0))
  }

  // ---------- the reference order ----------

  /** Lexicographic comparison of two lists of the same length. */
  function Lex(a: Revisions, b: Revisions): int
    requires |a| == |b|
  {
    if a == [] then 0
    else if a[0] != b[0] then Sign(a[0], b[0])
    else Lex(a[1..], b[1..])
  }

  function LastFour(revs: Revisions): Revisions {
    if |revs| <= 4 then revs else revs[|revs| - 4..]
  }
}
