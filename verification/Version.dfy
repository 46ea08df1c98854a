/** `ctrlm_version_t`: a dotted version of 16-bit revisions. */
module Version {
  import opened Words
  import opened VersionSpec
  import VersionProofs

  /** The revisions already read, followed by those still to be read. */
  ghost function Prepend(read: Revisions, rest: Parsed): Parsed {
    match rest
    case Rejected => Rejected
    case Revs(more) => Revs(read + more)
  }

  lemma ParseOneToken(platform: Platform, stream: string, room: nat, read: Revisions)
    requires stream != [] && room > 0
    ensures Prepend(read, ParseTokens(platform, Tokens(stream), room)) ==
            match StrToUl(platform, stream[..TokenLength(stream)])
            case OutOfRange => Rejected
            case Value(ul) => Prepend(read + [U16(ul)], ParseTokens(platform, Tokens(AfterToken(stream)), room - 1))
  {
    assert Tokens(stream)[1..] == Tokens(AfterToken(stream));
    match StrToUl(platform, stream[..TokenLength(stream)])
    case OutOfRange =>
    case Value(ul) =>
      match ParseTokens(platform, Tokens(AfterToken(stream)), room - 1)
      case Rejected =>
      case Revs(more) => assert read + ([U16(ul)] + more) == read + [U16(ul)] + more;
  }

  class VersionObject {
    const platform: Platform
    var revs: Revisions

    constructor (platform: Platform, revStr: string)
      ensures this.platform == platform && revs == Parse(platform, revStr)
    {
      this.platform := platform;
      revs := [];
      new;
      LoadFromString(revStr);
    }

    /** Reads dotted text. A token out of the range of `unsigned long` leaves no revision at all. */
    method LoadFromString(revStr: string)
      modifies this
      ensures revs == Parse(platform, revStr)
    {
      revs := [];
      var stream, i := revStr, 0;
      while stream != []
        invariant 0 <= i <= MAX_REVISIONS
        invariant ParseTokens(platform, Tokens(revStr), MAX_REVISIONS)
               == Prepend(revs, ParseTokens(platform, Tokens(stream), MAX_REVISIONS - i))
        decreases |stream|
      {
        var token := stream[..TokenLength(stream)];
        if i >= MAX_REVISIONS {
          break;
        }
        ParseOneToken(platform, stream, MAX_REVISIONS - i, revs);
        stream := AfterToken(stream);
        match StrToUl(platform, token) {
          case OutOfRange =>
            revs := [];
            return;
          case Value(ul) =>
            revs := revs + [U16(ul)];
            i := i + 1;
        }
      }
    }

    /** Prints the revisions; the 16-bit loop index does not reach the end of a longer list. */
    method ToString() returns (s: string)
      requires |revs| <= 0xFFFF
      ensures s == Print(revs)
    {
      s := "";
      var i: u16 := 0;
      while i < |revs|
        invariant i <= |revs|
        invariant s + Print(revs[i..]) == Print(revs)
      {
        var rest := revs[i..];
        assert rest[1..] == revs[i + 1..];
        s := s + Decimal(revs[i]);
        if i < |revs| - 1 {
          s := s + ".";
        }
        i := U16(i + 1);
      }
      assert revs[i..] == [];
    }

    /** 1, -1 or 0 as this version is higher than, lower than or level with the argument. */
    method CompareTo(param: VersionObject) returns (order: int)
      ensures order == Compare(revs, param.revs)
    {
      var thisVer: nat, paramVer: nat := 0, 0;
      var i: u16 := 0;
      ghost var aligned := Aligned(param.revs, |revs|);
      for k := 0 to |revs|
        invariant i == U16(k)
        invariant Pack(revs, 0) == Pack(revs[k..], thisVer)
        invariant Pack(aligned, 0) == Pack(aligned[k..], paramVer)
      {
        thisVer := Shift(thisVer, revs[k]);
        paramVer := if i < |param.revs| then Shift(paramVer, param.revs[i]) else Shift(paramVer, 0);
        assert revs[k..][1..] == revs[k + 1..] && aligned[k..][1..] == aligned[k + 1..];
        i := U16(i + 1);
      }
      order := if thisVer > paramVer then 1 else if thisVer < paramVer then -1 else 0;
    }
  }
}
