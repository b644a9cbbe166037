/**
 * The helpers of `src/lib/utils.ts`: the callsign validator, the modular
 * distance of two sequence numbers, and the conversions between strings and
 * arrays of character codes.
 *
 * A JavaScript string is a sequence of UTF-16 code units, so it is modelled
 * as a sequence of character codes below 0x10000.
 */
module Utils {

  type CharCode = c: int | 0 <= c < 0x1_0000

  type JsString = seq<CharCode>

  /** `String.fromCharCode(x)` for an integer `x`: the code unit `x` modulo 2^16. */
  function FromCharCode(x: int): CharCode
  {
    x % 0x1_0000
  }

  /** `String.fromCharCode` leaves a code unit unchanged. */
  lemma FromCharCodeOfCode(x: int)
    requires 0 <= x < 0x1_0000
    ensures FromCharCode(x) == x
  {
  }

  /** A Dafny string literal of characters below U+10000 as a JsString. */
  function Str(s: string): (r: JsString)
    ensures |r| == |s| && forall i :: 0 <= i < |s| ==> r[i] == FromCharCode(s[i] as int)
  {
    seq(|s|, i requires 0 <= i < |s| => FromCharCode(s[i] as int))
  }

  // ---------------------------------------------------------------------------
  // testCallsign
  // ---------------------------------------------------------------------------

  /** The characters JavaScript's `\s` matches. */
  predicate IsWhitespace(c: CharCode)
  {
    || (0x09 <= c <= 0x0D) || c == 0x20 || c == 0xA0 || c == 0x1680
    || (0x2000 <= c <= 0x200A) || c == 0x2028 || c == 0x2029 || c == 0x202F
    || c == 0x205F || c == 0x3000 || c == 0xFEFF
  }

  /** `toUpperCase` on one code unit, for the ASCII letters `a`-`z`. */
  function UpperChar(c: CharCode): (u: CharCode)
    ensures 97 <= c <= 122 ==> u == c - 32
    ensures !(97 <= c <= 122) ==> u == c
  {
    if 97 <= c <= 122 then c - 32 else c
  }

  /** `toUpperCase` on a string, code unit by code unit. */
  function UpperCase(s: JsString): (u: JsString)
    ensures |u| == |s|
    ensures forall i :: 0 <= i < |s| ==> u[i] == UpperChar(s[i])
  {
    if s == [] then [] else [UpperChar(s[0])] + UpperCase(s[1..])
  }

  /**
   * `s.replace(/\s*$/g, "")`: `s` without its trailing whitespace. The result
   * is a prefix of `s` that is empty or ends in a non-blank, and everything
   * cut off is whitespace.
   */
  function TrimEnd(s: JsString): (t: JsString)
    ensures |t| <= |s| && t == s[..|t|]
    ensures |t| > 0 ==> !IsWhitespace(t[|t| - 1])
    ensures forall j :: |t| <= j < |s| ==> IsWhitespace(s[j])
  {
    if s == [] || !IsWhitespace(s[|s| - 1]) then s else TrimEnd(s[..|s| - 1])
  }

  /** A digit `0`-`9` or an upper-case letter `A`-`Z`. */
  predicate IsCallsignChar(c: int)
  {
    (48 <= c <= 57) || (65 <= c <= 90)
  }

  /**
   * What `testCallsign` answers: at most six code units, and after
   * upper-casing and cutting trailing whitespace only digits and letters.
   */
  predicate IsValidCallsign(s: JsString)
  {
    |s| <= 6 &&
    var t := TrimEnd(UpperCase(s));
    forall i :: 0 <= i < |t| ==> IsCallsignChar(t[i])
  }

  /** utils.testCallsign: the length check, then the scan of the trimmed, upper-cased string. */
  method TestCallsign(callsign: JsString) returns (ok: bool)
    ensures ok == IsValidCallsign(callsign)
  {
    if |callsign| > 6 {
      return false;
    }
    ok := ScanCallsign(TrimEnd(UpperCase(callsign)));
  }

  /** The loop of `testCallsign` over the trimmed, upper-cased string, with its early exit. */
  method ScanCallsign(s: JsString) returns (ok: bool)
    ensures ok <==> forall i :: 0 <= i < |s| ==> IsCallsignChar(s[i])
  {
    for c := 0 to |s|
      invariant forall i :: 0 <= i < c ==> IsCallsignChar(s[i])
    {
      var a := s[c];
      if (a >= 48 && a <= 57) || (a >= 65 && a <= 90) {
        continue;
      }
      return false;
    }
    return true;
  }

  /** Every code unit from index `i` on is whitespace. */
  predicate BlankFrom(s: JsString, i: nat)
  {
    forall j :: i <= j < |s| ==> IsWhitespace(s[j])
  }

  /**
   * A direct description of the valid callsigns: at most six code units, each
   * of which is a digit or a letter of either case, or else whitespace that is
   * followed by whitespace only.
   */
  predicate CallsignShape(s: JsString)
  {
    |s| <= 6 && forall i :: 0 <= i < |s| ==> IsCallsignChar(UpperChar(s[i])) || BlankFrom(s, i)
  }

  /** A callsign the validator accepts has the shape of `CallsignShape`. */
  lemma ValidCallsignHasShape(s: JsString)
    requires IsValidCallsign(s)
    ensures CallsignShape(s)
  {
    forall i | 0 <= i < |s| && !IsCallsignChar(UpperChar(s[i]))
      ensures BlankFrom(s, i)
    {
      BlankAfterNonCallsignChar(s, i);
    }
  }

  /** In an accepted callsign, a code unit that is no digit or letter is followed by whitespace only. */
  lemma BlankAfterNonCallsignChar(s: JsString, i: nat)
    requires IsValidCallsign(s) && i < |s| && !IsCallsignChar(UpperChar(s[i]))
    ensures BlankFrom(s, i)
  {
    var u := UpperCase(s);
    var t := TrimEnd(u);
    assert i >= |t|;
    forall j | i <= j < |s|
      ensures IsWhitespace(s[j])
    {
      UpperBlank(s[j], u[j]);
    }
  }

  /** Upper-casing maps no code unit but a whitespace one to whitespace. */
  lemma UpperBlank(c: CharCode, u: CharCode)
    requires u == UpperChar(c) && IsWhitespace(u)
    ensures IsWhitespace(c)
  {
  }

  /** A string of the shape of `CallsignShape` is accepted. */
  lemma ShapedCallsignIsValid(s: JsString)
    requires CallsignShape(s)
    ensures IsValidCallsign(s)
  {
    var u := UpperCase(s);
    var t := TrimEnd(u);
    forall i | 0 <= i < |t|
      ensures IsCallsignChar(t[i])
    {
      assert t[i] == u[i];
    }
  }

  /** testCallsign accepts exactly the strings of CallsignShape. */
  lemma ValidCallsignCharacterization(s: JsString)
    ensures IsValidCallsign(s) <==> CallsignShape(s)
  {
    if IsValidCallsign(s) {
      ValidCallsignHasShape(s);
    }
    if CallsignShape(s) {
      ShapedCallsignIsValid(s);
    }
  }

  /** Raw length is checked before trimming: seven or more code units never pass. */
  lemma TooLongCallsignRejected(s: JsString)
    requires |s| > 6
    ensures !IsValidCallsign(s)
  {
  }

  /** Validity does not depend on letter case. */
  lemma ValidCallsignIgnoresCase(s: JsString)
    ensures IsValidCallsign(UpperCase(s)) == IsValidCallsign(s)
  {
    var u := UpperCase(s);
    assert UpperCase(u) == u;
  }

  /** A blank with a non-blank after it is never trimmed, and it is not a callsign character. */
  lemma InteriorWhitespaceRejected(s: JsString, i: nat, j: nat)
    requires i < j < |s| && IsWhitespace(s[i]) && !IsWhitespace(s[j])
    ensures !IsValidCallsign(s)
  {
    ValidCallsignCharacterization(s);
    assert !IsCallsignChar(UpperChar(s[i])) && !BlankFrom(s, i);
  }

  /** A character that is neither a callsign character nor trailing whitespace is rejected. */
  lemma InteriorInvalidRejected(s: JsString, i: nat)
    requires i < |s| && !IsCallsignChar(UpperChar(s[i])) && !BlankFrom(s, i)
    ensures !IsValidCallsign(s)
  {
    if IsValidCallsign(s) {
      ValidCallsignHasShape(s);
      assert false;
    }
  }

  /** "SP4MK" is a valid callsign. */
  lemma AcceptsPlainCallsign()
    ensures IsValidCallsign(Str("SP4MK"))
  {
    var s := Str("SP4MK");
    assert s == [83, 80, 52, 77, 75];
    ShapedCallsignIsValid(s);
  }

  /** "APRX29", six characters, is a valid callsign. */
  lemma AcceptsSixCharacterCallsign()
    ensures IsValidCallsign(Str("APRX29"))
  {
    var s := Str("APRX29");
    assert s == [65, 80, 82, 88, 50, 57];
    ShapedCallsignIsValid(s);
  }

  /** "SP4MK " passes: the length is checked before the trailing blank is cut. */
  lemma AcceptsTrailingBlank()
    ensures IsValidCallsign(Str("SP4MK "))
  {
    var s := Str("SP4MK ");
    assert s == [83, 80, 52, 77, 75, 32];
    assert BlankFrom(s, 5);
    ShapedCallsignIsValid(s);
  }

  /** Lower-case letters are accepted: the validator upper-cases first. */
  lemma AcceptsLowerCase()
    ensures IsValidCallsign(Str("sp4mk"))
  {
    var s := Str("sp4mk");
    assert s == [115, 112, 52, 109, 107];
    ShapedCallsignIsValid(s);
  }

  /** The empty string is accepted; the encoder rejects empty callsigns itself. */
  lemma AcceptsEmpty()
    ensures IsValidCallsign(Str(""))
  {
  }

  /** "TOOLONG1" has more than six characters. */
  lemma RejectsLongCallsign()
    ensures !IsValidCallsign(Str("TOOLONG1"))
  {
    assert |Str("TOOLONG1")| == 8;
  }

  /** "AB-3" holds a hyphen, which is neither a letter nor a digit. */
  lemma RejectsHyphen()
    ensures !IsValidCallsign(Str("AB-3"))
  {
    var s := Str("AB-3");
    assert s == [65, 66, 45, 51];
    InteriorInvalidRejected(s, 2);
  }

  /** "SP 4" holds an interior blank, which trimming does not remove. */
  lemma RejectsInteriorBlank()
    ensures !IsValidCallsign(Str("SP 4"))
  {
    var s := Str("SP 4");
    assert s == [83, 80, 32, 52];
    InteriorWhitespaceRejected(s, 2, 3);
  }

  // ---------------------------------------------------------------------------
  // distanceBetween
  // ---------------------------------------------------------------------------

  /**
   * utils.distanceBetween(l, f, m): how far the leader `l` is ahead of the
   * follower `f` on a ring of `m` sequence numbers.
   */
  function DistanceBetween(l: int, f: int, m: int): (d: int)
    ensures 0 <= l < m && 0 <= f < m ==> 0 <= d < m && (f + d) % m == l
  {
    if l < f then
      WrapOnce(f + (l + (m - f)), m, l);
      l + (m - f)
    else
      WrapOnce(f + (l - f), m, l);
      l - f
  }

  /** Reducing a value at most one ring length above `l in [0, m)` modulo `m` gives `l`. */
  lemma WrapOnce(x: int, m: int, l: int)
    ensures 0 <= l < m && (x == l || x == l + m) ==> x % m == l
  {
    if 0 <= l < m && (x == l || x == l + m) {
      var q, r := x / m, x % m;
      assert x == m * q + r && 0 <= r < m;
    }
  }

  // ---------------------------------------------------------------------------
  // stringToByteArray / byteArrayToString
  // ---------------------------------------------------------------------------

  /** The character codes of a string, one per code unit. */
  function CharCodes(s: JsString): (r: seq<nat>)
    ensures |r| == |s|
    ensures forall i :: 0 <= i < |s| ==> r[i] == s[i]
  {
    if s == [] then [] else CharCodes(s[..|s| - 1]) + [s[|s| - 1] as nat]
  }

  /** The string whose code units are the given codes, each taken modulo 2^16. */
  function FromCharCodes(s: seq<int>): (r: JsString)
    ensures |r| == |s|
    ensures forall i :: 0 <= i < |s| ==> r[i] == FromCharCode(s[i])
  {
    if s == [] then [] else FromCharCodes(s[..|s| - 1]) + [FromCharCode(s[|s| - 1])]
  }

  /** utils.stringToByteArray: pushes `charCodeAt` of every code unit. */
  method StringToByteArray(s: JsString) returns (r: seq<nat>)
    ensures r == CharCodes(s)
  {
    r := [];
    for i := 0 to |s|
      invariant r == CharCodes(s[..i])
    {
      assert s[..i + 1][..i] == s[..i];
      r := r + [s[i] as nat];
    }
    assert s[..|s|] == s;
  }

  /** utils.byteArrayToString: appends `String.fromCharCode` of every element. */
  method ByteArrayToString(s: seq<int>) returns (r: JsString)
    ensures r == FromCharCodes(s)
  {
    r := [];
    for i := 0 to |s|
      invariant r == FromCharCodes(s[..i])
    {
      assert s[..i + 1][..i] == s[..i];
      r := r + [FromCharCode(s[i])];
    }
    assert s[..|s|] == s;
  }

  /** Converting a string to codes and back gives the string. */
  lemma StringRoundTrip(s: JsString)
    ensures FromCharCodes(CharCodes(s)) == s
  {
  }

  /** Converting codes below 2^16 to a string and back gives the codes. */
  lemma CodesRoundTrip(b: seq<int>)
    requires forall i :: 0 <= i < |b| ==> 0 <= b[i] < 0x1_0000
    ensures CharCodes(FromCharCodes(b)) == b
  {
    var s := FromCharCodes(b);
    var r := CharCodes(s);
    assert |r| == |b|;
    forall i | 0 <= i < |b|
      ensures r[i] == b[i]
    {
      FromCharCodeOfCode(b[i]);
    }
  }
}
