/**
 * The string primitives the search code relies on, as PHP 8 defines them
 * on ASCII text: `strtolower`, `stripos`, `explode(' ', ...)`, `implode`,
 * `trim` and `empty()` on strings, and the rendering of an integer in a
 * string interpolation.
 */
module Text {

  predicate IsUpperAscii(c: char) {
    'A' <= c <= 'Z'
  }

  /** ASCII lower-casing of one character (PHP 8 `strtolower` is locale-independent). */
  function LowerChar(c: char): char {
    if IsUpperAscii(c) then (c as int + 32) as char else c
  }

  /** `strtolower`: every character lower-cased, length unchanged. */
  function Lower(s: string): (r: string)
    ensures |r| == |s|
    ensures forall i :: 0 <= i < |s| ==> r[i] == LowerChar(s[i])
  {
    seq(|s|, i requires 0 <= i < |s| => LowerChar(s[i]))
  }

  lemma LowerAppend(a: string, b: string)
    ensures Lower(a + b) == Lower(a) + Lower(b)
  {
  }

  lemma LowercaseUnchanged(s: string)
    requires forall i :: 0 <= i < |s| ==> !IsUpperAscii(s[i])
    ensures Lower(s) == s
  {
  }

  lemma LowerIdempotent(s: string)
    ensures Lower(Lower(s)) == Lower(s)
  {
  }

  /** Substring containment: `needle` occurs somewhere in `hay`. */
  predicate Contains(hay: string, needle: string)
    decreases |hay|
  {
    needle <= hay || (|hay| > 0 && Contains(hay[1..], needle))
  }

  /** The reference reading of containment: an occurrence at some offset. */
  ghost predicate OccursAt(hay: string, needle: string, k: int) {
    0 <= k && k + |needle| <= |hay| && hay[k..k + |needle|] == needle
  }

  lemma {:induction false} ContainsIffOccurs(hay: string, needle: string)
    ensures Contains(hay, needle) <==> exists k :: OccursAt(hay, needle, k)
    decreases |hay|
  {
    if needle <= hay {
      assert OccursAt(hay, needle, 0);
    } else if |hay| > 0 {
      ContainsIffOccurs(hay[1..], needle);
      if Contains(hay[1..], needle) {
        var k :| OccursAt(hay[1..], needle, k);
        assert hay[1..][k..k + |needle|] == hay[k + 1..k + 1 + |needle|];
        assert OccursAt(hay, needle, k + 1);
      } else {
        forall k | OccursAt(hay, needle, k) ensures false {
          assert hay[1..][k - 1..k - 1 + |needle|] == hay[k..k + |needle|];
          assert OccursAt(hay[1..], needle, k - 1);
        }
      }
    } else {
      assert forall k :: !OccursAt(hay, needle, k);
    }
  }

  /** Every character of a contained needle is a character of the haystack. */
  lemma ContainedCharsOccur(hay: string, needle: string, c: char)
    requires Contains(hay, needle) && c in needle
    ensures c in hay
  {
    ContainsIffOccurs(hay, needle);
    var k :| OccursAt(hay, needle, k);
    var i :| 0 <= i < |needle| && needle[i] == c;
    assert hay[k + i] == hay[k..k + |needle|][i];
  }

  /** The empty needle occurs in every string (PHP 8 `stripos($h, '')` is 0). */
  lemma ContainsEmpty(hay: string)
    ensures Contains(hay, "")
  {
  }

  /** A non-empty needle never occurs in the empty string. */
  lemma ContainsNothingInEmpty(needle: string)
    requires needle != ""
    ensures !Contains("", needle)
  {
  }

  /** `stripos($hay, $needle) !== false`: ASCII case-insensitive containment. */
  predicate ContainsCI(hay: string, needle: string) {
    Contains(Lower(hay), Lower(needle))
  }

  /** `explode(' ', s)`: the pieces between single spaces, empty pieces kept. */
  function SplitOnSpace(s: string): (ws: seq<string>)
    ensures |ws| >= 1
    ensures forall i :: 0 <= i < |ws| ==> ' ' !in ws[i]
    decreases |s|
  {
    if |s| == 0 then [""]
    else if s[0] == ' ' then [""] + SplitOnSpace(s[1..])
    else
      var t := SplitOnSpace(s[1..]);
      [[s[0]] + t[0]] + t[1..]
  }

  /** A string without spaces explodes to itself. */
  lemma {:induction false} SplitWithoutSpace(s: string)
    requires ' ' !in s
    ensures SplitOnSpace(s) == [s]
    decreases |s|
  {
    if |s| > 0 {
      SplitWithoutSpace(s[1..]);
      assert s == [s[0]] + s[1..];
    }
  }

  /** `implode(sep, parts)`. */
  function Implode(sep: string, parts: seq<string>): string
    decreases |parts|
  {
    if |parts| == 0 then ""
    else if |parts| == 1 then parts[0]
    else parts[0] + sep + Implode(sep, parts[1..])
  }

  /** Joining the pieces of a split with single spaces gives back the string. */
  lemma {:induction false} ImplodeSplit(s: string)
    ensures Implode(" ", SplitOnSpace(s)) == s
    decreases |s|
  {
    if |s| == 0 {
    } else if s[0] == ' ' {
      ImplodeSplit(s[1..]);
      var t := SplitOnSpace(s[1..]);
      assert SplitOnSpace(s) == [""] + t;
      assert ([""] + t)[1..] == t;
      assert s == [' '] + s[1..];
    } else {
      ImplodeSplit(s[1..]);
      var t := SplitOnSpace(s[1..]);
      var ws := [[s[0]] + t[0]] + t[1..];
      assert SplitOnSpace(s) == ws;
      if |t| == 1 {
        assert s == [s[0]] + s[1..];
      } else {
        assert ws[1..] == t[1..];
        assert Implode(" ", t) == t[0] + " " + Implode(" ", t[1..]);
        assert s == [s[0]] + s[1..];
      }
    }
  }

  /** Splitting around a space splits each side independently. */
  lemma {:induction false} SplitAppend(a: string, b: string)
    ensures SplitOnSpace(a + " " + b) == SplitOnSpace(a) + SplitOnSpace(b)
    decreases |a|
  {
    if |a| == 0 {
      assert a + " " + b == [' '] + b;
      assert (a + " " + b)[1..] == b;
    } else {
      var rest := a[1..] + " " + b;
      assert a + " " + b == [a[0]] + rest;
      assert (a + " " + b)[1..] == rest;
      SplitAppend(a[1..], b);
    }
  }

  /** `implode` ends with its last part. */
  lemma {:induction false} ImplodeEndsWithLast(sep: string, parts: seq<string>)
    requires |parts| > 0
    ensures EndsWith(Implode(sep, parts), parts[|parts| - 1])
    decreases |parts|
  {
    if |parts| > 1 {
      ImplodeEndsWithLast(sep, parts[1..]);
      var rest := Implode(sep, parts[1..]);
      var whole := parts[0] + sep + rest;
      assert whole[|whole| - |rest|..] == rest;
    }
  }

  predicate EndsWith(s: string, suffix: string) {
    |suffix| <= |s| && s[|s| - |suffix|..] == suffix
  }

  /** The characters PHP's `trim` strips by default: space, \t, \n, \r, NUL, vertical tab. */
  predicate IsTrimChar(c: char) {
    c == ' ' || c == '\t' || c == '\n' || c == '\r' || c as int == 0 || c as int == 11
  }

  function TrimLeft(s: string): (r: string)
    ensures |r| <= |s| && r == s[|s| - |r|..]
    ensures |r| > 0 ==> !IsTrimChar(r[0])
    ensures forall i :: 0 <= i < |s| - |r| ==> IsTrimChar(s[i])
    decreases |s|
  {
    if |s| > 0 && IsTrimChar(s[0]) then TrimLeft(s[1..]) else s
  }

  function TrimRight(s: string): (r: string)
    ensures |r| <= |s| && r == s[..|r|]
    ensures |r| > 0 ==> !IsTrimChar(r[|r| - 1])
    ensures forall i :: |r| <= i < |s| ==> IsTrimChar(s[i])
    decreases |s|
  {
    if |s| > 0 && IsTrimChar(s[|s| - 1]) then TrimRight(s[..|s| - 1]) else s
  }

  /** `r` is the slice of `s` at offset k, and only trim characters lie outside it. */
  ghost predicate TrimmedAt(s: string, r: string, k: int) {
    && OccursAt(s, r, k)
    && (forall i :: 0 <= i < k ==> IsTrimChar(s[i]))
    && (forall i :: k + |r| <= i < |s| ==> IsTrimChar(s[i]))
  }

  /**
   * `trim`: strips leading and trailing whitespace; what remains is a slice of
   * `s` that neither starts nor ends with a trim character, and everything cut
   * away is a trim character.
   */
  function Trim(s: string): (r: string)
    ensures |r| == 0 || (!IsTrimChar(r[0]) && !IsTrimChar(r[|r| - 1]))
    ensures exists k :: TrimmedAt(s, r, k)
  {
    TrimBothEnds(s);
    TrimRight(TrimLeft(s))
  }

  lemma TrimBothEnds(s: string)
    ensures TrimmedAt(s, TrimRight(TrimLeft(s)), |s| - |TrimLeft(s)|)
  {
    var l := TrimLeft(s);
    var r := TrimRight(l);
    var k := |s| - |l|;
    assert s[k..k + |r|] == l[..|r|];
    forall i | k + |r| <= i < |s| ensures IsTrimChar(s[i]) {
      assert s[i] == l[i - k];
    }
  }

  lemma TrimUntouched(s: string)
    requires |s| > 0 && !IsTrimChar(s[0]) && !IsTrimChar(s[|s| - 1])
    ensures Trim(s) == s
  {
  }

  /** PHP `empty()` on a string: the empty string and "0" are empty. */
  predicate PhpEmpty(s: string) {
    s == "" || s == "0"
  }

  function DigitChar(d: nat): char
    requires d < 10
  {
    ('0' as int + d) as char
  }

  /** Decimal rendering of a natural number, most significant digit first. */
  function NatToString(n: nat): (r: string)
    ensures |r| >= 1
    ensures forall i :: 0 <= i < |r| ==> '0' <= r[i] <= '9'
    decreases n
  {
    if n < 10 then [DigitChar(n)] else NatToString(n / 10) + [DigitChar(n % 10)]
  }

  /** The value of a string of decimal digits. */
  function DigitsValue(s: string): nat
    requires forall i :: 0 <= i < |s| ==> '0' <= s[i] <= '9'
    decreases |s|
  {
    if |s| == 0 then 0 else DigitsValue(s[..|s| - 1]) * 10 + (s[|s| - 1] as int - '0' as int)
  }

  /** Reading the rendered digits back gives the number. */
  lemma {:induction false} NatToStringRoundTrip(n: nat)
    ensures DigitsValue(NatToString(n)) == n
    decreases n
  {
    if n >= 10 {
      NatToStringRoundTrip(n / 10);
      var r := NatToString(n);
      assert r[..|r| - 1] == NatToString(n / 10);
    }
  }

  /** How PHP interpolates a whole number into a string: an optional minus, then the decimal digits. */
  function IntToString(i: int): (r: string)
    ensures |r| >= 1
    ensures (r[0] == '-') <==> i < 0
  {
    if i < 0 then "-" + NatToString(-i) else NatToString(i)
  }

  /** The rendering reads back: a minus for a negative number, then decimal digits whose value is |i|. */
  lemma IntToStringRoundTrip(i: int)
    ensures i >= 0 ==> IntToString(i) == NatToString(i) && DigitsValue(NatToString(i)) == i
    ensures i < 0 ==> IntToString(i) == "-" + NatToString(-i) && DigitsValue(NatToString(-i)) == -i
  {
    if i < 0 {
      NatToStringRoundTrip(-i);
    } else {
      NatToStringRoundTrip(i);
    }
  }
}
