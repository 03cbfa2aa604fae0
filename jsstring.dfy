/**
 * The two JavaScript string operations the validators depend on: `trim()`,
 * which strips ECMAScript white space and line terminators from both ends,
 * and `length`, which counts UTF-16 code units.
 */
module JsString {

  /** WhiteSpace and LineTerminator code points of ECMAScript. */
  predicate IsJsWhitespace(c: char) {
    var n := c as int;
    || 0x09 <= n <= 0x0D        // tab, line feed, vertical tab, form feed, carriage return
    || n == 0x20 || n == 0xA0 || n == 0x1680
    || 0x2000 <= n <= 0x200A
    || n == 0x2028 || n == 0x2029 || n == 0x202F || n == 0x205F || n == 0x3000
    || n == 0xFEFF
  }

  predicate AllWhitespace(s: string) {
    forall i :: 0 <= i < |s| ==> IsJsWhitespace(s[i])
  }

  /** The number of leading white-space characters. */
  function LeadingSpace(s: string): (n: nat)
    ensures n <= |s|
    ensures AllWhitespace(s[..n])
    ensures n < |s| ==> !IsJsWhitespace(s[n])
  {
    if s == [] || !IsJsWhitespace(s[0]) then 0
    else
      var k := LeadingSpace(s[1..]);
      assert s[..k + 1] == [s[0]] + s[1..][..k];
      1 + k
  }

  /** The number of trailing white-space characters. */
  function TrailingSpace(s: string): (n: nat)
    ensures n <= |s|
    ensures AllWhitespace(s[|s| - n..])
    ensures n < |s| ==> !IsJsWhitespace(s[|s| - n - 1])
  {
    if s == [] || !IsJsWhitespace(s[|s| - 1]) then 0
    else
      var k := TrailingSpace(s[..|s| - 1]);
      assert s[|s| - (k + 1)..] == s[..|s| - 1][|s| - 1 - k..] + [s[|s| - 1]];
      1 + k
  }

  /** Index where trim() starts keeping characters. */
  function TrimStart(s: string): (i: nat)
    ensures i <= |s| && AllWhitespace(s[..i])
    ensures i < |s| ==> !IsJsWhitespace(s[i])
  {
    LeadingSpace(s)
  }

  /** Index where trim() stops keeping characters. */
  function TrimEnd(s: string): (j: nat)
    ensures TrimStart(s) <= j <= |s| && AllWhitespace(s[j..])
    ensures TrimStart(s) < j ==> !IsJsWhitespace(s[j - 1])
  {
    var i := LeadingSpace(s);
    var rest := s[i..];
    var k := TrailingSpace(rest);
    assert s[|s| - k..] == rest[|rest| - k..];
    |s| - k
  }

  /** String.prototype.trim: the part between the leading and the trailing white space. */
  function Trim(s: string): (r: string)
    ensures r == s[TrimStart(s)..TrimEnd(s)]
    ensures r != [] ==> !IsJsWhitespace(r[0]) && !IsJsWhitespace(r[|r| - 1])
    ensures AllWhitespace(s) <==> r == []
  {
    var i, j := TrimStart(s), TrimEnd(s);
    var r := s[i..j];
    assert j < |s| ==> s[j..][0] == s[j];
    assert i == |s| ==> s[..i] == s;
    assert r != [] ==> r[0] == s[i] && r[|r| - 1] == s[j - 1];
    r
  }

  /** Trimming twice is trimming once. */
  lemma TrimIdempotent(s: string)
    ensures Trim(Trim(s)) == Trim(s)
  {
    var t := Trim(s);
    if t != [] {
      assert LeadingSpace(t) == 0;
      assert TrailingSpace(t) == 0;
      assert t[0..|t|] == t;
    }
  }

  function CodeUnits(c: char): nat {
    if c as int > 0xFFFF then 2 else 1
  }

  /** `.length`: characters beyond the Basic Multilingual Plane take two code units. */
  function JsLength(s: string): (n: nat)
    ensures |s| <= n <= 2 * |s|
    ensures n == 0 <==> s == []
  {
    if s == [] then 0 else CodeUnits(s[0]) + JsLength(s[1..])
  }
}
