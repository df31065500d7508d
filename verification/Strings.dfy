/** strings/string_util.cc: trimming of ASCII white space. */
module Strings {
  predicate IsSpace(c: char) { '\t' <= c <= '\r' || c == ' ' }

  /** Tab, line feed, vertical tab, form feed, carriage return and space. */
  lemma SpacesAre(c: char)
    ensures IsSpace(c) <==> c as int in {9, 10, 11, 12, 13, 32}
  {}

  predicate Trimmed(s: string) { s == "" || (!IsSpace(s[0]) && !IsSpace(s[|s| - 1])) }

  function WithoutFront(s: string): string { if s != "" && IsSpace(s[0]) then WithoutFront(s[1..]) else s }

  function WithoutBack(s: string): string { if s != "" && IsSpace(s[|s| - 1]) then WithoutBack(s[..|s| - 1]) else s }

  /** TrimWhitespaceASCII at both ends. */
  function Trim(s: string): string { WithoutBack(WithoutFront(s)) }

  lemma {:induction false} FrontIsSuffix(s: string) returns (k: nat)
    ensures k <= |s| && WithoutFront(s) == s[k..] && (k < |s| ==> !IsSpace(s[k]))
    ensures forall i :: 0 <= i < k ==> IsSpace(s[i])
  {
    if s != "" && IsSpace(s[0]) {
      k := FrontIsSuffix(s[1..]);
      assert s[1..][k..] == s[k + 1..];
      k := k + 1;
    } else {
      k := 0;
    }
  }

  lemma {:induction false} BackIsPrefix(s: string) returns (k: nat)
    ensures k <= |s| && WithoutBack(s) == s[..k] && (k > 0 ==> !IsSpace(s[k - 1]))
    ensures forall i :: k <= i < |s| ==> IsSpace(s[i])
  {
    if s != "" && IsSpace(s[|s| - 1]) {
      k := BackIsPrefix(s[..|s| - 1]);
      assert s[..|s| - 1][..k] == s[..k];
    } else {
      k := |s|;
    }
  }

  /** What is left is a slice that is trimmed, and everything before and behind it is white space. */
  lemma TrimIsSlice(s: string) returns (a: nat, b: nat)
    ensures a <= b <= |s| && Trim(s) == s[a..b] && Trimmed(s[a..b])
    ensures (forall i :: 0 <= i < a ==> IsSpace(s[i])) && forall i :: b <= i < |s| ==> IsSpace(s[i])
  {
    a := FrontIsSuffix(s);
    var k := BackIsPrefix(s[a..]);
    b := a + k;
    forall i | b <= i < |s| ensures IsSpace(s[i]) { assert s[i] == s[a..][i - a]; }
  }

  lemma TrimIsTrimmed(s: string)
    ensures Trimmed(Trim(s)) && forall c :: c in Trim(s) ==> c in s
  {
    var j := FrontIsSuffix(s);
    var k := BackIsPrefix(s[j..]);
  }

  lemma TrimAgain(s: string)
    requires Trimmed(s)
    ensures Trim(s) == s
  {}
}
