/** Comma-separated text: split, join, and the two string methods the role tokens go
    through. strip and lower are modelled on the ASCII range. */
module CommaText {

  ghost predicate CommaFree(s: string) { forall i :: 0 <= i < |s| ==> s[i] != ',' }

  /** Where the first comma is, or the length of s. */
  function FirstComma(s: string): (k: nat)
    ensures k <= |s| && CommaFree(s[..k]) && (k < |s| ==> s[k] == ',')
  {
    if s == "" || s[0] == ',' then 0
    else
      var k := FirstComma(s[1..]);
      assert s[..1 + k] == [s[0]] + s[1..][..k];
      1 + k
  }

  /** s.split(",") */
  function Split(s: string): seq<string> {
    var k := FirstComma(s);
    if k == |s| then [s] else [s[..k]] + Split(s[k + 1..])
  }

  /** ",".join(parts) */
  function Join(parts: seq<string>): string {
    if |parts| == 0 then ""
    else if |parts| == 1 then parts[0]
    else parts[0] + "," + Join(parts[1..])
  }

  lemma FirstCommaAt(s: string, k: nat)
    requires k <= |s| && CommaFree(s[..k]) && (k < |s| ==> s[k] == ',')
    ensures FirstComma(s) == k
  {
    var f := FirstComma(s);
    assert forall j :: 0 <= j < k ==> s[..k][j] == s[j];
    assert forall j :: 0 <= j < f ==> s[..f][j] == s[j];
  }

  /** Splitting undoes joining: the parts come back when none holds a comma. */
  lemma {:induction false} SplitJoin(parts: seq<string>)
    requires |parts| > 0 && forall i :: 0 <= i < |parts| ==> CommaFree(parts[i])
    ensures Split(Join(parts)) == parts
  {
    if |parts| == 1 {
      assert parts[0][..|parts[0]|] == parts[0];
      FirstCommaAt(parts[0], |parts[0]|);
    } else {
      var s := Join(parts);
      var k := |parts[0]|;
      assert s[..k] == parts[0] && s[k + 1..] == Join(parts[1..]);
      FirstCommaAt(s, k);
      SplitJoin(parts[1..]);
    }
  }

  /** And joining undoes splitting, whose parts hold no comma. */
  lemma {:induction false} JoinSplit(s: string)
    ensures Join(Split(s)) == s && |Split(s)| > 0
    ensures forall i :: 0 <= i < |Split(s)| ==> CommaFree(Split(s)[i])
    decreases |s|
  {
    var k := FirstComma(s);
    assert s[..|s|] == s;
    if k < |s| {
      JoinSplit(s[k + 1..]);
      assert s == s[..k] + "," + s[k + 1..];
      assert Split(s)[1..] == Split(s[k + 1..]);
    }
  }

  predicate IsSpace(c: char) { c == ' ' || '\t' <= c <= '\r' || '\U{1c}' <= c <= '\U{1f}' }

  function StripLeft(s: string): string {
    if s != "" && IsSpace(s[0]) then StripLeft(s[1..]) else s
  }

  function StripRight(s: string): string {
    if s != "" && IsSpace(s[|s| - 1]) then StripRight(s[..|s| - 1]) else s
  }

  function Strip(s: string): string { StripRight(StripLeft(s)) }

  function LowerChar(c: char): char {
    if 'A' <= c <= 'Z' then (c as int - 'A' as int + 'a' as int) as char else c
  }

  function Lower(s: string): string { seq(|s|, i requires 0 <= i < |s| => LowerChar(s[i])) }

  ghost predicate AllSpace(s: string) { forall i :: 0 <= i < |s| ==> IsSpace(s[i]) }

  /** Strip takes spaces off both ends and leaves none there. */
  lemma StripMeaning(s: string) returns (left: string, right: string)
    ensures s == left + Strip(s) + right && AllSpace(left) && AllSpace(right)
    ensures Strip(s) != "" ==> !IsSpace(Strip(s)[0]) && !IsSpace(Strip(s)[|Strip(s)| - 1])
  {
    left := StripLeftMeaning(s);
    var rest := StripLeft(s);
    right := StripRightMeaning(rest);
    assert s == left + (Strip(s) + right);
  }

  lemma {:induction false} StripLeftMeaning(s: string) returns (left: string)
    ensures s == left + StripLeft(s) && AllSpace(left)
    ensures StripLeft(s) != "" ==> !IsSpace(StripLeft(s)[0])
  {
    left := "";
    if s != "" && IsSpace(s[0]) {
      var more := StripLeftMeaning(s[1..]);
      left := [s[0]] + more;
      assert s == [s[0]] + s[1..];
    }
  }

  lemma {:induction false} StripRightMeaning(s: string) returns (right: string)
    ensures s == StripRight(s) + right && AllSpace(right)
    ensures StripRight(s) != "" ==> StripRight(s)[0] == s[0] && !IsSpace(StripRight(s)[|StripRight(s)| - 1])
  {
    right := "";
    if s != "" && IsSpace(s[|s| - 1]) {
      var more := StripRightMeaning(s[..|s| - 1]);
      right := more + [s[|s| - 1]];
      assert s == s[..|s| - 1] + [s[|s| - 1]];
      assert StripRight(s) + right == (StripRight(s) + more) + [s[|s| - 1]];
    }
  }

  const UPPER := "ABCDEFGHIJKLMNOPQRSTUVWXYZ"
  const LOWER := "abcdefghijklmnopqrstuvwxyz"

  /** Lower replaces the capitals one by one and leaves every other character alone. */
  lemma LowerMeaning(s: string, i: nat)
    requires i < |s|
    ensures |Lower(s)| == |s|
    ensures forall k :: 0 <= k < |UPPER| && s[i] == UPPER[k] ==> Lower(s)[i] == LOWER[k]
    ensures s[i] !in UPPER ==> Lower(s)[i] == s[i]
  {
    assert forall k :: 0 <= k < |UPPER| ==> UPPER[k] as int == 'A' as int + k && LOWER[k] as int == 'a' as int + k;
    if 'A' <= s[i] <= 'Z' {
      assert UPPER[s[i] as int - 'A' as int] == s[i];
    }
  }
}
