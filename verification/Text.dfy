/** The few string operations the gateway relies on, over ASCII letters and Go's white space. */
module Text {
  /** Go's unicode.IsSpace. */
  predicate IsSpace(c: char) {
    var n := c as int;
    || 9 <= n <= 13 || n == 32 || n == 0x85 || n == 0xA0 || n == 0x1680
    || 0x2000 <= n <= 0x200A || n == 0x2028 || n == 0x2029 || n == 0x202F || n == 0x205F || n == 0x3000
  }

  function UpperChar(c: char): char { if 'a' <= c <= 'z' then c - 'a' + 'A' else c }

  function ToUpper(s: string): (r: string)
    ensures |r| == |s|
    ensures forall i :: 0 <= i < |s| ==> r[i] == UpperChar(s[i])
  {
    if s == "" then "" else [UpperChar(s[0])] + ToUpper(s[1..])
  }

  function TrimLeft(s: string): string {
    if s != "" && IsSpace(s[0]) then TrimLeft(s[1..]) else s
  }

  function TrimRight(s: string): string {
    if s != "" && IsSpace(s[|s| - 1]) then TrimRight(s[..|s| - 1]) else s
  }

  function TrimSpace(s: string): string { TrimRight(TrimLeft(s)) }

  lemma UpperIdempotent(s: string)
    ensures ToUpper(ToUpper(s)) == ToUpper(s)
  {
    assert forall i :: 0 <= i < |s| ==> UpperChar(UpperChar(s[i])) == UpperChar(s[i]);
    assert |ToUpper(ToUpper(s))| == |ToUpper(s)|;
  }

  /** Everything outside i..j is white space, and that stretch neither begins nor ends with any. */
  predicate Between(s: string, i: nat, j: nat) {
    && i <= j <= |s|
    && (forall k :: 0 <= k < |s| && (k < i || j <= k) ==> IsSpace(s[k]))
    && (i < j ==> !IsSpace(s[i]) && !IsSpace(s[j - 1]))
  }

  /** m is s without the white space around it. */
  predicate Stripped(s: string, m: string) { exists i, j :: 0 <= i <= j <= |s| && Between(s, i, j) && m == s[i..j] }

  lemma {:induction false} TrimLeftAt(s: string) returns (i: nat)
    ensures i <= |s| && TrimLeft(s) == s[i..] && (i < |s| ==> !IsSpace(s[i]))
    ensures forall k :: 0 <= k < i ==> IsSpace(s[k])
  {
    i := 0;
    if s != "" && IsSpace(s[0]) {
      var n := TrimLeftAt(s[1..]);
      i := n + 1;
      assert forall k :: 1 <= k < i ==> s[k] == s[1..][k - 1];
    }
  }

  lemma {:induction false} TrimRightAt(s: string) returns (j: nat)
    ensures j <= |s| && TrimRight(s) == s[..j] && (j > 0 ==> !IsSpace(s[j - 1]))
    ensures forall k :: j <= k < |s| ==> IsSpace(s[k])
  {
    j := |s|;
    if s != "" && IsSpace(s[|s| - 1]) {
      j := TrimRightAt(s[..|s| - 1]);
    }
  }

  lemma TrimSpaceAt(s: string) returns (i: nat, j: nat)
    ensures Between(s, i, j) && TrimSpace(s) == s[i..j]
  {
    i := TrimLeftAt(s);
    var n := TrimRightAt(s[i..]);
    j := i + n;
    assert forall k :: i <= k < |s| ==> s[k] == s[i..][k - i];
  }

  lemma OneStretch(s: string, i: nat, j: nat, k: nat, l: nat)
    requires Between(s, i, j) && Between(s, k, l)
    ensures s[i..j] == s[k..l]
  {
  }

  /** Trimming takes away the white space on both sides and nothing else: its result is the only one there
      is. */
  lemma TrimSpaceStrips(s: string, m: string)
    ensures Stripped(s, m) <==> m == TrimSpace(s)
  {
    var i, j := TrimSpaceAt(s);
    if Stripped(s, m) {
      var k, l :| 0 <= k <= l <= |s| && Between(s, k, l) && m == s[k..l];
      OneStretch(s, i, j, k, l);
    }
  }
}
