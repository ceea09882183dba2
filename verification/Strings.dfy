/** The string operations identifiers go through. */
module Strings {
  import opened Ordering

  function Codes(s: string): seq<nat> {
    seq(|s|, i requires 0 <= i < |s| => s[i] as nat)
  }

  /** `a <= b` for strings: by code points. */
  predicate TextLeq(a: string, b: string) {
    LexLeq(Codes(a), Codes(b))
  }

  lemma TextsOrdered()
    ensures IsOrder(TextLeq)
    ensures forall a, b | TextLeq(a, b) && TextLeq(b, a) :: a == b
  {
    hide LexLeq, Codes;
    forall a, b ensures TextLeq(a, b) || TextLeq(b, a) {
      LexTotal(Codes(a), Codes(b));
    }
    forall a, b, c | TextLeq(a, b) && TextLeq(b, c) ensures TextLeq(a, c) {
      LexTransitive(Codes(a), Codes(b), Codes(c));
    }
    forall a, b | TextLeq(a, b) && TextLeq(b, a) ensures a == b {
      LexAntisymmetric(Codes(a), Codes(b));
      SameCodes(a, b);
    }
  }

  /** At the first difference the lesser character decides, and a prefix comes first. */
  lemma {:induction false} TextOrder(a: string, b: string, n: nat)
    requires n <= |a| && n <= |b| && a[..n] == b[..n]
    ensures n < |a| && n < |b| && a[n] != b[n] ==> (TextLeq(a, b) <==> a[n] < b[n])
    ensures n == |a| ==> TextLeq(a, b)
    ensures n == |b| < |a| ==> !TextLeq(a, b)
  {
    if n > 0 {
      assert a[0] == a[..n][0] == b[..n][0] == b[0];
      assert Codes(a)[1..] == Codes(a[1..]) && Codes(b)[1..] == Codes(b[1..]);
      assert a[1..][..n - 1] == a[..n][1..] && b[1..][..n - 1] == b[..n][1..];
      TextOrder(a[1..], b[1..], n - 1);
    }
  }

  lemma SameCodes(a: string, b: string)
    requires Codes(a) == Codes(b)
    ensures a == b
  {
    assert |Codes(a)| == |a| && |Codes(b)| == |b|;
    forall i | 0 <= i < |a| ensures a[i] == b[i] {
      assert Codes(a)[i] == Codes(b)[i];
    }
  }

  /** ASCII white space: the blank, tab to carriage return, and the four separators. */
  predicate Blank(c: char) {
    c == ' ' || 9 as char <= c <= 13 as char || 28 as char <= c <= 31 as char
  }

  function StripLeft(s: string): (r: string)
    ensures r == [] || !Blank(r[0])
    ensures s != [] && !Blank(s[0]) ==> r == s
    ensures |r| <= |s| && r == s[|s| - |r|..]
  {
    if s == [] || !Blank(s[0]) then s else StripLeft(s[1..])
  }

  function StripRight(s: string): (r: string)
    ensures r == [] || !Blank(r[|r| - 1])
    ensures s != [] && !Blank(s[|s| - 1]) ==> r == s
    ensures |r| <= |s| && r == s[..|r|]
  {
    if s == [] || !Blank(s[|s| - 1]) then s else StripRight(s[..|s| - 1])
  }

  /** `str.strip`. */
  function Strip(s: string): (r: string)
    ensures r == [] || (!Blank(r[0]) && !Blank(r[|r| - 1]))
  {
    StripLeft(StripRight(s))
  }

  /** Stripping keeps a string that starts and ends with other characters. */
  lemma StripKeeps(s: string)
    requires s != [] && !Blank(s[0]) && !Blank(s[|s| - 1])
    ensures Strip(s) == s
  {
  }

  /** Stripping takes away white space at both ends and nothing else. */
  lemma StripExactly(s: string) returns (left: nat, right: nat)
    ensures left <= right <= |s| && Strip(s) == s[left..right]
    ensures forall i | 0 <= i < left || right <= i < |s| :: Blank(s[i])
    ensures left < right ==> !Blank(s[left]) && !Blank(s[right - 1])
  {
    hide Blank;
    var t := StripRight(s);
    right := |t|;
    left := right - |StripLeft(t)|;
    RightBlank(s);
    LeftBlank(t);
    assert t[left..] == s[left..right];
    hide StripLeft, StripRight;
  }

  lemma {:induction false} RightBlank(s: string)
    ensures forall i | |StripRight(s)| <= i < |s| :: Blank(s[i])
  {
    if s != [] && Blank(s[|s| - 1]) {
      RightBlank(s[..|s| - 1]);
    }
  }

  lemma {:induction false} LeftBlank(s: string)
    ensures forall i | 0 <= i < |s| - |StripLeft(s)| :: Blank(s[i])
  {
    if s != [] && Blank(s[0]) {
      LeftBlank(s[1..]);
      assert forall i | 1 <= i < |s| :: s[i] == s[1..][i - 1];
    }
  }

  lemma StripTwice(s: string)
    ensures Strip(Strip(s)) == Strip(s)
  {
  }

  predicate StartsWith(s: string, prefix: string) {
    prefix <= s
  }

  lemma PrefixedIsNotBlank(s: string, prefix: string)
    requires StartsWith(s, prefix) && prefix != [] && !Blank(prefix[0])
    ensures Strip(s) != []
  {
    NonBlankStays(s, 0);
  }

  /** A string with a character that is not blank does not strip to nothing. */
  lemma {:induction false} NonBlankStays(s: string, i: nat)
    requires i < |s| && !Blank(s[i])
    ensures Strip(s) != []
  {
    StripRightStays(s, i);
    StripLeftStays(StripRight(s), i);
  }

  lemma {:induction false} StripRightStays(s: string, i: nat)
    requires i < |s| && !Blank(s[i])
    ensures i < |StripRight(s)|
    decreases |s|
  {
    if Blank(s[|s| - 1]) {
      StripRightStays(s[..|s| - 1], i);
    }
  }

  lemma {:induction false} StripLeftStays(s: string, i: nat)
    requires i < |s| && !Blank(s[i])
    ensures StripLeft(s) != []
    decreases |s|
  {
    if Blank(s[0]) {
      StripLeftStays(s[1..], i - 1);
    }
  }
}
