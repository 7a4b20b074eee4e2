/** The string helpers of Go's `strings` package that the modelled code relies on. */
module Text {

  /** unicode.IsSpace */
  predicate IsSpace(c: char) {
    || '\t' <= c <= '\r' || c == ' ' || c == '\U{85}' || c == '\U{A0}' || c == '\U{1680}'
    || '\U{2000}' <= c <= '\U{200A}' || c == '\U{2028}' || c == '\U{2029}'
    || c == '\U{202F}' || c == '\U{205F}' || c == '\U{3000}'
  }

  function TrimLeft(s: string, cut: char -> bool): string {
    if s != "" && cut(s[0]) then TrimLeft(s[1..], cut) else s
  }

  function TrimRight(s: string, cut: char -> bool): string {
    if s != "" && cut(s[|s| - 1]) then TrimRight(s[..|s| - 1], cut) else s
  }

  function Trim(s: string, cut: char -> bool): string {
    TrimRight(TrimLeft(s, cut), cut)
  }

  function TrimSpace(s: string): string {
    Trim(s, IsSpace)
  }

  /** Nothing is left to cut at either end. */
  predicate Tight(s: string, cut: char -> bool) {
    s != "" ==> !cut(s[0]) && !cut(s[|s| - 1])
  }

  predicate HasPrefix(s: string, prefix: string) {
    prefix <= s
  }

  predicate HasSuffix(s: string, suffix: string) {
    |suffix| <= |s| && s[|s| - |suffix|..] == suffix
  }

  lemma {:induction false} TrimLeftShape(s: string, cut: char -> bool)
    ensures var r := TrimLeft(s, cut);
            && |r| <= |s| && r == s[|s| - |r|..]
            && (r != "" ==> !cut(r[0]))
            && forall i | 0 <= i < |s| - |r| :: cut(s[i])
  {
    if s != "" && cut(s[0]) {
      var t, r := s[1..], TrimLeft(s, cut);
      TrimLeftShape(t, cut);
      assert r == t[|t| - |r|..] == s[|s| - |r|..];
      forall i | 0 <= i < |s| - |r|
        ensures cut(s[i])
      {
        assert i > 0 ==> s[i] == t[i - 1];
      }
    }
  }

  lemma {:induction false} TrimRightShape(s: string, cut: char -> bool)
    ensures var r := TrimRight(s, cut);
            && r <= s
            && (r != "" ==> !cut(r[|r| - 1]))
            && forall i | |r| <= i < |s| :: cut(s[i])
  {
    if s != "" && cut(s[|s| - 1]) {
      var t, r := s[..|s| - 1], TrimRight(s, cut);
      TrimRightShape(t, cut);
      assert r <= t <= s;
      forall i | |r| <= i < |s|
        ensures cut(s[i])
      {
        assert i < |t| ==> s[i] == t[i];
      }
    }
  }

  /** Trim returns a tight slice of its argument, cutting only what it may cut. */
  lemma TrimShape(s: string, cut: char -> bool)
    ensures Tight(Trim(s, cut), cut) && |Trim(s, cut)| <= |s|
    ensures forall c | c in Trim(s, cut) :: c in s
    ensures forall c | c in s && !cut(c) :: c in Trim(s, cut)
    ensures Tight(s, cut) ==> Trim(s, cut) == s
  {
    var l := TrimLeft(s, cut);
    TrimLeftShape(s, cut);
    TrimRightShape(l, cut);
    forall c | c in s && !cut(c)
      ensures c in Trim(s, cut)
    {
      var i :| 0 <= i < |s| && s[i] == c;
      var d := |s| - |l|;
      assert d <= i && l[i - d] == c;
      assert i - d < |Trim(s, cut)|;
    }
  }

  /** Trim takes exactly the slice between the first and the last character it may not cut. */
  lemma TrimSlice(s: string, cut: char -> bool) returns (i: nat, j: nat)
    ensures i <= j <= |s| && Trim(s, cut) == s[i..j] && Tight(s[i..j], cut)
    ensures forall k | 0 <= k < i || j <= k < |s| :: cut(s[k])
    ensures (forall k | 0 <= k < |s| :: cut(s[k])) ==> i == j
  {
    var l := TrimLeft(s, cut);
    TrimLeftShape(s, cut);
    TrimRightShape(l, cut);
    var r := Trim(s, cut);
    i := |s| - |l|;
    j := i + |r|;
    assert r == l[..|r|] == s[i..j];
    forall k | j <= k < |s|
      ensures cut(s[k])
    {
      assert l[k - i] == s[k];
    }
    if i < j {
      assert r[0] == s[i];
    }
  }
}
