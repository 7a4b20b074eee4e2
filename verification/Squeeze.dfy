/** The loop the two sanitizers share: characters of one kind are copied, each maximal stretch
  * of others becomes a single substitute.
  */
module Squeeze {
  import opened Text

  function Squeezed(s: string, keep: char -> bool, f: char -> char, sub: char): string {
    if s == "" then ""
    else
      var n := |s| - 1;
      if keep(s[n]) then Squeezed(s[..n], keep, f, sub) + [f(s[n])]
      else if n > 0 && !keep(s[n - 1]) then Squeezed(s[..n], keep, f, sub)
      else Squeezed(s[..n], keep, f, sub) + [sub]
  }

  // ---- where each character of the input ends up ----

  /** A stretch of other characters begins at i. */
  predicate GapAt(s: string, i: nat, keep: char -> bool)
    requires i < |s|
  {
    !keep(s[i]) && (i == 0 || keep(s[i - 1]))
  }

  /** How many characters are kept, and how many stretches of others there are. */
  function Pieces(s: string, keep: char -> bool): nat {
    if s == "" then 0
    else
      var n := |s| - 1;
      Pieces(s[..n], keep) + if keep(s[n]) || GapAt(s, n, keep) then 1 else 0
  }

  /** The place of the i-th character, or of the stretch that begins with it. */
  function Place(s: string, i: nat, keep: char -> bool): nat
    requires i <= |s|
  {
    Pieces(s[..i], keep)
  }

  predicate HasKept(s: string, keep: char -> bool) {
    exists i :: 0 <= i < |s| && keep(s[i])
  }

  /** `r` holds the kept characters of s in order, each through f, and one substitute for each
    * stretch of others, and nothing else. */
  ghost predicate SpellsOut(s: string, r: string, keep: char -> bool, f: char -> char, sub: char) {
    && |r| == Pieces(s, keep)
    && (forall i | 0 <= i < |s| && keep(s[i]) :: Place(s, i, keep) < |r| && r[Place(s, i, keep)] == f(s[i]))
    && (forall i | 0 <= i < |s| && GapAt(s, i, keep) :: Place(s, i, keep) < |r| && r[Place(s, i, keep)] == sub)
  }

  lemma {:induction false} SqueezedSpellsOut(s: string, keep: char -> bool, f: char -> char, sub: char)
    ensures SpellsOut(s, Squeezed(s, keep, f, sub), keep, f, sub)
  {
    if s != "" {
      var n := |s| - 1;
      var q := Squeezed(s, keep, f, sub);
      SqueezedSpellsOut(s[..n], keep, f, sub);
      PiecesNext(s, keep);
      SqueezedNext(s, keep, f, sub);
      forall i | 0 <= i < |s| && (keep(s[i]) || GapAt(s, i, keep))
        ensures Place(s, i, keep) < |q| && q[Place(s, i, keep)] == if keep(s[i]) then f(s[i]) else sub
      {
        SpelledAt(s, i, keep, f, sub);
      }
      hide Squeezed, Pieces, Place, GapAt;
    }
  }

  /** One more character adds its piece, if it has one, and leaves the rest. */
  lemma SqueezedNext(s: string, keep: char -> bool, f: char -> char, sub: char)
    requires s != ""
    ensures var n := |s| - 1;
            Squeezed(s, keep, f, sub)
            == Squeezed(s[..n], keep, f, sub)
               + if keep(s[n]) then [f(s[n])] else if GapAt(s, n, keep) then [sub] else []
  {
  }

  lemma SpelledAt(s: string, i: nat, keep: char -> bool, f: char -> char, sub: char)
    requires i < |s| && (keep(s[i]) || GapAt(s, i, keep))
    requires SpellsOut(s[..|s| - 1], Squeezed(s[..|s| - 1], keep, f, sub), keep, f, sub)
    ensures var q := Squeezed(s, keep, f, sub);
            Place(s, i, keep) < |q| && q[Place(s, i, keep)] == if keep(s[i]) then f(s[i]) else sub
  {
    var n := |s| - 1;
    SqueezedNext(s, keep, f, sub);
    assert s[..i] == if i < n then s[..n][..i] else s[..n];
    assert i < n ==> s[..n][i] == s[i] && (i > 0 ==> s[..n][i - 1] == s[i - 1]);
    hide Squeezed, Pieces;
  }

  lemma PiecesNext(s: string, keep: char -> bool)
    requires s != ""
    ensures var n := |s| - 1;
            Pieces(s, keep) == Pieces(s[..n], keep) + if keep(s[n]) || GapAt(s, n, keep) then 1 else 0
  {
  }

  /** A tight slice that loses only substitutes loses at most the ones for a stretch at either end. */
  function Lead(s: string, keep: char -> bool): nat {
    if s != "" && !keep(s[0]) then 1 else 0
  }

  function Trail(s: string, keep: char -> bool): nat {
    if s != "" && !keep(s[|s| - 1]) then 1 else 0
  }

  /** Up to the first kept character there is at most one piece. */
  lemma {:induction false} BeforeFirst(s: string, i: nat, keep: char -> bool)
    requires i <= |s| && forall k | 0 <= k < i :: !keep(s[k])
    ensures Place(s, i, keep) == if i == 0 then 0 else 1
  {
    if i > 0 {
      BeforeFirst(s, i - 1, keep);
      var t := s[..i];
      assert t[..i - 1] == s[..i - 1];
      assert t[i - 1] == s[i - 1];
    }
  }

  /** After the last kept character there is at most one piece. */
  lemma {:induction false} AfterLast(s: string, i: nat, keep: char -> bool)
    requires i < |s| && keep(s[i]) && forall k | i < k < |s| :: !keep(s[k])
    ensures Place(s, i, keep) + 1 + Trail(s, keep) == Pieces(s, keep)
  {
    var n := |s| - 1;
    if i < n {
      var t := s[..n];
      if i < n - 1 {
        AfterLast(t, i, keep);
      } else {
        assert t[..i] == s[..i];
        PiecesNext(t, keep);
      }
      assert t[..i] == s[..i];
      PiecesNext(s, keep);
    } else {
      PiecesNext(s, keep);
    }
  }

  lemma {:induction false} FirstKept(s: string, keep: char -> bool) returns (i: nat)
    requires HasKept(s, keep)
    ensures i < |s| && keep(s[i]) && forall k | 0 <= k < i :: !keep(s[k])
  {
    if keep(s[0]) {
      i := 0;
    } else {
      var t := s[1..];
      var j :| 0 <= j < |s| && keep(s[j]);
      assert t[j - 1] == s[j];
      var k := FirstKept(t, keep);
      i := k + 1;
      assert forall m | 1 <= m < i :: s[m] == t[m - 1];
    }
  }

  lemma {:induction false} LastKept(s: string, keep: char -> bool) returns (i: nat)
    requires HasKept(s, keep)
    ensures i < |s| && keep(s[i]) && forall k | i < k < |s| :: !keep(s[k])
  {
    var n := |s| - 1;
    if keep(s[n]) {
      i := n;
    } else {
      var t := s[..n];
      var j :| 0 <= j < |s| && keep(s[j]);
      assert t[j] == s[j];
      i := LastKept(t, keep);
      assert forall m | i < m < n :: s[m] == t[m];
    }
  }

  /** Trimming the substitutes off a squeezed string takes the stretch at either end, and with it
    * everything if no character was kept. */
  lemma TrimmedEnds(s: string, keep: char -> bool, f: char -> char, sub: char, cut: char -> bool)
    requires cut(sub) && forall c | keep(c) :: !cut(f(c))
    ensures var q := Squeezed(s, keep, f, sub);
            if HasKept(s, keep) then
              Lead(s, keep) + Trail(s, keep) < |q| && Trim(q, cut) == q[Lead(s, keep)..|q| - Trail(s, keep)]
            else Trim(q, cut) == ""
  {
    var q := Squeezed(s, keep, f, sub);
    SqueezedSpellsOut(s, keep, f, sub);
    var i, j := TrimSlice(q, cut);
    if HasKept(s, keep) {
      EndsOfSqueezed(s, q, keep, f, sub);
      hide Squeezed, SpellsOut, HasKept, Trim;
      SliceBetween(q, Lead(s, keep), Trail(s, keep), i, j, cut);
    } else {
      NothingKept(s, keep, f, sub);
    }
  }

  /** The first and the last kept character, and what stands before and after them. */
  lemma EndsOfSqueezed(s: string, q: string, keep: char -> bool, f: char -> char, sub: char)
    requires SpellsOut(s, q, keep, f, sub) && HasKept(s, keep)
    ensures Lead(s, keep) + Trail(s, keep) < |q|
    ensures exists c :: keep(c) && q[Lead(s, keep)] == f(c)
    ensures exists c :: keep(c) && q[|q| - 1 - Trail(s, keep)] == f(c)
    ensures Lead(s, keep) == 1 ==> q[0] == sub
    ensures Trail(s, keep) == 1 ==> q[|q| - 1] == sub
  {
    var first := FirstKept(s, keep);
    var last := LastKept(s, keep);
    BeforeFirst(s, first, keep);
    AfterLast(s, last, keep);
    PlacesGrow(s, first, last, keep);
    hide Pieces;
    KeptPlace(s, q, first, keep, f, sub);
    KeptPlace(s, q, last, keep, f, sub);
    if Lead(s, keep) == 1 {
      BeforeFirst(s, 0, keep);
      GapPlace(s, q, 0, keep, f, sub);
    }
    if Trail(s, keep) == 1 {
      PlaceNext(s, last, keep);
      GapPlace(s, q, last + 1, keep, f, sub);
    }
  }

  lemma {:induction false} PlacesGrow(s: string, i: nat, j: nat, keep: char -> bool)
    requires i <= j <= |s|
    ensures Place(s, i, keep) <= Place(s, j, keep)
  {
    if i < j {
      PlacesGrow(s, i, j - 1, keep);
      assert s[..j][..j - 1] == s[..j - 1];
    }
  }

  lemma SliceBetween(q: string, lead: nat, trail: nat, i: nat, j: nat, cut: char -> bool)
    requires lead <= 1 && trail <= 1 && lead + trail < |q| && i <= j <= |q|
    requires !cut(q[lead]) && !cut(q[|q| - 1 - trail])
    requires (lead == 1 ==> cut(q[0])) && (trail == 1 ==> cut(q[|q| - 1]))
    requires Tight(q[i..j], cut) && forall k | 0 <= k < i || j <= k < |q| :: cut(q[k])
    ensures i == lead && j == |q| - trail
  {
    assert i <= lead && j >= |q| - trail;
    assert q[i..j][0] == q[i] && q[i..j][j - i - 1] == q[j - 1];
  }

  lemma KeptPlace(s: string, q: string, i: nat, keep: char -> bool, f: char -> char, sub: char)
    requires SpellsOut(s, q, keep, f, sub) && i < |s| && keep(s[i])
    ensures Place(s, i, keep) < |q| && q[Place(s, i, keep)] == f(s[i])
  {
  }

  lemma GapPlace(s: string, q: string, i: nat, keep: char -> bool, f: char -> char, sub: char)
    requires SpellsOut(s, q, keep, f, sub) && i < |s| && GapAt(s, i, keep)
    ensures Place(s, i, keep) < |q| && q[Place(s, i, keep)] == sub
  {
  }

  lemma PlaceNext(s: string, i: nat, keep: char -> bool)
    requires i < |s| && keep(s[i])
    ensures Place(s, i + 1, keep) == Place(s, i, keep) + 1
  {
    assert s[..i + 1][..i] == s[..i];
    assert s[..i + 1][i] == s[i];
  }

  lemma {:induction false} NothingKept(s: string, keep: char -> bool, f: char -> char, sub: char)
    requires !HasKept(s, keep)
    ensures forall c | c in Squeezed(s, keep, f, sub) :: c == sub
  {
    if s != "" {
      assert !keep(s[|s| - 1]);
      assert forall k | 0 <= k < |s| - 1 :: s[..|s| - 1][k] == s[k];
      NothingKept(s[..|s| - 1], keep, f, sub);
    }
  }
}
