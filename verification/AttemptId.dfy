/** Deterministic attempt identities (pkg/spec/types.go) and when two of them coincide. */
module AttemptId {

  function Digit(d: nat): (c: char)
    requires d < 10
    ensures c != '-'
  {
    "0123456789"[d]
  }

  /** strconv.Itoa on non-negative numbers. */
  function Itoa(n: nat): (s: string)
    ensures s != ""
    ensures '-' !in s
  {
    if n < 10 then [Digit(n)] else Itoa(n / 10) + [Digit(n % 10)]
  }

  const INFIX := "-attempt-"

  function DeterministicAttemptID(runID: string, nodeID: string, attempt: nat): (id: string)
    ensures id != ""
  {
    runID + "-" + nodeID + INFIX + Itoa(attempt)
  }

  lemma {:induction false} ItoaInjective(m: nat, n: nat)
    requires Itoa(m) == Itoa(n)
    ensures m == n
    decreases m
  {
    var s, t := Itoa(m), Itoa(n);
    assert s[|s| - 1] == Digit(m % 10) && t[|t| - 1] == Digit(n % 10);
    if m >= 10 && n >= 10 {
      assert s[..|s| - 1] == Itoa(m / 10) && t[..|t| - 1] == Itoa(n / 10);
      ItoaInjective(m / 10, n / 10);
    }
  }

  /** A dash-free tail after a dash is found from the right in only one way. */
  lemma LastDashSplits(p: string, d: string, q: string, e: string)
    requires '-' !in d && '-' !in e
    requires p + "-" + d == q + "-" + e
    ensures p == q && d == e
  {
    var s := p + "-" + d;
    assert forall i :: |p| < i < |s| ==> s[i] == d[i - |p| - 1];
    assert forall i :: |q| < i < |s| ==> s[i] == (q + "-" + e)[i] == e[i - |q| - 1];
    assert s[|p|] == '-' && s[|q|] == '-';
    assert p == s[..|p|] == s[..|q|] == q;
    assert d == s[|p| + 1..] == s[|q| + 1..] == e;
  }

  /** Two identities coincide exactly when the numbers agree and the joined run and node
    * names agree; node names that contain "-attempt-" make no difference. */
  lemma IdentityCollision(r1: string, n1: string, k1: nat, r2: string, n2: string, k2: nat)
    ensures DeterministicAttemptID(r1, n1, k1) == DeterministicAttemptID(r2, n2, k2)
       <==> k1 == k2 && r1 + "-" + n1 == r2 + "-" + n2
  {
    var p1, p2 := r1 + "-" + n1 + "-attempt", r2 + "-" + n2 + "-attempt";
    assert DeterministicAttemptID(r1, n1, k1) == p1 + "-" + Itoa(k1) by { assert INFIX == "-attempt" + "-"; }
    assert DeterministicAttemptID(r2, n2, k2) == p2 + "-" + Itoa(k2) by { assert INFIX == "-attempt" + "-"; }
    if p1 + "-" + Itoa(k1) == p2 + "-" + Itoa(k2) {
      LastDashSplits(p1, Itoa(k1), p2, Itoa(k2));
      ItoaInjective(k1, k2);
      var m := |"-attempt"|;
      assert r1 + "-" + n1 == p1[..|p1| - m] == p2[..|p2| - m] == r2 + "-" + n2;
    }
  }

  /** Within one run, node and attempt number can be read back from the identity. */
  lemma InjectiveWithinRun(runID: string, n1: string, k1: nat, n2: string, k2: nat)
    requires DeterministicAttemptID(runID, n1, k1) == DeterministicAttemptID(runID, n2, k2)
    ensures n1 == n2 && k1 == k2
  {
    IdentityCollision(runID, n1, k1, runID, n2, k2);
    var m := |runID| + 1;
    assert n1 == (runID + "-" + n1)[m..] == (runID + "-" + n2)[m..] == n2;
  }

  /** Across runs it is not injective. */
  lemma CollidesAcrossRuns(k: nat)
    ensures DeterministicAttemptID("a-b", "c", k) == DeterministicAttemptID("a", "b-c", k)
  {
    assert "a-b" + "-" + "c" == "a" + "-" + "b-c";
  }
}
