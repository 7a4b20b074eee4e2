/** Placement from locality hints to the Job's node selector: applyPlacementHints and cloneNode
  * of pkg/executor/executor.go, the copy in toAttemptRequest of pkg/backend/spawner_k8s.go,
  * validatePlacement and buildK8sNodeSelector of pkg/spawner/k8s_jobclient.go.
  */
module Placement {
  import opened Spec
  import opened Text

  datatype Mode = RequiredNode | PreferredNode | OtherMode
  datatype Hint = Hint(mode: Mode, nodeName: string)
  datatype Preference = Preference(nodeName: string, weight: int)
  datatype Hints = Hints(nodeSelector: Option<map<string, string>>, required: string, preferred: seq<Preference>)

  const NoHints := Hints(None, "", [])

  predicate Blank(s: string) {
    TrimSpace(s) == ""
  }

  function Selector(p: Hints): map<string, string> {
    if p.nodeSelector.Some? then p.nodeSelector.value else map[]
  }

  /** The existing hostname constraint, "" when there is none. */
  function Hostname(p: Hints): string {
    if HOSTNAME in Selector(p) then TrimSpace(Selector(p)[HOSTNAME]) else ""
  }

  /** A nil placement and an empty one place a node alike. */
  function Normal(p: Option<Hints>): Hints {
    if p.None? then NoHints else p.value.(nodeSelector := Some(Selector(p.value)))
  }

  function SameAs(p: Option<Hints>): Hints {
    if p.None? then NoHints else p.value
  }

  // ---- what the hints ask for, independently of their order ----

  predicate Asks(h: Hint, mode: Mode, name: string) {
    h.mode == mode && h.nodeName == name && !Blank(name)
  }

  ghost predicate Wanted(hints: seq<Hint>, mode: Mode, name: string) {
    exists i :: 0 <= i < |hints| && Asks(hints[i], mode, name)
  }

  ghost predicate NoneWanted(hints: seq<Hint>, mode: Mode) {
    forall n :: !Wanted(hints, mode, n)
  }

  ghost predicate OnlyWanted(hints: seq<Hint>, mode: Mode, name: string) {
    forall n :: Wanted(hints, mode, n) <==> n == name
  }

  /** The hints can be merged into `p`. */
  ghost predicate Mergeable(p: Hints, hints: seq<Hint>) {
    if NoneWanted(hints, RequiredNode) then NoneWanted(hints, PreferredNode) || p.required == ""
    else p.preferred == [] && exists n :: OnlyWanted(hints, RequiredNode, n) && Hostname(p) in ["", n]
  }

  /** The preferred names in the order of their first hint. */
  function FirstPreferred(hints: seq<Hint>): seq<string> {
    if hints == [] then []
    else
      var last := hints[|hints| - 1];
      var before := FirstPreferred(hints[..|hints| - 1]);
      if Asks(last, PreferredNode, last.nodeName) && last.nodeName !in before then before + [last.nodeName] else before
  }

  function Weighted(names: seq<string>): (r: seq<Preference>)
    ensures |r| == |names| && forall i | 0 <= i < |names| :: r[i].nodeName == names[i] && r[i].weight == 100
  {
    seq(|names|, i requires 0 <= i < |names| => Preference(names[i], 100))
  }

  ghost predicate Pinned(p: Hints, was: Hints, name: string) {
    p == Hints(Some(Selector(was)[HOSTNAME := name]), name, [])
  }

  class ExecutionNode {
    var placement: Option<Hints>

    method ApplyPlacementHints(hints: seq<Hint>) returns (ok: bool)
      modifies this
      ensures ok <==> Mergeable(SameAs(old(placement)), hints)
      ensures !ok ==> Normal(placement) == Normal(old(placement))
      ensures ok && NoneWanted(hints, RequiredNode) && NoneWanted(hints, PreferredNode) ==> placement == old(placement)
      ensures ok && NoneWanted(hints, RequiredNode) && !NoneWanted(hints, PreferredNode) ==>
                placement == Some(SameAs(old(placement)).(preferred := Weighted(FirstPreferred(hints))))
      ensures forall n :: ok && Wanted(hints, RequiredNode, n) ==>
                placement.Some? && Pinned(placement.value, SameAs(old(placement)), n)
    {
      var single, requiredNode, hasPreferred := Scan(hints);
      assert requiredNode != "" && single ==> Wanted(hints, RequiredNode, requiredNode);
      hide Wanted;
      if !single {
        return false;
      }
      if requiredNode == "" && !hasPreferred {
        return true;
      }
      if placement.None? {
        placement := Some(NoHints);
      }
      var p := placement.value;
      if requiredNode != "" {
        if |p.preferred| > 0 {
          return false;
        }
        if p.nodeSelector.None? {
          p := p.(nodeSelector := Some(map[]));
          placement := Some(p);
        }
        if Hostname(p) != "" && Hostname(p) != requiredNode {
          return false;
        }
        placement := Some(p.(nodeSelector := Some(p.nodeSelector.value[HOSTNAME := requiredNode]),
                             required := requiredNode));
        return true;
      }
      if p.required != "" {
        return false;
      }
      var names := CollectPreferred(hints);
      SomePreferred(hints);
      placement := Some(p.(preferred := Weighted(names)));
      return true;
    }
  }

  /** The first loop: the one required node, if the required hints agree. */
  method Scan(hints: seq<Hint>) returns (single: bool, requiredNode: string, hasPreferred: bool)
    ensures single && requiredNode == "" ==> NoneWanted(hints, RequiredNode)
    ensures single && requiredNode != "" ==> OnlyWanted(hints, RequiredNode, requiredNode)
    ensures !single ==> !NoneWanted(hints, RequiredNode) && forall n :: !OnlyWanted(hints, RequiredNode, n)
    ensures single ==> (hasPreferred <==> !NoneWanted(hints, PreferredNode))
  {
    requiredNode, hasPreferred := "", false;
    for i := 0 to |hints|
      invariant requiredNode == "" ==> NoneWanted(hints[..i], RequiredNode)
      invariant requiredNode != "" ==> OnlyWanted(hints[..i], RequiredNode, requiredNode)
      invariant hasPreferred <==> !NoneWanted(hints[..i], PreferredNode)
    {
      var h := hints[i];
      ScanNext(hints, i, RequiredNode, requiredNode);
      ScanNext(hints, i, RequiredNode, h.nodeName);
      ScanNext(hints, i, PreferredNode, h.nodeName);
      hide NoneWanted, OnlyWanted;
      match h.mode
      case RequiredNode =>
        if !Blank(h.nodeName) {
          if requiredNode == "" {
            requiredNode := h.nodeName;
          } else if requiredNode != h.nodeName {
            Disagreement(hints, i, requiredNode);
            return false, "", false;
          }
        }
      case PreferredNode =>
        if !Blank(h.nodeName) {
          hasPreferred := true;
        }
      case OtherMode =>
    }
    assert hints[..|hints|] == hints;
    single := true;
  }

  predicate Speaks(h: Hint, mode: Mode) {
    h.mode == mode && !Blank(h.nodeName)
  }

  lemma ScanNext(hints: seq<Hint>, i: nat, mode: Mode, n: string)
    requires i < |hints|
    ensures var before, upTo, h := hints[..i], hints[..i + 1], hints[i];
            && (NoneWanted(upTo, mode) <==> NoneWanted(before, mode) && !Speaks(h, mode))
            && (OnlyWanted(before, mode, n) && (Speaks(h, mode) ==> h.nodeName == n) ==> OnlyWanted(upTo, mode, n))
            && (NoneWanted(before, mode) && Speaks(h, mode) && h.nodeName == n ==> OnlyWanted(upTo, mode, n))
    ensures Blank("")
  {
    var before, upTo, h := hints[..i], hints[..i + 1], hints[i];
    forall m
      ensures Wanted(upTo, mode, m) <==> Wanted(before, mode, m) || (Speaks(h, mode) && h.nodeName == m)
    {
      WantedNext(hints, i, mode, m);
    }
    hide Wanted, Speaks;
    if Speaks(h, mode) {
      assert Wanted(upTo, mode, h.nodeName);
    }
    if m :| Wanted(before, mode, m) {
      assert Wanted(upTo, mode, m);
    }
  }

  lemma Disagreement(hints: seq<Hint>, i: nat, name: string)
    requires i < |hints| && OnlyWanted(hints[..i], RequiredNode, name)
    requires Speaks(hints[i], RequiredNode) && hints[i].nodeName != name
    ensures !NoneWanted(hints, RequiredNode) && forall n :: !OnlyWanted(hints, RequiredNode, n)
  {
    assert Wanted(hints[..i], RequiredNode, name);
    WantedNext(hints, i, RequiredNode, name);
    WantedNext(hints, i, RequiredNode, hints[i].nodeName);
    hide Wanted;
    assert Wanted(hints, RequiredNode, name) && Wanted(hints, RequiredNode, hints[i].nodeName);
  }

  lemma WantedNext(hints: seq<Hint>, i: nat, mode: Mode, n: string)
    requires i < |hints|
    ensures Wanted(hints[..i + 1], mode, n) <==> Wanted(hints[..i], mode, n) || Asks(hints[i], mode, n)
    ensures Wanted(hints[..i + 1], mode, n) ==> Wanted(hints, mode, n)
  {
    hide Asks;
    if Wanted(hints[..i], mode, n) {
      var j :| 0 <= j < i && Asks(hints[..i][j], mode, n);
      assert Asks(hints[..i + 1][j], mode, n);
    }
    if Asks(hints[i], mode, n) {
      assert Asks(hints[..i + 1][i], mode, n);
    }
    if Wanted(hints[..i + 1], mode, n) {
      var j :| 0 <= j < i + 1 && Asks(hints[..i + 1][j], mode, n);
      assert Asks(hints[j], mode, n);
      assert j < i ==> Asks(hints[..i][j], mode, n);
    }
  }

  /** The second loop; `seen` holds the names already taken. */
  method CollectPreferred(hints: seq<Hint>) returns (names: seq<string>)
    ensures names == FirstPreferred(hints)
  {
    names := [];
    var seen: set<string> := {};
    for i := 0 to |hints|
      invariant names == FirstPreferred(hints[..i])
      invariant forall n :: n in seen <==> n in names
    {
      assert hints[..i + 1][..i] == hints[..i];
      var h := hints[i];
      if h.mode == PreferredNode && !Blank(h.nodeName) && h.nodeName !in seen {
        seen := seen + {h.nodeName};
        names := names + [h.nodeName];
      }
    }
    assert hints[..|hints|] == hints;
  }

  // ---- what the preferred names are ----

  ghost predicate FirstAt(hints: seq<Hint>, name: string, i: nat) {
    && i < |hints| && Asks(hints[i], PreferredNode, name)
    && forall k | 0 <= k < i :: !Asks(hints[k], PreferredNode, name)
  }

  ghost predicate InOrder(hints: seq<Hint>, names: seq<string>) {
    forall a, b, i: nat, j: nat |
      0 <= a < b < |names| && FirstAt(hints, names[a], i) && FirstAt(hints, names[b], j) :: i < j
  }

  /** FirstPreferred lists exactly the wanted names, each once, by increasing first hint. */
  lemma {:induction false} PreferredByFirstOccurrence(hints: seq<Hint>)
    ensures forall n :: n in FirstPreferred(hints) <==> Wanted(hints, PreferredNode, n)
    ensures forall a, b | 0 <= a < b < |FirstPreferred(hints)| :: FirstPreferred(hints)[a] != FirstPreferred(hints)[b]
    ensures InOrder(hints, FirstPreferred(hints))
  {
    if hints != [] {
      var m := |hints| - 1;
      var front := hints[..m];
      PreferredByFirstOccurrence(front);
      assert hints[..m + 1] == hints;
      forall n
        ensures Wanted(hints, PreferredNode, n) <==> Wanted(front, PreferredNode, n) || Asks(hints[m], PreferredNode, n)
      {
        WantedNext(hints, m, PreferredNode, n);
      }
      hide Wanted;
      var names := FirstPreferred(hints);
      forall a, b, i: nat, j: nat |
        0 <= a < b < |names| && FirstAt(hints, names[a], i) && FirstAt(hints, names[b], j)
        ensures i < j
      {
        FirstInFront(hints, names[a], i);
        FirstInFront(hints, names[b], j);
      }
    }
  }

  lemma FirstInFront(hints: seq<Hint>, name: string, i: nat)
    requires hints != [] && FirstAt(hints, name, i)
    ensures var front := hints[..|hints| - 1];
            if Wanted(front, PreferredNode, name) then FirstAt(front, name, i) else i == |front|
  {
    var front := hints[..|hints| - 1];
    if Wanted(front, PreferredNode, name) {
      var j :| 0 <= j < |front| && Asks(front[j], PreferredNode, name);
      assert Asks(hints[j], PreferredNode, name);
    }
    assert i < |front| ==> front[i] == hints[i];
  }

  lemma SomePreferred(hints: seq<Hint>)
    ensures FirstPreferred(hints) == [] <==> NoneWanted(hints, PreferredNode)
  {
    PreferredByFirstOccurrence(hints);
    if FirstPreferred(hints) != [] {
      assert FirstPreferred(hints)[0] in FirstPreferred(hints);
    }
  }

  /** Reordering the hints changes neither the verdict nor what is asked for; only the order of
    * the preferred names follows the hints. */
  lemma OrderOfHintsIsIrrelevant(p: Hints, hints: seq<Hint>, other: seq<Hint>)
    requires multiset(hints) == multiset(other)
    ensures Mergeable(p, hints) <==> Mergeable(p, other)
    ensures forall mode, n :: Wanted(hints, mode, n) <==> Wanted(other, mode, n)
    ensures forall n :: n in FirstPreferred(hints) <==> n in FirstPreferred(other)
  {
    forall mode, n
      ensures Wanted(hints, mode, n) <==> Wanted(other, mode, n)
    {
      if Wanted(hints, mode, n) { WantedElsewhere(hints, other, mode, n); }
      if Wanted(other, mode, n) { WantedElsewhere(other, hints, mode, n); }
    }
    PreferredByFirstOccurrence(hints);
    PreferredByFirstOccurrence(other);
    hide Wanted;
    assert forall n :: OnlyWanted(hints, RequiredNode, n) <==> OnlyWanted(other, RequiredNode, n);
  }

  lemma WantedElsewhere(hints: seq<Hint>, other: seq<Hint>, mode: Mode, n: string)
    requires multiset(hints) == multiset(other) && Wanted(hints, mode, n)
    ensures Wanted(other, mode, n)
  {
    var i :| 0 <= i < |hints| && Asks(hints[i], mode, n);
    assert hints[i] in multiset(other);
  }

  // ---- from the node to the Job ----

  /** cloneNode keeps the selector only. */
  function Cloned(p: Option<Hints>): Option<Hints> {
    if p.None? then None else Some(Hints(p.value.nodeSelector, "", []))
  }

  /** validatePlacement on an attempt request, and the same test ValidateExecutableRunSpec makes. */
  predicate ValidPlacement(p: Option<Hints>) {
    p.Some? && p.value.required != "" && p.value.nodeSelector.Some? ==>
      Hostname(p.value) in ["", p.value.required]
  }

  /** buildK8sNodeSelector, the nil map read as the empty one. */
  function NodeSelector(p: Option<Hints>): map<string, string> {
    if p.None? then map[]
    else if p.value.required != "" then Selector(p.value)[HOSTNAME := p.value.required]
    else Selector(p.value)
  }

  /** validatePlacement refuses exactly the placements whose required node would override another
    * node that the selector already demands. */
  lemma InvalidIffOverriding(p: Hints)
    requires p.required != ""
    ensures HOSTNAME in NodeSelector(Some(p)) && NodeSelector(Some(p))[HOSTNAME] == p.required
    ensures forall k | k != HOSTNAME ::
              (k in NodeSelector(Some(p)) <==> p.nodeSelector.Some? && k in p.nodeSelector.value)
              && (k in NodeSelector(Some(p)) ==> NodeSelector(Some(p))[k] == p.nodeSelector.value[k])
    ensures !ValidPlacement(Some(p)) <==>
              && p.nodeSelector.Some? && HOSTNAME in p.nodeSelector.value
              && TrimSpace(p.nodeSelector.value[HOSTNAME]) != ""
              && TrimSpace(p.nodeSelector.value[HOSTNAME]) != NodeSelector(Some(p))[HOSTNAME]
  {
    hide TrimSpace;
  }

  /** Without a required node every placement is valid and the selector is passed on. */
  lemma NoRequirementIsValid(p: Hints)
    requires p.required == ""
    ensures ValidPlacement(Some(p)) && ValidPlacement(None)
    ensures NodeSelector(Some(p)) == (if p.nodeSelector.Some? then p.nodeSelector.value else map[])
    ensures NodeSelector(None) == map[]
  {
  }

  method CopyPreferred(preferred: seq<Preference>) returns (r: seq<Preference>)
    ensures r == preferred
  {
    r := [];
    for i := 0 to |preferred|
      invariant r == preferred[..i]
    {
      r := r + [Preference(preferred[i].nodeName, preferred[i].weight)];
    }
  }

  /** The placement part of toAttemptRequest. */
  method ToAttemptRequest(p: Option<Hints>) returns (r: Option<Hints>)
    ensures r == p
  {
    if p.None? {
      return None;
    }
    var preferred := CopyPreferred(p.value.preferred);
    return Some(Hints(p.value.nodeSelector, p.value.required, preferred));
  }

  /** From a cloned node and its hints to the node selector of the Job: whenever the hints merge,
    * a required node is what the Job's selector demands, and the submission's own validation lets
    * it through exactly when the name carries no surrounding blanks. */
  method PlaceFromHints(declared: Option<Hints>, hints: seq<Hint>)
    returns (ok: bool, request: Option<Hints>)
    ensures ok <==> Mergeable(Hints(SameAs(declared).nodeSelector, "", []), hints)
    ensures forall n :: ok && Wanted(hints, RequiredNode, n) ==>
              && request.Some? && request.value.required == n && request.value.preferred == []
              && NodeSelector(request) == Selector(SameAs(declared))[HOSTNAME := n]
              && (ValidPlacement(request) <==> TrimSpace(n) == n)
    ensures ok && NoneWanted(hints, RequiredNode) ==>
              && ValidPlacement(request)
              && NodeSelector(request) == Selector(SameAs(declared))
              && SameAs(request).preferred == Weighted(FirstPreferred(hints))
  {
    var node := new ExecutionNode;
    node.placement := Cloned(declared);
    ok := node.ApplyPlacementHints(hints);
    request := ToAttemptRequest(node.placement);
    SomePreferred(hints);
    forall n | Wanted(hints, RequiredNode, n)
      ensures !Blank(n) && n != ""
    {
      var i :| 0 <= i < |hints| && Asks(hints[i], RequiredNode, n);
    }
    hide Wanted;
  }
}
