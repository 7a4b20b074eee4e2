/** The environment keys that carry resolved bindings: written by injectResolvedBindingEnv of
  * pkg/executor/executor.go, read back by buildNodeContractInputs of pkg/backend/spawner_k8s.go.
  */
module EnvKeys {
  import opened Spec
  import opened Text

  const PREFIX := "JUMI_INPUT_"

  datatype Field =
    | Uri | Digest | Size | Mode | NodeLocal | Local
    | Status | Decision | SourceNode | PlacementMode | RequiresMaterialization

  function Suffix(f: Field): string {
    match f
    case Uri => "_URI"
    case Digest => "_EXPECTED_DIGEST"
    case Size => "_EXPECTED_SIZE_BYTES"
    case Mode => "_MATERIALIZATION_MODE"
    case NodeLocal => "_NODE_LOCAL_PATH"
    case Local => "_LOCAL_PATH"
    case Status => "_STATUS"
    case Decision => "_DECISION"
    case SourceNode => "_SOURCE_NODE"
    case PlacementMode => "_PLACEMENT_MODE"
    case RequiresMaterialization => "_REQUIRES_MATERIALIZATION"
  }

  /** The fields a node contract is read from. */
  predicate Contractual(f: Field) {
    f.Uri? || f.Digest? || f.Size? || f.Mode? || f.NodeLocal? || f.Local?
  }

  function Key(base: string, f: Field): string {
    PREFIX + base + Suffix(f)
  }

  function TrimPrefix(s: string, prefix: string): string {
    if HasPrefix(s, prefix) then s[|prefix|..] else s
  }

  function TrimSuffix(s: string, suffix: string): string {
    if HasSuffix(s, suffix) then s[..|s| - |suffix|] else s
  }

  /** The switch of buildNodeContractInputs: the first suffix that fits. */
  function FieldOf(key: string): Option<Field> {
    if HasSuffix(key, "_URI") then Some(Uri)
    else if HasSuffix(key, "_EXPECTED_DIGEST") then Some(Digest)
    else if HasSuffix(key, "_EXPECTED_SIZE_BYTES") then Some(Size)
    else if HasSuffix(key, "_MATERIALIZATION_MODE") then Some(Mode)
    else if HasSuffix(key, "_NODE_LOCAL_PATH") then Some(NodeLocal)
    else if HasSuffix(key, "_LOCAL_PATH") then Some(Local)
    else None
  }

  function Parse(key: string): Option<(string, Field)> {
    if !HasPrefix(key, PREFIX) then None
    else match FieldOf(key)
      case None => None
      case Some(f) => Some((TrimSuffix(TrimPrefix(key, PREFIX), Suffix(f)), f))
  }

  /** A base that swallows the start of "_NODE_LOCAL_PATH". */
  predicate NodeBase(base: string) {
    base == "NODE" || HasSuffix(base, "_NODE")
  }

  // ---- suffixes that exclude each other ----

  /** Two strings that differ at a position counted from the end are not both suffixes. */
  lemma EndsDiffer(key: string, a: string, b: string, j: nat)
    requires HasSuffix(key, a) && j < |a| && j < |b| && a[|a| - 1 - j] != b[|b| - 1 - j]
    ensures !HasSuffix(key, b)
  {
    EndsAt(key, a, j);
    if HasSuffix(key, b) {
      EndsAt(key, b, j);
    }
  }

  lemma EndsAt(key: string, suffix: string, j: nat)
    requires HasSuffix(key, suffix) && j < |suffix|
    ensures |suffix| <= |key| && key[|key| - 1 - j] == suffix[|suffix| - 1 - j]
  {
    assert key[|key| - |suffix|..][|suffix| - 1 - j] == key[|key| - 1 - j];
  }

  lemma KeyEnds(base: string, f: Field)
    ensures HasSuffix(Key(base, f), Suffix(f)) && HasPrefix(Key(base, f), PREFIX)
    ensures TrimSuffix(TrimPrefix(Key(base, f), PREFIX), Suffix(f)) == base
  {
    hide Suffix;
    Parts(PREFIX, base, Suffix(f));
  }

  lemma Parts(a: string, b: string, c: string)
    ensures HasSuffix(a + b + c, c) && HasPrefix(a + b + c, a)
    ensures TrimSuffix(TrimPrefix(a + b + c, a), c) == b
  {
    var s := a + b + c;
    assert s[|s| - |c|..] == c && s[|a|..] == b + c;
    assert (b + c)[|b|..] == c && (b + c)[..|b|] == b;
  }

  /** How far from the end a suffix betrays itself. */
  lemma FieldOfKey(base: string, f: Field)
    requires !f.Local?
    ensures FieldOf(Key(base, f)) == if Contractual(f) then Some(f) else None
  {
    var key := Key(base, f);
    KeyEnds(base, f);
    var s := Suffix(f);
    hide HasSuffix, Key;
    if !f.Uri? { EndsDiffer(key, s, "_URI", 0); }
    if !f.Digest? { EndsDiffer(key, s, "_EXPECTED_DIGEST", 0); }
    if !f.Size? { EndsDiffer(key, s, "_EXPECTED_SIZE_BYTES", if f.Status? then 1 else 0); }
    if !f.Mode? {
      EndsDiffer(key, s, "_MATERIALIZATION_MODE",
                 if f.SourceNode? then 3 else if f.PlacementMode? then 5 else 0);
    }
    if !f.NodeLocal? {
      EndsDiffer(key, s, "_NODE_LOCAL_PATH", 0);
      EndsDiffer(key, s, "_LOCAL_PATH", 0);
    }
  }

  /** "_NODE_LOCAL_PATH" fits a local-path key exactly for the bases NodeBase names. */
  lemma NodeLocalFitsIff(base: string)
    ensures HasSuffix(Key(base, Local), "_NODE_LOCAL_PATH") <==> NodeBase(base)
  {
    var key := Key(base, Local);
    var front := PREFIX + base;
    var n := |front|;
    assert key == front + "_LOCAL_PATH";
    assert key[|key| - 16..] == front[n - 5..] + "_LOCAL_PATH";
    assert "_NODE_LOCAL_PATH" == "_NODE" + "_LOCAL_PATH";
    assert (front[n - 5..] + "_LOCAL_PATH")[..5] == front[n - 5..];
    assert ("_NODE" + "_LOCAL_PATH")[..5] == "_NODE";
    FrontEndsInNode(base);
  }

  lemma FrontEndsInNode(base: string)
    ensures (PREFIX + base)[|PREFIX + base| - 5..] == "_NODE" <==> NodeBase(base)
  {
    var front := PREFIX + base;
    var tail := front[|front| - 5..];
    if |base| >= 5 {
      assert tail == base[|base| - 5..];
    } else if |base| == 4 {
      assert tail == "_" + base && "_NODE"[1..] == "NODE";
      assert tail[1..] == base;
    } else {
      // the underscore before the base sits where "_NODE" has a letter
      assert tail[4 - |base|] == '_' && 0 < 4 - |base|;
      assert "_NODE"[4 - |base|] != '_';
    }
  }

  lemma FieldOfLocalKey(base: string)
    ensures FieldOf(Key(base, Local)) == Some(if NodeBase(base) then NodeLocal else Local)
  {
    var key := Key(base, Local);
    KeyEnds(base, Local);
    NodeLocalFitsIff(base);
    hide HasSuffix, Key, NodeBase;
    EndsDiffer(key, "_LOCAL_PATH", "_URI", 0);
    EndsDiffer(key, "_LOCAL_PATH", "_EXPECTED_DIGEST", 0);
    EndsDiffer(key, "_LOCAL_PATH", "_EXPECTED_SIZE_BYTES", 0);
    EndsDiffer(key, "_LOCAL_PATH", "_MATERIALIZATION_MODE", 0);
  }

  // ---- reading a key back ----

  /** Every key written for a base is read back as that base and field, except that the keys no
    * contract needs are skipped and the local path of a NodeBase is taken for something else. */
  lemma ParseKey(base: string, f: Field)
    ensures !Contractual(f) ==> Parse(Key(base, f)) == None
    ensures Contractual(f) && !(f.Local? && NodeBase(base)) ==> Parse(Key(base, f)) == Some((base, f))
    ensures f.Local? && NodeBase(base) ==> Parse(Key(base, f)).Some? && Parse(Key(base, f)).value.1 == NodeLocal
  {
    KeyEnds(base, f);
    if f.Local? {
      FieldOfLocalKey(base);
    } else {
      FieldOfKey(base, f);
    }
    hide Key, FieldOf, NodeBase, TrimSuffix, TrimPrefix, HasPrefix;
  }

  /** Where the local path of a NodeBase ends up: as the node-local path of this base. */
  function Receiver(base: string): string
    requires NodeBase(base)
  {
    if base == "NODE" then "NODE_LOCAL_PATH" else base[..|base| - 5]
  }

  lemma ReceiverReads(base: string)
    requires NodeBase(base)
    ensures Parse(Key(base, Local)) == Some((Receiver(base), NodeLocal))
    ensures Key(base, Local) == Key(Receiver(base), NodeLocal) <==> base != "NODE"
    ensures Receiver(base) != base
  {
    if base == "NODE" {
      BareNodeReads();
    } else {
      SwallowedNode(Receiver(base));
      assert base == Receiver(base) + "_NODE";
      ParseKey(Receiver(base), NodeLocal);
    }
    hide Parse, Key;
  }

  lemma BareNodeReads()
    ensures Parse(Key("NODE", Local)) == Some(("NODE_LOCAL_PATH", NodeLocal))
    ensures Key("NODE", Local) != Key("NODE_LOCAL_PATH", NodeLocal)
  {
    var key := Key("NODE", Local);
    FieldOfLocalKey("NODE");
    KeyEnds("NODE", Local);
    BareKey();
    hide FieldOf, Key, Parse;
    BareParse(key, "NODE_LOCAL_PATH");
  }

  lemma BareKey()
    ensures Key("NODE", Local) == PREFIX + "NODE_LOCAL_PATH"
  {
    assert "NODE" + "_LOCAL_PATH" == "NODE_LOCAL_PATH";
    Reassociated(PREFIX, "", "NODE", "_LOCAL_PATH");
  }

  lemma BareParse(key: string, rest: string)
    requires key == PREFIX + rest && FieldOf(key) == Some(NodeLocal) && |rest| < |Suffix(NodeLocal)|
    ensures Parse(key) == Some((rest, NodeLocal)) && key != Key(rest, NodeLocal)
  {
    hide FieldOf;
    assert TrimPrefix(key, PREFIX) == rest;
  }

  lemma SwallowedNode(b: string)
    ensures Key(b + "_NODE", Local) == Key(b, NodeLocal)
  {
    Reassociated(PREFIX, b, "_NODE", "_LOCAL_PATH");
    assert "_NODE" + "_LOCAL_PATH" == "_NODE_LOCAL_PATH";
  }

  lemma Reassociated(a: string, b: string, c: string, d: string)
    ensures a + (b + c) + d == a + b + (c + d)
  {
  }

  /** A key that is read was written for the slot it is read as, or is a local path gone astray. */
  lemma WriterOf(base: string, f: Field)
    ensures Parse(Key(base, f)).Some? ==>
              if f.Local? && NodeBase(base) then Parse(Key(base, f)).value == (Receiver(base), NodeLocal)
              else Contractual(f) && Parse(Key(base, f)).value == (base, f)
  {
    ParseKey(base, f);
    if f.Local? && NodeBase(base) {
      ReceiverReads(base);
    }
    hide Parse, Key, NodeBase;
  }

  lemma LocalKeyInjective(b1: string, b2: string)
    requires Key(b1, Local) == Key(b2, Local)
    ensures b1 == b2
  {
    KeyEnds(b1, Local);
    KeyEnds(b2, Local);
    hide Key;
  }

  /** A base can receive a local path, from any environment whatsoever, iff it is no NodeBase. */
  lemma LocalPathReadableIff(base: string)
    ensures (exists key :: Parse(key) == Some((base, Local))) <==> !NodeBase(base)
  {
    ParseKey(base, Local);
    forall key | Parse(key) == Some((base, Local))
      ensures !NodeBase(base)
    {
      ReadAsLocal(key, base);
    }
  }

  lemma ReadAsLocal(key: string, base: string)
    requires Parse(key) == Some((base, Local))
    ensures !NodeBase(base)
  {
    ParsedAsLocal(key, base);
    var rest := key[|PREFIX|..];
    Rejoined(key, rest);
    hide Parse, FieldOf, HasSuffix, HasPrefix, NodeBase;
    if HasSuffix(rest, Suffix(Local)) {
      NodeLocalFitsIff(base);
    } else {
      ShortLocal(key, rest);
    }
  }

  lemma ParsedAsLocal(key: string, base: string)
    requires Parse(key) == Some((base, Local))
    ensures HasPrefix(key, PREFIX) && HasSuffix(key, "_LOCAL_PATH") && !HasSuffix(key, "_NODE_LOCAL_PATH")
    ensures |PREFIX| <= |key| && base == TrimSuffix(key[|PREFIX|..], Suffix(Local))
  {
    hide HasSuffix;
    assert FieldOf(key) == Some(Local);
  }

  lemma Rejoined(key: string, rest: string)
    requires HasPrefix(key, PREFIX) && rest == key[|PREFIX|..]
    ensures key == PREFIX + rest
    ensures HasSuffix(rest, Suffix(Local)) ==> key == Key(TrimSuffix(rest, Suffix(Local)), Local)
  {
    assert key[..|PREFIX|] == PREFIX;
  }

  lemma ShortLocal(key: string, rest: string)
    requires key == PREFIX + rest && HasSuffix(key, "_LOCAL_PATH")
    ensures !NodeBase(rest)
  {
    EndsAt(key, "_LOCAL_PATH", 0);
    assert rest != "" ==> key[|key| - 1] == rest[|rest| - 1];
    if NodeBase(rest) {
      NodeBaseEnds(rest);
    }
  }

  lemma NodeBaseEnds(base: string)
    requires NodeBase(base)
    ensures base != "" && base[|base| - 1] == 'E'
  {
    if HasSuffix(base, "_NODE") {
      EndsAt(base, "_NODE", 0);
    }
  }

  lemma KeyInjective(base: string, f: Field, g: Field)
    requires Key(base, f) == Key(base, g)
    ensures f == g
  {
    assert Key(base, f)[|PREFIX + base|..] == Suffix(f);
    assert Key(base, g)[|PREFIX + base|..] == Suffix(g);
    SuffixInjective(f, g);
  }

  lemma SuffixInjective(f: Field, g: Field)
    requires Suffix(f) == Suffix(g)
    ensures f == g
  {
    var s, t := Suffix(f), Suffix(g);
    assert |s| == |t| && s[1] == t[1] && s[|s| - 2] == t[|t| - 2];
  }
}
