/** What a node contract says equals what the bindings resolved to. */
module ContractRoundTrip {
  import opened Spec
  import opened Text
  import opened EnvKeys
  import opened ContractEnv
  import AttemptId
  import O = StringOrder

  ghost predicate NoInputKeys(env: Env) {
    forall k | k in env :: !HasPrefix(k, PREFIX)
  }

  /** What validateResolvedBindingEnvKeys enforces. */
  ghost predicate DistinctBases(inputs: seq<Input>) {
    forall i, j | 0 <= i < j < |inputs| :: inputs[i].base != inputs[j].base
  }

  /** No local path is written under a base that cannot receive one. */
  ghost predicate Readable(inputs: seq<Input>) {
    forall i | 0 <= i < |inputs| :: NodeBase(inputs[i].base) ==> inputs[i].resolved.localPath == ""
  }

  ghost predicate IsBase(inputs: seq<Input>, b: string) {
    exists i :: 0 <= i < |inputs| && inputs[i].base == b
  }

  ghost function ResolvedOf(inputs: seq<Input>, b: string): Resolved
    requires IsBase(inputs, b)
  {
    var i :| 0 <= i < |inputs| && inputs[i].base == b;
    inputs[i].resolved
  }

  // ---- the slots a list of bindings fills ----

  ghost function Slots(base: string, fields: Fields): Partials {
    map f | f in fields && Contractual(f) :: (base, f) := fields[f]
  }

  ghost function Filled(inputs: seq<Input>): Partials {
    if inputs == [] then map[]
    else
      var last := inputs[|inputs| - 1];
      Filled(inputs[..|inputs| - 1]) + Slots(last.base, Values(last.resolved))
  }

  lemma {:induction false} FilledAt(inputs: seq<Input>, i: nat, f: Field)
    requires DistinctBases(inputs) && i < |inputs|
    ensures var V := Values(inputs[i].resolved);
            Get(Filled(inputs), inputs[i].base, f) == if f in V && Contractual(f) then V[f] else ""
  {
    var n := |inputs| - 1;
    hide Values;
    if i == n {
      FilledBases(inputs[..n], inputs[n].base, f);
    } else {
      FilledAt(inputs[..n], i, f);
    }
  }

  lemma {:induction false} FilledBases(inputs: seq<Input>, b: string, f: Field)
    ensures (b, f) in Filled(inputs) ==> IsBase(inputs, b)
  {
    hide Values;
    if inputs != [] && (b, f) in Filled(inputs) {
      var n := |inputs| - 1;
      FilledLast(inputs, b, f);
      if (b, f) in Filled(inputs[..n]) {
        FilledBases(inputs[..n], b, f);
        BaseOfPrefix(inputs, n, b);
      } else {
        assert inputs[n].base == b;
      }
    }
  }

  /** A slot is filled by the last binding or by one before it. */
  lemma FilledLast(inputs: seq<Input>, b: string, f: Field)
    requires inputs != [] && (b, f) in Filled(inputs)
    ensures (b, f) in Filled(inputs[..|inputs| - 1]) || inputs[|inputs| - 1].base == b
  {
    hide Values;
  }

  lemma BaseOfPrefix(inputs: seq<Input>, n: nat, b: string)
    requires n <= |inputs| && IsBase(inputs[..n], b)
    ensures IsBase(inputs, b)
  {
    var i :| 0 <= i < n && inputs[..n][i].base == b;
    assert inputs[i].base == b;
  }

  // ---- the written environment reads as those slots ----

  ghost predicate Canonical(env: Env) {
    forall k | k in env && Parse(k).Some? :: k == Key(Parse(k).value.0, Parse(k).value.1)
  }

  /** A key just written is either read back as written or not read at all. */
  lemma WrittenKey(base: string, fields: Fields, k: string) returns (f: Field)
    requires k in Entries(base, fields) && !(NodeBase(base) && Local in fields)
    ensures f in fields && k == Key(base, f) && Entries(base, fields)[k] == fields[f]
    ensures Parse(k) == if Contractual(f) then Some((base, f)) else None
  {
    EntriesAt(base, fields, Uri);
    f :| f in fields && k == Key(base, f);
    EntriesAt(base, fields, f);
    ParseKey(base, f);
  }

  lemma ReadAfterWrite(env: Env, got: Partials, base: string, fields: Fields)
    requires Explains(env, got) && Canonical(env)
    requires forall f :: (base, f) !in got
    requires !(NodeBase(base) && Local in fields)
    ensures Explains(env + Entries(base, fields), got + Slots(base, fields))
    ensures Canonical(env + Entries(base, fields))
  {
    var written := Entries(base, fields);
    var env', got' := env + written, got + Slots(base, fields);
    hide Parse, Key, Entries, NodeBase;
    forall k | k in env' && Parse(k).Some?
      ensures Parse(k).value in got' && k == Key(Parse(k).value.0, Parse(k).value.1)
    {
      if k in written {
        var f := WrittenKey(base, fields, k);
      }
    }
    forall slot | slot in got'
      ensures Held(env', slot, got'[slot])
    {
      if slot in Slots(base, fields) {
        var f :| f in fields && Contractual(f) && slot == (base, f);
        EntriesAt(base, fields, f);
        ParseKey(base, f);
        assert env'[Key(base, f)] == got'[slot];
      } else {
        assert Held(env, slot, got[slot]);
        var k :| k in env && Parse(k) == Some(slot) && env[k] == got[slot];
        if k in written {
          var f := WrittenKey(base, fields, k);
        }
        assert env'[k] == got'[slot];
      }
    }
  }

  lemma ValuesAt(r: Resolved)
    ensures var V := Values(r);
            && {Mode, Uri, Digest} <= V.Keys && V[Mode] == r.mode && V[Uri] == r.uri && V[Digest] == r.digest
            && (if r.size > 0 then Size in V && V[Size] == AttemptId.Itoa(r.size) else Size !in V)
            && (if r.nodeLocalPath.Some? then NodeLocal in V && V[NodeLocal] == r.nodeLocalPath.value
                else NodeLocal !in V)
            && (if r.localPath != "" then Local in V && V[Local] == r.localPath else Local !in V)
  {
  }

  lemma {:induction false} InjectedReads(env: Env, inputs: seq<Input>)
    requires NoInputKeys(env) && DistinctBases(inputs) && Readable(inputs)
    ensures Explains(Injected(env, inputs), Filled(inputs)) && Canonical(Injected(env, inputs))
  {
    if inputs == [] {
      NothingRead(env);
    } else {
      var n := |inputs| - 1;
      var last := inputs[n];
      ValuesAt(last.resolved);
      hide Values, Entries, Explains, Canonical, NodeBase, NoInputKeys;
      InjectedReads(env, inputs[..n]);
      forall f
        ensures (last.base, f) !in Filled(inputs[..n])
      {
        FilledBases(inputs[..n], last.base, f);
      }
      ReadAfterWrite(Injected(env, inputs[..n]), Filled(inputs[..n]), last.base, Values(last.resolved));
    }
  }

  lemma NothingRead(env: Env)
    requires NoInputKeys(env)
    ensures Explains(env, map[]) && Canonical(env)
  {
  }

  lemma CanonicalMeansSameValues(env: Env)
    requires Canonical(env)
    ensures SameValues(env)
  {
    hide Parse, Key;
  }

  /** Whatever order the environment is iterated in, exactly the written slots are read. */
  lemma ReadsBackWhatWasWritten(env: Env, inputs: seq<Input>, got: Partials)
    requires NoInputKeys(env) && DistinctBases(inputs) && Readable(inputs)
    requires Explains(Injected(env, inputs), got)
    ensures got == Filled(inputs)
  {
    InjectedReads(env, inputs);
    CanonicalMeansSameValues(Injected(env, inputs));
    ReadingIsDeterminedIff(Injected(env, inputs), got);
  }

  // ---- the size text ----

  lemma {:induction false} DigitsReadBack(n: nat)
    ensures ParseDigits(AttemptId.Itoa(n)) == Some(n)
    ensures forall c | c in AttemptId.Itoa(n) :: '0' <= c <= '9'
  {
    if n < 10 {
      OneDigit(n);
    } else {
      DigitsReadBack(n / 10);
      OneDigit(n % 10);
      AnotherDigit(AttemptId.Itoa(n / 10), n / 10, n % 10);
      hide AttemptId.Digit, ParseDigits;
    }
  }

  lemma OneDigit(d: nat)
    requires d < 10
    ensures '0' <= AttemptId.Digit(d) <= '9' && (AttemptId.Digit(d) - '0') as nat == d
    ensures ParseDigits([AttemptId.Digit(d)]) == Some(d)
  {
  }

  lemma AnotherDigit(front: string, n: nat, d: nat)
    requires d < 10 && ParseDigits(front) == Some(n)
    ensures ParseDigits(front + [AttemptId.Digit(d)]) == Some(n * 10 + d)
  {
    OneDigit(d);
    var c := AttemptId.Digit(d);
    hide AttemptId.Digit;
    assert (front + [c])[..|front|] == front;
  }

  lemma SizeReadsBack(n: nat)
    requires n < INT64_LIMIT
    ensures SizeOf(AttemptId.Itoa(n)) == n
  {
    DigitsReadBack(n);
    var s := AttemptId.Itoa(n);
    assert s[0] in s && s[|s| - 1] in s;
    assert Tight(s, IsSpace);
    TrimShape(s, IsSpace);
  }

  lemma NoSize()
    ensures SizeOf("") == 0
  {
    assert TrimSpace("") == "";
  }

  // ---- the contract ----

  /** The contract entry a binding deserves, said of the binding itself. */
  function Deserved(base: string, r: Resolved, lower: string -> string): Option<ContractInput> {
    var mode := TrimSpace(r.mode);
    if mode == "" || mode == "none" then None
    else Some(ContractInput(lower(base), TrimSpace(r.uri), TrimSpace(r.digest), if r.size > 0 then r.size else 0, mode,
                            TrimSpace(if r.nodeLocalPath.Some? then r.nodeLocalPath.value else ""),
                            TrimSpace(r.localPath)))
  }

  lemma InputIsDeserved(inputs: seq<Input>, b: string, lower: string -> string)
    requires DistinctBases(inputs) && IsBase(inputs, b)
    ensures InputOf(b, Filled(inputs), lower) == Deserved(b, ResolvedOf(inputs, b), lower)
  {
    var r := ResolvedOf(inputs, b);
    var i :| 0 <= i < |inputs| && inputs[i].base == b && inputs[i].resolved == r;
    hide Filled, Values, Get, InputOf, Deserved, IsBase, ResolvedOf;
    FilledAt(inputs, i, Mode);
    FilledAt(inputs, i, Uri);
    FilledAt(inputs, i, Digest);
    FilledAt(inputs, i, Size);
    FilledAt(inputs, i, NodeLocal);
    FilledAt(inputs, i, Local);
    ValuesAt(r);
    FieldsDecide(b, r, Filled(inputs), lower);
  }

  /** The entry is determined by the six fields it is read from. */
  lemma FieldsDecide(b: string, r: Resolved, got: Partials, lower: string -> string)
    requires Get(got, b, Mode) == r.mode && Get(got, b, Uri) == r.uri && Get(got, b, Digest) == r.digest
    requires Get(got, b, Size) == if r.size > 0 then AttemptId.Itoa(r.size) else ""
    requires Get(got, b, NodeLocal) == if r.nodeLocalPath.Some? then r.nodeLocalPath.value else ""
    requires Get(got, b, Local) == r.localPath
    ensures InputOf(b, got, lower) == Deserved(b, r, lower)
  {
    hide Get, TrimSpace, SizeOf;
    if r.size > 0 {
      SizeReadsBack(r.size);
    }
    NoSize();
  }

  ghost function AllDeserved(names: seq<string>, inputs: seq<Input>, lower: string -> string): seq<ContractInput>
    requires forall b | b in names :: IsBase(inputs, b)
  {
    if names == [] then []
    else
      var b := names[|names| - 1];
      var input := Deserved(b, ResolvedOf(inputs, b), lower);
      AllDeserved(names[..|names| - 1], inputs, lower) + (if input.Some? then [input.value] else [])
  }

  lemma {:induction false} EmittedIsDeserved(names: seq<string>, inputs: seq<Input>, lower: string -> string)
    requires DistinctBases(inputs) && forall b | b in names :: IsBase(inputs, b)
    ensures Emitted(names, Filled(inputs), lower) == AllDeserved(names, inputs, lower)
  {
    if names != [] {
      var n := |names| - 1;
      EmittedIsDeserved(names[..n], inputs, lower);
      InputIsDeserved(inputs, names[n], lower);
      hide InputOf, Deserved, Filled;
    }
  }

  /** The bases read are the bases written. */
  lemma BasesReadBack(inputs: seq<Input>, b: string)
    requires DistinctBases(inputs)
    ensures (exists f :: (b, f) in Filled(inputs)) <==> IsBase(inputs, b)
  {
    if f :| (b, f) in Filled(inputs) {
      FilledBases(inputs, b, f);
    }
    if IsBase(inputs, b) {
      var i :| 0 <= i < |inputs| && inputs[i].base == b;
      AlwaysHasUri(inputs, i);
    }
  }

  lemma {:induction false} AlwaysHasUri(inputs: seq<Input>, i: nat)
    requires i < |inputs|
    ensures (inputs[i].base, Uri) in Filled(inputs)
  {
    hide Values, Slots;
    var n := |inputs| - 1;
    if i < n {
      AlwaysHasUri(inputs[..n], i);
    } else {
      UriSlot(inputs[n].base, inputs[n].resolved);
    }
  }

  lemma UriSlot(base: string, r: Resolved)
    ensures (base, Uri) in Slots(base, Values(r))
  {
    ValuesAt(r);
    hide Values;
  }

  /** stripContractInputEnv removes exactly what buildNodeContractInputs reads. */
  lemma StrippedIffRead(key: string)
    ensures Consumed(key) <==> Parse(key).Some?
  {
    assert SUFFIXES[0] == "_URI" && SUFFIXES[1] == "_EXPECTED_DIGEST" && SUFFIXES[2] == "_EXPECTED_SIZE_BYTES";
    assert SUFFIXES[3] == "_MATERIALIZATION_MODE" && SUFFIXES[4] == "_NODE_LOCAL_PATH" && SUFFIXES[5] == "_LOCAL_PATH";
    hide HasSuffix, HasPrefix;
  }

  /** A binding under a base that ends in NODE loses its local path, whatever else is there. */
  lemma NodeBaseLosesItsLocalPath(env: Env, got: Partials, base: string, r: Resolved, lower: string -> string)
    requires Explains(env, got) && NodeBase(base) && TrimSpace(r.localPath) != ""
    ensures Get(got, base, Local) == ""
    ensures Deserved(base, r, lower).Some? ==> InputOf(base, got, lower) != Deserved(base, r, lower)
  {
    LocalPathReadableIff(base);
    hide Parse, NodeBase;
    assert (base, Local) !in got;
    assert TrimSpace("") == "";
  }

  /** The bases of the bindings in increasing order. */
  ghost predicate Lists(names: seq<string>, inputs: seq<Input>) {
    O.Sorted(names) && forall b :: b in names <==> IsBase(inputs, b)
  }

  /** The whole trip: inject, build the contract, strip. */
  method ContractTrip(env: Env, inputs: seq<Input>, lower: string -> string)
    returns (contract: seq<ContractInput>, left: Env)
    requires NoInputKeys(env) && DistinctBases(inputs) && Readable(inputs)
    ensures exists names :: Lists(names, inputs) && contract == AllDeserved(names, inputs, lower)
    ensures forall k :: k in left <==> k in Injected(env, inputs) && Parse(k).None?
    ensures forall k | k in left :: left[k] == Injected(env, inputs)[k]
  {
    var node := new ExecutionEnv(env);
    node.InjectAll(inputs);
    contract := BuildNodeContractInputs(node.env, lower);
    ghost var names, got :| Reading(node.env, names, got) && contract == Emitted(names, got, lower);
    ReadsBackWhatWasWritten(env, inputs, got);
    forall b
      ensures b in names <==> IsBase(inputs, b)
    {
      BasesReadBack(inputs, b);
    }
    EmittedIsDeserved(names, inputs, lower);
    assert Lists(names, inputs);
    node.StripContractInputEnv();
    left := node.env;
    forall k
      ensures k in left <==> k in Injected(env, inputs) && Parse(k).None?
    {
      StrippedIffRead(k);
    }
  }
}
