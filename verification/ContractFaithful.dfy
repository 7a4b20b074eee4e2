/** Exactly when every binding gets the contract entry it deserves, whatever the environment's
  * iteration order: a local path written under a base ending in NODE is lost to its own binding
  * and can displace the node-local path of another.
  */
module ContractFaithful {
  import opened Spec
  import opened Text
  import opened EnvKeys
  import opened ContractEnv
  import opened ContractRoundTrip

  ghost predicate Faithful(inputs: seq<Input>, got: Partials, lower: string -> string) {
    forall i | 0 <= i < |inputs| :: FaithfulAt(inputs[i], got, lower)
  }

  ghost predicate FaithfulAt(input: Input, got: Partials, lower: string -> string) {
    InputOf(input.base, got, lower) == Deserved(input.base, input.resolved, lower)
  }

  predicate Materialized(r: Resolved) {
    var mode := TrimSpace(r.mode);
    mode != "" && mode != "none"
  }

  predicate Misplaced(input: Input) {
    NodeBase(input.base) && input.resolved.localPath != ""
  }

  /** `astray` writes its local path where `input` has its node-local path. */
  predicate Disturbs(astray: Input, input: Input) {
    Misplaced(astray) && Receiver(astray.base) == input.base
  }

  /** `input` has a node-local path, which is the same text up to blanks or is written later, to
    * the same key. */
  predicate Harmless(inputs: seq<Input>, j: nat, i: nat)
    requires i < |inputs| && j < |inputs|
  {
    var path := inputs[i].resolved.nodeLocalPath;
    && path.Some?
    && (TrimSpace(path.value) == TrimSpace(inputs[j].resolved.localPath) || (j < i && inputs[j].base != "NODE"))
  }

  /** No materialized binding has its local path misplaced or its node-local path displaced. */
  ghost predicate Undisturbed(inputs: seq<Input>) {
    forall i | 0 <= i < |inputs| && Materialized(inputs[i].resolved) ::
      !Misplaced(inputs[i]) && forall j | 0 <= j < |inputs| && Disturbs(inputs[j], inputs[i]) :: Harmless(inputs, j, i)
  }

  /** sanitizeResolvedLocalPath answers the empty path or one that is not blank. */
  ghost predicate PathsAreNotBlank(inputs: seq<Input>) {
    forall i | 0 <= i < |inputs| ::
      inputs[i].resolved.localPath != "" ==> TrimSpace(inputs[i].resolved.localPath) != ""
  }

  // ---- which binding a value comes from ----

  ghost predicate Writes(inputs: seq<Input>, j: nat, f: Field, k: string) {
    j < |inputs| && f in Values(inputs[j].resolved) && k == Key(inputs[j].base, f)
  }

  ghost predicate LastWrite(inputs: seq<Input>, j: nat, f: Field, k: string) {
    Writes(inputs, j, f, k) && forall j': nat, g | j < j' :: !Writes(inputs, j', g, k)
  }

  lemma {:induction false} InjectedFrom(env: Env, inputs: seq<Input>, k: string) returns (j: nat, f: Field)
    requires inputs != [] && NoInputKeys(env) && k in Injected(env, inputs) && HasPrefix(k, PREFIX)
    ensures LastWrite(inputs, j, f, k) && Injected(env, inputs)[k] == Values(inputs[j].resolved)[f]
  {
    hide Key, Values, Entries, HasPrefix;
    var n := |inputs| - 1;
    var last := inputs[n];
    EntriesAt(last.base, Values(last.resolved), Uri);
    if k in Entries(last.base, Values(last.resolved)) {
      f :| f in Values(last.resolved) && k == Key(last.base, f);
      EntriesAt(last.base, Values(last.resolved), f);
      j := n;
    } else {
      j, f := InjectedFrom(env, inputs[..n], k);
      forall j': nat, g | j < j'
        ensures !Writes(inputs, j', g, k)
      {
        if j' == n {
          EntriesAt(last.base, Values(last.resolved), g);
        } else {
          assert !Writes(inputs[..n], j', g, k);
        }
      }
    }
  }

  lemma {:induction false} WrittenThere(env: Env, inputs: seq<Input>, j: nat, f: Field)
    requires j < |inputs| && f in Values(inputs[j].resolved)
    ensures Key(inputs[j].base, f) in Injected(env, inputs)
  {
    hide Key, Values, Entries;
    var n := |inputs| - 1;
    if j < n {
      WrittenThere(env, inputs[..n], j, f);
    } else {
      EntriesAt(inputs[n].base, Values(inputs[n].resolved), f);
    }
  }

  /** Whoever wrote the key a slot is read from: the slot's own binding, or one gone astray. */
  lemma SlotFrom(env: Env, inputs: seq<Input>, k: string, slot: Slot) returns (j: nat, f: Field)
    requires NoInputKeys(env) && k in Injected(env, inputs) && Parse(k) == Some(slot)
    ensures LastWrite(inputs, j, f, k) && Injected(env, inputs)[k] == Values(inputs[j].resolved)[f]
    ensures if f.Local? && NodeBase(inputs[j].base) then slot == (Receiver(inputs[j].base), NodeLocal)
            else slot == (inputs[j].base, f) && Contractual(f)
  {
    assert HasPrefix(k, PREFIX);
    j, f := InjectedFrom(env, inputs, k);
    WriterOf(inputs[j].base, f);
    hide Parse, Key, NodeBase, HasPrefix, Injected, Values;
  }

  /** Every slot but a displaced or misplaced one holds what its binding wrote. */
  lemma OwnSlot(env: Env, inputs: seq<Input>, got: Partials, i: nat, f: Field)
    requires NoInputKeys(env) && DistinctBases(inputs) && Explains(Injected(env, inputs), got)
    requires i < |inputs| && Contractual(f) && !f.NodeLocal? && !(f.Local? && Misplaced(inputs[i]))
    ensures var V := Values(inputs[i].resolved);
            Get(got, inputs[i].base, f) == if f in V then V[f] else ""
  {
    hide Parse, Key, Injected, Values, NodeBase;
    var b, V := inputs[i].base, Values(inputs[i].resolved);
    var env' := Injected(env, inputs);
    ValuesAt(inputs[i].resolved);
    if f in V {
      WrittenThere(env, inputs, i, f);
      WriterOf(b, f);
      ParseKey(b, f);
    }
    if (b, f) in got {
      assert Held(env', (b, f), got[(b, f)]);
      var k :| k in env' && Parse(k) == Some((b, f)) && env'[k] == got[(b, f)];
      var j, g := SlotFrom(env, inputs, k, (b, f));
      assert j == i;
    }
  }

  /** The node-local path of a binding that nothing displaces for good. */
  lemma OwnNodeLocal(env: Env, inputs: seq<Input>, got: Partials, i: nat)
    requires NoInputKeys(env) && DistinctBases(inputs) && Explains(Injected(env, inputs), got)
    requires i < |inputs| && forall j | 0 <= j < |inputs| && Disturbs(inputs[j], inputs[i]) :: Harmless(inputs, j, i)
    ensures var path := inputs[i].resolved.nodeLocalPath;
            TrimSpace(Get(got, inputs[i].base, NodeLocal)) == TrimSpace(if path.Some? then path.value else "")
  {
    hide Parse, Key, Injected, Values, NodeBase, TrimSpace, Receiver;
    var b, r := inputs[i].base, inputs[i].resolved;
    var env' := Injected(env, inputs);
    ValuesAt(r);
    if r.nodeLocalPath.Some? {
      WrittenThere(env, inputs, i, NodeLocal);
      ParseKey(b, NodeLocal);
    }
    if (b, NodeLocal) in got {
      assert Held(env', (b, NodeLocal), got[(b, NodeLocal)]);
      var k :| k in env' && Parse(k) == Some((b, NodeLocal)) && env'[k] == got[(b, NodeLocal)];
      var j, g := SlotFrom(env, inputs, k, (b, NodeLocal));
      assert r.nodeLocalPath.Some? && k == Key(b, NodeLocal) ==> Writes(inputs, i, NodeLocal, k);
      if g.Local? {
        ValuesAt(inputs[j].resolved);
        assert Disturbs(inputs[j], inputs[i]);
        ReceiverReads(inputs[j].base);
      } else {
        assert j == i;
      }
    }
  }

  lemma UndisturbedIsFaithful(env: Env, inputs: seq<Input>, got: Partials, lower: string -> string, i: nat)
    requires NoInputKeys(env) && DistinctBases(inputs) && Explains(Injected(env, inputs), got)
    requires Undisturbed(inputs) && i < |inputs|
    ensures FaithfulAt(inputs[i], got, lower)
  {
    var r := inputs[i].resolved;
    OwnSlot(env, inputs, got, i, Mode);
    ValuesAt(r);
    if Materialized(r) {
      OwnSlot(env, inputs, got, i, Uri);
      OwnSlot(env, inputs, got, i, Digest);
      OwnSlot(env, inputs, got, i, Size);
      OwnSlot(env, inputs, got, i, Local);
      OwnNodeLocal(env, inputs, got, i);
      if r.size > 0 {
        SizeReadsBack(r.size);
      }
      NoSize();
    }
    hide Injected, Values, Get, TrimSpace, SizeOf, Explains, DistinctBases;
  }

  /** A displaced node-local path can be read, whatever else is read. */
  lemma Displaced(env: Env, inputs: seq<Input>, got: Partials, j: nat, i: nat) returns (other: Partials)
    requires NoInputKeys(env) && DistinctBases(inputs) && Explains(Injected(env, inputs), got)
    requires i < |inputs| && j < |inputs| && Disturbs(inputs[j], inputs[i])
    requires inputs[i].resolved.nodeLocalPath.Some? ==> !(j < i && inputs[j].base != "NODE")
    ensures Explains(Injected(env, inputs), other)
    ensures Get(other, inputs[i].base, NodeLocal) == inputs[j].resolved.localPath
  {
    hide Parse, Key, Injected, Values, NodeBase, Receiver, Explains;
    var astray, env' := inputs[j], Injected(env, inputs);
    var k, slot := Key(astray.base, Local), (inputs[i].base, NodeLocal);
    ValuesAt(astray.resolved);
    ValuesAt(inputs[i].resolved);
    WrittenThere(env, inputs, j, Local);
    ReceiverReads(astray.base);
    AstrayIsRead(env, inputs, j, i);
    Rechosen(env', got, k);
    other := got[slot := env'[k]];
  }

  lemma AstrayIsRead(env: Env, inputs: seq<Input>, j: nat, i: nat)
    requires NoInputKeys(env) && DistinctBases(inputs)
    requires i < |inputs| && j < |inputs| && Disturbs(inputs[j], inputs[i])
    requires inputs[i].resolved.nodeLocalPath.Some? ==> !(j < i && inputs[j].base != "NODE")
    requires Key(inputs[j].base, Local) in Injected(env, inputs)
    ensures Injected(env, inputs)[Key(inputs[j].base, Local)] == inputs[j].resolved.localPath
  {
    hide Parse, Key, Injected, Values, NodeBase, Receiver;
    var astray := inputs[j];
    var k, slot := Key(astray.base, Local), (inputs[i].base, NodeLocal);
    ValuesAt(astray.resolved);
    ValuesAt(inputs[i].resolved);
    ReceiverReads(astray.base);
    assert Writes(inputs, j, Local, k);
    var w, f := SlotFrom(env, inputs, k, slot);
    if f.Local? {
      LocalKeyInjective(astray.base, inputs[w].base);
      assert w == j;
    }
  }

  /** Every reading of the environment is faithful to every binding if and only if no
    * materialized binding's local path is misplaced or node-local path displaced. For bindings
    * that are all materialized, any single reading is faithful iff no local path is misplaced. */
  lemma FaithfulIffUndisturbed(env: Env, inputs: seq<Input>, got: Partials, lower: string -> string)
    requires NoInputKeys(env) && DistinctBases(inputs) && Explains(Injected(env, inputs), got)
    requires PathsAreNotBlank(inputs)
    ensures (forall other | Explains(Injected(env, inputs), other) :: Faithful(inputs, other, lower))
            <==> Undisturbed(inputs)
    ensures (forall i | 0 <= i < |inputs| :: Materialized(inputs[i].resolved)) ==>
              (Faithful(inputs, got, lower) <==> Readable(inputs))
  {
    hide Injected, Explains, FaithfulAt, TrimSpace, NodeBase, DistinctBases;
    if Undisturbed(inputs) {
      forall other | Explains(Injected(env, inputs), other)
        ensures Faithful(inputs, other, lower)
      {
        forall i | 0 <= i < |inputs|
          ensures FaithfulAt(inputs[i], other, lower)
        {
          UndisturbedIsFaithful(env, inputs, other, lower, i);
        }
      }
    } else {
      var i :| 0 <= i < |inputs| && Materialized(inputs[i].resolved)
               && !(!Misplaced(inputs[i])
                    && forall j | 0 <= j < |inputs| && Disturbs(inputs[j], inputs[i]) :: Harmless(inputs, j, i));
      if Misplaced(inputs[i]) {
        MisplacedIsUnfaithful(env, inputs, got, lower, i);
      } else {
        var j :| 0 <= j < |inputs| && Disturbs(inputs[j], inputs[i]) && !Harmless(inputs, j, i);
        var other := Displaced(env, inputs, got, j, i);
        DisplacedIsUnfaithful(inputs[j], inputs[i], other, lower);
      }
    }
    ReadableIff(env, inputs, got, lower);
  }

  lemma MisplacedIsUnfaithful(env: Env, inputs: seq<Input>, got: Partials, lower: string -> string, i: nat)
    requires Explains(Injected(env, inputs), got) && i < |inputs|
    requires Materialized(inputs[i].resolved) && Misplaced(inputs[i]) && TrimSpace(inputs[i].resolved.localPath) != ""
    ensures !FaithfulAt(inputs[i], got, lower)
  {
    NodeBaseLosesItsLocalPath(Injected(env, inputs), got, inputs[i].base, inputs[i].resolved, lower);
    hide Injected, InputOf, Explains;
  }

  lemma DisplacedIsUnfaithful(astray: Input, input: Input, got: Partials, lower: string -> string)
    requires Materialized(input.resolved) && TrimSpace(astray.resolved.localPath) != ""
    requires Get(got, input.base, NodeLocal) == astray.resolved.localPath
    requires input.resolved.nodeLocalPath.Some? ==>
               TrimSpace(input.resolved.nodeLocalPath.value) != TrimSpace(astray.resolved.localPath)
    ensures !FaithfulAt(input, got, lower)
  {
    assert TrimSpace("") == "";
    hide TrimSpace, SizeOf;
  }

  lemma ReadableIff(env: Env, inputs: seq<Input>, got: Partials, lower: string -> string)
    requires NoInputKeys(env) && DistinctBases(inputs) && Explains(Injected(env, inputs), got)
    requires PathsAreNotBlank(inputs)
    ensures (forall i | 0 <= i < |inputs| :: Materialized(inputs[i].resolved)) ==>
              (Faithful(inputs, got, lower) <==> Readable(inputs))
  {
    hide Injected, Explains, FaithfulAt, TrimSpace, NodeBase, DistinctBases;
    if forall i | 0 <= i < |inputs| :: Materialized(inputs[i].resolved) {
      if Readable(inputs) {
        forall i | 0 <= i < |inputs|
          ensures FaithfulAt(inputs[i], got, lower)
        {
          UndisturbedIsFaithful(env, inputs, got, lower, i);
        }
      } else {
        var i :| 0 <= i < |inputs| && NodeBase(inputs[i].base) && inputs[i].resolved.localPath != "";
        MisplacedIsUnfaithful(env, inputs, got, lower, i);
      }
    }
  }
}
