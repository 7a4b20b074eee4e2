/** The trip of resolved bindings through the environment: injectResolvedBindingEnv writes them
  * as keys, buildNodeContractInputs reads them back, stripContractInputEnv removes what was read.
  */
module ContractEnv {
  import opened Spec
  import opened Text
  import opened EnvKeys
  import AttemptId
  import O = StringOrder

  const INT64_LIMIT: int := 0x8000_0000_0000_0000

  type Int64 = x: int | -0x8000_0000_0000_0000 <= x < 0x8000_0000_0000_0000

  /** A resolved binding; `localPath` is what sanitizeResolvedLocalPath made of it. */
  datatype Resolved = Resolved(
    status: string,
    decision: string,
    uri: string,
    sourceNode: string,
    placementMode: string,
    mode: string,
    digest: string,
    size: Int64,
    nodeLocalPath: Option<string>,
    localPath: string,
    requiresMaterialization: bool)

  /** A binding under the base its name was sanitized to. */
  datatype Input = Input(base: string, resolved: Resolved)

  type Env = map<string, string>
  type Fields = map<Field, string>

  const SUFFIXES := ["_URI", "_EXPECTED_DIGEST", "_EXPECTED_SIZE_BYTES", "_MATERIALIZATION_MODE",
                     "_NODE_LOCAL_PATH", "_LOCAL_PATH"]

  /** The test stripContractInputEnv makes. */
  predicate Consumed(key: string) {
    HasPrefix(key, PREFIX) && exists i :: 0 <= i < |SUFFIXES| && HasSuffix(key, SUFFIXES[i])
  }

  function Stripped(env: Env): Env {
    map k | k in env && !Consumed(k) :: env[k]
  }

  // ---- writing ----

  function Values(r: Resolved): Fields {
    var always := map[Status := r.status, Decision := r.decision, Uri := r.uri, SourceNode := r.sourceNode,
                      PlacementMode := r.placementMode, Mode := r.mode, Digest := r.digest];
    var sized := if r.size > 0 then always[Size := AttemptId.Itoa(r.size)] else always;
    var located := if r.nodeLocalPath.Some? then sized[NodeLocal := r.nodeLocalPath.value] else sized;
    var local := if r.localPath != "" then located[Local := r.localPath] else located;
    local[RequiresMaterialization := if r.requiresMaterialization then "true" else "false"]
  }

  lemma KeysDiffer(base: string)
    ensures forall f, g :: Key(base, f) == Key(base, g) ==> f == g
  {
    forall f, g | Key(base, f) == Key(base, g)
      ensures f == g
    {
      KeyInjective(base, f, g);
    }
  }

  ghost function Entries(base: string, fields: Fields): Env {
    KeysDiffer(base);
    map f | f in fields :: Key(base, f) := fields[f]
  }

  /** The environment after the bindings were injected one after the other. */
  ghost function Injected(env: Env, inputs: seq<Input>): Env {
    if inputs == [] then env
    else
      var last := inputs[|inputs| - 1];
      Injected(env, inputs[..|inputs| - 1]) + Entries(last.base, Values(last.resolved))
  }

  lemma EntriesAt(base: string, fields: Fields, f: Field)
    ensures Key(base, f) in Entries(base, fields) <==> f in fields
    ensures f in fields ==> Entries(base, fields)[Key(base, f)] == fields[f]
    ensures forall k | k in Entries(base, fields) :: exists g :: g in fields && k == Key(base, g)
  {
    KeysDiffer(base);
    hide Key;
  }

  predicate Says(env: Env, base: string, suffix: string, v: string) {
    var k := "JUMI_INPUT_" + base + suffix;
    k in env && env[k] == v
  }

  /** The variables every binding has. */
  lemma InjectedVariables(env: Env, base: string, r: Resolved)
    ensures var t := Injected(env, [Input(base, r)]);
            && Says(t, base, "_STATUS", r.status) && Says(t, base, "_DECISION", r.decision)
            && Says(t, base, "_URI", r.uri) && Says(t, base, "_SOURCE_NODE", r.sourceNode)
            && Says(t, base, "_PLACEMENT_MODE", r.placementMode) && Says(t, base, "_MATERIALIZATION_MODE", r.mode)
            && Says(t, base, "_EXPECTED_DIGEST", r.digest)
            && Says(t, base, "_REQUIRES_MATERIALIZATION", if r.requiresMaterialization then "true" else "false")
  {
    hide Injected, Says;
    FieldIsSaid(env, base, r, Status);
    FieldIsSaid(env, base, r, Decision);
    FieldIsSaid(env, base, r, Uri);
    FieldIsSaid(env, base, r, SourceNode);
    FieldIsSaid(env, base, r, PlacementMode);
    FieldIsSaid(env, base, r, Mode);
    FieldIsSaid(env, base, r, Digest);
    FieldIsSaid(env, base, r, RequiresMaterialization);
  }

  /** And those it has if it has the value. */
  lemma InjectedOptionalVariables(env: Env, base: string, r: Resolved)
    ensures var t := Injected(env, [Input(base, r)]);
            && (r.size > 0 ==> Says(t, base, "_EXPECTED_SIZE_BYTES", AttemptId.Itoa(r.size)))
            && (r.nodeLocalPath.Some? ==> Says(t, base, "_NODE_LOCAL_PATH", r.nodeLocalPath.value))
            && (r.localPath != "" ==> Says(t, base, "_LOCAL_PATH", r.localPath))
  {
    hide Injected, Says;
    FieldIsSaid(env, base, r, Size);
    FieldIsSaid(env, base, r, NodeLocal);
    FieldIsSaid(env, base, r, Local);
  }

  lemma FieldIsSaid(env: Env, base: string, r: Resolved, f: Field)
    ensures f in Values(r) ==> Says(Injected(env, [Input(base, r)]), base, Suffix(f), Values(r)[f])
  {
    var one := [Input(base, r)];
    assert one[..0] == [] && Injected(env, []) == env;
    EntriesAt(base, Values(r), f);
    hide Values, Entries;
  }

  lemma PutEntry(env: Env, base: string, fields: Fields, f: Field, v: string)
    ensures (env + Entries(base, fields))[Key(base, f) := v] == env + Entries(base, fields[f := v])
  {
    var old', new' := Entries(base, fields), Entries(base, fields[f := v]);
    hide Key, Entries;
    forall k
      ensures k in new' <==> k in old' || k == Key(base, f)
      ensures k in new' ==> new'[k] == if k == Key(base, f) then v else old'[k]
    {
      PutEntryAt(base, fields, f, v, k);
    }
    PutMerged(env, old', new', Key(base, f), v);
  }

  lemma PutMerged(env: Env, before: Env, after: Env, key: string, v: string)
    requires forall k :: k in after <==> k in before || k == key
    requires forall k | k in after :: after[k] == if k == key then v else before[k]
    ensures (env + before)[key := v] == env + after
  {
  }

  lemma PutEntryAt(base: string, fields: Fields, f: Field, v: string, k: string)
    ensures var old', new' := Entries(base, fields), Entries(base, fields[f := v]);
            && (k in new' <==> k in old' || k == Key(base, f))
            && (k in new' ==> new'[k] == if k == Key(base, f) then v else old'[k])
  {
    KeysDiffer(base);
    EntriesAt(base, fields, f);
    EntriesAt(base, fields[f := v], f);
    hide Key, Entries;
    if k in Entries(base, fields[f := v]) {
      var g :| g in fields[f := v] && k == Key(base, g);
      EntriesAt(base, fields, g);
      EntriesAt(base, fields[f := v], g);
    } else if k in Entries(base, fields) {
      var g :| g in fields && k == Key(base, g);
      EntriesAt(base, fields[f := v], g);
    }
  }

  class ExecutionEnv {
    var env: Env

    constructor (env: Env)
      ensures this.env == env
    {
      this.env := env;
    }

    method Put(base: string, f: Field, v: string, ghost was: Env, ghost fields: Fields)
      requires env == was + Entries(base, fields)
      modifies this
      ensures env == was + Entries(base, fields[f := v])
    {
      PutEntry(was, base, fields, f, v);
      env := env[Key(base, f) := v];
    }

    method InjectResolvedBindingEnv(base: string, r: Resolved)
      modifies this
      ensures env == old(env) + Entries(base, Values(r))
    {
      hide Entries, Key;
      ghost var was, m: Fields := env, map[];
      NoEntries(was, base);
      Put(base, Status, r.status, was, m);
      m := m[Status := r.status];
      Put(base, Decision, r.decision, was, m);
      m := m[Decision := r.decision];
      Put(base, Uri, r.uri, was, m);
      m := m[Uri := r.uri];
      Put(base, SourceNode, r.sourceNode, was, m);
      m := m[SourceNode := r.sourceNode];
      Put(base, PlacementMode, r.placementMode, was, m);
      m := m[PlacementMode := r.placementMode];
      Put(base, Mode, r.mode, was, m);
      m := m[Mode := r.mode];
      Put(base, Digest, r.digest, was, m);
      m := m[Digest := r.digest];
      if r.size > 0 {
        Put(base, Size, AttemptId.Itoa(r.size), was, m);
        m := m[Size := AttemptId.Itoa(r.size)];
      }
      if r.nodeLocalPath.Some? {
        Put(base, NodeLocal, r.nodeLocalPath.value, was, m);
        m := m[NodeLocal := r.nodeLocalPath.value];
      }
      if r.localPath != "" {
        Put(base, Local, r.localPath, was, m);
        m := m[Local := r.localPath];
      }
      var flag := if r.requiresMaterialization then "true" else "false";
      Put(base, RequiresMaterialization, flag, was, m);
      m := m[RequiresMaterialization := flag];
    }

    /** The loop over a node's resolved bindings. */
    method InjectAll(inputs: seq<Input>)
      modifies this
      ensures env == Injected(old(env), inputs)
    {
      hide Entries, Values;
      for i := 0 to |inputs|
        invariant env == Injected(old(env), inputs[..i])
      {
        assert inputs[..i + 1][..i] == inputs[..i];
        InjectResolvedBindingEnv(inputs[i].base, inputs[i].resolved);
      }
      assert inputs[..|inputs|] == inputs;
    }

    /** stripContractInputEnv */
    method StripContractInputEnv()
      modifies this
      ensures env == Stripped(old(env))
    {
      var rest := env.Keys;
      while rest != {}
        invariant rest <= old(env).Keys
        invariant forall k :: k in env <==> k in old(env) && (k in rest || !Consumed(k))
        invariant forall k | k in env :: env[k] == old(env)[k]
      {
        var key :| key in rest;
        if HasPrefix(key, PREFIX) {
          var found := false;
          for i := 0 to |SUFFIXES|
            invariant forall j | 0 <= j < i :: !HasSuffix(key, SUFFIXES[j])
          {
            if HasSuffix(key, SUFFIXES[i]) {
              found := true;
              break;
            }
          }
          if found {
            env := env - {key};
          }
        }
        rest := rest - {key};
      }
    }
  }

  lemma NoEntries(env: Env, base: string)
    ensures env == env + Entries(base, map[])
  {
  }

  // ---- reading ----

  /** What is read: a value for a field of a base. */
  type Slot = (string, Field)
  type Partials = map<Slot, string>

  ghost predicate Held(env: Env, slot: Slot, v: string) {
    exists key :: key in env && Parse(key) == Some(slot) && env[key] == v
  }

  /** There is a value for every key that is read, and nothing else. Two keys read alike leave
    * the choice between their values to the iteration order. */
  ghost predicate Explains(env: Env, got: Partials) {
    && (forall key | key in env && Parse(key).Some? :: Parse(key).value in got)
    && (forall slot | slot in got :: Held(env, slot, got[slot]))
  }

  datatype ContractInput = ContractInput(
    name: string,
    uri: string,
    digest: string,
    size: int,
    mode: string,
    nodeLocalPath: string,
    localPath: string)

  function Get(got: Partials, base: string, f: Field): string {
    if (base, f) in got then got[(base, f)] else ""
  }

  function ParseDigits(s: string): Option<nat> {
    if s == "" then None
    else
      var c := s[|s| - 1];
      if !('0' <= c <= '9') then None
      else if |s| == 1 then Some((c - '0') as nat)
      else
        var front := ParseDigits(s[..|s| - 1]);
        if front.None? then None else Some(front.value * 10 + (c - '0') as nat)
  }

  /** strconv.ParseInt(s, 10, 64) */
  function ParseInt(s: string): Option<int> {
    if s == "" then None
    else
      var n := ParseDigits(if s[0] == '+' || s[0] == '-' then s[1..] else s);
      if n.None? then None
      else
        var sign := if s[0] == '-' then -1 else 1;
        var m := sign * n.value;
        if -INT64_LIMIT <= m < INT64_LIMIT then Some(m) else None
  }

  function SizeOf(text: string): int {
    var n := ParseInt(TrimSpace(text));
    if n.Some? && n.value >= 0 then n.value else 0
  }

  function InputOf(base: string, got: Partials, lower: string -> string): Option<ContractInput> {
    var mode := TrimSpace(Get(got, base, Mode));
    if mode == "" || mode == "none" then None
    else Some(ContractInput(lower(base), TrimSpace(Get(got, base, Uri)), TrimSpace(Get(got, base, Digest)),
                            SizeOf(Get(got, base, Size)), mode,
                            TrimSpace(Get(got, base, NodeLocal)), TrimSpace(Get(got, base, Local))))
  }

  function Emitted(names: seq<string>, got: Partials, lower: string -> string): seq<ContractInput> {
    if names == [] then []
    else
      var input := InputOf(names[|names| - 1], got, lower);
      Emitted(names[..|names| - 1], got, lower) + (if input.Some? then [input.value] else [])
  }

  /** The first loop of buildNodeContractInputs, over the environment in any order. */
  method Gather(env: Env) returns (got: Partials, bases: set<string>)
    ensures Explains(env, got)
    ensures forall b :: b in bases <==> exists f :: (b, f) in got
  {
    got, bases := map[], {};
    var rest := env.Keys;
    assert env - rest == map[];
    hide Explains, Parse;
    NothingToExplain();
    while rest != {}
      invariant rest <= env.Keys
      invariant Explains(env - rest, got)
      invariant forall b :: b in bases <==> exists f :: (b, f) in got
    {
      var key :| key in rest;
      ExplainsNext(env - rest, got, key, env[key]);
      assert env - (rest - {key}) == (env - rest)[key := env[key]];
      var parsed := Parse(key);
      if parsed.Some? {
        BasesNext(got, bases, parsed.value, env[key]);
        got := got[parsed.value := env[key]];
        bases := bases + {parsed.value.0};
      }
      rest := rest - {key};
    }
    assert env - rest == env;
  }

  lemma BasesNext(got: Partials, bases: set<string>, slot: Slot, v: string)
    requires forall b :: b in bases <==> exists f :: (b, f) in got
    ensures forall b :: b in bases + {slot.0} <==> exists f :: (b, f) in got[slot := v]
  {
    assert slot == (slot.0, slot.1);
    forall b | b in bases
      ensures exists f :: (b, f) in got[slot := v]
    {
      var f :| (b, f) in got;
      assert (b, f) in got[slot := v];
    }
    assert (slot.0, slot.1) in got[slot := v];
  }

  lemma NothingToExplain()
    ensures Explains(map[], map[])
  {
  }

  lemma ExplainsNext(env: Env, got: Partials, key: string, v: string)
    requires Explains(env, got) && key !in env
    ensures Explains(env[key := v], if Parse(key).Some? then got[Parse(key).value := v] else got)
  {
    hide Parse;
    var env' := env[key := v];
    forall slot | slot in got
      ensures Held(env', slot, got[slot])
    {
      var k :| k in env && Parse(k) == Some(slot) && env[k] == got[slot];
      assert k in env' && env'[k] == got[slot];
    }
    assert Parse(key).Some? ==> Held(env', Parse(key).value, v);
  }

  /** What was read from the environment, and the bases it was read for in order. */
  ghost predicate Reading(env: Env, names: seq<string>, got: Partials) {
    Explains(env, got) && O.Sorted(names) && forall b :: b in names <==> exists f :: (b, f) in got
  }

  /** buildNodeContractInputs. */
  method BuildNodeContractInputs(env: Env, lower: string -> string) returns (inputs: seq<ContractInput>)
    ensures exists names, got :: Reading(env, names, got) && inputs == Emitted(names, got, lower)
  {
    var partials, keys := Gather(env);
    var bases := O.SortStrings(keys);
    inputs := [];
    for i := 0 to |bases|
      invariant inputs == Emitted(bases[..i], partials, lower)
    {
      assert bases[..i + 1][..i] == bases[..i];
      var input := InputOf(bases[i], partials, lower);
      if input.Some? {
        inputs := inputs + [input.value];
      }
    }
    assert bases[..|bases|] == bases;
    assert Reading(env, bases, partials);
  }

  // ---- when reading has one result ----

  /** Keys read alike carry the same value. */
  ghost predicate SameValues(env: Env) {
    forall k, l | k in env && l in env && Parse(k).Some? && Parse(k) == Parse(l) :: env[k] == env[l]
  }

  /** What is read does not depend on the iteration order exactly when keys read alike agree. */
  lemma ReadingIsDeterminedIff(env: Env, got: Partials)
    requires Explains(env, got)
    ensures (forall other | Explains(env, other) :: other == got) <==> SameValues(env)
  {
    hide Parse;
    if SameValues(env) {
      forall other | Explains(env, other)
        ensures other == got
      {
        Determined(env, got, other);
      }
    } else {
      var k, l :| k in env && l in env && Parse(k).Some? && Parse(k) == Parse(l) && env[k] != env[l];
      Rechosen(env, got, k);
      Rechosen(env, got, l);
      assert got[Parse(k).value := env[k]][Parse(k).value] != got[Parse(k).value := env[l]][Parse(k).value];
    }
  }

  lemma Rechosen(env: Env, got: Partials, k: string)
    requires Explains(env, got) && k in env && Parse(k).Some?
    ensures Explains(env, got[Parse(k).value := env[k]])
  {
    hide Parse;
    assert Held(env, Parse(k).value, env[k]);
  }

  lemma Determined(env: Env, p: Partials, q: Partials)
    requires Explains(env, p) && Explains(env, q) && SameValues(env)
    ensures p == q
  {
    hide Parse;
    forall slot
      ensures slot in p <==> slot in q
      ensures slot in p ==> p[slot] == q[slot]
    {
      if slot in p { Covered(env, p, q, slot); }
      if slot in q { Covered(env, q, p, slot); }
    }
  }

  lemma Covered(env: Env, p: Partials, q: Partials, slot: Slot)
    requires Explains(env, p) && Explains(env, q) && SameValues(env) && slot in p
    ensures slot in q && p[slot] == q[slot]
  {
    hide Parse;
    assert Held(env, slot, p[slot]);
    var k :| k in env && Parse(k) == Some(slot) && env[k] == p[slot];
    assert Held(env, slot, q[slot]);
    var l :| l in env && Parse(l) == Some(slot) && env[l] == q[slot];
  }
}
