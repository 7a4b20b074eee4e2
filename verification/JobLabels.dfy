/** Label values of pkg/spawner/k8s_jobclient.go.
  *
  * `lower` stands for unicode.ToLower and `hash` for the first eight hex digits of SHA-256;
  * only what `Lowers` and `ShortHash` say of them is used.
  */
module JobLabels {
  import opened Text
  import opened Squeeze

  predicate LabelChar(c: char) {
    c == '-' || c == '_' || c == '.' || 'a' <= c <= 'z' || 'A' <= c <= 'Z' || '0' <= c <= '9'
  }

  predicate Punctuation(c: char) {
    c == '-' || c == '_' || c == '.'
  }

  /** A Kubernetes label value that is not empty. */
  predicate LabelValue(s: string) {
    0 < |s| <= 63 && (forall c | c in s :: LabelChar(c)) && Tight(s, Punctuation)
  }

  /** A label value without capital letters. */
  predicate PlainLabel(s: string) {
    LabelValue(s) && forall c | c in s :: !('A' <= c <= 'Z')
  }

  ghost predicate Lowers(lower: char -> char) {
    && (forall c | LabelChar(c) && !('A' <= c <= 'Z') :: lower(c) == c)
    && forall c :: !('A' <= lower(c) <= 'Z')
  }

  ghost predicate ShortHash(hash: string -> string) {
    forall s :: |hash(s)| == 8 && forall i | 0 <= i < 8 :: '0' <= hash(s)[i] <= '9' || 'a' <= hash(s)[i] <= 'f'
  }

  function Lowered(s: string, lower: char -> char): (r: string)
    ensures |r| == |s| && forall i | 0 <= i < |s| :: r[i] == lower(s[i])
  {
    seq(|s|, i requires 0 <= i < |s| => lower(s[i]))
  }

  /** Each maximal stretch of characters a label may not hold becomes one dash. */
  function Collapsed(s: string): string {
    Squeezed(s, LabelChar, Unchanged, '-')
  }

  function Unchanged(c: char): char {
    c
  }

  function Sanitized(s: string): string {
    Trim(Collapsed(s), Punctuation)
  }

  /** `r` is what remains of `raw` when every stretch of characters a label may not hold is
    * written as one dash and all punctuation is cut off both ends. */
  ghost predicate Sanitizes(raw: string, r: string) {
    exists q: string, i: nat, j: nat :: SpellsOut(raw, q, LabelChar, Unchanged, '-') && Within(q, i, j, r)
  }

  /** `r` is the slice of q from i to j, with nothing but punctuation before and after it. */
  ghost predicate Within(q: string, i: nat, j: nat, r: string) {
    && i <= j <= |q| && r == q[i..j] && Tight(r, Punctuation)
    && forall k | 0 <= k < i || j <= k < |q| :: Punctuation(q[k])
  }

  lemma SanitizedSanitizes(raw: string)
    ensures Sanitizes(raw, Sanitized(raw))
  {
    var q := Collapsed(raw);
    SqueezedSpellsOut(raw, LabelChar, Unchanged, '-');
    var i, j := TrimSlice(q, Punctuation);
    assert Within(q, i, j, Sanitized(raw));
  }

  /** sanitizeLabelValue's loop over the runes. */
  method SanitizeLabelValue(raw: string) returns (r: string)
    ensures r == Sanitized(raw) && Sanitizes(raw, r)
  {
    SanitizedSanitizes(raw);
    hide Sanitizes;
    var b, lastDash := "", false;
    for i := 0 to |raw|
      invariant b == Collapsed(raw[..i])
      invariant lastDash <==> i > 0 && !LabelChar(raw[i - 1])
    {
      assert raw[..i + 1][..i] == raw[..i];
      if LabelChar(raw[i]) {
        b := b + [raw[i]];
        lastDash := false;
      } else if !lastDash {
        b := b + "-";
        lastDash := true;
      }
    }
    assert raw[..|raw|] == raw;
    r := Trim(b, Punctuation);
  }

  function IdentityLabelValue(raw: string, lower: char -> char, hash: string -> string): string
    requires ShortHash(hash)
  {
    var trimmed := TrimSpace(raw);
    if trimmed == "" then "unknown"
    else
      var low := Lowered(trimmed, lower);
      var sanitized := if Sanitized(low) == "" then "x" else Sanitized(low);
      if sanitized == low && |sanitized| <= 63 then sanitized
      else Suffixed(sanitized, hash(trimmed))
  }

  function Suffixed(sanitized: string, h: string): string
    requires |h| == 8
  {
    var prefix := if |sanitized| > 54 then Trim(sanitized[..54], Punctuation) else sanitized;
    if prefix == "" then h else prefix + "-" + h
  }

  // ---- what sanitizing keeps ----

  lemma {:induction false} CollapsedShape(s: string)
    ensures forall c | c in Collapsed(s) :: LabelChar(c) && (c == '-' || c in s)
    ensures (forall c | c in s :: LabelChar(c)) ==> Collapsed(s) == s
  {
    if s != "" {
      var n := |s| - 1;
      CollapsedShape(s[..n]);
      assert s == s[..n] + [s[n]];
    }
  }

  /** Sanitizing leaves a string alone exactly when it could be (part of) a label value. */
  lemma SanitizedIsFixpointIffClean(s: string)
    ensures Sanitized(s) == s <==> (forall c | c in s :: LabelChar(c)) && Tight(s, Punctuation)
    ensures Tight(Sanitized(s), Punctuation)
    ensures forall c | c in Sanitized(s) :: LabelChar(c) && (c == '-' || c in s)
  {
    CollapsedShape(s);
    TrimShape(Collapsed(s), Punctuation);
  }

  lemma NoCapitals(s: string, lower: char -> char)
    requires Lowers(lower)
    ensures forall c | c in Lowered(s, lower) :: !('A' <= c <= 'Z')
  {
  }

  lemma PlainIsLowered(s: string, lower: char -> char)
    requires Lowers(lower) && PlainLabel(s)
    ensures Lowered(s, lower) == s
  {
    forall i | 0 <= i < |s|
      ensures lower(s[i]) == s[i]
    {
      assert s[i] in s;
    }
  }

  lemma SuffixedIsPlain(sanitized: string, h: string)
    requires sanitized != "" && Tight(sanitized, Punctuation)
    requires forall c | c in sanitized :: LabelChar(c) && !('A' <= c <= 'Z')
    requires |h| == 8 && forall i | 0 <= i < 8 :: '0' <= h[i] <= '9' || 'a' <= h[i] <= 'f'
    ensures PlainLabel(Suffixed(sanitized, h))
  {
    if |sanitized| > 54 {
      TrimShape(sanitized[..54], Punctuation);
    }
    var r := Suffixed(sanitized, h);
    assert r[|r| - 1] == h[7];
    forall c | c in r
      ensures LabelChar(c) && !('A' <= c <= 'Z')
    {
      assert c in sanitized || c == '-' || c in h;
    }
  }

  /** Whatever it is given, identityLabelValue answers a label value Kubernetes accepts. */
  lemma IdentityLabelIsPlain(raw: string, lower: char -> char, hash: string -> string)
    requires Lowers(lower) && ShortHash(hash)
    ensures PlainLabel(IdentityLabelValue(raw, lower, hash))
  {
    var trimmed := TrimSpace(raw);
    if trimmed != "" {
      var low := Lowered(trimmed, lower);
      SanitizedIsFixpointIffClean(low);
      NoCapitals(trimmed, lower);
      var sanitized := if Sanitized(low) == "" then "x" else Sanitized(low);
      SuffixedIsPlain(sanitized, hash(trimmed));
    }
  }

  lemma PlainHasNoSpace(q: string)
    requires PlainLabel(q)
    ensures Tight(q, IsSpace)
  {
    assert q[0] in q && q[|q| - 1] in q;
  }

  /** A plain label is its own label, and that of a marker differing from it by a blank. */
  lemma PlainLabelsAreAnswered(q: string, lower: char -> char, hash: string -> string)
    requires Lowers(lower) && ShortHash(hash) && PlainLabel(q)
    ensures IdentityLabelValue(q, lower, hash) == q
    ensures IdentityLabelValue(" " + q, lower, hash) == q
  {
    BlankTrimmedOff(q);
    AnsweredOnceTrimmed(q, q, lower, hash);
    AnsweredOnceTrimmed(" " + q, q, lower, hash);
  }

  lemma BlankTrimmedOff(q: string)
    requires PlainLabel(q)
    ensures TrimSpace(q) == q && TrimSpace(" " + q) == q
  {
    PlainHasNoSpace(q);
    TrimShape(q, IsSpace);
    assert (" " + q)[1..] == q;
  }

  lemma AnsweredOnceTrimmed(raw: string, q: string, lower: char -> char, hash: string -> string)
    requires Lowers(lower) && ShortHash(hash) && PlainLabel(q) && TrimSpace(raw) == q
    ensures IdentityLabelValue(raw, lower, hash) == q
  {
    PlainIsLowered(q, lower);
    SanitizedIsFixpointIffClean(q);
    hide TrimSpace, Sanitized, Lowered, Suffixed;
  }

  /** The lower-cased name is a label value as it stands. */
  predicate KeptAsIs(raw: string, lower: char -> char) {
    PlainLabel(Lowered(TrimSpace(raw), lower))
  }

  /** A name is either its own label, up to case and surrounding blanks, or carries its hash. */
  lemma LabelIsNameOrHashed(raw: string, lower: char -> char, hash: string -> string)
    requires Lowers(lower) && ShortHash(hash) && TrimSpace(raw) != ""
    ensures KeptAsIs(raw, lower) ==> IdentityLabelValue(raw, lower, hash) == Lowered(TrimSpace(raw), lower)
    ensures !KeptAsIs(raw, lower) ==> HasSuffix(IdentityLabelValue(raw, lower, hash), hash(TrimSpace(raw)))
  {
    hide TrimSpace, Sanitized, Lowered, Suffixed, Tight, LabelChar;
    var low := Lowered(TrimSpace(raw), lower);
    SanitizedIsFixpointIffClean(low);
    NoCapitals(TrimSpace(raw), lower);
    XIsClean();
    if !KeptAsIs(raw, lower) {
      var sanitized := if Sanitized(low) == "" then "x" else Sanitized(low);
      assert IdentityLabelValue(raw, lower, hash) == Suffixed(sanitized, hash(TrimSpace(raw)));
      SuffixedEnds(sanitized, hash(TrimSpace(raw)));
    }
  }

  lemma XIsClean()
    ensures Sanitized("x") == "x"
  {
    SanitizedIsFixpointIffClean("x");
  }

  lemma SuffixedEnds(sanitized: string, h: string)
    requires |h| == 8
    ensures HasSuffix(Suffixed(sanitized, h), h)
  {
    hide Trim;
  }

  /** In front of the hash stands the sanitized name, or as much of it as a label has room for. */
  lemma HashedKeepsItsPrefix(raw: string, lower: char -> char, hash: string -> string) returns (n: nat)
    requires Lowers(lower) && ShortHash(hash) && TrimSpace(raw) != "" && !KeptAsIs(raw, lower)
    ensures var low, h := Lowered(TrimSpace(raw), lower), hash(TrimSpace(raw));
            var name := if Sanitized(low) == "" then "x" else Sanitized(low);
            var room := if |name| > 54 then 54 else |name|;
            && n <= room && (forall k | n <= k < room :: Punctuation(name[k]))
            && (n > 0 ==> !Punctuation(name[n - 1]))
            && IdentityLabelValue(raw, lower, hash) == if n == 0 then h else name[..n] + "-" + h
  {
    hide TrimSpace, Sanitized, Lowered, LabelChar;
    var low, h := Lowered(TrimSpace(raw), lower), hash(TrimSpace(raw));
    SanitizedIsFixpointIffClean(low);
    NoCapitals(TrimSpace(raw), lower);
    XIsClean();
    var name := if Sanitized(low) == "" then "x" else Sanitized(low);
    assert IdentityLabelValue(raw, lower, hash) == Suffixed(name, h) by { hide Suffixed; }
    n := SuffixedPrefix(name, h);
  }

  lemma SuffixedPrefix(name: string, h: string) returns (n: nat)
    requires name != "" && Tight(name, Punctuation) && |h| == 8
    ensures var room := if |name| > 54 then 54 else |name|;
            && n <= room && (forall k | n <= k < room :: Punctuation(name[k]))
            && (n > 0 ==> !Punctuation(name[n - 1]))
            && Suffixed(name, h) == if n == 0 then h else name[..n] + "-" + h
  {
    if |name| > 54 {
      var i, j := TrimSlice(name[..54], Punctuation);
      n := j;
      assert !Punctuation(name[..54][0]);
      assert i == 0 && j > 0;
      assert name[..54][0..j] == name[..j] && name[..j][j - 1] == name[j - 1];
      assert forall k | j <= k < 54 :: name[..54][k] == name[k];
    } else {
      n := |name|;
      assert name[..n] == name;
    }
  }

  /** Two names that are not labels themselves share a label only if their hashes collide. */
  lemma SharedLabelsNeedEqualHashes(a: string, b: string, lower: char -> char, hash: string -> string)
    requires Lowers(lower) && ShortHash(hash)
    requires TrimSpace(a) != "" && TrimSpace(b) != "" && !KeptAsIs(a, lower) && !KeptAsIs(b, lower)
    requires IdentityLabelValue(a, lower, hash) == IdentityLabelValue(b, lower, hash)
    ensures hash(TrimSpace(a)) == hash(TrimSpace(b))
  {
    LabelIsNameOrHashed(a, lower, hash);
    LabelIsNameOrHashed(b, lower, hash);
    hide IdentityLabelValue, KeptAsIs, TrimSpace;
  }
}
