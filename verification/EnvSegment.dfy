/** Bases of the input keys: sanitizeEnvSegment and validateResolvedBindingEnvKeys of
  * pkg/executor/executor.go. `word` stands for unicode.IsLetter or IsDigit, `upper` for
  * unicode.ToUpper; `Alphabet` is all that is used of them.
  */
module EnvSegment {
  import opened Spec
  import opened Text
  import opened Squeeze

  ghost predicate Alphabet(word: char -> bool, upper: char -> char) {
    !word('_') && forall c | word(c) :: word(upper(c)) && upper(upper(c)) == upper(c)
  }

  predicate Underscore(c: char) {
    c == '_'
  }

  /** Each maximal stretch of other characters becomes one underscore. */
  function Joined(s: string, word: char -> bool, upper: char -> char): string {
    Squeezed(s, word, upper, '_')
  }

  function Segment(value: string, word: char -> bool, upper: char -> char): string {
    var r := Trim(Joined(value, word, upper), Underscore);
    if r == "" then "UNSPECIFIED" else r
  }

  /** `r` spells the value: its word characters in upper case and in order, an underscore where
    * others stand between two of them, nothing at the ends; UNSPECIFIED if it has none. */
  ghost predicate Spells(value: string, r: string, word: char -> bool, upper: char -> char) {
    if !HasKept(value, word) then r == "UNSPECIFIED"
    else
      var lead := Lead(value, word);
      && |r| + lead + Trail(value, word) == Pieces(value, word)
      && (forall i | 0 <= i < |value| && word(value[i]) ::
            0 <= Place(value, i, word) - lead < |r| && r[Place(value, i, word) - lead] == upper(value[i]))
      && (forall i | 0 <= i < |value| && GapAt(value, i, word) && 0 <= Place(value, i, word) - lead < |r| ::
            r[Place(value, i, word) - lead] == '_')
  }

  /** What sanitizing keeps of a name, for every name. */
  lemma SegmentSpells(value: string, word: char -> bool, upper: char -> char)
    requires Alphabet(word, upper)
    ensures Spells(value, Segment(value, word, upper), word, upper)
  {
    TrimmedEnds(value, word, upper, '_', Underscore);
    SqueezedSpellsOut(value, word, upper, '_');
    if HasKept(value, word) {
      EndsOfSqueezed(value, Joined(value, word, upper), word, upper, '_');
      hide Squeezed, Pieces, Trim, HasKept, SpellsOut, Lead, Trail;
      WordsAreInside(value, Joined(value, word, upper), word, upper);
    }
  }

  /** Every word character lies between the underscores at the ends. */
  lemma WordsAreInside(value: string, q: string, word: char -> bool, upper: char -> char)
    requires Alphabet(word, upper) && SpellsOut(value, q, word, upper, '_')
    requires Lead(value, word) + Trail(value, word) < |q|
    requires (Lead(value, word) == 1 ==> q[0] == '_') && (Trail(value, word) == 1 ==> q[|q| - 1] == '_')
    ensures var lead := Lead(value, word);
            var r := q[lead..|q| - Trail(value, word)];
            && |r| + lead + Trail(value, word) == Pieces(value, word)
            && (forall i | 0 <= i < |value| && word(value[i]) ::
                  0 <= Place(value, i, word) - lead < |r| && r[Place(value, i, word) - lead] == upper(value[i]))
            && (forall i | 0 <= i < |value| && GapAt(value, i, word) && 0 <= Place(value, i, word) - lead < |r| ::
                  r[Place(value, i, word) - lead] == '_')
  {
    hide Pieces, Place, GapAt;
  }

  method SanitizeEnvSegment(value: string, word: char -> bool, upper: char -> char) returns (r: string)
    ensures r == Segment(value, word, upper)
    ensures Alphabet(word, upper) ==> Spells(value, r, word, upper)
  {
    if Alphabet(word, upper) {
      SegmentSpells(value, word, upper);
    }
    hide Spells, Alphabet;
    if value == "" {
      return "UNSPECIFIED";
    }
    var b, prevUnderscore := "", false;
    for i := 0 to |value|
      invariant b == Joined(value[..i], word, upper)
      invariant prevUnderscore <==> i > 0 && !word(value[i - 1])
    {
      assert value[..i + 1][..i] == value[..i];
      if word(value[i]) {
        b := b + [upper(value[i])];
        prevUnderscore := false;
      } else if !prevUnderscore {
        b := b + "_";
        prevUnderscore := true;
      }
    }
    assert value[..|value|] == value;
    r := Trim(b, Underscore);
    if r == "" {
      return "UNSPECIFIED";
    }
  }

  /** Upper-case words separated by single underscores. */
  ghost predicate Words(s: string, word: char -> bool, upper: char -> char) {
    && (forall c | c in s :: c == '_' || (word(c) && upper(c) == c))
    && forall i | 0 < i < |s| :: !(s[i - 1] == '_' && s[i] == '_')
  }

  lemma {:induction false} JoinedIsWords(s: string, word: char -> bool, upper: char -> char)
    requires Alphabet(word, upper)
    ensures Words(Joined(s, word, upper), word, upper)
    ensures s != "" ==>
              var j := Joined(s, word, upper);
              j != "" && (j[|j| - 1] == '_' <==> !word(s[|s| - 1]))
  {
    if s != "" {
      JoinedIsWords(s[..|s| - 1], word, upper);
    }
  }

  lemma {:induction false} WordsStay(s: string, word: char -> bool, upper: char -> char)
    requires Alphabet(word, upper) && Words(s, word, upper)
    ensures Joined(s, word, upper) == s
  {
    if s != "" {
      var n := |s| - 1;
      WordsStay(s[..n], word, upper);
      assert s == s[..n] + [s[n]] && s[n] in s;
    }
  }

  lemma TrimKeepsWords(s: string, word: char -> bool, upper: char -> char)
    requires Words(s, word, upper)
    ensures Words(Trim(s, Underscore), word, upper)
  {
    var l := TrimLeft(s, Underscore);
    TrimLeftShape(s, Underscore);
    TrimRightShape(l, Underscore);
    var r := Trim(s, Underscore);
    assert s[|s| - |l|..|s|] == l && l[0..|r|] == r;
    hide Words, Trim, TrimLeft;
    SliceKeepsWords(s, |s| - |l|, |s|, word, upper);
    SliceKeepsWords(l, 0, |r|, word, upper);
  }

  lemma SliceKeepsWords(s: string, i: nat, j: nat, word: char -> bool, upper: char -> char)
    requires Words(s, word, upper) && i <= j <= |s|
    ensures Words(s[i..j], word, upper)
  {
    var t := s[i..j];
    forall k | 0 < k < |t|
      ensures !(t[k - 1] == '_' && t[k] == '_')
    {
      assert t[k - 1] == s[i + k - 1] && t[k] == s[i + k];
    }
  }

  /** A base is never empty, starts and ends with a word, and is its own base. */
  lemma SegmentIsStable(value: string, word: char -> bool, upper: char -> char)
    requires Alphabet(word, upper) && Words("UNSPECIFIED", word, upper)
    ensures var r := Segment(value, word, upper);
            r != "" && Words(r, word, upper) && Tight(r, Underscore) && Segment(r, word, upper) == r
  {
    JoinedIsWords(value, word, upper);
    var j := Joined(value, word, upper);
    TrimKeepsWords(j, word, upper);
    TrimShape(j, Underscore);
    var r := Segment(value, word, upper);
    WordsStay(r, word, upper);
    TrimShape(r, Underscore);
  }

  datatype Binding = Binding(childInputName: string, bindingName: string, producerOutputName: string)

  function BaseOf(b: Binding, word: char -> bool, upper: char -> char): string {
    Segment(FirstNonEmpty(b.childInputName, FirstNonEmpty(b.bindingName, b.producerOutputName)), word, upper)
  }

  method ValidateResolvedBindingEnvKeys(bindings: seq<Binding>, word: char -> bool, upper: char -> char)
    returns (ok: bool)
    ensures ok <==> forall i, j | 0 <= i < j < |bindings| ::
                      BaseOf(bindings[i], word, upper) != BaseOf(bindings[j], word, upper)
  {
    hide BaseOf, Segment;
    var seen: set<string> := {};
    ghost var keys: seq<string> := [];
    for i := 0 to |bindings|
      invariant |keys| == i && forall k | 0 <= k < i :: keys[k] == BaseOf(bindings[k], word, upper)
      invariant forall s :: s in seen <==> s in keys
      invariant forall j, k | 0 <= j < k < i :: keys[j] != keys[k]
    {
      var key := BaseKey(bindings[i], word, upper);
      if key in seen {
        ghost var j :| 0 <= j < i && keys[j] == key;
        assert BaseOf(bindings[j], word, upper) == BaseOf(bindings[i], word, upper);
        return false;
      }
      seen := seen + {key};
      keys := keys + [key];
    }
    return true;
  }

  method BaseKey(b: Binding, word: char -> bool, upper: char -> char) returns (key: string)
    ensures key == BaseOf(b, word, upper)
  {
    var original := FirstNonEmpty(b.childInputName, FirstNonEmpty(b.bindingName, b.producerOutputName));
    key := SanitizeEnvSegment(original, word, upper);
  }
}
