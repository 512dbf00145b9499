/** The file-name form of a project name. */
module Slugs {
  import opened Text

  predicate IsWordChar(c: char) {
    'a' <= c <= 'z' || '0' <= c <= '9'
  }

  predicate IsWord(w: string) {
    w != [] && forall i :: 0 <= i < |w| ==> IsWordChar(w[i])
  }

  predicate EndsInWord(s: string) {
    s != [] && IsWordChar(LowerChar(s[|s| - 1]))
  }

  /** The longest runs of ASCII letters and digits, in lower case. */
  function Words(s: string): (words: seq<string>)
    ensures words == [] <==> forall i :: 0 <= i < |s| ==> !IsWordChar(LowerChar(s[i]))
    ensures forall k :: 0 <= k < |words| ==> IsWord(words[k])
  {
    if s == [] then []
    else
      var n := |s| - 1;
      var front, c := Words(s[..n]), LowerChar(s[n]);
      if !IsWordChar(c) then front
      else if EndsInWord(s[..n]) then
        assert IsWordChar(LowerChar(s[..n][n - 1]));
        front[..|front| - 1] + [front[|front| - 1] + [c]]
      else front + [[c]]
  }

  function SlugWords(value: string): (words: seq<string>)
    ensures words != [] && forall k :: 0 <= k < |words| ==> IsWord(words[k])
  {
    if Words(value) == [] then ["camp", "agent"] else Words(value)
  }

  function Slug(value: string): string {
    Join(SlugWords(value), '-')
  }

  /** Words held apart by single dashes. */
  predicate IsSlug(t: string) {
    && t != []
    && t[0] != '-' && t[|t| - 1] != '-'
    && Tidy(t)
  }

  predicate Tidy(t: string) {
    && (forall i :: 0 <= i < |t| ==> IsWordChar(t[i]) || t[i] == '-')
    && (forall i :: 0 <= i < |t| - 1 ==> t[i] != '-' || t[i + 1] != '-')
  }

  // ---------- One character at a time ----------

  /** A dash stands for other characters before the first word, and behind the last. */
  function Opening(s: string): string {
    if s != [] && !IsWordChar(LowerChar(s[0])) then "-" else ""
  }

  function Closing(s: string): string {
    if Words(s) != [] && !EndsInWord(s) then "-" else ""
  }

  /** What has been written after the characters of `s`. */
  function Written(s: string): string {
    Opening(s) + Join(Words(s), '-') + Closing(s)
  }

  function Addition(s: string, c: char): string {
    if IsWordChar(LowerChar(c)) then [LowerChar(c)]
    else if s == [] || EndsInWord(s) then "-"
    else ""
  }

  lemma {:induction false} JoinExtended(front: seq<string>, word: string, c: char, separator: char)
    ensures Join(front + [word + [c]], separator) == Join(front + [word], separator) + [c]
  {
    if front == [] {
      assert front + [word + [c]] == [word + [c]] && front + [word] == [word];
    } else {
      JoinOfConcat(front, [word + [c]], separator);
      JoinOfConcat(front, [word], separator);
    }
  }

  lemma JoinedByOne(s: string, c: char)
    requires IsWordChar(LowerChar(c))
    ensures Join(Words(s + [c]), '-')
            == Join(Words(s), '-') + Closing(s) + [LowerChar(c)]
  {
    var d, words := LowerChar(c), Words(s);
    assert (s + [c])[..|s|] == s;
    if EndsInWord(s) {
      var n := |words| - 1;
      assert words == words[..n] + [words[n]];
      JoinExtended(words[..n], words[n], d, '-');
    } else if words != [] {
      JoinOfConcat(words, [[d]], '-');
    } else {
      assert words + [[d]] == [[d]];
    }
  }

  lemma OpeningStays(s: string, c: char)
    requires s != [] || IsWordChar(LowerChar(c))
    ensures Opening(s + [c]) == Opening(s)
  {
  }

  lemma WordCharWritten(s: string, c: char)
    requires IsWordChar(LowerChar(c))
    ensures Written(s + [c]) == Written(s) + [LowerChar(c)]
  {
    OpeningStays(s, c);
    JoinedByOne(s, c);
    var o, j, e, d := Opening(s), Join(Words(s), '-'), Closing(s), LowerChar(c);
    assert Closing(s + [c]) == "";
    assert o + (j + e + [d]) + "" == o + j + e + [d];
  }

  lemma OtherCharWritten(s: string, c: char)
    requires !IsWordChar(LowerChar(c))
    ensures Written(s + [c]) == Written(s) + (if s == [] || EndsInWord(s) then "-" else "")
  {
  }

  lemma WrittenByOne(s: string, c: char)
    ensures Written(s + [c]) == Written(s) + Addition(s, c)
  {
    if IsWordChar(LowerChar(c)) {
      WordCharWritten(s, c);
    } else {
      OtherCharWritten(s, c);
    }
  }

  // ---------- Trimming dashes ----------

  function TrimDashes(s: string): string
    decreases |s|
  {
    if s != [] && s[0] == '-' then TrimDashes(s[1..])
    else if s != [] && s[|s| - 1] == '-' then TrimDashes(s[..|s| - 1])
    else s
  }

  lemma TrimOfTailed(s: string)
    requires s != [] && s[0] != '-' && s[|s| - 1] != '-'
    ensures TrimDashes(s) == s && TrimDashes(s + "-") == s
  {
    var tailed := s + "-";
    assert tailed[0] == s[0] && tailed[|s|] == '-';
    assert tailed[..|s|] == s;
  }

  lemma TrimOfLed(s: string)
    ensures TrimDashes("-" + s) == TrimDashes(s)
  {
    assert ("-" + s)[1..] == s;
  }

  lemma TrimOfDashed(s: string, front: bool, back: bool)
    requires s != [] ==> s[0] != '-' && s[|s| - 1] != '-'
    requires s == [] ==> !back
    ensures TrimDashes((if front then "-" else "") + s + (if back then "-" else "")) == s
  {
    var tailed := s + (if back then "-" else "");
    assert !back ==> tailed == s;
    if s != [] {
      TrimOfTailed(s);
    }
    TrimOfLed(tailed);
    var all := (if front then "-" else "") + s + (if back then "-" else "");
    assert all == if front then "-" + tailed else tailed;
  }

  lemma {:induction false} JoinedWords(words: seq<string>)
    requires words != [] && forall k :: 0 <= k < |words| ==> IsWord(words[k])
    ensures IsSlug(Join(words, '-'))
  {
    if |words| > 1 {
      var rest := Join(words[1..], '-');
      JoinedWords(words[1..]);
      var t, n := words[0] + ['-'] + rest, |words[0]|;
      assert t[n] == '-' && t[n + 1] == rest[0] && t[n - 1] == words[0][n - 1];
      assert forall i :: n < i < |t| ==> t[i] == rest[i - n - 1];
      assert forall i :: 0 <= i < n ==> t[i] == words[0][i];
      assert t[|t| - 1] == rest[|rest| - 1];
    }
  }

  const FALLBACK := "camp-agent"

  /** What is left of the written characters without the dashes around them. */
  lemma TrimmedIsSlug(value: string)
    ensures TrimDashes(Written(value)) == (if Words(value) == [] then "" else Slug(value))
  {
    if Words(value) != [] {
      JoinedWords(Words(value));
    }
    TrimOfDashed(Join(Words(value), '-'), Opening(value) != "", Closing(value) != "");
  }

  // ---------- Normal form ----------

  lemma {:induction false} TidyIsKept(t: string)
    requires Tidy(t)
    ensures Written(t) == t
  {
    if t != [] {
      var s, c := t[..|t| - 1], t[|t| - 1];
      TidyIsKept(s);
      assert t == s + [c];
      WrittenByOne(s, c);
    }
  }

  /** The slug of anything is a slug, and slugs are exactly the names that stay as they are. */
  lemma SlugIsNormalForm(value: string)
    ensures IsSlug(Slug(value))
    ensures Slug(value) == value <==> IsSlug(value)
    ensures Slug(Slug(value)) == Slug(value)
  {
    JoinedWords(SlugWords(value));
    SlugOfSlug(Slug(value));
    if IsSlug(value) {
      SlugOfSlug(value);
    }
  }

  lemma SlugOfSlug(t: string)
    requires IsSlug(t)
    ensures Slug(t) == t
  {
    TidyIsKept(t);
    assert IsWordChar(t[0]) && IsWordChar(t[|t| - 1]);
    assert "" + Join(Words(t), '-') + "" == Join(Words(t), '-');
  }

  /** The ASCII letters and digits of a text in their order, in lower case. */
  function Letters(s: string): string {
    if s == [] then []
    else
      var front, c := Letters(s[..|s| - 1]), s[|s| - 1];
      if 'a' <= c <= 'z' || '0' <= c <= '9' then front + [c]
      else if 'A' <= c <= 'Z' then front + [(c as int - 'A' as int + 'a' as int) as char]
      else front
  }

  lemma LettersOneMore(s: string, c: char)
    ensures Letters(s + [c]) == Letters(s) + Letters([c])
  {
    assert (s + [c])[..|s + [c]| - 1] == s;
    assert [c][..0] == [];
  }

  lemma LetterOf(c: char)
    ensures Letters([c]) == if IsWordChar(LowerChar(c)) then [LowerChar(c)] else []
    ensures Letters([LowerChar(c)]) == Letters([c])
  {
    assert Letters([c][..0]) == [] && Letters([LowerChar(c)][..0]) == [];
  }

  lemma {:induction false} WrittenLetters(s: string)
    ensures Letters(Written(s)) == Letters(s)
  {
    if s != [] {
      var front, c := s[..|s| - 1], s[|s| - 1];
      assert s == front + [c];
      WrittenLetters(front);
      WrittenByOne(front, c);
      LettersOneMore(front, c);
      LetterOf(c);
      if Addition(front, c) != "" {
        LettersOneMore(Written(front), Addition(front, c)[0]);
        LetterOf(Addition(front, c)[0]);
      }
    }
  }

  lemma {:induction false} DashesAround(t: string, front: bool, back: bool)
    ensures Letters((if front then "-" else "") + t + (if back then "-" else "")) == Letters(t)
  {
    var tailed := t + (if back then "-" else "");
    LetterOf('-');
    assert Letters(tailed) == Letters(t) by {
      if back {
        LettersOneMore(t, '-');
      } else {
        assert tailed == t;
      }
    }
    if front {
      DashInFront(tailed);
    }
    var all := (if front then "-" else "") + tailed;
    assert (if front then "-" else "") + t + (if back then "-" else "") == all;
    assert !front ==> all == tailed;
  }

  lemma {:induction false} DashInFront(t: string)
    ensures Letters("-" + t) == Letters(t)
  {
    LetterOf('-');
    if t != [] {
      var n := |t| - 1;
      DashInFront(t[..n]);
      assert "-" + t == ("-" + t[..n]) + [t[n]] && t == t[..n] + [t[n]];
      LettersOneMore("-" + t[..n], t[n]);
      LettersOneMore(t[..n], t[n]);
    }
  }

  /** A slug keeps all letters and digits of the name, in their order and in lower case; a name without any
      gets the fallback. */
  lemma SlugKeepsLetters(value: string)
    ensures Letters(value) != [] ==> Letters(Slug(value)) == Letters(value)
    ensures Letters(value) == [] ==> Slug(value) == "camp-agent"
  {
    WrittenLetters(value);
    var joined := Join(Words(value), '-');
    DashesAround(joined, Opening(value) != "", Closing(value) != "");
    if Words(value) == [] {
      assert Join(["camp", "agent"], '-') == FALLBACK;
    } else {
      JoinedWords(Words(value));
      SomeLetter(joined);
    }
  }

  lemma SomeLetter(t: string)
    requires IsSlug(t)
    ensures Letters(t) != []
  {
    var n := |t| - 1;
    assert t == t[..n] + [t[n]];
    LettersOneMore(t[..n], t[n]);
    LetterOf(t[n]);
  }

  /** Two names share a slug exactly when they have the same words; a name without any counts as
      having the two words of the fallback. */
  lemma SameSlugIff(a: string, b: string)
    ensures Slug(a) == Slug(b) <==> SlugWords(a) == SlugWords(b)
  {
    if Slug(a) == Slug(b) {
      JoinInjective(SlugWords(a), SlugWords(b), '-');
    }
  }

  // ---------- The loop ----------

  /** Without the dashes around it, what was written is the slug, unless nothing is left. */
  lemma SlugOfWritten(value: string)
    ensures var trimmed := TrimDashes(Written(value));
            Slug(value) == if trimmed == [] then FALLBACK else trimmed
  {
    TrimmedIsSlug(value);
    if Words(value) == [] {
      assert Join(["camp", "agent"], '-') == FALLBACK;
    } else {
      SlugIsNormalForm(value);
    }
  }

  lemma NextWritten(value: string, i: nat)
    requires i < |value|
    ensures Written(value[..i + 1]) == Written(value[..i]) + Addition(value[..i], value[i])
    ensures EndsInWord(value[..i + 1]) <==> IsWordChar(LowerChar(value[i]))
  {
    assert value[..i + 1] == value[..i] + [value[i]];
    WrittenByOne(value[..i], value[i]);
  }

  method Slugify(value: string) returns (result: string)
    ensures result == Slug(value)
  {
    var slug: string, lastDash := "", false;
    for i := 0 to |value|
      invariant slug == Written(value[..i])
      invariant lastDash <==> i > 0 && !EndsInWord(value[..i])
    {
      NextWritten(value, i);
      var normalized := LowerChar(value[i]);
      if IsWordChar(normalized) {
        slug := slug + [normalized];
        lastDash := false;
      } else if !lastDash {
        slug := slug + "-";
        lastDash := true;
      }
    }
    assert value[..|value|] == value;
    SlugOfWritten(value);
    var trimmed := TrimDashes(slug);
    result := if trimmed == [] then FALLBACK else trimmed;
  }
}
