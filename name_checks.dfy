/**
 * The two policy checks applied to every inspected field:
 * `_check_name_characters` (namechecker.py:40-50) and
 * `_check_text_for_prohibited_words` (namechecker.py:52-63).
 */
module NameChecks {
  import opened Sequences
  import opened Policy

  // ---------------------------------------------------------------------
  // Character allow-list
  // ---------------------------------------------------------------------

  /** Every character of `name` is in `allowed`. */
  predicate AllAllowed(name: string, allowed: set<char>) {
    forall k :: 0 <= k < |name| ==> name[k] in allowed
  }

  /** The test that marks a character as offending. */
  function OutsideOf(allowed: set<char>): char -> bool {
    c => c !in allowed
  }

  /** The distinct characters of `name` outside `allowed`, in order of first occurrence. */
  function InvalidChars(name: string, allowed: set<char>): seq<char> {
    FirstOccurrences(name, OutsideOf(allowed))
  }

  /**
   * The scan of `_check_name_characters`: the name is valid iff every
   * character is allowed, and the offending characters are collected once
   * each, in order of first occurrence. An empty name is valid with none.
   */
  method CheckNameCharacters(name: string, allowed: set<char>) returns (isValid: bool, invalidChars: seq<char>)
    ensures isValid <==> AllAllowed(name, allowed)
    ensures invalidChars == InvalidChars(name, allowed)
    ensures isValid <==> invalidChars == []
  {
    if name == [] {
      return true, [];
    }
    invalidChars := [];
    isValid := true;
    for i := 0 to |name|
      invariant isValid <==> AllAllowed(name[..i], allowed)
      invariant invalidChars == InvalidChars(name[..i], allowed)
    {
      var c := name[i];
      assert name[..i + 1] == name[..i] + [c];
      FirstOccurrencesSnoc(name[..i], c, OutsideOf(allowed));
      if c !in allowed {
        isValid := false;
        if c !in invalidChars {
          invalidChars := invalidChars + [c];
        }
      }
    }
    assert name[..|name|] == name;
    InvalidCharsSpec(name, allowed);
  }

  /**
   * What the collected characters are: exactly the offending characters of
   * `name`, none twice, ordered by where each first occurs in `name`.
   */
  lemma InvalidCharsSpec(name: string, allowed: set<char>)
    ensures forall c :: c in InvalidChars(name, allowed) <==> c in name && c !in allowed
    ensures NoDup(InvalidChars(name, allowed))
    ensures forall i, j :: 0 <= i < j < |InvalidChars(name, allowed)| ==>
              FirstIndex(name, InvalidChars(name, allowed)[i]) < FirstIndex(name, InvalidChars(name, allowed)[j])
    ensures InvalidChars(name, allowed) == [] <==> AllAllowed(name, allowed)
  {
    var r := InvalidChars(name, allowed);
    forall i, j | 0 <= i < j < |r|
      ensures FirstIndex(name, r[i]) < FirstIndex(name, r[j])
    {
      FirstOccurrencesOrder(name, OutsideOf(allowed), i, j);
    }
    if !AllAllowed(name, allowed) {
      var k :| 0 <= k < |name| && name[k] !in allowed;
      assert name[k] in name && OutsideOf(allowed)(name[k]);
      assert name[k] in r;
    }
    if r != [] {
      assert r[0] in r;
      var k :| 0 <= k < |name| && name[k] == r[0];
      assert name[k] !in allowed;
    }
  }

  /**
   * The nickname set only adds the space: a name that passes as a username
   * passes as a nickname, and the offending characters under the nickname
   * set are those under the username set, minus the space.
   */
  lemma NickPolicyOnlyAddsSpace(name: string)
    ensures AllAllowed(name, USERNAME_ALLOWED) ==> AllAllowed(name, NICK_OR_GLOBAL_NAME_ALLOWED)
    ensures forall c :: c in InvalidChars(name, NICK_OR_GLOBAL_NAME_ALLOWED) <==>
              c in InvalidChars(name, USERNAME_ALLOWED) && c != ' '
  {
    NickSetIsUsernameSetPlusSpace();
  }

  // ---------------------------------------------------------------------
  // Prohibited words
  // ---------------------------------------------------------------------

  /** `w` occurs as a contiguous run of `text` (Python's `w in text`). */
  predicate IsSubstring(w: string, text: string)
    decreases |text|
  {
    w <= text || (text != [] && IsSubstring(w, text[1..]))
  }

  /** `w` occurs in `text` starting at position `i`. */
  ghost predicate OccursAt(w: string, text: string, i: nat) {
    i + |w| <= |text| && text[i..i + |w|] == w
  }

  /** An occurrence found by the recursive test is at some position. */
  lemma {:induction false} IsSubstringOccurs(w: string, text: string)
    requires IsSubstring(w, text)
    ensures exists i: nat :: OccursAt(w, text, i)
    decreases |text|
  {
    if w <= text {
      assert OccursAt(w, text, 0);
    } else {
      IsSubstringOccurs(w, text[1..]);
      var i: nat :| OccursAt(w, text[1..], i);
      assert text[1..][i..i + |w|] == text[i + 1..i + 1 + |w|];
      assert OccursAt(w, text, i + 1);
    }
  }

  /** An occurrence at position `i` is found by the recursive test. */
  lemma {:induction false} OccursIsSubstring(w: string, text: string, i: nat)
    requires OccursAt(w, text, i)
    ensures IsSubstring(w, text)
    decreases i
  {
    if i > 0 {
      assert text[1..][i - 1..i - 1 + |w|] == text[i..i + |w|];
      OccursIsSubstring(w, text[1..], i - 1);
    }
  }

  /** The recursive substring test agrees with "occurs at some position". */
  lemma IsSubstringIffOccurs(w: string, text: string)
    ensures IsSubstring(w, text) <==> exists i: nat :: OccursAt(w, text, i)
  {
    if IsSubstring(w, text) {
      IsSubstringOccurs(w, text);
    }
    if exists i: nat :: OccursAt(w, text, i) {
      var i: nat :| OccursAt(w, text, i);
      OccursIsSubstring(w, text, i);
    }
  }

  /**
   * The listed words found in `text`: none when the text is empty (the
   * source's early return), otherwise every listed word that is a
   * substring of the lower-cased text, collected as a set.
   */
  function MatchedWords(text: string, words: seq<string>): set<string> {
    if text == [] then {} else set w | w in words && IsSubstring(w, LowerStr(text))
  }

  /**
   * The scan of `_check_text_for_prohibited_words`: the flag is set iff
   * some word was found, and the found words are returned without
   * repeats (`list(set(found_words))`, whose order Python leaves open).
   */
  method CheckProhibitedWords(text: string, words: seq<string>) returns (matched: bool, found: set<string>)
    ensures found == MatchedWords(text, words)
    ensures matched <==> found != {}
  {
    if text == [] || words == [] {
      return false, {};
    }
    var foundWords: seq<string> := [];
    var lowered := LowerStr(text);
    for i := 0 to |words|
      invariant forall w :: w in foundWords <==> w in words[..i] && IsSubstring(w, lowered)
    {
      assert words[..i + 1] == words[..i] + [words[i]];
      if IsSubstring(words[i], lowered) {
        foundWords := foundWords + [words[i]];
      }
    }
    assert words[..|words|] == words;
    matched := foundWords != [];
    found := set w | w in foundWords;
    assert matched ==> foundWords[0] in found;
  }

  /**
   * Matching is substring matching on the lower-cased text: a listed word is
   * found iff the text is non-empty and the word occurs at some position of
   * the lower-cased text; an empty word list or an empty text finds nothing.
   */
  lemma MatchedWordsSpec(text: string, words: seq<string>, w: string)
    ensures w in MatchedWords(text, words) <==>
              text != [] && w in words && exists i: nat :: OccursAt(w, LowerStr(text), i)
    ensures words == [] ==> MatchedWords(text, words) == {}
    ensures text == [] ==> MatchedWords(text, words) == {}
  {
    IsSubstringIffOccurs(w, LowerStr(text));
  }

  /**
   * The early return for an empty text only matters for the empty word:
   * any non-empty word is absent from the empty text anyway.
   */
  lemma EmptyTextFindsNoNonEmptyWord(w: string)
    requires w != []
    ensures !IsSubstring(w, [])
  {
  }

  /** Matching ignores ASCII case in the text: the lower-cased text matches the same words. */
  lemma MatchingIgnoresTextCase(text: string, words: seq<string>)
    ensures MatchedWords(LowerStr(text), words) == MatchedWords(text, words)
  {
    LowerStrIdempotent(text);
  }
}
