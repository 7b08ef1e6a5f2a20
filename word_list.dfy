/**
 * The per-server prohibited-word list and the `bioset add`, `bioset remove`
 * and `bioset clear` commands that edit it in place
 * (namechecker.py:176-214). The settings store that persists the list is
 * not modelled; the list is the field of an object.
 */
module WordList {
  import opened Sequences
  import opened Policy

  /** What the list keeps: every entry lower-case, no entry twice. */
  ghost predicate WellFormed(ws: seq<string>) {
    NoDup(ws) && forall k :: 0 <= k < |ws| ==> IsLower(ws[k])
  }

  /** The list after `add`: the lower-cased word is appended unless already present. */
  function WithWord(ws: seq<string>, word: string): seq<string> {
    var lw := LowerStr(word);
    if lw in ws then ws else ws + [lw]
  }

  /** The list with the first occurrence of `x` taken out (Python's `list.remove`). */
  function RemoveFirst(ws: seq<string>, x: string): seq<string>
    requires x in ws
  {
    var i := FirstIndex(ws, x);
    ws[..i] + ws[i + 1..]
  }

  /** The list after `remove`: the lower-cased word is taken out if present. */
  function WithoutWord(ws: seq<string>, word: string): seq<string> {
    var lw := LowerStr(word);
    if lw in ws then RemoveFirst(ws, lw) else ws
  }

  /** The entries of `ws` other than `x`, in order: an independent description of removal. */
  function Except(ws: seq<string>, x: string): seq<string> {
    if ws == [] then []
    else (if ws[0] == x then [] else [ws[0]]) + Except(ws[1..], x)
  }

  /**
   * `add` keeps the list well formed, keeps the existing entries in their
   * order (they form a prefix of the new list), and the new list holds
   * exactly the old entries and the lower-cased word.
   */
  lemma WithWordSpec(ws: seq<string>, word: string)
    requires WellFormed(ws)
    ensures WellFormed(WithWord(ws, word))
    ensures ws <= WithWord(ws, word)
    ensures forall x :: x in WithWord(ws, word) <==> x in ws || x == LowerStr(word)
    ensures |WithWord(ws, word)| == |ws| + (if LowerStr(word) in ws then 0 else 1)
  {
    LowerStrIdempotent(word);
  }

  /** Adding is insensitive to the case of the word, and adding twice is adding once. */
  lemma WithWordIgnoresCaseAndRepeats(ws: seq<string>, word: string)
    ensures WithWord(ws, LowerStr(word)) == WithWord(ws, word)
    ensures WithWord(WithWord(ws, word), word) == WithWord(ws, word)
  {
    LowerStrIdempotent(word);
  }

  /** On a list without repeats, removing the first occurrence removes every occurrence. */
  lemma {:induction false} RemoveFirstIsExcept(ws: seq<string>, x: string)
    requires NoDup(ws) && x in ws
    ensures RemoveFirst(ws, x) == Except(ws, x)
  {
    if ws[0] == x {
      ExceptAbsent(ws[1..], x);
      assert RemoveFirst(ws, x) == ws[1..];
    } else {
      RemoveFirstIsExcept(ws[1..], x);
      assert FirstIndex(ws, x) == 1 + FirstIndex(ws[1..], x);
      var i := FirstIndex(ws[1..], x);
      assert ws[1..][..i] + ws[1..][i + 1..] == ws[1..i + 1] + ws[i + 2..];
      assert RemoveFirst(ws, x) == [ws[0]] + RemoveFirst(ws[1..], x);
    }
  }

  /** Removing an absent entry changes nothing. */
  lemma {:induction false} ExceptAbsent(ws: seq<string>, x: string)
    requires x !in ws
    ensures Except(ws, x) == ws
  {
    if ws != [] {
      ExceptAbsent(ws[1..], x);
      assert ws == [ws[0]] + ws[1..];
    }
  }

  /** `Except` keeps exactly the other entries, and keeps the list well formed. */
  lemma {:induction false} ExceptSpec(ws: seq<string>, x: string)
    ensures forall y :: y in Except(ws, x) <==> y in ws && y != x
    ensures WellFormed(ws) ==> WellFormed(Except(ws, x))
  {
    if ws != [] {
      ExceptSpec(ws[1..], x);
      var rest := Except(ws[1..], x);
      if WellFormed(ws) {
        assert WellFormed(ws[1..]);
        assert ws[0] !in ws[1..];
        var r := Except(ws, x);
        if ws[0] != x {
          assert r == [ws[0]] + rest;
          forall i, j | 0 <= i < j < |r|
            ensures r[i] != r[j]
          {
            if i == 0 {
              assert r[j] in rest;
            }
          }
        }
      }
    }
  }

  /**
   * `remove` keeps the list well formed, and the new list holds exactly the
   * old entries other than the lower-cased word, in their old order.
   */
  lemma WithoutWordSpec(ws: seq<string>, word: string)
    requires WellFormed(ws)
    ensures WithoutWord(ws, word) == Except(ws, LowerStr(word))
    ensures WellFormed(WithoutWord(ws, word))
    ensures forall x :: x in WithoutWord(ws, word) <==> x in ws && x != LowerStr(word)
  {
    var lw := LowerStr(word);
    if lw in ws {
      RemoveFirstIsExcept(ws, lw);
    } else {
      ExceptAbsent(ws, lw);
    }
    ExceptSpec(ws, lw);
  }

  /** Removing a word just added to a list that lacked it restores the list. */
  lemma AddThenRemove(ws: seq<string>, word: string)
    requires WellFormed(ws) && LowerStr(word) !in ws
    ensures WithoutWord(WithWord(ws, word), word) == ws
  {
    var lw := LowerStr(word);
    assert FirstIndex(ws + [lw], lw) == |ws| by {
      FirstIndexAppendNew(ws, lw);
    }
    assert (ws + [lw])[..|ws|] == ws;
  }

  /** A server's prohibited-word list. */
  class ProhibitedWordList {
    var words: seq<string>

    ghost predicate Valid()
      reads this
    {
      WellFormed(words)
    }

    /** A server's list starts empty. */
    constructor ()
      ensures Valid() && words == []
    {
      words := [];
    }

    /** `bioset add`: appends the lower-cased word unless present; reports whether it was added. */
    method Add(wordOrPhrase: string) returns (added: bool)
      requires Valid()
      modifies this
      ensures Valid()
      ensures added <==> LowerStr(wordOrPhrase) !in old(words)
      ensures words == WithWord(old(words), wordOrPhrase)
    {
      WithWordSpec(words, wordOrPhrase);
      var lowered := LowerStr(wordOrPhrase);
      if lowered !in words {
        words := words + [lowered];
        added := true;
      } else {
        added := false;
      }
    }

    /** `bioset remove`: takes the lower-cased word out if present; reports whether it was there. */
    method Remove(wordOrPhrase: string) returns (removed: bool)
      requires Valid()
      modifies this
      ensures Valid()
      ensures removed <==> LowerStr(wordOrPhrase) in old(words)
      ensures words == WithoutWord(old(words), wordOrPhrase)
    {
      WithoutWordSpec(words, wordOrPhrase);
      var lowered := LowerStr(wordOrPhrase);
      if lowered in words {
        var i := FirstIndex(words, lowered);
        words := words[..i] + words[i + 1..];
        removed := true;
      } else {
        removed := false;
      }
    }

    /** `bioset clear`: empties the list; reports whether there was anything to clear. */
    method Clear() returns (cleared: bool)
      requires Valid()
      modifies this
      ensures Valid()
      ensures cleared <==> old(words) != []
      ensures words == []
    {
      if words == [] {
        return false;
      }
      words := [];
      cleared := true;
    }
  }
}
