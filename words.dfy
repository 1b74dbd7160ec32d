/**
 * The string part of the content script's `getWordAtPoint`: given the text of the node under
 * the pointer and the caret offset in it, take the run of word characters that ends at the
 * offset (`/[\p{L}\p{N}_-]+$/u` on the text before it) and the run that starts there
 * (`/^[\p{L}\p{N}_-]+/u` on the text after it), concatenate and trim.
 */
module Words {
  import opened JsValues

  /** `\p{L}` or `\p{N}`, classified for the Basic Latin and Latin-1 Supplement blocks. */
  predicate IsLetterOrNumber(c: char) {
    ('a' <= c <= 'z') || ('A' <= c <= 'Z') || ('0' <= c <= '9')
    || c == '\U{00AA}' || c == '\U{00B5}' || c == '\U{00BA}'
    || ('\U{00C0}' <= c <= '\U{00D6}') || ('\U{00D8}' <= c <= '\U{00F6}') || ('\U{00F8}' <= c <= '\U{00FF}')
    || c == '\U{00B2}' || c == '\U{00B3}' || c == '\U{00B9}' || ('\U{00BC}' <= c <= '\U{00BE}')
  }

  /** The character class `[\p{L}\p{N}_-]`. */
  predicate IsWordChar(c: char) {
    IsLetterOrNumber(c) || c == '_' || c == '-'
  }

  /** Where the run of word characters that ends at index `k` of `s` starts. */
  function RunStart(s: string, k: nat): (j: nat)
    requires k <= |s|
    ensures j <= k
    ensures forall i :: j <= i < k ==> IsWordChar(s[i])
    ensures j > 0 ==> !IsWordChar(s[j - 1])
    decreases k
  {
    if k == 0 || !IsWordChar(s[k - 1]) then k else RunStart(s, k - 1)
  }

  /** Where the run of word characters that starts at index `k` of `s` ends. */
  function RunEnd(s: string, k: nat): (j: nat)
    requires k <= |s|
    ensures k <= j <= |s|
    ensures forall i :: k <= i < j ==> IsWordChar(s[i])
    ensures j < |s| ==> !IsWordChar(s[j])
    decreases |s| - k
  {
    if k == |s| || !IsWordChar(s[k]) then k else RunEnd(s, k + 1)
  }

  /** The longest suffix of `s` made of word characters (what `/[\p{L}\p{N}_-]+$/u` matches, or ""). */
  function TrailingRun(s: string): (r: string)
    ensures |r| <= |s| && r == s[|s| - |r|..]
    ensures forall i :: 0 <= i < |r| ==> IsWordChar(r[i])
    ensures |r| < |s| ==> !IsWordChar(s[|s| - |r| - 1])
  {
    s[RunStart(s, |s|)..]
  }

  /** The longest prefix of `s` made of word characters (what `/^[\p{L}\p{N}_-]+/u` matches, or ""). */
  function LeadingRun(s: string): (r: string)
    ensures |r| <= |s| && r == s[..|r|]
    ensures forall i :: 0 <= i < |r| ==> IsWordChar(r[i])
    ensures |r| < |s| ==> !IsWordChar(s[|r|])
  {
    s[..RunEnd(s, 0)]
  }

  /** The offset `text.slice(0, offset)` and `text.slice(offset)` actually cut at. */
  function ClampOffset(text: string, offset: nat): (o: nat)
    ensures o <= |text|
    ensures offset <= |text| ==> o == offset
  {
    if offset <= |text| then offset else |text|
  }

  /** The run ending at `o` followed by the run starting there. */
  function RunAround(text: string, o: nat): (r: string)
    requires o <= |text|
    ensures forall i :: 0 <= i < |r| ==> IsWordChar(r[i])
  {
    TrailingRun(text[..o]) + LeadingRun(text[o..])
  }

  /** The word under the caret at `offset` in `text`: made only of word characters, so the final
      `trim` removes nothing from the two runs put together. */
  function WordAt(text: string, offset: nat): (w: string)
    ensures forall i :: 0 <= i < |w| ==> IsWordChar(w[i])
    ensures w == RunAround(text, ClampOffset(text, offset))
  {
    var run := RunAround(text, ClampOffset(text, offset));
    TrimKeepsWordChars(run);
    Trim(run)
  }

  /** Trimming removes nothing from a string of word characters. */
  lemma TrimKeepsWordChars(w: string)
    requires forall i :: 0 <= i < |w| ==> IsWordChar(w[i])
    ensures Trim(w) == w
  {
    if w != "" {
      WordCharIsNotWhiteSpace(w[0]);
      WordCharIsNotWhiteSpace(w[|w| - 1]);
    }
    TrimUnchanged(w);
  }

  /** `text[st..en]` is a run of word characters around `o` that cannot be extended either way. */
  ghost predicate MaximalRun(text: string, o: nat, st: nat, en: nat) {
    && st <= o <= en <= |text|
    && (forall i :: st <= i < en ==> IsWordChar(text[i]))
    && (st > 0 ==> !IsWordChar(text[st - 1]))
    && (en < |text| ==> !IsWordChar(text[en]))
  }

  /** The run ending at `o` is `text[st..o]`, all word characters, and cannot be extended leftwards. */
  lemma TrailingSpan(text: string, o: nat) returns (st: nat)
    requires o <= |text|
    ensures st <= o && TrailingRun(text[..o]) == text[st..o]
    ensures forall i :: st <= i < o ==> IsWordChar(text[i])
    ensures st > 0 ==> !IsWordChar(text[st - 1])
  {
    var before := TrailingRun(text[..o]);
    st := o - |before|;
    assert before == text[st..o];
    forall i | st <= i < o ensures IsWordChar(text[i]) {
      assert text[i] == before[i - st];
    }
    if st > 0 {
      assert text[st - 1] == text[..o][o - |before| - 1];
    }
  }

  /** The run starting at `o` is `text[o..en]`, all word characters, and cannot be extended rightwards. */
  lemma LeadingSpan(text: string, o: nat) returns (en: nat)
    requires o <= |text|
    ensures o <= en <= |text| && LeadingRun(text[o..]) == text[o..en]
    ensures forall i :: o <= i < en ==> IsWordChar(text[i])
    ensures en < |text| ==> !IsWordChar(text[en])
  {
    var after := LeadingRun(text[o..]);
    en := o + |after|;
    assert after == text[o..en];
    forall i | o <= i < en ensures IsWordChar(text[i]) {
      assert text[i] == after[i - o];
    }
    if en < |text| {
      assert text[en] == text[o..][|after|];
    }
  }

  /** Two adjacent runs of word characters, one that cannot grow leftwards and one that cannot
      grow rightwards, make a maximal run. */
  lemma JoinRuns(text: string, o: nat, st: nat, en: nat)
    requires st <= o <= en <= |text|
    requires forall i :: st <= i < o ==> IsWordChar(text[i])
    requires forall i :: o <= i < en ==> IsWordChar(text[i])
    requires st > 0 ==> !IsWordChar(text[st - 1])
    requires en < |text| ==> !IsWordChar(text[en])
    ensures MaximalRun(text, o, st, en)
    ensures text[st..en] == text[st..o] + text[o..en]
  {
  }

  lemma RunAroundSpan(text: string, o: nat) returns (st: nat, en: nat)
    requires o <= |text|
    ensures MaximalRun(text, o, st, en)
    ensures RunAround(text, o) == text[st..en]
  {
    st := TrailingSpan(text, o);
    en := LeadingSpan(text, o);
    JoinRuns(text, o, st, en);
  }

  /** The extracted word is the maximal run of word characters spanning the (clamped) offset. */
  lemma WordAtSpan(text: string, offset: nat) returns (st: nat, en: nat)
    ensures MaximalRun(text, ClampOffset(text, offset), st, en)
    ensures WordAt(text, offset) == text[st..en]
  {
    st, en := RunAroundSpan(text, ClampOffset(text, offset));
  }

  lemma WordCharIsNotWhiteSpace(c: char)
    requires IsWordChar(c)
    ensures !IsWhiteSpace(c)
  {
  }

  /** There is only one maximal run around a given offset. */
  lemma MaximalRunUnique(text: string, o: nat, st1: nat, en1: nat, st2: nat, en2: nat)
    requires MaximalRun(text, o, st1, en1) && MaximalRun(text, o, st2, en2)
    ensures st1 == st2 && en1 == en2
  {
  }

  /** A maximal run around `o` is empty exactly when neither neighbour of `o` is a word character. */
  lemma MaximalRunEmpty(text: string, o: nat, st: nat, en: nat)
    requires MaximalRun(text, o, st, en)
    ensures en == st <==> (o == 0 || !IsWordChar(text[o - 1])) && (o == |text| || !IsWordChar(text[o]))
  {
    if st < o {
      assert IsWordChar(text[o - 1]);
    }
    if o < en {
      assert IsWordChar(text[o]);
    }
  }

  /** Nothing is extracted exactly when neither the character before the offset nor the one at it is a word character. */
  lemma WordAtEmpty(text: string, offset: nat)
    ensures var o := ClampOffset(text, offset);
            |WordAt(text, offset)| == 0 <==>
              (o == 0 || !IsWordChar(text[o - 1])) && (o == |text| || !IsWordChar(text[o]))
  {
    var st, en := WordAtSpan(text, offset);
    MaximalRunEmpty(text, ClampOffset(text, offset), st, en);
  }

  /** A text made only of word characters is taken whole wherever the caret sits in it; since
      `-` is a word character, `"hello-world"` with the caret at the hyphen gives `"hello-world"`. */
  lemma WholeWord(text: string, offset: nat)
    requires forall i :: 0 <= i < |text| ==> IsWordChar(text[i])
    ensures WordAt(text, offset) == text
  {
    var st, en := WordAtSpan(text, offset);
    assert st == 0 && en == |text|;
    assert text[0..|text|] == text;
  }
}
