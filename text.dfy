/**
 * Title-casing of item names (`capitalizedFirst`): the text is lower-cased,
 * split on single spaces, the first character of every word is upper-cased,
 * and the words are joined again with single spaces.
 *
 * Case mapping is modelled over ASCII letters only; every other character
 * maps to itself.
 */
module Text {

  predicate IsUpperLetter(c: char) { 'A' <= c <= 'Z' }

  predicate IsLowerLetter(c: char) { 'a' <= c <= 'z' }

  predicate IsLetter(c: char) { IsUpperLetter(c) || IsLowerLetter(c) }

  /** `toLowerCase` on one character. */
  function ToLowerChar(c: char): (r: char)
    ensures !IsUpperLetter(r)
    ensures !IsUpperLetter(c) ==> r == c
    ensures IsLetter(r) <==> IsLetter(c)
  {
    if IsUpperLetter(c) then (c as int + 32) as char else c
  }

  /** `toUpperCase` on one character. */
  function ToUpperChar(c: char): (r: char)
    ensures !IsLowerLetter(r)
    ensures !IsLowerLetter(c) ==> r == c
    ensures IsLetter(r) <==> IsLetter(c)
  {
    if IsLowerLetter(c) then (c as int - 32) as char else c
  }

  /** `toLowerCase` on a string: character by character. */
  function ToLower(s: string): (r: string)
    ensures |r| == |s|
    ensures forall i :: 0 <= i < |s| ==> r[i] == ToLowerChar(s[i])
  {
    if s == [] then [] else [ToLowerChar(s[0])] + ToLower(s[1..])
  }

  /** `split(" ")`: the maximal space-free pieces between single spaces.
      Splitting never yields an empty list; "" splits into [""]. */
  function Split(s: string): (words: seq<string>)
    ensures |words| >= 1
  {
    if s == [] then [[]]
    else
      var rest := Split(s[1..]);
      if s[0] == ' ' then [[]] + rest
      else [[s[0]] + rest[0]] + rest[1..]
  }

  /** `join(" ")`. */
  function Join(words: seq<string>): string
    requires |words| >= 1
  {
    if |words| == 1 then words[0] else words[0] + " " + Join(words[1..])
  }

  predicate SpaceFree(w: string) { forall j :: 0 <= j < |w| ==> w[j] != ' ' }

  /** `word.charAt(0).toUpperCase() + word.slice(1)`; the empty word stays empty. */
  function CapitalizeWord(w: string): string
  {
    if w == [] then [] else [ToUpperChar(w[0])] + w[1..]
  }

  /** `map(CapitalizeWord)` over the words. */
  function CapitalizeWords(words: seq<string>): (r: seq<string>)
    ensures |r| == |words|
    ensures forall k :: 0 <= k < |words| ==> r[k] == CapitalizeWord(words[k])
  {
    if words == [] then [] else [CapitalizeWord(words[0])] + CapitalizeWords(words[1..])
  }

  /** `capitalizedFirst`, as the source chains it: lower-case, split, capitalize each word, join. */
  function CapitalizedFirst(text: string): string
  {
    Join(CapitalizeWords(Split(ToLower(text))))
  }

  /** An independent, character-at-a-time reading of the same operation on an
      already lower-cased string: a character is upper-cased exactly when it
      starts a word. */
  function CapitalizeScan(s: string, atWordStart: bool): string
  {
    if s == [] then []
    else if s[0] == ' ' then [' '] + CapitalizeScan(s[1..], true)
    else [if atWordStart then ToUpperChar(s[0]) else s[0]] + CapitalizeScan(s[1..], false)
  }

  // ---------------------------------------------------------------------
  // Split and Join are inverse to each other
  // ---------------------------------------------------------------------

  lemma JoinFirstPrefix(a: string, w: string, rest: seq<string>)
    ensures Join([a + w] + rest) == a + Join([w] + rest)
  {
    if rest != [] {
      assert ([a + w] + rest)[1..] == rest;
      assert ([w] + rest)[1..] == rest;
    }
  }

  /** Joining the pieces of a split gives back the string. */
  lemma {:induction false} JoinSplit(s: string)
    ensures Join(Split(s)) == s
  {
    if s != [] {
      var rest := Split(s[1..]);
      JoinSplit(s[1..]);
      if s[0] == ' ' {
        assert ([[]] + rest)[1..] == rest;
        assert s == [' '] + s[1..];
      } else {
        assert rest == [rest[0]] + rest[1..];
        JoinFirstPrefix([s[0]], rest[0], rest[1..]);
        assert s == [s[0]] + s[1..];
      }
    }
  }

  /** The words of a split never contain a space, and consist of characters of the string. */
  lemma {:induction false} SplitWords(s: string)
    ensures forall k, j :: 0 <= k < |Split(s)| && 0 <= j < |Split(s)[k]| ==>
      Split(s)[k][j] != ' ' && Split(s)[k][j] in s
  {
    if s != [] {
      SplitWords(s[1..]);
      var rest := Split(s[1..]);
      var ws := Split(s);
      forall k, j | 0 <= k < |ws| && 0 <= j < |ws[k]|
        ensures ws[k][j] != ' ' && ws[k][j] in s
      {
        assert forall c :: c in s[1..] ==> c in s;
        if s[0] == ' ' {
          assert k > 0 && ws[k] == rest[k - 1];
        } else if k == 0 {
          assert ws[0] == [s[0]] + rest[0];
          if j > 0 { assert ws[0][j] == rest[0][j - 1]; }
        } else {
          assert ws[k] == rest[k];
        }
      }
    }
  }

  lemma {:induction false} SplitSpaceFreePrefix(w: string, t: string)
    requires SpaceFree(w)
    ensures Split(w + t) == [w + Split(t)[0]] + Split(t)[1..]
  {
    if w == [] {
      assert w + t == t;
      assert w + Split(t)[0] == Split(t)[0];
      assert Split(t) == [Split(t)[0]] + Split(t)[1..];
    } else {
      var w' := w[1..];
      assert (w + t)[0] == w[0] && (w + t)[1..] == w' + t;
      SplitSpaceFreePrefix(w', t);
      assert [w[0]] + (w' + Split(t)[0]) == w + Split(t)[0];
    }
  }

  /** Splitting a join of space-free words gives back the words. */
  lemma {:induction false} SplitJoin(words: seq<string>)
    requires |words| >= 1
    requires forall k :: 0 <= k < |words| ==> SpaceFree(words[k])
    ensures Split(Join(words)) == words
  {
    if |words| == 1 {
      SplitSpaceFreePrefix(words[0], []);
      assert words[0] + [] == words[0];
    } else {
      var tail := Join(words[1..]);
      assert Join(words) == words[0] + (" " + tail);
      SplitSpaceFreePrefix(words[0], " " + tail);
      assert (" " + tail)[1..] == tail;
      SplitJoin(words[1..]);
      assert Split(" " + tail) == [[]] + words[1..];
      assert words[0] + [] == words[0];
      assert words == [words[0]] + words[1..];
    }
  }

  /** Two strings with spaces at the same positions split into the same number
      of words, of the same lengths. */
  lemma {:induction false} SplitShape(a: string, b: string)
    requires |a| == |b|
    requires forall i :: 0 <= i < |a| ==> (a[i] == ' ' <==> b[i] == ' ')
    ensures |Split(a)| == |Split(b)|
    ensures forall k :: 0 <= k < |Split(a)| ==> |Split(a)[k]| == |Split(b)[k]|
  {
    if a != [] {
      assert forall i :: 0 <= i < |a| - 1 ==> a[1..][i] == a[i + 1] && b[1..][i] == b[i + 1];
      SplitShape(a[1..], b[1..]);
    }
  }

  // ---------------------------------------------------------------------
  // The split/map/join chain agrees with the character scan
  // ---------------------------------------------------------------------

  function CapitalizeIf(w: string, b: bool): string {
    if b then CapitalizeWord(w) else w
  }

  lemma {:induction false} ChainIsScan(s: string, b: bool)
    ensures Join([CapitalizeIf(Split(s)[0], b)] + CapitalizeWords(Split(s)[1..])) == CapitalizeScan(s, b)
  {
    if s != [] {
      var t := s[1..];
      var r := Split(t);
      if s[0] == ' ' {
        ChainIsScan(t, true);
        assert Split(s)[1..] == r;
        assert CapitalizeWords(r) == [CapitalizeWord(r[0])] + CapitalizeWords(r[1..]);
        var tail := CapitalizeWords(r);
        assert ([CapitalizeIf([], b)] + tail)[1..] == tail;
        assert CapitalizeIf([], b) == [];
      } else {
        ChainIsScan(t, false);
        var c := if b then ToUpperChar(s[0]) else s[0];
        assert CapitalizeIf([s[0]] + r[0], b) == [c] + r[0];
        assert Split(s)[1..] == r[1..];
        JoinFirstPrefix([c], r[0], CapitalizeWords(r[1..]));
      }
    }
  }

  lemma CapitalizedFirstIsScan(text: string)
    ensures CapitalizedFirst(text) == CapitalizeScan(ToLower(text), true)
  {
    var ws := Split(ToLower(text));
    ChainIsScan(ToLower(text), true);
    assert CapitalizeWords(ws) == [CapitalizeWord(ws[0])] + CapitalizeWords(ws[1..]);
  }

  lemma {:induction false} ScanAt(s: string, b: bool, i: nat)
    requires i < |s|
    ensures |CapitalizeScan(s, b)| == |s|
    ensures CapitalizeScan(s, b)[i] ==
      if s[i] == ' ' then ' '
      else if (if i == 0 then b else s[i - 1] == ' ') then ToUpperChar(s[i])
      else s[i]
  {
    if i == 0 {
      if |s| > 1 { ScanAt(s[1..], s[0] == ' ', 0); }
    } else {
      ScanAt(s[1..], s[0] == ' ', i - 1);
    }
  }

  // ---------------------------------------------------------------------
  // What capitalizedFirst promises
  // ---------------------------------------------------------------------

  /** Character-level meaning: the output has the input's length; a character
      that starts a word is upper-cased and every other one is lower-cased.
      Hence spaces stay where they are and non-letters are unchanged. */
  lemma CapitalizedFirstChars(text: string)
    ensures |CapitalizedFirst(text)| == |text|
    ensures forall i :: 0 <= i < |text| ==>
      CapitalizedFirst(text)[i] ==
        (if i == 0 || text[i - 1] == ' ' then ToUpperChar(text[i]) else ToLowerChar(text[i]))
    ensures forall i :: 0 <= i < |text| ==> (CapitalizedFirst(text)[i] == ' ' <==> text[i] == ' ')
    ensures forall i :: 0 <= i < |text| && !IsLetter(text[i]) ==> CapitalizedFirst(text)[i] == text[i]
  {
    CapitalizedFirstIsScan(text);
    var low := ToLower(text);
    if text == [] {
      assert CapitalizeScan(low, true) == [];
    } else {
      ScanAt(low, true, 0);
    }
    forall i | 0 <= i < |text|
      ensures CapitalizedFirst(text)[i] ==
        (if i == 0 || text[i - 1] == ' ' then ToUpperChar(text[i]) else ToLowerChar(text[i]))
      ensures CapitalizedFirst(text)[i] == ' ' <==> text[i] == ' '
      ensures !IsLetter(text[i]) ==> CapitalizedFirst(text)[i] == text[i]
    {
      ScanAt(low, true, i);
      if i > 0 { assert low[i - 1] == ' ' <==> text[i - 1] == ' '; }
    }
  }

  /** Applying capitalizedFirst twice is the same as applying it once. */
  lemma CapitalizedFirstIdempotent(text: string)
    ensures CapitalizedFirst(CapitalizedFirst(text)) == CapitalizedFirst(text)
  {
    var once := CapitalizedFirst(text);
    CapitalizedFirstChars(text);
    CapitalizedFirstChars(once);
    var twice := CapitalizedFirst(once);
    forall i | 0 <= i < |text| ensures twice[i] == once[i] {
      if i > 0 { assert once[i - 1] == ' ' <==> text[i - 1] == ' '; }
    }
  }

  lemma {:induction false} ToLowerHasNoUpper(s: string, c: char)
    requires c in ToLower(s)
    ensures !IsUpperLetter(c)
  {
    var i :| 0 <= i < |ToLower(s)| && ToLower(s)[i] == c;
  }

  /** The capitalised word keeps its length and every character after the
      first. */
  lemma CapitalizeWordChars(w: string)
    ensures |CapitalizeWord(w)| == |w|
    ensures forall j :: 0 <= j < |w| ==> CapitalizeWord(w)[j] == if j == 0 then ToUpperChar(w[0]) else w[j]
  {
  }

  /** Word-level meaning: the output has as many words as the input, each of
      the same length (so empty words from consecutive spaces stay empty); in
      every word the first character is not a lower-case letter and no later
      character is an upper-case letter. */
  lemma CapitalizedFirstWords(text: string)
    ensures |Split(CapitalizedFirst(text))| == |Split(text)|
    ensures forall k :: 0 <= k < |Split(text)| ==> |Split(CapitalizedFirst(text))[k]| == |Split(text)[k]|
    ensures forall k :: 0 <= k < |Split(text)| && Split(CapitalizedFirst(text))[k] != [] ==>
      !IsLowerLetter(Split(CapitalizedFirst(text))[k][0])
    ensures forall k, j :: 0 <= k < |Split(text)| && 1 <= j < |Split(CapitalizedFirst(text))[k]| ==>
      !IsUpperLetter(Split(CapitalizedFirst(text))[k][j])
  {
    var out := CapitalizedFirst(text);
    CapitalizedFirstChars(text);
    SplitShape(text, out);
    var low := ToLower(text);
    var lowWords := Split(low);
    SplitWords(low);
    var capWords := CapitalizeWords(lowWords);
    assert forall k :: 0 <= k < |capWords| ==> SpaceFree(capWords[k]) by {
      forall k | 0 <= k < |capWords| ensures SpaceFree(capWords[k]) {
        assert SpaceFree(lowWords[k]);
        CapitalizeWordChars(lowWords[k]);
      }
    }
    SplitJoin(capWords);
    assert Split(out) == capWords;
    forall k, j | 0 <= k < |Split(text)| && 1 <= j < |Split(out)[k]|
      ensures !IsUpperLetter(Split(out)[k][j])
    {
      CapitalizeWordChars(lowWords[k]);
      assert Split(out)[k][j] == lowWords[k][j];
      ToLowerHasNoUpper(text, lowWords[k][j]);
    }
  }
}
