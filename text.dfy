/** Python's `str.split()` (no arguments) and `sep.join(parts)`, the two string
    operations the chunker, the page join and the token fallbacks rely on. */
module TextSplit {

  /** `c.isspace()` in Python 3: the characters `str.split()` splits on. */
  predicate IsSpace(c: char) {
    || ('\U{9}' <= c <= '\U{D}')
    || ('\U{1C}' <= c <= '\U{20}')
    || c == '\U{85}' || c == '\U{A0}' || c == '\U{1680}'
    || ('\U{2000}' <= c <= '\U{200A}')
    || c == '\U{2028}' || c == '\U{2029}' || c == '\U{202F}' || c == '\U{205F}'
    || c == '\U{3000}'
  }

  /** A word as `str.split()` produces it: non-empty, no whitespace inside. */
  predicate IsWord(w: string) {
    w != [] && forall i :: 0 <= i < |w| ==> !IsSpace(w[i])
  }

  /** Length of the run of non-whitespace characters that starts `s`. */
  function WordLen(s: string): (n: nat)
    ensures n <= |s|
    ensures forall i :: 0 <= i < n ==> !IsSpace(s[i])
    ensures n < |s| ==> IsSpace(s[n])
  {
    if s == [] || IsSpace(s[0]) then 0 else 1 + WordLen(s[1..])
  }

  /** `s.split()`: the maximal runs of non-whitespace characters, in order. */
  function Words(s: string): (ws: seq<string>)
    ensures forall i :: 0 <= i < |ws| ==> IsWord(ws[i])
    decreases |s|
  {
    if s == [] then []
    else if IsSpace(s[0]) then Words(s[1..])
    else
      var n := WordLen(s);
      [s[..n]] + Words(s[n..])
  }

  /** `sep.join(parts)`. */
  function Join(sep: string, parts: seq<string>): string
    decreases |parts|
  {
    if |parts| == 0 then ""
    else if |parts| == 1 then parts[0]
    else parts[0] + sep + Join(sep, parts[1..])
  }

  /** The words of every part, in order: what splitting each part separately gives. */
  function ConcatWords(parts: seq<string>): seq<string>
    decreases |parts|
  {
    if parts == [] then [] else Words(parts[0]) + ConcatWords(parts[1..])
  }

  /** A text has no words exactly when all of its characters are whitespace. */
  lemma {:induction false} WordsEmptyIffBlank(s: string)
    ensures Words(s) == [] <==> forall i :: 0 <= i < |s| ==> IsSpace(s[i])
    decreases |s|
  {
    if s != [] && IsSpace(s[0]) {
      WordsEmptyIffBlank(s[1..]);
      assert forall i :: 1 <= i < |s| ==> s[i] == s[1..][i - 1];
    }
  }

  /** Appending text after a word that has already ended does not lengthen it. */
  lemma {:induction false} WordLenAppend(a: string, t: string)
    requires WordLen(a) < |a| || (t != [] && IsSpace(t[0]))
    ensures WordLen(a + t) == WordLen(a)
    decreases |a|
  {
    if a == [] {
      assert a + t == t;
    } else if !IsSpace(a[0]) {
      assert (a + t)[1..] == a[1..] + t;
      WordLenAppend(a[1..], t);
    }
  }

  /** A whitespace character never joins the words on its two sides. */
  lemma {:induction false} WordsAroundSpace(a: string, c: char, b: string)
    requires IsSpace(c)
    ensures Words(a + [c] + b) == Words(a) + Words(b)
    decreases |a|
  {
    var s := a + [c] + b;
    if a == [] {
      assert s[1..] == b;
    } else if IsSpace(a[0]) {
      assert s[1..] == a[1..] + [c] + b;
      WordsAroundSpace(a[1..], c, b);
    } else {
      WordsAroundSpaceWord(a, c, b);
    }
  }

  /** The case of `WordsAroundSpace` where `a` starts with a word. */
  lemma {:induction false} WordsAroundSpaceWord(a: string, c: char, b: string)
    requires IsSpace(c) && a != [] && !IsSpace(a[0])
    ensures Words(a + [c] + b) == Words(a) + Words(b)
    decreases |a|, 0
  {
    var s := a + [c] + b;
    var n := WordLen(a);
    assert s == a + ([c] + b);
    WordLenAppend(a, [c] + b);
    assert s[0] == a[0];
    assert Words(s) == [s[..n]] + Words(s[n..]);
    assert Words(a) == [a[..n]] + Words(a[n..]);
    assert s[..n] == a[..n];
    assert s[n..] == a[n..] + [c] + b;
    WordsAroundSpace(a[n..], c, b);
  }

  lemma {:induction false} WordLenOfWord(w: string)
    requires forall i :: 0 <= i < |w| ==> !IsSpace(w[i])
    ensures WordLen(w) == |w|
    decreases |w|
  {
    if w != [] {
      assert forall i :: 0 <= i < |w| - 1 ==> w[1..][i] == w[i + 1];
      WordLenOfWord(w[1..]);
    }
  }

  /** Re-splitting a single word gives back that word. */
  lemma WordsOfWord(w: string)
    requires IsWord(w)
    ensures Words(w) == [w]
  {
    WordLenOfWord(w);
    assert w[..|w|] == w;
    assert w[|w|..] == [];
  }

  /** Joining with a whitespace separator keeps every part's words, in order, and
      adds none. */
  lemma {:induction false} WordsOfJoin(c: char, parts: seq<string>)
    requires IsSpace(c)
    ensures Words(Join([c], parts)) == ConcatWords(parts)
    decreases |parts|
  {
    if |parts| == 1 {
      assert ConcatWords(parts) == Words(parts[0]) + ConcatWords([]);
    } else if |parts| > 1 {
      WordsAroundSpace(parts[0], c, Join([c], parts[1..]));
      WordsOfJoin(c, parts[1..]);
    }
  }

  /** Splitting each of a list of words gives back the list. */
  lemma {:induction false} ConcatWordsOfWords(ws: seq<string>)
    requires forall i :: 0 <= i < |ws| ==> IsWord(ws[i])
    ensures ConcatWords(ws) == ws
    decreases |ws|
  {
    if ws != [] {
      WordsOfWord(ws[0]);
      ConcatWordsOfWords(ws[1..]);
    }
  }

  /** Round trip: `" ".join(ws).split() == ws` for any list of words. */
  lemma JoinSplitRoundTrip(ws: seq<string>)
    requires forall i :: 0 <= i < |ws| ==> IsWord(ws[i])
    ensures Words(Join(" ", ws)) == ws
  {
    assert IsSpace(' ');
    WordsOfJoin(' ', ws);
    ConcatWordsOfWords(ws);
  }

  /** A join of non-empty parts is empty exactly when there are no parts. */
  lemma JoinEmptyIffNoParts(sep: string, parts: seq<string>)
    requires forall i :: 0 <= i < |parts| ==> parts[i] != ""
    ensures Join(sep, parts) == "" <==> parts == []
  {
    if |parts| > 1 {
      assert |Join(sep, parts)| >= |parts[0]| > 0;
    }
  }
}
