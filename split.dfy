/** Python's `str.split()` with no separator: the string is cut at runs of
    whitespace and leading and trailing whitespace is dropped, so every part
    is a non-empty run of non-whitespace characters. */
module PySplit {

  /** `str.isspace()` for one character: the characters Python treats as
      whitespace when splitting. */
  predicate IsSpace(c: char) {
    c == ' ' || '\t' <= c <= '\r' || '\U{1C}' <= c <= '\U{1F}'
    || c == '\U{85}' || c == '\U{A0}' || c == '\U{1680}'
    || '\U{2000}' <= c <= '\U{200A}' || c == '\U{2028}' || c == '\U{2029}'
    || c == '\U{202F}' || c == '\U{205F}' || c == '\U{3000}'
  }

  predicate AllSpace(s: string) {
    forall i :: 0 <= i < |s| ==> IsSpace(s[i])
  }

  /** A part `str.split()` can produce: non-empty, no whitespace. */
  predicate IsWord(w: string) {
    |w| > 0 && forall i :: 0 <= i < |w| ==> !IsSpace(w[i])
  }

  predicate AllWords(ws: seq<string>) {
    forall i :: 0 <= i < |ws| ==> IsWord(ws[i])
  }

  /** Length of the run of non-whitespace characters at the front of `s`. */
  function WordRun(s: string): (n: nat)
    ensures n <= |s|
    ensures forall i :: 0 <= i < n ==> !IsSpace(s[i])
    ensures n < |s| ==> IsSpace(s[n])
  {
    if s == [] || IsSpace(s[0]) then 0 else 1 + WordRun(s[1..])
  }

  /** `s.split()`. */
  function Split(s: string): seq<string>
    decreases |s|
  {
    if s == [] then []
    else if IsSpace(s[0]) then Split(s[1..])
    else var n := WordRun(s); [s[..n]] + Split(s[n..])
  }

  /** Every part is non-empty and free of whitespace. */
  lemma {:induction false} SplitParts(s: string)
    ensures AllWords(Split(s))
    decreases |s|
  {
    if s == [] {
    } else if IsSpace(s[0]) {
      SplitParts(s[1..]);
    } else {
      var n := WordRun(s);
      SplitParts(s[n..]);
      var words := Split(s);
      assert words == [s[..n]] + Split(s[n..]);
      forall i | 0 < i < |words| ensures IsWord(words[i]) {
        assert words[i] == Split(s[n..])[i - 1];
      }
    }
  }

  /** The whitespace runs that `Split` drops: the one before the first word,
      one between each two words, and the one after the last word. */
  function Gaps(s: string): (gaps: seq<string>)
    ensures |gaps| == |Split(s)| + 1
    decreases |s|
  {
    if s == [] then [""]
    else if IsSpace(s[0]) then var g := Gaps(s[1..]); [[s[0]] + g[0]] + g[1..]
    else [""] + Gaps(s[WordRun(s)..])
  }

  /** The string made of `words` with `gaps[i]` before `words[i]` and the last
      gap after the last word. */
  function Layout(gaps: seq<string>, words: seq<string>): string
    requires |gaps| == |words| + 1
    decreases |words|
  {
    if words == [] then gaps[0] else gaps[0] + words[0] + Layout(gaps[1..], words[1..])
  }

  /** Gaps that keep the words apart: all whitespace, and every gap between
      two words non-empty (the outer two may be empty). */
  predicate Separators(gaps: seq<string>) {
    |gaps| > 0
    && (forall i :: 0 <= i < |gaps| ==> AllSpace(gaps[i]))
    && (forall i :: 0 < i < |gaps| - 1 ==> gaps[i] != "")
  }

  lemma {:induction false} WordRunOfWord(w: string, rest: string)
    requires IsWord(w)
    requires rest == [] || IsSpace(rest[0])
    ensures WordRun(w + rest) == |w|
    decreases |w|
  {
    assert (w + rest)[0] == w[0];
    if |w| > 1 {
      assert (w + rest)[1..] == w[1..] + rest;
      WordRunOfWord(w[1..], rest);
    } else {
      assert (w + rest)[1..] == rest;
    }
  }

  /** Whitespace in front of a string adds no parts. */
  lemma {:induction false} SplitSkipsSpace(g: string, s: string)
    requires AllSpace(g)
    ensures Split(g + s) == Split(s)
    decreases |g|
  {
    if g != [] {
      assert (g + s)[0] == g[0];
      assert (g + s)[1..] == g[1..] + s;
      SplitSkipsSpace(g[1..], s);
    } else {
      assert g + s == s;
    }
  }

  /** A word followed by whitespace or by nothing is one part. */
  lemma SplitWord(w: string, rest: string)
    requires IsWord(w)
    requires rest == [] || IsSpace(rest[0])
    ensures Split(w + rest) == [w] + Split(rest)
  {
    WordRunOfWord(w, rest);
    assert (w + rest)[0] == w[0];
    assert (w + rest)[..|w|] == w;
    assert (w + rest)[|w|..] == rest;
  }

  /** Completeness of the model: words laid out with separating whitespace are
      split back into exactly those words. */
  lemma {:induction false} SplitOfLayout(gaps: seq<string>, words: seq<string>)
    requires |gaps| == |words| + 1
    requires Separators(gaps) && AllWords(words)
    ensures Split(Layout(gaps, words)) == words
    decreases |words|
  {
    if words == [] {
      SplitSkipsSpace(gaps[0], "");
      assert gaps[0] + "" == gaps[0];
    } else {
      var tail := Layout(gaps[1..], words[1..]);
      assert Separators(gaps[1..]) by {
        assert forall i :: 0 < i < |gaps[1..]| - 1 ==> gaps[1..][i] == gaps[i + 1];
      }
      assert AllWords(words[1..]) by {
        assert forall i :: 0 <= i < |words[1..]| ==> words[1..][i] == words[i + 1];
      }
      SplitOfLayout(gaps[1..], words[1..]);
      assert tail == [] || IsSpace(tail[0]) by {
        if words[1..] == [] {
          assert tail == gaps[1];
        } else {
          assert gaps[1] != "";
          assert tail == gaps[1] + words[1] + Layout(gaps[2..], words[2..]) by {
            assert gaps[1..][1..] == gaps[2..];
            assert words[1..][1..] == words[2..];
          }
          assert tail[0] == gaps[1][0];
        }
      }
      SplitWord(words[0], tail);
      assert Layout(gaps, words) == gaps[0] + (words[0] + tail);
      SplitSkipsSpace(gaps[0], words[0] + tail);
      assert [words[0]] + words[1..] == words;
    }
  }

  /** Soundness of the model, first half: the whitespace `Split` drops keeps
      the parts apart, and there is leading whitespace exactly when the
      string starts with whitespace. */
  lemma {:induction false} GapsSeparate(s: string)
    ensures Separators(Gaps(s))
    ensures Gaps(s)[0] == "" <==> (s == [] || !IsSpace(s[0]))
    decreases |s|
  {
    if s == [] {
    } else if IsSpace(s[0]) {
      var g := Gaps(s[1..]);
      GapsSeparate(s[1..]);
      var first := [s[0]] + g[0];
      assert Gaps(s) == [first] + g[1..];
      assert AllSpace(first) by {
        assert forall i :: 0 < i < |first| ==> first[i] == g[0][i - 1];
      }
      assert forall i :: 0 < i < |Gaps(s)| ==> Gaps(s)[i] == g[i];
    } else {
      var rest := s[WordRun(s)..];
      var g := Gaps(rest);
      GapsSeparate(rest);
      assert Gaps(s) == [""] + g;
      assert rest == [] || IsSpace(rest[0]);
      assert forall i :: 0 < i < |Gaps(s)| ==> Gaps(s)[i] == g[i - 1];
    }
  }

  /** Soundness of the model, second half: every string is its parts laid
      out with the whitespace `Split` dropped. */
  lemma {:induction false} LayoutOfSplit(s: string)
    ensures Layout(Gaps(s), Split(s)) == s
    decreases |s|
  {
    if s == [] {
    } else if IsSpace(s[0]) {
      LayoutOfSplit(s[1..]);
      LayoutOfSplitSpace(s);
    } else {
      LayoutOfSplit(s[WordRun(s)..]);
      LayoutOfSplitWord(s);
    }
  }

  lemma LayoutOfSplitSpace(s: string)
    requires s != [] && IsSpace(s[0])
    requires Layout(Gaps(s[1..]), Split(s[1..])) == s[1..]
    ensures Layout(Gaps(s), Split(s)) == s
  {
    var g := Gaps(s[1..]);
    assert Gaps(s) == [[s[0]] + g[0]] + g[1..];
    assert Split(s) == Split(s[1..]);
    LayoutGrowsGap(s[0], g, Split(s[1..]));
    assert s == [s[0]] + s[1..];
  }

  lemma LayoutOfSplitWord(s: string)
    requires s != [] && !IsSpace(s[0])
    requires Layout(Gaps(s[WordRun(s)..]), Split(s[WordRun(s)..])) == s[WordRun(s)..]
    ensures Layout(Gaps(s), Split(s)) == s
  {
    var n := WordRun(s);
    UnfoldAtWord(s);
    LayoutAfterWord(s, n, Gaps(s[n..]), Split(s[n..]));
  }

  /** A word `s[..n]` in front of a layout of `s[n..]` lays out `s`. */
  lemma LayoutAfterWord(s: string, n: nat, gaps: seq<string>, words: seq<string>)
    requires n <= |s| && |gaps| == |words| + 1 && Layout(gaps, words) == s[n..]
    ensures Layout([""] + gaps, [s[..n]] + words) == s
  {
    LayoutAddsWord(s[..n], gaps, words);
    assert s[..n] + s[n..] == s;
  }

  /** `Gaps` and `Split` of a string that starts with a word. */
  lemma UnfoldAtWord(s: string)
    requires s != [] && !IsSpace(s[0])
    ensures Gaps(s) == [""] + Gaps(s[WordRun(s)..])
    ensures Split(s) == [s[..WordRun(s)]] + Split(s[WordRun(s)..])
  {
  }

  /** A character in front of the first gap is a character in front of the layout. */
  lemma LayoutGrowsGap(c: char, gaps: seq<string>, words: seq<string>)
    requires |gaps| == |words| + 1
    ensures Layout([[c] + gaps[0]] + gaps[1..], words) == [c] + Layout(gaps, words)
  {
    if words != [] {
      assert ([[c] + gaps[0]] + gaps[1..])[1..] == gaps[1..];
    }
  }

  /** A word after an empty first gap is a word in front of the layout. */
  lemma LayoutAddsWord(w: string, gaps: seq<string>, words: seq<string>)
    requires |gaps| == |words| + 1
    ensures Layout([""] + gaps, [w] + words) == w + Layout(gaps, words)
  {
    assert ([""] + gaps)[1..] == gaps;
    assert ([w] + words)[1..] == words;
  }

  /** `Split` yields nothing exactly for an all-whitespace string. */
  lemma {:induction false} SplitEmptyIff(s: string)
    ensures Split(s) == [] <==> AllSpace(s)
  {
    GapsSeparate(s);
    LayoutOfSplit(s);
    if Split(s) == [] {
      assert s == Gaps(s)[0];
    }
    if AllSpace(s) {
      SplitSkipsSpace(s, "");
      assert s + "" == s;
    }
  }
}
