/** Python's whitespace handling on `str`: `str.isspace` on one code point,
    `str.strip()` and `str.split()` called without arguments, and `" ".join`,
    used here only to state what `split` keeps of its input. */
module PyText {

  /** The code points CPython treats as whitespace in a `str`: the ASCII
      controls TAB, LF, VT, FF, CR, the separators 0x1C-0x1F, SPACE, and the
      Unicode space characters NEL, NBSP, OGHAM SPACE MARK, EN QUAD .. HAIR
      SPACE, LINE and PARAGRAPH SEPARATOR, NARROW NBSP, MEDIUM MATHEMATICAL
      SPACE and IDEOGRAPHIC SPACE. */
  predicate IsSpace(c: char) {
    || ('\t' <= c <= '\r')
    || ('\U{1C}' <= c <= '\U{1F}')
    || c == ' '
    || c == '\U{85}'
    || c == '\U{A0}'
    || c == '\U{1680}'
    || ('\U{2000}' <= c <= '\U{200A}')
    || c == '\U{2028}'
    || c == '\U{2029}'
    || c == '\U{202F}'
    || c == '\U{205F}'
    || c == '\U{3000}'
  }

  predicate NoSpace(s: string) {
    forall i :: 0 <= i < |s| ==> !IsSpace(s[i])
  }

  predicate AllSpace(s: string) {
    forall i :: 0 <= i < |s| ==> IsSpace(s[i])
  }

  /** What `str.split()` may return as one element. */
  predicate IsToken(t: string) {
    t != [] && NoSpace(t)
  }

  /** Length of the longest whitespace-free prefix of `s`. */
  function WordLength(s: string): (n: nat)
    ensures n <= |s|
    ensures NoSpace(s[..n])
    ensures n < |s| ==> IsSpace(s[n])
  {
    if s == [] || IsSpace(s[0]) then 0 else 1 + WordLength(s[1..])
  }

  /** Length of the longest all-whitespace prefix of `s`. */
  function SpaceLength(s: string): (n: nat)
    ensures n <= |s|
    ensures AllSpace(s[..n])
    ensures n < |s| ==> !IsSpace(s[n])
  {
    if s == [] || !IsSpace(s[0]) then 0 else 1 + SpaceLength(s[1..])
  }

  /** Length of the longest all-whitespace suffix of `s`. */
  function TrailingSpaceLength(s: string): (n: nat)
    ensures n <= |s|
    ensures AllSpace(s[|s| - n..])
    ensures n < |s| ==> !IsSpace(s[|s| - n - 1])
  {
    if s == [] || !IsSpace(s[|s| - 1]) then 0 else 1 + TrailingSpaceLength(s[..|s| - 1])
  }

  /** `s.strip()`: `s` without its leading and trailing whitespace. The
      result is empty exactly when `s` holds nothing but whitespace, and
      otherwise starts and ends with a non-whitespace character. */
  function Strip(s: string): (r: string)
    ensures r == [] <==> AllSpace(s)
    ensures r != [] ==> !IsSpace(r[0]) && !IsSpace(r[|r| - 1])
  {
    var rest := s[SpaceLength(s)..];
    StripKeepsNonSpace(s);
    rest[..|rest| - TrailingSpaceLength(rest)]
  }

  lemma StripKeepsNonSpace(s: string)
    ensures AllSpace(s) <==> AllSpace(s[SpaceLength(s)..])
    ensures AllSpace(s[SpaceLength(s)..]) <==> s[SpaceLength(s)..] == []
  {
    var a := SpaceLength(s);
    assert s == s[..a] + s[a..];
    if !AllSpace(s) {
      var i :| 0 <= i < |s| && !IsSpace(s[i]);
      assert i >= a && s[a..][i - a] == s[i];
    }
  }

  /** What `s.strip()` cuts off on either side is whitespace only, and the
      result is the part of `s` between. */
  lemma StripRemovesPadding(s: string)
    ensures var a, r := SpaceLength(s), Strip(s);
      && a + |r| <= |s|
      && s == s[..a] + r + s[a + |r|..]
      && AllSpace(s[..a]) && AllSpace(s[a + |r|..])
  {
    var a := SpaceLength(s);
    var rest := s[a..];
    var n := TrailingSpaceLength(rest);
    StripPieces(s, a, rest, Strip(s), n);
  }

  lemma StripPieces(s: string, a: nat, rest: string, r: string, n: nat)
    requires a <= |s| && rest == s[a..] && n <= |rest| && r == rest[..|rest| - n]
    requires AllSpace(rest[|rest| - n..])
    ensures a + |r| <= |s|
    ensures s == s[..a] + r + s[a + |r|..]
    ensures AllSpace(s[a + |r|..])
  {
    var b := |rest| - n;
    assert s[a + b..] == rest[b..];
    assert s == s[..a] + r + s[a + b..] by {
      assert rest == r + rest[b..];
      assert s == s[..a] + rest;
    }
  }

  /** `s.split()`: the maximal runs of non-whitespace characters of `s`, in
      order. Runs of whitespace separate tokens; whitespace at either end
      yields no empty token. */
  function Split(s: string): (tokens: seq<string>)
    ensures forall k :: 0 <= k < |tokens| ==> IsToken(tokens[k])
    decreases |s|
  {
    if s == [] then []
    else if IsSpace(s[0]) then Split(s[1..])
    else
      var n := WordLength(s);
      [s[..n]] + Split(s[n..])
  }

  /** `sep.join(tokens)`. */
  function Join(tokens: seq<string>, sep: string): string
    decreases |tokens|
  {
    if |tokens| == 0 then []
    else if |tokens| == 1 then tokens[0]
    else tokens[0] + sep + Join(tokens[1..], sep)
  }

  /** `s` with every maximal run of whitespace replaced by one ' '. */
  function CollapseSpaces(s: string): string
    decreases |s|
  {
    if s == [] then []
    else if !IsSpace(s[0]) then [s[0]] + CollapseSpaces(s[1..])
    else if |s| > 1 && IsSpace(s[1]) then CollapseSpaces(s[1..])
    else [' '] + CollapseSpaces(s[1..])
  }

  /** Leading whitespace never changes the tokens. */
  lemma {:induction false} SplitSkipsSpaces(w: string, r: string)
    requires AllSpace(w)
    ensures Split(w + r) == Split(r)
    decreases |w|
  {
    if w == [] {
      assert w + r == r;
    } else {
      assert (w + r)[0] == w[0];
      assert (w + r)[1..] == w[1..] + r;
      SplitSkipsSpaces(w[1..], r);
    }
  }

  lemma {:induction false} WordLengthOfConcat(t: string, r: string)
    requires r == [] || IsSpace(r[0])
    ensures WordLength(t + r) == WordLength(t)
    decreases |t|
  {
    if t == [] {
      assert t + r == r;
    } else {
      assert (t + r)[0] == t[0];
      if !IsSpace(t[0]) {
        assert (t + r)[1..] == t[1..] + r;
        WordLengthOfConcat(t[1..], r);
      }
    }
  }

  /** A token followed by nothing or by whitespace is split off whole. */
  lemma SplitWord(w: string, r: string)
    requires IsToken(w)
    requires r == [] || IsSpace(r[0])
    ensures Split(w + r) == [w] + Split(r)
  {
    WordLengthOfConcat(w, r);
    assert (w + r)[0] == w[0];
    assert (w + r)[..|w|] == w;
    assert (w + r)[|w|..] == r;
  }

  /** Trailing whitespace never changes the tokens. */
  lemma {:induction false} SplitDropsTrailingSpaces(t: string, w: string)
    requires AllSpace(w)
    ensures Split(t + w) == Split(t)
    decreases |t|
  {
    if t == [] {
      assert t + w == w + [];
      SplitSkipsSpaces(w, []);
    } else if IsSpace(t[0]) {
      assert (t + w)[0] == t[0];
      assert (t + w)[1..] == t[1..] + w;
      SplitDropsTrailingSpaces(t[1..], w);
    } else {
      var n := WordLength(t);
      WordLengthOfConcat(t, w);
      assert (t + w)[0] == t[0];
      assert (t + w)[..n] == t[..n];
      assert (t + w)[n..] == t[n..] + w;
      SplitDropsTrailingSpaces(t[n..], w);
    }
  }

  /** `s.split()` and `s.strip().split()` agree. */
  lemma SplitIgnoresPadding(s: string)
    ensures Split(Strip(s)) == Split(s)
  {
    var a := SpaceLength(s);
    var r := Strip(s);
    StripRemovesPadding(s);
    assert s == s[..a] + (r + s[a + |r|..]);
    SplitSkipsSpaces(s[..a], r + s[a + |r|..]);
    SplitDropsTrailingSpaces(r, s[a + |r|..]);
  }

  /** `s.split()` is empty exactly when `s` is empty or all whitespace, that
      is, exactly when `s.strip()` is empty. */
  lemma {:induction false} SplitEmptyIffBlank(s: string)
    ensures Split(s) == [] <==> AllSpace(s)
    ensures Split(s) == [] <==> Strip(s) == []
    decreases |s|
  {
    if s != [] {
      if IsSpace(s[0]) {
        SplitEmptyIffBlank(s[1..]);
        assert AllSpace(s) <==> AllSpace(s[1..]) by {
          if AllSpace(s[1..]) {
            forall i | 0 <= i < |s| ensures IsSpace(s[i]) {
              if i > 0 { assert s[i] == s[1..][i - 1]; }
            }
          }
        }
      }
    }
  }

  /** Joining the tokens of a well-formed token list with single spaces and
      splitting again gives the same list back. */
  lemma {:induction false} SplitJoinRoundTrip(tokens: seq<string>)
    requires forall k :: 0 <= k < |tokens| ==> IsToken(tokens[k])
    ensures Split(Join(tokens, " ")) == tokens
    decreases |tokens|
  {
    if |tokens| == 1 {
      assert tokens[0] + [] == tokens[0];
      SplitWord(tokens[0], []);
    } else if |tokens| > 1 {
      var rest := Join(tokens[1..], " ");
      assert Join(tokens, " ") == tokens[0] + (" " + rest);
      SplitWord(tokens[0], " " + rest);
      SplitSkipsSpaces(" ", rest);
      SplitJoinRoundTrip(tokens[1..]);
      assert [tokens[0]] + tokens[1..] == tokens;
    }
  }

  lemma {:induction false} CollapseWord(w: string, r: string)
    requires NoSpace(w)
    ensures CollapseSpaces(w + r) == w + CollapseSpaces(r)
    decreases |w|
  {
    if w == [] {
      assert w + r == r;
    } else {
      assert (w + r)[0] == w[0];
      assert (w + r)[1..] == w[1..] + r;
      CollapseWord(w[1..], r);
      assert w == [w[0]] + w[1..];
    }
  }

  lemma {:induction false} CollapseRun(w: string, r: string)
    requires w != [] && AllSpace(w)
    requires r == [] || !IsSpace(r[0])
    ensures CollapseSpaces(w + r) == " " + CollapseSpaces(r)
    decreases |w|
  {
    assert (w + r)[0] == w[0];
    assert (w + r)[1..] == w[1..] + r;
    if |w| == 1 {
      assert w[1..] + r == r;
    } else {
      assert (w + r)[1] == w[1];
      CollapseRun(w[1..], r);
    }
  }

  /** A whitespace run between two words splits and collapses away. */
  lemma SkipGap(rest: string)
    requires rest != [] && IsSpace(rest[0]) && !IsSpace(rest[|rest| - 1])
    ensures var m := SpaceLength(rest);
      && 0 < m < |rest|
      && !IsSpace(rest[m..][0]) && !IsSpace(rest[m..][|rest[m..]| - 1])
      && Split(rest) == Split(rest[m..])
      && CollapseSpaces(rest) == " " + CollapseSpaces(rest[m..])
  {
    var m := SpaceLength(rest);
    var run, t2 := rest[..m], rest[m..];
    assert rest == run + t2;
    SplitSkipsSpaces(run, t2);
    CollapseRun(run, t2);
  }

  lemma JoinCons(w: string, tail: seq<string>, sep: string)
    requires tail != []
    ensures Join([w] + tail, sep) == w + (sep + Join(tail, sep))
  {
    var all := [w] + tail;
    assert all[0] == w && all[1..] == tail;
    assert w + sep + Join(tail, sep) == w + (sep + Join(tail, sep));
  }

  /** On a string with no whitespace at its ends, joining its tokens with
      single spaces collapses each inner whitespace run to one space. */
  lemma {:induction false} JoinSplitTrimmed(t: string)
    requires t == [] || (!IsSpace(t[0]) && !IsSpace(t[|t| - 1]))
    ensures Join(Split(t), " ") == CollapseSpaces(t)
    decreases |t|
  {
    if t != [] {
      var n := WordLength(t);
      var w, rest := t[..n], t[n..];
      assert t == w + rest;
      SplitWord(w, rest);
      CollapseWord(w, rest);
      if rest == [] {
        assert Split(t) == [w];
      } else {
        assert rest[|rest| - 1] == t[|t| - 1];
        SkipGap(rest);
        var t2 := rest[SpaceLength(rest)..];
        JoinSplitTrimmed(t2);
        JoinCons(w, Split(t2), " ");
        assert Split(t) == [w] + Split(t2);
        assert CollapseSpaces(t) == w + (" " + CollapseSpaces(t2));
      }
    }
  }

  /** `" ".join(s.split())` is `s` with its ends stripped and every inner
      whitespace run collapsed to one space. */
  lemma JoinSplitCollapses(s: string)
    ensures Join(Split(s), " ") == CollapseSpaces(Strip(s))
  {
    SplitIgnoresPadding(s);
    JoinSplitTrimmed(Strip(s));
  }
}
