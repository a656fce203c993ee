/** The Python `str` operations the core relies on: `t in s`, `sep.join(parts)`,
    `s.split(sep)`, `s.split()` and `s.strip()`.  Whitespace is the ASCII part of
    Python's `str.isspace()`. */
module Text {

  /** Tab, line feed, vertical tab, form feed, carriage return, the four
      information separators U+001C..U+001F, and space. */
  predicate IsSpace(c: char) {
    || c == ' ' || c == '\t' || c == '\n' || c == '\r'
    || c == '\U{000B}' || c == '\U{000C}'
    || c == '\U{001C}' || c == '\U{001D}' || c == '\U{001E}' || c == '\U{001F}'
  }

  predicate AllSpace(s: string) {
    forall i :: 0 <= i < |s| ==> IsSpace(s[i])
  }

  predicate NoSpace(s: string) {
    forall i :: 0 <= i < |s| ==> !IsSpace(s[i])
  }

  // ---------------------------------------------------------------- t in s

  /** `t` occurs in `s` starting at index `i`. */
  predicate OccursAt(s: string, t: string, i: int) {
    0 <= i && i + |t| <= |s| && s[i..i + |t|] == t
  }

  /** Python's `t in s`. */
  predicate Contains(s: string, t: string) {
    exists i :: 0 <= i <= |s| - |t| && OccursAt(s, t, i)
  }

  lemma OccursInSlice(s: string, t: string, a: int, b: int, i: int)
    requires 0 <= a <= b <= |s| && 0 <= i && a + i + |t| <= b
    ensures OccursAt(s[a..b], t, i) <==> OccursAt(s, t, a + i)
  {
    var x, y := s[a..b][i..i + |t|], s[a + i..a + i + |t|];
    assert |x| == |y| == |t|;
    assert forall m :: 0 <= m < |t| ==> x[m] == y[m];
    assert x == y;
  }

  /** A slice of a text that does not contain `t` does not contain it either. */
  lemma SliceKeepsAbsence(s: string, t: string, a: int, b: int)
    requires 0 <= a <= b <= |s| && !Contains(s, t)
    ensures !Contains(s[a..b], t)
  {
    forall i | 0 <= i <= b - a - |t|
      ensures !OccursAt(s[a..b], t, i)
    {
      OccursInSlice(s, t, a, b, i);
      assert !OccursAt(s, t, a + i);
    }
  }

  /** `parts` occur in `text` one after another, without overlapping, in the given order. */
  ghost predicate InOrder(text: string, parts: seq<string>)
    decreases |parts|
  {
    || |parts| == 0
    || exists i :: 0 <= i <= |text| - |parts[0]| && OccursAt(text, parts[0], i)
                   && InOrder(text[i + |parts[0]|..], parts[1..])
  }

  lemma InOrderCons(pre: string, part: string, post: string, parts: seq<string>)
    requires InOrder(post, parts)
    ensures InOrder(pre + part + post, [part] + parts)
  {
    var text := pre + part + post;
    var all := [part] + parts;
    var i := |pre|;
    assert text[i..i + |part|] == part;
    assert text[i + |part|..] == post;
    assert all[0] == part && all[1..] == parts;
    assert OccursAt(text, all[0], i) && InOrder(text[i + |all[0]|..], all[1..]);
  }

  // ---------------------------------------------------------------- join and split

  /** Python's `sep.join(parts)`. */
  function Join(sep: string, parts: seq<string>): string
    decreases |parts|
  {
    if |parts| == 0 then ""
    else if |parts| == 1 then parts[0]
    else parts[0] + sep + Join(sep, parts[1..])
  }

  /** Python's `s.split(sep)` for a non-empty separator: a left-to-right scan that
      cuts at each occurrence of `sep` and resumes right after it. */
  function Split(s: string, sep: string): (pieces: seq<string>)
    requires |sep| > 0
    ensures |pieces| >= 1
    decreases |s|
  {
    if |s| < |sep| then [s]
    else if s[..|sep|] == sep then [""] + Split(s[|sep|..], sep)
    else
      var rest := Split(s[1..], sep);
      [[s[0]] + rest[0]] + rest[1..]
  }

  /** Python's `xs[-1]`. */
  function Last<T>(xs: seq<T>): T
    requires |xs| > 0
  {
    xs[|xs| - 1]
  }

  lemma JoinPrepend(c: char, sep: string, parts: seq<string>)
    requires |parts| >= 1
    ensures Join(sep, [[c] + parts[0]] + parts[1..]) == [c] + Join(sep, parts)
  {
    var q := [[c] + parts[0]] + parts[1..];
    assert q[1..] == parts[1..];
  }

  lemma {:induction false} JoinAppend(sep: string, parts: seq<string>, p: string)
    requires |parts| >= 1
    ensures Join(sep, parts + [p]) == Join(sep, parts) + sep + p
    decreases |parts|
  {
    if |parts| == 1 {
      assert (parts + [p])[1..] == [p];
    } else {
      assert (parts + [p])[1..] == parts[1..] + [p];
      JoinAppend(sep, parts[1..], p);
    }
  }

  /** Joining the pieces of a split with the same separator gives the text back. */
  lemma {:induction false} JoinSplit(s: string, sep: string)
    requires |sep| > 0
    ensures Join(sep, Split(s, sep)) == s
    decreases |s|
  {
    if |s| < |sep| {
    } else if s[..|sep|] == sep {
      var rest := Split(s[|sep|..], sep);
      JoinSplit(s[|sep|..], sep);
      assert ([""] + rest)[1..] == rest;
      assert Join(sep, [""] + rest) == "" + sep + Join(sep, rest);
      assert s == sep + s[|sep|..];
    } else {
      var rest := Split(s[1..], sep);
      JoinSplit(s[1..], sep);
      JoinPrepend(s[0], sep, rest);
      assert s == [s[0]] + s[1..];
    }
  }

  /** No piece of a split contains the separator, and the first piece is a prefix of the text. */
  lemma {:induction false} SplitPiecesFree(s: string, sep: string)
    requires |sep| > 0
    ensures var pieces := Split(s, sep);
      && |pieces[0]| <= |s| && pieces[0] == s[..|pieces[0]|]
      && forall k :: 0 <= k < |pieces| ==> !Contains(pieces[k], sep)
    decreases |s|
  {
    var pieces := Split(s, sep);
    if |s| < |sep| {
    } else if s[..|sep|] == sep {
      var rest := Split(s[|sep|..], sep);
      SplitPiecesFree(s[|sep|..], sep);
      forall k | 0 <= k < |pieces|
        ensures !Contains(pieces[k], sep)
      {
        if k > 0 {
          assert pieces[k] == rest[k - 1];
        }
      }
    } else {
      var rest := Split(s[1..], sep);
      SplitPiecesFree(s[1..], sep);
      var p0 := [s[0]] + rest[0];
      assert p0 == s[..|p0|];
      forall i | 0 <= i <= |p0| - |sep|
        ensures !OccursAt(p0, sep, i)
      {
        if i == 0 {
          assert p0[..|sep|] == s[..|sep|];
        } else {
          assert p0[i..i + |sep|] == rest[0][i - 1..i - 1 + |sep|];
          assert !OccursAt(rest[0], sep, i - 1);
        }
      }
      forall k | 0 <= k < |pieces|
        ensures !Contains(pieces[k], sep)
      {
        if k > 0 {
          assert pieces[k] == rest[k];
        }
      }
    }
  }

  /** The last piece of `s.split(sep)` is a suffix of `s` free of `sep`; it is all of `s`
      exactly when `sep` does not occur, and otherwise an occurrence of `sep` precedes it. */
  lemma LastPieceOfSplit(s: string, sep: string)
    requires |sep| > 0
    ensures var pieces := Split(s, sep); var r := Last(pieces);
      && |r| <= |s| && r == s[|s| - |r|..]
      && !Contains(r, sep)
      && (|pieces| == 1 <==> !Contains(s, sep))
      && (|pieces| == 1 ==> r == s)
      && (|pieces| > 1 ==> OccursAt(s, sep, |s| - |r| - |sep|))
  {
    var pieces := Split(s, sep);
    var r := Last(pieces);
    JoinSplit(s, sep);
    SplitPiecesFree(s, sep);
    if |pieces| > 1 {
      var init := pieces[..|pieces| - 1];
      assert pieces == init + [r];
      JoinAppend(sep, init, r);
      var j := |s| - |r| - |sep|;
      assert s[j..j + |sep|] == sep;
      assert OccursAt(s, sep, j);
    }
  }

  /** No proper prefix of `t` is also a suffix of it, so two occurrences of `t` never overlap. */
  predicate Unbordered(t: string) {
    forall k :: 0 < k < |t| ==> t[k..] != t[..|t| - k]
  }

  lemma OverlapIsBorder(s: string, sep: string, j: int, k: int)
    requires OccursAt(s, sep, j) && OccursAt(s, sep, k) && j < k < j + |sep|
    ensures sep[k - j..] == sep[..|sep| - (k - j)]
  {
    var d := k - j;
    assert sep[d..] == s[j..j + |sep|][d..] == s[k..j + |sep|];
    assert sep[..|sep| - d] == s[k..k + |sep|][..|sep| - d] == s[k..j + |sep|];
  }

  /** For a separator whose occurrences cannot overlap, the last piece of a split is
      exactly the text after the last occurrence of the separator. */
  lemma AfterLastOccurrence(s: string, sep: string, k: int)
    requires |sep| > 0 && Unbordered(sep)
    requires OccursAt(s, sep, k)
    requires forall i :: k < i ==> !OccursAt(s, sep, i)
    ensures Last(Split(s, sep)) == s[k + |sep|..]
  {
    var r := Last(Split(s, sep));
    LastPieceOfSplit(s, sep);
    assert Contains(s, sep);
    var j := |s| - |r| - |sep|;
    SameOccurrence(s, sep, j, k, r);
  }

  /** An occurrence followed by a text free of the separator is the last occurrence. */
  lemma SameOccurrence(s: string, sep: string, j: int, k: int, r: string)
    requires |sep| > 0 && Unbordered(sep)
    requires OccursAt(s, sep, j) && OccursAt(s, sep, k)
    requires r == s[j + |sep|..] && !Contains(r, sep)
    requires forall i :: k < i ==> !OccursAt(s, sep, i)
    ensures j == k
  {
    assert j <= k;
    if k >= j + |sep| {
      OccursInSlice(s, sep, j + |sep|, |s|, k - j - |sep|);
      assert OccursAt(r, sep, k - j - |sep|);
      assert false;
    } else if j < k {
      OverlapIsBorder(s, sep, j, k);
      assert false;
    }
  }


  // ---------------------------------------------------------------- strip

  /** Python's `s.lstrip()`. */
  function TrimStart(s: string): string
    decreases |s|
  {
    if |s| > 0 && IsSpace(s[0]) then TrimStart(s[1..]) else s
  }

  /** Python's `s.rstrip()`. */
  function TrimEnd(s: string): string
    decreases |s|
  {
    if |s| > 0 && IsSpace(s[|s| - 1]) then TrimEnd(s[..|s| - 1]) else s
  }

  /** Python's `s.strip()`. */
  function Strip(s: string): string {
    TrimEnd(TrimStart(s))
  }

  /** `lstrip` keeps a suffix, cuts only whitespace, and leaves no leading whitespace. */
  lemma {:induction false} TrimStartFacts(s: string)
    ensures var r := TrimStart(s);
      && |r| <= |s| && r == s[|s| - |r|..]
      && (forall i :: 0 <= i < |s| - |r| ==> IsSpace(s[i]))
      && (|r| > 0 ==> !IsSpace(r[0]))
    decreases |s|
  {
    if |s| > 0 && IsSpace(s[0]) {
      TrimStartFacts(s[1..]);
      assert forall i :: 1 <= i < |s| ==> s[i] == s[1..][i - 1];
    }
  }

  /** `rstrip` keeps a prefix, cuts only whitespace, and leaves no trailing whitespace. */
  lemma {:induction false} TrimEndFacts(s: string)
    ensures var r := TrimEnd(s);
      && |r| <= |s| && r == s[..|r|]
      && (forall i :: |r| <= i < |s| ==> IsSpace(s[i]))
      && (|r| > 0 ==> !IsSpace(r[|r| - 1]))
    decreases |s|
  {
    if |s| > 0 && IsSpace(s[|s| - 1]) {
      TrimEndFacts(s[..|s| - 1]);
      assert forall i :: 0 <= i < |s| - 1 ==> s[i] == s[..|s| - 1][i];
    }
  }

  /** `strip` keeps the slice of `s` left once the whitespace at both ends is cut away:
      what is cut is all whitespace, and what is kept neither starts nor ends with
      whitespace. */
  lemma StripFacts(s: string)
    ensures var r := Strip(s); var a := |s| - |TrimStart(s)|;
      && 0 <= a && a + |r| <= |s| && r == s[a..a + |r|]
      && (forall i :: 0 <= i < a ==> IsSpace(s[i]))
      && (forall i :: a + |r| <= i < |s| ==> IsSpace(s[i]))
      && (|r| > 0 ==> !IsSpace(r[0]) && !IsSpace(r[|r| - 1]))
  {
    TrimStartFacts(s);
    TrimEndFacts(TrimStart(s));
    TrimBoth(s, TrimStart(s), TrimEnd(TrimStart(s)));
  }

  /** Cutting whitespace off the start of `s`, giving `t`, and then off the end of `t`,
      giving `r`, leaves a slice of `s` with whitespace cut off both ends. */
  lemma TrimBoth(s: string, t: string, r: string)
    requires |t| <= |s| && t == s[|s| - |t|..]
    requires forall i :: 0 <= i < |s| - |t| ==> IsSpace(s[i])
    requires |t| > 0 ==> !IsSpace(t[0])
    requires |r| <= |t| && r == t[..|r|]
    requires forall i :: |r| <= i < |t| ==> IsSpace(t[i])
    requires |r| > 0 ==> !IsSpace(r[|r| - 1])
    ensures var a := |s| - |t|;
      && a + |r| <= |s| && r == s[a..a + |r|]
      && (forall i :: 0 <= i < a ==> IsSpace(s[i]))
      && (forall i :: a + |r| <= i < |s| ==> IsSpace(s[i]))
      && (|r| > 0 ==> !IsSpace(r[0]) && !IsSpace(r[|r| - 1]))
  {
    var a := |s| - |t|;
    assert r == s[a..a + |r|];
    forall i | a + |r| <= i < |s|
      ensures IsSpace(s[i])
    {
      assert s[i] == t[i - a];
    }
    if |r| > 0 {
      assert r[0] == t[0];
    }
  }

  /** Stripping a word padded by one space on each side gives the word. */
  lemma StripPadded(w: string)
    requires IsWord(w)
    ensures Strip(" " + w + " ") == w
  {
    var s := " " + w + " ";
    assert s[1..] == w + " ";
    assert TrimStart(s) == TrimStart(w + " ");
    assert (w + " ")[0] == w[0];
    assert TrimStart(w + " ") == w + " ";
    assert (w + " ")[..|w|] == w;
    assert TrimEnd(w + " ") == TrimEnd(w);
  }

  /** Stripping keeps every occurrence of a text that neither starts nor ends with whitespace. */
  lemma StripKeepsOccurrence(s: string, t: string, i: int)
    requires |t| > 0 && !IsSpace(t[0]) && !IsSpace(t[|t| - 1])
    requires OccursAt(s, t, i)
    ensures Contains(Strip(s), t)
  {
    var r := Strip(s);
    var a := |s| - |TrimStart(s)|;
    var e := i + |t| - 1;
    StripFacts(s);
    assert a + |r| <= |s| && r == s[a..a + |r|];
    assert s[i] == s[i..i + |t|][0] == t[0];
    assert s[e] == s[i..i + |t|][|t| - 1] == t[|t| - 1];
    assert a <= i && e < a + |r|;
    OccursInSlice(s, t, a, a + |r|, i - a);
    assert OccursAt(r, t, i - a);
  }

  // ---------------------------------------------------------------- split()

  /** Length of the run of non-whitespace characters that starts `s`. */
  function WordEnd(s: string): (n: nat)
    ensures n <= |s| && NoSpace(s[..n]) && (n < |s| ==> IsSpace(s[n]))
    decreases |s|
  {
    if |s| == 0 || IsSpace(s[0]) then 0 else 1 + WordEnd(s[1..])
  }

  predicate IsWord(w: string) {
    |w| > 0 && NoSpace(w)
  }

  predicate AllWords(ws: seq<string>) {
    forall k :: 0 <= k < |ws| ==> IsWord(ws[k])
  }

  /** Python's `s.split()` with no argument: the maximal runs of non-whitespace
      characters of `s`, in order; nothing for an all-whitespace text. */
  function Words(s: string): (ws: seq<string>)
    ensures AllWords(ws)
    decreases |s|
  {
    if |s| == 0 then []
    else if IsSpace(s[0]) then Words(s[1..])
    else
      var n := WordEnd(s);
      [s[..n]] + Words(s[n..])
  }

  lemma {:induction false} WordEndOfWord(w: string, rest: string)
    requires NoSpace(w) && (|rest| == 0 || IsSpace(rest[0]))
    ensures WordEnd(w + rest) == |w|
    decreases |w|
  {
    if |w| == 0 {
      assert w + rest == rest;
    } else {
      assert (w + rest)[1..] == w[1..] + rest;
      assert NoSpace(w[1..]) by {
        forall j | 0 <= j < |w| - 1
          ensures !IsSpace(w[1..][j])
        {
          assert w[1..][j] == w[j + 1];
        }
      }
      WordEndOfWord(w[1..], rest);
    }
  }

  /** A word followed by whitespace or by nothing is the first word of the text. */
  lemma WordsCons(w: string, rest: string)
    requires IsWord(w) && (|rest| == 0 || IsSpace(rest[0]))
    ensures Words(w + rest) == [w] + Words(rest)
  {
    WordEndOfWord(w, rest);
    assert (w + rest)[0] == w[0];
    assert (w + rest)[..|w|] == w;
    assert (w + rest)[|w|..] == rest;
  }

  /** Leading whitespace is skipped. */
  lemma WordsSkip(c: char, rest: string)
    requires IsSpace(c)
    ensures Words([c] + rest) == Words(rest)
  {
    assert ([c] + rest)[1..] == rest;
  }

  /** Splitting a text made of words joined by single spaces gives those words back. */
  lemma {:induction false} WordsOfJoin(ws: seq<string>)
    requires AllWords(ws)
    ensures Words(Join(" ", ws)) == ws
    decreases |ws|
  {
    if |ws| == 1 {
      var w := ws[0];
      WordEndOfWord(w, "");
      assert w + "" == w;
      assert w[..|w|] == w;
    } else if |ws| > 1 {
      var w := ws[0];
      var tail := Join(" ", ws[1..]);
      var s := w + " " + tail;
      assert s == w + (" " + tail);
      WordEndOfWord(w, " " + tail);
      assert s[..|w|] == w;
      assert s[|w|..] == " " + tail;
      assert (" " + tail)[1..] == tail;
      WordsOfJoin(ws[1..]);
      assert ws == [w] + ws[1..];
    }
  }

  /** `s.split()` is empty exactly when `s` is all whitespace. */
  lemma {:induction false} WordsEmptyIff(s: string)
    ensures Words(s) == [] <==> AllSpace(s)
    decreases |s|
  {
    if |s| > 0 && IsSpace(s[0]) {
      WordsEmptyIff(s[1..]);
      assert forall j :: 0 < j < |s| ==> s[j] == s[1..][j - 1];
    }
  }

  /** Text whose only whitespace is single spaces, none of them at either end. */
  predicate SingleSpaced(c: string) {
    && (forall i :: 0 <= i < |c| && IsSpace(c[i]) ==> c[i] == ' ')
    && (forall i :: 0 < i < |c| && c[i] == ' ' ==> c[i - 1] != ' ')
    && (|c| > 0 ==> c[0] != ' ' && c[|c| - 1] != ' ')
  }

  /** Words joined by single spaces are single-spaced, and empty only when there are no words. */
  lemma {:induction false} JoinWordsSingleSpaced(ws: seq<string>)
    requires AllWords(ws)
    ensures SingleSpaced(Join(" ", ws))
    ensures |Join(" ", ws)| == 0 <==> |ws| == 0
    decreases |ws|
  {
    if |ws| > 1 {
      var w := ws[0];
      var tail := Join(" ", ws[1..]);
      JoinWordsSingleSpaced(ws[1..]);
      var c := w + " " + tail;
      assert |tail| > 0;
      forall i | 0 <= i < |w|
        ensures c[i] == w[i] && !IsSpace(c[i])
      {
      }
      assert c[|w|] == ' ';
      forall i | |w| < i < |c|
        ensures c[i] == tail[i - |w| - 1]
      {
      }
    }
  }
}
