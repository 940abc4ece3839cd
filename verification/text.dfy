/**
 * The two pieces of Python string handling the parsers rely on: `str.strip()`
 * and `str.split()` without arguments. Both use the same notion of whitespace,
 * the characters for which `str.isspace()` holds.
 */
module Text {

  /** The characters for which Python's `str.isspace()` holds. */
  const SpaceChars: set<char> := {'\U{9}', '\U{A}', '\U{B}', '\U{C}', '\U{D}', '\U{1C}', '\U{1D}', '\U{1E}', '\U{1F}', '\U{20}', '\U{85}', '\U{A0}', '\U{1680}', '\U{2000}', '\U{2001}', '\U{2002}', '\U{2003}', '\U{2004}', '\U{2005}', '\U{2006}', '\U{2007}', '\U{2008}', '\U{2009}', '\U{200A}', '\U{2028}', '\U{2029}', '\U{202F}', '\U{205F}', '\U{3000}'}

  /** Python's `str.isspace()` on a single character. */
  predicate IsSpace(c: char) {
    c in SpaceChars
  }

  predicate AllSpace(s: string) {
    forall i :: 0 <= i < |s| ==> IsSpace(s[i])
  }

  /** A token as `split()` produces it: non-empty and free of whitespace. */
  predicate IsWord(w: string) {
    |w| > 0 && forall i :: 0 <= i < |w| ==> !IsSpace(w[i])
  }

  /** How many whitespace characters `s` starts with. */
  function LeadingSpaces(s: string): (n: nat)
    ensures n <= |s|
  {
    if |s| > 0 && IsSpace(s[0]) then 1 + LeadingSpaces(s[1..]) else 0
  }

  /** How many whitespace characters `s` ends with. */
  function TrailingSpaces(s: string): (n: nat)
    ensures n <= |s|
  {
    if |s| > 0 && IsSpace(s[|s| - 1]) then 1 + TrailingSpaces(s[..|s| - 1]) else 0
  }

  /** `LeadingSpaces` counts exactly the maximal whitespace prefix. */
  lemma {:induction false} LeadingSpacesMaximal(s: string)
    ensures forall i :: 0 <= i < LeadingSpaces(s) ==> IsSpace(s[i])
    ensures LeadingSpaces(s) == |s| || !IsSpace(s[LeadingSpaces(s)])
    decreases |s|
  {
    if |s| > 0 && IsSpace(s[0]) {
      LeadingSpacesMaximal(s[1..]);
    }
  }

  /** `TrailingSpaces` counts exactly the maximal whitespace suffix. */
  lemma {:induction false} TrailingSpacesMaximal(s: string)
    ensures forall i :: |s| - TrailingSpaces(s) <= i < |s| ==> IsSpace(s[i])
    ensures TrailingSpaces(s) == |s| || !IsSpace(s[|s| - TrailingSpaces(s) - 1])
    decreases |s|
  {
    if |s| > 0 && IsSpace(s[|s| - 1]) {
      TrailingSpacesMaximal(s[..|s| - 1]);
    }
  }

  /** `strip()`: drops the leading and the trailing whitespace. */
  function Strip(s: string): (r: string)
    ensures |r| <= |s|
    ensures r == [] || (!IsSpace(r[0]) && !IsSpace(r[|r| - 1]))
    decreases |s|
  {
    if |s| > 0 && IsSpace(s[0]) then Strip(s[1..])
    else if |s| > 0 && IsSpace(s[|s| - 1]) then Strip(s[..|s| - 1])
    else s
  }

  /** How many characters `strip()` removes from the front of `s`. */
  function StripOffset(s: string): (k: nat)
    ensures k <= |s|
    decreases |s|
  {
    if |s| > 0 && IsSpace(s[0]) then 1 + StripOffset(s[1..])
    else if |s| > 0 && IsSpace(s[|s| - 1]) then StripOffset(s[..|s| - 1])
    else 0
  }

  /** `r` is `s[k..]` cut short, with only whitespace around it in `s`, and no whitespace at its ends. */
  ghost predicate TrimmedSlice(s: string, r: string, k: nat) {
    && k + |r| <= |s| && r == s[k..k + |r|]
    && AllSpace(s[..k]) && AllSpace(s[k + |r|..])
    && (r == [] || (!IsSpace(r[0]) && !IsSpace(r[|r| - 1])))
  }

  lemma TrimmedSliceFront(s: string, r: string, k: nat)
    requires |s| > 0 && IsSpace(s[0]) && TrimmedSlice(s[1..], r, k)
    ensures TrimmedSlice(s, r, k + 1)
  {
    var s' := s[1..];
    assert s'[k..k + |r|] == s[k + 1..k + 1 + |r|];
    assert s[..k + 1] == [s[0]] + s'[..k];
    assert s[k + 1 + |r|..] == s'[k + |r|..];
  }

  lemma TrimmedSliceBack(s: string, r: string, k: nat)
    requires |s| > 0 && IsSpace(s[|s| - 1]) && TrimmedSlice(s[..|s| - 1], r, k)
    ensures TrimmedSlice(s, r, k)
  {
    var s' := s[..|s| - 1];
    assert s'[k..k + |r|] == s[k..k + |r|];
    assert s[..k] == s'[..k];
    assert s[k + |r|..] == s'[k + |r|..] + [s[|s| - 1]];
  }

  /** `strip()` returns a slice of its input with only whitespace cut away on either side. */
  lemma {:induction false} StripIsTrimmedSlice(s: string)
    ensures TrimmedSlice(s, Strip(s), StripOffset(s))
    decreases |s|
  {
    if |s| > 0 && IsSpace(s[0]) {
      StripIsTrimmedSlice(s[1..]);
      TrimmedSliceFront(s, Strip(s[1..]), StripOffset(s[1..]));
    } else if |s| > 0 && IsSpace(s[|s| - 1]) {
      StripIsTrimmedSlice(s[..|s| - 1]);
      TrimmedSliceBack(s, Strip(s[..|s| - 1]), StripOffset(s[..|s| - 1]));
    } else {
      assert s[0..|s|] == s;
    }
  }

  /** `strip()` yields the empty string exactly on blank lines. */
  lemma {:induction false} StripEmptyIffBlank(s: string)
    ensures Strip(s) == [] <==> AllSpace(s)
  {
    StripIsTrimmedSlice(s);
    var k := StripOffset(s);
    if Strip(s) == [] {
      assert s == s[..k] + s[k..];
      forall i | 0 <= i < |s| ensures IsSpace(s[i]) {
        if i < k { assert s[i] == s[..k][i]; } else { assert s[i] == s[k..][i - k]; }
      }
    } else {
      assert !IsSpace(s[k]);
    }
  }

  /** The length of the longest whitespace-free prefix of `s`. */
  function WordLength(s: string): (n: nat)
    ensures n <= |s|
    ensures forall i :: 0 <= i < n ==> !IsSpace(s[i])
    ensures n == |s| || IsSpace(s[n])
  {
    if |s| == 0 || IsSpace(s[0]) then 0 else 1 + WordLength(s[1..])
  }

  /** `split()`: the maximal runs of non-whitespace characters, in order. */
  function Split(s: string): (ws: seq<string>)
    ensures forall k :: 0 <= k < |ws| ==> IsWord(ws[k])
    ensures ws == [] <==> AllSpace(s)
    decreases |s|
  {
    var i := LeadingSpaces(s);
    if i == |s| then
      LeadingSpacesAllSpace(s);
      []
    else
      var t := s[i..];
      var n := WordLength(t);
      FirstWordNonEmpty(s, i, t, n);
      [t[..n]] + Split(t[n..])
  }

  /** Leading whitespace through the end means the line is blank; otherwise it is not. */
  lemma LeadingSpacesAllSpace(s: string)
    ensures LeadingSpaces(s) == |s| <==> AllSpace(s)
  {
    LeadingSpacesMaximal(s);
  }

  /** After the leading whitespace of a line that is not blank comes a token of at least one character. */
  lemma FirstWordNonEmpty(a: string, i: nat, t: string, n: nat)
    requires i == LeadingSpaces(a) < |a| && t == a[i..] && n == WordLength(t)
    ensures n > 0 && !AllSpace(a)
  {
    LeadingSpacesMaximal(a);
    assert t[0] == a[i];
  }

  /** Joins words with single blanks, the way a writer lays out one record line. */
  function Unwords(ws: seq<string>): string {
    if |ws| == 0 then ""
    else if |ws| == 1 then ws[0]
    else ws[0] + " " + Unwords(ws[1..])
  }

  /** All characters of `s` that are not whitespace, in order. */
  function NonSpace(s: string): string {
    if |s| == 0 then []
    else (if IsSpace(s[0]) then [] else [s[0]]) + NonSpace(s[1..])
  }

  /** The words concatenated back to back. */
  function Concat(ws: seq<string>): string {
    if |ws| == 0 then [] else ws[0] + Concat(ws[1..])
  }

  lemma {:induction false} NonSpaceAppend(a: string, b: string)
    ensures NonSpace(a + b) == NonSpace(a) + NonSpace(b)
    decreases |a|
  {
    if |a| == 0 {
      assert a + b == b;
    } else {
      var head := if IsSpace(a[0]) then [] else [a[0]];
      assert (a + b)[0] == a[0];
      assert (a + b)[1..] == a[1..] + b;
      assert NonSpace(a + b) == head + NonSpace(a[1..] + b);
      NonSpaceAppend(a[1..], b);
      assert NonSpace(a) == head + NonSpace(a[1..]);
    }
  }

  lemma {:induction false} NonSpaceOfSpaces(s: string)
    requires AllSpace(s)
    ensures NonSpace(s) == []
    decreases |s|
  {
    if |s| > 0 {
      NonSpaceOfSpaces(s[1..]);
    }
  }

  lemma {:induction false} NonSpaceOfWordChars(s: string)
    requires forall i :: 0 <= i < |s| ==> !IsSpace(s[i])
    ensures NonSpace(s) == s
    decreases |s|
  {
    if |s| > 0 {
      NonSpaceOfWordChars(s[1..]);
      assert s == [s[0]] + s[1..];
    }
  }

  /** Whitespace in front contributes no characters. */
  lemma NonSpaceAfterSpaces(s: string, i: nat)
    requires i <= |s| && forall k :: 0 <= k < i ==> IsSpace(s[k])
    ensures NonSpace(s) == NonSpace(s[i..])
  {
    assert s == s[..i] + s[i..];
    NonSpaceAppend(s[..i], s[i..]);
    assert AllSpace(s[..i]) by {
      forall k | 0 <= k < i ensures IsSpace(s[..i][k]) { assert s[..i][k] == s[k]; }
    }
    NonSpaceOfSpaces(s[..i]);
  }

  /** A leading word contributes its own characters. */
  lemma NonSpaceAfterWord(t: string, n: nat)
    requires n <= |t| && forall k :: 0 <= k < n ==> !IsSpace(t[k])
    ensures NonSpace(t) == t[..n] + NonSpace(t[n..])
  {
    var w, r := t[..n], t[n..];
    assert t == w + r;
    NonSpaceAppend(w, r);
    assert forall k :: 0 <= k < |w| ==> w[k] == t[k];
    NonSpaceOfWordChars(w);
  }

  /** `split()` loses only whitespace: its words, glued together, are the non-blank characters of the line. */
  lemma {:induction false} SplitKeepsContent(s: string)
    ensures Concat(Split(s)) == NonSpace(s)
    decreases |s|
  {
    var i := LeadingSpaces(s);
    LeadingSpacesMaximal(s);
    NonSpaceAfterSpaces(s, i);
    if i < |s| {
      var t := s[i..];
      var n := WordLength(t);
      NonSpaceAfterWord(t, n);
      SplitStep(s, i, t, n);
      SplitKeepsContent(t[n..]);
    } else {
      assert s[i..] == [];
    }
  }

  lemma {:induction false} WordLengthOfJoined(w: string, rest: string)
    requires IsWord(w)
    requires rest == [] || IsSpace(rest[0])
    ensures WordLength(w + rest) == |w|
    decreases |w|
  {
    if |w| == 1 {
      assert (w + rest)[1..] == rest;
    } else {
      assert (w + rest)[1..] == w[1..] + rest;
      WordLengthOfJoined(w[1..], rest);
    }
  }

  lemma UnwordsEdges(ws: seq<string>)
    requires |ws| > 0 && forall k :: 0 <= k < |ws| ==> IsWord(ws[k])
    ensures |Unwords(ws)| >= |ws[0]| > 0
    ensures Unwords(ws)[..|ws[0]|] == ws[0]
    ensures !IsSpace(Unwords(ws)[0])
    ensures !IsSpace(Unwords(ws)[|Unwords(ws)| - 1])
    ensures |Unwords(ws)| == |ws[0]| || Unwords(ws)[|ws[0]|] == ' '
    decreases |ws|
  {
    assert IsWord(ws[0]);
    if |ws| > 1 {
      UnwordsEdges(ws[1..]);
      assert Unwords(ws) == ws[0] + " " + Unwords(ws[1..]);
    }
  }

  /** A word followed by whitespace (or nothing) is the first token. */
  lemma SplitWordThen(w: string, rest: string)
    requires IsWord(w)
    requires rest == [] || IsSpace(rest[0])
    ensures Split(w + rest) == [w] + Split(rest)
  {
    var s := w + rest;
    assert LeadingSpaces(s) == 0 by { assert s[0] == w[0]; }
    assert s[0..] == s;
    WordLengthOfJoined(w, rest);
    assert s[..|w|] == w;
    assert s[|w|..] == rest;
  }

  /** A leading blank changes nothing about the tokens. */
  lemma SplitBlankThen(rest: string)
    ensures Split(" " + rest) == Split(rest)
  {
    var s := " " + rest;
    assert s[1..] == rest;
    assert LeadingSpaces(s) == 1 + LeadingSpaces(rest);
    assert s[LeadingSpaces(s)..] == rest[LeadingSpaces(rest)..];
  }

  /** Any leading whitespace character changes nothing about the tokens. */
  lemma SplitSpaceThen(c: char, rest: string)
    requires IsSpace(c)
    ensures Split([c] + rest) == Split(rest)
  {
    var s := [c] + rest;
    assert s[1..] == rest;
    assert LeadingSpaces(s) == 1 + LeadingSpaces(rest);
    assert s[LeadingSpaces(s)..] == rest[LeadingSpaces(rest)..];
  }

  lemma AllSpaceTail(x: string)
    requires |x| > 0 && AllSpace(x)
    ensures IsSpace(x[0]) && AllSpace(x[1..])
  {
    forall i | 0 <= i < |x| - 1 ensures IsSpace(x[1..][i]) { assert x[1..][i] == x[i + 1]; }
  }

  /** A whitespace prefix changes nothing about the tokens. */
  lemma {:induction false} SplitSpacesThen(x: string, y: string)
    requires AllSpace(x)
    ensures Split(x + y) == Split(y)
    decreases |x|
  {
    if |x| > 0 {
      var z := x[1..] + y;
      assert x + y == [x[0]] + z;
      AllSpaceTail(x);
      SplitSpaceThen(x[0], z);
      SplitSpacesThen(x[1..], y);
    } else {
      assert x + y == y;
    }
  }

  /** Text after the first non-whitespace character does not move where the first token starts. */
  lemma {:induction false} LeadingSpacesAppend(x: string, y: string)
    requires LeadingSpaces(x) < |x|
    ensures LeadingSpaces(x + y) == LeadingSpaces(x)
    decreases |x|
  {
    assert (x + y)[0] == x[0];
    if IsSpace(x[0]) {
      assert (x + y)[1..] == x[1..] + y;
      LeadingSpacesAppend(x[1..], y);
    }
  }

  /** A word already ended by whitespace, or followed by whitespace, keeps its length. */
  lemma {:induction false} WordLengthAppend(t: string, rest: string)
    requires WordLength(t) < |t| || (|rest| > 0 && IsSpace(rest[0]))
    ensures WordLength(t + rest) == WordLength(t)
    decreases |t|
  {
    if |t| == 0 {
      assert t + rest == rest;
    } else {
      assert (t + rest)[0] == t[0];
      if !IsSpace(t[0]) {
        assert (t + rest)[1..] == t[1..] + rest;
        WordLengthAppend(t[1..], rest);
      }
    }
  }

  /**
   * `split()` cuts at every whitespace character: the tokens on either side of
   * one are the tokens of the two sides. With `SplitOneWord` and `Split([]) == []`
   * this determines `split()` on every line.
   */
  lemma {:induction false} SplitAtSpace(a: string, c: char, b: string)
    requires IsSpace(c)
    ensures Split(a + [c] + b) == Split(a) + Split(b)
    decreases |a|, 1
  {
    if LeadingSpaces(a) == |a| {
      SplitAtSpaceBlank(a, c, b);
    } else {
      SplitAtSpaceNonBlank(a, c, b);
    }
  }

  /** `SplitAtSpace` when `a` holds a token: peel it off and cut the rest. */
  lemma {:induction false} SplitAtSpaceNonBlank(a: string, c: char, b: string)
    requires IsSpace(c) && LeadingSpaces(a) < |a|
    ensures Split(a + [c] + b) == Split(a) + Split(b)
    decreases |a|, 0
  {
    var i := LeadingSpaces(a);
    var t := a[i..];
    var n := WordLength(t);
    SplitAtSpaceWord(a, c, b, i, t, n);
    var w, r := t[..n], t[n..];
    SplitAtSpace(r, c, b);
    ConsThenAppend(w, Split(a + [c] + b), Split(a), Split(r + [c] + b), Split(r), Split(b));
  }

  /** If both sides start with `w` and their tails differ by `z`, so do the sides. */
  lemma ConsThenAppend<T>(w: T, x: seq<T>, y: seq<T>, xt: seq<T>, yt: seq<T>, z: seq<T>)
    requires x == [w] + xt && y == [w] + yt && xt == yt + z
    ensures x == y + z
  {
    AppendAssoc([w], yt, z);
  }

  lemma SplitAtSpaceBlank(a: string, c: char, b: string)
    requires IsSpace(c) && LeadingSpaces(a) == |a|
    ensures Split(a + [c] + b) == Split(b) && Split(a) == []
  {
    LeadingSpacesMaximal(a);
    assert AllSpace(a);
    assert a + [c] + b == a + ([c] + b);
    SplitSpacesThen(a, [c] + b);
    SplitSpaceThen(c, b);
  }

  /** The first token of `a` is the first token of `a + [c] + b`, and the rest follows it. */
  lemma SplitAtSpaceWord(a: string, c: char, b: string, i: nat, t: string, n: nat)
    requires IsSpace(c) && i == LeadingSpaces(a) < |a| && t == a[i..] && n == WordLength(t)
    ensures 0 < n && |t[n..]| < |a|
    ensures Split(a) == [t[..n]] + Split(t[n..])
    ensures Split(a + [c] + b) == [t[..n]] + Split(t[n..] + [c] + b)
  {
    FirstWordNonEmpty(a, i, t, n);
    var cb := [c] + b;
    SplitStep(a, i, t, n);
    SplitAfterWord(a, cb, i, t, n);
    AppendAssoc(a, [c], b);
    AppendAssoc(t[n..], [c], b);
  }


  /** Text starting with whitespace after a token leaves that token first. */
  lemma SplitAfterWord(a: string, cb: string, i: nat, t: string, n: nat)
    requires i == LeadingSpaces(a) < |a| && t == a[i..] && n == WordLength(t)
    requires |cb| > 0 && IsSpace(cb[0])
    ensures Split(a + cb) == [t[..n]] + Split(t[n..] + cb)
  {
    var s := a + cb;
    var tc := t + cb;
    LeadingSpacesAppend(a, cb);
    WordLengthAppend(t, cb);
    SlicesOfAppend(a, cb, i, t, n);
    SplitStep(s, i, tc, n);
  }

  lemma SlicesOfAppend(a: string, cb: string, i: nat, t: string, n: nat)
    requires i <= |a| && t == a[i..] && n <= |t|
    ensures (a + cb)[i..] == t + cb
    ensures (t + cb)[..n] == t[..n] && (t + cb)[n..] == t[n..] + cb
  {
  }

  /** One step of `split()`: the first token and the tokens of what follows it. */
  lemma SplitStep(s: string, i: nat, t: string, n: nat)
    requires i == LeadingSpaces(s) < |s| && t == s[i..] && n == WordLength(t)
    ensures Split(s) == [t[..n]] + Split(t[n..])
  {
  }

  lemma AppendAssoc<T>(x: seq<T>, y: seq<T>, z: seq<T>)
    ensures x + (y + z) == (x + y) + z
  {
  }

  lemma Singleton<T>(s: seq<T>)
    requires |s| == 1
    ensures s == [s[0]]
  {
  }

  lemma SplitOneWord(w: string)
    requires IsWord(w)
    ensures Split(w) == [w]
  {
    SplitWordThen(w, []);
    assert w + [] == w;
    assert Split([]) == [];
  }

  lemma SplitWordBlankThen(w: string, rest: string)
    requires IsWord(w)
    ensures Split(w + (" " + rest)) == [w] + Split(rest)
  {
    SplitWordThen(w, " " + rest);
    SplitBlankThen(rest);
  }

  lemma ConsSlice<T>(s: seq<T>)
    requires |s| > 0
    ensures s == [s[0]] + s[1..]
  {
  }

  /** One word more in front of a joined line is one token more in front. */
  lemma UnwordsCons(ws: seq<string>)
    requires |ws| > 1
    ensures Unwords(ws) == ws[0] + (" " + Unwords(ws[1..]))
  {
    assert ws[0] + " " + Unwords(ws[1..]) == ws[0] + (" " + Unwords(ws[1..]));
  }

  lemma SplitUnwordsCons(ws: seq<string>)
    requires |ws| > 1 && IsWord(ws[0])
    requires Split(Unwords(ws[1..])) == ws[1..]
    ensures Split(Unwords(ws)) == ws
  {
    var w := ws[0];
    var tail := ws[1..];
    var rest := Unwords(tail);
    calc {
      Split(Unwords(ws));
      { UnwordsCons(ws); }
      Split(w + (" " + rest));
      { SplitWordBlankThen(w, rest); }
      [w] + Split(rest);
      [w] + tail;
      { ConsSlice(ws); }
      ws;
    }
  }


  /** `split()` undoes `Unwords` on whitespace-free, non-empty words. */
  lemma {:induction false} SplitUnwords(ws: seq<string>)
    requires forall k :: 0 <= k < |ws| ==> IsWord(ws[k])
    ensures Split(Unwords(ws)) == ws
    decreases |ws|
  {
    if |ws| == 1 {
      SplitOneWord(ws[0]);
      Singleton(ws);
    } else if |ws| > 1 {
      var tail := ws[1..];
      assert forall k :: 0 <= k < |tail| ==> IsWord(tail[k]) by {
        forall k | 0 <= k < |tail| ensures IsWord(tail[k]) { assert tail[k] == ws[k + 1]; }
      }
      SplitUnwords(tail);
      SplitUnwordsCons(ws);
    }
  }

  /** A line without whitespace at either end is left alone by `strip()`. */
  lemma StripUntrimmed(s: string)
    requires s == [] || (!IsSpace(s[0]) && !IsSpace(s[|s| - 1]))
    ensures Strip(s) == s
  {
  }

  /** A line made of words separated by single blanks is left alone by `strip()`. */
  lemma StripUnwords(ws: seq<string>)
    requires |ws| > 0 && forall k :: 0 <= k < |ws| ==> IsWord(ws[k])
    ensures Strip(Unwords(ws)) == Unwords(ws)
  {
    UnwordsEdges(ws);
    StripUntrimmed(Unwords(ws));
  }
}
