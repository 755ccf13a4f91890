/** Python string primitives the scraper relies on: `str.split()` with no
    separator, `sep.join`, `str.strip()`, `str.split(c)[-1]` and
    `str.replace` of a single character. */
module Text {

  /** The characters Python's `str.isspace()` accepts; `split()` and `strip()`
      without arguments break and trim on exactly this set. */
  predicate IsSpace(c: char) {
    var n := c as int;
    (0x09 <= n <= 0x0D) || (0x1C <= n <= 0x20) || n == 0x85 || n == 0xA0 ||
    n == 0x1680 || (0x2000 <= n <= 0x200A) || n == 0x2028 || n == 0x2029 ||
    n == 0x202F || n == 0x205F || n == 0x3000
  }

  predicate NoSpace(s: string) {
    forall i :: 0 <= i < |s| ==> !IsSpace(s[i])
  }

  predicate AllSpace(s: string) {
    forall i :: 0 <= i < |s| ==> IsSpace(s[i])
  }

  /** A word as `split()` produces it: non-empty and free of whitespace. */
  predicate IsWord(w: string) {
    |w| > 0 && NoSpace(w)
  }

  predicate AllWords(ws: seq<string>) {
    forall i :: 0 <= i < |ws| ==> IsWord(ws[i])
  }

  /** `t` occurs in `s` starting at index `i`. */
  predicate OccursAt(s: string, i: int, t: string) {
    0 <= i && i + |t| <= |s| && s[i..i + |t|] == t
  }

  // ---------------------------------------------------------------- split

  /** Length of the run of non-space characters that starts `s`. */
  function WordLength(s: string): (n: nat)
    ensures n <= |s|
    ensures forall i :: 0 <= i < n ==> !IsSpace(s[i])
    ensures n == |s| || IsSpace(s[n])
  {
    if s == [] || IsSpace(s[0]) then 0 else 1 + WordLength(s[1..])
  }

  /** `s.split()`: the maximal runs of non-space characters, in order. */
  function Words(s: string): (ws: seq<string>)
    ensures AllWords(ws)
    decreases |s|
  {
    if s == [] then []
    else if IsSpace(s[0]) then Words(s[1..])
    else
      var n := WordLength(s);
      [s[..n]] + Words(s[n..])
  }

  /** A word ends at the first whitespace, whatever follows it. */
  lemma {:induction false} WordLengthStopsAtSpace(a: string, c: char, b: string)
    requires IsSpace(c)
    ensures WordLength(a + [c] + b) == WordLength(a)
    decreases |a|
  {
    if a == [] {
      assert (a + [c] + b)[0] == c;
    } else if IsSpace(a[0]) {
      assert (a + [c] + b)[0] == a[0];
    } else {
      assert (a + [c] + b)[0] == a[0];
      assert (a + [c] + b)[1..] == a[1..] + [c] + b;
      WordLengthStopsAtSpace(a[1..], c, b);
    }
  }

  /** Splitting at any whitespace character splits the word list there:
      what lies on either side of a space is tokenised independently. */
  lemma {:induction false} WordsSplitAtSpace(a: string, c: char, b: string)
    requires IsSpace(c)
    ensures Words(a + [c] + b) == Words(a) + Words(b)
    decreases |a|
  {
    var s := a + [c] + b;
    if a == [] {
      assert s[0] == c && s[1..] == b;
    } else if IsSpace(a[0]) {
      assert s[0] == a[0];
      assert s[1..] == a[1..] + [c] + b;
      WordsSplitAtSpace(a[1..], c, b);
    } else {
      assert s[0] == a[0];
      var n := WordLength(a);
      WordLengthStopsAtSpace(a, c, b);
      assert s[..n] == a[..n];
      assert s[n..] == a[n..] + [c] + b;
      assert Words(s) == [a[..n]] + Words(a[n..] + [c] + b);
      assert Words(a) == [a[..n]] + Words(a[n..]);
      WordsSplitAtSpace(a[n..], c, b);
    }
  }

  /** A single word splits to itself. */
  lemma {:induction false} WordsOfWord(w: string)
    requires IsWord(w)
    ensures Words(w) == [w]
  {
    var n := WordLength(w);
    assert !IsSpace(w[0]);
    assert n == |w|;
    assert w[..n] == w;
    assert w[n..] == [];
  }

  // ----------------------------------------------------------------- join

  /** `sep.join(ws)`. */
  function Join(ws: seq<string>, sep: string): (r: string)
    ensures |ws| == 1 ==> r == ws[0]
  {
    if ws == [] then []
    else if |ws| == 1 then ws[0]
    else ws[0] + sep + Join(ws[1..], sep)
  }

  /** Two strings joined are the first, the separator, the second. */
  lemma JoinTwo(a: string, b: string, sep: string)
    ensures Join([a, b], sep) == a + sep + b
  {
    assert [a, b][1..] == [b];
  }

  /** Words joined by a whitespace-free separator contain no whitespace. */
  lemma {:induction false} JoinNoSpace(ws: seq<string>, sep: string)
    requires AllWords(ws) && NoSpace(sep)
    ensures NoSpace(Join(ws, sep))
  {
    if |ws| > 1 {
      assert AllWords(ws[1..]) by {
        forall i | 0 <= i < |ws[1..]| ensures IsWord(ws[1..][i]) {
          assert ws[1..][i] == ws[i + 1];
        }
      }
      JoinNoSpace(ws[1..], sep);
      var r := Join(ws, sep);
      var rest := Join(ws[1..], sep);
      assert IsWord(ws[0]);
      forall k | 0 <= k < |r| ensures !IsSpace(r[k]) {
        if k < |ws[0]| {
          assert r[k] == ws[0][k];
        } else if k < |ws[0]| + |sep| {
          assert r[k] == sep[k - |ws[0]|];
        } else {
          assert r[k] == rest[k - |ws[0]| - |sep|];
        }
      }
    } else if |ws| == 1 {
      assert IsWord(ws[0]);
    }
  }

  /** Concatenation keeps whitespace out. */
  lemma NoSpaceAppend(a: string, b: string)
    requires NoSpace(a) && NoSpace(b)
    ensures NoSpace(a + b)
  {
    forall k | 0 <= k < |a + b| ensures !IsSpace((a + b)[k]) {
      if k >= |a| {
        assert (a + b)[k] == b[k - |a|];
      }
    }
  }

  /** Round trip: splitting words joined by single spaces gives the words back. */
  lemma {:induction false} WordsOfJoin(ws: seq<string>)
    requires AllWords(ws)
    ensures Words(Join(ws, " ")) == ws
  {
    if ws == [] {
    } else if |ws| == 1 {
      WordsOfWord(ws[0]);
    } else {
      assert IsWord(ws[0]);
      assert AllWords(ws[1..]) by {
        forall i | 0 <= i < |ws[1..]| ensures IsWord(ws[1..][i]) {
          assert ws[1..][i] == ws[i + 1];
        }
      }
      assert IsSpace(' ');
      var rest := Join(ws[1..], " ");
      assert Join(ws, " ") == ws[0] + [' '] + rest;
      WordsSplitAtSpace(ws[0], ' ', rest);
      WordsOfWord(ws[0]);
      WordsOfJoin(ws[1..]);
    }
  }

  // ---------------------------------------------------------------- strip

  /** `s.lstrip()`. */
  function TrimStart(s: string): (r: string)
    ensures |r| <= |s| && r == s[|s| - |r|..]
    ensures AllSpace(s[..|s| - |r|])
    ensures r == [] || !IsSpace(r[0])
  {
    if s != [] && IsSpace(s[0]) then TrimStart(s[1..]) else s
  }

  /** `s.rstrip()`. */
  function TrimEnd(s: string): (r: string)
    ensures |r| <= |s| && r == s[..|r|]
    ensures AllSpace(s[|r|..])
    ensures r == [] || !IsSpace(r[|r| - 1])
  {
    if s != [] && IsSpace(s[|s| - 1]) then TrimEnd(s[..|s| - 1]) else s
  }

  /** `r` sits at index `i` of `s` with only whitespace around it. */
  ghost predicate Padded(s: string, i: int, r: string) {
    0 <= i && i + |r| <= |s| && s[i..i + |r|] == r &&
    AllSpace(s[..i]) && AllSpace(s[i + |r|..])
  }

  /** A string with neither leading nor trailing whitespace. */
  predicate Trimmed(r: string) {
    r == [] || (!IsSpace(r[0]) && !IsSpace(r[|r| - 1]))
  }

  /** `s.strip()`: `s` without its leading and trailing whitespace. */
  function Strip(s: string): (r: string)
    ensures Trimmed(r)
    ensures exists i :: Padded(s, i, r)
  {
    var t := TrimStart(s);
    var r := TrimEnd(t);
    StripPadded(s, t, r);
    r
  }

  /** Trimming both ends leaves the result padded by the removed whitespace. */
  lemma StripPadded(s: string, t: string, r: string)
    requires |t| <= |s| && t == s[|s| - |t|..] && AllSpace(s[..|s| - |t|])
    requires |r| <= |t| && r == t[..|r|] && AllSpace(t[|r|..])
    ensures Padded(s, |s| - |t|, r)
  {
    var i := |s| - |t|;
    assert s[i..i + |r|] == t[..|r|];
    assert s[i + |r|..] == t[|r|..];
  }

  /** A character absent from `s` is absent from anything padded out to `s`. */
  lemma PaddedKeepsAbsent(s: string, r: string, c: char)
    requires c !in s && exists i :: Padded(s, i, r)
    ensures c !in r
  {
    var i :| Padded(s, i, r);
    forall k | 0 <= k < |r| ensures r[k] != c {
      assert r[k] == s[i + k];
      assert s[i + k] in s;
    }
  }

  /** `lstrip` stops at the first non-space character. */
  lemma {:induction false} TrimStartAt(s: string, i: nat)
    requires i <= |s| && AllSpace(s[..i])
    requires i == |s| || !IsSpace(s[i])
    ensures TrimStart(s) == s[i..]
  {
    if i > 0 {
      assert s[..i][0] == s[0];
      var tail := s[1..][..i - 1];
      assert AllSpace(tail) by {
        forall k | 0 <= k < |tail| ensures IsSpace(tail[k]) {
          assert tail[k] == s[..i][k + 1];
        }
      }
      assert i - 1 == |s[1..]| || s[1..][i - 1] == s[i];
      TrimStartAt(s[1..], i - 1);
      assert s[1..][i - 1..] == s[i..];
    }
  }

  /** `rstrip` stops at the last non-space character. */
  lemma {:induction false} TrimEndAt(s: string, j: nat)
    requires j <= |s| && AllSpace(s[j..])
    requires j == 0 || !IsSpace(s[j - 1])
    ensures TrimEnd(s) == s[..j]
    decreases |s|
  {
    if j < |s| {
      var m := |s| - 1;
      assert s[j..][m - j] == s[m];
      assert AllSpace(s[..m][j..]) by {
        forall k | 0 <= k < m - j ensures IsSpace(s[..m][j..][k]) {
          assert s[..m][j..][k] == s[j..][k];
        }
      }
      assert j == 0 || s[..m][j - 1] == s[j - 1];
      TrimEndAt(s[..m], j);
      assert s[..m][..j] == s[..j];
    }
  }

  /** Strip is characterised by its contract: the only trimmed string that
      can be padded out to `s` with whitespace is `Strip(s)`. */
  lemma {:induction false} StripUnique(s: string, i: int, r: string)
    requires Padded(s, i, r) && Trimmed(r)
    ensures r == Strip(s)
  {
    if r == [] {
      assert AllSpace(s[..|s|]) by {
        forall k | 0 <= k < |s| ensures IsSpace(s[..|s|][k]) {
          if k < i {
            assert s[..i][k] == s[k];
          } else {
            assert s[i..][k - i] == s[k];
          }
        }
      }
      TrimStartAt(s, |s|);
      TrimEndAt([], 0);
    } else {
      assert s[i] == r[0];
      TrimStartAt(s, i);
      var t := s[i..];
      assert t[..|r|] == r;
      assert t[|r|..] == s[i + |r|..];
      TrimEndAt(t, |r|);
    }
  }

  // ------------------------------------------------------- last segment

  /** `s.split(sep)[-1]`: the text after the last `sep`, or all of `s` when
      `sep` does not occur. */
  function LastSegment(s: string, sep: char): (r: string)
    ensures |r| <= |s| && r == s[|s| - |r|..]
    ensures sep !in r
    ensures |r| == |s| || s[|s| - |r| - 1] == sep
  {
    if s == [] || s[|s| - 1] == sep then []
    else LastSegment(s[..|s| - 1], sep) + [s[|s| - 1]]
  }

  /** Whatever precedes the last separator does not matter. */
  lemma {:induction false} LastSegmentAfterSeparator(a: string, sep: char, b: string)
    requires sep !in b
    ensures LastSegment(a + [sep] + b, sep) == b
  {
    var s := a + [sep] + b;
    if b == [] {
      assert s[|s| - 1] == sep;
    } else {
      var m := |b| - 1;
      assert b[m] in b;
      assert s[|s| - 1] == b[m];
      assert s[..|s| - 1] == a + [sep] + b[..m];
      LastSegmentAfterSeparator(a, sep, b[..m]);
      assert b[..m] + [b[m]] == b;
    }
  }

  // -------------------------------------------------------------- replace

  /** `s.replace(a, b)` for single characters `a` and `b`. */
  function ReplaceChar(s: string, a: char, b: char): (r: string)
    ensures |r| == |s|
    ensures forall i :: 0 <= i < |s| ==> r[i] == (if s[i] == a then b else s[i])
  {
    if s == [] then [] else ReplaceChar(s[..|s| - 1], a, b) + [if s[|s| - 1] == a then b else s[|s| - 1]]
  }

  /** Replacing a character in a concatenation replaces it in each part. */
  lemma ReplaceCharConcat(s: string, t: string, a: char, b: char)
    ensures ReplaceChar(s + t, a, b) == ReplaceChar(s, a, b) + ReplaceChar(t, a, b)
  {
    var l := ReplaceChar(s + t, a, b);
    var r := ReplaceChar(s, a, b) + ReplaceChar(t, a, b);
    assert |l| == |r|;
    forall i | 0 <= i < |l| ensures l[i] == r[i] {
      if i < |s| {
        assert (s + t)[i] == s[i];
      } else {
        assert (s + t)[i] == t[i - |s|];
      }
    }
  }

  /** Replacing a character that does not occur changes nothing. */
  lemma ReplaceCharAbsent(s: string, a: char, b: char)
    requires a !in s
    ensures ReplaceChar(s, a, b) == s
  {
    assert forall i :: 0 <= i < |s| ==> s[i] != a;
  }
}
