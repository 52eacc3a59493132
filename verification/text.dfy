/** The byte-string helpers of Go's `strings` and `bufio` packages that the engine uses:
    TrimSpace, HasPrefix, TrimPrefix, SplitN(s, " ", 2) and the line scanner.
    File contents are modelled as strings in which each character stands for one byte. */
module Text {
  import opened Wrappers

  type Bytes = string

  /** ASCII white space as `strings.TrimSpace` sees it. */
  predicate IsSpace(c: char) {
    c == ' ' || c == '\t' || c == '\n' || c == '\r' || c == '\U{000B}' || c == '\U{000C}'
  }

  /** True when `s` neither starts nor ends with white space. */
  predicate Trimmed(s: string) {
    s == [] || (!IsSpace(s[0]) && !IsSpace(s[|s| - 1]))
  }

  /** The first index at or after `i` that does not hold white space, or `|s|`. */
  function SkipSpace(s: string, i: nat): (j: nat)
    requires i <= |s|
    ensures i <= j <= |s|
    ensures forall k :: i <= k < j ==> IsSpace(s[k])
    ensures j < |s| ==> !IsSpace(s[j])
    decreases |s| - i
  {
    if i < |s| && IsSpace(s[i]) then SkipSpace(s, i + 1) else i
  }

  /** The end of `s[lo..j]` once its trailing white space is dropped. */
  function DropSpace(s: string, lo: nat, j: nat): (e: nat)
    requires lo <= j <= |s|
    ensures lo <= e <= j
    ensures forall k :: e <= k < j ==> IsSpace(s[k])
    ensures lo < e ==> !IsSpace(s[e - 1])
    decreases j - lo
  {
    if lo < j && IsSpace(s[j - 1]) then DropSpace(s, lo, j - 1) else j
  }

  /** `r` is the factor of `s` at offset `i`, with only white space before and after it. */
  predicate SpaceAround(s: string, r: string, i: int) {
    && 0 <= i <= |s| - |r|
    && r == s[i..i + |r|]
    && (forall k :: 0 <= k < i ==> IsSpace(s[k]))
    && (forall k :: i + |r| <= k < |s| ==> IsSpace(s[k]))
  }

  /** `strings.TrimSpace`: the longest factor of `s` that starts and ends with a
      non-space character; only white space is dropped on either side. */
  function TrimSpace(s: string): (r: string)
    ensures Trimmed(r)
    ensures Trimmed(s) ==> r == s
    ensures exists i :: SpaceAround(s, r, i)
  {
    var i := SkipSpace(s, 0);
    var j := DropSpace(s, i, |s|);
    assert SpaceAround(s, s[i..j], i);
    assert Trimmed(s) ==> i == 0 && j == |s| by {
      if Trimmed(s) && s != [] {
        assert !IsSpace(s[0]) && !IsSpace(s[|s| - 1]);
      }
    }
    assert s[0..|s|] == s;
    s[i..j]
  }

  /** A trimmed, non-empty text followed by a newline trims back to the text. */
  lemma TrimNewline(m: string)
    requires m != [] && Trimmed(m)
    ensures TrimSpace(m + "\n") == m
  {
    var s := m + "\n";
    assert s[0] == m[0];
    assert SkipSpace(s, 0) == 0;
    assert s[|s| - 2] == m[|m| - 1];
    assert DropSpace(s, 0, |s| - 1) == |s| - 1;
    assert s[0..|s| - 1] == m;
  }

  predicate HasPrefix(s: string, p: string) {
    |p| <= |s| && s[..|p|] == p
  }

  /** `strings.TrimPrefix`: `s` without a leading `p`, or `s` itself when it does not start with `p`. */
  function TrimPrefix(s: string, p: string): (r: string)
    ensures HasPrefix(s, p) ==> p + r == s
    ensures !HasPrefix(s, p) ==> r == s
  {
    if HasPrefix(s, p) then s[|p|..] else s
  }

  /** `strings.SplitN(line, " ", 2)` when it yields two parts: the text before the first
      space and the text after it. `None` when the line holds no space. */
  function CutAtSpace(line: string): (r: Option<(string, string)>)
    ensures r.None? <==> ' ' !in line
    ensures r.Some? ==> line == r.value.0 + " " + r.value.1 && ' ' !in r.value.0
  {
    if line == [] then None
    else if line[0] == ' ' then Some(([], line[1..]))
    else match CutAtSpace(line[1..])
      case None => None
      case Some((before, after)) => Some(([line[0]] + before, after))
  }

  /** The cut is determined by the first space: whatever follows may hold spaces. */
  lemma {:induction false} CutAtFirstSpace(before: string, after: string)
    requires ' ' !in before
    ensures CutAtSpace(before + " " + after) == Some((before, after))
  {
    var line := before + " " + after;
    if before == [] {
      assert line[0] == ' ' && line[1..] == after;
    } else {
      assert line[0] == before[0] != ' ';
      assert line[1..] == before[1..] + " " + after;
      CutAtFirstSpace(before[1..], after);
      assert [before[0]] + before[1..] == before;
    }
  }

  /** Position of the first `c` in `s`, or `|s|` when there is none. */
  function IndexOf(s: string, c: char): (i: nat)
    ensures i <= |s|
    ensures i < |s| ==> s[i] == c
    ensures forall k :: 0 <= k < i ==> s[k] != c
  {
    if s == [] then 0
    else if s[0] == c then 0
    else 1 + IndexOf(s[1..], c)
  }

  /** `bufio.ScanLines` drops one carriage return that ends a line. */
  function DropCR(line: string): string {
    if line != [] && line[|line| - 1] == '\r' then line[..|line| - 1] else line
  }

  /** The lines `bufio.Scanner` yields with `ScanLines`: the text is cut at every newline,
      a final piece without newline is a line when it is not empty, and each line loses a
      trailing carriage return. */
  function ScanLines(s: string): seq<string>
    decreases |s|
  {
    if s == [] then []
    else
      var i := IndexOf(s, '\n');
      if i == |s| then [DropCR(s)] else [DropCR(s[..i])] + ScanLines(s[i + 1..])
  }

  predicate EndsLine(s: string) {
    s == [] || s[|s| - 1] == '\n'
  }

  /** Text appended after a newline (or to nothing) is scanned separately from what precedes it. */
  lemma {:induction false} ScanLinesAppend(s: string, t: string)
    requires EndsLine(s)
    ensures ScanLines(s + t) == ScanLines(s) + ScanLines(t)
    decreases |s|
  {
    if s == [] {
      assert s + t == t;
    } else {
      var i := IndexOf(s, '\n');
      assert i < |s|;
      assert IndexOf(s + t, '\n') == i by {
        IndexOfPrefix(s, t, '\n');
      }
      assert (s + t)[..i] == s[..i];
      assert (s + t)[i + 1..] == s[i + 1..] + t;
      ScanLinesAppend(s[i + 1..], t);
      assert s + t != [];
      assert ScanLines(s + t) == [DropCR(s[..i])] + ScanLines(s[i + 1..] + t);
    }
  }

  lemma {:induction false} IndexOfPrefix(s: string, t: string, c: char)
    requires IndexOf(s, c) < |s|
    ensures IndexOf(s + t, c) == IndexOf(s, c)
  {
    if s[0] != c {
      assert (s + t)[1..] == s[1..] + t;
      IndexOfPrefix(s[1..], t, c);
    }
  }

  /** One newline-terminated line scans to exactly that line, less a final carriage return. */
  lemma ScanOneLine(line: string)
    requires '\n' !in line
    ensures ScanLines(line + "\n") == [DropCR(line)]
  {
    var s := line + "\n";
    forall k | 0 <= k < |line| ensures s[k] != '\n' {
      assert s[k] == line[k] && line[k] in line;
    }
    var i := IndexOf(s, '\n');
    assert s[|line|] == '\n';
    assert i == |line|;
    assert s[..|line|] == line;
    assert s[|line| + 1..] == [];
  }
}
