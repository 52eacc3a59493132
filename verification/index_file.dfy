/** The staging area `.mygit/index`: a text file of lines `<hash> <name>`, appended to by
    `add` and read back, identically, by `commit` (commands/commit.go) and `status`
    (commands/status.go). Reading keeps, for each name, the hash of its last line. */
module IndexFile {
  import opened Wrappers
  import opened Text
  import opened Repository

  /** The line `add` appends. */
  function IndexLine(h: Hash, name: string): string {
    h + " " + name + "\n"
  }

  /** A file name that survives a trip through one index line: it starts no new line and
      does not end in a carriage return, which the scanner would drop. */
  predicate LineSafe(name: string) {
    '\n' !in name && (name == [] || name[|name| - 1] != '\r')
  }

  /** The map the reading loop builds from the scanned lines: a line is split at its first
      space into hash and name, a line without space is skipped, and a later line for a
      name overrides an earlier one. */
  function Staged(lines: seq<string>): map<string, Hash>
  {
    if lines == [] then map[]
    else
      var earlier := Staged(lines[..|lines| - 1]);
      match CutAtSpace(lines[|lines| - 1])
      case None => earlier
      case Some((h, name)) => earlier[name := h]
  }

  function ParseIndex(text: Bytes): map<string, Hash> {
    Staged(ScanLines(text))
  }

  /** The scanned line is an entry for `name`. */
  predicate Names(line: string, name: string) {
    CutAtSpace(line).Some? && CutAtSpace(line).value.1 == name
  }

  /** Line `i` is the last entry for `name`. */
  predicate LastEntry(lines: seq<string>, i: int, name: string) {
    0 <= i < |lines| && Names(lines[i], name) && forall j :: i < j < |lines| ==> !Names(lines[j], name)
  }

  /** A name is staged exactly when some line names it. */
  lemma {:induction false} StagedNames(lines: seq<string>, name: string)
    ensures name in Staged(lines) <==> exists i :: 0 <= i < |lines| && Names(lines[i], name)
  {
    if lines != [] {
      var n := |lines| - 1;
      var init := lines[..n];
      StagedNames(init, name);
      if Names(lines[n], name) {
        assert name in Staged(lines);
      } else {
        assert name in Staged(lines) <==> name in Staged(init);
        if name in Staged(init) {
          var i :| 0 <= i < n && Names(init[i], name);
          assert lines[i] == init[i];
        }
        if exists i :: 0 <= i < |lines| && Names(lines[i], name) {
          var i :| 0 <= i < |lines| && Names(lines[i], name);
          assert i < n && init[i] == lines[i];
        }
      }
    }
  }

  /** Last write wins: a staged name carries the hash of the last line that names it. */
  lemma {:induction false} StagedLastWins(lines: seq<string>, name: string)
    requires name in Staged(lines)
    ensures exists i :: LastEntry(lines, i, name) && CutAtSpace(lines[i]).value.0 == Staged(lines)[name]
  {
    var n := |lines| - 1;
    var init := lines[..n];
    if Names(lines[n], name) {
      assert LastEntry(lines, n, name);
    } else {
      assert name in Staged(init) && Staged(lines)[name] == Staged(init)[name];
      StagedLastWins(init, name);
      var i :| LastEntry(init, i, name) && CutAtSpace(init[i]).value.0 == Staged(init)[name];
      assert lines[i] == init[i];
      forall j | i < j < |lines| ensures !Names(lines[j], name) {
        if j < n { assert lines[j] == init[j]; }
      }
      assert LastEntry(lines, i, name);
    }
  }

  /** Appending one `add` line to an index that ends a line stages that name with that hash
      and leaves every other entry as it was. */
  lemma AppendStages(text: Bytes, h: Hash, name: string)
    requires EndsLine(text)
    requires ' ' !in h && '\n' !in h
    requires LineSafe(name)
    ensures ParseIndex(text + IndexLine(h, name)) == ParseIndex(text)[name := h]
    ensures EndsLine(text + IndexLine(h, name))
  {
    var line := h + " " + name;
    assert '\n' !in line by {
      forall k | 0 <= k < |line| ensures line[k] != '\n' {
        if k < |h| { assert line[k] == h[k] && h[k] in h; }
        else if k > |h| { assert line[k] == name[k - |h| - 1] && name[k - |h| - 1] in name; }
      }
    }
    assert IndexLine(h, name) == line + "\n";
    ScanLinesAppend(text, line + "\n");
    ScanOneLine(line);
    assert DropCR(line) == line;
    CutAtFirstSpace(h, name);
    var lines := ScanLines(text) + [line];
    assert lines[..|lines| - 1] == ScanLines(text);
  }

  /** The reading loop of commit.go and status.go: scan the index line by line and record
      each entry, later entries replacing earlier ones. */
  method LoadIndex(text: Bytes) returns (tree: map<string, Hash>)
    ensures tree == ParseIndex(text)
  {
    var lines := ScanLines(text);
    tree := map[];
    var i := 0;
    while i < |lines|
      invariant 0 <= i <= |lines|
      invariant tree == Staged(lines[..i])
    {
      assert lines[..i + 1][..i] == lines[..i];
      match CutAtSpace(lines[i]) {
        case None =>
        case Some((h, name)) =>
          tree := tree[name := h];
      }
      i := i + 1;
    }
    assert lines[..i] == lines;
  }
}
