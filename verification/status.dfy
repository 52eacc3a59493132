/** `status`, commands/status.go: compare each top-level file of the working directory with
    the staged map and with the tree of the last commit on `main`, then report staged names
    that no longer exist. */
module StatusCmd {
  import opened Wrappers
  import opened Text
  import opened Repository
  import opened Objects
  import opened Commits
  import opened IndexFile
  import opened AddCmd
  import opened CommitCmd

  datatype Kind = ModifiedStaged | ModifiedNotStaged | Untracked

  datatype StatusLine = StatusLine(kind: Kind, name: string)

  datatype StatusResult =
    | DirUnreadable                                        // "Error reading working dir"
    | Listed(lines: seq<StatusLine>, deleted: set<string>) // per-file lines, then "Deleted (staged)"

  /** The staged map: the parsed index, empty when there is no index file. */
  function StagedOf(s: Repo): map<string, Hash> {
    if s.index.None? then map[] else ParseIndex(s.index.value)
  }

  /** The tree of the commit `refs/heads/main` names, its content trimmed; empty when the
      ref is missing or the commit cannot be loaded. */
  function LastTree(s: Repo, codec: Codec): (r: map<string, Hash>)
    ensures MainRef !in s.refs ==> r == map[]
    ensures MainRef in s.refs ==>
              var loaded := LoadCommit(s.objects, TrimSpace(s.refs[MainRef]), codec);
              r == if loaded.Ok? then loaded.value.tree else map[]
  {
    if MainRef !in s.refs then map[]
    else match LoadCommit(s.objects, TrimSpace(s.refs[MainRef]), codec)
      case Ok(c) => c.tree
      case Err(_) => map[]
  }

  /** The category of a file whose current bytes hash to `hash`; `None` when it is clean.
      The staged hash, when there is one, decides alone; the committed one only otherwise. */
  function Classify(hash: Hash, name: string, staged: map<string, Hash>, last: map<string, Hash>): (r: Option<Kind>)
    ensures r == Some(ModifiedStaged) <==> name in staged && hash != staged[name]
    ensures r == Some(ModifiedNotStaged) <==> name !in staged && name in last && hash != last[name]
    ensures r == Some(Untracked) <==> name !in staged && name !in last
    ensures r == None <==> (name in staged && hash == staged[name]) ||
                           (name !in staged && name in last && hash == last[name])
  {
    if name in staged then (if hash != staged[name] then Some(ModifiedStaged) else None)
    else if name in last then (if hash != last[name] then Some(ModifiedNotStaged) else None)
    else Some(Untracked)
  }

  /** The file `name` is inspected: not `.mygit`, not a directory, and readable. */
  predicate Inspected(workdir: map<string, Entry>, name: string) {
    name != ".mygit" && name in workdir && workdir[name].File?
  }

  /** What the per-file comparison works from, computed before the directory is listed. */
  datatype View = View(workdir: map<string, Entry>, sha1: Hasher, staged: map<string, Hash>, last: map<string, Hash>)

  function ViewOf(s: Repo, codec: Codec): View {
    View(s.workdir, codec.sha1, StagedOf(s), LastTree(s, codec))
  }

  /** The verdict on one inspected name. */
  function Verdict(v: View, name: string): Option<Kind>
    requires Inspected(v.workdir, name)
  {
    Classify(v.sha1(v.workdir[name].content), name, v.staged, v.last)
  }

  /** The per-file lines, in the order of the directory listing. */
  function Lines(v: View, listing: seq<string>): seq<StatusLine> {
    if listing == [] then []
    else
      var earlier := Lines(v, listing[..|listing| - 1]);
      var name := listing[|listing| - 1];
      if !Inspected(v.workdir, name) then earlier
      else match Verdict(v, name)
        case None => earlier
        case Some(k) => earlier + [StatusLine(k, name)]
  }

  /** The staged names that do not exist any more. */
  function DeletedStaged(staged: map<string, Hash>, workdir: map<string, Entry>): (r: set<string>)
    ensures forall name :: name in r <==> name in staged && name !in workdir
  {
    set name | name in staged && name !in workdir
  }

  /** `Status()`: `listing` is what reading the working directory returned, `None` when it failed. */
  function Status(s: Repo, codec: Codec, listing: Option<seq<string>>): StatusResult {
    match listing
    case None => DirUnreadable
    case Some(names) => Listed(Lines(ViewOf(s, codec), names), DeletedStaged(StagedOf(s), s.workdir))
  }

  /** Every line is about a listed, inspected file, and carries that file's verdict. */
  lemma {:induction false} LinesSound(v: View, listing: seq<string>)
    ensures forall l :: l in Lines(v, listing) ==>
              l.name in listing && Inspected(v.workdir, l.name) && Verdict(v, l.name) == Some(l.kind)
  {
    if listing != [] {
      var init := listing[..|listing| - 1];
      LinesSound(v, init);
      forall l | l in Lines(v, init) ensures l.name in listing {
        var i :| 0 <= i < |init| && init[i] == l.name;
        assert listing[i] == l.name;
      }
    }
  }

  /** Every listed file that is not clean gets its line. */
  lemma {:induction false} LinesComplete(v: View, listing: seq<string>, name: string)
    requires name in listing && Inspected(v.workdir, name) && Verdict(v, name).Some?
    ensures StatusLine(Verdict(v, name).value, name) in Lines(v, listing)
  {
    var init := listing[..|listing| - 1];
    if listing[|listing| - 1] != name {
      var i :| 0 <= i < |listing| && listing[i] == name;
      assert init[i] == name;
      LinesComplete(v, init, name);
    }
  }

  /** No two lines are about the same file. */
  predicate OnePerName(lines: seq<StatusLine>) {
    forall i, j :: 0 <= i < j < |lines| ==> lines[i].name != lines[j].name
  }

  /** A directory listing names each entry once, so each file is reported at most once. */
  lemma {:induction false} OneLinePerFile(v: View, listing: seq<string>)
    requires forall i, j :: 0 <= i < j < |listing| ==> listing[i] != listing[j]
    ensures OnePerName(Lines(v, listing))
  {
    if listing != [] {
      var init := listing[..|listing| - 1];
      var name := listing[|listing| - 1];
      OneLinePerFile(v, init);
      LinesSound(v, init);
      var earlier := Lines(v, init);
      forall l | l in earlier ensures l.name != name {
        var i :| 0 <= i < |init| && init[i] == l.name;
        assert listing[i] == init[i];
      }
      var lines := Lines(v, listing);
      if Inspected(v.workdir, name) && Verdict(v, name).Some? {
        assert lines == earlier + [StatusLine(Verdict(v, name).value, name)];
        forall i, j | 0 <= i < j < |lines| ensures lines[i].name != lines[j].name {
          if j == |earlier| {
            assert lines[j].name == name;
            assert lines[i] == earlier[i] && earlier[i] in earlier;
          } else {
            assert lines[i] == earlier[i] && lines[j] == earlier[j];
          }
        }
      }
    }
  }

  /** No name is both reported on a per-file line and listed as deleted. */
  lemma DeletedNotListed(s: Repo, codec: Codec, names: seq<string>)
    ensures Status(s, codec, Some(names)).Listed?
    ensures var st := Status(s, codec, Some(names));
            forall l :: l in st.lines ==> l.name !in st.deleted
  {
    LinesSound(ViewOf(s, codec), names);
  }

  /** A file `add` has just staged exists, so `status` does not report it deleted. */
  lemma AddedNotDeleted(s: Repo, name: string, codec: Codec, failing: set<Target>, listing: Option<seq<string>>)
    requires Add(s, name, codec.sha1, failing).1.Added?
    ensures var st := Status(Add(s, name, codec.sha1, failing).0, codec, listing);
            st.Listed? ==> name !in st.deleted
  {
  }

  /** A file whose bytes equal what was staged for it is not reported. */
  lemma StagedCopyIsClean(v: View, listing: seq<string>, name: string)
    requires Inspected(v.workdir, name)
    requires name in v.staged && v.staged[name] == v.sha1(v.workdir[name].content)
    ensures forall l :: l in Lines(v, listing) ==> l.name != name
  {
    LinesSound(v, listing);
  }

  /** Right after a successful `add`, `status` does not report the added file. */
  lemma AddedFileIsClean(s: Repo, name: string, codec: Codec, failing: set<Target>, listing: seq<string>)
    requires DigestShaped(codec.sha1)
    requires LineSafe(name) && IndexWellEnded(s.index)
    requires Add(s, name, codec.sha1, failing).1.Added?
    ensures forall l :: l in Lines(ViewOf(Add(s, name, codec.sha1, failing).0, codec), listing) ==> l.name != name
  {
    var t := Add(s, name, codec.sha1, failing).0;
    AddStagesFile(s, name, codec.sha1, failing);
    var v := ViewOf(t, codec);
    assert v.staged == ParseIndex(t.index.value);
    if Inspected(v.workdir, name) {
      StagedCopyIsClean(v, listing, name);
    } else {
      LinesSound(v, listing);
    }
  }

  /** With nothing staged, a file is reported only when the last tree lacks it or records
      other bytes for it. */
  lemma UnstagedAgainstLastTree(v: View, listing: seq<string>)
    requires v.staged == map[]
    ensures forall l :: l in Lines(v, listing) ==>
              l.name in v.workdir && v.workdir[l.name].File? &&
              (l.name !in v.last || v.last[l.name] != v.sha1(v.workdir[l.name].content))
  {
    LinesSound(v, listing);
  }

  /** After a commit on `main` the index is gone and the tree `status` compares against is
      exactly what was staged; when the commit object's stat failed and nothing was written,
      that tree is empty instead. */
  lemma CommittedTreeIsLast(s: Repo, user: string, author: string, message: string, timestamp: string,
                            codec: Codec, failing: set<Target>)
    requires RoundTrips(codec) && DigestShaped(codec.sha1)
    requires s.head.Some? && HeadRef(s.head.value) == MainRef
    requires CommitChanges(s, user, author, message, timestamp, codec, failing).1.Committed?
    requires CommitChanges(s, user, author, message, timestamp, codec, failing).1.hash !in s.objects
    ensures var (t, out) := CommitChanges(s, user, author, message, timestamp, codec, failing);
            && StagedOf(t) == map[]
            && (ObjectStat(out.hash) !in failing ==> LastTree(t, codec) == ParseIndex(s.index.value))
            && (ObjectStat(out.hash) in failing ==> LastTree(t, codec) == map[])
  {
    var (t, out) := CommitChanges(s, user, author, message, timestamp, codec, failing);
    CommitRecorded(s, user, author, message, timestamp, codec, failing);
    var snapshot := Snapshot(s.index.value, s.head.value, s.refs, author, message, timestamp);
    assert out.hash == codec.sha1(codec.marshal(snapshot).value);
    DigestTrimmed(out.hash);
    var c := Commit(message, timestamp, author, ParseIndex(s.index.value), ParentOf(s.refs, MainRef));
    if ObjectStat(out.hash) !in failing {
      LastTreeOf(t, codec, out.hash, c);
    }
  }

  /** The last tree is the tree of the commit that `main` names exactly. */
  lemma LastTreeOf(s: Repo, codec: Codec, h: Hash, c: Commit)
    requires MainRef in s.refs && s.refs[MainRef] == h && TrimSpace(h) == h
    requires LoadCommit(s.objects, h, codec) == Ok(c)
    ensures LastTree(s, codec) == c.tree
  {
  }

  /** The final loop of `Status()`: every staged name is looked up, in no particular order. */
  method CollectDeleted(staged: map<string, Hash>, workdir: map<string, Entry>) returns (deleted: set<string>)
    ensures deleted == DeletedStaged(staged, workdir)
  {
    deleted := {};
    var pending := staged.Keys;
    while pending != {}
      invariant pending <= staged.Keys
      invariant forall n :: n in deleted <==> n in staged && n !in pending && n !in workdir
      decreases pending
    {
      var name :| name in pending;
      if name !in workdir {
        deleted := deleted + {name};
      }
      pending := pending - {name};
    }
  }

  /** The first loop of `Status()`: one verdict per listed entry, in listing order. */
  method ClassifyListing(v: View, names: seq<string>) returns (lines: seq<StatusLine>)
    ensures lines == Lines(v, names)
  {
    lines := [];
    var i := 0;
    while i < |names|
      invariant 0 <= i <= |names|
      invariant lines == Lines(v, names[..i])
    {
      assert names[..i + 1][..i] == names[..i];
      var name := names[i];
      if name != ".mygit" && name in v.workdir && v.workdir[name].File? {
        var kind := Classify(v.sha1(v.workdir[name].content), name, v.staged, v.last);
        if kind.Some? {
          lines := lines + [StatusLine(kind.value, name)];
        }
      }
      i := i + 1;
    }
    assert names[..i] == names;
  }

  /** `Status()` on the disk: load the staged map and the last tree, walk the listing, then
      look up every staged name. Nothing is written. */
  method ShowStatus(d: Disk, codec: Codec, listing: Option<seq<string>>) returns (result: StatusResult)
    ensures result == Status(d.State(), codec, listing)
  {
    var s := d.State();
    var staged: map<string, Hash> := map[];
    if s.index.Some? {
      staged := LoadIndex(s.index.value);
    }
    var last: map<string, Hash> := map[];
    if MainRef in s.refs {
      var loaded := LoadCommit(s.objects, TrimSpace(s.refs[MainRef]), codec);
      if loaded.Ok? {
        last := loaded.value.tree;
      }
    }
    if listing.None? {
      return DirUnreadable;
    }
    var v := View(s.workdir, codec.sha1, staged, last);
    assert v == ViewOf(s, codec);
    var lines := ClassifyListing(v, listing.value);
    var deleted := CollectDeleted(staged, s.workdir);
    return Listed(lines, deleted);
  }
}
