/** `commit <author> <message>`, commands/commit.go: turn the index into a commit object on
    the branch HEAD names, advance that branch, then remove the index. */
module CommitCmd {
  import opened Wrappers
  import opened Text
  import opened Repository
  import opened Auth
  import opened Objects
  import opened Commits
  import opened IndexFile

  datatype CommitOutcome =
    | Committed(branch: string, hash: Hash)
    | NothingToCommit                  // no index file
    | HeadUnreadable                   // "Error reading HEAD"
    | EditDenied(branch: string)       // the branch policy refuses `edit`
    | SaveFailed(error: Failure)       // the commit object could not be stored
    | RefWriteFailed(hash: Hash)       // the object is stored, the branch did not advance

  /** The ref path commit derives from HEAD: white space trimmed, then a leading `ref: `
      dropped when present (it is not required). */
  function HeadRef(head: Bytes): string {
    TrimPrefix(TrimSpace(head), "ref: ")
  }

  /** The branch name: the ref path without a leading `refs/heads/`. */
  function BranchName(headRef: string): string {
    TrimPrefix(headRef, HeadsPrefix)
  }

  /** The parent: the trimmed content of the current ref, "" when there is no such ref. */
  function ParentOf(refs: map<string, Bytes>, headRef: string): Hash {
    if headRef in refs then TrimSpace(refs[headRef]) else ""
  }

  /** The commit a successful run stores: the staged map as tree, the given author and
      message, the clock reading as timestamp and the current ref as parent. */
  function Snapshot(index: Bytes, head: Bytes, refs: map<string, Bytes>, author: string, message: string,
                    timestamp: string): Commit
  {
    Commit(message, timestamp, author, ParseIndex(index), ParentOf(refs, HeadRef(head)))
  }

  /** `CommitChanges(user, author, message)` as a state transition; the clock reading is
      the parameter `timestamp`. */
  function CommitChanges(s: Repo, user: string, author: string, message: string, timestamp: string,
                         codec: Codec, failing: set<Target>): (r: (Repo, CommitOutcome))
    // commit touches only the objects, the refs and the index
    ensures r.0 == s.(objects := r.0.objects, refs := r.0.refs, index := r.0.index)
    // no index: nothing to commit, nothing changes
    ensures s.index.None? ==> r == (s, NothingToCommit)
    // a refusal or a failure before the object is stored changes nothing
    ensures r.1.NothingToCommit? || r.1.HeadUnreadable? || r.1.EditDenied? || r.1.SaveFailed? ==> r.0 == s
    ensures s.index.Some? && s.head.None? ==> r == (s, HeadUnreadable)
    ensures s.index.Some? && s.head.Some? ==>
              var branch := BranchName(HeadRef(s.head.value));
              !CanAccessBranch(s.policy, user, branch, "edit") ==> r == (s, EditDenied(branch))
    // past the checks, the object store and then the ref write decide the outcome
    ensures s.index.Some? && s.head.Some? && CanAccessBranch(s.policy, user, BranchName(HeadRef(s.head.value)), "edit") ==>
              var saved := PutCommit(s.objects, Snapshot(s.index.value, s.head.value, s.refs, author, message, timestamp),
                                     codec, failing).1;
              && (saved.Err? ==> r == (s, SaveFailed(saved.error)))
              && (saved.Ok? ==> (r.1.Committed? <==> RefFile(HeadRef(s.head.value)) !in failing)
                                && (r.1.Committed? || r.1.RefWriteFailed?))
    // the object is written first: when the ref write fails, ref and index are kept
    ensures r.1.RefWriteFailed? ==>
              && s.index.Some? && s.head.Some?
              && PutCommit(s.objects, Snapshot(s.index.value, s.head.value, s.refs, author, message, timestamp),
                           codec, failing) == (r.0.objects, Ok(r.1.hash))
              && r.0.refs == s.refs && r.0.index == s.index
    // success: object stored, the ref advanced to its hash, and only then the index removed
    ensures r.1.Committed? ==>
              && s.index.Some? && s.head.Some?
              && r.1.branch == BranchName(HeadRef(s.head.value))
              && CanAccessBranch(s.policy, user, r.1.branch, "edit")
              && PutCommit(s.objects, Snapshot(s.index.value, s.head.value, s.refs, author, message, timestamp),
                           codec, failing) == (r.0.objects, Ok(r.1.hash))
              && r.0.refs == s.refs[HeadRef(s.head.value) := r.1.hash]
              && r.0.index.None?
  {
    if s.index.None? then (s, NothingToCommit)
    else if s.head.None? then (s, HeadUnreadable)
    else
      var ref := HeadRef(s.head.value);
      var branch := BranchName(ref);
      if !CanAccessBranch(s.policy, user, branch, "edit") then (s, EditDenied(branch))
      else Advance(s, ref, branch, Snapshot(s.index.value, s.head.value, s.refs, author, message, timestamp),
                   codec, failing)
  }

  /** The second half of a commit: store the object, then point the ref at it and remove the index. */
  function Advance(s: Repo, ref: string, branch: string, c: Commit, codec: Codec, failing: set<Target>)
    : (Repo, CommitOutcome)
  {
    match PutCommit(s.objects, c, codec, failing)
    case (_, Err(e)) => (s, SaveFailed(e))
    case (objects, Ok(h)) =>
      if RefFile(ref) in failing then (s.(objects := objects), RefWriteFailed(h))
      else (s.(objects := objects, refs := s.refs[ref := h], index := None), Committed(branch, h))
  }

  /** What a successful commit leaves behind: the branch points at an object that loads as
      the snapshot of the index, with the arguments as author and message and the old
      branch head (trimmed, or "" when the branch had none) as parent. */
  lemma CommitRecorded(s: Repo, user: string, author: string, message: string, timestamp: string,
                       codec: Codec, failing: set<Target>)
    requires RoundTrips(codec)
    requires CommitChanges(s, user, author, message, timestamp, codec, failing).1.Committed?
    requires CommitChanges(s, user, author, message, timestamp, codec, failing).1.hash !in s.objects
    ensures var (t, out) := CommitChanges(s, user, author, message, timestamp, codec, failing);
            var ref := HeadRef(s.head.value);
            && t.refs[ref] == out.hash
            && (ObjectStat(out.hash) !in failing ==>
                  LoadCommit(t.objects, out.hash, codec) ==
                    Ok(Commit(message, timestamp, author, ParseIndex(s.index.value),
                              if ref in s.refs then TrimSpace(s.refs[ref]) else "")))
            // the stat failing otherwise: the ref names an object that was never written
            && (ObjectStat(out.hash) in failing ==> LoadCommit(t.objects, out.hash, codec) == Err(NotFound))
            && t.index.None?
  {
    var c := Snapshot(s.index.value, s.head.value, s.refs, author, message, timestamp);
    LoadSavedCommit(s.objects, c, codec, failing);
  }

  /** An index that exists but stages nothing still yields a commit, with an empty tree. */
  lemma EmptyIndexCommits(s: Repo, user: string, author: string, message: string, timestamp: string,
                          codec: Codec, failing: set<Target>)
    requires s.index == Some("") && s.head.Some?
    requires CanAccessBranch(s.policy, user, BranchName(HeadRef(s.head.value)), "edit")
    requires codec.marshal(Snapshot("", s.head.value, s.refs, author, message, timestamp)).Some?
    requires failing == {}
    ensures CommitChanges(s, user, author, message, timestamp, codec, failing).1.Committed?
    ensures Snapshot("", s.head.value, s.refs, author, message, timestamp).tree == map[]
  {
  }

  /** A HEAD that names a branch whose name does not end in white space is parsed back to
      that branch. */
  lemma {:induction false} HeadOfBranch(name: string)
    requires name == [] || !IsSpace(name[|name| - 1])
    ensures HeadRef("ref: " + BranchRef(name)) == BranchRef(name)
    ensures BranchName(HeadRef("ref: " + BranchRef(name))) == name
  {
    var ref := BranchRef(name);
    var head := "ref: " + ref;
    assert head[0] == 'r';
    assert head[|head| - 1] == if name == [] then '/' else name[|name| - 1];
    assert Trimmed(head);
    assert HasPrefix(head, "ref: ");
    assert HasPrefix(ref, HeadsPrefix);
  }

  /** `CommitChanges` on the disk: read the index, resolve HEAD, check `edit`, store the
      object, advance the ref, remove the index. */
  method CommitOnDisk(d: Disk, user: string, author: string, message: string, timestamp: string,
                      codec: Codec, failing: set<Target>) returns (out: CommitOutcome)
    modifies d
    ensures (d.State(), out) == CommitChanges(old(d.State()), user, author, message, timestamp, codec, failing)
  {
    ghost var s := d.State();
    if d.index.None? {
      return NothingToCommit;
    }
    var tree := LoadIndex(d.index.value);
    if d.head.None? {
      return HeadUnreadable;
    }
    var ref := HeadRef(d.head.value);
    var branch := BranchName(ref);
    if !CanAccessBranch(d.policy, user, branch, "edit") {
      return EditDenied(branch);
    }
    var parent := "";
    if ref in d.refs {
      parent := TrimSpace(d.refs[ref]);
    }
    var c := Commit(message, timestamp, author, tree, parent);
    assert c == Snapshot(s.index.value, s.head.value, s.refs, author, message, timestamp);
    out := AdvanceOnDisk(d, ref, branch, c, codec, failing);
  }

  /** `Advance` on the disk: save the object, write the ref, remove the index. */
  method AdvanceOnDisk(d: Disk, ref: string, branch: string, c: Commit, codec: Codec, failing: set<Target>)
    returns (out: CommitOutcome)
    modifies d
    ensures (d.State(), out) == Advance(old(d.State()), ref, branch, c, codec, failing)
  {
    var saved := SaveCommit(d, c, codec, failing);
    if saved.Err? {
      return SaveFailed(saved.error);
    }
    if RefFile(ref) in failing {
      return RefWriteFailed(saved.value);
    }
    d.refs := d.refs[ref := saved.value];
    d.index := None;
    return Committed(branch, saved.value);
  }
}
