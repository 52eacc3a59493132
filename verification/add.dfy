/** `add <file>`, commands/add.go: store the file as a blob and append one line to the index. */
module AddCmd {
  import opened Wrappers
  import opened Text
  import opened Repository
  import opened Objects
  import opened IndexFile

  datatype AddOutcome =
    | Added(hash: Hash)            // blob stored, index line appended
    | FileMissing                  // "File does not exist"
    | BlobFailed(error: Failure)   // "Error saving blob"
    | IndexFailed(hash: Hash)      // the blob was stored but the index could not be written

  /** `AddFile(name)` as a state transition. */
  function Add(s: Repo, name: string, sha1: Hasher, failing: set<Target>): (r: (Repo, AddOutcome))
    // a missing file changes nothing
    ensures name !in s.workdir ==> r == (s, FileMissing)
    // add never changes HEAD, the refs, the configuration or the working directory
    ensures r.0 == s.(objects := r.0.objects, index := r.0.index)
    ensures r.1.BlobFailed? ==> r.0 == s
    // an existing entry goes to SaveBlob: its error is reported as is, and after a
    // successful save only the index write decides between success and failure
    ensures name in s.workdir ==>
              var saved := PutBlob(s.workdir, s.objects, name, sha1, failing).1;
              && (saved.Err? ==> r.1 == BlobFailed(saved.error))
              && (saved.Ok? ==> (r.1.Added? <==> IndexFile !in failing) && (r.1.Added? || r.1.IndexFailed?))
    ensures r.1.IndexFailed? ==>
              r.0.index == s.index && PutBlob(s.workdir, s.objects, name, sha1, failing) == (r.0.objects, Ok(r.1.hash))
    // on success the index is the old one followed by one line carrying the hash SaveBlob returned
    ensures r.1.Added? ==>
              && PutBlob(s.workdir, s.objects, name, sha1, failing) == (r.0.objects, Ok(r.1.hash))
              && r.0.index == Some(s.index.GetOr("") + IndexLine(r.1.hash, name))
  {
    if name !in s.workdir then (s, FileMissing)
    else
      match PutBlob(s.workdir, s.objects, name, sha1, failing)
      case (_, Err(e)) => (s, BlobFailed(e))
      case (objects, Ok(h)) =>
        if IndexFile in failing then (s.(objects := objects), IndexFailed(h))
        else (s.(objects := objects, index := Some(s.index.GetOr("") + IndexLine(h, name))), Added(h))
  }

  /** An index `add` can have written: absent, or text that ends a line. */
  predicate IndexWellEnded(index: Option<Bytes>) {
    index.None? || EndsLine(index.value)
  }

  /** After a successful add, reading the index stages the file under the hash of its
      current bytes; every other staged entry is unchanged. */
  lemma {:induction false} AddStagesFile(s: Repo, name: string, sha1: Hasher, failing: set<Target>)
    requires DigestShaped(sha1)
    requires LineSafe(name)
    requires IndexWellEnded(s.index)
    requires Add(s, name, sha1, failing).1.Added?
    ensures var (t, out) := Add(s, name, sha1, failing);
            && out.hash == sha1(s.workdir[name].content)
            && t.index.Some? && IndexWellEnded(t.index)
            && ParseIndex(t.index.value) == ParseIndex(s.index.GetOr(""))[name := out.hash]
  {
    var (t, out) := Add(s, name, sha1, failing);
    DigestHasNoBlank(out.hash);
    AppendStages(s.index.GetOr(""), out.hash, name);
  }

  /** Adding the same name twice keeps both lines, and reading the index gives the hash of
      the second add (the file may have changed in between). */
  lemma AddTwiceLastWins(s: Repo, name: string, edited: map<string, Entry>, sha1: Hasher,
                         failing: set<Target>, failing': set<Target>)
    requires DigestShaped(sha1)
    requires LineSafe(name)
    requires IndexWellEnded(s.index)
    requires Add(s, name, sha1, failing).1.Added?
    requires Add(Add(s, name, sha1, failing).0.(workdir := edited), name, sha1, failing').1.Added?
    ensures var (t, first) := Add(s, name, sha1, failing);
            var (u, second) := Add(t.(workdir := edited), name, sha1, failing');
            && u.index == Some(s.index.GetOr("") + IndexLine(first.hash, name) + IndexLine(second.hash, name))
            && name in ParseIndex(u.index.value) && ParseIndex(u.index.value)[name] == second.hash
  {
    var (t, first) := Add(s, name, sha1, failing);
    AddStagesFile(s, name, sha1, failing);
    AddStagesFile(t.(workdir := edited), name, sha1, failing');
  }

  /** Adding a readable file succeeds when no write fails, and stages the hash of its bytes. */
  lemma AddSucceeds(s: Repo, name: string, sha1: Hasher)
    requires name in s.workdir && s.workdir[name].File?
    ensures Add(s, name, sha1, {}).1 == Added(sha1(s.workdir[name].content))
  {
  }

  /** `AddFile` on the disk: existence check, blob save, index append, in that order. */
  method AddFile(d: Disk, name: string, sha1: Hasher, failing: set<Target>) returns (out: AddOutcome)
    modifies d
    ensures (d.State(), out) == Add(old(d.State()), name, sha1, failing)
  {
    if name !in d.workdir {
      return FileMissing;
    }
    var saved := SaveBlob(d, name, sha1, failing);
    if saved.Err? {
      return BlobFailed(saved.error);
    }
    if IndexFile in failing {
      return IndexFailed(saved.value);
    }
    d.index := Some(d.index.GetOr("") + IndexLine(saved.value, name));
    return Added(saved.value);
  }
}
