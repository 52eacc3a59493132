/** The write-once, content-addressed object store of `storage/objects.go`. SHA-1 is not
    modelled: the hash function is a parameter, required where it matters to yield 40
    lower-case hex digits. */
module Objects {
  import opened Wrappers
  import opened Text
  import opened Repository

  type Hasher = Bytes -> Hash

  predicate IsHexDigit(c: char) {
    '0' <= c <= '9' || 'a' <= c <= 'f'
  }

  /** What `fmt.Sprintf("%x", sha1.Sum(b))` yields: 40 lower-case hex digits. */
  predicate IsDigest(h: Hash) {
    |h| == 40 && forall k :: 0 <= k < |h| ==> IsHexDigit(h[k])
  }

  /** What the model needs of SHA-1: every result is a 40-digit lower-case hex string. */
  ghost predicate DigestShaped(sha1: Hasher) {
    forall b :: IsDigest(sha1(b))
  }

  /** A hex digest holds neither a space nor a newline, so it cannot break an index line. */
  lemma DigestHasNoBlank(h: Hash)
    requires IsDigest(h)
    ensures ' ' !in h && '\n' !in h
  {
  }

  /** Trimming white space leaves a digest as it is, so a ref holding one names it exactly. */
  lemma DigestTrimmed(h: Hash)
    requires IsDigest(h)
    ensures TrimSpace(h) == h
  {
    assert IsHexDigit(h[0]) && IsHexDigit(h[|h| - 1]);
  }

  /** Every stored object sits under the hash of its own bytes. */
  predicate ContentAddressed(objects: map<Hash, Bytes>, sha1: Hasher) {
    forall h :: h in objects ==> sha1(objects[h]) == h
  }

  /** Every object of `before` is in `after` with the same bytes. */
  predicate Extends(before: map<Hash, Bytes>, after: map<Hash, Bytes>) {
    forall h :: h in before ==> h in after && after[h] == before[h]
  }

  /** Stat the object path and write only when the stat says it does not exist: `None` when
      that write fails. A stat that fails otherwise skips the write without an error. */
  function WriteOnce(objects: map<Hash, Bytes>, h: Hash, data: Bytes, failing: set<Target>): Option<map<Hash, Bytes>> {
    if h in objects || ObjectStat(h) in failing then Some(objects)
    else if ObjectFile(h) in failing then None
    else Some(objects[h := data])
  }

  /** `SaveBlob(path)`: read the file, hash its bytes, store them under the hash unless an
      object of that name exists, and return the hash. */
  function PutBlob(workdir: map<string, Entry>, objects: map<Hash, Bytes>, path: string, sha1: Hasher,
                   failing: set<Target>): (r: (map<Hash, Bytes>, Result<Hash>))
    // an unreadable source file is an error and stores nothing
    ensures path !in workdir ==> r == (objects, Err(NotFound))
    ensures path in workdir && !workdir[path].File? ==> r == (objects, Err(Io))
    ensures path in workdir && workdir[path].File? ==>
              var data := workdir[path].content;
              var h := sha1(data);
              // an existing object is never rewritten
              && (h in objects ==> r == (objects, Ok(h)))
              // a stat error other than "does not exist" skips the write, yet the hash is returned
              && (ObjectStat(h) in failing ==> r == (objects, Ok(h)))
              // a failed write is an error instead of a hash
              && (h !in objects && ObjectStat(h) !in failing && ObjectFile(h) in failing ==> r == (objects, Err(Io)))
              // otherwise exactly the file's bytes are stored under their hash, nothing else
              && (h !in objects && ObjectStat(h) !in failing && ObjectFile(h) !in failing ==>
                    r == (objects[h := data], Ok(h)))
    ensures ContentAddressed(objects, sha1) ==> ContentAddressed(r.0, sha1)
    // write-once: no stored object is removed or rewritten
    ensures Extends(objects, r.0)
  {
    if path !in workdir then (objects, Err(NotFound))
    else match workdir[path]
      case Directory => (objects, Err(Io))
      case Unreadable => (objects, Err(Io))
      case File(data) =>
        var h := sha1(data);
        match WriteOnce(objects, h, data, failing)
        case None => (objects, Err(Io))
        case Some(stored) => (stored, Ok(h))
  }

  /** Storing the same content again returns the same hash and writes nothing. A save
      reports a hash it did not store only when that object's stat failed. */
  lemma BlobDedup(workdir: map<string, Entry>, objects: map<Hash, Bytes>, path: string, sha1: Hasher,
                  failing: set<Target>, failing': set<Target>)
    requires PutBlob(workdir, objects, path, sha1, failing).1.Ok?
    ensures var (stored, h) := PutBlob(workdir, objects, path, sha1, failing);
            && (h.value !in stored <==> h.value !in objects && ObjectStat(h.value) in failing)
            && (h.value in stored ==> PutBlob(workdir, stored, path, sha1, failing') == (stored, h))
  {
  }

  /** Files with equal bytes are stored under equal names. */
  lemma EqualContentEqualHash(workdir: map<string, Entry>, objects: map<Hash, Bytes>, p: string, q: string,
                              sha1: Hasher, failing: set<Target>)
    requires p in workdir && q in workdir && workdir[p] == workdir[q]
    ensures PutBlob(workdir, objects, q, sha1, failing) == PutBlob(workdir, objects, p, sha1, failing)
  {
  }

  /** `SaveBlob` on the disk: the check-then-write sequence of objects.go. */
  method SaveBlob(d: Disk, path: string, sha1: Hasher, failing: set<Target>) returns (res: Result<Hash>)
    modifies d`objects
    ensures (d.objects, res) == PutBlob(d.workdir, old(d.objects), path, sha1, failing)
  {
    if path !in d.workdir {
      return Err(NotFound);
    }
    if !d.workdir[path].File? {
      return Err(Io);
    }
    var data := d.workdir[path].content;
    var h := sha1(data);
    if h !in d.objects && ObjectStat(h) !in failing {
      if ObjectFile(h) in failing {
        return Err(Io);
      }
      d.objects := d.objects[h := data];
    }
    return Ok(h);
  }
}
