/** Commit records and their storage, `storage/commit.go`. JSON is not modelled: the
    serialiser and the parser are parameters, required where it matters to round-trip. */
module Commits {
  import opened Wrappers
  import opened Text
  import opened Repository
  import opened Objects

  /** A commit: `tree` maps file names to blob hashes, `parent` is "" for a root commit. */
  datatype Commit = Commit(message: string, timestamp: string, author: string, tree: map<string, Hash>, parent: Hash)

  /** The hash function and the JSON encoding of commits: `marshal` is
      `json.MarshalIndent(c, "", "  ")`, `unmarshal` is `json.Unmarshal` into a `Commit`. */
  datatype Codec = Codec(sha1: Hasher, marshal: Commit -> Option<Bytes>, unmarshal: Bytes -> Option<Commit>)

  /** Parsing what was serialised gives the commit back. */
  ghost predicate RoundTrips(codec: Codec) {
    forall c :: codec.marshal(c).Some? ==> codec.unmarshal(codec.marshal(c).value) == Some(c)
  }

  /** `SaveCommit`: serialise, hash the serialised bytes, store them unless an object of
      that name exists, and return the hash. */
  function PutCommit(objects: map<Hash, Bytes>, c: Commit, codec: Codec, failing: set<Target>)
    : (r: (map<Hash, Bytes>, Result<Hash>))
    // a commit that cannot be serialised is an error and stores nothing
    ensures codec.marshal(c).None? ==> r == (objects, Err(Corrupt))
    ensures codec.marshal(c).Some? ==>
              var data := codec.marshal(c).value;
              var h := codec.sha1(data);
              && (h in objects ==> r == (objects, Ok(h)))
              // a stat error other than "does not exist" skips the write, yet the hash is returned
              && (ObjectStat(h) in failing ==> r == (objects, Ok(h)))
              && (h !in objects && ObjectStat(h) !in failing && ObjectFile(h) in failing ==> r == (objects, Err(Io)))
              && (h !in objects && ObjectStat(h) !in failing && ObjectFile(h) !in failing ==>
                    r == (objects[h := data], Ok(h)))
    ensures ContentAddressed(objects, codec.sha1) ==> ContentAddressed(r.0, codec.sha1)
    // write-once: no stored object is removed or rewritten
    ensures Extends(objects, r.0)
  {
    match codec.marshal(c)
    case None => (objects, Err(Corrupt))
    case Some(data) =>
      var h := codec.sha1(data);
      match WriteOnce(objects, h, data, failing)
      case None => (objects, Err(Io))
      case Some(stored) => (stored, Ok(h))
  }

  /** Commits with equal fields, timestamp included, get equal hashes. */
  lemma EqualCommitsEqualHashes(objects: map<Hash, Bytes>, objects': map<Hash, Bytes>, c: Commit, c': Commit,
                                codec: Codec, failing: set<Target>, failing': set<Target>)
    requires c == c'
    requires PutCommit(objects, c, codec, failing).1.Ok? && PutCommit(objects', c', codec, failing').1.Ok?
    ensures PutCommit(objects, c, codec, failing).1 == PutCommit(objects', c', codec, failing').1
  {
  }

  /** `LoadCommit`: read the object and parse it as a commit. */
  function LoadCommit(objects: map<Hash, Bytes>, h: Hash, codec: Codec): (r: Result<Commit>)
    ensures h !in objects ==> r == Err(NotFound)
    ensures h in objects && codec.unmarshal(objects[h]).None? ==> r == Err(Corrupt)
    ensures h in objects && codec.unmarshal(objects[h]).Some? ==> r == Ok(codec.unmarshal(objects[h]).value)
    ensures r.Ok? ==> h in objects && codec.unmarshal(objects[h]) == Some(r.value)
  {
    if h !in objects then Err(NotFound)
    else match codec.unmarshal(objects[h])
      case None => Err(Corrupt)
      case Some(c) => Ok(c)
  }

  /** Round trip: loading the hash that saving returned gives the commit back, provided the
      name was free or already held these very bytes, and the object was written. When the
      stat of a new name fails, the save reports the hash all the same, and loading it
      finds nothing. */
  lemma LoadSavedCommit(objects: map<Hash, Bytes>, c: Commit, codec: Codec, failing: set<Target>)
    requires RoundTrips(codec)
    requires codec.marshal(c).Some?
    requires var data := codec.marshal(c).value;
             codec.sha1(data) in objects ==> objects[codec.sha1(data)] == data
    requires PutCommit(objects, c, codec, failing).1.Ok?
    ensures var (stored, h) := PutCommit(objects, c, codec, failing);
            && (h.value in objects || ObjectStat(h.value) !in failing ==> LoadCommit(stored, h.value, codec) == Ok(c))
            && (h.value !in objects && ObjectStat(h.value) in failing ==> LoadCommit(stored, h.value, codec) == Err(NotFound))
  {
    var data := codec.marshal(c).value;
    assert codec.unmarshal(data) == Some(c);
  }

  /** `SaveCommit` on the disk. */
  method SaveCommit(d: Disk, c: Commit, codec: Codec, failing: set<Target>) returns (res: Result<Hash>)
    modifies d`objects
    ensures (d.objects, res) == PutCommit(old(d.objects), c, codec, failing)
  {
    var encoded := codec.marshal(c);
    if encoded.None? {
      return Err(Corrupt);
    }
    var data := encoded.value;
    var h := codec.sha1(data);
    if h !in d.objects && ObjectStat(h) !in failing {
      if ObjectFile(h) in failing {
        return Err(Io);
      }
      d.objects := d.objects[h := data];
    }
    return Ok(h);
  }
}
