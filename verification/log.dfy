/** `log`, commands/log.go: walk the parent links from the head of `main`, emitting one
    record per commit, head first, until a commit whose parent is "". The walk is given
    |objects| + 1 steps; running out of them is proved to mean that the source's loop
    never ends (the chain has come back to a commit it already visited). */
module LogCmd {
  import opened Wrappers
  import opened Text
  import opened Repository
  import opened Objects
  import opened Commits
  import opened IndexFile
  import opened CommitCmd

  /** What the loop prints for one commit. */
  datatype LogRecord = LogRecord(hash: Hash, author: string, timestamp: string, message: string)

  datatype LogEnd =
    | Reached                  // a commit with parent "" was printed last
    | NoCommits                // `refs/heads/main` is missing
    | MissingObject(hash: Hash) // "Failed to read commit object"
    | CorruptObject(hash: Hash) // "Corrupted commit object"
    | Endless                  // the parent links form a cycle: the source never stops

  /** The loop makes a step from `h`: it is not "", names an object, and that object parses. */
  predicate Live(objects: map<Hash, Bytes>, codec: Codec, h: Hash) {
    h != "" && h in objects && codec.unmarshal(objects[h]).Some?
  }

  function CommitAt(objects: map<Hash, Bytes>, codec: Codec, h: Hash): Commit
    requires Live(objects, codec, h)
  {
    codec.unmarshal(objects[h]).value
  }

  function RecordOf(h: Hash, c: Commit): LogRecord {
    LogRecord(h, c.author, c.timestamp, c.message)
  }

  /** The walk from `current` with at most `fuel` steps. */
  function Walk(objects: map<Hash, Bytes>, codec: Codec, current: Hash, fuel: nat): (r: (seq<LogRecord>, LogEnd))
    ensures |r.0| <= fuel && r.1 != NoCommits
    decreases fuel
  {
    if current == "" then ([], Reached)
    else if fuel == 0 then ([], Endless)
    else if current !in objects then ([], MissingObject(current))
    else match codec.unmarshal(objects[current])
      case None => ([], CorruptObject(current))
      case Some(c) =>
        var (rest, end) := Walk(objects, codec, c.parent, fuel - 1);
        ([RecordOf(current, c)] + rest, end)
  }

  /** `ShowLog` as a function of the repository: the ref content, untrimmed, is the first key. */
  function Log(s: Repo, codec: Codec): (r: (seq<LogRecord>, LogEnd))
    ensures MainRef !in s.refs ==> r == ([], NoCommits)
    ensures MainRef in s.refs ==> r.1 != NoCommits && |r.0| <= |s.objects| + 1
  {
    if MainRef !in s.refs then ([], NoCommits)
    else Walk(s.objects, codec, s.refs[MainRef], |s.objects| + 1)
  }

  /** The hash reached after `k` steps from `h`, if the first `k` steps can be made. */
  function Nth(objects: map<Hash, Bytes>, codec: Codec, h: Hash, k: nat): Option<Hash>
    decreases k
  {
    if k == 0 then Some(h)
    else if Live(objects, codec, h) then Nth(objects, codec, CommitAt(objects, codec, h).parent, k - 1)
    else None
  }

  /** How a walk ends at hash `v` after emitting its records. */
  function EndAt(objects: map<Hash, Bytes>, v: Hash, exhausted: bool): LogEnd {
    if v == "" then Reached
    else if exhausted then Endless
    else if v !in objects then MissingObject(v)
    else CorruptObject(v)
  }

  /** What the walk emits: record `i` describes the commit `i` steps from the start, each
      record after the first is the parent of the one before, and the walk ends at the hash
      after the last record: "" (done), a missing object, an unparseable one, or, with no
      steps left, a further commit. Records emitted before an error are kept. */
  lemma {:induction false} WalkFollowsParents(objects: map<Hash, Bytes>, codec: Codec, current: Hash, fuel: nat)
    ensures var (records, end) := Walk(objects, codec, current, fuel);
            && |records| <= fuel
            && (forall i :: 0 <= i < |records| ==>
                  && Nth(objects, codec, current, i) == Some(records[i].hash)
                  && Live(objects, codec, records[i].hash)
                  && records[i] == RecordOf(records[i].hash, CommitAt(objects, codec, records[i].hash)))
            && Nth(objects, codec, current, |records|).Some?
            && var v := Nth(objects, codec, current, |records|).value;
               && end == EndAt(objects, v, |records| == fuel)
               && (v != "" && |records| < fuel ==> !Live(objects, codec, v))
    decreases fuel
  {
    if current != "" && fuel != 0 && current in objects && codec.unmarshal(objects[current]).Some? {
      var c := codec.unmarshal(objects[current]).value;
      WalkFollowsParents(objects, codec, c.parent, fuel - 1);
      var (rest, end) := Walk(objects, codec, c.parent, fuel - 1);
      var records := [RecordOf(current, c)] + rest;
      assert Walk(objects, codec, current, fuel) == (records, end);
      forall i | 0 <= i < |records|
        ensures Nth(objects, codec, current, i) == Some(records[i].hash)
      {
        if i > 0 { assert records[i] == rest[i - 1]; }
      }
    }
  }

  // ---- Divergence ------------------------------------------------------------------

  lemma {:induction false} NthCompose(objects: map<Hash, Bytes>, codec: Codec, h: Hash, a: nat, b: nat)
    ensures Nth(objects, codec, h, a + b) ==
              if Nth(objects, codec, h, a).Some? then Nth(objects, codec, Nth(objects, codec, h, a).value, b) else None
    decreases a
  {
    if a > 0 && Live(objects, codec, h) {
      NthCompose(objects, codec, CommitAt(objects, codec, h).parent, a - 1, b);
    }
  }

  /** Every hash strictly before a reachable position was a step the loop made. */
  lemma NthPrefixLive(objects: map<Hash, Bytes>, codec: Codec, h: Hash, k: nat, j: nat)
    requires j < k && Nth(objects, codec, h, k).Some?
    ensures Nth(objects, codec, h, j).Some? && Live(objects, codec, Nth(objects, codec, h, j).value)
  {
    NthCompose(objects, codec, h, j, k - j);
  }

  /** The hashes at the reachable positions before `n`. */
  function Visited(objects: map<Hash, Bytes>, codec: Codec, h: Hash, n: nat): set<Hash> {
    if n == 0 then {}
    else
      var earlier := Visited(objects, codec, h, n - 1);
      match Nth(objects, codec, h, n - 1)
      case Some(v) => earlier + {v}
      case None => earlier
  }

  /** A hash that differs from every position before `n` was not visited. */
  lemma {:induction false} VisitedFresh(objects: map<Hash, Bytes>, codec: Codec, h: Hash, n: nat, v: Hash)
    requires forall k :: 0 <= k < n ==> Nth(objects, codec, h, k) != Some(v)
    ensures v !in Visited(objects, codec, h, n)
  {
    if n > 0 {
      VisitedFresh(objects, codec, h, n - 1, v);
    }
  }

  /** Positions that hold stored objects visit only stored objects. */
  lemma {:induction false} VisitedStored(objects: map<Hash, Bytes>, codec: Codec, h: Hash, n: nat)
    requires forall k :: 0 <= k < n ==> Nth(objects, codec, h, k).Some? && Nth(objects, codec, h, k).value in objects
    ensures Visited(objects, codec, h, n) <= objects.Keys
  {
    if n > 0 {
      VisitedStored(objects, codec, h, n - 1);
    }
  }

  /** If the first `n` positions are reachable and pairwise different, `n` hashes were visited. */
  lemma {:induction false} VisitedCount(objects: map<Hash, Bytes>, codec: Codec, h: Hash, n: nat)
    requires forall k :: 0 <= k < n ==> Nth(objects, codec, h, k).Some?
    requires forall i, j :: 0 <= i < j < n ==> Nth(objects, codec, h, i) != Nth(objects, codec, h, j)
    ensures |Visited(objects, codec, h, n)| == n
  {
    if n > 0 {
      VisitedCount(objects, codec, h, n - 1);
      var last := Nth(objects, codec, h, n - 1);
      VisitedFresh(objects, codec, h, n - 1, last.value);
    }
  }

  lemma SubsetCard<T>(a: set<T>, b: set<T>)
    requires a <= b
    ensures |a| <= |b|
  {
    assert b == a + (b - a);
  }

  /** Pigeonhole: a walk that can make |objects| + 1 steps visits some commit twice. */
  lemma {:induction false} RepeatWithin(objects: map<Hash, Bytes>, codec: Codec, h: Hash)
    requires Nth(objects, codec, h, |objects| + 1).Some?
    ensures exists i, j :: 0 <= i < j <= |objects| && Nth(objects, codec, h, i) == Nth(objects, codec, h, j)
  {
    var n := |objects| + 1;
    forall k | 0 <= k < n ensures Nth(objects, codec, h, k).Some? && Nth(objects, codec, h, k).value in objects {
      NthPrefixLive(objects, codec, h, n, k);
    }
    if forall i, j :: 0 <= i < j < n ==> Nth(objects, codec, h, i) != Nth(objects, codec, h, j) {
      VisitedCount(objects, codec, h, n);
      VisitedStored(objects, codec, h, n);
      SubsetCard(Visited(objects, codec, h, n), objects.Keys);
      assert false;
    }
  }

  /** After a repeat at positions i < j, every position is reachable and not "". */
  lemma {:induction false} CycleGoesOn(objects: map<Hash, Bytes>, codec: Codec, h: Hash, i: nat, j: nat, m: nat)
    requires i < j
    requires Nth(objects, codec, h, j).Some? && Nth(objects, codec, h, i) == Nth(objects, codec, h, j)
    requires forall k :: 0 <= k < j ==> Nth(objects, codec, h, k).Some? && Live(objects, codec, Nth(objects, codec, h, k).value)
    ensures Nth(objects, codec, h, m).Some? && Nth(objects, codec, h, m).value != ""
    decreases m
  {
    if m >= j {
      var v := Nth(objects, codec, h, j).value;
      NthCompose(objects, codec, h, j, m - j);
      NthCompose(objects, codec, h, i, m - j);
      assert m - j + i < m;
      CycleGoesOn(objects, codec, h, i, j, m - j + i);
    }
  }

  /** Running out of steps means divergence: the source's loop, which has no step bound,
      never terminates from this ref, whatever bound is tried. */
  lemma EndlessMeansNonTermination(objects: map<Hash, Bytes>, codec: Codec, h: Hash, fuel: nat)
    requires Walk(objects, codec, h, |objects| + 1).1 == Endless
    ensures Walk(objects, codec, h, fuel).1 == Endless
  {
    var n := |objects| + 1;
    WalkFollowsParents(objects, codec, h, n);
    RepeatWithin(objects, codec, h);
    var i, j :| 0 <= i < j <= |objects| && Nth(objects, codec, h, i) == Nth(objects, codec, h, j);
    forall k | 0 <= k < j ensures Nth(objects, codec, h, k).Some? && Live(objects, codec, Nth(objects, codec, h, k).value) {
      NthPrefixLive(objects, codec, h, n, k);
    }
    WalkFollowsParents(objects, codec, h, fuel);
    var len := |Walk(objects, codec, h, fuel).0|;
    CycleGoesOn(objects, codec, h, i, j, len);
    CycleGoesOn(objects, codec, h, i, j, len + 1);
    if len < fuel {
      NthPrefixLive(objects, codec, h, len + 1, len);
    }
  }

  // ---- Chains of commits -----------------------------------------------------------

  /** `hs` is a parent chain: each commit's parent is the next hash, the last one's is "". */
  predicate IsChain(objects: map<Hash, Bytes>, codec: Codec, hs: seq<Hash>) {
    forall i :: 0 <= i < |hs| ==>
      Live(objects, codec, hs[i]) && CommitAt(objects, codec, hs[i]).parent == Next(hs, i)
  }

  /** The hash after position `i` of `hs`, "" after the last. */
  function Next(hs: seq<Hash>, i: nat): Hash {
    if i + 1 < |hs| then hs[i + 1] else ""
  }

  /** The records a chain produces, head first. */
  predicate RecordsOf(objects: map<Hash, Bytes>, codec: Codec, hs: seq<Hash>, records: seq<LogRecord>)
    requires IsChain(objects, codec, hs)
  {
    |records| == |hs| && forall i :: 0 <= i < |hs| ==> records[i] == RecordOf(hs[i], CommitAt(objects, codec, hs[i]))
  }

  lemma ChainSuffix(objects: map<Hash, Bytes>, codec: Codec, hs: seq<Hash>, n: nat)
    requires IsChain(objects, codec, hs) && n <= |hs|
    ensures IsChain(objects, codec, hs[n..])
  {
    var tail := hs[n..];
    forall k | 0 <= k < |tail|
      ensures Live(objects, codec, tail[k]) &&
              CommitAt(objects, codec, tail[k]).parent == Next(tail, k)
    {
      assert tail[k] == hs[n + k];
      if k + 1 < |tail| { assert tail[k + 1] == hs[n + k + 1]; }
    }
  }

  /** A chain of N commits ending in a root yields exactly N records, the last one the root's. */
  lemma {:induction false} WalkChain(objects: map<Hash, Bytes>, codec: Codec, hs: seq<Hash>, fuel: nat)
    requires hs != [] && IsChain(objects, codec, hs)
    requires fuel >= |hs|
    ensures var (records, end) := Walk(objects, codec, hs[0], fuel);
            end == Reached && RecordsOf(objects, codec, hs, records)
  {
    assert Live(objects, codec, hs[0]) && CommitAt(objects, codec, hs[0]).parent == Next(hs, 0);
    var c := CommitAt(objects, codec, hs[0]);
    if |hs| == 1 {
      assert c.parent == "";
    } else {
      var tail := hs[1..];
      ChainSuffix(objects, codec, hs, 1);
      WalkChain(objects, codec, tail, fuel - 1);
      assert c.parent == tail[0];
    }
  }

  /** The hashes of a chain are pairwise different, so a chain is no longer than the store. */
  lemma ChainFitsStore(objects: map<Hash, Bytes>, codec: Codec, hs: seq<Hash>)
    requires IsChain(objects, codec, hs)
    ensures |hs| <= |objects|
  {
    forall i, j | 0 <= i < j < |hs| ensures hs[i] != hs[j] {
      if hs[i] == hs[j] {
        var si, sj := hs[i..], hs[j..];
        ChainSuffix(objects, codec, hs, i);
        ChainSuffix(objects, codec, hs, j);
        WalkChain(objects, codec, si, |hs|);
        WalkChain(objects, codec, sj, |hs|);
        assert false;
      }
    }
    var elems := set i | 0 <= i < |hs| :: hs[i];
    DistinctCount(hs);
    SubsetCard(elems, objects.Keys);
  }

  lemma {:induction false} DistinctCount(hs: seq<Hash>)
    requires forall i, j :: 0 <= i < j < |hs| ==> hs[i] != hs[j]
    ensures |set i | 0 <= i < |hs| :: hs[i]| == |hs|
  {
    if hs != [] {
      var init := hs[..|hs| - 1];
      DistinctCount(init);
      assert (set i | 0 <= i < |hs| :: hs[i]) == (set i | 0 <= i < |init| :: init[i]) + {hs[|hs| - 1]};
    }
  }

  /** The history of `main`: no ref and no commits, or a ref holding the head of a chain
      of digests. */
  predicate MainHistory(s: Repo, codec: Codec, hs: seq<Hash>) {
    && (forall i :: 0 <= i < |hs| ==> IsDigest(hs[i]))
    && if hs == [] then MainRef !in s.refs
       else MainRef in s.refs && s.refs[MainRef] == hs[0] && IsChain(s.objects, codec, hs)
  }

  /** Chains survive the store growing, and a new commit whose parent is a chain's head
      (or "" for an empty chain) heads a longer chain. */
  lemma {:induction false} ChainGrows(objects: map<Hash, Bytes>, objects': map<Hash, Bytes>, codec: Codec,
                                      hs: seq<Hash>, h: Hash)
    requires IsChain(objects, codec, hs) && Extends(objects, objects')
    requires Live(objects', codec, h)
    requires CommitAt(objects', codec, h).parent == (if hs == [] then "" else hs[0])
    ensures IsChain(objects', codec, [h] + hs)
  {
    var hs' := [h] + hs;
    forall i | 0 <= i < |hs'|
      ensures Live(objects', codec, hs'[i]) && CommitAt(objects', codec, hs'[i]).parent == Next(hs', i)
    {
      if i > 0 {
        assert hs'[i] == hs[i - 1] && Live(objects, codec, hs[i - 1]);
        assert Next(hs', i) == Next(hs, i - 1);
      }
    }
  }

  /** Moving `main` to a stored commit whose parent is the old head (trimmed) extends the
      history by that commit. */
  lemma HistoryGrows(s: Repo, t: Repo, codec: Codec, hs: seq<Hash>, h: Hash, c: Commit)
    requires MainHistory(s, codec, hs) && Extends(s.objects, t.objects)
    requires MainRef in t.refs && t.refs[MainRef] == h && IsDigest(h)
    requires LoadCommit(t.objects, h, codec) == Ok(c) && c.parent == ParentOf(s.refs, MainRef)
    ensures MainHistory(t, codec, [h] + hs)
  {
    if hs != [] {
      DigestTrimmed(hs[0]);
    }
    ChainGrows(s.objects, t.objects, codec, hs, h);
    var hs' := [h] + hs;
    forall i | 0 <= i < |hs'| ensures IsDigest(hs'[i]) {
      if i > 0 { assert hs'[i] == hs[i - 1]; }
    }
  }

  /** A `main` ref naming an object that is not stored: `log` prints nothing and stops on it. */
  lemma LogOfMissingHead(s: Repo, codec: Codec)
    requires MainRef in s.refs && s.refs[MainRef] != "" && s.refs[MainRef] !in s.objects
    ensures Log(s, codec) == ([], MissingObject(s.refs[MainRef]))
  {
  }

  /** A commit on `main` under a fresh hash puts that hash in front of the history; when the
      commit object's stat failed and nothing was written, `log` stops at once on it. */
  lemma CommitExtendsHistory(s: Repo, user: string, author: string, message: string, timestamp: string,
                             codec: Codec, failing: set<Target>, hs: seq<Hash>)
    requires RoundTrips(codec) && DigestShaped(codec.sha1)
    requires MainHistory(s, codec, hs)
    requires s.head.Some? && HeadRef(s.head.value) == MainRef
    requires CommitChanges(s, user, author, message, timestamp, codec, failing).1.Committed?
    requires CommitChanges(s, user, author, message, timestamp, codec, failing).1.hash !in s.objects
    ensures var (t, out) := CommitChanges(s, user, author, message, timestamp, codec, failing);
            && (ObjectStat(out.hash) !in failing ==> MainHistory(t, codec, [out.hash] + hs))
            && (ObjectStat(out.hash) in failing ==> Log(t, codec) == ([], MissingObject(out.hash)))
  {
    var (t, out) := CommitChanges(s, user, author, message, timestamp, codec, failing);
    CommitRecorded(s, user, author, message, timestamp, codec, failing);
    if ObjectStat(out.hash) !in failing {
      var c := Commit(message, timestamp, author, ParseIndex(s.index.value), ParentOf(s.refs, MainRef));
      HistoryGrows(s, t, codec, hs, out.hash, c);
    } else {
      var c := Snapshot(s.index.value, s.head.value, s.refs, author, message, timestamp);
      assert out.hash == codec.sha1(codec.marshal(c).value);
      assert IsDigest(out.hash);
      assert LoadCommit(t.objects, out.hash, codec) == Err(NotFound);
      LogOfMissingHead(t, codec);
    }
  }

  /** `log` prints the whole history of `main`, head first, and nothing else. */
  lemma LogShowsHistory(s: Repo, codec: Codec, hs: seq<Hash>)
    requires MainHistory(s, codec, hs)
    ensures var (records, end) := Log(s, codec);
            if hs == [] then end == NoCommits && records == []
            else end == Reached && RecordsOf(s.objects, codec, hs, records)
  {
    if hs != [] {
      ChainFitsStore(s.objects, codec, hs);
      WalkChain(s.objects, codec, hs, |s.objects| + 1);
    }
  }

  /** `ShowLog` on the disk: the `for current != ""` loop. */
  method ShowLog(d: Disk, codec: Codec) returns (records: seq<LogRecord>, end: LogEnd)
    ensures (records, end) == Log(d.State(), codec)
  {
    if MainRef !in d.refs {
      return [], NoCommits;
    }
    var start := d.refs[MainRef];
    var bound := |d.objects| + 1;
    var current := start;
    var fuel: nat := bound;
    records := [];
    assert records + Walk(d.objects, codec, current, fuel).0 == Walk(d.objects, codec, current, fuel).0;
    while current != ""
      invariant Walk(d.objects, codec, start, bound) ==
                  (records + Walk(d.objects, codec, current, fuel).0, Walk(d.objects, codec, current, fuel).1)
      decreases fuel
    {
      if fuel == 0 {
        return records, Endless;
      }
      assert records + [] == records;
      if current !in d.objects {
        return records, MissingObject(current);
      }
      var parsed := codec.unmarshal(d.objects[current]);
      if parsed.None? {
        return records, CorruptObject(current);
      }
      var c := parsed.value;
      var rest := Walk(d.objects, codec, c.parent, fuel - 1);
      assert Walk(d.objects, codec, current, fuel) == ([RecordOf(current, c)] + rest.0, rest.1);
      assert records + ([RecordOf(current, c)] + rest.0) == (records + [RecordOf(current, c)]) + rest.0;
      records := records + [RecordOf(current, c)];
      current := c.parent;
      fuel := fuel - 1;
    }
    assert records + [] == records;
    return records, Reached;
  }
}
