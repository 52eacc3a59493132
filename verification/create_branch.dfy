/** `create-branch <name>`, commands/create_branch.go: copy the bytes of the ref HEAD names
    to `refs/heads/<name>`. */
module CreateBranchCmd {
  import opened Wrappers
  import opened Text
  import opened Repository
  import opened Auth
  import opened CommitCmd

  datatype CreateOutcome =
    | Created(name: string)
    | CreateDenied            // the policy refuses new branches to this user
    | HeadMissing             // "Error reading HEAD"
    | InvalidHead             // HEAD, trimmed, does not start with `ref: `
    | NoCurrentCommit         // the ref HEAD names cannot be read
    | BranchWriteFailed       // "Error creating branch"

  /** `CreateBranch(user, name)` as a state transition. */
  function CreateBranch(s: Repo, user: string, name: string, failing: set<Target>): (r: (Repo, CreateOutcome))
    // only the refs can change, and only at the new branch's path
    ensures r.0 == s.(refs := r.0.refs)
    ensures forall p :: p != BranchRef(name) ==> (p in r.0.refs <==> p in s.refs) &&
                                                  (p in s.refs ==> r.0.refs[p] == s.refs[p])
    ensures !r.1.Created? ==> r.0 == s
    ensures !CanCreateBranch(s.policy, user) ==> r == (s, CreateDenied)
    ensures CanCreateBranch(s.policy, user) && s.head.None? ==> r == (s, HeadMissing)
    ensures CanCreateBranch(s.policy, user) && s.head.Some? && !HasPrefix(TrimSpace(s.head.value), "ref: ") ==>
              r == (s, InvalidHead)
    // a valid HEAD: the current ref must exist, then only the write can fail
    ensures CanCreateBranch(s.policy, user) && s.head.Some? && HasPrefix(TrimSpace(s.head.value), "ref: ") ==>
              && (HeadRef(s.head.value) !in s.refs ==> r == (s, NoCurrentCommit))
              && (HeadRef(s.head.value) in s.refs ==>
                    (r.1.Created? <==> RefFile(BranchRef(name)) !in failing)
                    && (r.1.Created? || r.1 == BranchWriteFailed))
    // success: the new ref holds exactly the bytes of the current ref, whatever it held before
    ensures r.1.Created? ==>
              && r.1.name == name
              && CanCreateBranch(s.policy, user)
              && s.head.Some? && HasPrefix(TrimSpace(s.head.value), "ref: ")
              && HeadRef(s.head.value) in s.refs
              && r.0.refs == s.refs[BranchRef(name) := s.refs[HeadRef(s.head.value)]]
  {
    if !CanCreateBranch(s.policy, user) then (s, CreateDenied)
    else if s.head.None? then (s, HeadMissing)
    else
      var current := TrimSpace(s.head.value);
      if !HasPrefix(current, "ref: ") then (s, InvalidHead)
      else
        var ref := TrimPrefix(current, "ref: ");
        if ref !in s.refs then (s, NoCurrentCommit)
        else if RefFile(BranchRef(name)) in failing then (s, BranchWriteFailed)
        else (s.(refs := s.refs[BranchRef(name) := s.refs[ref]]), Created(name))
  }

  /** A new branch starts at the current commit: a commit on it gets the same parent as a
      commit on the current branch would. */
  lemma NewBranchSharesParent(s: Repo, user: string, name: string, failing: set<Target>)
    requires CreateBranch(s, user, name, failing).1.Created?
    ensures var t := CreateBranch(s, user, name, failing).0;
            ParentOf(t.refs, BranchRef(name)) == ParentOf(s.refs, HeadRef(s.head.value))
  {
  }

  /** Creating a branch twice from the same place is the same as creating it once. */
  lemma CreateTwice(s: Repo, user: string, name: string, failing: set<Target>)
    requires CreateBranch(s, user, name, failing).1.Created?
    ensures var t := CreateBranch(s, user, name, failing).0;
            CreateBranch(t, user, name, failing) == (t, Created(name))
  {
    var t := CreateBranch(s, user, name, failing).0;
    var ref := HeadRef(s.head.value);
    assert t.head == s.head && t.policy == s.policy;
    assert ref in t.refs && t.refs[ref] == s.refs[ref];
    assert t.refs[BranchRef(name) := t.refs[ref]] == t.refs;
  }

  /** With a readable policy, a user it does not name may not create branches, and nothing changes. */
  lemma UnlistedUserCannotCreate(s: Repo, user: string, name: string, failing: set<Target>)
    requires s.policy.createView.Some? && user !in s.policy.createView.value
    ensures CreateBranch(s, user, name, failing) == (s, CreateDenied)
  {
  }

  /** An unreadable policy never refuses a new branch: the check fails open. */
  lemma UnreadablePolicyNeverDenies(s: Repo, user: string, name: string, failing: set<Target>)
    requires s.policy.createView.None?
    ensures CreateBranch(s, user, name, failing).1 != CreateDenied
  {
  }

  /** A permitted user with a valid HEAD whose ref exists creates the branch when the write succeeds. */
  lemma CreateSucceeds(s: Repo, user: string, name: string)
    requires CanCreateBranch(s.policy, user)
    requires s.head.Some? && HasPrefix(TrimSpace(s.head.value), "ref: ") && HeadRef(s.head.value) in s.refs
    ensures CreateBranch(s, user, name, {}) == (s.(refs := s.refs[BranchRef(name) := s.refs[HeadRef(s.head.value)]]), Created(name))
  {
  }

  /** `CreateBranch` on the disk. */
  method CreateBranchOnDisk(d: Disk, user: string, name: string, failing: set<Target>) returns (out: CreateOutcome)
    modifies d`refs
    ensures (d.State(), out) == CreateBranch(old(d.State()), user, name, failing)
  {
    if !CanCreateBranch(d.policy, user) {
      return CreateDenied;
    }
    if d.head.None? {
      return HeadMissing;
    }
    var current := TrimSpace(d.head.value);
    if !HasPrefix(current, "ref: ") {
      return InvalidHead;
    }
    var ref := TrimPrefix(current, "ref: ");
    if ref !in d.refs {
      return NoCurrentCommit;
    }
    var commitHash := d.refs[ref];
    if RefFile(BranchRef(name)) in failing {
      return BranchWriteFailed;
    }
    d.refs := d.refs[BranchRef(name) := commitHash];
    return Created(name);
  }
}
