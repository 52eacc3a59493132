/** `checkout <name>`, commands/checkout.go: point HEAD at an existing branch. */
module CheckoutCmd {
  import opened Wrappers
  import opened Text
  import opened Repository
  import opened Auth
  import opened CommitCmd
  import opened CreateBranchCmd

  datatype CheckoutOutcome =
    | SwitchedTo(name: string)
    | ViewDenied              // the policy refuses `view` on the branch
    | NoSuchBranch            // "Branch does not exist"
    | HeadWriteFailed         // "Error switching branch"

  /** What checkout writes to HEAD: no trailing newline. */
  function HeadFor(name: string): Bytes {
    "ref: " + BranchRef(name)
  }

  /** `Checkout(user, name)` as a state transition. */
  function Checkout(s: Repo, user: string, name: string, failing: set<Target>): (r: (Repo, CheckoutOutcome))
    // only HEAD can change
    ensures r.0 == s.(head := r.0.head)
    ensures !r.1.SwitchedTo? ==> r.0 == s
    ensures !CanAccessBranch(s.policy, user, name, "view") ==> r == (s, ViewDenied)
    ensures CanAccessBranch(s.policy, user, name, "view") && BranchRef(name) !in s.refs ==> r == (s, NoSuchBranch)
    // a viewable, existing branch: only the HEAD write can fail
    ensures CanAccessBranch(s.policy, user, name, "view") && BranchRef(name) in s.refs ==>
              (r.1.SwitchedTo? <==> HeadFile !in failing) && (r.1.SwitchedTo? || r.1 == HeadWriteFailed)
    ensures r.1.SwitchedTo? ==>
              && r.1.name == name
              && CanAccessBranch(s.policy, user, name, "view") && BranchRef(name) in s.refs
              && r.0.head == Some(HeadFor(name))
  {
    if !CanAccessBranch(s.policy, user, name, "view") then (s, ViewDenied)
    else if BranchRef(name) !in s.refs then (s, NoSuchBranch)
    else if HeadFile in failing then (s, HeadWriteFailed)
    else (s.(head := Some(HeadFor(name))), SwitchedTo(name))
  }

  /** After checkout, commit resolves HEAD to that branch (for a name that does not end in
      white space, which trimming would drop) and commits on top of its current commit. */
  lemma CheckoutThenCommitTarget(s: Repo, user: string, name: string, failing: set<Target>)
    requires name == [] || !IsSpace(name[|name| - 1])
    requires Checkout(s, user, name, failing).1.SwitchedTo?
    ensures var t := Checkout(s, user, name, failing).0;
            && HeadRef(t.head.value) == BranchRef(name)
            && BranchName(HeadRef(t.head.value)) == name
            && ParentOf(t.refs, HeadRef(t.head.value)) == TrimSpace(s.refs[BranchRef(name)])
  {
    HeadOfBranch(name);
  }

  /** A user who may edit a branch may check it out, when it exists and HEAD can be written. */
  lemma EditorsMayCheckout(s: Repo, user: string, name: string)
    requires CanAccessBranch(s.policy, user, name, "edit") && BranchRef(name) in s.refs
    ensures Checkout(s, user, name, {}).1 == SwitchedTo(name)
  {
    EditImpliesView(s.policy, user, name);
  }

  /** `Checkout` on the disk. */
  method CheckoutOnDisk(d: Disk, user: string, name: string, failing: set<Target>) returns (out: CheckoutOutcome)
    modifies d`head
    ensures (d.State(), out) == Checkout(old(d.State()), user, name, failing)
  {
    if !CanAccessBranch(d.policy, user, name, "view") {
      return ViewDenied;
    }
    if BranchRef(name) !in d.refs {
      return NoSuchBranch;
    }
    if HeadFile in failing {
      return HeadWriteFailed;
    }
    d.head := Some(HeadFor(name));
    return SwitchedTo(name);
  }
}
