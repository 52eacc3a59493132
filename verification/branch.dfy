/** `branch`, commands/branch.go: list the entries of `.mygit/refs/heads`. */
module BranchCmd {
  import opened Wrappers
  import opened Text
  import opened Repository
  import opened CreateBranchCmd

  /** The branch names, `None` when the directory cannot be read. */
  function Branches(s: Repo): Option<set<string>> {
    if RefsHeadsDir !in s.containers then None
    else Some(set p | p in s.refs && HasPrefix(p, HeadsPrefix) :: p[|HeadsPrefix|..])
  }

  /** The listing holds exactly the names whose branch ref exists. */
  lemma BranchesListRefs(s: Repo, name: string)
    requires RefsHeadsDir in s.containers
    ensures Branches(s).Some?
    ensures name in Branches(s).value <==> BranchRef(name) in s.refs
  {
    var p := BranchRef(name);
    assert p[..|HeadsPrefix|] == HeadsPrefix && p[|HeadsPrefix|..] == name;
    if name in Branches(s).value {
      var q :| q in s.refs && HasPrefix(q, HeadsPrefix) && q[|HeadsPrefix|..] == name;
      assert q == q[..|HeadsPrefix|] + q[|HeadsPrefix|..];
    }
  }
}
