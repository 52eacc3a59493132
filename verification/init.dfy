/** `init`, commands/init.go: create the repository directories and point HEAD at `main`.
    Every error is ignored. */
module InitCmd {
  import opened Wrappers
  import opened Text
  import opened Repository
  import opened CommitCmd

  /** What init writes to HEAD. */
  const InitHead: Bytes := "ref: refs/heads/main\n"

  const AllContainers: set<Container> := {RepoDir, RefsHeadsDir, ObjectsDir}

  /** `InitRepo()` as a state transition: the directories exist afterwards, HEAD is
      overwritten unless that write fails, and nothing else changes (no ref for `main`). */
  function Init(s: Repo, failing: set<Target>): (r: Repo)
    ensures AllContainers <= r.containers
    ensures r.containers - AllContainers == s.containers - AllContainers
    ensures HeadFile !in failing ==> r.head == Some(InitHead)
    ensures HeadFile in failing ==> r.head == s.head
    ensures r.(containers := s.containers, head := s.head) == s
  {
    s.(containers := s.containers + AllContainers,
       head := if HeadFile in failing then s.head else Some(InitHead))
  }

  /** Running init again changes nothing more. */
  lemma InitIdempotent(s: Repo, failing: set<Target>)
    ensures Init(Init(s, failing), failing) == Init(s, failing)
  {
  }

  /** The HEAD init writes names branch `main` as commit reads it. */
  lemma InitHeadNamesMain()
    ensures HeadRef(InitHead) == MainRef
    ensures BranchName(HeadRef(InitHead)) == "main"
  {
    var trimmed := "ref: " + BranchRef("main");
    assert InitHead == trimmed + "\n";
    assert Trimmed(trimmed) by {
      assert trimmed[0] == 'r' && trimmed[|trimmed| - 1] == 'n';
    }
    TrimNewline(trimmed);
    assert HeadRef(InitHead) == HeadRef(trimmed);
    HeadOfBranch("main");
  }

  /** `InitRepo` on the disk. */
  method InitOnDisk(d: Disk, failing: set<Target>)
    modifies d`containers, d`head
    ensures d.State() == Init(old(d.State()), failing)
  {
    d.containers := d.containers + {RepoDir};
    d.containers := d.containers + {RefsHeadsDir};
    d.containers := d.containers + {ObjectsDir};
    if HeadFile !in failing {
      d.head := Some(InitHead);
    }
  }
}
