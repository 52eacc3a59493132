/** The state every command works on: the working directory and the `.mygit` repository
    directory beneath it. `Repo` is its value; `Disk` holds it as fields that the commands
    update in place. */
module Repository {
  import opened Wrappers
  import opened Text
  import opened Auth

  /** A 40-character hex object name. */
  type Hash = string

  /** An entry of the working directory: a regular file and its bytes, a directory, or a
      file that exists (`os.Stat` finds it) but whose bytes cannot be read. */
  datatype Entry = File(content: Bytes) | Directory | Unreadable

  /** The three directories that `init` creates. */
  datatype Container = RepoDir | RefsHeadsDir | ObjectsDir

  /** A file operation a command may make; the environment decides which of them fail.
      `ObjectStat(h)` is the `os.Stat` of object `h` failing with an error other than
      "does not exist"; the others are writes of the file they name. */
  datatype Target = ObjectFile(hash: Hash) | ObjectStat(hash: Hash) | RefFile(path: string) | HeadFile | IndexFile

  /** Where branch refs live, below `.mygit`. */
  const HeadsPrefix := "refs/heads/"

  /** The ref path of branch `name`. */
  function BranchRef(name: string): string {
    HeadsPrefix + name
  }

  /** The ref `status` and `log` always read, whatever HEAD names. */
  const MainRef := BranchRef("main")

  /** The repository as found on disk.
      - `objects`: `.mygit/objects/<hash>` -> the stored bytes;
      - `refs`: reference files keyed by their path below `.mygit` (`refs/heads/main`);
      - `head`: the bytes of `.mygit/HEAD`, `None` when it is absent;
      - `index`: the bytes of `.mygit/index`, `None` when it is absent;
      - `roles`, `policy`: the two access documents as parsed;
      - `workdir`: the files and directories reachable from the working directory, by path. */
  datatype Repo = Repo(
    containers: set<Container>,
    objects: map<Hash, Bytes>,
    refs: map<string, Bytes>,
    head: Option<Bytes>,
    index: Option<Bytes>,
    roles: RolesFile,
    policy: PolicyFile,
    workdir: map<string, Entry>)

  /** The repository directory, updated in place by the commands. */
  class Disk {
    var containers: set<Container>
    var objects: map<Hash, Bytes>
    var refs: map<string, Bytes>
    var head: Option<Bytes>
    var index: Option<Bytes>
    var roles: RolesFile
    var policy: PolicyFile
    var workdir: map<string, Entry>

    function State(): Repo
      reads this
    {
      Repo(containers, objects, refs, head, index, roles, policy, workdir)
    }

    /** The disk as a command finds it. */
    constructor (s: Repo)
      ensures State() == s
    {
      containers, objects, refs, head := s.containers, s.objects, s.refs, s.head;
      index, roles, policy, workdir := s.index, s.roles, s.policy, s.workdir;
    }
  }
}
