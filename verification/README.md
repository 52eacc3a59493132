# Gitdock engine, modelled in Dafny

This project models the core of Gitdock (`mygit`), a small version-control engine written in Go.
Its pieces are:

- a write-once, content-addressed object store of blobs and JSON commit records;
- branch refs under `.mygit/refs/heads`;
- a `HEAD` file naming the current branch;
- a text staging index of `<hash> <name>` lines;
- an access mediator with two documents:
  - a role table (`roles.json`), which gates every command;
  - a branch policy (`branch_permissions.json`), which gates creating, viewing and editing branches.

The commands are `init`, `add`, `commit`, `status`, `log`, `branch`, `create-branch` and `checkout`. A dispatcher checks argument counts and permissions before it runs any of them.

The whole repository directory is one value, `Repository.Repo`. It holds:

- the containers `init` creates;
- `objects`;
- `refs`, keyed by their path below `.mygit`;
- `head` and `index`, each `None` when the file is absent;
- the two access documents as parsed;
- the working directory.

`Repository.Disk` is the same state as a class whose fields the commands update in place.

Each command appears twice:

- as a function from a `Repo` to the new `Repo` and an outcome. Its contract and the lemmas beside it state what the command promises.
- as a method on a `Disk` that performs the source's steps in order. It is proved to produce exactly what the function describes.

`branch` is the one exception. It only reads a directory listing, so it has just the function `BranchCmd.Branches`, which the dispatcher calls directly.

The environment enters as parameters:

- the clock reading;
- the directory listing;
- the set of file operations that fail (`failing`): writes, and an object's `os.Stat` failing with an error other than "does not exist";
- SHA-1 and the JSON encoding (`Commits.Codec`).

Two laws are required of the codec, and only where they matter:

- `RoundTrips`: parsing what was serialised gives the commit back.
- `DigestShaped`: every digest is 40 lower-case hex digits.

Hash injectivity is not required of the codec, because no function from all byte strings to 40-digit strings is injective. Where a fresh object matters, the lemmas require instead that the new hash is not in the store yet.

The `log` walk of the source has no step bound. The model walks at most |objects| + 1 steps. `LogCmd.EndlessMeansNonTermination` proves that running out of those steps happens exactly when the source's loop never ends: by pigeonhole, the parent chain has returned to a commit it already visited.

`commit` and `status` trim the ref they read (`Desktop/Gitdock/commands/commit.go:51`, `status.go:33`). `create-branch` trims only HEAD (`create_branch.go:23`) and copies the current ref's bytes as read (`create_branch.go:30-37`). `log` starts its walk from the content of `refs/heads/main` untrimmed (`log.go:14-19`). The model does the same in each case.

## Model

| member | source | states |
|---|---|---|
| `Auth.HasPermission` | Desktop/Gitdock/rbac/auth.go:16-38 | The scan returns true exactly when the roles document was read and parsed and the command is on the list of the user's role; an unlisted user has role "" and no list |
| `Auth.RolesMissingDeniesAll` | Desktop/Gitdock/rbac/auth.go:17-28 | A missing or unparseable roles document denies every command to every user |
| `Auth.UnknownUserDenied` | Desktop/Gitdock/rbac/auth.go:30-37 | A user the roles document does not name is refused every command |
| `Auth.RoleHierarchy` | Desktop/Gitdock/rbac/auth.go:10-14 | The viewer list is inside the developer list, which is inside the admin list; push and pull are on no list but admin's |
| `Auth.CanAccessBranch` | Desktop/Gitdock/rbac/auth.go:59-83 | Allowed when the policy is missing or unparseable; otherwise level `edit` grants every mode, level `view` grants only `view`, anything else denies |
| `Auth.EditImpliesView` | Desktop/Gitdock/rbac/auth.go:74-82 | For every policy, user and branch, being allowed to edit the branch implies being allowed to view it |
| `Auth.NoEntryDenies` | Desktop/Gitdock/rbac/auth.go:74-82 | With a readable policy, a user without an entry for a branch may neither view nor edit it |
| `Text.TrimSpace` | Desktop/Gitdock/commands/commit.go:39 | The result starts and ends with a non-space, text already trimmed is unchanged, and only white space is removed from either end |
| `Text.TrimPrefix` | Desktop/Gitdock/commands/commit.go:39-40 | The prefix followed by the result is the input when the prefix is present; otherwise the input is unchanged |
| `Text.CutAtSpace` | Desktop/Gitdock/commands/commit.go:27-30 | No split exactly when the line holds no space; otherwise hash, one space and name make up the line, and the hash holds no space |
| `Text.CutAtFirstSpace` | Desktop/Gitdock/commands/commit.go:27-30 | A line built as hash, space, name splits back into that hash and name when the hash holds no space |
| `Text.ScanLinesAppend` | Desktop/Gitdock/commands/commit.go:25-26 | Scanning text that ends a line and then more text gives the lines of each in turn |
| `Objects.PutBlob` | Desktop/Gitdock/storage/objects.go:12-30 | An unreadable path is an error and stores nothing. The hash is H(file bytes). An existing object is never rewritten. A stat error other than "does not exist" skips the write and still returns the hash. A failed write is an error instead of a hash. Otherwise exactly the file's bytes are stored under the hash, no other key changes, and content addressing is kept |
| `Objects.BlobDedup` | Desktop/Gitdock/storage/objects.go:21-27 | A save reports a hash it did not store exactly when that object's stat failed. Once the object is stored, saving the same file again returns the same hash and writes nothing, even when writes would fail |
| `Objects.EqualContentEqualHash` | Desktop/Gitdock/storage/objects.go:18 | Two files with equal entries get the same result from the blob save, whatever it is (hash and store, or the same error) |
| `Objects.SaveBlob` | Desktop/Gitdock/storage/objects.go:12-30 | The read, stat and write sequence on the disk changes only `objects`, exactly as `PutBlob` describes |
| `Objects.DigestHasNoBlank` | Desktop/Gitdock/storage/objects.go:18 | A hex digest holds no space and no newline, so it cannot break an index line |
| `Objects.DigestTrimmed` | Desktop/Gitdock/storage/objects.go:18 | Trimming white space leaves a hex digest unchanged |
| `Commits.PutCommit` | Desktop/Gitdock/storage/commit.go:19-36 | A commit that does not serialise is an error and writes nothing. The hash is H(serialised bytes). The write is write-once with the same stat, failure and dedup cases as blobs. No stored object is removed or rewritten |
| `Commits.EqualCommitsEqualHashes` | Desktop/Gitdock/storage/commit.go:20-25 | Commits with equal fields, timestamp included, get equal hashes whatever the store holds |
| `Commits.LoadCommit` | Desktop/Gitdock/storage/commit.go:38-52 | A missing object gives NotFound and bytes that do not parse give Corrupt; a stored object that parses gives Ok with exactly what it parses to |
| `Commits.LoadSavedCommit` | Desktop/Gitdock/storage/commit.go:19-52 | Round trip: after a successful save, loading the returned hash gives the commit back, when the name held nothing else before and the object's stat did not fail. When that stat failed on a new name, loading gives NotFound |
| `Commits.SaveCommit` | Desktop/Gitdock/storage/commit.go:19-36 | The disk version changes only `objects`, exactly as `PutCommit` describes |
| `IndexFile.StagedNames` | Desktop/Gitdock/commands/commit.go:25-31 | A name is staged exactly when some scanned line splits at a space into a hash and that name |
| `IndexFile.StagedLastWins` | Desktop/Gitdock/commands/commit.go:25-31 | A staged name carries the hash of the last line that names it |
| `IndexFile.AppendStages` | Desktop/Gitdock/commands/add.go:25-36 | Appending one `<hash> <name>` line stages that name with that hash, leaves every other entry as it was, and still ends a line |
| `IndexFile.LoadIndex` | Desktop/Gitdock/commands/commit.go:23-31 | The scanning loop builds exactly the parsed index map |
| `AddCmd.Add` | Desktop/Gitdock/commands/add.go:10-39 | A missing file changes nothing. Only objects and index can change. A failed blob save changes nothing. A failed index write keeps the index. On success the index is the old one followed by one line carrying the hash the blob save returned. For a present path, a failed blob save reports that error, and otherwise the outcome is Added exactly when the index write does not fail, IndexFailed when it does |
| `AddCmd.AddSucceeds` | Desktop/Gitdock/commands/add.go:10-39 | With no failing write, adding a readable file reports Added with the SHA-1 of its bytes |
| `AddCmd.AddStagesFile` | Desktop/Gitdock/commands/add.go:18-36 | After an add, the staged hash is H(current bytes) and every other staged entry is unchanged |
| `AddCmd.AddTwiceLastWins` | Desktop/Gitdock/commands/add.go:25-33 | Adding a name twice keeps both lines, and reading the index gives the second hash |
| `AddCmd.AddFile` | Desktop/Gitdock/commands/add.go:10-39 | The disk version performs the existence check, the blob save and the index append in that order, ending exactly as `Add` describes |
| `CommitCmd.CommitChanges` | Desktop/Gitdock/commands/commit.go:14-79 | No index: nothing to commit and no change. A refusal, a missing HEAD or a failed save changes nothing. An edit refusal is keyed on the branch name derived from HEAD. A failed ref write keeps the ref and the index but leaves the object stored. Success stores the object, advances the ref to its hash and only then removes the index. Nothing else changes. An index without HEAD reports HeadUnreadable. Once editing is granted, a failed object save reports SaveFailed, and otherwise the outcome is Committed exactly when the ref write does not fail, RefWriteFailed when it does |
| `CommitCmd.CommitRecorded` | Desktop/Gitdock/commands/commit.go:49-76 | After a commit the ref holds the hash. The object loads as the parsed index, the given author and message, and the old branch head (trimmed, or "" when absent) as parent, unless the object's stat failed, in which case the ref names an object that loads as NotFound. The index is gone |
| `CommitCmd.EmptyIndexCommits` | Desktop/Gitdock/commands/commit.go:16-31 | An index that exists but stages nothing still commits, with an empty tree |
| `CommitCmd.HeadOfBranch` | Desktop/Gitdock/commands/commit.go:39-40 | HEAD `ref: refs/heads/<name>` resolves to that ref and that branch name, for a name not ending in white space |
| `CommitCmd.CommitOnDisk` | Desktop/Gitdock/commands/commit.go:14-79 | The disk version makes the same steps in the same order and ends exactly as `CommitChanges` describes |
| `CommitCmd.AdvanceOnDisk` | Desktop/Gitdock/commands/commit.go:62-78 | The save, the ref write and the index removal, stopping at the first failed write, leave the disk and the outcome exactly as `CommitChanges` prescribes for them |
| `StatusCmd.LastTree` | Desktop/Gitdock/commands/status.go:30-37 | The tree always comes from `refs/heads/main`, trimmed; it is empty when the ref is missing or the commit does not load |
| `StatusCmd.Classify` | Desktop/Gitdock/commands/status.go:62-72 | Modified (staged) exactly when staged with another hash. Modified (not staged) exactly when unstaged and committed with another hash. Untracked exactly when neither. No line exactly when the deciding hash matches |
| `StatusCmd.DeletedNotListed` | Desktop/Gitdock/commands/status.go:48-79 | A name reported on a classification line is never also reported as deleted |
| `StatusCmd.AddedNotDeleted` | Desktop/Gitdock/commands/status.go:75-79 | A name that was just added successfully is not reported as deleted by the next status |
| `StatusCmd.LinesSound` | Desktop/Gitdock/commands/status.go:48-73 | Every line is about a listed regular file other than `.mygit`, and its category is that file's classification |
| `StatusCmd.LinesComplete` | Desktop/Gitdock/commands/status.go:48-73 | Every listed regular file that is not clean gets its line |
| `StatusCmd.OneLinePerFile` | Desktop/Gitdock/commands/status.go:48-73 | With a listing that names each entry once, no two lines are about the same file |
| `StatusCmd.StagedCopyIsClean` | Desktop/Gitdock/commands/status.go:62-65 | A file whose bytes hash to its staged hash is not reported |
| `StatusCmd.AddedFileIsClean` | Desktop/Gitdock/commands/status.go:62-65 | Right after a successful add, the added file is not reported |
| `StatusCmd.UnstagedAgainstLastTree` | Desktop/Gitdock/commands/status.go:66-72 | With nothing staged, a file is reported only when the last tree lacks it or records other bytes for it |
| `StatusCmd.CommittedTreeIsLast` | Desktop/Gitdock/commands/status.go:30-37 | After a commit on `main`, nothing is staged, and the tree status compares against is exactly what was staged; it is empty when the object's stat failed and nothing was written |
| `StatusCmd.CollectDeleted` | Desktop/Gitdock/commands/status.go:75-79 | The loop over the staged names collects exactly the deleted ones |
| `StatusCmd.ClassifyListing` | Desktop/Gitdock/commands/status.go:48-73 | The loop over the listing emits exactly the classification lines, in listing order |
| `StatusCmd.ShowStatus` | Desktop/Gitdock/commands/status.go:14-80 | The disk version writes nothing and reports exactly the lines and deleted names of the model, or the listing error |
| `LogCmd.Walk` | Desktop/Gitdock/commands/log.go:21-45 | At most one record per step, and a walk never reports "no commits" |
| `LogCmd.Log` | Desktop/Gitdock/commands/log.go:12-46 | A missing `refs/heads/main` gives "no commits" and no records |
| `LogCmd.WalkFollowsParents` | Desktop/Gitdock/commands/log.go:21-45 | Records are emitted head first; each later record is the parent of the one before and shows its commit's fields. The walk ends at the hash after the last record: "" (done), a missing or corrupt object (earlier records kept), or a further commit when out of steps |
| `LogCmd.EndlessMeansNonTermination` | Desktop/Gitdock/commands/log.go:21-45 | Running out of the |objects| + 1 steps means running out of any number of steps, so the source's loop does not terminate |
| `LogCmd.WalkChain` | Desktop/Gitdock/commands/log.go:21-45 | A chain of N commits ending in a root yields exactly its N records, the last the root's, and ends normally |
| `LogCmd.LogOfMissingHead` | Desktop/Gitdock/commands/log.go:19-27 | When `refs/heads/main` names an object that is not stored, `log` prints no record and stops with that object missing |
| `LogCmd.ChainFitsStore` | Desktop/Gitdock/commands/log.go:21-45 | The hashes of a parent chain are pairwise different, so a chain is no longer than the store |
| `LogCmd.LogShowsHistory` | Desktop/Gitdock/commands/log.go:12-46 | For a `main` history that is a chain, log prints exactly that history head first; without the ref it prints nothing |
| `LogCmd.CommitExtendsHistory` | Desktop/Gitdock/commands/commit.go:49-73 | A commit on `main` under a fresh hash puts that hash in front of the history; when the object's stat failed, `log` stops at once with the object missing |
| `LogCmd.ShowLog` | Desktop/Gitdock/commands/log.go:12-46 | The `for current != ""` loop on the disk writes nothing and produces exactly the model's records and ending |
| `CreateBranchCmd.CreateBranch` | Desktop/Gitdock/commands/create_branch.go:10-44 | Refusal, a missing HEAD, an invalid HEAD, a missing current ref or a failed write change nothing. Success sets the new ref to the untrimmed bytes of the ref HEAD names, overwriting any old value. Only that ref changes. Once creation is allowed: no HEAD reports HeadMissing; a valid HEAD whose ref is absent reports NoCurrentCommit; with that ref present the outcome is Created exactly when the branch write does not fail, BranchWriteFailed when it does |
| `CreateBranchCmd.UnlistedUserCannotCreate` | Desktop/Gitdock/rbac/auth.go:40-57 | With a readable policy, a user it does not list is refused with CreateDenied and nothing changes |
| `CreateBranchCmd.UnreadablePolicyNeverDenies` | Desktop/Gitdock/rbac/auth.go:40-48 | A missing or unparseable policy never gives CreateDenied |
| `CreateBranchCmd.CreateSucceeds` | Desktop/Gitdock/commands/create_branch.go:10-44 | With creation allowed, a valid HEAD, its ref present and no failing write, the new ref gets the current ref's bytes and the outcome is Created |
| `CreateBranchCmd.NewBranchSharesParent` | Desktop/Gitdock/commands/create_branch.go:30-37 | A commit on the new branch would get the same parent as one on the current branch |
| `CreateBranchCmd.CreateTwice` | Desktop/Gitdock/commands/create_branch.go:36-37 | Creating the same branch again from the same place succeeds and changes nothing more |
| `CreateBranchCmd.CreateBranchOnDisk` | Desktop/Gitdock/commands/create_branch.go:10-44 | The disk version changes only `refs`, exactly as `CreateBranch` describes |
| `CheckoutCmd.Checkout` | Desktop/Gitdock/commands/checkout.go:10-29 | A view refusal, a missing branch or a failed write changes nothing. Success sets HEAD to exactly `ref: refs/heads/<name>` with no newline. Only HEAD changes |
| `CheckoutCmd.CheckoutThenCommitTarget` | Desktop/Gitdock/commands/checkout.go:22 | After checkout, commit resolves HEAD to that branch and would commit on top of its current commit |
| `CheckoutCmd.EditorsMayCheckout` | Desktop/Gitdock/commands/checkout.go:11-14 | A user who may edit an existing branch may check it out |
| `CheckoutCmd.CheckoutOnDisk` | Desktop/Gitdock/commands/checkout.go:10-29 | The disk version changes only `head`, exactly as `Checkout` describes |
| `InitCmd.Init` | Desktop/Gitdock/commands/init.go:8-15 | The three directories exist afterwards. HEAD is overwritten with `ref: refs/heads/main` and a newline whatever it held, unless that write fails. Objects, refs (no ref for `main`) and the index are untouched |
| `InitCmd.InitIdempotent` | Desktop/Gitdock/commands/init.go:9-12 | Running init twice is the same as running it once |
| `InitCmd.InitHeadNamesMain` | Desktop/Gitdock/commands/init.go:12 | The HEAD init writes resolves, under commit's trimming, to `refs/heads/main` and branch `main` |
| `InitCmd.InitOnDisk` | Desktop/Gitdock/commands/init.go:8-15 | The disk version changes only the containers and HEAD, exactly as `Init` describes |
| `BranchCmd.BranchesListRefs` | Desktop/Gitdock/commands/branch.go:8-18 | With `refs/heads` present, the listing holds exactly the names whose branch ref exists |
| `Cli.Route` | Desktop/Gitdock/main.go:11-71 | Fewer than 3 arguments give the usage line. The permission gate decides next, before any command including init. For a permitted command: init, status, log and branch run whatever follows; add, create-branch and checkout run with 4 or more arguments, taking argument 3, and answer with their usage line otherwise; push and pull reach "unknown command", and only they can. Commit runs with 5 or more arguments, passing arguments 3 and 4, and answers with its usage line otherwise (the corrected count; see Findings) |
| `Cli.RouteAsWritten` | Desktop/Gitdock/main.go:37-42 | As written, a permitted commit with fewer than 6 arguments is answered with the usage line, and one with 6 or more runs with arguments 3 and 4; so a permitted 5-argument commit gets the usage line |
| `Cli.CommitUsageRejected` | Desktop/Gitdock/main.go:37-42 | `mygit commit <user> <author> <message>`, as the usage line spells it, is rejected as written and commits with the corrected count |
| `Cli.RoutesAgreeElsewhere` | Desktop/Gitdock/main.go:26-69 | The two dispatchers differ only on 5-argument commit |
| `Cli.Step` | Desktop/Gitdock/main.go:11-71 | Without the arguments or the permission nothing runs and nothing changes. Each routed command ends exactly as its own model describes (`Init`, `Add`, `CommitChanges`, `CreateBranch`, `Checkout`) and reports that outcome; status, log and branch change nothing and report what `Status`, `Log` and `Branches` compute. No command writes the access documents or the working directory |
| `Cli.ShortArgsChangeNothing` | Desktop/Gitdock/main.go:30-65 | add, create-branch or checkout without their argument, and commit without its author or message, run nothing and change nothing |
| `Cli.PushPullChangeNothing` | Desktop/Gitdock/main.go:26-69 | push and pull change nothing, and a permitted one is answered "unknown command" |
| `Cli.NoRolesNothingRuns` | Desktop/Gitdock/main.go:21-24 | Without a readable roles document no command runs, init included |
| `Cli.ViewersChangeNothing` | Desktop/Gitdock/main.go:21-24 | A viewer's run never changes the repository |
| `Cli.DevelopersKeepHead` | Desktop/Gitdock/main.go:21-24 | A developer's run never changes HEAD |
| `Cli.Run` | Desktop/Gitdock/main.go:11-71 | The dispatcher on the disk runs the `HasPermission` loop and then the command's method, ending exactly as `Step` describes |

## Left out

- SHA-1 and the JSON encoding are not modelled. They are the `Codec` parameter, and the model relies only on the round trip and the digest shape, where a lemma needs them.
- The clock is a parameter: `time.Now().Format(time.RFC3339)` is the `timestamp` argument.
- Console text and emoji are not modelled. Each command's outcome is a datatype value instead.
- Errors from the three directory creations in init are ignored by the source. The model takes the directories to exist afterwards.
- Writing into a missing directory fails in the source. The model does not tie this to `containers`; the `failing` set stands in for every write failure and for every object stat error.
- A stat error other than "does not exist" is modelled only for objects. On a ref path it would let checkout switch to the branch (`Desktop/Gitdock/commands/checkout.go:17`). On a staged name it keeps the name out of the deleted list (`status.go:76`). Refs and working-directory entries are either present or absent in the model.
- `Text.TrimSpace` trims only ASCII white space; Go's `strings.TrimSpace` also trims Unicode spaces.
- The line scanner's 64 KiB token limit and read errors in the middle of the index are not modelled.
- The directory listing that `status` walks is a parameter, and so is its read failure. `ioutil.ReadDir` returns the entries sorted by name; the model does not sort them, and its lemmas hold for a listing in any order.
- A file that `os.Stat` finds but that cannot be read is the `Unreadable` entry: `status` skips it on its lines and does not report it deleted, and `add` answers with the blob-save error.
- `Cli.Step` and `Cli.Run` follow `Cli.Route`, the corrected five-argument rule for commit (see Findings). As written, `main.go` answers a permitted five-argument commit with the usage line and changes nothing; `Cli.RouteAsWritten` states that behaviour.
- `CommitCmd.CommitRecorded`, `StatusCmd.CommittedTreeIsLast` and `LogCmd.CommitExtendsHistory` require the commit hash to be new to the store. They do not rely on SHA-1 having no collisions.
- `Commits.LoadCommit` returns only the error on failure, not the zero `Commit` that the source returns beside it; no caller uses that value.
- Ref paths are keys of the `refs` map. The model does not capture HEAD naming a file other than a ref (HEAD itself, the index or an object), a ref path naming a directory, or branch names that contain `/` or `..`.
- `CheckoutCmd.Checkout` treats a name whose path is a directory as a missing branch. The source's `os.Stat` finds such a directory, including `refs/heads` itself for the empty name.
- `BranchCmd.Branches` returns a set of names. The source prints them in directory order, and a nested ref appears there as its first path component.
- Removing the index after a commit always succeeds in the model. The source ignores that error.
- A write that fails part-way, and any interleaving of concurrent runs, are not modelled; the source has neither locking nor crash atomicity.
- `push` and `pull` appear only in the role table. The source implements no such command.
- `Desktop/server.js` (an HTTP and blockchain gateway) is not part of this model.

## Findings

| source | as written | input that shows it | evidently intended | confidence | as-written member | corrected member |
|---|---|---|---|---|---|---|
| Desktop/Gitdock/main.go:37-42 | `commit` is refused unless `len(os.Args) >= 6`, yet it uses only arguments 3 and 4, and its usage line is `mygit commit <username> <author> <message>` | `mygit commit alice alice "first"` (five arguments) by a user allowed to commit prints the usage line and commits nothing | five arguments suffice: `len(os.Args) < 5` | high; not executed | `Cli.RouteAsWritten` (shown by `Cli.CommitUsageRejected`) | `Cli.Route` (used by `Cli.Step` and `Cli.Run`) |
