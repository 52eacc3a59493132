/** The dispatcher of main.go: `mygit <command> <username> [args...]`. Every command is
    gated on the argument count and on `HasPermission`, then runs one operation. */
module Cli {
  import opened Wrappers
  import opened Text
  import opened Repository
  import opened Auth
  import opened Commits
  import opened AddCmd
  import opened CommitCmd
  import opened StatusCmd
  import opened LogCmd
  import opened CreateBranchCmd
  import opened CheckoutCmd
  import opened InitCmd
  import opened BranchCmd

  /** What the dispatcher decides to do with the arguments (`args[0]` is the program). */
  datatype Action =
    | ShowUsage                          // fewer than 3 arguments
    | Refuse(user: string, cmd: string)  // "Access denied"
    | MissingArgs(cmd: string)           // the command's own usage line
    | Unknown(cmd: string)               // "Unknown command"
    | DoInit
    | DoAdd(file: string)
    | DoCommit(user: string, author: string, message: string)
    | DoStatus
    | DoLog
    | DoBranch
    | DoCreateBranch(user: string, name: string)
    | DoCheckout(user: string, name: string)

  /** An action that runs no operation. */
  predicate Stops(a: Action) {
    a.ShowUsage? || a.Refuse? || a.MissingArgs? || a.Unknown?
  }

  /** The argument count main.go demands of `commit`, and the count its usage line
      `mygit commit <username> <author> <message>` describes. */
  const CommitArgsAsWritten: nat := 6
  const CommitArgsIntended: nat := 5

  /** The switch of main.go, with the argument count `commit` demands as a parameter. */
  function Dispatch(args: seq<string>, roles: RolesFile, commitArgs: nat): Action
    requires commitArgs >= 5
  {
    if |args| < 3 then ShowUsage
    else
      var cmd, user := args[1], args[2];
      if !Allows(roles, user, cmd) then Refuse(user, cmd)
      else if cmd == "init" then DoInit
      else if cmd == "add" then (if |args| < 4 then MissingArgs(cmd) else DoAdd(args[3]))
      else if cmd == "commit" then
        (if |args| < commitArgs then MissingArgs(cmd) else DoCommit(user, args[3], args[4]))
      else if cmd == "status" then DoStatus
      else if cmd == "log" then DoLog
      else if cmd == "branch" then DoBranch
      else if cmd == "create-branch" then (if |args| < 4 then MissingArgs(cmd) else DoCreateBranch(user, args[3]))
      else if cmd == "checkout" then (if |args| < 4 then MissingArgs(cmd) else DoCheckout(user, args[3]))
      else Unknown(cmd)
  }

  /** main.go as written: `commit` needs six arguments. */
  function RouteAsWritten(args: seq<string>, roles: RolesFile): (a: Action)
    ensures a.DoCommit? ==> |args| >= 6
    ensures |args| == 5 && args[1] == "commit" && Allows(roles, args[2], "commit") ==> a == MissingArgs("commit")
    ensures |args| >= 3 && args[1] == "commit" && Allows(roles, args[2], "commit") ==>
              a == if |args| < 6 then MissingArgs("commit") else DoCommit(args[2], args[3], args[4])
  {
    Dispatch(args, roles, CommitArgsAsWritten)
  }

  /** The dispatcher with `commit` needing the five arguments its usage line names. */
  function Route(args: seq<string>, roles: RolesFile): (a: Action)
    ensures a == ShowUsage <==> |args| < 3
    // the permission gate comes before everything, init included
    ensures a.Refuse? <==> |args| >= 3 && !Allows(roles, args[2], args[1])
    ensures a.Refuse? ==> a == Refuse(args[2], args[1])
    ensures !Stops(a) ==> |args| >= 3 && Allows(roles, args[2], args[1])
    // only the two commands the role table knows but the switch does not reach the default
    ensures a.Unknown? ==> a.cmd == args[1] && (a.cmd == "push" || a.cmd == "pull")
    ensures a.DoCommit? <==> |args| >= 5 && args[1] == "commit" && Allows(roles, args[2], "commit")
    ensures a.DoCommit? ==> a == DoCommit(args[2], args[3], args[4])
    ensures a.MissingArgs? ==>
              && a.cmd == args[1]
              && (if a.cmd == "commit" then |args| < 5 else a.cmd in {"add", "create-branch", "checkout"} && |args| < 4)
    // a permitted command reaches its own operation, given its arguments
    ensures |args| >= 3 && Allows(roles, args[2], args[1]) ==>
              var cmd, user := args[1], args[2];
              && (cmd == "init" ==> a == DoInit)
              && (cmd == "add" ==> a == if |args| < 4 then MissingArgs(cmd) else DoAdd(args[3]))
              && (cmd == "commit" ==> a == if |args| < 5 then MissingArgs(cmd) else DoCommit(user, args[3], args[4]))
              && (cmd == "status" ==> a == DoStatus)
              && (cmd == "log" ==> a == DoLog)
              && (cmd == "branch" ==> a == DoBranch)
              && (cmd == "create-branch" ==> a == if |args| < 4 then MissingArgs(cmd) else DoCreateBranch(user, args[3]))
              && (cmd == "checkout" ==> a == if |args| < 4 then MissingArgs(cmd) else DoCheckout(user, args[3]))
              && (cmd == "push" || cmd == "pull" ==> a == Unknown(cmd))
  {
    var a := Dispatch(args, roles, CommitArgsIntended);
    if a.Unknown? then
      RoleHierarchy(args[1]);
      assert args[1] in CommandsOf(RoleOf(roles.value, args[2]));
      a
    else a
  }

  /** main.go rejects a `commit` written exactly as its usage line says; with five
      arguments required, the same command line commits. */
  lemma CommitUsageRejected(roles: RolesFile, user: string, author: string, message: string)
    requires Allows(roles, user, "commit")
    ensures RouteAsWritten(["mygit", "commit", user, author, message], roles) == MissingArgs("commit")
    ensures Route(["mygit", "commit", user, author, message], roles) == DoCommit(user, author, message)
  {
  }

  /** Apart from `commit`, the two dispatchers agree. */
  lemma RoutesAgreeElsewhere(args: seq<string>, roles: RolesFile)
    requires |args| != 5 || args[1] != "commit"
    ensures Route(args, roles) == RouteAsWritten(args, roles)
  {
  }

  /** What the environment supplies: the clock reading, the working-directory listing, and
      which writes fail. */
  datatype Env = Env(timestamp: string, listing: Option<seq<string>>, failing: set<Target>)

  /** What a run reports. */
  datatype Report =
    | NotRun(action: Action)
    | Initialized
    | AddReport(add: AddOutcome)
    | CommitReport(commit: CommitOutcome)
    | StatusReport(status: StatusResult)
    | LogReport(records: seq<LogRecord>, end: LogEnd)
    | BranchReport(branches: Option<set<string>>)
    | CreateReport(create: CreateOutcome)
    | CheckoutReport(checkout: CheckoutOutcome)

  /** One run of `mygit` as a state transition. */
  function Step(s: Repo, args: seq<string>, env: Env, codec: Codec): (r: (Repo, Report))
    // nothing runs, and nothing changes, without the arguments and the permission
    ensures Stops(Route(args, s.roles)) ==> r == (s, NotRun(Route(args, s.roles)))
    // the read-only commands change nothing
    ensures Route(args, s.roles) in {DoStatus, DoLog, DoBranch} ==> r.0 == s
    // the configuration and the working directory are never written
    ensures r.0.roles == s.roles && r.0.policy == s.policy && r.0.workdir == s.workdir
    // a routed command runs its operation and reports its outcome
    ensures Route(args, s.roles) == DoInit ==> r == (Init(s, env.failing), Initialized)
    ensures var a := Route(args, s.roles);
            a.DoAdd? ==> var (t, out) := Add(s, a.file, codec.sha1, env.failing); r == (t, AddReport(out))
    ensures var a := Route(args, s.roles);
            a.DoCommit? ==>
              var (t, out) := CommitChanges(s, a.user, a.author, a.message, env.timestamp, codec, env.failing);
              r == (t, CommitReport(out))
    ensures Route(args, s.roles) == DoStatus ==> r.1 == StatusReport(Status(s, codec, env.listing))
    ensures Route(args, s.roles) == DoLog ==> r.1 == LogReport(Log(s, codec).0, Log(s, codec).1)
    ensures Route(args, s.roles) == DoBranch ==> r.1 == BranchReport(Branches(s))
    ensures var a := Route(args, s.roles);
            a.DoCreateBranch? ==> var (t, out) := CreateBranch(s, a.user, a.name, env.failing); r == (t, CreateReport(out))
    ensures var a := Route(args, s.roles);
            a.DoCheckout? ==> var (t, out) := Checkout(s, a.user, a.name, env.failing); r == (t, CheckoutReport(out))
  {
    match Route(args, s.roles)
    case DoInit => (Init(s, env.failing), Initialized)
    case DoAdd(file) =>
      var (t, out) := Add(s, file, codec.sha1, env.failing); (t, AddReport(out))
    case DoCommit(user, author, message) =>
      var (t, out) := CommitChanges(s, user, author, message, env.timestamp, codec, env.failing);
      (t, CommitReport(out))
    case DoStatus => (s, StatusReport(Status(s, codec, env.listing)))
    case DoLog => var (records, end) := Log(s, codec); (s, LogReport(records, end))
    case DoBranch => (s, BranchReport(Branches(s)))
    case DoCreateBranch(user, name) =>
      var (t, out) := CreateBranch(s, user, name, env.failing); (t, CreateReport(out))
    case DoCheckout(user, name) =>
      var (t, out) := Checkout(s, user, name, env.failing); (t, CheckoutReport(out))
    case _ => (s, NotRun(Route(args, s.roles)))
  }

  /** Fails closed: without a readable roles document no command runs, not even `init`. */
  lemma NoRolesNothingRuns(s: Repo, args: seq<string>, env: Env, codec: Codec)
    requires s.roles.None?
    ensures Step(s, args, env, codec).0 == s
    ensures Step(s, args, env, codec).1.NotRun?
  {
  }

  /** `add`, `create-branch` and `checkout` without their argument, and `commit` without its
      author or message, run nothing and change nothing. */
  lemma ShortArgsChangeNothing(s: Repo, args: seq<string>, env: Env, codec: Codec)
    requires || (|args| == 3 && args[1] in {"add", "create-branch", "checkout"})
             || (3 <= |args| < 5 && args[1] == "commit")
    ensures Step(s, args, env, codec).0 == s
    ensures Step(s, args, env, codec).1.NotRun?
  {
  }

  /** `push` and `pull` pass the permission check for admins but run nothing. */
  lemma PushPullChangeNothing(s: Repo, args: seq<string>, env: Env, codec: Codec)
    requires |args| >= 3 && (args[1] == "push" || args[1] == "pull")
    ensures Step(s, args, env, codec).0 == s
    ensures Allows(s.roles, args[2], args[1]) ==> Step(s, args, env, codec).1 == NotRun(Unknown(args[1]))
  {
  }

  /** A viewer can run only `status` and `log`, so a viewer's run never changes the repository. */
  lemma ViewersChangeNothing(s: Repo, args: seq<string>, env: Env, codec: Codec)
    requires s.roles.Some? && |args| >= 3 && RoleOf(s.roles.value, args[2]) == "viewer"
    ensures Step(s, args, env, codec).0 == s
  {
    var a := Route(args, s.roles);
    if !Stops(a) {
      assert args[1] in RolePermissions["viewer"];
      assert args[1] == "status" || args[1] == "log";
    }
  }

  /** A developer can never change HEAD: `init` and `checkout` are not on the developer's
      list, and add and commit leave HEAD alone. */
  lemma DevelopersKeepHead(s: Repo, args: seq<string>, env: Env, codec: Codec)
    requires s.roles.Some? && |args| >= 3 && RoleOf(s.roles.value, args[2]) == "developer"
    ensures Step(s, args, env, codec).0.head == s.head
  {
    var a := Route(args, s.roles);
    if !Stops(a) {
      var dv := RolePermissions["developer"];
      assert args[1] in dv;
      assert args[1] == dv[0] || args[1] == dv[1] || args[1] == dv[2] || args[1] == dv[3] || args[1] == dv[4];
    }
  }

  /** `main` on the disk: the argument checks, the `HasPermission` loop, then the operation. */
  method Run(d: Disk, args: seq<string>, env: Env, codec: Codec) returns (report: Report)
    modifies d
    ensures (d.State(), report) == Step(old(d.State()), args, env, codec)
  {
    ghost var s := d.State();
    if |args| < 3 {
      return NotRun(ShowUsage);
    }
    var cmd, user := args[1], args[2];
    var allowed := HasPermission(d.roles, user, cmd);
    if !allowed {
      return NotRun(Refuse(user, cmd));
    }
    assert Allows(s.roles, user, cmd);
    if cmd == "init" {
      assert Route(args, s.roles) == DoInit;
      InitOnDisk(d, env.failing);
      return Initialized;
    } else if cmd == "add" {
      if |args| < 4 {
        return NotRun(MissingArgs(cmd));
      }
      assert Route(args, s.roles) == DoAdd(args[3]);
      var out := AddFile(d, args[3], codec.sha1, env.failing);
      return AddReport(out);
    } else if cmd == "commit" {
      if |args| < CommitArgsIntended {
        return NotRun(MissingArgs(cmd));
      }
      assert Route(args, s.roles) == DoCommit(user, args[3], args[4]);
      var out := CommitOnDisk(d, user, args[3], args[4], env.timestamp, codec, env.failing);
      return CommitReport(out);
    } else if cmd == "status" {
      assert Route(args, s.roles) == DoStatus;
      var result := ShowStatus(d, codec, env.listing);
      return StatusReport(result);
    } else if cmd == "log" {
      assert Route(args, s.roles) == DoLog;
      var records, end := ShowLog(d, codec);
      return LogReport(records, end);
    } else if cmd == "branch" {
      assert Route(args, s.roles) == DoBranch;
      return BranchReport(Branches(d.State()));
    } else if cmd == "create-branch" {
      if |args| < 4 {
        return NotRun(MissingArgs(cmd));
      }
      assert Route(args, s.roles) == DoCreateBranch(user, args[3]);
      var out := CreateBranchOnDisk(d, user, args[3], env.failing);
      return CreateReport(out);
    } else if cmd == "checkout" {
      if |args| < 4 {
        return NotRun(MissingArgs(cmd));
      }
      assert Route(args, s.roles) == DoCheckout(user, args[3]);
      var out := CheckoutOnDisk(d, user, args[3], env.failing);
      return CheckoutReport(out);
    }
    return NotRun(Unknown(cmd));
  }
}
