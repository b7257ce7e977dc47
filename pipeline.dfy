/** ssh_to_pipeline() (ssh_to_pipeline.py lines 127-146): check NGROK_TOKEN, update the
    authorized keys, run the provisioning steps, then supervise sshd and ngrok. The environment is
    a map from variable names to values; the steps that only shell out are recorded by name. */
module Pipeline {
  import opened Base
  import Token
  import AuthorizedKeys
  import Supervisor

  const TokenVar := "NGROK_TOKEN"
  const PubkeyVar := "SSH_PUBKEY"

  /** The steps of lines 138-146, in the order they run. */
  datatype Stage =
    | UpdateAuthorizedKeys
    | InstallPackages
    | FixBitbucketTty
    | AddCopyenvScript
    | StartSshServer(token: string)

  datatype Fatal =
    | TokenUndefined        // lines 129-132
    | TokenNotOneWord       // lines 133-136
    | NoAuthorizedKeys      // lines 26-30
    | SshdTerminated        // line 97
    | BadTunnelEvent(fault: Supervisor.Fault)

  /** How the program ends: still waiting on ngrok's output, returned normally (exit status 0),
      or an uncaught exception (non-zero exit status). */
  datatype Exit = StillRunning | Finished | Raised(failure: Fatal)

  /** Stages entered, the authorized_keys file afterwards, what the loop printed, whether sshd was
      killed, and how the program ended. */
  datatype Report = Report(
    stages: seq<Stage>, keys: AuthorizedKeys.FileState, printed: seq<string>,
    sshdKilled: bool, exit: Exit)

  function AllStages(token: string): seq<Stage> {
    [UpdateAuthorizedKeys, InstallPackages, FixBitbucketTty, AddCopyenvScript, StartSshServer(token)]
  }

  function Lookup(env: map<string, string>, name: string): Option<string> {
    if name in env then Some(env[name]) else None
  }

  /** The token check of lines 128-136: the token, unchanged, or the error raised. */
  function CheckToken(env: map<string, string>): (r: Result<string, Fatal>)
    ensures r.Success? <==> TokenVar in env && Token.IsOneWord(env[TokenVar])
    ensures r.Success? ==> r.value == env[TokenVar]
    ensures r == Failure(TokenUndefined) <==> TokenVar !in env
    ensures TokenVar in env && !Token.IsOneWord(env[TokenVar]) ==> r == Failure(TokenNotOneWord)
  {
    match Lookup(env, TokenVar)
    case None => Failure(TokenUndefined)
    case Some(token) => if Token.IsOneWord(token) then Success(token) else Failure(TokenNotOneWord)
  }

  function ExitOf(outcome: Supervisor.Outcome): Exit {
    match outcome
    case Pending => StillRunning
    case Closed => Finished
    case SshdDied => Raised(SshdTerminated)
    case Crashed(fault) => Raised(BadTunnelEvent(fault))
  }

  /** The whole run, given the environment, the authorized_keys file before it, the trace of
      ngrok's output with sshd's liveness, and the login name getuser() returns. */
  function Provision(env: map<string, string>, keys: AuthorizedKeys.FileState,
                     trace: seq<Supervisor.Step>, user: string): (rep: Report)
    ensures CheckToken(env).Success? ==>
      rep.keys == match AuthorizedKeys.Update(keys, Lookup(env, PubkeyVar))
        case Success(updated) => updated
        case Failure(_) => keys
    ensures rep.keys != keys ==> CheckToken(env).Success?
    ensures rep.printed != [] ==> |rep.stages| == 5
    ensures rep.sshdKilled ==> rep.exit == Finished
  {
    match CheckToken(env)
    case Failure(e) => Report([], keys, [], false, Raised(e))
    case Success(token) =>
      match AuthorizedKeys.Update(keys, Lookup(env, PubkeyVar))
      case Failure(_) => Report([UpdateAuthorizedKeys], keys, [], false, Raised(NoAuthorizedKeys))
      case Success(updated) =>
        var run := Supervisor.Supervise(trace, user);
        Report(AllStages(token), updated, run.printed, run.sshdKilled, ExitOf(run.outcome))
  }

  /** A missing or rejected token raises before any step runs, leaving the file untouched. */
  lemma TokenGate(env: map<string, string>, keys: AuthorizedKeys.FileState,
                  trace: seq<Supervisor.Step>, user: string)
    ensures var rep := Provision(env, keys, trace, user);
      (rep.stages == [] <==> CheckToken(env).Failure?)
      && (TokenVar !in env ==> rep == Report([], keys, [], false, Raised(TokenUndefined)))
      && (TokenVar in env && !Token.IsOneWord(env[TokenVar]) ==>
            rep == Report([], keys, [], false, Raised(TokenNotOneWord)))
  {
  }

  /** Once the token passes, a failing authorized-keys update raises right away: only that step
      was entered, nothing was installed or started, nothing printed, and the file is untouched. */
  lemma KeyGate(env: map<string, string>, keys: AuthorizedKeys.FileState,
                trace: seq<Supervisor.Step>, user: string)
    requires CheckToken(env).Success?
    requires AuthorizedKeys.Update(keys, Lookup(env, PubkeyVar)).Failure?
    ensures Provision(env, keys, trace, user)
         == Report([UpdateAuthorizedKeys], keys, [], false, Raised(NoAuthorizedKeys))
  {
  }

  /** The stages Provision enters, which depend only on the token and the key file. */
  function StagesOf(env: map<string, string>, keys: AuthorizedKeys.FileState): seq<Stage> {
    if CheckToken(env).Failure? then []
    else if AuthorizedKeys.Update(keys, Lookup(env, PubkeyVar)).Failure? then [UpdateAuthorizedKeys]
    else AllStages(CheckToken(env).value)
  }

  lemma ProvisionStages(env: map<string, string>, keys: AuthorizedKeys.FileState,
                        trace: seq<Supervisor.Step>, user: string)
    ensures Provision(env, keys, trace, user).stages == StagesOf(env, keys)
  {
  }

  /** The stages entered are always a prefix of the full sequence, and all of them run exactly
      when the token passes and the authorized keys can be set up; sshd is started with the token
      as given, surrounding whitespace included. */
  lemma StagesInOrder(env: map<string, string>, keys: AuthorizedKeys.FileState,
                      trace: seq<Supervisor.Step>, user: string)
    ensures var rep := Provision(env, keys, trace, user);
      (TokenVar in env ==> rep.stages <= AllStages(env[TokenVar]))
      && (|rep.stages| == 5 <==>
            CheckToken(env).Success?
            && AuthorizedKeys.Update(keys, Lookup(env, PubkeyVar)).Success?)
      && (|rep.stages| == 5 ==> rep.stages[4] == StartSshServer(env[TokenVar]))
  {
    ProvisionStages(env, keys, trace, user);
    if CheckToken(env).Success? {
      assert CheckToken(env).value == env[TokenVar];
    }
  }

  /** The program exits normally exactly when the token passes, a key is available, and ngrok's
      stream ends while sshd is alive; then and only then sshd is killed. */
  lemma FinishedIff(env: map<string, string>, keys: AuthorizedKeys.FileState,
                    trace: seq<Supervisor.Step>, user: string)
    ensures var rep := Provision(env, keys, trace, user);
      var run := Supervisor.Supervise(trace, user);
      (rep.exit == Finished <==>
         CheckToken(env).Success?
         && AuthorizedKeys.Update(keys, Lookup(env, PubkeyVar)).Success?
         && run.handled < |trace| && trace[run.handled] == Supervisor.Step(Supervisor.Eof, true))
      && (rep.sshdKilled <==> rep.exit == Finished)
  {
    Supervisor.ClosedOnlyOnEof(trace, user);
  }

  /** Once the token passes and the keys are set up, the program's exit mirrors the loop's
      outcome: it still runs while the loop waits, and it raises exactly when the loop fails,
      with "sshd terminated unexpectedly" for a dead sshd and the event's exception for a bad
      event or an undecodable line. */
  lemma ExitMirrorsLoop(env: map<string, string>, keys: AuthorizedKeys.FileState,
                        trace: seq<Supervisor.Step>, user: string)
    requires CheckToken(env).Success?
    requires AuthorizedKeys.Update(keys, Lookup(env, PubkeyVar)).Success?
    ensures var rep := Provision(env, keys, trace, user);
      var run := Supervisor.Supervise(trace, user);
      (rep.exit == StillRunning <==> run.outcome == Supervisor.Pending)
      && (rep.exit == Finished <==> run.outcome == Supervisor.Closed)
      && (rep.exit == Raised(SshdTerminated) <==> run.outcome == Supervisor.SshdDied)
      && (forall f :: rep.exit == Raised(BadTunnelEvent(f)) <==> run.outcome == Supervisor.Crashed(f))
      && rep.printed == run.printed
  {
    var run := Supervisor.Supervise(trace, user);
    assert Provision(env, keys, trace, user).exit == ExitOf(run.outcome);
  }

  /** ssh_to_pipeline(), updating the authorized_keys file in place. */
  method SshToPipeline(env: map<string, string>, keys: AuthorizedKeys.KeysFile,
                       trace: seq<Supervisor.Step>, user: string) returns (report: Report)
    modifies keys
    ensures report == Provision(env, old(keys.State()), trace, user)
    ensures keys.State() == report.keys
  {
    if TokenVar !in env {
      return Report([], keys.State(), [], false, Raised(TokenUndefined));
    }
    var token := env[TokenVar];
    if !Token.IsOneWord(token) {
      return Report([], keys.State(), [], false, Raised(TokenNotOneWord));
    }
    var err := keys.UpdateAuthorizedKeys(Lookup(env, PubkeyVar));
    if err.Some? {
      return Report([UpdateAuthorizedKeys], keys.State(), [], false, Raised(NoAuthorizedKeys));
    }
    // install_packages(), fix_bitbucket_tty() and add_copyenv_script() only shell out or write
    // fixed text; start_ssh_server(token) runs the loop.
    var run := Supervisor.Listen(trace, user);
    return Report(AllStages(token), keys.State(), run.printed, run.sshdKilled, ExitOf(run.outcome));
  }
}
