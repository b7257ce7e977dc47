/** The read loop of start_ssh_server() (ssh_to_pipeline.py lines 94-124) over an abstract trace.
    Each step of the trace is what one `ngrok.stdout.readline()` returned and whether sshd was
    still running when `sshd.poll()` was asked right after it. */
module Supervisor {
  import opened Base
  import TunnelUrl
  import Text

  /** A line as `json.loads` leaves it: not a JSON object (the decode or `d.get` raises), or an
      object with its "msg" and "url" members, `None` standing for a member that is missing or not
      a string. */
  datatype Decoded = Malformed | Decoded(msg: Option<string>, url: Option<string>)

  /** What one readline() gave: the empty string at end of stream, a line that the pipe's
      "ascii" decoding rejects (readline itself raises), or a line. */
  datatype Read = Eof | Undecodable | Line(decoded: Decoded)

  datatype Step = Step(read: Read, sshdAlive: bool)

  /** Why a line stops the loop with an exception. */
  datatype Fault =
    | NotAscii       // UnicodeDecodeError from readline()
    | NotJsonObject  // json.loads fails, or the value has no `get`
    | UrlNotString   // d["url"] is missing (KeyError) or not a string (TypeError in re.match)
    | UrlMismatch    // `assert m is not None` fails

  datatype Outcome =
    | Pending          // the trace ended while readline() was still waiting
    | Closed           // empty read with sshd alive: break, then sshd.kill()
    | SshdDied         // "sshd terminated unexpectedly"
    | Crashed(fault: Fault)

  /** The loop's result: how it ended, what it printed, how many lines it fully handled, and
      whether sshd.kill() was reached. */
  datatype Run = Run(outcome: Outcome, printed: seq<string>, handled: nat, sshdKilled: bool)

  const StartedTunnel := "started tunnel"

  function SshCommand(host: string, port: string, user: string): (cmd: string)
    ensures '\n' !in host && '\n' !in port && '\n' !in user ==> '\n' !in cmd
  {
    "ssh -p " + port + " " + user + "@" + host
  }

  const InstructionsHead := " \n \nTunnel started. To connect, run:\n "
  const InstructionsTail :=
    " \n \nTip: to copy the environment from the pipeline, run this in the SSH session:\n"
    + " \nsource /tmp/copyenv\n \n \n" + "\n"

  /** The block printed at lines 108-122, with the newline `print` adds: the fixed header, a
      newline, the ssh command, a newline and the fixed tail. When the host, port and user are
      newline-free, the command is a line of its own between the header's and the tail's lines. */
  function Instructions(host: string, port: string, user: string): (block: string)
    ensures var cmd, h := SshCommand(host, port, user), |InstructionsHead|;
      |block| == h + 1 + |cmd| + 1 + |InstructionsTail|
      && block[..h] == InstructionsHead && block[h] == '\n'
      && block[h + 1..h + 1 + |cmd|] == cmd && block[h + 1 + |cmd|] == '\n'
      && block[h + 1 + |cmd| + 1..] == InstructionsTail
    ensures '\n' !in host && '\n' !in port && '\n' !in user ==>
      Text.Fields(block)
        == Text.Fields(InstructionsHead) + [SshCommand(host, port, user)] + Text.Fields(InstructionsTail)
  {
    var cmd := SshCommand(host, port, user);
    Layout(InstructionsHead, cmd, InstructionsTail);
    Text.FieldsAround(InstructionsHead, cmd, InstructionsTail);
    InstructionsHead + "\n" + cmd + "\n" + InstructionsTail
  }

  /** Where the pieces of three lines joined by newlines sit. */
  lemma Layout(head: string, cmd: string, tail: string)
    ensures var block, h := head + "\n" + cmd + "\n" + tail, |head|;
      |block| == h + 1 + |cmd| + 1 + |tail|
      && block[..h] == head && block[h] == '\n'
      && block[h + 1..h + 1 + |cmd|] == cmd && block[h + 1 + |cmd|] == '\n'
      && block[h + 1 + |cmd| + 1..] == tail
  {
    var block, h := head + "\n" + cmd + "\n" + tail, |head|;
    assert block[..h] == head;
    assert block[h + 1..h + 1 + |cmd|] == cmd;
    assert block[h + 1 + |cmd| + 1..] == tail;
  }

  /** The printed block holds the ssh command as a line of its own. */
  lemma InstructionsShowCommand(host: string, port: string, user: string)
    requires '\n' !in host && '\n' !in port && '\n' !in user
    ensures SshCommand(host, port, user) in Text.Fields(Instructions(host, port, user))
  {
    var f := Text.Fields(InstructionsHead);
    var cmd := SshCommand(host, port, user);
    assert (f + [cmd] + Text.Fields(InstructionsTail))[|f|] == cmd;
  }

  /** The decision one step leads to: go on (having printed `output`), or stop with an outcome. */
  datatype Verdict = Continue(output: seq<string>) | Stop(outcome: Outcome)

  /** A line the loop cannot handle: not a JSON object, or a "started tunnel" event whose url is
      missing or does not match the pattern. */
  predicate BadEvent(d: Decoded) {
    d.Malformed?
    || (d.msg == Some(StartedTunnel) && (d.url.None? || TunnelUrl.Match(d.url.value).None?))
  }

  /** The exception a bad event raises. */
  function FaultOf(d: Decoded): Fault {
    if d.Malformed? then NotJsonObject else if d.url.None? then UrlNotString else UrlMismatch
  }

  /** Lines 100-106 for one decoded line that sshd survived: a bad event fails fatally with its
      fault, any other event goes on, printing at most one block. */
  function HandleLine(d: Decoded, user: string): (v: Verdict)
    ensures v.Stop? <==> BadEvent(d)
    ensures v.Stop? ==> v.outcome == Crashed(FaultOf(d))
    ensures v.Continue? ==> |v.output| <= 1
    ensures v.Continue? && d.msg != Some(StartedTunnel) ==> v.output == []
  {
    match d
    case Malformed => Stop(Crashed(NotJsonObject))
    case Decoded(msg, url) =>
      if msg != Some(StartedTunnel) then Continue([])
      else if url.None? then Stop(Crashed(UrlNotString))
      else match TunnelUrl.Match(url.value)
        case None => Stop(Crashed(UrlMismatch))
        case Some(hp) => Continue([Instructions(hp.0, hp.1, user)])
  }

  /** One iteration of the loop, checks in source order: the read (which may raise), then
      sshd's liveness, then end of stream, then the line. */
  function Handle(step: Step, user: string): (v: Verdict)
    ensures v.Stop? ==> v.outcome != Pending
    ensures v.Stop? && !step.read.Undecodable? && !step.sshdAlive ==> v.outcome == SshdDied
    ensures v.Continue? ==> step.sshdAlive && step.read.Line?
    ensures step.read.Undecodable? ==> v == Stop(Crashed(NotAscii))
    ensures step.sshdAlive && step.read.Eof? ==> v == Stop(Closed)
    ensures step.sshdAlive && step.read.Line? ==> var d := step.read.decoded;
      (d.Malformed? ==> v == Stop(Crashed(NotJsonObject)))
      && (d.Decoded? && d.msg == Some(StartedTunnel) && d.url.None? ==>
            v == Stop(Crashed(UrlNotString)))
      && (d.Decoded? && d.msg == Some(StartedTunnel) && d.url.Some? && TunnelUrl.Match(d.url.value).None? ==>
            v == Stop(Crashed(UrlMismatch)))
  {
    if step.read.Undecodable? then Stop(Crashed(NotAscii))
    else if !step.sshdAlive then Stop(SshdDied)
    else if step.read.Eof? then Stop(Closed)
    else HandleLine(step.read.decoded, user)
  }

  /** The loop over a whole trace. The steps before `handled` all went on; the one at `handled`,
      if any, decided the outcome; sshd is killed exactly when the stream closed normally. */
  function Supervise(trace: seq<Step>, user: string): (r: Run)
    ensures r.handled <= |trace|
    ensures forall k :: 0 <= k < r.handled ==> Handle(trace[k], user).Continue?
    ensures r.handled < |trace| ==> Handle(trace[r.handled], user) == Stop(r.outcome)
    ensures r.outcome == Pending <==> r.handled == |trace|
    ensures r.sshdKilled <==> r.outcome == Closed
    decreases |trace|
  {
    if trace == [] then Run(Pending, [], 0, false)
    else match Handle(trace[0], user)
      case Stop(o) => Run(o, [], 0, o == Closed)
      case Continue(out) =>
        var r := Supervise(trace[1..], user);
        Run(r.outcome, out + r.printed, r.handled + 1, r.sshdKilled)
  }

  /** Supervise on the steps from `i` on, after `printed` was printed by the `i` steps before. */
  function Resumed(trace: seq<Step>, i: nat, printed: seq<string>, user: string): Run
    requires i <= |trace|
  {
    var rest := Supervise(trace[i..], user);
    Run(rest.outcome, printed + rest.printed, i + rest.handled, rest.sshdKilled)
  }

  lemma ResumeStop(trace: seq<Step>, i: nat, printed: seq<string>, user: string)
    requires i < |trace| && Handle(trace[i], user).Stop?
    ensures var o := Handle(trace[i], user).outcome;
      Resumed(trace, i, printed, user) == Run(o, printed, i, o == Closed)
  {
    assert trace[i..][0] == trace[i];
  }

  lemma ResumeContinue(trace: seq<Step>, i: nat, printed: seq<string>, user: string)
    requires i < |trace| && Handle(trace[i], user).Continue?
    ensures Resumed(trace, i, printed, user)
         == Resumed(trace, i + 1, printed + Handle(trace[i], user).output, user)
  {
    assert trace[i..][0] == trace[i] && trace[i..][1..] == trace[i + 1..];
  }

  /** Supervise on a trace split into its first step and the rest. */
  lemma SuperviseCons(step: Step, rest: seq<Step>, user: string)
    ensures Handle(step, user).Stop? ==>
      var o := Handle(step, user).outcome;
      Supervise([step] + rest, user) == Run(o, [], 0, o == Closed)
    ensures Handle(step, user).Continue? ==>
      var r := Supervise(rest, user);
      Supervise([step] + rest, user)
        == Run(r.outcome, Handle(step, user).output + r.printed, r.handled + 1, r.sshdKilled)
  {
    assert ([step] + rest)[0] == step && ([step] + rest)[1..] == rest;
  }

  /** The instruction block a step announces, stated apart from the loop: a "started tunnel"
      event whose url matches the pattern. */
  function AnnouncementOf(step: Step, user: string): seq<string> {
    if step.read.Line? && step.read.decoded.Decoded? && step.read.decoded.msg == Some(StartedTunnel)
       && step.read.decoded.url.Some? && TunnelUrl.Match(step.read.decoded.url.value).Some?
    then
      var hp := TunnelUrl.Match(step.read.decoded.url.value).value;
      [Instructions(hp.0, hp.1, user)]
    else []
  }

  /** All blocks announced by a sequence of steps, in order, one per event, repeats included. */
  function Announcements(steps: seq<Step>, user: string): seq<string>
    decreases |steps|
  {
    if steps == [] then [] else AnnouncementOf(steps[0], user) + Announcements(steps[1..], user)
  }

  /** What the loop prints is exactly one block per "started tunnel" event among the lines it
      handled, in stream order, without deduplication; every other event prints nothing. */
  lemma {:induction false} PrintedAreAnnouncements(trace: seq<Step>, user: string)
    ensures Supervise(trace, user).printed
         == Announcements(trace[..Supervise(trace, user).handled], user)
    decreases |trace|
  {
    if trace != [] {
      var x, rest := trace[0], trace[1..];
      assert trace == [x] + rest;
      if Handle(x, user).Stop? {
        PrintedStop(x, rest, user);
      } else {
        PrintedAreAnnouncements(rest, user);
        PrintedStep(x, rest, user);
      }
    }
  }

  /** A step that stops the loop ends it before anything is printed. */
  lemma PrintedStop(x: Step, rest: seq<Step>, user: string)
    requires Handle(x, user).Stop?
    ensures var r := Supervise([x] + rest, user);
      r.printed == [] && ([x] + rest)[..r.handled] == []
  {
    SuperviseCons(x, rest, user);
  }

  /** The inductive step of PrintedAreAnnouncements: a step that goes on adds its announcement in
      front of what the rest of the trace prints. */
  lemma PrintedStep(x: Step, rest: seq<Step>, user: string)
    requires Handle(x, user).Continue?
    requires Supervise(rest, user).printed == Announcements(rest[..Supervise(rest, user).handled], user)
    ensures var r := Supervise([x] + rest, user);
      r.printed == Announcements(([x] + rest)[..r.handled], user)
  {
    SuperviseCons(x, rest, user);
    ContinueAnnounces(x, user);
    var h := Supervise(rest, user).handled;
    assert ([x] + rest)[..h + 1] == [x] + rest[..h];
    AnnouncementsCons(x, rest[..h], user);
  }

  /** A step that lets the loop go on prints exactly its announcement. */
  lemma ContinueAnnounces(step: Step, user: string)
    requires Handle(step, user).Continue?
    ensures Handle(step, user).output == AnnouncementOf(step, user)
  {
    var d := step.read.decoded;
    assert Handle(step, user) == HandleLine(d, user);
    if d.msg == Some(StartedTunnel) {
      var hp := TunnelUrl.Match(d.url.value).value;
      assert HandleLine(d, user) == Continue([Instructions(hp.0, hp.1, user)]);
    } else {
      assert HandleLine(d, user) == Continue([]);
    }
  }

  lemma AnnouncementsCons(step: Step, steps: seq<Step>, user: string)
    ensures Announcements([step] + steps, user) == AnnouncementOf(step, user) + Announcements(steps, user)
  {
    assert ([step] + steps)[0] == step && ([step] + steps)[1..] == steps;
  }

  /** The first step that stops the loop decides it: the loop ends there with that step's
      outcome, having printed the announcements of the steps before it. */
  lemma StopsAt(trace: seq<Step>, user: string, k: nat)
    requires k < |trace| && Handle(trace[k], user).Stop?
    requires forall j :: 0 <= j < k ==> Handle(trace[j], user).Continue?
    ensures var r := Supervise(trace, user);
      r.outcome == Handle(trace[k], user).outcome && r.handled == k
      && r.printed == Announcements(trace[..k], user)
  {
    PrintedAreAnnouncements(trace, user);
    var r := Supervise(trace, user);
    assert r.handled <= k;
    assert r.handled >= k;
  }

  /** If sshd is found dead after a read that did not itself raise, the loop fails with
      "sshd terminated unexpectedly" whatever was read, end of stream or a valid event, and that
      line is not processed. */
  lemma SshdDeathWins(trace: seq<Step>, user: string, k: nat)
    requires k < |trace| && !trace[k].sshdAlive && !trace[k].read.Undecodable?
    requires forall j :: 0 <= j < k ==> Handle(trace[j], user).Continue?
    ensures var r := Supervise(trace, user);
      r.outcome == SshdDied && r.handled == k && !r.sshdKilled
      && r.printed == Announcements(trace[..k], user)
  {
    StopsAt(trace, user, k);
  }

  /** A bad event read while sshd is alive fails the loop fatally with its fault: it is never
      skipped, nothing is printed for it, and sshd is not killed. */
  lemma BadEventFails(trace: seq<Step>, user: string, k: nat)
    requires k < |trace| && trace[k].sshdAlive && trace[k].read.Line?
    requires BadEvent(trace[k].read.decoded)
    requires forall j :: 0 <= j < k ==> Handle(trace[j], user).Continue?
    ensures var r := Supervise(trace, user);
      r.outcome == Crashed(FaultOf(trace[k].read.decoded)) && r.handled == k && !r.sshdKilled
      && r.printed == Announcements(trace[..k], user)
  {
    StopsAt(trace, user, k);
  }

  /** The loop ends normally only on an empty read with sshd alive, and only then is sshd killed. */
  lemma ClosedOnlyOnEof(trace: seq<Step>, user: string)
    ensures var r := Supervise(trace, user);
      (r.outcome == Closed <==>
         r.handled < |trace| && trace[r.handled] == Step(Eof, true))
      && (r.sshdKilled <==> r.outcome == Closed)
  {
  }

  /** An event whose "msg" is not "started tunnel", read while sshd is alive, neither prints nor
      fails. */
  predicate Ignorable(step: Step) {
    step.sshdAlive && step.read.Line? && step.read.decoded.Decoded?
    && step.read.decoded.msg != Some(StartedTunnel)
  }

  /** Inserting an ignorable event anywhere in the stream changes neither the outcome nor the
      output: unknown message kinds never matter. */
  lemma {:induction false} IgnorableIsTransparent(a: seq<Step>, n: Step, b: seq<Step>, user: string)
    requires Ignorable(n)
    ensures var with := Supervise(a + [n] + b, user);
      var without := Supervise(a + b, user);
      with.outcome == without.outcome && with.printed == without.printed
      && with.sshdKilled == without.sshdKilled
    decreases |a|
  {
    if a == [] {
      assert a + [n] + b == [n] + b && a + b == b;
      assert Handle(n, user) == Continue([]);
      SuperviseCons(n, b, user);
      assert [] + Supervise(b, user).printed == Supervise(b, user).printed;
    } else {
      assert a + [n] + b == [a[0]] + (a[1..] + [n] + b);
      assert a + b == [a[0]] + (a[1..] + b);
      SuperviseCons(a[0], a[1..] + [n] + b, user);
      SuperviseCons(a[0], a[1..] + b, user);
      IgnorableIsTransparent(a[1..], n, b, user);
    }
  }

  /** A "started tunnel" event whose url matches the pattern, followed by the end of ngrok's
      stream: the loop prints one block for that host and port, then kills sshd. */
  lemma AnnouncementThenEof(url: string, user: string)
    requires TunnelUrl.Match(url).Some?
    ensures var hp := TunnelUrl.Match(url).value;
      var announce := Step(Line(Decoded(Some(StartedTunnel), Some(url))), true);
      Supervise([announce, Step(Eof, true)], user) == Run(Closed, [Instructions(hp.0, hp.1, user)], 1, true)
  {
    var hp := TunnelUrl.Match(url).value;
    var announce := Step(Line(Decoded(Some(StartedTunnel), Some(url))), true);
    assert Handle(announce, user) == Continue([Instructions(hp.0, hp.1, user)]);
    SuperviseCons(Step(Eof, true), [], user);
    assert [Step(Eof, true)] + [] == [Step(Eof, true)];
    SuperviseCons(announce, [Step(Eof, true)], user);
    assert [announce] + [Step(Eof, true)] == [announce, Step(Eof, true)];
  }

  /** The tunnel announcement from the client, followed by the end of its stream: the loop
      prints one block with host 0.tcp.example.com and port 54321, then kills sshd. */
  lemma AnnouncedThenClosed(user: string)
    ensures var event := Decoded(Some(StartedTunnel), Some("tcp://0.tcp.example.com:54321"));
      Supervise([Step(Line(event), true), Step(Eof, true)], user)
        == Run(Closed, [Instructions("0.tcp.example.com", "54321", user)], 1, true)
  {
    TunnelUrl.ExampleUrl();
    AnnouncementThenEof("tcp://0.tcp.example.com:54321", user);
  }

  /** start_ssh_server()'s loop (lines 94-124), reading the trace one step at a time. */
  method Listen(trace: seq<Step>, user: string) returns (run: Run)
    ensures run == Supervise(trace, user)
  {
    var printed: seq<string> := [];
    var i := 0;
    assert trace[0..] == trace;
    while i < |trace|
      invariant i <= |trace|
      invariant Supervise(trace, user) == Resumed(trace, i, printed, user)
    {
      var line := trace[i].read;  // readline()
      if line.Undecodable? {
        ResumeStop(trace, i, printed, user);
        return Run(Crashed(NotAscii), printed, i, false);
      }
      if !trace[i].sshdAlive {  // sshd.poll() is not None
        ResumeStop(trace, i, printed, user);
        return Run(SshdDied, printed, i, false);
      }
      if line.Eof? {  // break, then sshd.kill()
        ResumeStop(trace, i, printed, user);
        return Run(Closed, printed, i, true);
      }
      match line.decoded {
        case Malformed =>
          ResumeStop(trace, i, printed, user);
          return Run(Crashed(NotJsonObject), printed, i, false);
        case Decoded(msg, url) =>
          if msg == Some(StartedTunnel) {
            if url.None? {
              ResumeStop(trace, i, printed, user);
              return Run(Crashed(UrlNotString), printed, i, false);
            }
            var m := TunnelUrl.Match(url.value);
            if m.None? {
              ResumeStop(trace, i, printed, user);
              return Run(Crashed(UrlMismatch), printed, i, false);
            }
            var (host, port) := m.value;
            ResumeContinue(trace, i, printed, user);
            printed := printed + [Instructions(host, port, user)];
          } else {
            ResumeContinue(trace, i, printed, user);
            assert printed + [] == printed;
          }
      }
      i := i + 1;
    }
    assert trace[i..] == [];
    return Run(Pending, printed, i, false);
  }
}
