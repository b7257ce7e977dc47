# ssh-to-pipeline, modelled in Dafny

`ssh_to_pipeline.py` opens an SSH way into a CI container. It checks the `NGROK_TOKEN`
environment variable and appends `SSH_PUBKEY` to `~/.ssh/authorized_keys`. It installs ngrok and
openssh-server and patches the shell profile. Then it runs `sshd` and `ngrok tcp 2222` side by side,
reads ngrok's JSON log line by line, and prints an `ssh -p PORT USER@HOST` command whenever the
tunnel starts.

This project models the decision logic of that script, with the operating system abstracted away:

- `Token` (token.dfy): Python's `str.isspace`, `str.strip()` and `str.split()`, and the one-word
  check on `NGROK_TOKEN`.
- `AuthorizedKeys` (authorized_keys.dfy): `update_authorized_keys()` on an abstract file that is
  either absent or present with content and mode. It is written twice: as a pure transition
  `Update`, and as the class `KeysFile`, whose method changes the file in place and is proved
  against `Update`.
- `TunnelUrl` (tunnel_url.dfy): `re.match(r"^tcp://(.+):(\d+)$", url)` and its groups.
- `Supervisor` (supervisor.dfy): the `while True` read loop of `start_ssh_server()` over an
  abstract trace. Each step of the trace is a `readline()` result plus sshd's liveness as seen by
  the `poll()` that follows. The loop is the method `Listen`, proved equal to the recursive
  specification `Supervise`.
- `Pipeline` (pipeline.dfy): `ssh_to_pipeline()`. It checks the token, updates the keys and
  records the steps that only shell out. Then it runs the loop.
- `Text` (text.dfy) and `Base` (base.dfy) are helpers: splitting at newlines, `Option` and
  `Result`.

Behaviour of the code worth noting:

- sshd is killed only after ngrok's stream closes normally (line 124). On every exception the
  `with Popen` blocks only wait for the processes, and sshd is not killed.
- `authorized_keys` gets mode 0o644 (line 25): readable by everyone, writable by the owner.
- The variables read are `NGROK_TOKEN` (line 128) and `SSH_PUBKEY`.
- The instruction block is printed again for every "started tunnel" event; nothing remembers
  earlier ones.
- A missing key is reported after `chmod go-w ~` has already run (line 17), so that failure is
  not free of side effects.
- A `readline()` that raises `UnicodeDecodeError` (the pipe is opened with `encoding="ascii"`)
  fails before sshd's liveness is looked at, so a dead sshd does not take priority in that case.
- A line that is not a JSON object, or a "started tunnel" event whose `url` is missing or does
  not match the pattern, ends the loop with an exception (lines 100-105); no line is skipped.

## Model

| member | source | states |
|---|---|---|
| Token.Strip | ssh_to_pipeline.py:133 | `strip()` gives the empty text exactly for blank input, and otherwise a text that starts and ends with non-whitespace |
| Token.Split | ssh_to_pipeline.py:133 | `split()` gives only non-empty, whitespace-free words, and no words exactly when the text is blank |
| Token.OneWordIff | ssh_to_pipeline.py:133 | stripped text splits into exactly one word exactly when it is non-empty and has no whitespace |
| Token.IsOneWord | ssh_to_pipeline.py:133-136 | the token passes exactly when, stripped, it is non-empty and has no whitespace inside |
| Token.SplitIgnoresStrip | ssh_to_pipeline.py:133 | `split()` after `strip()` gives the same words as `split()` alone |
| Token.StripPadded | ssh_to_pipeline.py:133 | `strip()` removes exactly the surrounding whitespace: a text that starts and ends with non-whitespace, padded by blanks on either side, strips back to that text |
| Token.PaddedWordIsOneWord | ssh_to_pipeline.py:133-136 | any non-empty whitespace-free word, padded by any blanks, passes the check |
| Token.WordAccepted | ssh_to_pipeline.py:133-136 | `"abc"` passes the check |
| Token.PaddedWordAccepted | ssh_to_pipeline.py:133-136 | `" abc "` passes the check |
| Token.TwoWordsRejected | ssh_to_pipeline.py:133-136 | `"abc def"` fails the check |
| Token.BlankRejected | ssh_to_pipeline.py:133-136 | `""` and `"   "` fail the check |
| AuthorizedKeys.Update | ssh_to_pipeline.py:19-30 | raises exactly when no key is supplied and the file is absent; a supplied key is appended as `"\n" + key + "\n"` after the old content (empty if absent), which stays a prefix, and the mode becomes 0o644; with no key an existing file is unchanged |
| AuthorizedKeys.KeyBecomesLine | ssh_to_pipeline.py:21-25 | a newline-free key becomes a line of its own whatever the old content ends with: the file's newline-separated pieces are the old ones plus the key and an empty last piece |
| AuthorizedKeys.AppendTwiceKeepsBoth | ssh_to_pipeline.py:21-25 | supplying the same key twice appends it twice, with no deduplication: for any key the content is old + entry + entry, and a non-empty newline-free key's count among the lines grows by two |
| AuthorizedKeys.KeysFile.UpdateAuthorizedKeys | ssh_to_pipeline.py:19-30 | the in-place update leaves the file as `Update` says, and reports the error exactly when `Update` fails, leaving the file unchanged |
| TunnelUrl.LastColon | ssh_to_pipeline.py:104 | finds the last colon, or reports that there is none |
| TunnelUrl.Body | ssh_to_pipeline.py:104 | the anchored text is the URL without `tcp://` and without at most one final newline; a URL without the prefix has none |
| TunnelUrl.SplitHostPort | ssh_to_pipeline.py:104-106 | a split yields a non-empty newline-free host and a non-empty digit port joined by a colon |
| TunnelUrl.Match | ssh_to_pipeline.py:104-106 | every match reported satisfies the pattern, with host and port as its groups (`MatchComplete` gives the converse) |
| TunnelUrl.MatchComplete | ssh_to_pipeline.py:104-106 | every way the URL satisfies the pattern is found, with exactly those groups, so the match is unique |
| TunnelUrl.RoundTrip | ssh_to_pipeline.py:104-106 | `"tcp://" + h + ":" + p` splits back into `(h, p)` for any newline-free non-empty `h`, colons included, and non-empty digits `p` |
| TunnelUrl.WrongSchemeRejected | ssh_to_pipeline.py:104-105 | a URL without the `tcp://` prefix fails the match |
| TunnelUrl.NoTrailingPortRejected | ssh_to_pipeline.py:104-105 | a newline-free URL in which no colon is followed by digits up to the end fails the match |
| TunnelUrl.ExampleUrl | ssh_to_pipeline.py:104-106 | `tcp://0.tcp.example.com:54321` gives host `0.tcp.example.com` and port `54321` |
| Supervisor.Instructions | ssh_to_pipeline.py:108-122 | the block is the fixed header, a newline, the ssh command, a newline and the fixed tail, each at its place; when host, port and user are newline-free, its newline-separated lines are the header's lines, then the ssh command, then the tail's lines |
| Supervisor.InstructionsShowCommand | ssh_to_pipeline.py:108-122 | the printed block holds `ssh -p PORT USER@HOST` as a line of its own |
| Supervisor.HandleLine | ssh_to_pipeline.py:100-106 | a decoded line stops the loop exactly when it is a bad event (not an object, or a "started tunnel" event whose url is missing or fails the pattern), with that event's fault; otherwise it prints at most one block, and none for other messages |
| Supervisor.Handle | ssh_to_pipeline.py:95-106 | one iteration: an undecodable read fails with `UnicodeDecodeError`; a non-raising read with sshd dead stops with "sshd terminated unexpectedly"; an empty read with sshd alive closes; with sshd alive, a non-object line, a "started tunnel" event without url, or one whose url fails the pattern fails with its exception; a step that goes on was a line read while sshd was alive; no step stops as pending |
| Supervisor.Supervise | ssh_to_pipeline.py:94-124 | every step before `handled` went on, the step at `handled` decided the outcome, the run is pending exactly when the trace is used up, and sshd is killed exactly on a normal close |
| Supervisor.PrintedAreAnnouncements | ssh_to_pipeline.py:102-122 | exactly one block for each handled "started tunnel" event, in stream order, repeats included; other events print nothing |
| Supervisor.SshdDeathWins | ssh_to_pipeline.py:95-97 | if sshd is dead after a read that did not raise, the loop fails there whatever was read, EOF or a valid event, without processing that line and without killing sshd |
| Supervisor.StopsAt | ssh_to_pipeline.py:94-106 | the first step that does not go on ends the loop at that step with its outcome, after printing the announcements of the steps before it |
| Supervisor.BadEventFails | ssh_to_pipeline.py:100-105 | a bad event read while sshd is alive fails the loop at that step with its fault, without skipping it, without printing for it and without killing sshd |
| Supervisor.ClosedOnlyOnEof | ssh_to_pipeline.py:98-99 | the loop ends normally exactly on an empty read with sshd alive, and only then is sshd killed |
| Supervisor.IgnorableIsTransparent | ssh_to_pipeline.py:102 | inserting anywhere a line that is a JSON object whose `msg` is not "started tunnel", read while sshd is alive, changes neither the outcome, nor the output, nor whether sshd is killed |
| Supervisor.AnnouncementThenEof | ssh_to_pipeline.py:94-124 | any "started tunnel" event whose url matches, followed by EOF, prints one block for its host and port and then kills sshd |
| Supervisor.AnnouncedThenClosed | ssh_to_pipeline.py:94-124 | a "started tunnel" event for `tcp://0.tcp.example.com:54321`, followed by EOF, prints one block for that host and port and then kills sshd |
| Supervisor.Listen | ssh_to_pipeline.py:94-124 | the imperative loop, with the checks in source order, computes exactly `Supervise` |
| Pipeline.CheckToken | ssh_to_pipeline.py:128-136 | passes the unchanged token exactly when it is defined and one word; fails as undefined exactly when it is missing, and as not one word when it is present but not one word |
| Pipeline.Provision | ssh_to_pipeline.py:127-146 | the key file changes only after the token passes, and once it passes the file is `Update`'s result, or the old file when `Update` raises; nothing is printed unless all five steps ran; sshd is killed only on a normal return |
| Pipeline.TokenGate | ssh_to_pipeline.py:128-146 | no step runs exactly when the token check fails; a missing or rejected token raises with the key file untouched |
| Pipeline.KeyGate | ssh_to_pipeline.py:138-140 | once the token passes, a failing key update (lines 26-30) ends the run at once: only the key step was entered, no package is installed and no process started, nothing is printed, sshd is not killed, the file is untouched, and the key error is raised |
| Pipeline.StagesInOrder | ssh_to_pipeline.py:138-146 | the steps entered are a prefix of the five in source order; all five run exactly when the token passes and the keys can be set up; the server step gets the raw token |
| Pipeline.FinishedIff | ssh_to_pipeline.py:127-146 | the program returns normally exactly when the token passes, a key is available and ngrok's stream ends with sshd alive; sshd is killed exactly then |
| Pipeline.ExitMirrorsLoop | ssh_to_pipeline.py:94-146 | once the token passes and the keys are set up, the program raises "sshd terminated unexpectedly" exactly when sshd died, raises the event's exception exactly when the loop hit a bad or undecodable line, returns exactly on a normal close, and prints what the loop printed |
| Pipeline.SshToPipeline | ssh_to_pipeline.py:127-146 | the imperative run produces exactly the `Provision` report and leaves the key file in the state it records |

## Left out

- `install_packages()` (lines 33-44) only runs apt, curl and gpg. It appears as a named stage and always succeeds, so a failing `check_call` is not modelled.
- `fix_bitbucket_tty()` and `add_copyenv_script()` (lines 47-74) append fixed text or write `os.getcwd()` and `os.getpid()` into files. They appear as named stages only.
- `chmod go-w ~` (line 17), the `mkdir` of `~/.ssh` (line 22), and the `mkdir`, `chown` and `chmod` of `/run/sshd` (lines 79-83) are left out, as are their failures. Only the authorized_keys file's content and mode are modelled, and the mode it has before the `chmod` is irrelevant.
- `ngrok config add-authtoken` (line 78) is recorded as the `StartSshServer(token)` stage. Its failure is not modelled.
- The processes themselves (`Popen`, `tee /dev/stderr`, `poll`, `kill`, the waits in `Popen.__exit__`) and their concurrency are left out. They are replaced by a trace of (read result, sshd alive) steps and a killed flag.
- A trace that ends without EOF is reported as `Pending`, because the real `readline()` would block.
- `json.loads` is left out. A line is already decoded into `Malformed` (not valid JSON, or not an object) or its optional string `msg` and `url`. A non-string `msg` counts as absent, and a non-string `url` as missing.
- Python's `\d` also matches non-ASCII decimal digits. The model accepts ASCII digits only.
- A line that raises `UnicodeDecodeError` is an `Undecodable` step. Which `readline()` call raises depends on buffering, and the model does not capture that.
- `getuser()` is a parameter.
- `argparse` in `main()` takes no arguments and is left out.
- The text written to stdout and to files is modelled as characters, not encoded bytes.
- `assert m is not None` (line 105) is modelled as failing. Under `python -O` the next line raises `AttributeError` instead, which is fatal all the same.
