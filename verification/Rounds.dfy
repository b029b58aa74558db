/** internal/agent/round.go and parallelreads.go: the actions of one round, one after another or with
    reads that run side by side, as functions of what the outside answers. */
module Rounds {
  import opened Strings
  import opened FileReads
  import opened WorkMemory
  import opened Ledger
  import opened RunMemory
  import opened Approvals

  // ---- What the outside answers.

  datatype Verdict = Allow | AskFirst | Deny(reason: string)

  /** What a command prints and how it ends. */
  datatype Ran = Ran(output: string, truncated: bool, exit: int, couldNotRun: bool)

  /** What became of an action that is no shell command: refused or not, what it reports, and whether
      it wrote a file. An action with no words at all is not handled. */
  datatype Other = NotHandled | Handled(text: string, refused: bool, wroteFile: bool, tree: nat)

  /** An action of a round: a line for the shell, or anything else. */
  datatype Action = Shell(command: string) | Another(kind: string)

  /** The outside of one round. A state of the working tree is a number; a command run on one gives a
      result, and a line that is not a read may leave another. `fake` says why a line is refused as a
      made-up check ("" when it is not), and `hint` is what is added to the output of a privileged
      command that failed. */
  datatype Env = Env(
    round: nat,
    isRead: string -> bool,
    fake: string -> string,
    hint: (string, string, int) -> string,
    verdict: string -> Verdict,
    approval: (nat, string) -> Approval,
    exec: (nat, string) -> Ran,
    writes: (nat, string) -> nat,
    look: nat -> Look,
    other: (nat, nat) -> Other,
    reportsFailure: string -> bool,
    checks: Keying)

  datatype Failure = NoFailure | Failed(action: nat, why: string)

  /** What a round has done so far. */
  datatype Progress = Progress(tree: nat, out: string, lastErr: Failure, mem: Mem)

  const MAX_PARALLEL_READS := 4

  // ---- One action.

  predicate Blank(command: string) {
    TrimSpace(command) == ""
  }

  predicate Reads(env: Env, command: string) {
    env.isRead(command) && !Blank(command)
  }

  /** What a command leaves in the round's output. */
  function Printed(command: string, r: Ran): string {
    "$ " + command + "\n" +
    (if r.output == "" || HasSuffix(r.output, "\n") then r.output else r.output + "\n") +
    (if r.truncated then "[output truncated by the sandbox limit]\n" else "") +
    "[exit=" + DecInt(r.exit) + "]\n"
  }

  predicate EndedWell(r: Ran) {
    !r.couldNotRun && r.exit == 0 && !r.truncated
  }

  /** What the memory learns from a command that ran. */
  function Learned(env: Env, mem: Mem, command: string, r: Ran, tree: nat): Mem {
    var e := Execution(command, env.round, r.exit, r.couldNotRun, r.output, env.reportsFailure(r.output));
    var noted := mem.(executed := mem.executed + 1, verif := Noted(mem.verif, e, env.checks));
    if !env.isRead(command) then Synced(noted, env.look(tree))
    else if EndedWell(r) then noted.(memory := Remembered(noted.memory, command, env.round, r.output))
    else noted
  }

  function Recorded(env: Env, s: Progress, i: nat, command: string, r: Ran, tree: nat): Progress {
    Progress(tree, s.out + Printed(command, r),
             if r.couldNotRun then Failed(i, "could not run") else s.lastErr,
             Learned(env, s.mem, command, r, tree))
  }

  function Refused(s: Progress, i: nat, command: string, why: string): Progress {
    s.(out := s.out + "$ " + command + "\n[refused: " + why + "]\n", lastErr := Failed(i, "was refused: " + why))
  }

  function Hinted(env: Env, command: string, r: Ran): Ran {
    r.(output := r.output + env.hint(command, r.output, r.exit))
  }

  /** The state of the tree once a line ran: a read leaves it as it is. */
  function TreeAfter(env: Env, tree: nat, command: string): nat {
    if env.isRead(command) then tree else env.writes(tree, command)
  }

  function RunLine(env: Env, s: Progress, i: nat, command: string): Progress {
    if env.fake(command) != "" then Refused(s, i, command, env.fake(command))
    else
      match env.verdict(command)
      case Deny(reason) => Refused(s, i, command, reason)
      case Allow => RunAllowed(env, s, i, command)
      case AskFirst =>
        match env.approval(i, command)
        case Approved => RunAllowed(env, s, i, command)
        case Declined =>
          s.(out := s.out + "$ " + command + "\n[not approved: the user declined this command]\n",
             lastErr := Failed(i, "was declined by the user"))
        case NobodyToAsk(why) =>
          s.(out := s.out + "$ " + command + "\n[not approved: " + why + "]\n",
             lastErr := Failed(i, "needs approval and there is nobody to ask: " + why))
  }

  function RunAllowed(env: Env, s: Progress, i: nat, command: string): Progress {
    Recorded(env, s, i, command, Hinted(env, command, env.exec(s.tree, command)), TreeAfter(env, s.tree, command))
  }

  function NotRunAgain(s: Progress, command: string, round: nat): Progress {
    s.(out := s.out + "$ " + command + "\n[not run again: the same read was made in round " + Dec(round) + "]\n",
       mem := s.mem.(recalled := s.mem.recalled + 1))
  }

  function RunShell(env: Env, s: Progress, i: nat, command: string): Progress {
    if Blank(command) then s
    else
      var a := if env.isRead(command) then AnswerTo(s.mem.memory, command) else Answer.Run;
      match a
      case Recalled(round) => NotRunAgain(s, command, round)
      case Run => RunLine(env, s, i, command)
  }

  function RunOther(env: Env, s: Progress, i: nat, kind: string): Progress {
    var unsynced := s.mem.(unsynced := true);
    match env.other(s.tree, i)
    case NotHandled => s.(mem := unsynced)
    case Handled(text, refused, wroteFile, tree) =>
      Progress(tree, s.out + "[" + kind + "] " + text + "\n",
               if refused then Failed(i, "was refused") else s.lastErr,
               if wroteFile then Synced(unsynced.(executed := unsynced.executed + 1), env.look(tree)) else unsynced)
  }

  /** One action, the way a round runs it on its own. */
  function RunOne(env: Env, s: Progress, i: nat, action: Action): Progress {
    match action
    case Shell(command) => RunShell(env, s, i, command)
    case Another(kind) => RunOther(env, s, i, kind)
  }

  // ---- Reads side by side.

  /** A shell read the policy allows without a question, and the memory does not hold. */
  predicate ParallelRead(env: Env, mem: Mem, action: Action) {
    action.Shell? && Reads(env, action.command) &&
    AnswerTo(mem.memory, action.command) == Answer.Run && env.verdict(action.command) == Allow
  }

  /** How many of the actions from i on may run side by side, `n` of them being told already. */
  function BatchFrom(env: Env, mem: Mem, actions: seq<Action>, i: nat, n: nat): (k: nat)
    requires i + n <= |actions| && n <= MAX_PARALLEL_READS
    ensures n <= k <= MAX_PARALLEL_READS && i + k <= |actions|
    decreases MAX_PARALLEL_READS - n
  {
    if i + n < |actions| && n < MAX_PARALLEL_READS && ParallelRead(env, mem, actions[i + n])
    then BatchFrom(env, mem, actions, i, n + 1)
    else n
  }

  /** The first n commands of a batch, recorded in order: each was run on the tree as it was. */
  function BatchRecorded(env: Env, s: Progress, first: nat, batch: seq<string>, n: nat): (r: Progress)
    requires n <= |batch|
    ensures r.tree == s.tree
  {
    if n == 0 then s
    else
      var before, command := BatchRecorded(env, s, first, batch, n - 1), batch[n - 1];
      var r := env.exec(s.tree, command);
      Recorded(env, before, first + n - 1, command, r, s.tree)
  }

  /** The same commands, each the way a round runs it on its own. */
  function OneByOne(env: Env, s: Progress, first: nat, batch: seq<string>, n: nat): Progress
    requires n <= |batch|
  {
    if n == 0 then s
    else
      RunOne(env, OneByOne(env, s, first, batch, n - 1), first + n - 1, Shell(batch[n - 1]))
  }

  // ---- A whole round.

  /** The lines of k actions from i on. */
  function LinesOf(actions: seq<Action>, i: nat, k: nat): (lines: seq<string>)
    requires i + k <= |actions|
    ensures |lines| == k
    ensures forall j :: 0 <= j < k && actions[i + j].Shell? ==> lines[j] == actions[i + j].command
  {
    seq(k, j requires 0 <= j < k => if actions[i + j].Shell? then actions[i + j].command else "")
  }

  /** The actions from i on, reads side by side. */
  function RoundFrom(env: Env, s: Progress, actions: seq<Action>, i: nat): Progress
    requires i <= |actions|
    decreases |actions| - i
  {
    if i == |actions| then s
    else
      var n := BatchFrom(env, s.mem, actions, i, 0);
      if n > 1 then RoundFrom(env, BatchRecorded(env, s, i, LinesOf(actions, i, n), n), actions, i + n)
      else RoundFrom(env, RunOne(env, s, i, actions[i]), actions, i + 1)
  }

  /** The actions from i on, one after another. */
  function OneAtATime(env: Env, s: Progress, actions: seq<Action>, i: nat): Progress
    requires i <= |actions|
    decreases |actions| - i
  {
    if i == |actions| then s
    else OneAtATime(env, RunOne(env, s, i, actions[i]), actions, i + 1)
  }
}
