/** internal/agent/round.go and parallelreads.go: the executor of a round, which appends to its output
    and updates the working memory action by action. Every method is proved against Rounds.dfy. */
module RoundRuns {
  import opened Strings
  import opened FileReads
  import opened WorkMemory
  import opened Ledger
  import opened RunMemory
  import opened Approvals
  import opened Rounds

  class RoundRun {
    const env: Env
    const mem: WorkingMemory
    var sb: string
    var lastErr: Failure
    var tree: nat

    ghost function View(): Progress
      reads this, mem, mem.ledger
    {
      Progress(tree, sb, lastErr, mem.View())
    }

    ghost predicate Ready()
      reads mem
    {
      mem.IsValid() && env.checks == KeyedBy(mem.ledger.phrases)
    }

    constructor (env: Env, mem: WorkingMemory, tree: nat)
      requires mem.IsValid() && env.checks == KeyedBy(mem.ledger.phrases)
      ensures this.env == env && this.mem == mem && Ready()
      ensures View() == Progress(tree, "", NoFailure, mem.View())
    {
      this.env, this.mem, this.tree := env, mem, tree;
      sb, lastErr := "", NoFailure;
    }

    /** What the memory learns from a command that ran. */
    method Learn(command: string, r: Ran)
      requires Ready()
      modifies mem, mem.ledger
      ensures Ready() && mem.View() == Learned(env, old(mem.View()), command, r, tree)
    {
      hide Noted, Remembered;
      mem.executed := mem.executed + 1;
      mem.ledger.NoteVerification(
        Execution(command, env.round, r.exit, r.couldNotRun, r.output, env.reportsFailure(r.output)));
      if !env.isRead(command) {
        var _ := mem.Sync(env.look(tree));
      } else if EndedWell(r) {
        mem.Remember(command, env.round, r.output);
      }
    }

    /** Adds what a command printed to the round's output, and lets the memory learn from it. */
    method Record(i: nat, command: string, r: Ran)
      requires Ready()
      modifies this`sb, this`lastErr, mem, mem.ledger
      ensures Ready() && View() == Recorded(env, old(View()), i, command, r, tree)
    {
      hide Learned, Printed;
      sb := sb + Printed(command, r);
      Learn(command, r);
      if r.couldNotRun {
        lastErr := Failed(i, "could not run");
      }
    }

    method Refuse(i: nat, command: string, why: string)
      modifies this`sb, this`lastErr
      ensures View() == Refused(old(View()), i, command, why)
    {
      sb := sb + "$ " + command + "\n[refused: " + why + "]\n";
      lastErr := Failed(i, "was refused: " + why);
    }

    /** An action the policy asks about is put in front of the person. */
    method Ask(i: nat, command: string) returns (approved: bool)
      modifies this`sb, this`lastErr
      ensures approved <==> env.approval(i, command) == Approved
      ensures approved ==> View() == old(View())
      ensures !approved && env.approval(i, command) == Declined ==>
        View() == old(View()).(out := old(sb) + "$ " + command + "\n[not approved: the user declined this command]\n",
                               lastErr := Failed(i, "was declined by the user"))
      ensures !approved && env.approval(i, command).NobodyToAsk? ==>
        var why := env.approval(i, command).why;
        View() == old(View()).(out := old(sb) + "$ " + command + "\n[not approved: " + why + "]\n",
                               lastErr := Failed(i, "needs approval and there is nobody to ask: " + why))
    {
      var answer := env.approval(i, command);
      match answer
      case Approved => approved := true;
      case Declined =>
        sb := sb + "$ " + command + "\n[not approved: the user declined this command]\n";
        lastErr := Failed(i, "was declined by the user");
        approved := false;
      case NobodyToAsk(why) =>
        sb := sb + "$ " + command + "\n[not approved: " + why + "]\n";
        lastErr := Failed(i, "needs approval and there is nobody to ask: " + why);
        approved := false;
    }

    /** Runs a line once the policy has had its say. */
    method RunTheLine(i: nat, command: string)
      requires Ready()
      modifies this, mem, mem.ledger
      ensures Ready() && View() == RunLine(env, old(View()), i, command)
    {
      hide Refused, Recorded, Hinted;
      if env.fake(command) != "" {
        Refuse(i, command, env.fake(command));
        return;
      }
      var verdict := env.verdict(command);
      if verdict.Deny? {
        Refuse(i, command, verdict.reason);
        return;
      }
      if verdict.AskFirst? {
        var approved := Ask(i, command);
        if !approved {
          return;
        }
      }
      var r := Hinted(env, command, env.exec(tree, command));
      TreeIsGiven(env, View(), i, command, r, TreeAfter(env, tree, command));
      if !env.isRead(command) {
        tree := env.writes(tree, command);
      }
      Record(i, command, r);
    }

    /** A read the memory still holds, and the prompt still shows, is not run again. */
    method RunTheShell(i: nat, command: string)
      requires Ready()
      modifies this, mem, mem.ledger
      ensures Ready() && View() == RunShell(env, old(View()), i, command)
    {
      hide RunLine, Blank, AnswerTo, Dec;
      if Blank(command) {
        return;
      }
      if env.isRead(command) {
        var a := mem.Recall(command);
        AnswerIsAnAnswer(mem.Reads(), command);
        OneAnswer(mem.Reads(), command, a, AnswerTo(mem.Reads(), command));
        hide IsAnswer;
        if a.Recalled? {
          sb := sb + "$ " + command + "\n[not run again: the same read was made in round " + Dec(a.round) + "]\n";
          mem.recalled := mem.recalled + 1;
          return;
        }
      }
      RunTheLine(i, command);
    }

    method RunAnother(i: nat, kind: string)
      requires Ready()
      modifies this, mem
      ensures Ready() && View() == RunOther(env, old(View()), i, kind)
    {
      mem.unsynced := true;
      var result := env.other(tree, i);
      if result.NotHandled? {
        return;
      }
      tree := result.tree;
      sb := sb + "[" + kind + "] " + result.text + "\n";
      if result.refused {
        lastErr := Failed(i, "was refused");
      }
      if result.wroteFile {
        mem.executed := mem.executed + 1;
        var _ := mem.Sync(env.look(tree));
      }
    }

    method RunAction(i: nat, action: Action)
      requires Ready()
      modifies this, mem, mem.ledger
      ensures Ready() && View() == RunOne(env, old(View()), i, action)
    {
      hide RunShell, RunOther;
      match action
      case Shell(command) => RunTheShell(i, command);
      case Another(kind) => RunAnother(i, kind);
    }

    /** How many of the actions from i on may run side by side. */
    method ReadBatch(actions: seq<Action>, i: nat) returns (n: nat)
      requires Ready() && i <= |actions|
      ensures n == BatchFrom(env, mem.View(), actions, i, 0)
    {
      hide AnswerTo, Blank;
      n := 0;
      while i + n < |actions| && n < MAX_PARALLEL_READS
        invariant i + n <= |actions| && n <= MAX_PARALLEL_READS
        invariant BatchFrom(env, mem.View(), actions, i, 0) == BatchFrom(env, mem.View(), actions, i, n)
        decreases MAX_PARALLEL_READS - n
      {
        var parallel := MayRunBeside(actions[i + n]);
        if !parallel {
          return;
        }
        n := n + 1;
      }
    }

    method MayRunBeside(action: Action) returns (parallel: bool)
      requires Ready()
      ensures parallel <==> ParallelRead(env, mem.View(), action)
    {
      hide AnswerTo, Blank;
      if action.Another? || !env.isRead(action.command) || Blank(action.command) {
        return false;
      }
      var a := mem.Recall(action.command);
      AnswerIsAnAnswer(mem.Reads(), action.command);
      OneAnswer(mem.Reads(), action.command, a, AnswerTo(mem.Reads(), action.command));
      hide IsAnswer;
      parallel := a == Answer.Run && env.verdict(action.command) == Allow;
    }

    /** Runs a batch of reads side by side, each into its own place, then records them in order. */
    method RunReads(first: nat, batch: seq<string>)
      requires Ready()
      modifies this`sb, this`lastErr, mem, mem.ledger
      ensures Ready() && View() == BatchRecorded(env, old(View()), first, batch, |batch|)
    {
      hide Recorded;
      var results := new Ran[|batch|](_ => Ran("", false, 0, false));
      for j := 0 to |batch|
        modifies results
        invariant forall k :: 0 <= k < j ==> results[k] == env.exec(tree, batch[k])
      {
        results[j] := env.exec(tree, batch[j]);
      }
      for j := 0 to |batch|
        modifies this`sb, this`lastErr, mem, mem.ledger
        invariant Ready() && View() == BatchRecorded(env, old(View()), first, batch, j)
        invariant forall k :: 0 <= k < |batch| ==> results[k] == env.exec(tree, batch[k])
      {
        Record(first + j, batch[j], results[j]);
      }
    }

    /** The actions of a round: the memory is checked against the tree, then each action runs, reads
        that may go together side by side. */
    method RunRound(actions: seq<Action>)
      requires Ready()
      modifies this, mem, mem.ledger
      ensures Ready()
      ensures View() ==
        RoundFrom(env, old(View()).(mem := Synced(old(mem.View()), env.look(old(tree)))), actions, 0)
    {
      hide BatchFrom, BatchRecorded, RunOne, LinesOf;
      var _ := mem.Sync(env.look(tree));
      ghost var start := View();
      var i := 0;
      while i < |actions|
        invariant 0 <= i <= |actions| && Ready()
        invariant RoundFrom(env, start, actions, 0) == RoundFrom(env, View(), actions, i)
      {
        var n := ReadBatch(actions, i);
        if n > 1 {
          RunReads(i, LinesOf(actions, i, n));
          i := i + n;
        } else {
          RunAction(i, actions[i]);
          i := i + 1;
        }
      }
    }
  }

  /** What is recorded takes the tree the command left, whatever it was before. */
  lemma TreeIsGiven(env: Env, s: Progress, i: nat, command: string, r: Ran, tree: nat)
    ensures Recorded(env, s.(tree := tree), i, command, r, tree) == Recorded(env, s, i, command, r, tree)
  {
    hide Learned, Printed;
  }
}
