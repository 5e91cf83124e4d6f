/**
 The mutation tool's promise that the original source comes back, even when the
 process is killed: a sidecar backup is written before the first mutant and is
 removed only after the original is in place again. File writes are atomic here.
 */
module Mutation {
  import opened Common

  /** What is on disk: the target file and, while it is at risk, its sidecar backup. */
  datatype Disk = Disk(target: string, sidecar: Option<string>)

  /** A generated mutant: what was changed, and the whole mutated text. */
  datatype Mutant = Mutant(name: string, text: string)

  /** How mutants are made from a source, and how many of them are wanted. */
  datatype Tool = Tool(mutationsFor: string -> seq<Mutant>, most: int)

  /** The mutants that are tried: a limit of zero is none, and a negative one counts from the end. */
  function Tried(tool: Tool, source: string): (r: seq<Mutant>)
    ensures r <= tool.mutationsFor(source)
  {
    var all, most := tool.mutationsFor(source), tool.most;
    if most == 0 || |all| <= most then all
    else if most > 0 then all[..most]
    else all[..if |all| + most > 0 then |all| + most else 0]
  }

  /** How many mutants are tried: all without a limit, at most the limit, or all but the last ones when it is negative; always from the front. */
  lemma {:induction false} TriedCount(tool: Tool, source: string)
    ensures var all, tried := tool.mutationsFor(source), Tried(tool, source);
            && tried <= all
            && (tool.most == 0 ==> |tried| == |all|)
            && (tool.most > 0 ==> |tried| <= tool.most && (|tried| == tool.most || |tried| == |all|))
            && (tool.most < 0 ==> (|all| - |tried| == -tool.most || (|tried| == 0 && |all| <= -tool.most)))
  {
  }

  /** Where the process stands, with what it holds in memory. */
  datatype Process =
    | Idle                                                // not running
    | Restoring(backup: string)                           // a stale sidecar was found and read
    | Unlinking                                           // the target is restored, the stale sidecar still there
    | Ready                                               // about to read the source
    | Loaded(mutants: seq<Mutant>)                        // mutants generated from what was read
    | Guarding(original: string, mutants: seq<Mutant>)    // the bytes to protect are in memory
    | Mutating(original: string, mutants: seq<Mutant>)    // the sidecar is written, these mutants are left
    | Leaving(original: string)                           // the with-block is over
    | Closing                                             // the target is restored, the sidecar still there

  datatype Machine = Machine(disk: Disk, process: Process)

  /** One file operation of the process, an exception inside the with-block, or a kill at any moment. */
  datatype Action = Go | Raise | Kill

  function Next(tool: Tool, m: Machine, a: Action): (m': Machine) {
    match a
    case Kill => m.(process := Idle)
    case Raise => if m.process.Mutating? then m.(process := Leaving(m.process.original)) else m
    case Go =>
      match m.process
      case Idle => m.(process := if m.disk.sidecar.Some? then Restoring(m.disk.sidecar.value) else Ready)
      case Restoring(backup) => Machine(m.disk.(target := backup), Unlinking)
      case Unlinking => Machine(m.disk.(sidecar := None), Ready)
      case Ready => m.(process := Loaded(Tried(tool, m.disk.target)))
      case Loaded(mutants) => m.(process := Guarding(m.disk.target, mutants))
      case Guarding(original, mutants) => Machine(m.disk.(sidecar := Some(original)), Mutating(original, mutants))
      case Mutating(original, mutants) =>
        if mutants == [] then m.(process := Leaving(original))
        else Machine(m.disk.(target := mutants[0].text), Mutating(original, mutants[1..]))
      case Leaving(original) => Machine(m.disk.(target := original), Closing)
      case Closing => Machine(m.disk.(sidecar := None), Idle)
  }

  function Run(tool: Tool, m: Machine, actions: seq<Action>): (m': Machine) {
    if actions == [] then m else Next(tool, Run(tool, m, actions[..|actions| - 1]), actions[|actions| - 1])
  }

  /* ---- Over every run and every kill ---- */

  /** The file as it stands after the first `k` mutants were written over the original. */
  function Written(all: seq<Mutant>, original: string, k: nat): (text: string)
    requires k <= |all|
  {
    if k == 0 then original else all[k - 1].text
  }

  /** The original is never lost: it is in the target, or in the sidecar, and the process agrees. */
  predicate Safe(m: Machine, original: string) {
    && (m.disk.sidecar == None || m.disk.sidecar == Some(original))
    && (m.disk.target == original || m.disk.sidecar == Some(original))
    && match m.process
       case Idle => true
       case Restoring(backup) => backup == original && m.disk.sidecar == Some(original)
       case Unlinking => m.disk.target == original
       case Ready => m.disk == Disk(original, None)
       case Loaded(_) => m.disk == Disk(original, None)
       case Guarding(o, _) => o == original && m.disk == Disk(original, None)
       case Mutating(o, _) => o == original && m.disk.sidecar == Some(original)
       case Leaving(o) => o == original && m.disk.sidecar == Some(original)
       case Closing => m.disk.target == original
  }

  /** However often the tool runs, and wherever it is killed, the target differs from the original only while the sidecar holds it. */
  lemma {:induction false} OriginalIsNeverLost(tool: Tool, original: string, actions: seq<Action>)
    ensures Safe(Run(tool, Machine(Disk(original, None), Idle), actions), original)
  {
    if actions != [] {
      OriginalIsNeverLost(tool, original, actions[..|actions| - 1]);
    }
  }

  /** The mutants in memory are those of the original that are still to be written, and the last one written is on disk. */
  predicate Faithful(m: Machine, original: string, all: seq<Mutant>) {
    && (m.disk.target == original || exists i :: 0 <= i < |all| && m.disk.target == all[i].text)
    && match m.process
       case Loaded(mutants) => mutants == all
       case Guarding(_, mutants) => mutants == all
       case Mutating(_, mutants) =>
         |mutants| <= |all| && var k := |all| - |mutants|; mutants == all[k..] && m.disk.target == Written(all, original, k)
       case _ => true
  }

  lemma {:induction false} FaithfulNext(tool: Tool, m: Machine, a: Action, original: string, all: seq<Mutant>)
    requires all == Tried(tool, original) && Safe(m, original) && Faithful(m, original, all)
    ensures Faithful(Next(tool, m, a), original, all)
  {
    if a.Go? && m.process.Mutating? && m.process.mutants != [] {
      assert all[|all| - |m.process.mutants|] == m.process.mutants[0];
    }
  }

  /**
   Whatever happened before: the file on disk is the original or one of the original's own
   mutants, never a mutant of a mutant, and while a run lasts its mutants are on disk one after
   the other, in the order they were made from the original.
   */
  lemma {:induction false} MutantsComeFromOriginal(tool: Tool, original: string, actions: seq<Action>)
    ensures Faithful(Run(tool, Machine(Disk(original, None), Idle), actions), original, Tried(tool, original))
  {
    if actions != [] {
      var n := |actions| - 1;
      MutantsComeFromOriginal(tool, original, actions[..n]);
      OriginalIsNeverLost(tool, original, actions[..n]);
      FaithfulNext(tool, Run(tool, Machine(Disk(original, None), Idle), actions[..n]), actions[n], original, Tried(tool, original));
    }
  }

  /* ---- Left alone ---- */

  /** The process, for `n` file operations without an exception or a kill. */
  function Undisturbed(n: nat): (actions: seq<Action>) {
    seq(n, i => Go)
  }

  lemma {:induction false} OneMore(tool: Tool, m: Machine, n: nat)
    ensures Run(tool, m, Undisturbed(n + 1)) == Next(tool, Run(tool, m, Undisturbed(n)), Go)
  {
    assert Undisturbed(n + 1)[..n] == Undisturbed(n);
  }

  lemma {:induction false} OnFrom(tool: Tool, m: Machine, a: nat, b: nat)
    ensures Run(tool, m, Undisturbed(a + b)) == Run(tool, Run(tool, m, Undisturbed(a)), Undisturbed(b))
    decreases b
  {
    if b > 0 {
      OnFrom(tool, m, a, b - 1);
      OneMore(tool, m, a + b - 1);
      OneMore(tool, Run(tool, m, Undisturbed(a)), b - 1);
    }
  }

  lemma {:induction false} Three(tool: Tool, m: Machine)
    ensures Run(tool, m, Undisturbed(1)) == Next(tool, m, Go)
    ensures Run(tool, m, Undisturbed(3)) == Next(tool, Next(tool, Next(tool, m, Go), Go), Go)
  {
    assert Undisturbed(0) == [];
    OneMore(tool, m, 0);
    OneMore(tool, m, 1);
    OneMore(tool, m, 2);
  }

  /** The text the tool takes for the original. */
  function Source(disk: Disk): (text: string) {
    if disk.sidecar.Some? then disk.sidecar.value else disk.target
  }

  /** The file operations of the next start, up to the point where the source is read. */
  function Restart(disk: Disk): (n: nat) {
    if disk.sidecar.Some? then 3 else 1
  }

  lemma {:induction false} Starts(tool: Tool, disk: Disk)
    ensures Run(tool, Machine(disk, Idle), Undisturbed(Restart(disk))) == Machine(Disk(Source(disk), None), Ready)
  {
    Three(tool, Machine(disk, Idle));
  }

  /** After any history and a kill, the next start restores the original and removes the sidecar before it reads anything. */
  lemma {:induction false} RestartRecovers(tool: Tool, original: string, actions: seq<Action>)
    ensures var killed := Next(tool, Run(tool, Machine(Disk(original, None), Idle), actions), Kill);
            Run(tool, killed, Undisturbed(Restart(killed.disk))) == Machine(Disk(original, None), Ready)
  {
    var killed := Next(tool, Run(tool, Machine(Disk(original, None), Idle), actions), Kill);
    OriginalIsNeverLost(tool, original, actions);
    Starts(tool, killed.disk);
  }

  lemma {:induction false} WritesInOrder(tool: Tool, original: string, all: seq<Mutant>, k: nat)
    requires k <= |all|
    ensures Run(tool, Machine(Disk(original, Some(original)), Mutating(original, all)), Undisturbed(k)) ==
            Machine(Disk(Written(all, original, k), Some(original)), Mutating(original, all[k..]))
  {
    var m := Machine(Disk(original, Some(original)), Mutating(original, all));
    if k > 0 {
      WritesInOrder(tool, original, all, k - 1);
      OneMore(tool, m, k - 1);
    }
  }

  /** Where an undisturbed run stands when `k` of its mutants were written. */
  lemma {:induction false} RunReaches(tool: Tool, disk: Disk, k: nat)
    requires k <= |Tried(tool, Source(disk))|
    ensures var source := Source(disk); var all := Tried(tool, source);
            Run(tool, Machine(disk, Idle), Undisturbed(Restart(disk) + 3 + k)) ==
            Machine(Disk(Written(all, source, k), Some(source)), Mutating(source, all[k..]))
  {
    var m := Machine(disk, Idle);
    var source := Source(disk);
    Starts(tool, disk);
    OnFrom(tool, m, Restart(disk), 3);
    Three(tool, Machine(Disk(source, None), Ready));
    OnFrom(tool, m, Restart(disk) + 3, k);
    WritesInOrder(tool, source, Tried(tool, source), k);
  }

  /** The way out, once no mutant is left. */
  lemma {:induction false} Leaves(tool: Tool, m: Machine, n: nat, text: string, original: string)
    requires Run(tool, m, Undisturbed(n)) == Machine(Disk(text, Some(original)), Mutating(original, []))
    ensures Run(tool, m, Undisturbed(n + 3)) == Machine(Disk(original, None), Idle)
  {
    OnFrom(tool, m, n, 3);
    Three(tool, Run(tool, m, Undisturbed(n)));
  }

  /** The machine and the tool agree: undisturbed, the machine goes through the disks that `RunMutations` judges and ends with the one it promises. */
  lemma {:induction false} WholeRunRestores(tool: Tool, disk: Disk)
    ensures var source := Source(disk); var all := Tried(tool, source); var n := Restart(disk) + 3;
            && (forall k :: 0 <= k < |all| ==>
                 Run(tool, Machine(disk, Idle), Undisturbed(n + k + 1)).disk == Disk(all[k].text, Some(source)))
            && Run(tool, Machine(disk, Idle), Undisturbed(n + |all| + 3)) == Machine(Disk(source, None), Idle)
  {
    var source := Source(disk);
    var all, n := Tried(tool, source), Restart(disk) + 3;
    forall k | 0 <= k < |all| ensures Run(tool, Machine(disk, Idle), Undisturbed(n + k + 1)).disk == Disk(all[k].text, Some(source)) {
      RunReaches(tool, disk, k + 1);
    }
    RunReaches(tool, disk, |all|);
    assert all[|all|..] == [];
    Leaves(tool, Machine(disk, Idle), n + |all|, Written(all, source, |all|), source);
  }

  /* ---- The tool ---- */

  datatype Status = Killed | Survived | KilledByTimeout | TestCommandError(detail: string)

  datatype Verdict = Verdict(mutation: string, status: Status)

  /** The target file as the tool handles it. */
  class TargetFile {
    var target: string
    var sidecar: Option<string>

    function OnDisk(): (d: Disk)
      reads this
    {
      Disk(target, sidecar)
    }

    /** Restore from a stale sidecar, if there is one. */
    method Recover() returns (recovered: bool)
      modifies this
      ensures recovered <==> old(sidecar).Some?
      ensures OnDisk() == Disk(Source(old(OnDisk())), None)
    {
      if sidecar.None? {
        return false;
      }
      var original := sidecar.value;
      target := original;
      sidecar := None;
      return true;
    }

    /** One whole run. The test command, `judge`, sees what is on disk: each mutant in turn, with the original in the sidecar. */
    method RunMutations(tool: Tool, judge: Disk -> Status) returns (results: seq<Verdict>)
      modifies this
      ensures var source := Source(old(OnDisk())); var tried := Tried(tool, source);
              && OnDisk() == Disk(source, None)
              && |results| == |tried|
              && forall i :: 0 <= i < |tried| ==> results[i] == Verdict(tried[i].name, judge(Disk(tried[i].text, Some(source))))
    {
      var recovered := Recover();
      var mutants := Tried(tool, target);
      results := [];
      var original := target;
      sidecar := Some(original);
      for i := 0 to |mutants|
        invariant sidecar == Some(original)
        invariant |results| == i && forall j :: 0 <= j < i ==> results[j] == Verdict(mutants[j].name, judge(Disk(mutants[j].text, Some(original))))
      {
        target := mutants[i].text;
        results := results + [Verdict(mutants[i].name, judge(OnDisk()))];
      }
      target := original;
      sidecar := None;
    }
  }
}
