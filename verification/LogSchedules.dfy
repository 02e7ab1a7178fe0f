/**
  Every fair schedule of the log workers ends: each turn of a thread that has not finished uses up one unit of a fixed
  amount of work.
 */
module LogSchedules {
  import opened LogTables
  import opened LogWorkers

  /** Turns that a thread in this phase still needs, apart from those for files not given out. */
  function Turns(p: Phase): nat {
    match p
    case Idle => 2
    case Busy(_) => 3
    case Leaving => 1
    case Finished => 0
  }

  function AllTurns(workers: seq<Worker>): nat {
    if workers == [] then 0 else AllTurns(workers[..|workers| - 1]) + Turns(workers[|workers| - 1].phase)
  }

  /** All the turns still needed: two for every file not given out, and what the threads have in hand. */
  function Work(n: nat, s: State): nat {
    (if s.next < n then 2 * (n - s.next) else 0) + AllTurns(s.workers)
  }

  lemma {:induction false} TurnsUpdate(workers: seq<Worker>, w: nat, me: Worker)
    requires w < |workers|
    ensures AllTurns(workers[w := me]) + Turns(workers[w].phase) == AllTurns(workers) + Turns(me.phase)
    decreases |workers|
  {
    var last, now := |workers| - 1, workers[w := me];
    if w == last {
      assert now[..last] == workers[..last];
    } else {
      assert now[..last] == workers[..last][w := me] && now[last] == workers[last];
      TurnsUpdate(workers[..last], w, me);
    }
  }

  lemma {:induction false} TurnsLeft(workers: seq<Worker>, w: nat)
    requires w < |workers|
    ensures Turns(workers[w].phase) <= AllTurns(workers)
  {
    if w < |workers| - 1 { TurnsLeft(workers[..|workers| - 1], w); }
  }

  lemma {:induction false} StartTurns(workers: seq<Worker>)
    requires forall w {:trigger workers[w]} :: 0 <= w < |workers| ==> workers[w].phase == Idle
    ensures AllTurns(workers) == 2 * |workers|
  {
    if workers != [] { StartTurns(workers[..|workers| - 1]); }
  }

  /** A turn of a thread that has not finished uses up exactly one unit of work; other turns change nothing. */
  lemma StepWorks(files: seq<Lines>, s: State, w: nat)
    requires AllSized(s) && w < |s.workers|
    ensures if s.workers[w].phase.Finished? then Step(files, s, w) == s
      else Work(|files|, Step(files, s, w)) == Work(|files|, s) - 1
  {
    var r := Step(files, s, w);
    if !s.workers[w].phase.Finished? {
      assert r.workers == s.workers[w := r.workers[w]];
      TurnsUpdate(s.workers, w, r.workers[w]);
    }
  }

  /** Over a stretch of the schedule work is used up, or else every thread that it names had finished. */
  lemma {:induction false} RunWorks(files: seq<Lines>, s: State, schedule: seq<nat>)
    requires AllSized(s)
    ensures Work(|files|, Run(files, s, schedule)) <= Work(|files|, s)
    ensures Work(|files|, Run(files, s, schedule)) == Work(|files|, s) ==>
      && Run(files, s, schedule) == s
      && forall w {:trigger s.workers[w]} :: 0 <= w < |s.workers| && w in schedule ==> s.workers[w].phase.Finished?
    decreases schedule
  {
    if schedule != [] {
      var earlier, w := schedule[..|schedule| - 1], schedule[|schedule| - 1];
      assert schedule == earlier + [w];
      RunWorks(files, s, earlier);
      var before := Run(files, s, earlier);
      if w < |before.workers| { StepWorks(files, before, w); }
    }
  }

  lemma {:induction false} RunConcat(files: seq<Lines>, s: State, a: seq<nat>, b: seq<nat>)
    requires AllSized(s)
    ensures Run(files, s, a + b) == Run(files, Run(files, s, a), b)
    decreases b
  {
    if b == [] {
      assert a + b == a;
    } else {
      var n := |b| - 1;
      assert (a + b)[..|a + b| - 1] == a + b[..n] && (a + b)[|a + b| - 1] == b[n];
      RunConcat(files, s, a, b[..n]);
    }
  }

  function Joined(rounds: seq<seq<nat>>): seq<nat> {
    if rounds == [] then [] else Joined(rounds[..|rounds| - 1]) + rounds[|rounds| - 1]
  }

  /** Every thread gets a turn in every round, in any order and perhaps more often. */
  ghost predicate Fair(threads: nat, rounds: seq<seq<nat>>) {
    forall k, w: nat {:trigger w in rounds[k]} :: 0 <= k < |rounds| && w < threads ==> w in rounds[k]
  }

  /** Each round of a fair schedule uses up work until all threads have finished. */
  lemma {:induction false} RoundsWork(files: seq<Lines>, s: State, rounds: seq<seq<nat>>)
    requires AllSized(s) && Fair(|s.workers|, rounds)
    ensures var r := Run(files, s, Joined(rounds));
      AllFinished(r) || Work(|files|, r) + |rounds| <= Work(|files|, s)
    decreases |rounds|
  {
    if rounds != [] {
      var n := |rounds| - 1;
      RoundsWork(files, s, rounds[..n]);
      RunConcat(files, s, Joined(rounds[..n]), rounds[n]);
      var before := Run(files, s, Joined(rounds[..n]));
      LastRound(files, before, rounds[n]);
    }
  }

  lemma LastRound(files: seq<Lines>, s: State, round: seq<nat>)
    requires AllSized(s) && forall w: nat :: w < |s.workers| ==> w in round
    ensures AllFinished(s) ==> AllFinished(Run(files, s, round))
    ensures AllFinished(s) || Work(|files|, Run(files, s, round)) < Work(|files|, s)
  {
    RunWorks(files, s, round);
    if AllFinished(s) { FinishedStays(files, s, round); }
  }

  lemma {:induction false} FinishedStays(files: seq<Lines>, s: State, schedule: seq<nat>)
    requires AllSized(s) && AllFinished(s)
    ensures Run(files, s, schedule) == s
    decreases schedule
  {
    if schedule != [] { FinishedStays(files, s, schedule[..|schedule| - 1]); }
  }

  /** With two rounds for every file and two for every thread, all threads have finished. */
  lemma {:induction false} FairScheduleEnds(files: seq<Lines>, threads: nat, rounds: seq<seq<nat>>)
    requires AllSized(Start(threads)) && Fair(threads, rounds) && |rounds| >= 2 * |files| + 2 * threads
    ensures AllFinished(Run(files, Start(threads), Joined(rounds)))
  {
    var s := Start(threads);
    StartTurns(s.workers);
    RoundsWork(files, s, rounds);
    var r := Run(files, s, Joined(rounds));
    if !AllFinished(r) {
      var w :| 0 <= w < |r.workers| && !r.workers[w].phase.Finished?;
      TurnsLeft(r.workers, w);
    }
  }

  /** So every fair schedule, run long enough, gives the result of processing all the files one after the other. */
  lemma FairScheduleAgrees(files: seq<Lines>, threads: nat, rounds: seq<seq<nat>>)
    requires FilesParsed(files) && threads > 0 && Fair(threads, rounds) && |rounds| >= 2 * |files| + 2 * threads
    ensures AllSized(Start(threads)) && Sequential(files, Run(files, Start(threads), Joined(rounds)))
    ensures multiset(Run(files, Start(threads), Joined(rounds)).merged) == multiset(Indices(|files|))
  {
    StartHolds(files, threads);
    FairScheduleEnds(files, threads, rounds);
    EveryScheduleAgrees(files, threads, Joined(rounds));
  }
}
