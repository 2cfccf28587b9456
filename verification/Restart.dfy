/** Restart generations: web workers that stop old camera instances, and a launcher that records
    the request it is starting for before it forks. */
module Restart {

  type Pid = nat

  const SCAN_MAX := 16
  const LIST_MAX := 32

  // ---------- the pid list ----------

  /** pid_listed() */
  method PidListed(pid: Pid, pids: array<Pid>, count: nat) returns (listed: bool)
    requires count <= pids.Length
    ensures listed <==> pid in pids[..count]
  {
    for i := 0 to count
      invariant pid !in pids[..i]
    {
      if pids[i] == pid { return true; }
      assert pids[..i + 1] == pids[..i] + [pids[i]];
    }
    return false;
  }

  /** The list after the second scan: what was not listed yet goes to the end, once. */
  function Merged(known: seq<Pid>, now: seq<Pid>): (r: seq<Pid>)
    ensures known <= r && |r| <= |known| + |now|
    ensures forall p :: p in r <==> p in known || p in now
    decreases |now|
  {
    if now == [] then known
    else
      assert now == [now[0]] + now[1..];
      Merged(if now[0] in known then known else known + [now[0]], now[1..])
  }

  /** The loop that adds them: sixteen and sixteen never pass the 32 slots. */
  method AddStale(pids: array<Pid>, count: nat, now: array<Pid>, nowCount: nat) returns (total: nat)
    requires pids.Length == LIST_MAX && now.Length == SCAN_MAX && pids != now
    requires count <= SCAN_MAX && nowCount <= now.Length
    modifies pids
    ensures total <= LIST_MAX && pids[..total] == Merged(old(pids[..count]), now[..nowCount])
  {
    hide Merged;
    total := count;
    ghost var seen := now[..nowCount];
    ghost var goal := Merged(pids[..count], seen);
    assert seen[0..] == seen;
    for i := 0 to nowCount
      invariant total <= count + i && seen == now[..nowCount] && goal == Merged(pids[..total], seen[i..])
    {
      MergedStep(pids[..total], seen[i..]);
      assert seen[i..][0] == now[i] && seen[i..][1..] == seen[i + 1..];
      var listed := PidListed(now[i], pids, total);
      if !listed {
        Append(pids, total, now[i]);
        total := total + 1;
      }
    }
    MergedNone(pids[..total]);
  }

  method Append(pids: array<Pid>, count: nat, pid: Pid)
    requires count < pids.Length
    modifies pids
    ensures pids[..count + 1] == old(pids[..count]) + [pid]
  {
    pids[count] := pid;
  }

  lemma MergedStep(pids: seq<Pid>, now: seq<Pid>)
    requires now != []
    ensures Merged(pids, now) == Merged(if now[0] in pids then pids else pids + [now[0]], now[1..])
  {
  }

  lemma MergedNone(pids: seq<Pid>)
    ensures Merged(pids, []) == pids
  {
  }

  // ---------- the protocol ----------

  /** The launcher: it reads the request, records it, and only then forks an instance for it. */
  datatype Launcher = Idle | HasRead(generation: nat) | Recorded(generation: nat)

  /** A web worker inside restart_camera_locked(). Scans see one process at a time. */
  datatype Worker =
    | Scanning(pids: seq<Pid>)
    | Locking(pids: seq<Pid>)
    | Bumping(pids: seq<Pid>, found: nat)           // holds the request lock, has read the request file
    | Published(pids: seq<Pid>, generation: nat)
    | Rescanning(pids: seq<Pid>, generation: nat, now: seq<Pid>)
    | Rechecking(pids: seq<Pid>, generation: nat, now: seq<Pid>)
    | Stopping(pids: seq<Pid>, generation: nat)
    | Done

  datatype Signal = Signal(pid: Pid, generation: nat)

  /** `instances` gives every instance ever forked the request it was started for. */
  datatype State = State(request: nat, started: nat, launcher: Launcher, instances: map<Pid, nat>, alive: set<Pid>,
                         workers: seq<Worker>, lockedBy: set<nat>, signals: set<Signal>)

  datatype Action =
    | LauncherStep(newPid: Pid)
    | Dies(pid: Pid)
    | Sees(worker: nat, pid: Pid)
    | Proceeds(worker: nat)
    | Kills(worker: nat, pid: Pid)

  function SetWorker(s: State, w: nat, to: Worker): State
    requires w < |s.workers|
  {
    s.(workers := s.workers[w := to])
  }

  /** The worker's own steps, in the order of the C code. */
  function Proceed(s: State, w: nat): State
    requires w < |s.workers|
  {
    match s.workers[w]
    case Scanning(pids) => SetWorker(s, w, Locking(pids))
    case Locking(pids) =>
      if s.lockedBy == {} then SetWorker(s, w, Bumping(pids, s.request)).(lockedBy := {w}) else s
    case Bumping(pids, found) =>
      SetWorker(s, w, Published(pids, found + 1)).(request := found + 1, lockedBy := s.lockedBy - {w})
    case Published(pids, generation) =>
      if s.started < generation then SetWorker(s, w, Rescanning(pids, generation, []))
      else SetWorker(s, w, Stopping(pids, generation))
    case Rescanning(pids, generation, now) => SetWorker(s, w, Rechecking(pids, generation, now))
    case Rechecking(pids, generation, now) =>
      SetWorker(s, w, Stopping(if s.started < generation then Merged(pids, now) else pids, generation))
    case Stopping(pids, generation) => if AllSignalled(s, pids, generation) then SetWorker(s, w, Done) else s
    case Done => s
  }

  /** stop_pids() has sent its signal to the whole list. */
  predicate AllSignalled(s: State, pids: seq<Pid>, generation: nat)
  {
    forall p :: p in pids ==> Signal(p, generation) in s.signals
  }

  /** A scan meets a living instance it has room for. */
  function See(s: State, w: nat, pid: Pid): State
    requires w < |s.workers|
  {
    match s.workers[w]
    case Scanning(pids) => if |pids| < SCAN_MAX then SetWorker(s, w, Scanning(pids + [pid])) else s
    case Rescanning(pids, generation, now) =>
      if |now| < SCAN_MAX then SetWorker(s, w, Rescanning(pids, generation, now + [pid])) else s
    case _ => s
  }

  function Launch(s: State, newPid: Pid): State
  {
    match s.launcher
    case Idle => s.(launcher := HasRead(s.request))
    case HasRead(g) => s.(started := g, launcher := Recorded(g))
    case Recorded(g) =>
      if newPid in s.instances then s
      else s.(instances := s.instances[newPid := g], alive := s.alive + {newPid}, launcher := Idle)
  }

  function Step(s: State, a: Action): State
  {
    match a
    case LauncherStep(newPid) => Launch(s, newPid)
    case Dies(pid) => s.(alive := s.alive - {pid})
    case Sees(w, pid) => if w < |s.workers| && pid in s.alive then See(s, w, pid) else s
    case Proceeds(w) => if w < |s.workers| then Proceed(s, w) else s
    case Kills(w, pid) =>
      if w < |s.workers| && s.workers[w].Stopping? && pid in s.workers[w].pids
      then s.(signals := s.signals + {Signal(pid, s.workers[w].generation)}) else s
  }

  // ---------- what every step keeps ----------

  /** Every listed process is an instance started for a request up to this one. */
  predicate AllUpTo(s: State, pids: seq<Pid>, generation: int)
  {
    forall p :: p in pids ==> p in s.instances && s.instances[p] <= generation
  }

  predicate WorkerOk(s: State, w: nat)
    requires w < |s.workers|
  {
    match s.workers[w]
    case Scanning(pids) => |pids| <= SCAN_MAX && AllUpTo(s, pids, s.request)
    case Locking(pids) => |pids| <= SCAN_MAX && AllUpTo(s, pids, s.request)
    case Bumping(pids, found) =>
      |pids| <= SCAN_MAX && AllUpTo(s, pids, s.request) && s.lockedBy == {w} && found == s.request
    case Published(pids, g) => |pids| <= SCAN_MAX && AllUpTo(s, pids, g - 1) && g <= s.request
    case Rescanning(pids, g, now) =>
      |pids| <= SCAN_MAX && AllUpTo(s, pids, g - 1) && g <= s.request && |now| <= SCAN_MAX && AllUpTo(s, now, s.started)
    case Rechecking(pids, g, now) =>
      |pids| <= SCAN_MAX && AllUpTo(s, pids, g - 1) && g <= s.request && |now| <= SCAN_MAX && AllUpTo(s, now, s.started)
    case Stopping(pids, g) => |pids| <= LIST_MAX && AllUpTo(s, pids, g - 1)
    case Done => true
  }

  predicate LauncherOk(s: State)
  {
    && s.started <= s.request
    && (s.launcher.HasRead? ==> s.started <= s.launcher.generation <= s.request)
    && (s.launcher.Recorded? ==> s.launcher.generation == s.started)
    && (forall p :: p in s.instances ==> s.instances[p] <= s.started)
    && (forall p :: p in s.alive ==> p in s.instances)
  }

  predicate SignalsOk(s: State)
  {
    forall x :: x in s.signals ==> x.pid in s.instances && s.instances[x.pid] < x.generation
  }

  ghost predicate Inv(s: State)
  {
    && LauncherOk(s) && SignalsOk(s)
    && (forall w :: 0 <= w < |s.workers| ==> WorkerOk(s, w))
  }

  /** Every worker is about to begin; instances may be running already. */
  predicate Begins(s: State)
  {
    && s.launcher == Idle && s.signals == {} && s.lockedBy == {} && LauncherOk(s)
    && forall w :: 0 <= w < |s.workers| ==> s.workers[w] == Scanning([])
  }

  /** What other actors may do to a worker's bearings: the counters only grow and instances keep their request. */
  predicate Later(s: State, s': State)
  {
    && s.request <= s'.request && s.started <= s'.started
    && forall p :: p in s.instances ==> p in s'.instances && s'.instances[p] == s.instances[p]
  }

  lemma UpToLater(s: State, s': State, pids: seq<Pid>, g: int, g': int)
    requires Later(s, s') && AllUpTo(s, pids, g) && g <= g'
    ensures AllUpTo(s', pids, g')
  {
  }

  lemma OtherWorker(s: State, s': State, w: nat)
    requires Later(s, s') && w < |s.workers| == |s'.workers| && WorkerOk(s, w) && s'.workers[w] == s.workers[w]
    requires s.workers[w].Bumping? ==> s'.lockedBy == s.lockedBy && s'.request == s.request
    ensures WorkerOk(s', w)
  {
    hide AllUpTo, Later;
    LaterCounters(s, s');
    match s.workers[w]
    case Scanning(pids) => UpToLater(s, s', pids, s.request, s'.request);
    case Locking(pids) => UpToLater(s, s', pids, s.request, s'.request);
    case Bumping(pids, _) => UpToLater(s, s', pids, s.request, s'.request);
    case Published(pids, g) => UpToLater(s, s', pids, g - 1, g - 1);
    case Rescanning(pids, g, now) => UpToLater(s, s', pids, g - 1, g - 1); UpToLater(s, s', now, s.started, s'.started);
    case Rechecking(pids, g, now) => UpToLater(s, s', pids, g - 1, g - 1); UpToLater(s, s', now, s.started, s'.started);
    case Stopping(pids, g) => UpToLater(s, s', pids, g - 1, g - 1);
    case Done =>
  }

  lemma LaterCounters(s: State, s': State)
    requires Later(s, s')
    ensures s.request <= s'.request && s.started <= s'.started
  {
  }

  lemma InvLaunch(s: State, newPid: Pid)
    requires Inv(s)
    ensures Inv(Launch(s, newPid))
  {
    hide WorkerOk;
    var s' := Launch(s, newPid);
    assert Later(s, s');
    forall w | 0 <= w < |s.workers| ensures WorkerOk(s', w) { OtherWorker(s, s', w); }
  }

  lemma InvSee(s: State, w: nat, pid: Pid)
    requires Inv(s) && w < |s.workers| && pid in s.alive
    ensures Inv(See(s, w, pid))
  {
    var s' := See(s, w, pid);
    assert Later(s, s') && LauncherOk(s');
    assert WorkerOk(s, w);
    forall x | 0 <= x < |s.workers| && x != w ensures WorkerOk(s', x) { OtherWorker(s, s', x); }
  }

  /** The generation a worker publishes is above every process it has listed. */
  lemma OwnProceed(s: State, w: nat)
    requires LauncherOk(s) && w < |s.workers| && WorkerOk(s, w)
    ensures WorkerOk(Proceed(s, w), w)
  {
  }

  /** Only the holder of the request lock changes the request. */
  lemma OthersProceed(s: State, w: nat, x: nat)
    requires w < |s.workers| && x < |s.workers| && x != w && WorkerOk(s, w) && WorkerOk(s, x)
    ensures WorkerOk(Proceed(s, w), x)
  {
    hide AllUpTo;
    OtherWorker(s, Proceed(s, w), x);
  }

  lemma InvProceed(s: State, w: nat)
    requires Inv(s) && w < |s.workers|
    ensures Inv(Proceed(s, w))
  {
    hide WorkerOk;
    var s' := Proceed(s, w);
    assert WorkerOk(s, w);
    forall x | 0 <= x < |s.workers| ensures WorkerOk(s', x) {
      assert WorkerOk(s, x);
      if x == w { OwnProceed(s, w); } else { OthersProceed(s, w, x); }
    }
    assert s'.instances == s.instances && s'.signals == s.signals;
    assert s.request <= s'.request by { BumpGrows(s, w); }
  }

  lemma BumpGrows(s: State, w: nat)
    requires w < |s.workers| && WorkerOk(s, w)
    ensures s.request <= Proceed(s, w).request
  {
    hide AllUpTo;
  }

  lemma InvStep(s: State, a: Action)
    requires Inv(s)
    ensures Inv(Step(s, a))
  {
    hide WorkerOk, LauncherOk, SignalsOk;
    match a
    case LauncherStep(newPid) => InvLaunch(s, newPid);
    case Dies(pid) => InvDies(s, pid);
    case Sees(w, pid) => if w < |s.workers| && pid in s.alive { InvSee(s, w, pid); }
    case Proceeds(w) => if w < |s.workers| { InvProceed(s, w); }
    case Kills(w, pid) => InvKills(s, w, pid);
  }

  lemma InvDies(s: State, pid: Pid)
    requires Inv(s)
    ensures Inv(s.(alive := s.alive - {pid}))
  {
    hide WorkerOk;
    var s' := s.(alive := s.alive - {pid});
    assert Later(s, s');
    forall w | 0 <= w < |s.workers| ensures WorkerOk(s', w) { OtherWorker(s, s', w); }
  }

  lemma InvKills(s: State, w: nat, pid: Pid)
    requires Inv(s)
    ensures Inv(Step(s, Kills(w, pid)))
  {
    var s' := Step(s, Kills(w, pid));
    assert Later(s, s');
    assert w < |s.workers| ==> WorkerOk(s, w);
    forall x | 0 <= x < |s.workers| ensures WorkerOk(s', x) { OtherWorker(s, s', x); }
  }

  // ---------- every interleaving ----------

  function Exec(s: State, run: seq<Action>): State
  {
    if run == [] then s else Step(Exec(s, run[..|run| - 1]), run[|run| - 1])
  }

  lemma {:induction false} ExecInv(s: State, run: seq<Action>)
    requires Begins(s)
    ensures Inv(Exec(s, run))
  {
    if run == [] {
    } else {
      hide Inv, Step;
      ExecInv(s, run[..|run| - 1]);
      InvStep(Exec(s, run[..|run| - 1]), run[|run| - 1]);
    }
  }

  /** In every interleaving, every instance a restart signals was started for an older request than the
      restart's own: never the one it asked for, nor a later one. */
  lemma NeverSignalsOwn(s: State, run: seq<Action>, x: Signal)
    requires Begins(s) && x in Exec(s, run).signals
    ensures x.pid in Exec(s, run).instances && Exec(s, run).instances[x.pid] < x.generation
  {
    hide Exec, Begins, WorkerOk;
    ExecInv(s, run);
  }

  /** No worker's list outgrows its array, and all it will signal is older than its request. */
  lemma ListsFit(s: State, run: seq<Action>, w: nat)
    requires Begins(s) && w < |Exec(s, run).workers| && Exec(s, run).workers[w].Stopping?
    ensures var e := Exec(s, run);
            |e.workers[w].pids| <= LIST_MAX && AllUpTo(e, e.workers[w].pids, e.workers[w].generation - 1)
  {
    hide Exec, Begins, AllUpTo;
    ExecInv(s, run);
    assert WorkerOk(Exec(s, run), w);
  }

  // ---------- what a restart stops ----------

  /** What a worker met in a run: the living processes each scan saw while it had room, and for each look at the started
      record whether it was below the worker's generation. */
  datatype Sightings = Sightings(first: seq<Pid>, second: seq<Pid>, looks: seq<bool>)

  function Noted(before: State, a: Action, w: nat, seen: Sightings): Sightings
    requires w < |before.workers|
  {
    var worker := before.workers[w];
    match a
    case Sees(x, pid) =>
      if x != w || pid !in before.alive then seen
      else if worker.Scanning? && |seen.first| < 16 then seen.(first := seen.first + [pid])
      else if worker.Rescanning? && |seen.second| < 16 then seen.(second := seen.second + [pid])
      else seen
    case Proceeds(x) =>
      if x == w && (worker.Published? || worker.Rechecking?)
      then seen.(looks := seen.looks + [before.started < worker.generation]) else seen
    case _ => seen
  }

  function Seen(s: State, run: seq<Action>, w: nat): Sightings
    requires w < |s.workers|
  {
    if run == [] then Sightings([], [], [])
    else
      var before := run[..|run| - 1];
      ExecWorkers(s, before);
      Noted(Exec(s, before), run[|run| - 1], w, Seen(s, before, w))
  }

  lemma {:induction false} ExecWorkers(s: State, run: seq<Action>)
    ensures |Exec(s, run).workers| == |s.workers|
  {
    if run != [] { ExecWorkers(s, run[..|run| - 1]); }
  }

  /** The list a restart will stop: all of the first scan, and all of the second if the started record was below the
      generation at both looks; the second scan is skipped only if it was not at the first. */
  ghost predicate ListsSeen(pids: seq<Pid>, seen: Sightings)
  {
    && seen.first <= pids
    && (seen.looks == [false] || (|seen.looks| == 2 && seen.looks[0]))
    && forall p :: p in pids <==> p in seen.first || (seen.looks == [true, true] && p in seen.second)
  }

  ghost predicate SeenOk(worker: Worker, seen: Sightings)
  {
    match worker
    case Scanning(pids) => seen == Sightings(pids, [], [])
    case Locking(pids) => seen == Sightings(pids, [], [])
    case Bumping(pids, _) => seen == Sightings(pids, [], [])
    case Published(pids, _) => seen == Sightings(pids, [], [])
    case Rescanning(pids, _, now) => seen == Sightings(pids, now, [true])
    case Rechecking(pids, _, now) => seen == Sightings(pids, now, [true])
    case Stopping(pids, _) => ListsSeen(pids, seen)
    case Done => true
  }

  lemma SeenStep(s: State, a: Action, w: nat, seen: Sightings)
    requires w < |s.workers| && SeenOk(s.workers[w], seen)
    ensures |Step(s, a).workers| == |s.workers| && SeenOk(Step(s, a).workers[w], Noted(s, a, w, seen))
  {
    hide Merged, ListsSeen;
    var worker, noted := s.workers[w], Noted(s, a, w, seen);
    if a == Proceeds(w) && worker.Published? && s.started >= worker.generation {
      FirstLookOnly(worker.pids, noted);
    } else if a == Proceeds(w) && worker.Rechecking? {
      BothLooks(worker.pids, worker.now, s.started < worker.generation, noted);
    }
  }

  lemma FirstLookOnly(pids: seq<Pid>, seen: Sightings)
    requires seen == Sightings(pids, [], [false])
    ensures ListsSeen(pids, seen)
  {
  }

  lemma BothLooks(pids: seq<Pid>, now: seq<Pid>, below: bool, seen: Sightings)
    requires seen == Sightings(pids, now, [true] + [below])
    ensures ListsSeen(if below then Merged(pids, now) else pids, seen)
  {
    assert seen.looks == [true, below];
  }

  lemma {:induction false} SeenInRun(s: State, run: seq<Action>, w: nat)
    requires Begins(s) && w < |s.workers|
    ensures |Exec(s, run).workers| == |s.workers| && SeenOk(Exec(s, run).workers[w], Seen(s, run, w))
  {
    if run != [] {
      hide Step, Noted, SeenOk, Begins;
      var before := run[..|run| - 1];
      SeenInRun(s, before, w);
      SeenStep(Exec(s, before), run[|run| - 1], w, Seen(s, before, w));
    } else {
      assert s.workers[w] == Scanning([]);
    }
  }

  /** In every interleaving, a worker about to stop instances lists exactly the living ones its scans saw. */
  lemma ListsWhatItSaw(s: State, run: seq<Action>, w: nat)
    requires Begins(s) && w < |s.workers| && |Exec(s, run).workers| == |s.workers| && Exec(s, run).workers[w].Stopping?
    ensures ListsSeen(Exec(s, run).workers[w].pids, Seen(s, run, w))
  {
    hide Exec, Seen, Begins;
    SeenInRun(s, run, w);
  }

  lemma {:induction false} SignalsGrow(s: State, run: seq<Action>, more: seq<Action>)
    ensures Exec(s, run).signals <= Exec(s, run + more).signals
  {
    hide Step;
    if more == [] {
      assert run + more == run;
    } else {
      var last := |more| - 1;
      assert (run + more)[..|run + more| - 1] == run + more[..last];
      SignalsGrow(s, run, more[..last]);
      SignalsKept(Exec(s, run + more[..last]), more[last]);
    }
  }

  lemma SignalsKept(s: State, a: Action)
    ensures s.signals <= Step(s, a).signals
  {
    hide Merged;
  }

  /** A signal is only sent to a listed process, and stays sent. */
  lemma KillSends(s: State, run: seq<Action>, w: nat, pid: Pid, more: seq<Action>)
    requires w < |Exec(s, run).workers| && Exec(s, run).workers[w].Stopping? && pid in Exec(s, run).workers[w].pids
    ensures Signal(pid, Exec(s, run).workers[w].generation) in Exec(s, run + [Kills(w, pid)] + more).signals
  {
    var stop := run + [Kills(w, pid)];
    assert stop[..|stop| - 1] == run;
    SignalsGrow(s, stop, more);
  }

  /** In every interleaving, a restart that is done has sent its signal to everything its scans saw. */
  lemma {:induction false} DoneHasStopped(s: State, run: seq<Action>, w: nat) returns (k: nat)
    requires Begins(s) && w < |s.workers| == |Exec(s, run).workers| && Exec(s, run).workers[w].Done?
    ensures k <= |run| && |Exec(s, run[..k]).workers| == |s.workers|
    ensures var was := Exec(s, run[..k]).workers[w];
            && was.Stopping? && ListsSeen(was.pids, Seen(s, run[..k], w))
            && AllSignalled(Exec(s, run), was.pids, was.generation)
  {
    assert run != [] by { assert s.workers[w] == Scanning([]); }
    hide Begins, Seen, ListsSeen, AllSignalled, Step, Exec;
    var last := |run| - 1;
    ExecWorkers(s, run[..last]);
    ExecLast(s, run);
    var before := Exec(s, run[..last]);
    if before.workers[w].Done? {
      k := DoneHasStopped(s, run[..last], w);
      assert run[..last][..k] == run[..k];
      assert run[..last] + [run[last]] == run;
      SignalsGrow(s, run[..last], [run[last]]);
      StaySignalled(before, Exec(s, run), Exec(s, run[..k]).workers[w].pids, Exec(s, run[..k]).workers[w].generation);
    } else {
      k := last;
      OnlyThenDone(before, run[last], w);
      ListsWhatItSaw(s, run[..k], w);
      StaySignalled(before, Exec(s, run), before.workers[w].pids, before.workers[w].generation);
    }
  }

  lemma StaySignalled(s: State, s': State, pids: seq<Pid>, generation: nat)
    requires s.signals <= s'.signals && AllSignalled(s, pids, generation)
    ensures AllSignalled(s', pids, generation)
  {
  }

  lemma OnlyThenDone(s: State, a: Action, w: nat)
    requires w < |s.workers| && !s.workers[w].Done?
    requires w < |Step(s, a).workers| && Step(s, a).workers[w].Done?
    ensures s.workers[w].Stopping? && AllSignalled(s, s.workers[w].pids, s.workers[w].generation)
    ensures Step(s, a).signals == s.signals
  {
    hide Merged, AllSignalled;
  }

  // ---------- requests are never lost ----------

  /** Where a worker stands. */
  function Stage(worker: Worker): nat
  {
    match worker
    case Scanning(_) => 0
    case Locking(_) => 1
    case Bumping(_, _) => 2
    case Published(_, _) => 3
    case Rescanning(_, _, _) => 4
    case Rechecking(_, _, _) => 5
    case Stopping(_, _) => 6
    case Done => 7
  }

  /** How many workers have published their request. */
  function Requests(workers: seq<Worker>): nat
  {
    if workers == [] then 0 else (if Stage(workers[0]) >= 3 then 1 else 0) + Requests(workers[1..])
  }

  lemma {:induction false} RequestsMoved(workers: seq<Worker>, w: nat, to: Worker)
    requires w < |workers|
    ensures Requests(workers[w := to])
         == Requests(workers) - (if Stage(workers[w]) >= 3 then 1 else 0) + if Stage(to) >= 3 then 1 else 0
  {
    if w == 0 {
      assert workers[0 := to][1..] == workers[1..];
    } else {
      assert workers[w := to][1..] == workers[1..][w - 1 := to];
      RequestsMoved(workers[1..], w - 1, to);
    }
  }

  /** The lock is held only by the worker about to publish. */
  predicate LockOk(s: State)
  {
    s.lockedBy == {} || exists w :: 0 <= w < |s.workers| && s.lockedBy == {w} && s.workers[w].Bumping?
  }

  predicate HasGeneration(worker: Worker) { 3 <= Stage(worker) <= 6 }

  /** Published requests are all different, and counted one by one. */
  ghost predicate Counted(s: State, begin: State)
  {
    && LockOk(s) && s.request == begin.request + Requests(s.workers)
    && (forall w :: 0 <= w < |s.workers| && HasGeneration(s.workers[w]) ==> s.workers[w].generation <= s.request)
    && forall w, x :: 0 <= w < x < |s.workers| && HasGeneration(s.workers[w]) && HasGeneration(s.workers[x]) ==>
         s.workers[w].generation != s.workers[x].generation
  }

  lemma ProceedCounted(s: State, w: nat, begin: State)
    requires Counted(s, begin) && w < |s.workers| && WorkerOk(s, w)
    ensures Counted(Proceed(s, w), begin)
  {
    hide AllUpTo, Merged, AllSignalled, LockOk;
    RequestsMoved(s.workers, w, Proceed(s, w).workers[w]);
    ProceedLock(s, w);
  }

  lemma ProceedLock(s: State, w: nat)
    requires LockOk(s) && w < |s.workers| && WorkerOk(s, w)
    ensures LockOk(Proceed(s, w))
  {
    hide AllUpTo, Merged, AllSignalled;
    if LockedByOther(s, w) {
      var x :| 0 <= x < |s.workers| && s.lockedBy == {x} && s.workers[x].Bumping?;
      assert Proceed(s, w).workers[x] == s.workers[x];
    }
    if s.workers[w].Locking? && s.lockedBy == {} { assert Proceed(s, w).workers[w].Bumping?; }
  }

  predicate LockedByOther(s: State, w: nat) { s.lockedBy != {} && s.lockedBy != {w} }

  lemma SeeCounted(s: State, w: nat, pid: Pid, begin: State)
    requires Counted(s, begin) && w < |s.workers|
    ensures Counted(See(s, w, pid), begin)
  {
    RequestsMoved(s.workers, w, See(s, w, pid).workers[w]);
    assert forall x :: 0 <= x < |s.workers| ==> Stage(See(s, w, pid).workers[x]) == Stage(s.workers[x]);
  }

  lemma {:induction false} NoneYet(workers: seq<Worker>)
    requires forall w :: 0 <= w < |workers| ==> workers[w] == Scanning([])
    ensures Requests(workers) == 0
  {
    if workers != [] { NoneYet(workers[1..]); }
  }

  lemma {:induction false} RunCounted(s: State, run: seq<Action>)
    requires Begins(s)
    ensures Counted(Exec(s, run), s)
  {
    if run == [] {
      NoneYet(s.workers);
    } else {
      var before, a := Exec(s, run[..|run| - 1]), run[|run| - 1];
      hide Begins, WorkerOk, Counted, Proceed, See, Launch, Exec;
      ExecInv(s, run[..|run| - 1]);
      RunCounted(s, run[..|run| - 1]);
      StepCounted(before, a, s);
      assert Exec(s, run) == Step(before, a) by { ExecLast(s, run); }
    }
  }

  lemma ExecLast(s: State, run: seq<Action>)
    requires run != []
    ensures Exec(s, run) == Step(Exec(s, run[..|run| - 1]), run[|run| - 1])
  {
  }

  lemma StepCounted(s: State, a: Action, begin: State)
    requires Counted(s, begin) && Inv(s)
    ensures Counted(Step(s, a), begin)
  {
    hide Proceed, See, WorkerOk, LauncherOk, SignalsOk;
    match a
    case Proceeds(w) => if w < |s.workers| { assert WorkerOk(s, w); ProceedCounted(s, w, begin); }
    case Sees(w, pid) => if w < |s.workers| { SeeCounted(s, w, pid, begin); }
    case _ =>
  }

  /** In every interleaving each restart counts the request up by one, and no two share a generation. */
  lemma RequestsDistinct(s: State, run: seq<Action>, w: nat, x: nat)
    requires Begins(s) && w < x < |Exec(s, run).workers|
    ensures var e := Exec(s, run);
            && e.request == s.request + Requests(e.workers)
            && (HasGeneration(e.workers[w]) && HasGeneration(e.workers[x]) ==>
                  e.workers[w].generation != e.workers[x].generation)
  {
    hide Exec, Begins;
    RunCounted(s, run);
  }

  /** No restart gets stuck: while some worker is not done, one of them has a step that takes it further, or a signal
      to send. */
  lemma SomeoneProceeds(s: State, run: seq<Action>, w: nat) returns (x: nat, a: Action)
    requires Begins(s) && w < |Exec(s, run).workers| && !Exec(s, run).workers[w].Done?
    ensures var e := Exec(s, run);
            && x < |e.workers| && x < |Step(e, a).workers|
            && (Stage(Step(e, a).workers[x]) > Stage(e.workers[x])
                || exists pid :: a == Kills(x, pid) && Step(e, a).signals > e.signals)
  {
    var e := Exec(s, run);
    hide Exec, Begins, Merged;
    RunCounted(s, run);
    x, a := w, Proceeds(w);
    if e.workers[w].Locking? && e.lockedBy != {} {
      x :| 0 <= x < |e.workers| && e.lockedBy == {x} && e.workers[x].Bumping?;
      a := Proceeds(x);
    } else if e.workers[w].Stopping? && !AllSignalled(e, e.workers[w].pids, e.workers[w].generation) {
      var pid :| pid in e.workers[w].pids && Signal(pid, e.workers[w].generation) !in e.signals;
      a := Kills(w, pid);
      assert Signal(pid, e.workers[w].generation) in Step(e, a).signals;
    }
  }
}
