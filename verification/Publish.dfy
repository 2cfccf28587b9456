/** The shared configuration file under every interleaving of its two writers, each of which
    publishes a finished temporary file by rename and may stop at any step. */
module Publish {
  import opened Ini
  import opened AppConfig
  import opened ConfigSave
  import opened WebSave

  // ---------- the file system and the writers ----------

  /** Directory entries; temporary names belong to one writer. */
  datatype Name = Config | Backup | BackupTemp(writer: nat) | ConfigTemp(writer: nat)

  /** What a writer was asked to do: install a text (web), or set one field (application). */
  datatype Job = WebJob(text: string) | AppJob(field: Field, value: string)

  /** Where a writer stands; inodes are indices of `files`. */
  datatype Pc =
    | Start
    | WebReady                                                    // stat() done, stale temporaries removed
    | WebOpened(source: nat)
    | WebCopying(source: nat, target: nat)
    | WebCopied
    | WebWriting(target: nat)
    | AppScanning(input: Option<nat>, version: nat, seen: string)                              // first pass
    | AppReading(input: Option<nat>, version: nat, present: bool, seen: string, target: nat)   // second pass
    | AppWriting(version: nat, output: string, target: nat)
    | Finished

  /** Where a text at the configuration path came from: it was there, a web worker installed it, or the application
      edited the `version`-th text (a missing file for 0). */
  datatype Origin = Found | Installed(writer: nat) | Edited(writer: nat, version: nat)

  datatype Publication = Publication(text: string, origin: Origin)

  /** `history` lists what the configuration path has named; `published` the inodes that were renamed to a
      public name (or were there at the start). */
  datatype State = State(files: seq<string>, names: map<Name, nat>, pcs: seq<Pc>,
                         history: seq<Publication>, published: set<nat>)

  /** The scheduler's choice: let the writer do its next step (reads and writes move up to `count` + 1 characters),
      let that step fail, or let buffered output reach the file while the application still reads. */
  datatype Action = Go(count: nat) | Flush(count: nat) | Fail

  function Least(a: nat, b: nat): nat { if a < b then a else b }

  /** The next piece of a text of which `done` characters were moved. */
  function Piece(text: string, done: nat, count: nat): string
    requires done <= |text|
  {
    text[done..Least(|text|, done + count + 1)]
  }

  function Bytes(s: State, input: Option<nat>): string
    requires input.Some? ==> input.value < |s.files|
  {
    if input.Some? then s.files[input.value] else ""
  }

  function Append(s: State, inode: nat, piece: string): State
    requires inode < |s.files|
  {
    s.(files := s.files[inode := s.files[inode] + piece])
  }

  /** open(.., O_CREAT | O_EXCL) or mkstemp(): a new empty inode under a private name. */
  function Create(s: State, name: Name): State
  {
    s.(files := s.files + [""], names := s.names[name := |s.files|])
  }

  /** rename() of a finished temporary file to a public name. */
  function Rename(s: State, from: Name, to: Name, inode: nat): State
  {
    s.(names := (s.names - {from})[to := inode], published := s.published + {inode})
  }

  function Moved(s: State, w: nat, pc: Pc): State
    requires w < |s.pcs|
  {
    s.(pcs := s.pcs[w := pc])
  }

  /** The clean-up both writers end with. */
  function Abandon(s: State, w: nat): State
    requires w < |s.pcs|
  {
    Moved(s.(names := s.names - {BackupTemp(w), ConfigTemp(w)}), w, Finished)
  }

  function WebStep(s: State, w: nat, text: string, count: nat): State
    requires w < |s.pcs| && PcInodesExist(s, w)
  {
    match s.pcs[w]
    case Start =>
      if !ValidIni(text) || Config !in s.names then Moved(s, w, Finished)
      else Moved(s.(names := s.names - {BackupTemp(w), ConfigTemp(w)}), w, WebReady)
    case WebReady =>
      if Config !in s.names then Abandon(s, w) else Moved(s, w, WebOpened(s.names[Config]))
    case WebOpened(source) => Moved(Create(s, BackupTemp(w)), w, WebCopying(source, |s.files|))
    case WebCopying(source, target) =>
      if |s.files[target]| < |s.files[source]| then
        Append(s, target, Piece(s.files[source], |s.files[target]|, count))
      else Moved(Rename(s, BackupTemp(w), Backup, target), w, WebCopied)
    case WebCopied => Moved(Create(s, ConfigTemp(w)), w, WebWriting(|s.files|))
    case WebWriting(target) =>
      if |s.files[target]| < |text| then Append(s, target, Piece(text, |s.files[target]|, count))
      else Install(s, w, target, Installed(w))
    case _ => s
  }

  function Install(s: State, w: nat, target: nat, origin: Origin): State
    requires w < |s.pcs| && target < |s.files|
  {
    var published := Publication(s.files[target], origin);
    Abandon(Rename(s, ConfigTemp(w), Config, target).(history := s.history + [published]), w)
  }

  /** What the second pass writes for this input. */
  function Output(input: string, present: bool, f: Field, v: string): string
  {
    Flatten(Put(Lines(input), NOWHERE, false, present, f, v))
  }

  function AppStep(s: State, w: nat, f: Field, v: string, count: nat): State
    requires w < |s.pcs| && PcInodesExist(s, w)
  {
    match s.pcs[w]
    case Start =>
      Moved(s, w, AppScanning(if Config in s.names then Some(s.names[Config]) else None, |s.history|, ""))
    case AppScanning(input, version, seen) =>
      if |seen| < |Bytes(s, input)| then
        Moved(s, w, AppScanning(input, version, seen + Piece(Bytes(s, input), |seen|, count)))
      else
        Moved(Create(s, ConfigTemp(w)), w, AppReading(input, version, Present(Lines(seen), NOWHERE, f), "", |s.files|))
    case AppReading(input, version, present, seen, target) =>
      if |seen| < |Bytes(s, input)| then
        Moved(s, w, AppReading(input, version, present, seen + Piece(Bytes(s, input), |seen|, count), target))
      else
        Moved(s, w, AppWriting(version, Output(seen, present, f, v), target))
    case AppWriting(version, output, target) =>
      if |s.files[target]| < |output| then Append(s, target, Piece(output, |s.files[target]|, count))
      else Install(s, w, target, Edited(w, version))
    case _ => s
  }

  /** Output the second pass has buffered reaches the file before all input is read. */
  function FlushStep(s: State, w: nat, f: Field, v: string, count: nat): State
    requires w < |s.pcs| && PcInodesExist(s, w)
  {
    match s.pcs[w]
    case AppReading(input, _, present, _, target) =>
      var output := Output(Bytes(s, input), present, f, v);
      if |s.files[target]| < |output| then Append(s, target, Piece(output, |s.files[target]|, count)) else s
    case _ => s
  }

  predicate PcInodesExist(s: State, w: nat)
    requires w < |s.pcs|
  {
    match s.pcs[w]
    case WebOpened(source) => source < |s.files|
    case WebCopying(source, target) => source < |s.files| && target < |s.files|
    case WebWriting(target) => target < |s.files|
    case AppScanning(input, _, _) => input.Some? ==> input.value < |s.files|
    case AppReading(input, _, _, _, target) => (input.Some? ==> input.value < |s.files|) && target < |s.files|
    case AppWriting(_, _, target) => target < |s.files|
    case _ => true
  }

  /** One step of writer w. */
  function Step(jobs: seq<Job>, s: State, w: nat, a: Action): State
    requires |jobs| == |s.pcs| && w < |jobs| && PcInodesExist(s, w)
  {
    if s.pcs[w].Finished? then s
    else if a.Fail? then Abandon(s, w)
    else
      match jobs[w]
      case WebJob(text) => if a.Flush? then s else WebStep(s, w, text, a.count)
      case AppJob(f, v) => if a.Flush? then FlushStep(s, w, f, v, a.count) else AppStep(s, w, f, v, a.count)
  }

  // ---------- what every step keeps ----------

  /** The inode a writer is filling, if any. */
  function Target(pc: Pc): Option<nat>
  {
    match pc
    case WebCopying(_, target) => Some(target)
    case WebWriting(target) => Some(target)
    case AppReading(_, _, _, _, target) => Some(target)
    case AppWriting(_, _, target) => Some(target)
    case _ => None
  }

  /** A published inode whose text the configuration path once named. */
  predicate Snapshot(s: State, inode: nat)
  {
    inode < |s.files| && inode in s.published && WasNamed(s.history, s.files[inode])
  }

  predicate WasNamed(history: seq<Publication>, text: string)
  {
    exists k :: 0 <= k < |history| && history[k].text == text
  }

  /** The n-th text the configuration path named; before the first it was missing. */
  function Version(history: seq<Publication>, n: nat): Option<string>
    requires n <= |history|
  {
    if n == 0 then None else Some(history[n - 1].text)
  }

  predicate Prefix(a: string, b: string) { |a| <= |b| && a == b[..|a|] }

  /** A web worker that has got past validate_ini(). */
  predicate WebWriter(job: Job) { job.WebJob? && ValidIni(job.text) }

  /** What writer w holds agrees with its job and the files. */
  predicate WriterOk(jobs: seq<Job>, s: State, w: nat)
    requires |jobs| == |s.pcs| && w < |jobs|
  {
    match s.pcs[w]
    case Start => true
    case Finished => true
    case WebReady => WebWriter(jobs[w])
    case WebOpened(source) => WebWriter(jobs[w]) && Snapshot(s, source)
    case WebCopying(source, target) =>
      WebWriter(jobs[w]) && Snapshot(s, source) && target < |s.files| && Prefix(s.files[target], s.files[source])
    case WebCopied => WebWriter(jobs[w])
    case WebWriting(target) => WebWriter(jobs[w]) && target < |s.files| && Prefix(s.files[target], jobs[w].text)
    case AppScanning(input, version, seen) =>
      jobs[w].AppJob? && InputOk(s, input, version) && Prefix(seen, Bytes(s, input))
    case AppReading(input, version, present, seen, target) =>
      jobs[w].AppJob? && InputOk(s, input, version) && Prefix(seen, Bytes(s, input)) && target < |s.files|
      && present == Present(Lines(Bytes(s, input)), NOWHERE, jobs[w].field)
      && Prefix(s.files[target], Output(Bytes(s, input), present, jobs[w].field, jobs[w].value))
    case AppWriting(version, output, target) =>
      jobs[w].AppJob? && target < |s.files| && Prefix(s.files[target], output)
      && version <= |s.history| && output == SavedText(Version(s.history, version), jobs[w].field, jobs[w].value)
  }

  /** The application's input is that version of the configuration, still unchanged. */
  predicate InputOk(s: State, input: Option<nat>, version: nat)
  {
    && version <= |s.history| && (input.Some? <==> version > 0)
    && (input.Some? ==> input.value < |s.files| && input.value in s.published
                        && s.files[input.value] == s.history[version - 1].text)
  }

  /** The k-th text is explained by where it came from: it was found at the start, or the writer that installed it
      finished, and it is that web worker's text or that application's edit of an earlier version. */
  predicate Explained(jobs: seq<Job>, init: Initial, s: State, k: nat)
    requires k < |s.history| && |jobs| == |s.pcs|
  {
    match s.history[k].origin
    case Found => k == 0 && init.config == Some(s.history[0].text)
    case Installed(w) => w < |jobs| && s.pcs[w].Finished? && jobs[w] == WebJob(s.history[k].text)
          && ValidIni(jobs[w].text)
    case Edited(w, n) =>
      && w < |jobs| && s.pcs[w].Finished? && jobs[w].AppJob? && n <= k
      && s.history[k].text == SavedText(Version(s.history, n), jobs[w].field, jobs[w].value)
  }

  predicate SameWriter(a: Origin, b: Origin) { !a.Found? && !b.Found? && a.writer == b.writer }

  /** Texts already there before the writers started. */
  datatype Initial = Initial(config: Option<string>, backup: Option<string>)

  predicate NamesOk(init: Initial, s: State)
  {
    && (Config in s.names <==> s.history != [])
    && (Config in s.names ==> s.names[Config] < |s.files| && s.names[Config] in s.published
                              && s.files[s.names[Config]] == s.history[|s.history| - 1].text)
    && (Backup in s.names ==> s.names[Backup] < |s.files| && s.names[Backup] in s.published
                              && (WasNamed(s.history, s.files[s.names[Backup]])
                                  || Some(s.files[s.names[Backup]]) == init.backup))
  }

  predicate HistoryOk(jobs: seq<Job>, init: Initial, s: State)
    requires |jobs| == |s.pcs|
  {
    && (forall k :: 0 <= k < |s.history| ==> Explained(jobs, init, s, k))
    && (forall j, k :: 0 <= j < k < |s.history| ==> !SameWriter(s.history[j].origin, s.history[k].origin))
  }

  /** No writer fills a published inode, and no two fill the same one. */
  predicate Separate(s: State)
  {
    && (forall i :: i in s.published ==> 0 <= i < |s.files|)
    && (forall w :: 0 <= w < |s.pcs| ==> (Target(s.pcs[w]).Some? ==>
          Target(s.pcs[w]).value < |s.files| && Target(s.pcs[w]).value !in s.published))
    && (forall w, x :: 0 <= w < x < |s.pcs| && Target(s.pcs[w]).Some? ==> Target(s.pcs[w]) != Target(s.pcs[x]))
  }

  ghost predicate Inv(jobs: seq<Job>, init: Initial, s: State)
  {
    && |jobs| == |s.pcs|
    && NamesOk(init, s) && HistoryOk(jobs, init, s) && Separate(s)
    && forall w :: 0 <= w < |jobs| ==> WriterOk(jobs, s, w)
  }

  function InitialState(init: Initial, n: nat): State
  {
    var files := (if init.config.Some? then [init.config.value] else [])
          + (if init.backup.Some? then [init.backup.value] else []);
    var first := if init.config.Some? then map[Config := 0] else map[];
    var names := if init.backup.Some? then first[Backup := |files| - 1] else first;
    State(files, names, seq(n, i => Start),
          if init.config.Some? then [Publication(init.config.value, Found)] else [],
          if |files| == 0 then {} else if |files| == 1 then {0} else {0, 1})
  }

  lemma InvInitially(jobs: seq<Job>, init: Initial)
    ensures Inv(jobs, init, InitialState(init, |jobs|))
  {
  }

  /** What a step of writer w may change: the inode w is filling, its own place, and at the public names
      only what was finished. */
  predicate OwnChange(s: State, s': State, w: nat)
    requires w < |s.pcs|
  {
    && |s.files| <= |s'.files| <= |s.files| + 1 && |s'.pcs| == |s.pcs|
    && (forall i :: 0 <= i < |s.files| && Some(i) != Target(s.pcs[w]) ==> s'.files[i] == s.files[i])
    && (forall x :: 0 <= x < |s.pcs| && x != w ==> s'.pcs[x] == s.pcs[x])
    && s.history <= s'.history && s.published <= s'.published
    && (Target(s'.pcs[w]) == Target(s.pcs[w]) || Target(s'.pcs[w]) == None
        || (Target(s'.pcs[w]) == Some(|s.files|) && |s'.files| == |s.files| + 1))
    && (s'.published == s.published || (Target(s.pcs[w]).Some? && Target(s'.pcs[w]) == None
        && s'.published == s.published + {Target(s.pcs[w]).value}))
  }

  lemma OwnWebChange(s: State, w: nat, text: string, count: nat)
    requires w < |s.pcs| && PcInodesExist(s, w)
    ensures OwnChange(s, WebStep(s, w, text, count), w)
  {
    hide Piece;
  }

  lemma OwnAppChange(s: State, w: nat, f: Field, v: string, count: nat)
    requires w < |s.pcs| && PcInodesExist(s, w)
    ensures OwnChange(s, AppStep(s, w, f, v, count), w)
    ensures OwnChange(s, FlushStep(s, w, f, v, count), w)
  {
    hide Present, Output, Lines, Piece;
  }

  lemma OthersUntouched(jobs: seq<Job>, s: State, w: nat, a: Action)
    requires |jobs| == |s.pcs| && w < |jobs| && PcInodesExist(s, w)
    ensures OwnChange(s, Step(jobs, s, w, a), w)
  {
    hide WebStep, AppStep, FlushStep;
    if !a.Fail? {
      match jobs[w]
      case WebJob(text) => OwnWebChange(s, w, text, a.count);
      case AppJob(f, v) => OwnAppChange(s, w, f, v, a.count);
    }
  }

  /** Published inodes are never modified again. */
  lemma PublishedImmutable(jobs: seq<Job>, init: Initial, s: State, w: nat, a: Action)
    requires Inv(jobs, init, s) && w < |jobs|
    ensures PcInodesExist(s, w)
    ensures forall i :: i in s.published ==> i < |s.files| && i < |Step(jobs, s, w, a).files|
                                             && Step(jobs, s, w, a).files[i] == s.files[i]
  {
    hide Step, SavedText, Present, Output, ValidIni;
    assert WriterOk(jobs, s, w);
    OthersUntouched(jobs, s, w, a);
  }

  /** What other steps leave alone. */
  predicate Grown(s: State, s': State)
  {
    && |s.files| <= |s'.files| && s.history <= s'.history && s.published <= s'.published
    && forall i :: i in s.published && 0 <= i < |s.files| ==> s'.files[i] == s.files[i]
  }

  lemma SnapshotKept(s: State, s': State, inode: nat)
    requires Snapshot(s, inode) && Grown(s, s')
    ensures Snapshot(s', inode) && s'.files[inode] == s.files[inode]
  {
    var k :| 0 <= k < |s.history| && s.history[k].text == s.files[inode];
    assert s'.history[k].text == s.files[inode];
  }

  /** A writer that did not move keeps its bearings. */
  lemma OtherWriter(jobs: seq<Job>, s: State, s': State, x: nat)
    requires |jobs| == |s.pcs| == |s'.pcs| && x < |jobs| && WriterOk(jobs, s, x) && s'.pcs[x] == s.pcs[x]
    requires Grown(s, s')
    requires Target(s.pcs[x]).Some? ==> Target(s.pcs[x]).value < |s.files|
                                        && s'.files[Target(s.pcs[x]).value] == s.files[Target(s.pcs[x]).value]
    ensures WriterOk(jobs, s', x)
  {
    hide Snapshot, SavedText, Present, Lines, Grown, Output, InputOk;
    assert |s.files| <= |s'.files| by { GrownFiles(s, s'); }
    match s.pcs[x]
    case WebOpened(source) => SnapshotKept(s, s', source);
    case WebCopying(source, _) => SnapshotKept(s, s', source); SnapshotExists(s, source); SnapshotExists(s', source);
    case AppScanning(input, version, _) => InputKept(s, s', input, version);
    case AppReading(input, version, _, _, _) => InputKept(s, s', input, version);
    case AppWriting(version, _, _) => VersionKept(s, s', version);
    case _ =>
  }

  lemma GrownFiles(s: State, s': State)
    requires Grown(s, s')
    ensures |s.files| <= |s'.files| && |s.history| <= |s'.history|
  {
  }

  lemma SnapshotExists(s: State, inode: nat)
    requires Snapshot(s, inode)
    ensures inode < |s.files|
  {
  }

  lemma VersionKept(s: State, s': State, n: nat)
    requires Grown(s, s') && n <= |s.history|
    ensures n <= |s'.history| && Version(s'.history, n) == Version(s.history, n)
  {
  }

  lemma InputKept(s: State, s': State, input: Option<nat>, version: nat)
    requires InputOk(s, input, version) && Grown(s, s')
    ensures InputOk(s', input, version)
    ensures input.Some? ==> input.value < |s.files| && input.value < |s'.files|
    ensures Bytes(s', input) == Bytes(s, input)
  {
    VersionKept(s, s', version);
  }

  lemma PieceMoves(done: string, text: string, count: nat)
    requires Prefix(done, text) && |done| < |text|
    ensures Prefix(done + Piece(text, |done|, count), text)
  {
  }

  /** Both passes of the application read the same bytes, so what it writes is its edit of that version. */
  lemma BothPasses(job: Job, s: State, input: Option<nat>, version: nat, present: bool, seen: string)
    requires job.AppJob? && InputOk(s, input, version)
    requires seen == Bytes(s, input) && present == Present(Lines(Bytes(s, input)), NOWHERE, job.field)
    ensures Output(seen, present, job.field, job.value) == SavedText(Version(s.history, version), job.field, job.value)
  {
    hide Present, Put, Flatten;
    if input.None? { assert Lines("") == []; }
  }

  /** The writer that moved still agrees with its job. */
  lemma OwnWriter(jobs: seq<Job>, init: Initial, s: State, w: nat, a: Action)
    requires Inv(jobs, init, s) && w < |jobs| && PcInodesExist(s, w)
    ensures WriterOk(jobs, Step(jobs, s, w, a), w)
  {
    hide SavedText, Present, Lines, Output, Piece, ValidIni, HistoryOk, Prefix, InputOk;
    assert WriterOk(jobs, s, w);
    if !a.Fail? {
      match jobs[w]
      case WebJob(text) => OwnWeb(jobs, init, s, w, text, a.count);
      case AppJob(f, v) => OwnApp(jobs, init, s, w, f, v, a.count); OwnFlush(jobs, init, s, w, f, v, a.count);
    }
  }

  lemma OwnFlush(jobs: seq<Job>, init: Initial, s: State, w: nat, f: Field, v: string, count: nat)
    requires Inv(jobs, init, s) && w < |jobs| && PcInodesExist(s, w) && jobs[w] == AppJob(f, v)
    ensures WriterOk(jobs, FlushStep(s, w, f, v, count), w)
  {
    hide SavedText, Present, Lines, Output, Piece, ValidIni, HistoryOk, InputOk, NamesOk;
    assert WriterOk(jobs, s, w);
    if s.pcs[w].AppReading? {
      var input, target := s.pcs[w].input, s.pcs[w].target;
      InputExists(s, input, s.pcs[w].version);
      var output := Output(Bytes(s, input), s.pcs[w].present, f, v);
      if |s.files[target]| < |output| {
        PieceMoves(s.files[target], output, count);
        var s' := FlushStep(s, w, f, v, count);
        assert target !in s.published;
        assert Grown(s, s');
        InputKept(s, s', input, s.pcs[w].version);
      }
    }
  }

  lemma InputExists(s: State, input: Option<nat>, version: nat)
    requires InputOk(s, input, version)
    ensures input.Some? ==> input.value < |s.files|
  {
  }

  lemma OwnWeb(jobs: seq<Job>, init: Initial, s: State, w: nat, text: string, count: nat)
    requires Inv(jobs, init, s) && w < |jobs| && PcInodesExist(s, w) && jobs[w] == WebJob(text)
    ensures !s.pcs[w].Finished? ==> WriterOk(jobs, WebStep(s, w, text, count), w)
  {
    hide SavedText, Present, Lines, Output, Piece, ValidIni, HistoryOk;
    assert WriterOk(jobs, s, w);
    match s.pcs[w]
    case WebReady => if Config in s.names { ConfigIsSnapshot(init, s); }
    case WebCopying(source, target) =>
      if |s.files[target]| < |s.files[source]| { PieceMoves(s.files[target], s.files[source], count); }
    case WebWriting(target) => if |s.files[target]| < |text| { PieceMoves(s.files[target], text, count); }
    case _ =>
  }

  lemma ConfigIsSnapshot(init: Initial, s: State)
    requires NamesOk(init, s) && Config in s.names
    ensures Snapshot(s, s.names[Config])
  {
  }

  lemma OwnApp(jobs: seq<Job>, init: Initial, s: State, w: nat, f: Field, v: string, count: nat)
    requires Inv(jobs, init, s) && w < |jobs| && PcInodesExist(s, w) && jobs[w] == AppJob(f, v)
    ensures !s.pcs[w].Finished? ==> WriterOk(jobs, AppStep(s, w, f, v, count), w)
  {
    hide SavedText, Present, Lines, Output, Piece, ValidIni, HistoryOk;
    assert WriterOk(jobs, s, w);
    match s.pcs[w]
    case AppScanning(input, version, seen) =>
      if |seen| < |Bytes(s, input)| { PieceMoves(seen, Bytes(s, input), count); }
      else { assert seen == Bytes(s, input); }
    case AppReading(input, version, present, seen, target) =>
      if |seen| < |Bytes(s, input)| { PieceMoves(seen, Bytes(s, input), count); }
      else { assert seen == Bytes(s, input); BothPasses(jobs[w], s, input, version, present, seen); }
    case AppWriting(version, output, target) =>
      if |s.files[target]| < |output| { PieceMoves(s.files[target], output, count); }
    case _ =>
  }

  lemma StepGrows(jobs: seq<Job>, init: Initial, s: State, w: nat, a: Action)
    requires Inv(jobs, init, s) && w < |jobs|
    ensures PcInodesExist(s, w) && Grown(s, Step(jobs, s, w, a))
  {
    hide Step, SavedText, Present, Output, ValidIni;
    PublishedImmutable(jobs, init, s, w, a);
    OthersUntouched(jobs, s, w, a);
  }

  lemma StepSeparate(jobs: seq<Job>, init: Initial, s: State, w: nat, a: Action)
    requires Inv(jobs, init, s) && w < |jobs| && PcInodesExist(s, w)
    ensures Separate(Step(jobs, s, w, a))
  {
    hide Step, WriterOk, NamesOk, HistoryOk;
    OthersUntouched(jobs, s, w, a);
  }

  /** The origin names the writer and says what it installed. */
  predicate OriginOk(jobs: seq<Job>, s: State, w: nat, target: nat, origin: Origin)
    requires w < |jobs| && target < |s.files|
  {
    || (origin == Installed(w) && jobs[w] == WebJob(s.files[target]) && ValidIni(jobs[w].text))
    || (origin.Edited? && origin.writer == w && origin.version <= |s.history| && jobs[w].AppJob?
        && s.files[target] == SavedText(Version(s.history, origin.version), jobs[w].field, jobs[w].value))
  }

  /** Only a finished file is renamed to the configuration path, by a writer that had not finished before. */
  lemma InstallNames(jobs: seq<Job>, init: Initial, s: State, w: nat, target: nat, origin: Origin)
    requires Inv(jobs, init, s) && w < |jobs| && target < |s.files| && !s.pcs[w].Finished?
    requires OriginOk(jobs, s, w, target, origin)
    ensures var s' := Install(s, w, target, origin); NamesOk(init, s') && HistoryOk(jobs, init, s')
  {
    hide NamesOk, HistoryOk, WriterOk, Separate, OriginOk, Install;
    InstallPublic(init, s, w, target, origin);
    InstallHistory(jobs, init, s, w, target, origin);
  }

  lemma InstallPublic(init: Initial, s: State, w: nat, target: nat, origin: Origin)
    requires NamesOk(init, s) && w < |s.pcs| && target < |s.files|
    ensures NamesOk(init, Install(s, w, target, origin))
  {
    hide WasNamed;
    var s' := Install(s, w, target, origin);
    assert s'.history[|s.history|] == Publication(s.files[target], origin);
    NamedKept(s.history, s'.history);
  }

  lemma InstallHistory(jobs: seq<Job>, init: Initial, s: State, w: nat, target: nat, origin: Origin)
    requires |jobs| == |s.pcs| && w < |jobs| && target < |s.files| && !s.pcs[w].Finished?
    requires HistoryOk(jobs, init, s) && OriginOk(jobs, s, w, target, origin)
    ensures HistoryOk(jobs, init, Install(s, w, target, origin))
  {
    hide SavedText, ValidIni;
    var s' := Install(s, w, target, origin);
    var n := |s.history|;
    assert s'.history[n] == Publication(s.files[target], origin);
    forall k | 0 <= k < |s'.history|
      ensures Explained(jobs, init, s', k) && (k < n ==> !SameWriter(s'.history[k].origin, origin))
    {
      if k < n {
        assert s'.history[k] == s.history[k] && Explained(jobs, init, s, k);
      }
    }
  }

  lemma NamedKept(history: seq<Publication>, history': seq<Publication>)
    requires history <= history'
    ensures forall text :: WasNamed(history, text) ==> WasNamed(history', text)
  {
    forall text | WasNamed(history, text) ensures WasNamed(history', text) {
      var k :| 0 <= k < |history| && history[k].text == text;
      assert history'[k].text == text;
    }
  }

  /** Steps that rename nothing leave the public names and what they name. */
  lemma QuietNames(jobs: seq<Job>, init: Initial, s: State, s': State)
    requires |jobs| == |s.pcs| == |s'.pcs|
    requires NamesOk(init, s) && HistoryOk(jobs, init, s) && Grown(s, s') && s'.history == s.history
    requires forall w :: 0 <= w < |s.pcs| && s.pcs[w].Finished? ==> s'.pcs[w].Finished?
    requires forall n :: (n == Config || n == Backup) ==> (n in s'.names <==> n in s.names)
    requires forall n :: (n == Config || n == Backup) && n in s.names ==> s'.names[n] == s.names[n]
    ensures NamesOk(init, s') && HistoryOk(jobs, init, s')
  {
    hide SavedText, WasNamed;
    forall k | 0 <= k < |s'.history| ensures Explained(jobs, init, s', k) { assert Explained(jobs, init, s, k); }
  }

  /** A finished copy is renamed to the backup path, so it names a text the configuration path held. */
  lemma BackupNames(jobs: seq<Job>, init: Initial, s: State, w: nat, source: nat, target: nat)
    requires |jobs| == |s.pcs| && w < |s.pcs| && !s.pcs[w].Finished?
    requires NamesOk(init, s) && HistoryOk(jobs, init, s) && Snapshot(s, source)
    requires target < |s.files| && s.files[target] == s.files[source]
    ensures var s' := Moved(Rename(s, BackupTemp(w), Backup, target), w, WebCopied);
            NamesOk(init, s') && HistoryOk(jobs, init, s')
  {
    hide SavedText, WasNamed;
    var s' := Moved(Rename(s, BackupTemp(w), Backup, target), w, WebCopied);
    forall k | 0 <= k < |s'.history| ensures Explained(jobs, init, s', k) { assert Explained(jobs, init, s, k); }
  }

  lemma Whole(a: string, b: string)
    requires Prefix(a, b) && |a| >= |b|
    ensures a == b
  {
  }

  lemma StepNames(jobs: seq<Job>, init: Initial, s: State, w: nat, a: Action)
    requires Inv(jobs, init, s) && w < |jobs| && PcInodesExist(s, w)
    ensures NamesOk(init, Step(jobs, s, w, a)) && HistoryOk(jobs, init, Step(jobs, s, w, a))
  {
    hide SavedText, Present, Lines, Output, Piece, ValidIni, HistoryOk, Explained, NamesOk, Grown, Prefix, Snapshot,
         InputOk, Separate, OwnChange;
    assert WriterOk(jobs, s, w);
    StepGrows(jobs, init, s, w, a);
    if a.Go? && s.pcs[w].WebWriting? && |s.files[s.pcs[w].target]| >= |jobs[w].text| {
      Whole(s.files[s.pcs[w].target], jobs[w].text);
      InstallNames(jobs, init, s, w, s.pcs[w].target, Installed(w));
    } else if a.Go? && s.pcs[w].AppWriting? && |s.files[s.pcs[w].target]| >= |s.pcs[w].output| {
      Whole(s.files[s.pcs[w].target], s.pcs[w].output);
      InstallNames(jobs, init, s, w, s.pcs[w].target, Edited(w, s.pcs[w].version));
    } else if a.Go? && s.pcs[w].WebCopying? && |s.files[s.pcs[w].target]| >= |s.files[s.pcs[w].source]| {
      Whole(s.files[s.pcs[w].target], s.files[s.pcs[w].source]);
      BackupNames(jobs, init, s, w, s.pcs[w].source, s.pcs[w].target);
    } else {
      OthersUntouched(jobs, s, w, a);
      QuietNames(jobs, init, s, Step(jobs, s, w, a));
    }
  }

  /** Every step of every writer keeps the invariant. */
  lemma InvStep(jobs: seq<Job>, init: Initial, s: State, w: nat, a: Action)
    requires Inv(jobs, init, s) && w < |jobs|
    ensures PcInodesExist(s, w) && Inv(jobs, init, Step(jobs, s, w, a))
  {
    hide Step, WriterOk, NamesOk, HistoryOk;
    StepGrows(jobs, init, s, w, a);
    OthersUntouched(jobs, s, w, a);
    StepSeparate(jobs, init, s, w, a);
    StepNames(jobs, init, s, w, a);
    OwnWriter(jobs, init, s, w, a);
    var s' := Step(jobs, s, w, a);
    forall x | 0 <= x < |jobs| && x != w ensures WriterOk(jobs, s', x) {
      assert WriterOk(jobs, s, x);
      assert Target(s.pcs[x]).Some? ==> Target(s.pcs[x]) != Target(s.pcs[w]);
      OtherWriter(jobs, s, s', x);
    }
  }

  // ---------- every interleaving ----------

  datatype Turn = Turn(writer: nat, action: Action)

  /** The state after a schedule: any writers, in any order, stopped anywhere. */
  function Exec(jobs: seq<Job>, init: Initial, run: seq<Turn>): (s: State)
    ensures |s.pcs| == |jobs|
  {
    if run == [] then InitialState(init, |jobs|)
    else
      var s, t := Exec(jobs, init, run[..|run| - 1]), run[|run| - 1];
      if t.writer < |jobs| && PcInodesExist(s, t.writer) then Step(jobs, s, t.writer, t.action) else s
  }

  lemma {:induction false} ExecInv(jobs: seq<Job>, init: Initial, run: seq<Turn>)
    ensures Inv(jobs, init, Exec(jobs, init, run))
  {
    hide Inv, Step;
    if run == [] {
      InvInitially(jobs, init);
    } else {
      ExecInv(jobs, init, run[..|run| - 1]);
      var s, t := Exec(jobs, init, run[..|run| - 1]), run[|run| - 1];
      if t.writer < |jobs| { InvStep(jobs, init, s, t.writer, t.action); }
    }
  }

  /** In every interleaving the configuration path names one complete text, the last of the history, and every text
      of the history is explained; no writer installs twice. */
  lemma ConfigIsComplete(jobs: seq<Job>, init: Initial, run: seq<Turn>)
    ensures var s := Exec(jobs, init, run);
            && (Config in s.names <==> s.history != [])
            && (Config in s.names ==> s.names[Config] < |s.files|
                                      && s.files[s.names[Config]] == s.history[|s.history| - 1].text)
            && (forall k :: 0 <= k < |s.history| ==> Explained(jobs, init, s, k))
            && (forall j, k :: 0 <= j < k < |s.history| ==> !SameWriter(s.history[j].origin, s.history[k].origin))
  {
    hide Explained, WriterOk, Exec;
    ExecInv(jobs, init, run);
  }

  /** The backup path names a complete text the configuration path held, or the backup that was there before. */
  lemma BackupWasConfig(jobs: seq<Job>, init: Initial, run: seq<Turn>)
    ensures var s := Exec(jobs, init, run);
            Backup in s.names ==>
              (s.names[Backup] < |s.files| &&
               (WasNamed(s.history, s.files[s.names[Backup]]) || Some(s.files[s.names[Backup]]) == init.backup))
  {
    hide Explained, WriterOk, Exec, WasNamed;
    ExecInv(jobs, init, run);
  }

  /** However a schedule goes on, published files keep their bytes and the history only grows. */
  lemma {:induction false} PublishedForever(jobs: seq<Job>, init: Initial, run: seq<Turn>, more: seq<Turn>)
    ensures Grown(Exec(jobs, init, run), Exec(jobs, init, run + more))
    decreases |more|
  {
    hide Inv, Step;
    if more == [] {
      assert run + more == run;
    } else {
      var prior := more[..|more| - 1];
      PublishedForever(jobs, init, run, prior);
      var t := more[|more| - 1];
      assert (run + more)[..|run + more| - 1] == run + prior;
      var s := Exec(jobs, init, run + prior);
      ExecInv(jobs, init, run + prior);
      if t.writer < |jobs| { StepGrows(jobs, init, s, t.writer, t.action); }
    }
  }

  /** Writers that play by the table: web texts whose lines load, and edits set_field() takes. */
  ghost predicate LoadableJob(t: Table, job: Job)
    requires GoodSupportRows(t) && Typed(t, t.defaults)
  {
    match job
    case WebJob(text) => ParsedLines(t, Some(text)).Success?
    case AppJob(f, v) => f in t.fields && PlainValue(v) && SetField(t.ipv4, f, v).Some?
  }

  /** Then every text the configuration path ever names has lines the loader accepts. */
  lemma {:induction false} AlwaysLoadable(t: Table, jobs: seq<Job>, init: Initial, run: seq<Turn>, k: nat)
    requires GoodTable(t) && (forall w :: 0 <= w < |jobs| ==> LoadableJob(t, jobs[w]))
    requires init.config.Some? ==> ParsedLines(t, init.config).Success?
    requires k < |Exec(jobs, init, run).history|
    ensures ParsedLines(t, Some(Exec(jobs, init, run).history[k].text)).Success?
    decreases k
  {
    hide Step, WriterOk, ParsedLines, SavedText, GoodTable, Exec, NamesOk, Separate, SetField, PlainValue;
    assert GoodSupportRows(t) && Typed(t, t.defaults) by { TableParts(t); }
    var s := Exec(jobs, init, run);
    ConfigIsComplete(jobs, init, run);
    assert Explained(jobs, init, s, k);
    match s.history[k].origin
    case Found =>
    case Installed(w) => assert LoadableJob(t, jobs[w]);
    case Edited(w, n) =>
      assert LoadableJob(t, jobs[w]);
      var f, v := jobs[w].field, jobs[w].value;
      var i :| 0 <= i < |t.fields| && t.fields[i] == f;
      NothingLoads(t);
      if n > 0 { AlwaysLoadable(t, jobs, init, run, n - 1); }
      SaveKeepsLoadable(t, Version(s.history, n), i, v);
  }

  lemma TableParts(t: Table)
    requires GoodTable(t)
    ensures GoodSupportRows(t) && Typed(t, t.defaults)
  {
  }

  lemma NothingLoads(t: Table)
    requires GoodSupportRows(t) && Typed(t, t.defaults)
    ensures ParsedLines(t, None).Success?
  {
    NothingParsed(t);
  }

  // ---------- what an edit keeps ----------

  /** An edit goes onto the version that was there when the application opened the path. It is the edit of the text
      it replaces if and only if the lines of those two versions agree but for its key's values, with its places the
      same; so if nothing was installed between. */
  lemma EditOfLast(jobs: seq<Job>, init: Initial, run: seq<Turn>, k: nat)
    requires var s := Exec(jobs, init, run); k < |s.history| && s.history[k].origin.Edited?
    requires var w := Exec(jobs, init, run).history[k].origin.writer;
             w < |jobs| ==> jobs[w].AppJob? && GoodField(jobs[w].field) && Writable(jobs[w].value)
    ensures var s := Exec(jobs, init, run);
            var Edited(w, n) := s.history[k].origin;
            && w < |jobs| && n <= k
            && (s.history[k].text == SavedText(Version(s.history, k), jobs[w].field, jobs[w].value)
                <==> Frame(Version(s.history, n), jobs[w].field) == Frame(Version(s.history, k), jobs[w].field))
  {
    hide SavedText, Exec, GoodField, WriterOk, Frame;
    var s := Exec(jobs, init, run);
    ConfigIsComplete(jobs, init, run);
    assert Explained(jobs, init, s, k);
    var Edited(w, n) := s.history[k].origin;
    SavedAlike(Version(s.history, n), Version(s.history, k), jobs[w].field, jobs[w].value);
  }

  /** An edit loads exactly if the support proxy's rule holds of the version it went onto, with the field set. */
  lemma EditLoads(t: Table, jobs: seq<Job>, init: Initial, run: seq<Turn>, k: nat, i: nat)
    requires GoodTable(t) && i < |t.fields| && k < |Exec(jobs, init, run).history|
    requires Exec(jobs, init, run).history[k].origin.Edited?
    requires var w := Exec(jobs, init, run).history[k].origin.writer;
             w < |jobs| ==> jobs[w].AppJob? && jobs[w].field == t.fields[i] && PlainValue(jobs[w].value)
                            && SetField(t.ipv4, t.fields[i], jobs[w].value).Some?
    requires var n := Exec(jobs, init, run).history[k].origin.version;
             n <= |Exec(jobs, init, run).history| ==>
               ParsedLines(t, Version(Exec(jobs, init, run).history, n)).Success?
    ensures var s := Exec(jobs, init, run);
            var Edited(w, n) := s.history[k].origin;
            && w < |jobs| && n <= k && jobs[w].AppJob?
            && var v := SetField(t.ipv4, t.fields[i], jobs[w].value);
               var base := ParsedLines(t, Version(s.history, n));
               v.Some? && base.Success? && Typed(t, base.value.parsed[i := v.value])
               && LoadText(t, t.defaults, s.history[k].text) == Judged(t, base.value.parsed[i := v.value])
  {
    hide SavedText, Exec, GoodTable, WriterOk, SetField, PlainValue, SupportValid, GoodSupportRows;
    assert GoodSupportRows(t) && Typed(t, t.defaults) by { TableParts(t); }
    var s := Exec(jobs, init, run);
    ConfigIsComplete(jobs, init, run);
    assert Explained(jobs, init, s, k);
    var Edited(w, n) := s.history[k].origin;
    SaveKeepsLoadable(t, Version(s.history, n), i, jobs[w].value);
  }

  // ---------- two schedules ----------

  lemma NextStep(jobs: seq<Job>, init: Initial, run: seq<Turn>, w: nat, a: Action)
    requires w < |jobs|
    ensures PcInodesExist(Exec(jobs, init, run), w)
    ensures Exec(jobs, init, run + [Turn(w, a)]) == Step(jobs, Exec(jobs, init, run), w, a)
    ensures Inv(jobs, init, Exec(jobs, init, run))
  {
    hide Step, NamesOk, HistoryOk, WriterOk;
    ExecInv(jobs, init, run);
    assert WriterOk(jobs, Exec(jobs, init, run), w);
    InvStep(jobs, init, Exec(jobs, init, run), w, a);
    assert (run + [Turn(w, a)])[..|run|] == run;
  }

  /** Only writer w moved, and it installed nothing. */
  predicate Quiet(s: State, s': State, w: nat)
  {
    && s'.history == s.history && |s'.pcs| == |s.pcs|
    && (forall x :: 0 <= x < |s.pcs| && x != w ==> s'.pcs[x] == s.pcs[x])
    && (Config in s.names ==> Config in s'.names)
  }

  /** A web worker left alone reads the backup's source, copies it, and is ready to write its text. */
  lemma WebCopies(jobs: seq<Job>, init: Initial, run: seq<Turn>, w: nat) returns (after: seq<Turn>)
    requires w < |jobs| && WebWriter(jobs[w])
    requires var s := Exec(jobs, init, run); s.pcs[w] == Start && Config in s.names
    ensures Quiet(Exec(jobs, init, run), Exec(jobs, init, after), w) && Exec(jobs, init, after).pcs[w].WebWriting?
  {
    hide Exec, Inv, ValidIni, Step;
    var go := Go(0);
    var run1 := run + [Turn(w, go)];
    var run2 := run1 + [Turn(w, go)];
    NextStep(jobs, init, run, w, go);
    WebReadies(jobs, Exec(jobs, init, run), w);
    NextStep(jobs, init, run1, w, go);
    WebOpens(jobs, Exec(jobs, init, run1), w);
    NextStep(jobs, init, run2, w, go);
    WebCreates(jobs, Exec(jobs, init, run2), w);
    after := WebCopiesOn(jobs, init, run2 + [Turn(w, go)], w);
  }

  lemma WebReadies(jobs: seq<Job>, s: State, w: nat)
    requires |jobs| == |s.pcs| && w < |jobs| && WebWriter(jobs[w]) && s.pcs[w] == Start && Config in s.names
    ensures var s' := Step(jobs, s, w, Go(0)); Quiet(s, s', w) && s'.pcs[w] == WebReady && Config in s'.names
  {
    hide ValidIni;
  }

  lemma WebOpens(jobs: seq<Job>, s: State, w: nat)
    requires |jobs| == |s.pcs| && w < |jobs| && jobs[w].WebJob? && s.pcs[w] == WebReady && Config in s.names
    ensures var s' := Step(jobs, s, w, Go(0)); Quiet(s, s', w) && s'.pcs[w].WebOpened? && Config in s'.names
  {
  }

  lemma WebCreates(jobs: seq<Job>, s: State, w: nat)
    requires |jobs| == |s.pcs| && w < |jobs| && jobs[w].WebJob? && PcInodesExist(s, w) && s.pcs[w].WebOpened?
    ensures var s' := Step(jobs, s, w, Go(0)); Quiet(s, s', w) && s'.pcs[w].WebCopying?
  {
  }

  lemma WebCopiesOn(jobs: seq<Job>, init: Initial, run: seq<Turn>, w: nat) returns (after: seq<Turn>)
    requires w < |jobs| && jobs[w].WebJob? && Exec(jobs, init, run).pcs[w].WebCopying?
    ensures Quiet(Exec(jobs, init, run), Exec(jobs, init, after), w) && Exec(jobs, init, after).pcs[w].WebWriting?
  {
    hide Exec, Inv;
    var s := Exec(jobs, init, run);
    after := run;
    NextStep(jobs, init, run, w, Go(0));
    var source, target := s.pcs[w].source, s.pcs[w].target;
    if |s.files[target]| < |s.files[source]| {
      NextStep(jobs, init, run, w, Go(|s.files[source]|));
      SourceApart(jobs, init, s, w);
      after := run + [Turn(w, Go(|s.files[source]|))];
    }
    var s1 := Exec(jobs, init, after);
    assert Quiet(s, s1, w) && s1.pcs[w] == s.pcs[w] && |s1.files[target]| >= |s1.files[source]|;
    NextStep(jobs, init, after, w, Go(0));
    after := after + [Turn(w, Go(0))];
    assert Exec(jobs, init, after).pcs[w] == WebCopied;
    NextStep(jobs, init, after, w, Go(0));
    after := after + [Turn(w, Go(0))];
  }

  lemma SourceApart(jobs: seq<Job>, init: Initial, s: State, w: nat)
    requires Inv(jobs, init, s) && w < |jobs| && s.pcs[w].WebCopying?
    ensures s.pcs[w].source != s.pcs[w].target
  {
    assert WriterOk(jobs, s, w);
  }

  /** It then installs its text. */
  lemma WebInstalls(jobs: seq<Job>, init: Initial, run: seq<Turn>, w: nat) returns (after: seq<Turn>)
    requires w < |jobs| && WebWriter(jobs[w])
    requires var s := Exec(jobs, init, run); s.pcs[w] == Start && Config in s.names
    ensures var s, s' := Exec(jobs, init, run), Exec(jobs, init, after);
            && s'.history == s.history + [Publication(jobs[w].text, Installed(w))] && Config in s'.names
            && forall x :: 0 <= x < |s.pcs| && x != w ==> s'.pcs[x] == s.pcs[x]
  {
    hide Exec, ValidIni;
    after := WebCopies(jobs, init, run, w);
    after := WebWrites(jobs, init, after, w);
    var s := Exec(jobs, init, after);
    hide Inv, WebStep;
    NextStep(jobs, init, after, w, Go(0));
    WebInstallStep(jobs, s, w);
    after := after + [Turn(w, Go(0))];
  }

  lemma WebInstallStep(jobs: seq<Job>, s: State, w: nat)
    requires |jobs| == |s.pcs| && w < |jobs| && jobs[w].WebJob? && s.pcs[w].WebWriting?
    requires s.pcs[w].target < |s.files| && s.files[s.pcs[w].target] == jobs[w].text
    ensures Step(jobs, s, w, Go(0)) == Install(s, w, s.pcs[w].target, Installed(w))
  {
  }

  /** It writes all of it. */
  lemma WebWrites(jobs: seq<Job>, init: Initial, run: seq<Turn>, w: nat) returns (after: seq<Turn>)
    requires w < |jobs| && jobs[w].WebJob? && Exec(jobs, init, run).pcs[w].WebWriting?
    ensures var s, s' := Exec(jobs, init, run), Exec(jobs, init, after);
            && Quiet(s, s', w) && s'.pcs[w] == s.pcs[w] && s.pcs[w].target < |s'.files|
            && s'.files[s.pcs[w].target] == jobs[w].text
  {
    hide Exec, Inv, ValidIni;
    after := run;
    var s := Exec(jobs, init, run);
    var target := s.pcs[w].target;
    NextStep(jobs, init, run, w, Go(|jobs[w].text|));
    WriterIn(jobs, init, s, w);
    if |s.files[target]| < |jobs[w].text| {
      after := run + [Turn(w, Go(|jobs[w].text|))];
    }
  }

  lemma WriterIn(jobs: seq<Job>, init: Initial, s: State, w: nat)
    requires Inv(jobs, init, s) && w < |jobs|
    ensures WriterOk(jobs, s, w)
  {
  }

  /** The application opens the version that is there. */
  lemma AppOpens(jobs: seq<Job>, init: Initial, run: seq<Turn>, w: nat) returns (after: seq<Turn>)
    requires w < |jobs| && jobs[w].AppJob? && Exec(jobs, init, run).pcs[w] == Start
    ensures var s, s' := Exec(jobs, init, run), Exec(jobs, init, after);
            Quiet(s, s', w) && s'.pcs[w].AppScanning? && s'.pcs[w].version == |s.history|
  {
    hide Exec, Inv;
    NextStep(jobs, init, run, w, Go(0));
    after := run + [Turn(w, Go(0))];
  }

  /** Left alone it reads that version twice, writes, and installs its edit, whatever was installed meanwhile. */
  lemma AppInstalls(jobs: seq<Job>, init: Initial, run: seq<Turn>, w: nat) returns (after: seq<Turn>)
    requires w < |jobs| && jobs[w].AppJob? && Exec(jobs, init, run).pcs[w].AppScanning?
    ensures var s, s' := Exec(jobs, init, run), Exec(jobs, init, after);
            var n := s.pcs[w].version;
            && n <= |s.history|
            && s'.history == s.history + [Publication(SavedText(Version(s.history, n), jobs[w].field, jobs[w].value),
                                                      Edited(w, n))]
            && Config in s'.names
  {
    hide Exec, Inv, SavedText, Output, Present;
    var s := Exec(jobs, init, run);
    NextStep(jobs, init, run, w, Go(0));
    WriterIn(jobs, init, s, w);
    after := AppScans(jobs, init, run, w);
    after := AppReads(jobs, init, after, w);
    var s1 := Exec(jobs, init, after);
    var n, output, target := s1.pcs[w].version, s1.pcs[w].output, s1.pcs[w].target;
    NextStep(jobs, init, after, w, Go(0));
    WriterIn(jobs, init, s1, w);
    if |s1.files[target]| < |output| {
      NextStep(jobs, init, after, w, Go(|output|));
      after := after + [Turn(w, Go(|output|))];
    }
    var s2 := Exec(jobs, init, after);
    assert Quiet(s1, s2, w) && s2.pcs[w] == s1.pcs[w] && s2.files[target] == output;
    NextStep(jobs, init, after, w, Go(0));
    after := after + [Turn(w, Go(0))];
  }

  lemma AppScans(jobs: seq<Job>, init: Initial, run: seq<Turn>, w: nat) returns (after: seq<Turn>)
    requires w < |jobs| && jobs[w].AppJob? && Exec(jobs, init, run).pcs[w].AppScanning?
    ensures var s, s' := Exec(jobs, init, run), Exec(jobs, init, after);
            Quiet(s, s', w) && s'.pcs[w].AppReading? && s'.pcs[w].version == s.pcs[w].version
  {
    hide Exec, Inv, SavedText, Output, Present;
    var s := Exec(jobs, init, run);
    after := run;
    NextStep(jobs, init, run, w, Go(0));
    WriterIn(jobs, init, s, w);
    var bytes := Bytes(s, s.pcs[w].input);
    if |s.pcs[w].seen| < |bytes| {
      NextStep(jobs, init, run, w, Go(|bytes|));
      after := run + [Turn(w, Go(|bytes|))];
    }
    NextStep(jobs, init, after, w, Go(0));
    after := after + [Turn(w, Go(0))];
  }

  lemma AppReads(jobs: seq<Job>, init: Initial, run: seq<Turn>, w: nat) returns (after: seq<Turn>)
    requires w < |jobs| && jobs[w].AppJob? && Exec(jobs, init, run).pcs[w].AppReading?
    ensures var s, s' := Exec(jobs, init, run), Exec(jobs, init, after);
            Quiet(s, s', w) && s'.pcs[w].AppWriting? && s'.pcs[w].version == s.pcs[w].version
  {
    hide Exec, Inv, SavedText, Output, Present;
    var s := Exec(jobs, init, run);
    after := run;
    NextStep(jobs, init, run, w, Go(0));
    WriterIn(jobs, init, s, w);
    var bytes := Bytes(s, s.pcs[w].input);
    if |s.pcs[w].seen| < |bytes| {
      NextStep(jobs, init, run, w, Go(|bytes|));
      after := run + [Turn(w, Go(|bytes|))];
    }
    NextStep(jobs, init, after, w, Go(0));
    after := after + [Turn(w, Go(0))];
  }

  /** A change that is lost: the application opens the old text, the web worker installs another, and the application
      then installs its edit of the old one, with the old values of every other key. */
  lemma ChangeLost(before: string, web: string, f: Field, v: string) returns (run: seq<Turn>)
    requires GoodField(f) && Writable(v) && ValidIni(web)
    ensures var s := Exec([WebJob(web), AppJob(f, v)], Initial(Some(before), None), run);
            && s.history == [Publication(before, Found), Publication(web, Installed(0)),
                             Publication(SavedText(Some(before), f, v), Edited(1, 1))]
            && Config in s.names
    ensures forall section, key :: section != f.section || key != f.key ==>
              Values(Editor, Lines(SavedText(Some(before), f, v)), NOWHERE, section, key)
                == Values(Editor, Lines(before), NOWHERE, section, key)
  {
    hide Exec, Inv, SavedText, Values, Lines, ValidIni;
    var jobs, init := [WebJob(web), AppJob(f, v)], Initial(Some(before), None);
    assert Exec(jobs, init, []) == InitialState(init, 2) by { NoTurns(jobs, init); }
    run := AppOpens(jobs, init, [], 1);
    run := WebInstalls(jobs, init, run, 0);
    run := AppInstalls(jobs, init, run, 1);
    forall section, key | section != f.section || key != f.key
      ensures Values(Editor, Lines(SavedText(Some(before), f, v)), NOWHERE, section, key)
           == Values(Editor, Lines(before), NOWHERE, section, key)
    {
      SavedOthers(before, f, v, section, key);
    }
  }

  lemma NoTurns(jobs: seq<Job>, init: Initial)
    ensures Exec(jobs, init, []) == InitialState(init, |jobs|)
  {
  }

  lemma SavedOthers(text: string, f: Field, v: string, section: string, key: string)
    requires GoodField(f) && Writable(v) && (section != f.section || key != f.key)
    ensures Values(Editor, Lines(SavedText(Some(text), f, v)), NOWHERE, section, key)
         == Values(Editor, Lines(text), NOWHERE, section, key)
  {
    hide Values, Put, Present, Lines;
    SavedLines(Some(text), f, v);
    PutKeepsOthers(Lines(text), NOWHERE, false, Present(Lines(text), NOWHERE, f), f, v, section, key);
  }

  /** A rule that is broken: the old text loads, the edit is acceptable on it, and so is the web worker's text; but the
      application's editor opens the path after the web worker installed it, and its edit of that text does not load. */
  lemma RuleBroken(t: Table, i: nat, v: string, before: string, web: string) returns (run: seq<Turn>)
    requires GoodTable(t) && i < |t.fields| && PlainValue(v) && SetField(t.ipv4, t.fields[i], v).Some?
    requires GoodSupportRows(t) && Typed(t, t.defaults) && LoadText(t, t.defaults, before).Success?
    requires var c := LoadText(t, t.defaults, before).value[i := SetField(t.ipv4, t.fields[i], v).value];
             Typed(t, c) && SupportValid(t, c)
    requires ValidIni(web) && LoadText(t, t.defaults, web).Success?
    requires var c := LoadText(t, t.defaults, web).value[i := SetField(t.ipv4, t.fields[i], v).value];
             Typed(t, c) && !SupportValid(t, c)
    ensures var s := Exec([WebJob(web), AppJob(t.fields[i], v)], Initial(Some(before), None), run);
            && Config in s.names && s.history != []
            && LoadText(t, t.defaults, s.history[|s.history| - 1].text) == Failure(UnusableSupport)
    ensures LoadText(t, t.defaults, SavedText(Some(before), t.fields[i], v)).Success?
  {
    hide Exec, Inv, SavedText, LoadText, SupportValid, GoodSupportRows, SetField, ValidIni;
    var f := t.fields[i];
    var jobs, init := [WebJob(web), AppJob(f, v)], Initial(Some(before), None);
    assert Exec(jobs, init, []) == InitialState(init, 2) by { NoTurns(jobs, init); }
    run := WebInstalls(jobs, init, [], 0);
    run := AppOpens(jobs, init, run, 1);
    run := AppInstalls(jobs, init, run, 1);
    SaveThenLoad(t, Some(before), i, v);
    SaveThenLoad(t, Some(web), i, v);
  }
}
