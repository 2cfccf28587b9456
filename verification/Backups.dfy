/** What the backup path names once a web worker has installed its text, and what a writer does when it is alone. */
module Backups {
  import opened Ini
  import opened AppConfig
  import opened ConfigSave
  import opened WebSave
  import opened Publish

  // ---------- every schedule ----------

  /** The backup path names a whole text the configuration path held. */
  predicate BackedUp(s: State)
  {
    && Backup in s.names && s.names[Backup] < |s.files| && s.names[Backup] in s.published
    && WasNamed(s.history, s.files[s.names[Backup]])
  }

  predicate PastBackup(pc: Pc) { pc.WebCopied? || pc.WebWriting? }

  /** Some web worker has got past its backup, or installed its text. */
  predicate NeedsBackup(s: State)
  {
    || (exists w :: 0 <= w < |s.pcs| && PastBackup(s.pcs[w]))
    || (exists k :: 0 <= k < |s.history| && s.history[k].origin.Installed?)
  }

  /** This step renames a finished copy to the backup path. */
  predicate MakesBackup(jobs: seq<Job>, s: State, w: nat, a: Action)
    requires |jobs| == |s.pcs| && w < |jobs| && PcInodesExist(s, w)
  {
    a.Go? && jobs[w].WebJob? && s.pcs[w].WebCopying? && |s.files[s.pcs[w].target]| >= |s.files[s.pcs[w].source]|
  }

  lemma BackupMade(jobs: seq<Job>, init: Initial, s: State, w: nat, a: Action)
    requires Inv(jobs, init, s) && w < |jobs| && PcInodesExist(s, w) && MakesBackup(jobs, s, w, a)
    ensures var s' := Step(jobs, s, w, a);
            && BackedUp(s') && s'.files[s'.names[Backup]] == s.files[s.pcs[w].source]
            && s'.history == s.history && s'.pcs == s.pcs[w := WebCopied]
  {
    hide SavedText, Present, Lines, Output, ValidIni, HistoryOk, NamesOk, Separate;
    assert WriterOk(jobs, s, w);
    Whole(s.files[s.pcs[w].target], s.files[s.pcs[w].source]);
  }

  /** At most one text was installed, by a web worker only if it was past its backup. */
  predicate MoreHistory(s: State, s': State, w: nat)
    requires w < |s.pcs|
  {
    && s.history <= s'.history && |s'.history| <= |s.history| + 1
    && (|s'.history| > |s.history| && s'.history[|s.history|].origin.Installed? ==> PastBackup(s.pcs[w]))
  }

  /** Any other step leaves the backup path alone, and takes no worker past its backup that was not. */
  lemma BackupLeft(jobs: seq<Job>, init: Initial, s: State, w: nat, a: Action)
    requires Inv(jobs, init, s) && w < |jobs| && PcInodesExist(s, w) && !MakesBackup(jobs, s, w, a)
    ensures var s' := Step(jobs, s, w, a);
            && |s'.pcs| == |s.pcs| && (forall x :: 0 <= x < |s.pcs| && x != w ==> s'.pcs[x] == s.pcs[x])
            && (Backup in s.names <==> Backup in s'.names)
            && (Backup in s.names ==> s'.names[Backup] == s.names[Backup])
            && (PastBackup(s'.pcs[w]) ==> PastBackup(s.pcs[w]))
            && MoreHistory(s, s', w)
  {
    hide SavedText, Present, Lines, Output, ValidIni, HistoryOk, NamesOk, Separate, Piece;
    assert WriterOk(jobs, s, w);
  }

  lemma BackupStays(s: State, s': State)
    requires BackedUp(s) && Grown(s, s') && Backup in s'.names && s'.names[Backup] == s.names[Backup]
    ensures BackedUp(s') && s'.files[s'.names[Backup]] == s.files[s.names[Backup]]
  {
    hide WasNamed;
    NamedKept(s.history, s'.history);
  }

  lemma BackupStep(jobs: seq<Job>, init: Initial, s: State, w: nat, a: Action)
    requires Inv(jobs, init, s) && w < |jobs| == |s.pcs| && PcInodesExist(s, w)
    requires NeedsBackup(s) ==> BackedUp(s)
    ensures NeedsBackup(Step(jobs, s, w, a)) ==> BackedUp(Step(jobs, s, w, a))
  {
    hide Inv, Step, BackedUp, MakesBackup, Grown;
    var s' := Step(jobs, s, w, a);
    if MakesBackup(jobs, s, w, a) {
      BackupMade(jobs, init, s, w, a);
    } else {
      BackupLeft(jobs, init, s, w, a);
      StepGrows(jobs, init, s, w, a);
      if NeedsBackup(s') {
        NeededBefore(s, s', w);
        BackupThere(s);
        BackupStays(s, s');
      }
    }
  }

  lemma BackupThere(s: State)
    requires BackedUp(s)
    ensures Backup in s.names
  {
  }

  lemma NeededBefore(s: State, s': State, w: nat)
    requires NeedsBackup(s') && |s'.pcs| == |s.pcs| && w < |s.pcs|
    requires forall x :: 0 <= x < |s.pcs| && x != w ==> s'.pcs[x] == s.pcs[x]
    requires PastBackup(s'.pcs[w]) ==> PastBackup(s.pcs[w])
    requires MoreHistory(s, s', w)
    ensures NeedsBackup(s)
  {
    hide PastBackup;
    if k :| 0 <= k < |s'.history| && s'.history[k].origin.Installed? {
      if k < |s.history| { assert s'.history[k] == s.history[k]; }
    } else {
      var x :| 0 <= x < |s'.pcs| && PastBackup(s'.pcs[x]);
      assert PastBackup(s.pcs[x]);
    }
  }

  /** In every schedule, once a web worker has installed its text, the backup path names a whole text the configuration
      path held: no longer the backup found at the start. */
  lemma {:induction false} BackupAfterInstall(jobs: seq<Job>, init: Initial, run: seq<Turn>)
    ensures NeedsBackup(Exec(jobs, init, run)) ==> BackedUp(Exec(jobs, init, run))
  {
    hide Inv, Step, BackedUp;
    if run == [] {
      assert !NeedsBackup(InitialState(init, |jobs|));
    } else {
      var before, t := run[..|run| - 1], run[|run| - 1];
      BackupAfterInstall(jobs, init, before);
      ExecInv(jobs, init, before);
      var s := Exec(jobs, init, before);
      if t.writer < |jobs| && PcInodesExist(s, t.writer) { BackupStep(jobs, init, s, t.writer, t.action); }
    }
  }

  // ---------- a web worker alone ----------

  predicate BackupIs(s: State, text: string)
  {
    Backup in s.names && s.names[Backup] < |s.files| && s.files[s.names[Backup]] == text
  }

  /** Where a lone web worker stands: before its backup nothing changed; after it the backup path names the old text;
      and when it is done, its text is installed too, unless it failed. */
  predicate AloneOk(before: string, text: string, s: State, failed: bool)
  {
    var first := Publication(before, Found);
    && |s.pcs| == 1
    && match s.pcs[0]
       case WebCopied => s.history == [first] && BackupIs(s, before)
       case WebWriting(_) => s.history == [first] && BackupIs(s, before)
       case Finished =>
         || (s.history == [first] && failed)
         || (s.history == [first, Publication(text, Installed(0))] && BackupIs(s, before))
       case AppScanning(_, _, _) => false
       case AppReading(_, _, _, _, _) => false
       case AppWriting(_, _, _) => false
       case _ => s.history == [first]
  }

  lemma AloneStep(before: string, text: string, backup: Option<string>, s: State, a: Action, failed: bool)
    requires Inv([WebJob(text)], Initial(Some(before), backup), s) && PcInodesExist(s, 0)
    requires ValidIni(text) && AloneOk(before, text, s, failed)
    ensures AloneOk(before, text, Step([WebJob(text)], s, 0, a), failed || a.Fail?)
  {
    hide ValidIni, Piece, HistoryOk, Lines, Present, Output, SavedText;
    var jobs, init := [WebJob(text)], Initial(Some(before), backup);
    var s' := Step(jobs, s, 0, a);
    assert WriterOk(jobs, s, 0);
    StepGrows(jobs, init, s, 0, a);
    if MakesBackup(jobs, s, 0, a) {
      BackupMade(jobs, init, s, 0, a);
    } else {
      BackupLeft(jobs, init, s, 0, a);
      if BackupIs(s, before) { BackupKept(init, s, s', before); }
      if s.pcs[0].WebWriting? && a.Go? && |s.files[s.pcs[0].target]| >= |text| {
        Whole(s.files[s.pcs[0].target], text);
      }
    }
  }

  lemma BackupKept(init: Initial, s: State, s': State, text: string)
    requires NamesOk(init, s) && BackupIs(s, text) && Grown(s, s') && Backup in s'.names
    requires s'.names[Backup] == s.names[Backup]
    ensures BackupIs(s', text)
  {
    hide WasNamed;
  }

  /** No turn of this run fails. */
  predicate NoFail(run: seq<Turn>) { forall i :: 0 <= i < |run| ==> !run[i].action.Fail? }

  /** A lone web worker, run in any pieces and failing anywhere or not: if its text is installed, the backup path names
      the text it replaced, and if nothing failed and it is done, its text is installed. */
  lemma {:induction false} AloneInstalls(before: string, text: string, backup: Option<string>, run: seq<Turn>)
    requires ValidIni(text)
    ensures AloneOk(before, text, Exec([WebJob(text)], Initial(Some(before), backup), run), !NoFail(run))
  {
    hide Inv, Step, ValidIni;
    var jobs, init := [WebJob(text)], Initial(Some(before), backup);
    if run != [] {
      var prior, t := run[..|run| - 1], run[|run| - 1];
      AloneInstalls(before, text, backup, prior);
      ExecInv(jobs, init, prior);
      var s := Exec(jobs, init, prior);
      assert NoFail(run) <==> NoFail(prior) && !t.action.Fail?;
      if t.writer == 0 && PcInodesExist(s, 0) { AloneStep(before, text, backup, s, t.action, !NoFail(prior)); }
    }
  }

  // ---------- nothing is left behind ----------

  /** A writer that has not begun, or is done, has no temporary file. */
  predicate Tidy(s: State, w: nat)
    requires w < |s.pcs|
  {
    s.pcs[w] == Start || s.pcs[w] == Finished ==> BackupTemp(w) !in s.names && ConfigTemp(w) !in s.names
  }

  lemma TidyWeb(s: State, w: nat, text: string, count: nat, x: nat)
    requires w < |s.pcs| && x < |s.pcs| && PcInodesExist(s, w) && Tidy(s, x) && !s.pcs[w].Finished?
    ensures |WebStep(s, w, text, count).pcs| == |s.pcs| && Tidy(WebStep(s, w, text, count), x)
  {
    hide ValidIni, Piece;
  }

  lemma TidyApp(s: State, w: nat, f: Field, v: string, count: nat, x: nat)
    requires w < |s.pcs| && x < |s.pcs| && PcInodesExist(s, w) && Tidy(s, x) && !s.pcs[w].Finished?
    ensures |AppStep(s, w, f, v, count).pcs| == |s.pcs| && Tidy(AppStep(s, w, f, v, count), x)
    ensures |FlushStep(s, w, f, v, count).pcs| == |s.pcs| && Tidy(FlushStep(s, w, f, v, count), x)
  {
    hide Present, Lines, Output, Piece;
  }

  lemma TidyStep(jobs: seq<Job>, s: State, w: nat, a: Action, x: nat)
    requires |jobs| == |s.pcs| && w < |jobs| && x < |jobs| && PcInodesExist(s, w) && Tidy(s, x)
    ensures |Step(jobs, s, w, a).pcs| == |s.pcs| && Tidy(Step(jobs, s, w, a), x)
  {
    hide WebStep, AppStep, FlushStep;
    if !s.pcs[w].Finished? && !a.Fail? {
      match jobs[w]
      case WebJob(text) => TidyWeb(s, w, text, a.count, x);
      case AppJob(f, v) => TidyApp(s, w, f, v, a.count, x);
    }
  }

  /** In every schedule a writer that is done, whether it installed something or failed, leaves no temporary file. */
  lemma {:induction false} NothingLeft(jobs: seq<Job>, init: Initial, run: seq<Turn>, w: nat)
    requires w < |jobs|
    ensures Tidy(Exec(jobs, init, run), w)
  {
    hide Step;
    if run != [] {
      var before, t := run[..|run| - 1], run[|run| - 1];
      NothingLeft(jobs, init, before, w);
      var s := Exec(jobs, init, before);
      if t.writer < |jobs| && PcInodesExist(s, t.writer) { TidyStep(jobs, s, t.writer, t.action, w); }
    }
  }
}
