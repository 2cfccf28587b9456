/** The rotated capture of the application log, and the page that shows its tail. */
module LogTail {

  const ROTATE_SIZE := 512 * 1024
  const DISPLAY_SIZE := 256 * 1024

  /** The current and the rotated file; a missing file is an empty one. */
  datatype Files = Files(current: string, older: string)

  function Kept(f: Files): string { f.older + f.current }

  // ---------- writing ----------

  /** The files as they are written to: opening a file that is already too large discards both. */
  function Opened(f: Files, isOpen: bool): Files
  {
    if !isOpen && |f.current| > ROTATE_SIZE then Files("", "") else f
  }

  /** One captured line (with its timestamp, if one was missing). */
  function AfterLine(f: Files, isOpen: bool, line: string): Files
  {
    var g := Opened(f, isOpen);
    if |g.current| + |line| > ROTATE_SIZE then Files(line, g.current)
    else Files(g.current + line, g.older)
  }

  /** The capture process: its output descriptor and the size it keeps of the current file. */
  class Capture {
    var files: Files
    var isOpen: bool
    var outputSize: nat

    /** The size is only tracked while the file is open. */
    predicate Valid()
      reads this
    {
      isOpen ==> outputSize == |files.current|
    }

    constructor ()
      ensures Valid() && files == Files("", "") && !isOpen
    {
      files, isOpen, outputSize := Files("", ""), false, 0;
    }

    /** The body of capture_app_log()'s loop for one line. */
    method Line(timestamp: string, line: string)
      requires Valid()
      modifies this
      ensures Valid() && isOpen
      ensures files == AfterLine(old(files), old(isOpen), timestamp + line)
    {
      if !isOpen {
        isOpen := true;
        outputSize := |files.current|;
        if outputSize > ROTATE_SIZE {
          files := Files("", "");
          outputSize := 0;
        }
      }
      if outputSize + |timestamp| + |line| > ROTATE_SIZE {
        files := Files("", files.current);
        outputSize := 0;
      }
      files := files.(current := files.current + timestamp);
      files := files.(current := files.current + line);
      outputSize := outputSize + |timestamp| + |line|;
      assert "" + timestamp + line == timestamp + line;
      assert (old(files).current + timestamp) + line == old(files).current + (timestamp + line);
    }

    /** The capture process is started again on the same files. */
    method Reopen()
      requires Valid()
      modifies this
      ensures Valid() && !isOpen && files == old(files)
    {
      isOpen := false;
    }
  }

  // ---------- showing ----------

  function Tail(s: string, n: nat): string { if |s| > n then s[|s| - n..] else s }

  /** read_app_log_paths(): the tail of the current file, filled up from the older one. */
  function Shown(f: Files): string
  {
    var current := Tail(f.current, DISPLAY_SIZE);
    if |current| < DISPLAY_SIZE then Tail(f.older, DISPLAY_SIZE - |current|) + current else current
  }

  /** Two files shown this way are one file shown whole. */
  lemma ShownIsTail(f: Files)
    ensures Shown(f) == Tail(Kept(f), DISPLAY_SIZE)
  {
  }

  // ---------- whole captures ----------

  datatype Event = Line(text: string) | Reopen

  datatype Log = Log(files: Files, isOpen: bool)

  function After(log: Log, e: Event): Log
  {
    match e
    case Line(text) => Log(AfterLine(log.files, log.isOpen, text), true)
    case Reopen => log.(isOpen := false)
  }

  function Run(events: seq<Event>): Log
  {
    if events == [] then Log(Files("", ""), false)
    else After(Run(events[..|events| - 1]), events[|events| - 1])
  }

  function Lines(events: seq<Event>): seq<string>
  {
    if events == [] then []
    else Lines(events[..|events| - 1]) + if events[|events| - 1].Line? then [events[|events| - 1].text] else []
  }

  function Stream(lines: seq<string>): string
  {
    if lines == [] then "" else Stream(lines[..|lines| - 1]) + lines[|lines| - 1]
  }

  /** A new process that finds the current file too large discards both files with its first line. */
  predicate Discards(log: Log) { !log.isOpen && |log.files.current| > ROTATE_SIZE }

  /** No line was captured by such a process. */
  predicate Undiscarded(events: seq<Event>)
  {
    events == [] ||
    (Undiscarded(events[..|events| - 1]) && (events[|events| - 1].Line? ==> !Discards(Run(events[..|events| - 1]))))
  }

  /** The lines captured since files were last discarded. */
  function Since(events: seq<Event>): seq<string>
  {
    if events == [] then []
    else
      var before, e := events[..|events| - 1], events[|events| - 1];
      if e.Reopen? then Since(before)
      else if Discards(Run(before)) then [e.text]
      else Since(before) + [e.text]
  }

  /** The files hold the lines from line m on, the current one those from line c on:
      all lines are kept, or more than 512 KiB of them. */
  predicate Holds(f: Files, lines: seq<string>, m: nat, c: nat)
  {
    && m <= c <= |lines| && f.older == Stream(lines[m..c]) && f.current == Stream(lines[c..])
    && (m == 0 || |f.older| + |f.current| > ROTATE_SIZE)
  }

  lemma StreamOne(lines: seq<string>, m: nat, text: string)
    requires m <= |lines|
    ensures Stream((lines + [text])[m..]) == Stream(lines[m..]) + text
  {
    assert (lines + [text])[m..] == lines[m..] + [text];
    assert (lines[m..] + [text])[..|lines[m..]|] == lines[m..];
  }

  lemma {:induction false} StreamSplits(lines: seq<string>, m: nat)
    requires m <= |lines|
    ensures Stream(lines) == Stream(lines[..m]) + Stream(lines[m..])
  {
    var last := |lines| - 1;
    if m == |lines| {
      assert lines[..m] == lines && lines[m..] == [];
    } else {
      StreamSplits(lines[..last], m);
      assert lines[..last][..m] == lines[..m] && lines[m..][..last - m] == lines[..last][m..];
    }
  }

  /** One more line keeps it so, unless a new process discards files it finds too large. */
  lemma LineHolds(log: Log, lines: seq<string>, text: string, m: nat, c: nat) returns (m': nat, c': nat)
    requires Holds(log.files, lines, m, c) && (log.isOpen || |log.files.current| <= ROTATE_SIZE)
    ensures Holds(AfterLine(log.files, log.isOpen, text), lines + [text], m', c')
  {
    hide Stream;
    var f := log.files;
    if |f.current| + |text| <= ROTATE_SIZE {
      m', c' := m, c;
      StreamOne(lines, c, text);
      assert (lines + [text])[m..c] == lines[m..c];
    } else {
      m', c' := c, |lines|;
      StreamOne(lines, |lines|, text);
      assert lines[|lines|..] == [] && Stream([]) == "" by { NoLines(); }
      assert (lines + [text])[c..|lines|] == lines[c..];
    }
  }

  lemma NoLines()
    ensures Stream([]) == ""
  {
  }

  /** The first line after a discard is all there is. */
  lemma DiscardHolds(f: Files, text: string)
    requires |f.current| > ROTATE_SIZE
    ensures Holds(AfterLine(f, false, text), [text], 0, 0)
  {
    assert [text][..0] == [];
    assert "" + text == text;
  }

  /** In every run the files hold a line-aligned suffix of what was captured since the last discard: all of it, or
      more than 512 KiB. */
  lemma {:induction false} CaptureHolds(events: seq<Event>) returns (m: nat, c: nat)
    ensures Holds(Run(events).files, Since(events), m, c)
  {
    if events == [] {
      m, c := 0, 0;
    } else {
      hide Holds, AfterLine;
      var before, e := events[..|events| - 1], events[|events| - 1];
      m, c := CaptureHolds(before);
      if e.Line? {
        if Discards(Run(before)) {
          m, c := 0, 0;
          DiscardHolds(Run(before).files, e.text);
        } else {
          m, c := LineHolds(Run(before), Since(before), e.text, m, c);
        }
      }
    }
  }

  /** A suffix of the lines is a suffix of their text. */
  lemma HoldsSuffix(f: Files, lines: seq<string>, m: nat, c: nat)
    requires Holds(f, lines, m, c)
    ensures Stream(lines) == Stream(lines[..m]) + Kept(f)
    ensures |Kept(f)| == |Stream(lines)| || |Kept(f)| > ROTATE_SIZE
  {
    hide Stream;
    StreamSplits(lines, m);
    StreamSplits(lines[m..], c - m);
    assert lines[m..][..c - m] == lines[m..c] && lines[m..][c - m..] == lines[c..];
    assert m == 0 ==> lines[..m] == [] && Stream(lines[..m]) == "" by { NoLines(); }
  }

  /** What was captured before the last discard, if there was one, is longer than the page. */
  lemma {:induction false} SinceSplits(events: seq<Event>) returns (dropped: string)
    ensures Stream(Lines(events)) == dropped + Stream(Since(events))
    ensures if Undiscarded(events) then dropped == "" else |dropped| > ROTATE_SIZE
  {
    dropped := "";
    if events != [] {
      hide Stream, Run, Discards;
      var before, e := events[..|events| - 1], events[|events| - 1];
      dropped := SinceSplits(before);
      if e.Line? {
        OneMore(Lines(before), e.text);
        if Discards(Run(before)) {
          LongBefore(before, dropped);
          dropped := Stream(Lines(before));
          OnlyLine(e.text);
        } else {
          OneMore(Since(before), e.text);
          assert (dropped + Stream(Since(before))) + e.text == dropped + (Stream(Since(before)) + e.text);
        }
      } else {
        assert Lines(before) + [] == Lines(before);
      }
    }
  }

  /** Files are only discarded when more than the limit was captured. */
  lemma LongBefore(events: seq<Event>, dropped: string)
    requires Discards(Run(events)) && Stream(Lines(events)) == dropped + Stream(Since(events))
    ensures |Stream(Lines(events))| > ROTATE_SIZE
  {
    hide Stream, Run, Since, Lines, Holds;
    var m, c := CaptureHolds(events);
    HoldsSuffix(Run(events).files, Since(events), m, c);
  }

  lemma OnlyLine(text: string)
    ensures Stream([text]) == text
  {
    OneMore([], text);
    assert [] + [text] == [text] && "" + text == text;
  }

  lemma OneMore(lines: seq<string>, text: string)
    ensures Stream(lines + [text]) == Stream(lines) + text
  {
    assert (lines + [text])[..|lines|] == lines;
  }

  lemma TailOfSuffix(s: string, t: string, n: nat)
    requires |s| <= |t| && s == t[|t| - |s|..] && (|s| == |t| || |s| >= n)
    ensures Tail(s, n) == Tail(t, n)
  {
  }

  /** In every run the page shows the tail of what was captured since the last discard. */
  lemma ShowsSince(events: seq<Event>)
    ensures Shown(Run(events).files) == Tail(Stream(Since(events)), DISPLAY_SIZE)
  {
    hide Stream, Run, Since, Shown, Tail, Holds;
    var f := Run(events).files;
    var m, c := CaptureHolds(events);
    HoldsSuffix(f, Since(events), m, c);
    ShownIsTail(f);
    TailOfSuffix(Kept(f), Stream(Since(events)), DISPLAY_SIZE);
  }

  /** Hence, in every run, it shows exactly the last 256 KiB of everything captured (or all of it) if and only if
      nothing was discarded or the lines since then fill the page. */
  lemma ShowsTheTailExactly(events: seq<Event>)
    ensures Shown(Run(events).files) == Tail(Stream(Lines(events)), DISPLAY_SIZE)
       <==> Undiscarded(events) || |Stream(Since(events))| >= DISPLAY_SIZE
  {
    hide Stream, Run, Since, Shown, Tail, Lines, Undiscarded;
    ShowsSince(events);
    var dropped := SinceSplits(events);
    if Undiscarded(events) {
      assert "" + Stream(Since(events)) == Stream(Since(events));
    } else {
      LongTail(dropped, Stream(Since(events)));
    }
  }

  /** Without a discard it always does. */
  lemma ShowsTheTail(events: seq<Event>)
    requires Undiscarded(events)
    ensures Shown(Run(events).files) == Tail(Stream(Lines(events)), DISPLAY_SIZE)
  {
    ShowsTheTailExactly(events);
  }

  /** One capture process that starts on empty files never discards anything. */
  lemma {:induction false} OneCapture(events: seq<Event>)
    requires forall i :: 0 <= i < |events| ==> events[i].Line?
    ensures Undiscarded(events) && (Run(events).isOpen || Run(events).files == Files("", ""))
    ensures Shown(Run(events).files) == Tail(Stream(Lines(events)), DISPLAY_SIZE)
  {
    hide Shown, Tail, Stream, Lines, AfterLine;
    if events != [] { OneCapture(events[..|events| - 1]); }
    ShowsTheTail(events);
  }

  /** Right after a discard the new line has to fill the page alone. */
  lemma DiscardShows(events: seq<Event>, text: string)
    requires Discards(Run(events))
    ensures Shown(Run(events + [Line(text)]).files) == Tail(Stream(Lines(events + [Line(text)])), DISPLAY_SIZE)
       <==> |text| >= DISPLAY_SIZE
  {
    hide Stream, Tail, Run, Shown;
    var after := events + [Line(text)];
    assert after[..|events|] == events;
    assert !Undiscarded(after) && Since(after) == [text];
    OnlyLine(text);
    ShowsTheTailExactly(after);
  }

  /** An input that shows it: one line longer than the limit, a restart, and one short line. */
  lemma DiscardExample(big: string, text: string)
    requires |big| == ROTATE_SIZE + 1 && text == "x\n"
    ensures var events := [Line(big), Reopen, Line(text)];
            Shown(Run(events).files) == text && Tail(Stream(Lines(events)), DISPLAY_SIZE) != text
  {
    hide Stream, Lines, Tail;
    var one, two := [Line(big)], [Line(big), Reopen];
    assert one[..0] == [] && two[..1] == one;
    assert Run(one) == Log(Files(big, ""), true);
    assert Run(two) == Log(Files(big, ""), false);
    assert Undiscarded(one) && Undiscarded(two);
    var three := two + [Line(text)];
    assert three == [Line(big), Reopen, Line(text)] && three[..2] == two;
    assert Run(three) == Log(Files(text, ""), true);
    ShownIsTail(Files(text, ""));
    DiscardShows(two, text);
    ShortTail(text);
  }

  lemma ShortTail(s: string)
    requires |s| <= DISPLAY_SIZE
    ensures Tail(s, DISPLAY_SIZE) == s
  {
  }

  lemma LongTail(s: string, t: string)
    requires |s| > DISPLAY_SIZE
    ensures Tail(t, DISPLAY_SIZE) == Tail(s + t, DISPLAY_SIZE) <==> |t| >= DISPLAY_SIZE
  {
    if |t| >= DISPLAY_SIZE {
      assert Tail(s + t, DISPLAY_SIZE) == Tail(t, DISPLAY_SIZE);
    } else {
      assert |Tail(s + t, DISPLAY_SIZE)| == DISPLAY_SIZE;
    }
  }

  // ---------- the files stay small ----------

  /** At most 512 KiB, or one single captured line. */
  predicate Bounded(file: string, lines: seq<string>) { |file| <= 524288 || file in lines }

  lemma BoundedMore(file: string, lines: seq<string>, more: seq<string>)
    requires Bounded(file, lines)
    ensures Bounded(file, lines + more)
  {
  }

  /** In every run both files are bounded so. */
  lemma {:induction false} FilesBounded(events: seq<Event>)
    ensures Bounded(Run(events).files.current, Lines(events)) && Bounded(Run(events).files.older, Lines(events))
  {
    if events != [] {
      hide Bounded;
      var before, e := events[..|events| - 1], events[|events| - 1];
      var f := Run(before).files;
      FilesBounded(before);
      BoundedMore(f.current, Lines(before), if e.Line? then [e.text] else []);
      BoundedMore(f.older, Lines(before), if e.Line? then [e.text] else []);
      if e.Line? { LineBounded(f, Run(before).isOpen, e.text, Lines(before)); }
    } else {
      NothingBounded();
    }
  }

  lemma NothingBounded()
    ensures Bounded("", [])
  {
  }

  lemma LineBounded(f: Files, isOpen: bool, line: string, lines: seq<string>)
    requires Bounded(f.current, lines) && Bounded(f.older, lines)
    ensures var g := AfterLine(f, isOpen, line);
            Bounded(g.current, lines + [line]) && Bounded(g.older, lines + [line])
  {
    assert line in lines + [line];
  }

  /** A line that would take the current file past 512 KiB carries that file over whole and begins a new one; any other
      line is appended and leaves the older file alone. */
  lemma RotatesWhenFull(events: seq<Event>, text: string)
    requires !Discards(Run(events))
    ensures var f, g := Run(events).files, Run(events + [Line(text)]).files;
            if |f.current| + |text| > 524288 then g.older == f.current && g.current == text
            else g.older == f.older && g.current == f.current + text
  {
    assert (events + [Line(text)])[..|events|] == events;
  }
}
