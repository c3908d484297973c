// The rotating log file of log4go/filelog.go over a model of one directory.
module LogFile {
  import opened Wrappers

  // The log file and its numbered backups (.001 to .999).
  datatype Name = Log | Backup(number: nat)

  // What one write appends: a log line and the day it was written, or a header or
  // trailer.
  datatype Piece = Record(text: string, day: int) | Mark(text: string)

  type File = seq<Piece>
  type Disk = map<Name, File>

  const LAST_NUMBER := 999

  datatype Config = Config(rotate: bool, maxlines: int, maxsize: int, daily: bool)

  // What the world contributes to one event: the day, the formatted header and
  // trailer, whether rename, open and each write succeed, and what a failed
  // write of a line left in the file.
  datatype Moment = Moment(
    day: int, header: string, trailer: string, renameOk: bool, openOk: bool,
    headerOk: bool, trailerOk: bool, writeOk: bool, partial: string)

  datatype State = State(disk: Disk, open: bool, stopped: bool, curlines: nat, cursize: nat, openDay: int)

  datatype Event = Write(text: string, moment: Moment) | Rotation(moment: Moment) | Closing(moment: Moment)

  // ----- What the writer does -------------------------------------------------

  function Append(disk: Disk, pieces: seq<Piece>): Disk
    requires Log in disk
  {
    disk[Log := disk[Log] + pieces]
  }

  // What the writes of header and trailer put into the file; their errors are
  // ignored.
  function Header(m: Moment): seq<Piece> {
    if m.headerOk then [Mark(m.header)] else []
  }

  function Trailer(m: Moment): seq<Piece> {
    if m.trailerOk then [Mark(m.trailer)] else []
  }

  // The next available number from n on.
  function FreeNumber(disk: Disk, n: nat): (r: Option<nat>)
    ensures r.Some? ==> n <= r.value <= LAST_NUMBER && Backup(r.value) !in disk
    ensures r.Some? ==> forall k :: n <= k < r.value ==> Backup(k) in disk
    ensures r.None? ==> forall k :: n <= k <= LAST_NUMBER ==> Backup(k) in disk
    decreases LAST_NUMBER + 1 - n
  {
    if n > LAST_NUMBER then None
    else if Backup(n) !in disk then Some(n)
    else FreeNumber(disk, n + 1)
  }

  function Renamed(disk: Disk, number: nat): Disk
    requires Log in disk
  {
    (disk - {Log})[Backup(number) := disk[Log]]
  }

  // An open file has a directory entry.
  predicate Sound(s: State) {
    (s.open ==> Log in s.disk) && (s.stopped ==> !s.open)
  }

  function CloseFile(s: State, m: Moment): State
    requires Sound(s)
  {
    if s.open then s.(disk := Append(s.disk, Trailer(m)), open := false) else s
  }

  // Moves the log file out of the way; None if that fails.
  function MoveAway(c: Config, disk: Disk, m: Moment): Option<Disk> {
    if !c.rotate || Log !in disk then Some(disk)
    else
      match FreeNumber(disk, 1)
      case None => None
      case Some(n) => if m.renameOk then Some(Renamed(disk, n)) else None
  }

  function OpenFile(disk: Disk, m: Moment): (s: State)
    ensures Sound(s)
  {
    var disk' := if Log in disk then disk else disk[Log := []];
    State(Append(disk', Header(m)), true, false, 0, 0, m.day)
  }

  // intRotate; an error stops the writer.
  function Rotate(c: Config, s: State, m: Moment): (t: State)
    requires Sound(s)
    ensures Sound(t)
  {
    var s1 := CloseFile(s, m);
    match MoveAway(c, s1.disk, m)
    case None => s1.(stopped := true)
    case Some(disk) => if m.openOk then OpenFile(disk, m) else s1.(disk := disk, stopped := true)
  }

  predicate Due(c: Config, s: State, m: Moment) {
    || (c.maxlines > 0 && s.curlines >= c.maxlines)
    || (c.maxsize > 0 && s.cursize >= c.maxsize)
    || (c.daily && m.day != s.openDay)
  }

  // The end of the writer: trailer and close.
  function Stop(s: State, m: Moment): (t: State)
    requires Sound(s)
    ensures Sound(t)
  {
    CloseFile(s, m).(stopped := true)
  }

  function WriteLine(s: State, text: string, m: Moment): (t: State)
    requires Sound(s) && s.open
    ensures Sound(t)
  {
    if m.writeOk then
      s.(disk := Append(s.disk, [Record(text, m.day)]), curlines := s.curlines + 1, cursize := s.cursize + |text|)
    else Stop(s.(disk := Append(s.disk, [Mark(m.partial)])), m)
  }

  function React(c: Config, s: State, event: Event): (t: State)
    requires Sound(s)
    ensures Sound(t)
  {
    if s.stopped || !s.open then s
    else
      match event
      case Rotation(m) => Rotate(c, s, m)
      case Closing(m) => Stop(s, m)
      case Write(text, m) =>
        var s1 := if Due(c, s, m) then Rotate(c, s, m) else s;
        if s1.open then WriteLine(s1, text, m) else s1
  }

  // What the event writes, in order.
  function Output(c: Config, s: State, event: Event): seq<Piece>
    requires Sound(s)
  {
    if s.stopped || !s.open then []
    else
      match event
      case Rotation(m) => RotateOutput(c, s, m)
      case Closing(m) => Trailer(m)
      case Write(text, m) =>
        var before := if Due(c, s, m) then RotateOutput(c, s, m) else [];
        var s1 := if Due(c, s, m) then Rotate(c, s, m) else s;
        before + if !s1.open then [] else if m.writeOk then [Record(text, m.day)] else [Mark(m.partial)] + Trailer(m)
  }

  function RotateOutput(c: Config, s: State, m: Moment): seq<Piece>
    requires Sound(s)
  {
    (if s.open then Trailer(m) else []) + if Rotate(c, s, m).open then Header(m) else []
  }

  function Play(c: Config, s: State, events: seq<Event>): (t: State)
    requires Sound(s)
    ensures Sound(t)
    decreases |events|
  {
    if events == [] then s else Play(c, React(c, s, events[0]), events[1..])
  }

  function Written(c: Config, s: State, events: seq<Event>): seq<Piece>
    requires Sound(s)
    decreases |events|
  {
    if events == [] then [] else Output(c, s, events[0]) + Written(c, React(c, s, events[0]), events[1..])
  }

  // ----- Conservation ---------------------------------------------------------

  // Backups 1 to n and no others.
  ghost predicate Numbered(disk: Disk, n: nat) {
    forall k: nat :: Backup(k) in disk <==> 1 <= k <= n
  }

  // The first n backups in number order, then the log file.
  ghost function Backups(disk: Disk, n: nat): seq<Piece>
    requires forall k :: 1 <= k <= n ==> Backup(k) in disk
  {
    if n == 0 then [] else Backups(disk, n - 1) + disk[Backup(n)]
  }

  ghost function Everything(disk: Disk, n: nat): seq<Piece>
    requires Numbered(disk, n)
  {
    Backups(disk, n) + if Log in disk then disk[Log] else []
  }

  lemma {:induction false} BackupsSame(disk: Disk, disk': Disk, n: nat)
    requires forall k :: 1 <= k <= n ==> Backup(k) in disk && Backup(k) in disk' && disk[Backup(k)] == disk'[Backup(k)]
    ensures Backups(disk, n) == Backups(disk', n)
  {
    if n > 0 {
      BackupsSame(disk, disk', n - 1);
    }
  }

  lemma AppendEverything(disk: Disk, n: nat, pieces: seq<Piece>)
    requires Numbered(disk, n) && Log in disk
    ensures Numbered(Append(disk, pieces), n) && Everything(Append(disk, pieces), n) == Everything(disk, n) + pieces
  {
    BackupsSame(disk, Append(disk, pieces), n);
    assert Backups(disk, n) + (disk[Log] + pieces) == (Backups(disk, n) + disk[Log]) + pieces;
  }

  lemma MoveEverything(c: Config, disk: Disk, n: nat, m: Moment) returns (n': nat)
    requires Numbered(disk, n) && MoveAway(c, disk, m).Some?
    ensures var disk' := MoveAway(c, disk, m).value;
            && n <= n' <= n + 1 && Numbered(disk', n') && Everything(disk', n') == Everything(disk, n)
            && (c.rotate ==> Log !in disk')
  {
    n' := n;
    if c.rotate && Log in disk {
      n' := n + 1;
      var free := FreeNumber(disk, 1).value;
      assert Backup(free) !in disk && (free > 1 ==> Backup(free - 1) in disk);
      var disk' := Renamed(disk, n + 1);
      BackupsSame(disk, disk', n);
      assert Everything(disk', n') == Backups(disk', n) + disk[Log];
    }
  }

  lemma OpenEverything(disk: Disk, n: nat, m: Moment)
    requires Numbered(disk, n)
    ensures Numbered(OpenFile(disk, m).disk, n)
    ensures Everything(OpenFile(disk, m).disk, n) == Everything(disk, n) + Header(m)
  {
    var disk' := if Log in disk then disk else disk[Log := []];
    BackupsSame(disk, disk', n);
    AppendEverything(disk', n, Header(m));
  }

  lemma CloseEverything(s: State, n: nat, m: Moment)
    requires Sound(s) && Numbered(s.disk, n)
    ensures Numbered(CloseFile(s, m).disk, n)
    ensures Everything(CloseFile(s, m).disk, n)
            == Everything(s.disk, n) + if s.open then Trailer(m) else []
  {
    if s.open {
      AppendEverything(s.disk, n, Trailer(m));
    }
  }

  lemma RotateEverything(c: Config, s: State, n: nat, m: Moment) returns (n': nat)
    requires Sound(s) && Numbered(s.disk, n)
    ensures n <= n' <= n + 1 && Numbered(Rotate(c, s, m).disk, n')
    ensures Everything(Rotate(c, s, m).disk, n') == Everything(s.disk, n) + RotateOutput(c, s, m)
  {
    hide Numbered, Everything;
    n' := n;
    CloseEverything(s, n, m);
    var s1 := CloseFile(s, m);
    if MoveAway(c, s1.disk, m).Some? {
      n' := MoveEverything(c, s1.disk, n, m);
      if m.openOk {
        OpenEverything(MoveAway(c, s1.disk, m).value, n', m);
      }
    }
  }

  lemma ReactEverything(c: Config, s: State, n: nat, event: Event) returns (n': nat)
    requires Sound(s) && Numbered(s.disk, n)
    ensures n <= n' && Numbered(React(c, s, event).disk, n')
    ensures Everything(React(c, s, event).disk, n') == Everything(s.disk, n) + Output(c, s, event)
  {
    hide Numbered, Everything, Rotate, RotateOutput;
    n' := n;
    if s.open && !s.stopped {
      match event {
        case Rotation(m) => n' := RotateEverything(c, s, n, m);
        case Closing(m) => CloseEverything(s, n, m);
        case Write(text, m) =>
          var s1 := s;
          if Due(c, s, m) {
            n' := RotateEverything(c, s, n, m);
            s1 := Rotate(c, s, m);
          }
          if s1.open {
            if m.writeOk {
              AppendEverything(s1.disk, n', [Record(text, m.day)]);
            } else {
              AppendEverything(s1.disk, n', [Mark(m.partial)]);
              CloseEverything(s1.(disk := Append(s1.disk, [Mark(m.partial)])), n', m);
            }
          }
      }
    }
  }

  // Nothing is lost and nothing is overwritten: whatever happens, the backups in
  // number order and the log file hold the initial contents and then everything
  // that was written, in order.
  lemma {:induction false} RotationKeepsAll(c: Config, s: State, n: nat, events: seq<Event>) returns (n': nat)
    requires Sound(s) && Numbered(s.disk, n)
    ensures n <= n' && Numbered(Play(c, s, events).disk, n')
    ensures Everything(Play(c, s, events).disk, n') == Everything(s.disk, n) + Written(c, s, events)
    decreases |events|
  {
    n' := n;
    if events != [] {
      hide Numbered, Everything, React, Output, Play, Written;
      var t := React(c, s, events[0]);
      var n1 := ReactEverything(c, s, n, events[0]);
      n' := RotationKeepsAll(c, t, n1, events[1..]);
      FirstEvent(c, s, events);
      var all, first, rest := Everything(s.disk, n), Output(c, s, events[0]), Written(c, t, events[1..]);
      assert (all + first) + rest == all + (first + rest);
    } else {
      hide Numbered, Everything;
    }
  }

  lemma FirstEvent(c: Config, s: State, events: seq<Event>)
    requires Sound(s) && events != []
    ensures Play(c, s, events) == Play(c, React(c, s, events[0]), events[1..])
    ensures Written(c, s, events) == Output(c, s, events[0]) + Written(c, React(c, s, events[0]), events[1..])
  {
    hide React, Output;
  }

  // ----- The lines ------------------------------------------------------------

  // The log lines among the pieces, and the lines the program asked for.
  function Lines(pieces: seq<Piece>): seq<string> {
    if pieces == [] then []
    else (match pieces[0] case Record(text, _) => [text] case Mark(_) => []) + Lines(pieces[1..])
  }

  function Asked(events: seq<Event>): seq<string> {
    if events == [] then []
    else (match events[0] case Write(text, _) => [text] case _ => []) + Asked(events[1..])
  }

  lemma {:induction false} LinesAppend(a: seq<Piece>, b: seq<Piece>)
    ensures Lines(a + b) == Lines(a) + Lines(b)
  {
    if a == [] {
      assert a + b == b;
    } else {
      assert (a + b)[1..] == a[1..] + b;
      LinesAppend(a[1..], b);
    }
  }

  predicate Running(s: State) {
    s.open && !s.stopped
  }

  lemma RotateWritesNoLine(c: Config, s: State, m: Moment)
    requires Sound(s) && Running(s)
    ensures Lines(RotateOutput(c, s, m)) == []
    ensures Running(Rotate(c, s, m)) || Rotate(c, s, m).stopped
  {
    LinesAppend(Trailer(m), if Rotate(c, s, m).open then Header(m) else []);
  }

  lemma OutputLines(c: Config, s: State, event: Event)
    requires Sound(s) && Running(s)
    ensures Running(React(c, s, event)) || React(c, s, event).stopped
    ensures Running(React(c, s, event)) ==>
              Lines(Output(c, s, event)) == match event case Write(text, _) => [text] case _ => []
  {
    hide Rotate, RotateOutput;
    RotateWritesNoLine(c, s, event.moment);
    if event.Write? {
      var before := if Due(c, s, event.moment) then RotateOutput(c, s, event.moment) else [];
      LinesAppend(before, [Record(event.text, event.moment.day)]);
    }
  }

  lemma {:induction false} StoppedStays(c: Config, s: State, events: seq<Event>)
    requires Sound(s) && s.stopped
    ensures Play(c, s, events).stopped
    decreases |events|
  {
    if events != [] {
      StoppedStays(c, s, events[1..]);
    }
  }

  // While the writer runs, its files hold exactly the lines asked for, in order.
  lemma {:induction false} EveryLineWritten(c: Config, s: State, events: seq<Event>)
    requires Sound(s) && Running(s) && !Play(c, s, events).stopped
    ensures Lines(Written(c, s, events)) == Asked(events)
    decreases |events|
  {
    if events != [] {
      hide React, Output;
      var t := React(c, s, events[0]);
      OutputLines(c, s, events[0]);
      assert !t.stopped by {
        if t.stopped { StoppedStays(c, t, events[1..]); }
      }
      EveryLineWritten(c, t, events[1..]);
      LinesAppend(Output(c, s, events[0]), Written(c, t, events[1..]));
    }
  }

  // ----- Backups and bounds ---------------------------------------------------

  // A backup, once there, is never changed: renaming never hits an existing file.
  lemma {:induction false} BackupsStay(c: Config, s: State, events: seq<Event>, k: nat)
    requires Sound(s) && Backup(k) in s.disk
    ensures Backup(k) in Play(c, s, events).disk && Play(c, s, events).disk[Backup(k)] == s.disk[Backup(k)]
    decreases |events|
  {
    if events != [] {
      BackupStays(c, s, events[0], k);
      BackupsStay(c, React(c, s, events[0]), events[1..], k);
    }
  }

  lemma RotateKeepsBackup(c: Config, s: State, m: Moment, k: nat)
    requires Sound(s) && Backup(k) in s.disk
    ensures Backup(k) in Rotate(c, s, m).disk && Rotate(c, s, m).disk[Backup(k)] == s.disk[Backup(k)]
  {
  }

  lemma BackupStays(c: Config, s: State, event: Event, k: nat)
    requires Sound(s) && Backup(k) in s.disk
    ensures Backup(k) in React(c, s, event).disk && React(c, s, event).disk[Backup(k)] == s.disk[Backup(k)]
  {
    hide Rotate;
    if !event.Closing? {
      RotateKeepsBackup(c, s, event.moment, k);
    }
  }

  function RecordCount(file: File): nat {
    if file == [] then 0
    else RecordCount(file[..|file| - 1]) + if file[|file| - 1].Record? then 1 else 0
  }

  function RecordSize(file: File): nat {
    if file == [] then 0
    else
      RecordSize(file[..|file| - 1])
      + match file[|file| - 1] case Record(text, _) => |text| case Mark(_) => 0
  }

  // A file of the writer: within the line limit.
  predicate Limited(c: Config, file: File) {
    c.maxlines > 0 ==> RecordCount(file) <= c.maxlines
  }

  // The counters count the open log file; every file the writer began is limited.
  ghost predicate Bounded(c: Config, s: State, first: nat)
    requires Sound(s)
  {
    && (s.open ==>
          s.curlines == RecordCount(s.disk[Log]) && s.cursize == RecordSize(s.disk[Log]))
    && (Log in s.disk ==> Limited(c, s.disk[Log]))
    && forall k: nat :: k >= first && Backup(k) in s.disk ==> Limited(c, s.disk[Backup(k)])
  }

  // Marks do not count.
  lemma MarksDoNotCount(file: File, pieces: seq<Piece>)
    requires |pieces| <= 1 && (pieces != [] ==> pieces[0].Mark?)
    ensures RecordCount(file + pieces) == RecordCount(file) && RecordSize(file + pieces) == RecordSize(file)
  {
    if pieces == [] {
      assert file + pieces == file;
    } else {
      assert (file + pieces)[..|file|] == file;
    }
  }

  lemma CloseBounded(c: Config, s: State, first: nat, m: Moment)
    requires Sound(s) && Bounded(c, s, first)
    ensures Bounded(c, CloseFile(s, m), first) && !CloseFile(s, m).open
  {
    hide RecordCount, RecordSize;
    if s.open {
      MarksDoNotCount(s.disk[Log], Trailer(m));
    }
  }

  lemma RotateBounded(c: Config, s: State, first: nat, m: Moment)
    requires Sound(s) && Bounded(c, s, first) && c.rotate
    ensures Bounded(c, Rotate(c, s, m), first)
    ensures Rotate(c, s, m).open ==> Rotate(c, s, m).curlines == 0
  {
    hide RecordCount, RecordSize;
    CloseBounded(c, s, first, m);
    var s1 := CloseFile(s, m);
    var moved := MoveAway(c, s1.disk, m);
    if moved.Some? && m.openOk {
      assert Log !in moved.value;
      NewFile(m);
    }
  }

  lemma NewFile(m: Moment)
    ensures RecordCount([] + Header(m)) == 0 && RecordSize([] + Header(m)) == 0
  {
    MarksDoNotCount([], Header(m));
  }

  lemma LineBounded(c: Config, s: State, first: nat, text: string, m: Moment)
    requires Sound(s) && s.open && Bounded(c, s, first)
    requires c.maxlines > 0 ==> s.curlines < c.maxlines
    ensures Bounded(c, WriteLine(s, text, m), first)
  {
    if m.writeOk {
      assert (s.disk[Log] + [Record(text, m.day)])[..|s.disk[Log]|] == s.disk[Log];
    } else {
      MarksDoNotCount(s.disk[Log], [Mark(m.partial)]);
      CloseBounded(c, s.(disk := Append(s.disk, [Mark(m.partial)])), first, m);
    }
  }

  lemma ReactBounded(c: Config, s: State, first: nat, event: Event)
    requires Sound(s) && Bounded(c, s, first) && c.rotate
    ensures Bounded(c, React(c, s, event), first)
  {
    hide RecordCount, RecordSize, Rotate, Bounded, WriteLine;
    if s.open && !s.stopped {
      match event {
        case Rotation(m) => RotateBounded(c, s, first, m);
        case Closing(m) => StopBounded(c, s, first, m);
        case Write(text, m) =>
          var s1 := s;
          if Due(c, s, m) {
            RotateBounded(c, s, first, m);
            s1 := Rotate(c, s, m);
          }
          if s1.open {
            LineBounded(c, s1, first, text, m);
          }
      }
    }
  }

  lemma StopBounded(c: Config, s: State, first: nat, m: Moment)
    requires Sound(s) && Bounded(c, s, first)
    ensures Bounded(c, Stop(s, m), first)
  {
    CloseBounded(c, s, first, m);
  }

  lemma {:induction false} RunBounded(c: Config, s: State, first: nat, events: seq<Event>)
    requires Sound(s) && Bounded(c, s, first) && c.rotate
    ensures Bounded(c, Play(c, s, events), first)
    decreases |events|
  {
    if events != [] {
      ReactBounded(c, s, first, events[0]);
      RunBounded(c, React(c, s, events[0]), first, events[1..]);
    }
  }

  // NewFileLogWriter on a directory with backups 1 to n.
  function Begin(c: Config, disk: Disk, m: Moment): (s: State)
    ensures Sound(s)
  {
    Rotate(c, State(disk, false, false, 0, 0, 0), m)
  }

  // With rotation on, no file that the writer opened ever holds more than
  // maxlines records. Backup n + 1 is the log file found at the start.
  lemma FilesAreLimited(c: Config, disk: Disk, n: nat, m: Moment, events: seq<Event>)
    requires c.rotate && Numbered(disk, n) && Begin(c, disk, m).open
    ensures var t := Play(c, Begin(c, disk, m), events);
            && (Log in t.disk ==> Limited(c, t.disk[Log]))
            && forall k: nat :: k > n + 1 && Backup(k) in t.disk ==> Limited(c, t.disk[Backup(k)])
  {
    hide RecordCount, RecordSize, Play;
    var s0 := State(disk, false, false, 0, 0, 0);
    var n' := MoveEverything(c, disk, n, m);
    NewFile(m);
    RunBounded(c, Begin(c, disk, m), n + 2, events);
  }

  // The log file was free of records when the writer opened it, so every number
  // after the first backup is its own; before that nothing is lost either.
  lemma BeginKeepsAll(c: Config, disk: Disk, n: nat, m: Moment, events: seq<Event>) returns (n': nat)
    requires Numbered(disk, n)
    ensures n <= n' && Numbered(Play(c, Begin(c, disk, m), events).disk, n')
    ensures Everything(Play(c, Begin(c, disk, m), events).disk, n')
            == Everything(disk, n) + (if Begin(c, disk, m).open then Header(m) else [])
               + Written(c, Begin(c, disk, m), events)
  {
    hide Numbered, Everything, Rotate, Play, Written;
    var s0 := State(disk, false, false, 0, 0, 0);
    var n1 := RotateEverything(c, s0, n, m);
    assert RotateOutput(c, s0, m) == if Begin(c, disk, m).open then Header(m) else [];
    n' := RotationKeepsAll(c, Begin(c, disk, m), n1, events);
  }

  // The writer stops for want of a number only when all 999 are taken, and then
  // the log file keeps what it holds.
  lemma OutOfNumbers(c: Config, s: State, m: Moment, n: nat)
    requires Sound(s) && s.open && c.rotate && Numbered(s.disk, n) && m.renameOk && m.openOk
    ensures Rotate(c, s, m).stopped <==> n >= LAST_NUMBER
    ensures n >= LAST_NUMBER ==> Rotate(c, s, m).disk == Append(s.disk, Trailer(m))
  {
    var s1 := CloseFile(s, m);
    assert forall k: nat :: Backup(k) in s1.disk <==> Backup(k) in s.disk;
    var free := FreeNumber(s1.disk, 1);
    if n >= LAST_NUMBER {
      assert free.None?;
    } else {
      assert Backup(n + 1) !in s1.disk;
    }
  }

  // ----- The writer -----------------------------------------------------------

  class FileLogWriter {
    const config: Config
    var disk: Disk
    var hasFile: bool // the handle is open
    var stopped: bool
    var curlines: nat
    var cursize: nat
    var openDay: int

    ghost function View(): State
      reads this
    {
      State(disk, hasFile, stopped, curlines, cursize, openDay)
    }

    ghost predicate Valid()
      reads this
    {
      Sound(View())
    }

    constructor (config: Config, disk: Disk, m: Moment)
      ensures this.config == config && Valid() && View() == Begin(config, disk, m)
    {
      this.config, this.disk := config, disk;
      hasFile, stopped, curlines, cursize, openDay := false, false, 0, 0, 0;
      new;
      var ok := IntRotate(m);
      stopped := !ok;
    }

    // The loop of intRotate over the numbers.
    method FindNumber() returns (number: Option<nat>)
      ensures number == FreeNumber(disk, 1)
    {
      var num := 1;
      var taken := true;
      while taken && num <= LAST_NUMBER
        invariant 1 <= num <= LAST_NUMBER + 1
        invariant taken ==> FreeNumber(disk, 1) == FreeNumber(disk, num)
        invariant !taken ==> num > 1 && FreeNumber(disk, 1) == Some(num - 1)
        decreases LAST_NUMBER + 1 - num, if taken then 1 else 0
      {
        taken := Backup(num) in disk;
        num := num + 1;
      }
      return if taken then None else Some(num - 1);
    }

    method IntRotate(m: Moment) returns (ok: bool)
      requires Valid() && !stopped
      modifies this
      ensures var t := Rotate(config, old(View()), m);
              View() == t.(stopped := false) && ok == !t.stopped
    {
      hide FreeNumber;
      if hasFile {
        disk := disk[Log := disk[Log] + Trailer(m)];
        hasFile := false;
      }
      if config.rotate {
        if Log in disk {
          var number := FindNumber();
          if number.None? {
            return false;
          }
          if !m.renameOk {
            return false;
          }
          disk := (disk - {Log})[Backup(number.value) := disk[Log]];
        }
      }
      if !m.openOk {
        return false;
      }
      if Log !in disk {
        disk := disk[Log := []];
      }
      hasFile := true;
      disk := disk[Log := disk[Log] + Header(m)];
      openDay := m.day;
      curlines := 0;
      cursize := 0;
      return true;
    }

    // The deferred end of the goroutine.
    method Finish(m: Moment)
      requires Valid()
      modifies this
      ensures View() == Stop(old(View()), m)
    {
      if hasFile {
        disk := disk[Log := disk[Log] + Trailer(m)];
        hasFile := false;
      }
      stopped := true;
    }

    // One round of the goroutine's loop.
    method Round(event: Event)
      requires Valid() && hasFile
      modifies this
      ensures Valid() && View() == React(config, old(View()), event)
    {
      var ok := true;
      match event {
        case Rotation(m) =>
          ok := IntRotate(m);
          if !ok {
            Finish(m);
          }
        case Closing(m) =>
          Finish(m);
        case Write(text, m) =>
          if || (config.maxlines > 0 && curlines >= config.maxlines)
             || (config.maxsize > 0 && cursize >= config.maxsize)
             || (config.daily && m.day != openDay)
          {
            ok := IntRotate(m);
            if !ok {
              Finish(m);
              return;
            }
          }
          if !m.writeOk {
            disk := disk[Log := disk[Log] + [Mark(m.partial)]];
            Finish(m);
            return;
          }
          disk := disk[Log := disk[Log] + [Record(text, m.day)]];
          curlines := curlines + 1;
          cursize := cursize + |text|;
      }
    }
  }
}
