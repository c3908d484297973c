// When the log writer begins a new file, and what the files it leaves look like.
module LogLimits {
  import opened Wrappers
  import opened LogFile

  // As many lines or as many bytes as a file may hold, or more.
  predicate Full(c: Config, file: File) {
    || (c.maxlines > 0 && RecordCount(file) >= c.maxlines)
    || (c.maxsize > 0 && RecordSize(file) >= c.maxsize)
  }

  // The counters are those of the open file, which the writer began.
  predicate Tallied(s: State)
    requires Sound(s)
  {
    s.open ==> s.curlines == RecordCount(s.disk[Log]) && s.cursize == RecordSize(s.disk[Log])
  }

  // All lines are of this day.
  predicate OfDay(file: File, day: int) {
    forall i :: 0 <= i < |file| && file[i].Record? ==> file[i].day == day
  }

  // Each line was written when the file was not full yet, and on the day of the
  // lines before it if daily is on.
  predicate InLimits(c: Config, file: File) {
    forall i :: 0 <= i < |file| && file[i].Record? ==>
      !Full(c, file[..i]) && (c.daily ==> OfDay(file[..i], file[i].day))
  }

  // ----- One rotation ---------------------------------------------------------

  // A rotation that meets no obstacle: the file with its trailer becomes the first
  // free backup, and a new file begins with its header.
  lemma RotationWrites(c: Config, s: State, m: Moment, n: nat)
    requires Sound(s) && s.open && c.rotate && m.renameOk && m.openOk && m.headerOk && m.trailerOk
    requires 1 <= n <= 999 && Backup(n) !in s.disk && forall k :: 1 <= k < n ==> Backup(k) in s.disk
    ensures var t := Rotate(c, s, m);
            && t.open && !t.stopped && t.openDay == m.day && t.curlines == 0 && t.cursize == 0
            && t.disk == s.disk[Backup(n) := s.disk[Log] + [Mark(m.trailer)]][Log := [Mark(m.header)]]
  {
    var s1 := CloseFile(s, m);
    assert FreeNumber(s1.disk, 1) == Some(n);
    var moved := Renamed(s1.disk, n);
    assert Log !in moved;
    assert Rotate(c, s, m).disk == Append(moved[Log := []], Header(m));
    assert [] + Header(m) == [Mark(m.header)];
  }

  // Without rotation the writer goes on in the same file.
  lemma ReopeningWrites(c: Config, s: State, m: Moment)
    requires Sound(s) && s.open && !c.rotate && m.openOk && m.headerOk && m.trailerOk
    ensures var t := Rotate(c, s, m);
            && t.open && !t.stopped && t.openDay == m.day && t.curlines == 0 && t.cursize == 0
            && t.disk == s.disk[Log := s.disk[Log] + [Mark(m.trailer), Mark(m.header)]]
  {
    var s1 := CloseFile(s, m);
    assert (s.disk[Log] + Trailer(m)) + Header(m) == s.disk[Log] + [Mark(m.trailer), Mark(m.header)];
  }

  // A rotation opens a file exactly if nothing fails; otherwise the writer stops and
  // the lines written stay: in the log file, or under the first free number if only
  // the new file could not be opened.
  lemma RotationOpensIff(c: Config, s: State, m: Moment)
    requires Sound(s) && s.open
    ensures var t := Rotate(c, s, m); var free := exists n :: 1 <= n <= 999 && Backup(n) !in s.disk;
            var file := s.disk[Log] + if m.trailerOk then [Mark(m.trailer)] else [];
            && (t.open <==> m.openOk && (c.rotate ==> m.renameOk && free))
            && (!t.open ==> t.stopped)
            && (!t.open && !(c.rotate && m.renameOk && free) ==> t.disk == s.disk[Log := file])
            && (!t.open && c.rotate && m.renameOk ==> forall n ::
                  1 <= n <= 999 && Backup(n) !in s.disk && (forall k :: 1 <= k < n ==> Backup(k) in s.disk) ==>
                    t.disk == (s.disk - {Log})[Backup(n) := file])
  {
    var s1 := CloseFile(s, m);
    assert s1.disk - {Log} == s.disk - {Log};
    assert forall k :: Backup(k) in s1.disk <==> Backup(k) in s.disk;
  }

  // A line joins the open file exactly if that is not full and, with daily on, of
  // the same day; otherwise the writer rotates first.
  lemma JoinsFileIff(c: Config, s: State, text: string, m: Moment)
    requires Sound(s) && s.open && !s.stopped && m.writeOk && Tallied(s)
    ensures var t := React(c, s, Write(text, m)); var r := Rotate(c, s, m); var line := [Record(text, m.day)];
            if !Full(c, s.disk[Log]) && (c.daily ==> m.day == s.openDay) then
              t.disk == s.disk[Log := s.disk[Log] + line]
              && t == s.(disk := t.disk, curlines := s.curlines + 1, cursize := s.cursize + |text|)
            else if r.open then t.disk == r.disk[Log := r.disk[Log] + line] && t.open && t.openDay == r.openDay
            else t == r
  {
    hide RecordCount, RecordSize, Rotate;
  }

  // ----- Runs -----------------------------------------------------------------

  // Every file from backup number first on, and the log file, keeps the limits.
  ghost predicate Kept(c: Config, s: State, first: nat)
    requires Sound(s)
  {
    && (Log in s.disk ==> InLimits(c, s.disk[Log]))
    && (forall k: nat :: k >= first && Backup(k) in s.disk ==> InLimits(c, s.disk[Backup(k)]))
    && (s.open ==>
          && s.curlines == RecordCount(s.disk[Log]) && s.cursize == RecordSize(s.disk[Log])
          && (c.daily ==> OfDay(s.disk[Log], s.openDay)))
  }

  lemma MarksKeep(c: Config, file: File, pieces: seq<Piece>)
    requires InLimits(c, file) && |pieces| <= 1 && (pieces != [] ==> pieces[0].Mark?)
    ensures InLimits(c, file + pieces)
    ensures forall day :: OfDay(file, day) ==> OfDay(file + pieces, day)
  {
    hide Full;
    var longer := file + pieces;
    forall i | 0 <= i < |longer| && longer[i].Record?
      ensures !Full(c, longer[..i]) && (c.daily ==> OfDay(longer[..i], longer[i].day))
    {
      assert longer[..i] == file[..i];
    }
  }

  lemma LineKeeps(c: Config, file: File, line: Piece)
    requires InLimits(c, file) && line.Record? && !Full(c, file) && (c.daily ==> OfDay(file, line.day))
    ensures InLimits(c, file + [line])
    ensures c.daily ==> OfDay(file + [line], line.day)
  {
    hide Full;
    var longer := file + [line];
    forall i | 0 <= i < |longer| && longer[i].Record?
      ensures !Full(c, longer[..i]) && (c.daily ==> OfDay(longer[..i], longer[i].day))
    {
      assert longer[..i] == file[..i];
    }
  }

  lemma CloseKeeps(c: Config, s: State, first: nat, m: Moment)
    requires Sound(s) && Kept(c, s, first)
    ensures Kept(c, CloseFile(s, m), first) && !CloseFile(s, m).open
  {
    hide RecordCount, RecordSize, InLimits, OfDay;
    if s.open {
      MarksKeep(c, s.disk[Log], Trailer(m));
    }
  }

  lemma FreshKeeps(c: Config, m: Moment)
    ensures InLimits(c, [] + Header(m)) && OfDay([] + Header(m), m.day)
    ensures RecordCount([] + Header(m)) == 0 && RecordSize([] + Header(m)) == 0
  {
    MarksKeep(c, [], Header(m));
    NewFile(m);
  }

  lemma RotateKeeps(c: Config, s: State, first: nat, m: Moment)
    requires Sound(s) && Kept(c, s, first) && c.rotate
    ensures Kept(c, Rotate(c, s, m), first)
    ensures Rotate(c, s, m).open ==>
              var t := Rotate(c, s, m);
              && t.disk[Log] == [] + Header(m) && t.openDay == m.day
              && t.curlines == 0 && t.cursize == 0
  {
    hide RecordCount, RecordSize, InLimits, OfDay;
    CloseKeeps(c, s, first, m);
    var s1 := CloseFile(s, m);
    var moved := MoveAway(c, s1.disk, m);
    if moved.Some? && m.openOk {
      assert Log !in moved.value;
      FreshKeeps(c, m);
    }
  }

  lemma WriteKeeps(c: Config, s: State, first: nat, text: string, m: Moment)
    requires Sound(s) && s.open && Kept(c, s, first)
    requires !Full(c, s.disk[Log]) && (c.daily ==> m.day == s.openDay)
    ensures Kept(c, WriteLine(s, text, m), first)
  {
    hide InLimits, OfDay, Full;
    var file := s.disk[Log];
    if m.writeOk {
      LineKeeps(c, file, Record(text, m.day));
      assert (file + [Record(text, m.day)])[..|file|] == file;
    } else {
      hide RecordCount, RecordSize;
      MarksKeep(c, file, [Mark(m.partial)]);
      MarksDoNotCount(file, [Mark(m.partial)]);
      CloseKeeps(c, s.(disk := Append(s.disk, [Mark(m.partial)])), first, m);
    }
  }

  lemma FreshIsNotFull(c: Config, m: Moment)
    ensures !Full(c, [] + Header(m))
  {
    hide RecordCount, RecordSize;
    FreshKeeps(c, m);
  }

  lemma ReactKeeps(c: Config, s: State, first: nat, event: Event)
    requires Sound(s) && Kept(c, s, first) && c.rotate
    ensures Kept(c, React(c, s, event), first)
  {
    hide RecordCount, RecordSize, InLimits, OfDay, Rotate, WriteLine;
    if s.open && !s.stopped {
      match event {
        case Rotation(m) => RotateKeeps(c, s, first, m);
        case Closing(m) => CloseKeeps(c, s, first, m);
        case Write(text, m) =>
          if Due(c, s, m) {
            RotateKeeps(c, s, first, m);
            FreshIsNotFull(c, m);
            if Rotate(c, s, m).open {
              WriteKeeps(c, Rotate(c, s, m), first, text, m);
            }
          } else {
            WriteKeeps(c, s, first, text, m);
          }
      }
    }
  }

  lemma {:induction false} RunKeeps(c: Config, s: State, first: nat, events: seq<Event>)
    requires Sound(s) && Kept(c, s, first) && c.rotate
    ensures Kept(c, Play(c, s, events), first)
    decreases |events|
  {
    hide Kept, React;
    if events != [] {
      ReactKeeps(c, s, first, events[0]);
      RunKeeps(c, React(c, s, events[0]), first, events[1..]);
    }
  }

  // With rotation on, in every file that the writer began each line was written
  // before the file was full, and with daily on all lines are of one day. Backup
  // n + 1 is the log file found at the start.
  lemma FilesKeepLimits(c: Config, disk: Disk, n: nat, m: Moment, events: seq<Event>)
    requires c.rotate && Numbered(disk, n) && Begin(c, disk, m).open
    ensures var t := Play(c, Begin(c, disk, m), events);
            && (Log in t.disk ==> InLimits(c, t.disk[Log]))
            && forall k: nat :: k > n + 1 && Backup(k) in t.disk ==> InLimits(c, t.disk[Backup(k)])
  {
    hide RecordCount, RecordSize, Play, InLimits, OfDay;
    var n' := MoveEverything(c, disk, n, m);
    FreshKeeps(c, m);
    RunKeeps(c, Begin(c, disk, m), n + 2, events);
  }
}
