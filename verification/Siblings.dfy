// Several senders at work on queue entries of one message: their scans, writes
// and reads of the shared buffer interleave, each access to a byte on its own.
module Siblings {
  import opened Text
  import opened Headers
  import opened Body
  import opened SharedBuffer

  // One signer between two accesses to the buffer: the backward loop of
  // canonicalBody, which reads the byte before i once for each of its three
  // comparisons, the two bytes of append, the digest's pass over the result (over
  // a copy without capacity), and the copy of the body into the mail.
  datatype Signer =
    | ScanCr(i: nat)
    | ScanLf(i: nat)
    | ScanSp(i: nat)
    | PutCr(k: nat)
    | PutLf(k: nat)
    | Digest(k: nat, read: string)
    | DigestCopy(k: nat, read: string)
    | Emit(hashed: string, read: string)
    | Done(hashed: string, emitted: string)

  // len visible bytes in a buffer of cap bytes.
  predicate Fits(t: Signer, len: nat, cap: nat) {
    match t
    case ScanCr(i) => i <= len
    case ScanLf(i) => 1 <= i <= len
    case ScanSp(i) => 1 <= i <= len
    case PutCr(k) => k <= len && k + 2 <= cap
    case PutLf(k) => k <= len && k + 2 <= cap
    case Digest(k, read) => k <= len && k + 2 <= cap && |read| <= k + 2
    case DigestCopy(k, read) => k <= len && |read| <= k
    case Emit(_, read) => |read| <= len
    case Done(_, _) => true
  }

  function First(len: nat): Signer {
    if len == 0 then Emit(CRLF, "") else ScanCr(len)
  }

  // append: in place if the capacity allows it.
  function Appends(k: nat, cap: nat): Signer {
    if k + 2 <= cap then PutCr(k) else DigestCopy(k, "")
  }

  // One access: the buffer and the signer after it.
  function Access(mem: string, len: nat, t: Signer): (r: (string, Signer))
    requires len <= |mem| && Fits(t, len, |mem|)
    ensures |r.0| == |mem| && Fits(r.1, len, |mem|)
  {
    match t
    case ScanCr(i) =>
      (mem, if i == 0 then Appends(len, |mem|) else if mem[i - 1] == '\r' then ScanCr(i - 1) else ScanLf(i))
    case ScanLf(i) => (mem, if mem[i - 1] == '\n' then ScanCr(i - 1) else ScanSp(i))
    case ScanSp(i) => (mem, if mem[i - 1] == ' ' then ScanCr(i - 1) else Appends(i, |mem|))
    case PutCr(k) => (mem[k := '\r'], PutLf(k))
    case PutLf(k) => (mem[k + 1 := '\n'], Digest(k, ""))
    case Digest(k, read) =>
      (mem, if |read| < k + 2 then Digest(k, read + [mem[|read|]]) else Emit(read, ""))
    case DigestCopy(k, read) =>
      (mem, if |read| < k then DigestCopy(k, read + [mem[|read|]]) else Emit(read + CRLF, ""))
    case Emit(hashed, read) =>
      (mem, if |read| < len then Emit(hashed, read + [mem[|read|]]) else Done(hashed, read))
    case Done(_, _) => (mem, t)
  }

  datatype Shared = Shared(mem: string, signers: seq<Signer>)

  predicate AllFit(w: Shared, len: nat) {
    len <= |w.mem| && forall j :: 0 <= j < |w.signers| ==> Fits(w.signers[j], len, |w.mem|)
  }

  function Turn(w: Shared, len: nat, j: nat): (r: Shared)
    requires AllFit(w, len)
    ensures AllFit(r, len) && |r.signers| == |w.signers|
  {
    if j >= |w.signers| then w
    else
      var (mem, t) := Access(w.mem, len, w.signers[j]);
      Shared(mem, w.signers[j := t])
  }

  // The order in which the signers come to act.
  function Run(w: Shared, len: nat, schedule: seq<nat>): (r: Shared)
    requires AllFit(w, len)
    ensures AllFit(r, len) && |r.signers| == |w.signers|
    decreases |schedule|
  {
    if schedule == [] then w else Run(Turn(w, len, schedule[0]), len, schedule[1..])
  }

  // n signers about to work on the visible bytes v, with the capacity behind them.
  function Begin(v: string, beyond: string, n: nat): (w: Shared)
    ensures AllFit(w, |v|) && |w.signers| == n
  {
    Shared(v + beyond, seq(n, _ => First(|v|)))
  }

  // ----- What no run can damage -----------------------------------------------

  predicate Starts(s: string, v: string, k: nat)
    requires k <= |v|
  {
    if |s| <= k then s <= v else s[..k] == v[..k]
  }

  // No signer ever cuts before the last byte outside CR, LF and space.
  ghost predicate CutsBehind(t: Signer, v: string) {
    var k := Keep(v);
    match t
    case ScanCr(i) => i <= |v| && (Core(v) != "" ==> k <= i)
    case ScanLf(i) => 1 <= i <= |v| && if Core(v) != "" then k <= i else v[i - 1] != '\r'
    case ScanSp(i) => 1 <= i <= |v| && if Core(v) != "" then k <= i else v[i - 1] !in {'\r', '\n'}
    case PutCr(at) => k <= at
    case PutLf(at) => k <= at
    case Digest(at, read) => k <= at && Starts(read, v, k)
    case DigestCopy(at, read) => k <= at && Starts(read, v, k)
    case Emit(hashed, read) => |hashed| >= k && Starts(hashed, v, k) && Starts(read, v, k)
    case Done(hashed, emitted) => |hashed| >= k && Starts(hashed, v, k) && |emitted| == |v| && Starts(emitted, v, k)
  }

  lemma StartsLonger(read: string, mem: string, v: string, k: nat)
    requires k <= |v| <= |mem| && Starts(read, v, k) && Starts(mem, v, k) && |read| < |mem|
    ensures Starts(read + [mem[|read|]], v, k)
  {
    assert |read| < k ==> mem[..k][|read|] == v[..k][|read|];
  }

  lemma StartsKept(s: string, more: string, v: string, k: nat)
    requires k <= |v| && Starts(s, v, k) && |s| >= k
    ensures Starts(s + more, v, k)
  {
    assert s == v[..k] + s[k..];
    assert (s + more)[..k] == s[..k];
  }

  lemma ScanCutsBehind(mem: string, v: string, t: Signer)
    requires |v| <= |mem| && Starts(mem, v, Keep(v)) && CutsBehind(t, v) && (t.ScanCr? || t.ScanLf? || t.ScanSp?)
    ensures CutsBehind(Access(mem, |v|, t).1, v)
  {
    TrimRightParts(v, TRAILING);
    assert forall i :: 0 <= i < Keep(v) ==> mem[i] == mem[..Keep(v)][i] == v[i];
  }

  lemma PutCutsBehind(mem: string, v: string, t: Signer)
    requires |v| <= |mem| && Starts(mem, v, Keep(v)) && Fits(t, |v|, |mem|) && CutsBehind(t, v)
    requires t.PutCr? || t.PutLf?
    ensures var (mem', t') := Access(mem, |v|, t);
            Starts(mem', v, Keep(v)) && CutsBehind(t', v)
  {
    hide Keep;
    var k, mem' := Keep(v), Access(mem, |v|, t).0;
    assert mem'[..k] == mem[..k];
  }

  lemma ReadCutsBehind(mem: string, v: string, t: Signer)
    requires |v| <= |mem| && Starts(mem, v, Keep(v)) && Fits(t, |v|, |mem|) && CutsBehind(t, v)
    requires t.Digest? || t.DigestCopy? || t.Emit?
    ensures CutsBehind(Access(mem, |v|, t).1, v)
  {
    hide Keep, Starts;
    var k := Keep(v);
    if |t.read| < |mem| {
      StartsLonger(t.read, mem, v, k);
    }
    if |t.read| >= k {
      StartsKept(t.read, CRLF, v, k);
    }
    StartsNothing(v, k);
  }

  lemma StartsNothing(v: string, k: nat)
    requires k <= |v|
    ensures Starts("", v, k)
  {
  }

  lemma AccessCutsBehind(mem: string, v: string, t: Signer)
    requires |v| <= |mem| && Starts(mem, v, Keep(v)) && Fits(t, |v|, |mem|) && CutsBehind(t, v)
    ensures var (mem', t') := Access(mem, |v|, t);
            Starts(mem', v, Keep(v)) && CutsBehind(t', v)
  {
    hide Keep, Starts, CutsBehind;
    match t
    case ScanCr(_) => ScanCutsBehind(mem, v, t);
    case ScanLf(_) => ScanCutsBehind(mem, v, t);
    case ScanSp(_) => ScanCutsBehind(mem, v, t);
    case PutCr(_) => PutCutsBehind(mem, v, t);
    case PutLf(_) => PutCutsBehind(mem, v, t);
    case Digest(_, _) => ReadCutsBehind(mem, v, t);
    case DigestCopy(_, _) => ReadCutsBehind(mem, v, t);
    case Emit(_, _) => ReadCutsBehind(mem, v, t);
    case Done(_, _) =>
  }

  lemma {:induction false} RunCutsBehind(w: Shared, v: string, schedule: seq<nat>)
    requires AllFit(w, |v|) && Starts(w.mem, v, Keep(v))
    requires forall j :: 0 <= j < |w.signers| ==> CutsBehind(w.signers[j], v)
    ensures var r := Run(w, |v|, schedule);
            Starts(r.mem, v, Keep(v)) && forall j :: 0 <= j < |r.signers| ==> CutsBehind(r.signers[j], v)
    decreases |schedule|
  {
    hide Starts, CutsBehind, Access, Keep;
    if schedule != [] {
      if schedule[0] < |w.signers| {
        AccessCutsBehind(w.mem, v, w.signers[schedule[0]]);
      }
      RunCutsBehind(Turn(w, |v|, schedule[0]), v, schedule[1..]);
    }
  }

  // In every run the bytes up to the last one outside CR, LF and space come
  // through: in the buffer, in what is hashed and in what is sent.
  lemma VisibleBytesSurvive(v: string, beyond: string, n: nat, schedule: seq<nat>)
    ensures var w := Run(Begin(v, beyond, n), |v|, schedule); var k := Keep(v);
      && w.mem[..k] == v[..k]
      && forall j :: 0 <= j < n && w.signers[j].Done? ==>
           var Done(hashed, emitted) := w.signers[j];
           |hashed| >= k && hashed[..k] == v[..k] && |emitted| == |v| && emitted[..k] == v[..k]
  {
    var b := Begin(v, beyond, n);
    forall j | 0 <= j < n
      ensures CutsBehind(b.signers[j], v)
    {
      assert b.signers[j] == First(|v|);
    }
    hide Run, Access;
    RunCutsBehind(b, v, schedule);
    var w := Run(b, |v|, schedule);
    forall j | 0 <= j < n && w.signers[j].Done?
      ensures var Done(hashed, emitted) := w.signers[j]; var k := Keep(v);
              |hashed| >= k && hashed[..k] == v[..k] && |emitted| == |v| && emitted[..k] == v[..k]
    {
      assert CutsBehind(w.signers[j], v);
    }
  }

  // ----- Runs in which all agree ----------------------------------------------

  // Bodies whose last line break is written over bytes that the loop skips in
  // either form at the same comparison, or not at all.
  predicate RaceFree(v: string, cap: nat) {
    var k := Keep(v);
    var tail := v[k..];
    || Core(v) == "" || k + 2 > cap || tail == ""
    || (tail[0] == '\r' && (|tail| < 2 || tail[1] != ' '))
  }

  // The only bytes that ever differ from the original are the two of the line
  // break, and only by being that line break.
  ghost predicate Touched(mem: string, v: string, beyond: string) {
    && |mem| == |v + beyond|
    && forall i :: 0 <= i < |mem| ==>
         || mem[i] == (v + beyond)[i]
         || (Keep(v) + 2 <= |mem| && i == Keep(v) && mem[i] == '\r')
         || (Keep(v) + 2 <= |mem| && i == Keep(v) + 1 && mem[i] == '\n')
  }

  predicate BreakWritten(mem: string, k: nat) {
    k + 2 <= |mem| && mem[k] == '\r' && mem[k + 1] == '\n'
  }

  // What a signer knows, whatever the others did meanwhile.
  ghost predicate OnCourse(t: Signer, mem: string, v: string) {
    var k := Keep(v);
    match t
    case ScanCr(i) => v != "" && i <= |v| && (Core(v) != "" ==> k <= i)
    case ScanLf(i) => v != "" && 1 <= i <= |v| && (Core(v) != "" ==> k <= i) && |v| <= |mem| && mem[i - 1] != '\r'
    case ScanSp(i) =>
      && v != "" && 1 <= i <= |v| && (Core(v) != "" ==> k <= i)
      && |v| <= |mem| && mem[i - 1] !in {'\r', '\n'}
    case PutCr(at) => v != "" && at == k && k + 2 <= |mem|
    case PutLf(at) => v != "" && at == k && k + 2 <= |mem| && mem[k] == '\r'
    case Digest(at, read) => v != "" && at == k && BreakWritten(mem, k) && read <= SimpleBody(v)
    case DigestCopy(at, read) => v != "" && at == k && k + 2 > |mem| && read <= v[..k]
    case Emit(hashed, read) =>
      && hashed == SimpleBody(v) && |v| <= |mem| && read <= AfterSimple(v, |mem| - |v|)
      && (v != "" && k + 2 <= |mem| ==> BreakWritten(mem, k))
    case Done(hashed, emitted) =>
      && hashed == SimpleBody(v) && |v| <= |mem| && emitted == AfterSimple(v, |mem| - |v|)
      && (v != "" && k + 2 <= |mem| ==> BreakWritten(mem, k))
  }

  ghost predicate AllOnCourse(w: Shared, v: string, beyond: string) {
    && Touched(w.mem, v, beyond)
    && forall j :: 0 <= j < |w.signers| ==> OnCourse(w.signers[j], w.mem, v)
  }

  // The byte before the cut is never one that is skipped, those behind it always are.
  lemma ScanSees(mem: string, v: string, beyond: string, i: nat)
    requires Touched(mem, v, beyond) && v != "" && 0 < i <= |v| && (Core(v) != "" ==> Keep(v) <= i)
    ensures mem[i - 1] !in TRAILING <==> Core(v) != "" && i == Keep(v)
  {
    TrimRightParts(v, TRAILING);
    assert mem[i - 1] == v[i - 1] || mem[i - 1] in TRAILING;
    if Core(v) == "" {
      assert v[i - 1] in TRAILING;
    } else if i > Keep(v) {
      assert v == v[..Keep(v)] + v[Keep(v)..];
      assert v[Keep(v)..][i - 1 - Keep(v)] == v[i - 1];
    }
  }

  lemma AllWritten(mem: string, v: string, beyond: string)
    requires Touched(mem, v, beyond) && (v != "" && Keep(v) + 2 <= |mem| ==> BreakWritten(mem, Keep(v)))
    ensures mem[..|v|] == AfterSimple(v, |beyond|)
  {
  }

  lemma ScanOnCourse(mem: string, v: string, beyond: string, t: Signer)
    requires Touched(mem, v, beyond) && OnCourse(t, mem, v) && (t.ScanCr? || t.ScanLf? || t.ScanSp?)
    ensures OnCourse(Access(mem, |v|, t).1, mem, v)
  {
    if t.i == 0 {
      assert Core(v) == "";
    } else {
      ScanSees(mem, v, beyond, t.i);
    }
  }

  lemma PutOnCourse(mem: string, v: string, beyond: string, t: Signer)
    requires Touched(mem, v, beyond) && Fits(t, |v|, |mem|) && OnCourse(t, mem, v) && (t.PutCr? || t.PutLf?)
    ensures var (mem', t') := Access(mem, |v|, t);
            Touched(mem', v, beyond) && OnCourse(t', mem', v)
  {
  }

  lemma DigestOnCourse(mem: string, v: string, beyond: string, t: Signer)
    requires Touched(mem, v, beyond) && Fits(t, |v|, |mem|) && OnCourse(t, mem, v) && (t.Digest? || t.DigestCopy?)
    ensures OnCourse(Access(mem, |v|, t).1, mem, v)
  {
  }

  lemma EmitOnCourse(mem: string, v: string, beyond: string, t: Signer)
    requires Touched(mem, v, beyond) && Fits(t, |v|, |mem|) && OnCourse(t, mem, v) && t.Emit?
    ensures OnCourse(Access(mem, |v|, t).1, mem, v)
  {
    AllWritten(mem, v, beyond);
    assert |t.read| < |v| ==> mem[..|v|][|t.read|] == mem[|t.read|];
  }

  // A signer's own access keeps it on course.
  lemma OwnAccess(mem: string, v: string, beyond: string, t: Signer)
    requires Touched(mem, v, beyond) && Fits(t, |v|, |mem|) && OnCourse(t, mem, v)
    ensures var (mem', t') := Access(mem, |v|, t);
            Touched(mem', v, beyond) && OnCourse(t', mem', v)
  {
    hide Touched, OnCourse, Keep;
    match t
    case ScanCr(_) => ScanOnCourse(mem, v, beyond, t);
    case ScanLf(_) => ScanOnCourse(mem, v, beyond, t);
    case ScanSp(_) => ScanOnCourse(mem, v, beyond, t);
    case PutCr(_) => PutOnCourse(mem, v, beyond, t);
    case PutLf(_) => PutOnCourse(mem, v, beyond, t);
    case Digest(_, _) => DigestOnCourse(mem, v, beyond, t);
    case DigestCopy(_, _) => DigestOnCourse(mem, v, beyond, t);
    case Emit(_, _) => EmitOnCourse(mem, v, beyond, t);
    case Done(_, _) =>
  }

  // In a race-free buffer it takes no other signer off its course.
  lemma OtherAccess(mem: string, v: string, beyond: string, t: Signer, other: Signer)
    requires RaceFree(v, |mem|)
    requires Touched(mem, v, beyond) && Fits(t, |v|, |mem|) && OnCourse(t, mem, v) && OnCourse(other, mem, v)
    ensures OnCourse(other, Access(mem, |v|, t).0, v)
  {
    TrimRightParts(v, TRAILING);
  }

  lemma TurnOnCourse(w: Shared, v: string, beyond: string, j: nat)
    requires |w.signers| <= 1 || RaceFree(v, |w.mem|)
    requires AllFit(w, |v|) && AllOnCourse(w, v, beyond)
    ensures AllOnCourse(Turn(w, |v|, j), v, beyond)
  {
    hide Touched, OnCourse, Access, RaceFree;
    if j < |w.signers| {
      var t := w.signers[j];
      OwnAccess(w.mem, v, beyond, t);
      forall i | 0 <= i < |w.signers| && i != j
        ensures OnCourse(w.signers[i], Access(w.mem, |v|, t).0, v)
      {
        OtherAccess(w.mem, v, beyond, t, w.signers[i]);
      }
    }
  }

  lemma {:induction false} RunOnCourse(w: Shared, v: string, beyond: string, schedule: seq<nat>)
    requires |w.signers| <= 1 || RaceFree(v, |w.mem|)
    requires AllFit(w, |v|) && AllOnCourse(w, v, beyond)
    ensures AllOnCourse(Run(w, |v|, schedule), v, beyond)
    decreases |schedule|
  {
    hide AllOnCourse, Access, AllFit, RaceFree;
    if schedule != [] {
      TurnOnCourse(w, v, beyond, schedule[0]);
      RunOnCourse(Turn(w, |v|, schedule[0]), v, beyond, schedule[1..]);
    }
  }

  lemma BeginOnCourse(v: string, beyond: string, n: nat)
    ensures AllOnCourse(Begin(v, beyond, n), v, beyond)
  {
    var w := Begin(v, beyond, n);
    forall j | 0 <= j < n
      ensures OnCourse(w.signers[j], w.mem, v)
    {
      assert w.signers[j] == First(|v|);
    }
  }

  // ----- Every signer comes to its end ----------------------------------------

  // The number of accesses a signer still needs, at most.
  function Left(t: Signer, len: nat): int {
    match t
    case ScanCr(i) => 3 * i + 2 * len + 7
    case ScanLf(i) => 3 * i + 2 * len + 6
    case ScanSp(i) => 3 * i + 2 * len + 5
    case PutCr(_) => 2 * len + 6
    case PutLf(_) => 2 * len + 5
    case Digest(k, read) => k + 2 - |read| + len + 2
    case DigestCopy(k, read) => k - |read| + len + 2
    case Emit(_, read) => len - |read| + 1
    case Done(_, _) => 0
  }

  lemma LeftFalls(mem: string, len: nat, t: Signer)
    requires len <= |mem| && Fits(t, len, |mem|)
    ensures Left(t, len) >= 0 && (Left(t, len) == 0 <==> t.Done?)
    ensures Left(Access(mem, len, t).1, len) <= if t.Done? then 0 else Left(t, len) - 1
  {
  }

  lemma {:induction false} EnoughTurns(w: Shared, len: nat, schedule: seq<nat>, j: nat)
    requires AllFit(w, len) && j < |w.signers| && Left(w.signers[j], len) <= multiset(schedule)[j]
    ensures Run(w, len, schedule).signers[j].Done?
    decreases |schedule|
  {
    hide Access, Fits, Left;
    LeftFalls(w.mem, len, w.signers[j]);
    if schedule != [] {
      assert schedule == [schedule[0]] + schedule[1..];
      var next := Turn(w, len, schedule[0]);
      EnoughTurns(next, len, schedule[1..], j);
    }
  }

  // Every signer is done after at most 5 * |v| + 7 accesses of its own, whatever
  // the others do.
  lemma EverySignerEnds(v: string, beyond: string, n: nat, schedule: seq<nat>, j: nat)
    requires j < n && multiset(schedule)[j] >= 5 * |v| + 7
    ensures Run(Begin(v, beyond, n), |v|, schedule).signers[j].Done?
  {
    var b := Begin(v, beyond, n);
    assert b.signers[j] == First(|v|);
    EnoughTurns(b, |v|, schedule, j);
  }

  // Without a race, n senders of one message, however their accesses interleave,
  // hash and send what a sender alone would.
  lemma EverySignerAgrees(v: string, beyond: string, n: nat, schedule: seq<nat>)
    requires n <= 1 || RaceFree(v, |v + beyond|)
    ensures var w := Run(Begin(v, beyond, n), |v|, schedule);
      forall j :: 0 <= j < n && w.signers[j].Done? ==>
        w.signers[j] == Done(SimpleBody(v), AfterSimple(v, |beyond|)) && w.mem[..|v|] == AfterSimple(v, |beyond|)
  {
    hide Run, Turn, Fits, RaceFree;
    var b := Begin(v, beyond, n);
    BeginOnCourse(v, beyond, n);
    RunOnCourse(b, v, beyond, schedule);
    var w := Run(b, |v|, schedule);
    forall j | 0 <= j < n && w.signers[j].Done?
      ensures w.signers[j] == Done(SimpleBody(v), AfterSimple(v, |beyond|))
      ensures w.mem[..|v|] == AfterSimple(v, |beyond|)
    {
      assert OnCourse(w.signers[j], w.mem, v);
      AllWritten(w.mem, v, beyond);
    }
  }
}
