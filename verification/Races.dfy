// Where two senders of one message can disturb each other: the loop condition of
// canonicalBody reads a byte up to three times, and a line break written between
// two of the reads makes it stop at a byte it should have skipped.
module Races {
  import opened Text
  import opened Headers
  import opened Body
  import opened SharedBuffer
  import opened Siblings

  // Every signer that ends has hashed and sent what a signer alone would.
  ghost predicate AllAgree(v: string, beyond: string, n: nat) {
    forall schedule: seq<nat>, j: nat :: j < n && Run(Begin(v, beyond, n), |v|, schedule).signers[j].Done? ==>
      Run(Begin(v, beyond, n), |v|, schedule).signers[j] == Done(SimpleBody(v), AfterSimple(v, |beyond|))
  }

  // ----- Schedules ------------------------------------------------------------

  lemma {:induction false} RunAppend(w: Shared, len: nat, a: seq<nat>, b: seq<nat>)
    requires AllFit(w, len)
    ensures Run(w, len, a + b) == Run(Run(w, len, a), len, b)
    decreases |a|
  {
    if a == [] {
      assert a + b == b;
    } else {
      RunAppend(Turn(w, len, a[0]), len, a[1..], b);
      assert (a + b)[1..] == a[1..] + b;
    }
  }

  lemma ThenTurn(w: Shared, len: nat, a: seq<nat>, j: nat)
    requires AllFit(w, len)
    ensures Run(w, len, a + [j]) == Turn(Run(w, len, a), len, j)
  {
    RunAppend(w, len, a, [j]);
    assert [j][1..] == [];
  }

  // A world with signer j elsewhere.
  function With(w: Shared, j: nat, t: Signer): Shared
    requires j < |w.signers|
  {
    w.(signers := w.signers[j := t])
  }

  // The loop passes one byte that it skips.
  lemma PassOne(w: Shared, len: nat, j: nat, i: nat) returns (s: seq<nat>)
    requires AllFit(w, len) && j < |w.signers| && w.signers[j] == ScanCr(i)
    requires 1 <= i <= len && w.mem[i - 1] in TRAILING
    ensures Run(w, len, s) == With(w, j, ScanCr(i - 1))
  {
    ThenTurn(w, len, [], j);
    s := [j];
    assert [] + [j] == s;
    if w.mem[i - 1] != '\r' {
      ThenTurn(w, len, s, j);
      s := s + [j];
      if w.mem[i - 1] != '\n' {
        ThenTurn(w, len, s, j);
        s := s + [j];
      }
    }
  }

  lemma {:induction false} PassDown(w: Shared, len: nat, j: nat, i: nat, target: nat) returns (s: seq<nat>)
    requires AllFit(w, len) && j < |w.signers| && w.signers[j] == ScanCr(i)
    requires target <= i <= len && forall p :: target <= p < i ==> w.mem[p] in TRAILING
    ensures Run(w, len, s) == With(w, j, ScanCr(target))
    decreases i
  {
    if i == target {
      s := [];
      assert With(w, j, ScanCr(target)) == w;
    } else {
      var first := PassOne(w, len, j, i);
      var next := With(w, j, ScanCr(i - 1));
      var rest := PassDown(next, len, j, i - 1, target);
      RunAppend(w, len, first, rest);
      s := first + rest;
      assert With(next, j, ScanCr(target)) == With(w, j, ScanCr(target));
    }
  }

  // And reads a byte once or twice.
  lemma FirstReads(w: Shared, len: nat, j: nat, i: nat, m: nat) returns (s: seq<nat>)
    requires AllFit(w, len) && j < |w.signers| && w.signers[j] == ScanCr(i) && 1 <= i <= len && 1 <= m <= 2
    requires w.mem[i - 1] != '\r' && (m == 2 ==> w.mem[i - 1] != '\n')
    ensures Run(w, len, s) == With(w, j, if m == 1 then ScanLf(i) else ScanSp(i))
  {
    ThenTurn(w, len, [], j);
    s := [j];
    assert [] + [j] == s;
    if m == 2 {
      ThenTurn(w, len, s, j);
      s := s + [j];
    }
  }

  // And stops at one that it does not skip.
  lemma StopAt(w: Shared, len: nat, j: nat, i: nat) returns (s: seq<nat>)
    requires AllFit(w, len) && j < |w.signers| && w.signers[j] == ScanCr(i)
    requires 1 <= i <= len && w.mem[i - 1] !in TRAILING
    ensures Run(w, len, s) == With(w, j, Appends(i, |w.mem|))
  {
    hide Run, Appends;
    s := FirstReads(w, len, j, i, 2);
    ThenTurn(w, len, s, j);
    s := s + [j];
  }

  // A signer about to append works out its cut from the original bytes.
  lemma DownToAppend(w: Shared, v: string, j: nat) returns (s: seq<nat>)
    requires AllFit(w, |v|) && j < |w.signers| && w.signers[j] == ScanCr(|v|)
    requires w.mem[..|v|] == v && Core(v) != ""
    ensures Run(w, |v|, s) == With(w, j, Appends(Keep(v), |w.mem|))
  {
    var k := Keep(v);
    TrimRightParts(v, TRAILING);
    assert forall p :: 0 <= p < |v| ==> w.mem[p] == v[p];
    var down := PassDown(w, |v|, j, |v|, k);
    var at := With(w, j, ScanCr(k));
    var stop := StopAt(at, |v|, j, k);
    RunAppend(w, |v|, down, stop);
    s := down + stop;
    assert With(at, j, Appends(k, |w.mem|)) == With(w, j, Appends(k, |w.mem|));
  }

  // ----- From the cut to the end, undisturbed ---------------------------------

  // Signer t has cut behind the bytes kept, and mem is what it has made of them.
  ghost predicate Alone(t: Signer, mem: string, kept: string) {
    var c := |kept|;
    && c <= |mem| && mem[..c] == kept
    && match t
       case PutCr(k) => k == c && c + 2 <= |mem|
       case PutLf(k) => k == c && c + 2 <= |mem| && mem[c] == '\r'
       case Digest(k, read) => k == c && BreakWritten(mem, c) && read <= kept + CRLF
       case DigestCopy(k, read) => k == c && read <= kept
       case Emit(hashed, _) => hashed == kept + CRLF
       case Done(hashed, _) => hashed == kept + CRLF
       case _ => false
  }

  lemma AloneAccess(mem: string, len: nat, t: Signer, kept: string)
    requires len <= |mem| && Fits(t, len, |mem|) && Alone(t, mem, kept)
    ensures Alone(Access(mem, len, t).1, Access(mem, len, t).0, kept)
  {
  }

  lemma {:induction false} AloneRun(w: Shared, len: nat, j: nat, m: nat, kept: string)
    requires AllFit(w, len) && j < |w.signers| && Alone(w.signers[j], w.mem, kept)
    ensures var r := Run(w, len, seq(m, _ => j)); Alone(r.signers[j], r.mem, kept)
    decreases m
  {
    hide Alone, Access, Fits;
    if m > 0 {
      var s := seq(m, _ => j);
      AloneAccess(w.mem, len, w.signers[j], kept);
      assert s[1..] == seq(m - 1, _ => j);
      AloneRun(Turn(w, len, j), len, j, m - 1, kept);
    }
  }

  lemma {:induction false} Repetitions(j: nat, m: nat)
    ensures multiset(seq(m, _ => j))[j] == m
    decreases m
  {
    if m > 0 {
      Repetitions(j, m - 1);
      assert seq(m, _ => j) == [j] + seq(m - 1, _ => j);
    }
  }

  lemma AloneToEnd(w: Shared, len: nat, j: nat, kept: string) returns (s: seq<nat>)
    requires AllFit(w, len) && j < |w.signers| && Alone(w.signers[j], w.mem, kept)
    ensures var t := Run(w, len, s).signers[j]; t.Done? && t.hashed == kept + CRLF
  {
    hide Access, Fits, Run;
    LeftFalls(w.mem, len, w.signers[j]);
    var m := Left(w.signers[j], len);
    s := seq(m, _ => j);
    AloneRun(w, len, j, m, kept);
    Repetitions(j, m);
    EnoughTurns(w, len, s, j);
  }

  // ----- The two races --------------------------------------------------------

  // Signer 0 works out its cut and writes CR there.
  lemma WritesCr(w: Shared, v: string) returns (s: seq<nat>)
    requires AllFit(w, |v|) && |w.signers| >= 1 && w.signers[0] == ScanCr(|v|)
    requires w.mem[..|v|] == v && Core(v) != "" && Keep(v) + 2 <= |w.mem|
    ensures Run(w, |v|, s) == With(w, 0, PutLf(Keep(v))).(mem := w.mem[Keep(v) := '\r'])
  {
    hide Keep, Run, Core;
    var down := DownToAppend(w, v, 0);
    ThenTurn(w, |v|, down, 0);
    s := down + [0];
  }

  // And LF behind it.
  lemma WritesBreak(w: Shared, v: string) returns (s: seq<nat>)
    requires AllFit(w, |v|) && |w.signers| >= 1 && w.signers[0] == ScanCr(|v|)
    requires w.mem[..|v|] == v && Core(v) != "" && Keep(v) + 2 <= |w.mem|
    ensures Run(w, |v|, s)
            == With(w, 0, Digest(Keep(v), "")).(mem := w.mem[Keep(v) := '\r'][Keep(v) + 1 := '\n'])
  {
    hide Keep, Run, Core;
    var cr := WritesCr(w, v);
    ThenTurn(w, |v|, cr, 0);
    s := cr + [0];
  }

  // Signer 1 has come down to the byte before i, and has read it m times.
  lemma ReadsByte(v: string, beyond: string, n: nat, i: nat, m: nat) returns (s: seq<nat>)
    requires n >= 2 && Core(v) != "" && Keep(v) < i <= |v| && 1 <= m <= 2
    requires v[i - 1] != '\r' && (m == 2 ==> v[i - 1] != '\n')
    ensures var w := Begin(v, beyond, n);
            && w.signers[0] == ScanCr(|v|) && w.mem[..|v|] == v
            && Run(w, |v|, s) == With(w, 1, if m == 1 then ScanLf(i) else ScanSp(i))
  {
    hide Run;
    var w := Begin(v, beyond, n);
    TrimRightParts(v, TRAILING);
    assert forall p :: 0 <= p < |v| ==> w.mem[p] == v[p];
    var down := PassDown(w, |v|, 1, |v|, i);
    var at := With(w, 1, ScanCr(i));
    var seen := FirstReads(at, |v|, 1, i, m);
    RunAppend(w, |v|, down, seen);
    s := down + seen;
  }

  // Signer 0 has cut and written CR while signer 1 was between its reads of the
  // byte at the cut: signer 1 takes the byte for a visible one.
  lemma RaceAtCr(v: string, beyond: string, n: nat) returns (s: seq<nat>)
    requires n >= 2 && Core(v) != "" && Keep(v) + 2 <= |v + beyond|
    requires Keep(v) < |v| && v[Keep(v)] != '\r'
    ensures var w := Run(Begin(v, beyond, n), |v|, s); var c := Keep(v) + 1;
            && w.signers[1] == Appends(c, |w.mem|) && |w.mem| == |v + beyond|
            && w.mem[..c] == v[..c - 1] + "\r"
  {
    hide Run, Keep, Core;
    var k, w0 := Keep(v), Begin(v, beyond, n);
    var seen := ReadsByte(v, beyond, n, k + 1, 1);
    var w1 := Run(w0, |v|, seen);
    var writes := WritesCr(w1, v);
    RunAppend(w0, |v|, seen, writes);
    s := seen + writes;
    var w2 := Run(w0, |v|, s);
    assert w2.signers[1] == ScanLf(k + 1) && w2.mem[k] == '\r';
    ThenTurn(w0, |v|, s, 1);
    ThenTurn(w0, |v|, s + [1], 1);
    s := s + [1] + [1];
    assert w2.mem[..k] == w1.mem[..|v|][..k];
  }

  // The same one byte further on, where LF is written over a space.
  lemma RaceAtLf(v: string, beyond: string, n: nat) returns (s: seq<nat>)
    requires n >= 2 && Core(v) != "" && Keep(v) + 2 <= |v| && v[Keep(v)] == '\r' && v[Keep(v) + 1] == ' '
    ensures var w := Run(Begin(v, beyond, n), |v|, s); var c := Keep(v) + 2;
            && w.signers[1] == Appends(c, |w.mem|) && |w.mem| == |v + beyond|
            && w.mem[..c] == v[..c - 2] + CRLF
  {
    hide Run, Keep, Core;
    var k, w0 := Keep(v), Begin(v, beyond, n);
    var seen := ReadsByte(v, beyond, n, k + 2, 2);
    var w1 := Run(w0, |v|, seen);
    var writes := WritesBreak(w1, v);
    RunAppend(w0, |v|, seen, writes);
    s := seen + writes;
    var w2 := Run(w0, |v|, s);
    assert w2.signers[1] == ScanSp(k + 2) && w2.mem[k] == '\r' && w2.mem[k + 1] == '\n';
    ThenTurn(w0, |v|, s, 1);
    s := s + [1];
    assert w2.mem[..k] == w1.mem[..|v|][..k];
  }

  // What signer 1 hashes then: a byte or two more than it should.
  function Misread(v: string): string
    requires Keep(v) < |v|
  {
    if v[Keep(v)] != '\r' then v[..Keep(v)] + "\r" else v[..Keep(v)] + CRLF
  }

  // Every buffer that is not race-free has a run in which the second signer
  // hashes another body.
  lemma SomeRace(v: string, beyond: string, n: nat) returns (s: seq<nat>)
    requires n >= 2 && !RaceFree(v, |v + beyond|)
    ensures var t := Run(Begin(v, beyond, n), |v|, s).signers[1];
            t.Done? && Keep(v) < |v| && t.hashed == Misread(v) + CRLF && t.hashed != SimpleBody(v)
  {
    hide Run;
    var w0 := Begin(v, beyond, n);
    if v[Keep(v)] != '\r' {
      s := RaceAtCr(v, beyond, n);
    } else {
      s := RaceAtLf(v, beyond, n);
    }
    var w := Run(w0, |v|, s);
    var rest := AloneToEnd(w, |v|, 1, Misread(v));
    RunAppend(w0, |v|, s, rest);
    s := s + rest;
  }

  // All agree in every run exactly if there is one signer or no race.
  lemma AllAgreeIff(v: string, beyond: string, n: nat)
    ensures AllAgree(v, beyond, n) <==> n <= 1 || RaceFree(v, |v + beyond|)
  {
    hide Run, RaceFree, Begin;
    if n <= 1 || RaceFree(v, |v + beyond|) {
      forall schedule: seq<nat>, j: nat | j < n && Run(Begin(v, beyond, n), |v|, schedule).signers[j].Done?
        ensures Run(Begin(v, beyond, n), |v|, schedule).signers[j] == Done(SimpleBody(v), AfterSimple(v, |beyond|))
      {
        EverySignerAgrees(v, beyond, n, schedule);
      }
    } else {
      var s := SomeRace(v, beyond, n);
      assert Run(Begin(v, beyond, n), |v|, s).signers[1].Done?;
    }
  }

  // A space before the last line break is enough.
  lemma SpaceBeforeBreak(v: string) returns (s: seq<nat>)
    requires v == "abc \r\n"
    ensures SimpleBody(v) == "abc\r\n"
    ensures var t := Run(Begin(v, "", 2), |v|, s).signers[1]; t.Done? && t.hashed == "abc\r\r\n"
  {
    TrimRightExact("abc", " \r\n", TRAILING);
    assert v == "abc" + " \r\n" && v + "" == v;
    assert Keep(v) == 3;
    s := SomeRace(v, "", 2);
  }
}
