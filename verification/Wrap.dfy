// The line wrapper of smtpd/wrap.go: a buffer that grows while it is scanned.
module Wrap {
  import opened Text

  const FOLD := "\r\n\t"

  const MAX_COLUMN := 76

  // The wrapped text, length being the code's count for the current line.
  function Wrapped(s: string, length: nat): string {
    if s == "" then ""
    else if length > MAX_COLUMN && s[0] == ' ' then FOLD + Wrapped(s[1..], 1)
    else [s[0]] + Wrapped(s[1..], if s[0] == '\n' then 1 else length + 1)
  }

  // append(sl, 0, 0); copy(sl[i+2:], sl[i:]); three writes.
  lemma Shifted(sl: string, i: nat, sl': string)
    requires i < |sl| && sl' == (sl + "\0\0")[..i + 2] + sl[i..]
    ensures sl'[i := '\r'][i + 1 := '\n'][i + 2 := '\t'] == sl[..i] + FOLD + sl[i + 1..]
  {
  }

  lemma WrappedStep(s: string, length: nat)
    requires s != ""
    ensures length > MAX_COLUMN && s[0] == ' ' ==> Wrapped(s, length) == FOLD + Wrapped(s[1..], 1)
    ensures !(length > MAX_COLUMN && s[0] == ' ') ==>
              Wrapped(s, length) == [s[0]] + Wrapped(s[1..], if s[0] == '\n' then 1 else length + 1)
  {
  }

  method WrapBuffer(input: string) returns (sl: string)
    ensures sl == Wrapped(input, 0)
  {
    hide Wrapped;
    sl := input;
    var length := 0;
    var i := 0;
    ghost var rest := input; // what has not been scanned
    while i < |sl|
      invariant 0 <= i <= |sl| && sl[i..] == rest && |rest| <= |input|
      invariant sl[..i] + Wrapped(rest, length) == Wrapped(input, 0)
      decreases |rest|
    {
      ghost var before, done := sl, sl[..i];
      assert rest[0] == sl[i] && rest[1..] == sl[i + 1..];
      WrappedStep(rest, length);
      if length > MAX_COLUMN && sl[i] == ' ' {
        Shifted(sl, i, (sl + "\0\0")[..i + 2] + sl[i..]);
        sl := (sl + "\0\0")[..i + 2] + sl[i..];
        sl := sl[i := '\r'];
        sl := sl[i + 1 := '\n'];
        sl := sl[i + 2 := '\t'];
        i := i + 2;
        length := 0;
        assert sl == done + FOLD + rest[1..];
        assert sl[..i + 1] == done + FOLD;
      } else {
        assert sl[..i + 1] == done + [rest[0]];
      }
      if sl[i] == '\n' {
        length := 0;
      }
      length := length + 1;
      i := i + 1;
      rest := rest[1..];
    }
    assert sl[..i] == sl && rest == "";
    assert Wrapped("", length) == "" by { EmptyWrapped(length); }
  }

  lemma EmptyWrapped(length: nat)
    ensures Wrapped("", length) == ""
  {
  }

  // ----- What wrapping means --------------------------------------------------

  // r is s with spaces folded, by columns: a space stays exactly up to the limit
  // of its line. The limit is 76 on the first line and on lines that wrap began,
  // and 75 after a line break of the input, whose LF the code counts.
  ghost predicate Refolds(s: string, r: string, column: nat, limit: nat) {
    if s == "" then r == ""
    else if s[0] == ' ' && column > limit then FOLD <= r && Refolds(s[1..], r[3..], 1, MAX_COLUMN)
    else if s[0] == '\n' then r != "" && r[0] == '\n' && Refolds(s[1..], r[1..], 0, MAX_COLUMN - 1)
    else r != "" && r[0] == s[0] && Refolds(s[1..], r[1..], column + 1, limit)
  }

  lemma {:induction false} WrappedRefolds(s: string, column: nat, limit: nat)
    requires limit <= MAX_COLUMN
    ensures Refolds(s, Wrapped(s, column + MAX_COLUMN - limit), column, limit)
  {
    if s != "" {
      var r := Wrapped(s, column + MAX_COLUMN - limit);
      if s[0] == ' ' && column > limit {
        assert r[3..] == Wrapped(s[1..], 1);
        WrappedRefolds(s[1..], 1, MAX_COLUMN);
      } else if s[0] == '\n' {
        assert r[1..] == Wrapped(s[1..], 1);
        WrappedRefolds(s[1..], 0, MAX_COLUMN - 1);
      } else {
        assert r[1..] == Wrapped(s[1..], column + 1 + MAX_COLUMN - limit);
        WrappedRefolds(s[1..], column + 1, limit);
      }
    }
  }

  // The relation leaves no choice: it determines the text.
  lemma {:induction false} RefoldsUnique(s: string, r: string, r': string, column: nat, limit: nat)
    requires Refolds(s, r, column, limit) && Refolds(s, r', column, limit)
    ensures r == r'
  {
    if s != "" {
      if s[0] == ' ' && column > limit {
        RefoldsUnique(s[1..], r[3..], r'[3..], 1, MAX_COLUMN);
        assert r == FOLD + r[3..] && r' == FOLD + r'[3..];
      } else if s[0] == '\n' {
        RefoldsUnique(s[1..], r[1..], r'[1..], 0, MAX_COLUMN - 1);
        assert r == [r[0]] + r[1..] && r' == [r'[0]] + r'[1..];
      } else {
        RefoldsUnique(s[1..], r[1..], r'[1..], column + 1, limit);
        assert r == [r[0]] + r[1..] && r' == [r'[0]] + r'[1..];
      }
    }
  }

  // Column of position i, the text beginning at the given column.
  function Column(r: string, i: nat, start: nat): nat
    requires i < |r|
  {
    if i == 0 then start
    else if r[i - 1] == '\n' then 0
    else Column(r, i - 1, start) + 1
  }

  lemma {:induction false} ColumnFromTail(r: string, i: nat, start: nat)
    requires 0 < i < |r|
    ensures Column(r, i, start) == Column(r[1..], i - 1, if r[0] == '\n' then 0 else start + 1)
  {
    if i > 1 {
      ColumnFromTail(r, i - 1, start);
    }
  }

  // Every space left stands among the first 77 bytes of its line.
  lemma {:induction false} SpacesAreEarly(s: string, r: string, column: nat, limit: nat)
    requires limit <= MAX_COLUMN && Refolds(s, r, column, limit)
    ensures forall i :: 0 <= i < |r| && r[i] == ' ' ==> Column(r, i, column) <= MAX_COLUMN
  {
    if s != "" {
      if s[0] == ' ' && column > limit {
        SpacesAreEarly(s[1..], r[3..], 1, MAX_COLUMN);
        assert r[..3] == FOLD;
        forall i | 0 <= i < |r| && r[i] == ' '
          ensures Column(r, i, column) <= MAX_COLUMN
        {
          assert r[0] == r[..3][0] && r[1] == r[..3][1] && r[2] == r[..3][2];
          ColumnFromTail(r, i, column);
          ColumnFromTail(r[1..], i - 1, column + 1);
          ColumnFromTail(r[1..][1..], i - 2, 0);
          assert r[1..][1..][1..] == r[3..];
        }
      } else {
        var next := if s[0] == '\n' then 0 else column + 1;
        SpacesAreEarly(s[1..], r[1..], next, if s[0] == '\n' then MAX_COLUMN - 1 else limit);
        forall i | 0 < i < |r| && r[i] == ' '
          ensures Column(r, i, column) <= MAX_COLUMN
        {
          ColumnFromTail(r, i, column);
        }
      }
    }
  }

  lemma WrapKeepsSpacesEarly(s: string, i: nat)
    requires i < |Wrapped(s, 0)| && Wrapped(s, 0)[i] == ' '
    ensures Column(Wrapped(s, 0), i, 0) <= MAX_COLUMN
  {
    WrappedRefolds(s, 0, MAX_COLUMN);
    SpacesAreEarly(s, Wrapped(s, 0), 0, MAX_COLUMN);
  }

  // ----- Folds by position ----------------------------------------------------

  // No line begins within the 76 bytes before i: neither an input line nor a fold.
  predicate Far(s: string, folds: set<nat>, i: nat)
    requires i <= |s|
  {
    i > 76 && forall j :: i - 76 <= j < i ==> s[j] != '\n' && j !in folds
  }

  // The spaces of s to be folded: exactly those that stand so far from a break.
  ghost predicate FoldsOf(s: string, folds: set<nat>) {
    forall i: nat :: i in folds <==> i < |s| && s[i] == ' ' && Far(s, folds, i)
  }

  // s from position n on, with these spaces folded.
  function Substituted(s: string, folds: set<nat>, n: nat): string
    requires n <= |s|
    decreases |s| - n
  {
    if n == |s| then "" else (if n in folds then "\r\n\t" else [s[n]]) + Substituted(s, folds, n + 1)
  }

  // The code's count before position n.
  function CountAt(s: string, folds: set<nat>, n: nat): nat
    requires n <= |s|
  {
    if n == 0 then 0 else if s[n - 1] == '\n' || n - 1 in folds then 1 else CountAt(s, folds, n - 1) + 1
  }

  lemma {:induction false} CountSinceBreak(s: string, folds: set<nat>, j: nat, n: nat)
    requires j < n <= |s| && (s[j] == '\n' || j in folds)
    ensures CountAt(s, folds, n) <= n - j
  {
    if j < n - 1 {
      CountSinceBreak(s, folds, j, n - 1);
    }
  }

  lemma {:induction false} CountWithoutBreak(s: string, folds: set<nat>, m: nat, n: nat)
    requires m <= n <= |s| && forall j :: m <= j < n ==> s[j] != '\n' && j !in folds
    ensures CountAt(s, folds, n) == CountAt(s, folds, m) + n - m
  {
    if m < n {
      CountWithoutBreak(s, folds, m, n - 1);
    }
  }

  lemma CountIffFar(s: string, folds: set<nat>, n: nat)
    requires n <= |s|
    ensures CountAt(s, folds, n) > MAX_COLUMN <==> Far(s, folds, n)
  {
    if Far(s, folds, n) {
      CountWithoutBreak(s, folds, n - MAX_COLUMN, n);
    } else if n > MAX_COLUMN {
      var j :| n - MAX_COLUMN <= j < n && (s[j] == '\n' || j in folds);
      CountSinceBreak(s, folds, j, n);
    } else {
      CountAtMost(s, folds, n);
    }
  }

  lemma {:induction false} CountAtMost(s: string, folds: set<nat>, n: nat)
    requires n <= |s|
    ensures CountAt(s, folds, n) <= n
  {
    if n > 0 {
      CountAtMost(s, folds, n - 1);
    }
  }

  // The loop folds exactly the positions of the definition.
  lemma FoldsAt(s: string, folds: set<nat>, n: nat)
    requires FoldsOf(s, folds) && n < |s|
    ensures n in folds <==> s[n] == ' ' && CountAt(s, folds, n) > MAX_COLUMN
  {
    CountIffFar(s, folds, n);
  }

  lemma {:induction false} WrappedFrom(s: string, folds: set<nat>, n: nat)
    requires FoldsOf(s, folds) && n <= |s|
    ensures Wrapped(s[n..], CountAt(s, folds, n)) == Substituted(s, folds, n)
    decreases |s| - n
  {
    hide FoldsOf, Far;
    if n < |s| {
      assert s[n..][1..] == s[n + 1..];
      FoldsAt(s, folds, n);
      WrappedFrom(s, folds, n + 1);
    }
  }

  lemma WrappedByPosition(s: string, folds: set<nat>)
    requires FoldsOf(s, folds)
    ensures Wrapped(s, 0) == Substituted(s, folds, 0)
  {
    WrappedFrom(s, folds, 0);
    assert s[0..] == s;
  }

  // There is exactly one such set of positions.
  function FoldsBefore(s: string, n: nat): (folds: set<nat>)
    requires n <= |s|
    ensures forall i :: i in folds ==> i < n
  {
    if n == 0 then {}
    else
      var before := FoldsBefore(s, n - 1);
      if s[n - 1] == ' ' && Far(s, before, n - 1) then before + {n - 1} else before
  }

  lemma {:induction false} FoldsExist(s: string, n: nat)
    requires n <= |s|
    ensures forall i: nat :: i in FoldsBefore(s, n) <==> i < n && s[i] == ' ' && Far(s, FoldsBefore(s, n), i)
  {
    if n > 0 {
      FoldsExist(s, n - 1);
      var before, folds := FoldsBefore(s, n - 1), FoldsBefore(s, n);
      assert forall i: nat :: i < n ==> (Far(s, folds, i) <==> Far(s, before, i));
    }
  }

  lemma FoldsAreUnique(s: string, a: set<nat>, b: set<nat>)
    requires FoldsOf(s, a) && FoldsOf(s, b)
    ensures a == b
  {
    forall i: nat
      ensures i in a <==> i in b
    {
      SameFold(s, a, b, i);
    }
  }

  lemma {:induction false} SameFold(s: string, a: set<nat>, b: set<nat>, i: nat)
    requires FoldsOf(s, a) && FoldsOf(s, b)
    ensures i in a <==> i in b
  {
    forall j: nat | j < i
      ensures j in a <==> j in b
    {
      SameFold(s, a, b, j);
    }
  }

  // ----- Unfolding ------------------------------------------------------------

  // Every fold read as one space.
  function Unfold(r: string): string
    decreases |r|
  {
    if r == "" then ""
    else if FOLD <= r then " " + Unfold(r[3..])
    else [r[0]] + Unfold(r[1..])
  }

  lemma {:induction false} UnfoldSame(s: string)
    ensures Unfold(s) == s <==> !Contains(s, FOLD)
  {
    if |s| < 3 {
      if s != "" { UnfoldSame(s[1..]); }
    } else if FOLD <= s {
      assert s[..3] == FOLD && Unfold(s)[0] == ' ';
    } else {
      assert s[..3] != FOLD;
      UnfoldSame(s[1..]);
    }
  }

  // Unfolding undoes wrapping exactly for texts without folds of their own.
  lemma {:induction false} UnfoldWrapped(s: string, length: nat)
    ensures Unfold(Wrapped(s, length)) == Unfold(s)
    decreases |s|
  {
    if s != "" {
      var r := Wrapped(s, length);
      if length > MAX_COLUMN && s[0] == ' ' {
        UnfoldWrapped(s[1..], 1);
        assert r[3..] == Wrapped(s[1..], 1);
      } else if FOLD <= s {
        assert s[..3] == FOLD;
        assert s == FOLD + s[3..] && s[1..][1..][1..] == s[3..];
        FoldPasses(s[3..], length);
        UnfoldWrapped(s[3..], 2);
      } else {
        var next := if s[0] == '\n' then 1 else length + 1;
        UnfoldWrapped(s[1..], next);
        assert r[1..] == Wrapped(s[1..], next);
        NoNewFold(s, length);
      }
    }
  }

  // A fold of the input is copied.
  lemma FoldPasses(s: string, length: nat)
    ensures Wrapped(FOLD + s, length) == FOLD + Wrapped(s, 2)
  {
    var t := FOLD + s;
    assert t[0] == '\r' && t[1..] == "\n\t" + s;
    assert t[1..][0] == '\n' && t[1..][1..] == "\t" + s;
    assert t[1..][1..][0] == '\t' && t[1..][1..][1..] == s;
    assert Wrapped(t[1..][1..], 1) == ['\t'] + Wrapped(s, 2);
    assert Wrapped(t[1..], length + 1) == ['\n'] + (['\t'] + Wrapped(s, 2));
    assert ['\r'] + (['\n'] + (['\t'] + Wrapped(s, 2))) == FOLD + Wrapped(s, 2);
  }

  // Wrapping makes no fold out of a byte that was not a space.
  lemma NoNewFold(s: string, length: nat)
    requires s != "" && !(length > MAX_COLUMN && s[0] == ' ')
    ensures FOLD <= Wrapped(s, length) ==> FOLD <= s
  {
    var r := Wrapped(s, length);
    if FOLD <= r {
      assert r[..3] == FOLD && r[0] == '\r' && r[1] == '\n' && r[2] == '\t';
      assert s[0] == '\r';
      SecondByte(s[1..], length + 1);
      assert s[1] == '\n' && r[1..] == Wrapped(s[1..], length + 1);
      SecondByte(s[1..][1..], 1);
      assert r[1..][1..] == Wrapped(s[1..][1..], 1);
      assert s[..3] == FOLD;
    }
  }

  lemma SecondByte(s: string, length: nat)
    ensures Wrapped(s, length) != "" && Wrapped(s, length)[0] != '\r' ==> s != "" && s[0] == Wrapped(s, length)[0]
  {
  }

  lemma UnfoldUndoesIff(s: string)
    ensures Unfold(Wrapped(s, 0)) == s <==> !Contains(s, FOLD)
  {
    UnfoldWrapped(s, 0);
    UnfoldSame(s);
  }

  // ----- Texts that stay as they are ------------------------------------------

  // The last column a space may stand in: the code counts the LF of a line it
  // finds in its input.
  function Limit(t: string, i: nat, first: nat): nat
    requires i <= |t|
  {
    if '\n' in t[..i] then MAX_COLUMN - 1 else first
  }

  lemma {:induction false} UnchangedFromIff(t: string, column: nat, limit: nat)
    requires limit <= MAX_COLUMN
    ensures Wrapped(t, column + MAX_COLUMN - limit) == t
            <==> forall i :: 0 <= i < |t| && t[i] == ' ' ==> Column(t, i, column) <= Limit(t, i, limit)
  {
    if t != "" {
      var broken := t[0] == '\n';
      var column', limit' := if broken then 0 else column + 1, if broken then MAX_COLUMN - 1 else limit;
      UnchangedFromIff(t[1..], column', limit');
      SpacesOfTail(t, column, limit);
      assert t == [t[0]] + t[1..];
      if t[0] == ' ' && column > limit {
        assert Wrapped(t, column + MAX_COLUMN - limit)[0] == '\r';
        assert Column(t, 0, column) > Limit(t, 0, limit);
      } else {
        assert Wrapped(t, column + MAX_COLUMN - limit)[1..] == Wrapped(t[1..], column' + MAX_COLUMN - limit');
      }
    }
  }

  lemma SpacesOfTail(t: string, column: nat, limit: nat)
    requires t != ""
    ensures var column', limit' := if t[0] == '\n' then 0 else column + 1,
                                   if t[0] == '\n' then MAX_COLUMN - 1 else limit;
            (forall i :: 0 <= i < |t| && t[i] == ' ' ==> Column(t, i, column) <= Limit(t, i, limit))
            <==> (t[0] == ' ' ==> column <= limit)
                 && forall i :: 0 <= i < |t[1..]| && t[1..][i] == ' ' ==>
                      Column(t[1..], i, column') <= Limit(t[1..], i, limit')
  {
    var column', limit' := if t[0] == '\n' then 0 else column + 1, if t[0] == '\n' then MAX_COLUMN - 1 else limit;
    forall i | 0 <= i < |t[1..]|
      ensures t[1..][i] == t[i + 1]
      ensures Column(t[1..], i, column') == Column(t, i + 1, column)
      ensures Limit(t[1..], i, limit') == Limit(t, i + 1, limit)
    {
      ColumnFromTail(t, i + 1, column);
      assert t[..i + 1] == [t[0]] + t[1..][..i];
    }
    assert forall i :: 0 < i < |t| && t[i] == ' ' ==> t[1..][i - 1] == ' ';
  }

  // wrap leaves a text alone exactly if every space stands within its limit:
  // column 76 on the first line, column 75 on every other.
  lemma UnchangedIff(t: string)
    ensures Wrapped(t, 0) == t
            <==> forall i :: 0 <= i < |t| && t[i] == ' ' ==> Column(t, i, 0) <= Limit(t, i, 76)
  {
    UnchangedFromIff(t, 0, MAX_COLUMN);
  }

  // A second wrapping changes nothing exactly if the first left no space in
  // column 76 below the first line.
  lemma WrapTwiceIff(s: string)
    ensures var t := Wrapped(s, 0);
            Wrapped(t, 0) == t
            <==> forall i :: 0 <= i < |t| && t[i] == ' ' && '\n' in t[..i] ==> Column(t, i, 0) != 76
  {
    var t := Wrapped(s, 0);
    UnchangedIff(t);
    WrappedRefolds(s, 0, MAX_COLUMN);
    SpacesAreEarly(s, t, 0, MAX_COLUMN);
  }

  // ----- Wrapping twice -------------------------------------------------------

  lemma {:induction false} PlainRun(a: string, rest: string, length: nat)
    requires ' ' !in a && '\n' !in a
    ensures Wrapped(a + rest, length) == a + Wrapped(rest, length + |a|)
  {
    if a == "" {
      assert a + rest == rest;
    } else {
      assert (a + rest)[1..] == a[1..] + rest;
      PlainRun(a[1..], rest, length + 1);
      assert [a[0]] + (a[1..] + Wrapped(rest, length + |a|)) == a + Wrapped(rest, length + |a|);
    }
  }

  // A space in column 76 of a line that wrap began survives once, not twice:
  // the second pass counts the LF of that line.
  lemma WrapTwiceDiffers(a: string, b: string)
    requires |a| == 77 && |b| == 75 && ' ' !in a && '\n' !in a && ' ' !in b && '\n' !in b
    ensures var once := Wrapped(a + " " + b + " ", 0);
            && once == a + FOLD + b + " "
            && Wrapped(once, 0) == a + FOLD + b + FOLD
  {
    FirstPass(a, b);
    SecondPass(a, b);
  }

  lemma FirstPass(a: string, b: string)
    requires |a| == 77 && |b| == 75 && ' ' !in a && '\n' !in a && ' ' !in b && '\n' !in b
    ensures Wrapped(a + " " + b + " ", 0) == a + FOLD + b + " "
  {
    hide Wrapped;
    var tail := b + " ";
    var rest := " " + tail;
    assert a + " " + b + " " == a + rest && rest[0] == ' ' && rest[1..] == tail;
    PlainRun(a, rest, 0);
    WrappedStep(rest, 77);
    PlainRun(b, " ", 1);
    LastSpace(76);
    assert a + (FOLD + tail) == a + FOLD + b + " ";
  }

  lemma SecondPass(a: string, b: string)
    requires |a| == 77 && |b| == 75 && ' ' !in a && '\n' !in a && ' ' !in b && '\n' !in b
    ensures Wrapped(a + FOLD + b + " ", 0) == a + FOLD + b + FOLD
  {
    hide Wrapped;
    var tail := b + " ";
    assert a + FOLD + b + " " == a + (FOLD + tail);
    PlainRun(a, FOLD + tail, 0);
    FoldPasses(tail, 77);
    PlainRun(b, " ", 2);
    LastSpace(77);
    assert a + (FOLD + (b + FOLD)) == a + FOLD + b + FOLD;
  }

  lemma LastSpace(length: nat)
    ensures Wrapped(" ", length) == if length > MAX_COLUMN then FOLD else " "
  {
  }
}
