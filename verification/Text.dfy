// The functions of Go's strings and bytes packages that the mail code uses.
// A character stands for one byte.
module Text {
  import opened Wrappers

  const CRLF := "\r\n"

  predicate StartsWith(s: string, prefix: string) {
    |prefix| <= |s| && s[..|prefix|] == prefix
  }

  // SplitN(s, sep, 2): the text before and after the first sep.
  function Cut(s: string, sep: string): (r: Option<(string, string)>)
    requires sep != ""
    ensures r.Some? ==> s == r.value.0 + sep + r.value.1
  {
    if |s| < |sep| then None
    else if StartsWith(s, sep) then Some(("", s[|sep|..]))
    else
      match Cut(s[1..], sep)
      case None => None
      case Some((a, b)) => Some(([s[0]] + a, b))
  }

  predicate Contains(s: string, sep: string)
    requires sep != ""
  {
    Cut(s, sep).Some?
  }

  // Independent reading of Contains: some position carries the separator.
  ghost predicate OccursAt(s: string, sep: string, i: nat) {
    i + |sep| <= |s| && s[i..i + |sep|] == sep
  }

  lemma SliceOfTail(s: string, i: nat, n: nat)
    requires 0 < i && i + n <= |s|
    ensures s[i..i + n] == s[1..][i - 1..i - 1 + n]
  {
    var t := s[1..];
    assert forall k :: i <= k < i + n ==> t[k - 1] == s[k];
  }

  lemma {:induction false} ContainsIffOccurs(s: string, sep: string)
    requires sep != ""
    ensures Contains(s, sep) <==> exists i :: OccursAt(s, sep, i)
    ensures Contains(s, sep) ==> OccursAt(s, sep, |Cut(s, sep).value.0|)
    ensures Contains(s, sep) ==> forall i :: OccursAt(s, sep, i) ==> |Cut(s, sep).value.0| <= i
  {
    if |s| < |sep| {
    } else if StartsWith(s, sep) {
      assert OccursAt(s, sep, 0);
    } else {
      ContainsIffOccurs(s[1..], sep);
      if Contains(s, sep) {
        var a := Cut(s[1..], sep).value.0;
        assert OccursAt(s[1..], sep, |a|);
        SliceOfTail(s, |a| + 1, |sep|);
        assert OccursAt(s, sep, |a| + 1);
      }
      forall i: nat | OccursAt(s, sep, i)
        ensures i > 0 && OccursAt(s[1..], sep, i - 1)
      {
        assert i != 0;
        SliceOfTail(s, i, |sep|);
      }
    }
  }

  // strings.Split for a non-empty separator.
  function Split(s: string, sep: string): (r: seq<string>)
    requires sep != ""
    ensures r != []
    decreases |s|
  {
    match Cut(s, sep)
    case None => [s]
    case Some((a, b)) => [a] + Split(b, sep)
  }

  function Join(parts: seq<string>, sep: string): string {
    if parts == [] then ""
    else if |parts| == 1 then parts[0]
    else parts[0] + sep + Join(parts[1..], sep)
  }

  ghost predicate AllFree(parts: seq<string>, sep: string)
    requires sep != ""
  {
    forall i :: 0 <= i < |parts| ==> !Contains(parts[i], sep)
  }

  lemma {:induction false} JoinSplit(s: string, sep: string)
    requires sep != ""
    ensures Join(Split(s, sep), sep) == s
    decreases |s|
  {
    match Cut(s, sep)
    case None =>
    case Some((a, b)) =>
      JoinSplit(b, sep);
      assert ([a] + Split(b, sep))[1..] == Split(b, sep);
  }

  lemma {:induction false} CutPieceFree(s: string, sep: string)
    requires sep != "" && Contains(s, sep)
    requires |sep| == 1 || sep == CRLF
    ensures !Contains(Cut(s, sep).value.0, sep)
  {
    var a := Cut(s, sep).value.0;
    ContainsIffOccurs(s, sep);
    ContainsIffOccurs(a, sep);
    if Contains(a, sep) {
      var i: nat :| OccursAt(a, sep, i);
      assert a[i..i + |sep|] == s[i..i + |sep|];
      assert OccursAt(s, sep, i);
    }
  }

  lemma {:induction false} SplitPiecesFree(s: string, sep: string)
    requires sep != ""
    requires |sep| == 1 || sep == CRLF
    ensures AllFree(Split(s, sep), sep)
    decreases |s|
  {
    if Contains(s, sep) {
      CutPieceFree(s, sep);
      SplitPiecesFree(Cut(s, sep).value.1, sep);
    }
  }

  // A piece without the separator ends where the separator begins.
  lemma {:induction false} CutAppended(a: string, sep: string, b: string)
    requires sep != "" && !Contains(a, sep)
    requires |sep| == 1 || sep == CRLF
    ensures Cut(a + sep + b, sep) == Some((a, b))
  {
    var s := a + sep + b;
    if a == "" {
      assert s == sep + b;
    } else {
      CutAppended(a[1..], sep, b);
      assert s[1..] == a[1..] + sep + b;
      NotAtStart(a, sep, b);
      assert [a[0]] + a[1..] == a;
    }
  }

  lemma NotAtStart(a: string, sep: string, b: string)
    requires a != "" && !StartsWith(a, sep)
    requires |sep| == 1 || sep == CRLF
    ensures !StartsWith(a + sep + b, sep)
  {
    var s := a + sep + b;
    if |a| >= |sep| {
      assert a[..|sep|] == s[..|sep|];
    } else {
      assert s[1] == '\r' && s[..2][1] == s[1];
    }
  }

  lemma {:induction false} SplitJoin(parts: seq<string>, sep: string)
    requires sep != "" && parts != [] && AllFree(parts, sep)
    requires |sep| == 1 || sep == CRLF
    ensures Split(Join(parts, sep), sep) == parts
  {
    if |parts| > 1 {
      SplitJoin(parts[1..], sep);
      CutAppended(parts[0], sep, Join(parts[1..], sep));
    }
  }

  // Texts joined from pieces without the separator determine the pieces.
  lemma JoinInjective(a: seq<string>, b: seq<string>, sep: string)
    requires sep != "" && a != [] && b != [] && AllFree(a, sep) && AllFree(b, sep)
    requires |sep| == 1 || sep == CRLF
    ensures Join(a, sep) == Join(b, sep) <==> a == b
  {
    SplitJoin(a, sep);
    SplitJoin(b, sep);
  }

  lemma {:induction false} JoinAppend(parts: seq<string>, last: string, sep: string)
    requires parts != []
    ensures Join(parts + [last], sep) == Join(parts, sep) + sep + last
  {
    if |parts| == 1 {
      assert (parts + [last])[1..] == [last];
    } else {
      JoinAppend(parts[1..], last, sep);
      assert (parts + [last])[1..] == parts[1..] + [last];
      assert parts[0] + sep + (Join(parts[1..], sep) + sep + last)
          == parts[0] + sep + Join(parts[1..], sep) + sep + last;
    }
  }

  lemma {:induction false} JoinConcat(a: seq<string>, b: seq<string>, sep: string)
    requires a != [] && b != []
    ensures Join(a + b, sep) == Join(a, sep) + sep + Join(b, sep)
  {
    if |a| == 1 {
      assert (a + b)[1..] == b;
    } else {
      JoinConcat(a[1..], b, sep);
      assert (a + b)[1..] == a[1..] + b;
      var head := a[0] + sep;
      assert head + (Join(a[1..], sep) + sep + Join(b, sep)) == head + Join(a[1..], sep) + sep + Join(b, sep);
    }
  }

  lemma SplitConcat(s: string, sep: string, t: string)
    requires sep != ""
    requires |sep| == 1 || sep == CRLF
    ensures Split(s + sep + t, sep) == Split(s, sep) + Split(t, sep)
  {
    JoinSplit(s, sep);
    JoinSplit(t, sep);
    SplitPiecesFree(s, sep);
    SplitPiecesFree(t, sep);
    JoinConcat(Split(s, sep), Split(t, sep), sep);
    SplitJoin(Split(s, sep) + Split(t, sep), sep);
  }

  lemma {:induction false} SplitAppend(s: string, sep: string, piece: string)
    requires sep != "" && !Contains(piece, sep)
    requires |sep| == 1 || sep == CRLF
    ensures Split(s + sep + piece, sep) == Split(s, sep) + [piece]
  {
    var parts := Split(s, sep);
    JoinSplit(s, sep);
    SplitPiecesFree(s, sep);
    JoinAppend(parts, piece, sep);
    SplitJoin(parts + [piece], sep);
  }

  // ----- Letter case and white space ------------------------------------------

  function LowerChar(c: char): char {
    if 'A' <= c <= 'Z' then (c as int + 32) as char else c
  }

  function ToLower(s: string): string {
    if s == "" then "" else [LowerChar(s[0])] + ToLower(s[1..])
  }

  lemma {:induction false} ToLowerAt(s: string)
    ensures |ToLower(s)| == |s|
    ensures forall i :: 0 <= i < |s| ==> ToLower(s)[i] == LowerChar(s[i])
  {
    if s != "" {
      ToLowerAt(s[1..]);
    }
  }

  lemma {:induction false} LowerAlready(s: string)
    requires forall i :: 0 <= i < |s| ==> !('A' <= s[i] <= 'Z')
    ensures ToLower(s) == s
  {
    if s != "" {
      LowerAlready(s[1..]);
    }
  }

  function UpperChar(c: char): char {
    if 'a' <= c <= 'z' then (c as int - 32) as char else c
  }

  function ToUpper(s: string): string {
    if s == "" then "" else [UpperChar(s[0])] + ToUpper(s[1..])
  }

  lemma {:induction false} UpperAlready(s: string)
    requires forall i :: 0 <= i < |s| ==> !('a' <= s[i] <= 'z')
    ensures ToUpper(s) == s
  {
    if s != "" {
      UpperAlready(s[1..]);
    }
  }

  // What strings.TrimSpace and strings.Fields take for white space.
  const SPACE: set<char> := {' ', '\t', '\n', '\r', '\U{000B}', '\U{000C}'}

  function TrimLeft(s: string, w: set<char>): string {
    if s == "" || s[0] !in w then s else TrimLeft(s[1..], w)
  }

  function TrimRight(s: string, w: set<char>): string {
    if s == "" || s[|s| - 1] !in w then s else TrimRight(s[..|s| - 1], w)
  }

  function Trim(s: string, w: set<char>): string {
    TrimRight(TrimLeft(s, w), w)
  }

  function TrimSpace(s: string): string {
    Trim(s, SPACE)
  }

  lemma {:induction false} TrimLeftParts(s: string, w: set<char>)
    ensures var r := TrimLeft(s, w);
            && |r| <= |s| && r == s[|s| - |r|..]
            && (r != "" ==> r[0] !in w)
            && forall i :: 0 <= i < |s| - |r| ==> s[i] in w
  {
    if s != "" && s[0] in w {
      TrimLeftParts(s[1..], w);
      var r := TrimLeft(s[1..], w);
      assert s[1..][|s| - 1 - |r|..] == s[|s| - |r|..];
      assert forall i :: 0 < i < |s| - |r| ==> s[i] == s[1..][i - 1];
    }
  }

  lemma {:induction false} TrimRightParts(s: string, w: set<char>)
    ensures var r := TrimRight(s, w);
            && |r| <= |s| && r == s[..|r|]
            && (r != "" ==> r[|r| - 1] !in w)
            && forall i :: |r| <= i < |s| ==> s[i] in w
  {
    if s != "" && s[|s| - 1] in w {
      TrimRightParts(s[..|s| - 1], w);
    }
  }

  // Trimming takes a middle part out that begins and ends outside w.
  lemma TrimParts(s: string, w: set<char>) returns (before: string, after: string)
    ensures s == before + Trim(s, w) + after
    ensures Trim(s, w) != "" ==> Trim(s, w)[0] !in w && Trim(s, w)[|Trim(s, w)| - 1] !in w
    ensures forall i :: 0 <= i < |before| ==> before[i] in w
    ensures forall i :: 0 <= i < |after| ==> after[i] in w
  {
    var l := TrimLeft(s, w);
    TrimLeftParts(s, w);
    before := s[..|s| - |l|];
    after := RightPart(l, w);
    assert TrimRight(l, w) != "" ==> TrimRight(l, w)[0] == l[0];
  }

  lemma RightPart(s: string, w: set<char>) returns (after: string)
    ensures s == TrimRight(s, w) + after
    ensures TrimRight(s, w) != "" ==> TrimRight(s, w)[|TrimRight(s, w)| - 1] !in w
    ensures forall i :: 0 <= i < |after| ==> after[i] in w
  {
    TrimRightParts(s, w);
    after := s[|TrimRight(s, w)|..];
  }

  lemma {:induction false} TrimLeftExact(before: string, s: string, w: set<char>)
    requires s != "" && s[0] !in w
    requires forall i :: 0 <= i < |before| ==> before[i] in w
    ensures TrimLeft(before + s, w) == s
  {
    if before == "" {
      assert before + s == s;
    } else {
      TrimLeftExact(before[1..], s, w);
      assert (before + s)[1..] == before[1..] + s;
    }
  }

  lemma {:induction false} TrimRightExact(s: string, after: string, w: set<char>)
    requires s != "" && s[|s| - 1] !in w
    requires forall i :: 0 <= i < |after| ==> after[i] in w
    ensures TrimRight(s + after, w) == s
  {
    if after == "" {
      assert s + after == s;
    } else {
      var shorter := after[..|after| - 1];
      TrimRightExact(s, shorter, w);
      assert (s + after)[..|s + after| - 1] == s + shorter;
    }
  }

  // Text that begins and ends with something else than white space is kept,
  // with whatever white space surrounds it removed.
  lemma TrimExact(before: string, s: string, after: string, w: set<char>)
    requires s != "" && s[0] !in w && s[|s| - 1] !in w
    requires forall i :: 0 <= i < |before| ==> before[i] in w
    requires forall i :: 0 <= i < |after| ==> after[i] in w
    ensures Trim(before + s + after, w) == s
  {
    assert before + s + after == before + (s + after);
    TrimLeftExact(before, s + after, w);
    TrimRightExact(s, after, w);
  }

  // Trimming two sets that agree on the text.
  lemma {:induction false} TrimSame(s: string, w: set<char>, w': set<char>)
    requires forall i :: 0 <= i < |s| ==> (s[i] in w <==> s[i] in w')
    ensures Trim(s, w) == Trim(s, w')
  {
    TrimLeftSame(s, w, w');
    var l := TrimLeft(s, w);
    TrimLeftParts(s, w);
    assert forall i :: 0 <= i < |l| ==> l[i] == s[|s| - |l| + i];
    TrimRightSame(l, w, w');
  }

  lemma {:induction false} TrimLeftSame(s: string, w: set<char>, w': set<char>)
    requires forall i :: 0 <= i < |s| ==> (s[i] in w <==> s[i] in w')
    ensures TrimLeft(s, w) == TrimLeft(s, w')
  {
    if s != "" && s[0] in w {
      TrimLeftSame(s[1..], w, w');
    }
  }

  lemma {:induction false} TrimRightSame(s: string, w: set<char>, w': set<char>)
    requires forall i :: 0 <= i < |s| ==> (s[i] in w <==> s[i] in w')
    ensures TrimRight(s, w) == TrimRight(s, w')
  {
    if s != "" && s[|s| - 1] in w {
      TrimRightSame(s[..|s| - 1], w, w');
    }
  }

  // ----- Replacing runs of white space by one space ---------------------------

  function Skip(s: string, w: set<char>): (r: string)
    ensures |r| <= |s|
    ensures r != "" ==> r[0] !in w
  {
    if s != "" && s[0] in w then Skip(s[1..], w) else s
  }

  // ReplaceAll of a run of characters of w by " ".
  function Collapse(s: string, w: set<char>): string
    decreases |s|
  {
    if s == "" then ""
    else if s[0] in w then " " + Collapse(Skip(s[1..], w), w)
    else [s[0]] + Collapse(s[1..], w)
  }

  // Afterwards the space is the only character of w left.
  lemma {:induction false} CollapseLeavesSpaces(s: string, w: set<char>)
    ensures forall i :: 0 <= i < |Collapse(s, w)| ==>
              Collapse(s, w)[i] == ' ' || (Collapse(s, w)[i] !in w && Collapse(s, w)[i] in s)
    decreases |s|
  {
    if s == "" {
    } else if s[0] in w {
      var rest := Skip(s[1..], w);
      SkipIsSuffix(s[1..], w);
      CollapseLeavesSpaces(rest, w);
      assert forall c :: c in rest ==> c in s;
    } else {
      CollapseLeavesSpaces(s[1..], w);
    }
  }

  lemma {:induction false} SkipIsTrimLeft(s: string, w: set<char>)
    ensures Skip(s, w) == TrimLeft(s, w)
  {
    if s != "" && s[0] in w {
      SkipIsTrimLeft(s[1..], w);
    }
  }

  lemma {:induction false} TrimRightKeeps(c: char, s: string, w: set<char>)
    ensures TrimRight([c] + s, w) == if TrimRight(s, w) == "" && c in w then "" else [c] + TrimRight(s, w)
  {
    if s == "" {
      assert [c] + s == [c] && [c][..0] == "";
    } else if s[|s| - 1] in w {
      TrimRightKeeps(c, s[..|s| - 1], w);
      assert ([c] + s)[..|s|] == [c] + s[..|s| - 1];
    }
  }

  // The white space at the end is one space at most after collapsing.
  lemma {:induction false} CollapseTrimsRight(s: string, w: set<char>)
    requires ' ' in w
    ensures TrimRight(Collapse(s, w), w) == Collapse(TrimRight(s, w), w)
    ensures TrimRight(s, w) == "" <==> Collapse(TrimRight(s, w), w) == ""
    decreases |s|
  {
    if s != "" {
      assert s == [s[0]] + s[1..];
      TrimRightKeeps(s[0], s[1..], w);
      if s[0] in w {
        var rest := Skip(s[1..], w);
        CollapseTrimsRight(rest, w);
        TrimRightKeeps(' ', Collapse(rest, w), w);
        SkipTrimsRight(s[1..], w);
      } else {
        CollapseTrimsRight(s[1..], w);
        TrimRightKeeps(s[0], Collapse(s[1..], w), w);
      }
    }
  }

  lemma {:induction false} SkipTrimsRight(s: string, w: set<char>)
    ensures Skip(TrimRight(s, w), w) == TrimRight(Skip(s, w), w)
    ensures TrimRight(s, w) == "" <==> TrimRight(Skip(s, w), w) == ""
  {
    if s != "" {
      assert s == [s[0]] + s[1..];
      TrimRightKeeps(s[0], s[1..], w);
      if s[0] in w {
        SkipTrimsRight(s[1..], w);
      }
    }
  }

  // Collapsing and trimming commute.
  lemma CollapseTrim(s: string, w: set<char>)
    requires ' ' in w
    ensures Trim(Collapse(s, w), w) == Collapse(Trim(s, w), w)
  {
    SkipIsTrimLeft(s, w);
    var l := Skip(s, w);
    if s != "" && s[0] in w {
      assert Collapse(s, w) == " " + Collapse(l, w);
      assert (" " + Collapse(l, w))[1..] == Collapse(l, w);
    }
    assert TrimLeft(Collapse(s, w), w) == Collapse(l, w);
    CollapseTrimsRight(l, w);
  }

  // Every white space is one space between two other characters, or at an end.
  predicate SingleSpaced(s: string, w: set<char>) {
    forall i :: 0 <= i < |s| && s[i] in w ==> s[i] == ' ' && (i + 1 < |s| ==> s[i + 1] !in w)
  }

  lemma SingleSpacedStep(s: string, w: set<char>)
    requires s != ""
    ensures SingleSpaced(s, w) <==>
            (s[0] in w ==> s[0] == ' ' && (|s| > 1 ==> s[1] !in w)) && SingleSpaced(s[1..], w)
  {
    var t := s[1..];
    assert forall i :: 0 < i < |s| ==> s[i] == t[i - 1];
    if SingleSpaced(t, w) && (s[0] in w ==> s[0] == ' ' && (|s| > 1 ==> s[1] !in w)) {
      forall i | 0 <= i < |s| && s[i] in w
        ensures s[i] == ' ' && (i + 1 < |s| ==> s[i + 1] !in w)
      {
        if i > 0 {
          assert t[i - 1] in w;
        }
      }
    }
  }

  // Collapsing changes nothing, not even up to letter case, in exactly these texts.
  lemma {:induction false} CollapseKeepsIff(s: string, w: set<char>)
    requires w <= SPACE
    ensures |Collapse(s, w)| <= |s|
    ensures ToLower(Collapse(s, w)) == ToLower(s) <==> SingleSpaced(s, w)
    ensures SingleSpaced(s, w) ==> Collapse(s, w) == s
    decreases |s|
  {
    hide SingleSpaced;
    if s == "" {
      NothingSpaced(w);
    } else {
      SingleSpacedStep(s, w);
      var t := s[1..];
      if s[0] in w {
        var rest := Skip(t, w);
        CollapseKeepsIff(rest, w);
        SameLowerIff(' ', Collapse(rest, w), s[0], t);
        assert rest != t ==> |rest| < |t|;
        assert s == [s[0]] + t;
      } else {
        CollapseKeepsIff(t, w);
        SameLowerIff(s[0], Collapse(t, w), s[0], t);
        assert s == [s[0]] + t;
      }
    }
  }

  lemma NothingSpaced(w: set<char>)
    ensures SingleSpaced("", w)
  {
  }

  lemma SameLowerIff(c: char, s: string, d: char, t: string)
    ensures ToLower([c] + s) == ToLower([d] + t) <==> LowerChar(c) == LowerChar(d) && ToLower(s) == ToLower(t)
    ensures ToLower(s) == ToLower(t) ==> |s| == |t|
  {
    assert ([c] + s)[1..] == s && ([d] + t)[1..] == t;
    assert ([LowerChar(c)] + ToLower(s))[1..] == ToLower(s) && ([LowerChar(d)] + ToLower(t))[1..] == ToLower(t);
    ToLowerAt(s);
    ToLowerAt(t);
  }

  // Collapsing hides no white space.
  lemma {:induction false} CollapseShowsSpace(s: string, w: set<char>, i: nat)
    requires i < |s| && s[i] in w
    ensures ' ' in Collapse(s, w)
    decreases |s|
  {
    if s[0] !in w {
      CollapseShowsSpace(s[1..], w, i - 1);
    }
  }

  lemma {:induction false} SkipIsSuffix(s: string, w: set<char>)
    ensures Skip(s, w) == s[|s| - |Skip(s, w)|..]
  {
    if s != "" && s[0] in w {
      SkipIsSuffix(s[1..], w);
    }
  }
}
