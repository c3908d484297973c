// Body canonicalisation of dkim/dkim.go on flat bytes, against the line-by-line
// rules of sections 3.4.3 and 3.4.4 of RFC 6376.
module Body {
  import opened Wrappers
  import opened Text
  import opened Headers

  // What the trailing loop skips over.
  const TRAILING: set<char> := {'\r', '\n', ' '}

  // The part of the body up to the last byte outside TRAILING, "" if there is none.
  function Core(v: string): string {
    TrimRight(v, TRAILING)
  }

  // Where the loop leaves the body: a body of TRAILING bytes only is not cut.
  function Keep(v: string): (k: nat)
    ensures k <= |v|
  {
    TrimRightParts(v, TRAILING);
    if Core(v) == "" then |v| else |Core(v)|
  }

  function TrailingRun(v: string): string {
    TrimRightParts(v, TRAILING);
    v[|Core(v)|..]
  }

  function SimpleBody(v: string): string {
    if v == "" then CRLF else v[..Keep(v)] + CRLF
  }

  // rxWsCRLF: " \r\n" becomes "\r\n", leftmost matches first.
  function DropSpaces(s: string): string {
    if s == "" then ""
    else if StartsWith(s, " \r\n") then CRLF + DropSpaces(s[3..])
    else [s[0]] + DropSpaces(s[1..])
  }

  // The body after both regular expressions.
  function Squeezed(v: string): string {
    DropSpaces(Collapse(v, WSP))
  }

  function RelaxedBody(v: string): string {
    if v == "" then "" else Squeezed(v)[..Keep(Squeezed(v))] + CRLF
  }

  function CanonicalBody(v: string, relaxed: bool): string {
    if relaxed then RelaxedBody(v) else SimpleBody(v)
  }

  // Where the simple body is cut: behind the last byte other than CR, LF and space,
  // and not at all if there is none.
  lemma SimpleBodyIs(v: string, k: nat)
    requires k <= |v| && forall i :: k <= i < |v| ==> v[i] in {'\r', '\n', ' '}
    requires k > 0 ==> v[k - 1] !in {'\r', '\n', ' '}
    ensures SimpleBody(v) == (if k > 0 then v[..k] else v) + "\r\n"
  {
    TrimRightParts(v, TRAILING);
    if k > 0 {
      assert v == v[..k] + v[k..];
      TrimRightExact(v[..k], v[k..], TRAILING);
    }
  }

  // ----- Simple mode ----------------------------------------------------------

  function StripCrlfs(v: string): (r: string)
    ensures |r| <= |v|
  {
    if |v| >= 2 && v[|v| - 2..] == CRLF then StripCrlfs(v[..|v| - 2]) else v
  }

  // Section 3.4.3: empty lines at the end become a single line break.
  function RfcSimpleBody(v: string): string {
    StripCrlfs(v) + CRLF
  }

  // The bytes after the last visible one form whole line breaks; a body without
  // visible bytes does not end in a line break.
  predicate SimpleConforms(v: string) {
    if v == "" then true
    else if Core(v) == "" then StripCrlfs(v) == v
    else StripCrlfs(TrailingRun(v)) == ""
  }

  lemma {:induction false} StripKeepsCore(t: string, r: string)
    requires t != "" && t[|t| - 1] !in TRAILING
    ensures StripCrlfs(t + r) == t + StripCrlfs(r)
    decreases |r|
  {
    var v := t + r;
    if |r| >= 2 {
      assert v[|v| - 2..] == r[|r| - 2..];
      assert v[..|v| - 2] == t + r[..|r| - 2];
      if r[|r| - 2..] == CRLF {
        StripKeepsCore(t, r[..|r| - 2]);
      }
    } else {
      if |v| >= 2 {
        assert v[|v| - 2..][1 - |r|] == t[|t| - 1];
      }
    }
  }

  // The code agrees with the standard in simple mode on exactly these bodies.
  lemma SimpleIsRfcIff(v: string)
    ensures SimpleBody(v) == RfcSimpleBody(v) <==> SimpleConforms(v)
  {
    if v != "" {
      var t := Core(v);
      TrimRightParts(v, TRAILING);
      if t == "" {
        assert v[..Keep(v)] == v;
        SamePrefix(v, StripCrlfs(v), CRLF);
      } else {
        var r := TrailingRun(v);
        assert v == t + r;
        StripKeepsCore(t, r);
        SamePrefix(t, t + StripCrlfs(r), CRLF);
        assert |t + StripCrlfs(r)| == |t| + |StripCrlfs(r)|;
        assert StripCrlfs(r) == "" ==> t + StripCrlfs(r) == t;
      }
    }
  }

  lemma SamePrefix(a: string, b: string, end: string)
    ensures a + end == b + end <==> a == b
  {
    if a + end == b + end {
      assert |a| == |b|;
      assert a == (a + end)[..|a|] == (b + end)[..|b|] == b;
    }
  }

  // A body without visible bytes shows where the two differ.
  lemma SimpleDiffersOnBlank()
    ensures SimpleBody(" \r\n") == " \r\n\r\n" && RfcSimpleBody(" \r\n") == " \r\n"
    ensures !SimpleConforms(" \r\n")
  {
    var v := " \r\n";
    assert v[..2] == " \r" && " \r"[..1] == " ";
    assert TrimRight(" ", TRAILING) == "";
    assert v[1..] == CRLF && v[..1] == " ";
    assert v[..3] == v;
  }

  // ----- Relaxed mode ---------------------------------------------------------

  // One line of section 3.4.4: single spaces, none at the end.
  function RfcLine(line: string): string {
    TrimRight(Collapse(line, WSP), WSP)
  }

  function RfcLines(lines: seq<string>): (r: seq<string>)
    ensures |r| == |lines|
    ensures forall i :: 0 <= i < |lines| ==> r[i] == RfcLine(lines[i])
  {
    if lines == [] then [] else [RfcLine(lines[0])] + RfcLines(lines[1..])
  }

  function DropEmptyTail(lines: seq<string>): (r: seq<string>)
    ensures |r| <= |lines| && r == lines[..|r|]
    ensures r != [] ==> r[|r| - 1] != ""
    ensures r == [] ==> forall i :: 0 <= i < |lines| ==> lines[i] == ""
  {
    if lines == [] || lines[|lines| - 1] != "" then lines else DropEmptyTail(lines[..|lines| - 1])
  }

  function Terminated(lines: seq<string>): string {
    if lines == [] then "" else lines[0] + CRLF + Terminated(lines[1..])
  }

  function RfcRelaxedBody(v: string): string {
    Terminated(DropEmptyTail(RfcLines(Split(v, CRLF))))
  }

  predicate NoBreaks(line: string) {
    '\r' !in line && '\n' !in line
  }

  // CR and LF occur only together.
  predicate CleanBody(v: string) {
    var lines := Split(v, CRLF);
    forall i :: 0 <= i < |lines| ==> NoBreaks(lines[i])
  }

  // Some byte is neither a line break, a space nor a tab.
  predicate HasInk(v: string) {
    exists i :: 0 <= i < |v| && v[i] !in TRAILING && v[i] !in WSP
  }

  lemma {:induction false} SkipOver(a: string, b: string)
    ensures Skip(a + CRLF + b, WSP) == Skip(a, WSP) + CRLF + b
  {
    var t := a + CRLF + b;
    if a != "" && a[0] in WSP {
      SkipOver(a[1..], b);
      assert t[1..] == a[1..] + CRLF + b;
    } else {
      assert t[0] !in WSP;
    }
  }

  lemma {:induction false} CollapseOver(a: string, b: string)
    ensures Collapse(a + CRLF + b, WSP) == Collapse(a, WSP) + CRLF + Collapse(b, WSP)
    decreases |a|
  {
    var t := a + CRLF + b;
    if a == "" {
      assert t[1..] == "\n" + b && t[1..][1..] == b;
      assert Collapse(t[1..], WSP) == ['\n'] + Collapse(b, WSP);
      assert t[0] == '\r';
      assert ['\r'] + (['\n'] + Collapse(b, WSP)) == CRLF + Collapse(b, WSP);
    } else if a[0] in WSP {
      assert t[1..] == a[1..] + CRLF + b;
      SkipOver(a[1..], b);
      CollapseOver(Skip(a[1..], WSP), b);
    } else {
      assert t[1..] == a[1..] + CRLF + b;
      CollapseOver(a[1..], b);
    }
  }

  function DropLastSpace(a: string): string {
    if a != "" && a[|a| - 1] == ' ' then a[..|a| - 1] else a
  }

  // No match of rxWsCRLF begins inside a line, but at a space before its end.
  lemma NoMatchAt(t: string, a: string, b: string)
    requires t == a + b && a != "" && (a != " " || b == "") && NoBreaks(a)
    ensures !StartsWith(t, " \r\n")
  {
    if |t| >= 3 {
      assert t[..3][0] == t[0] == a[0] && t[..3][1] == t[1];
      assert |a| >= 2 ==> t[1] == a[1];
    }
  }

  lemma DropSpacesOverBreak(b: string)
    ensures DropSpaces(CRLF + b) == CRLF + DropSpaces(b)
  {
  }

  lemma DropSpacesMatch(b: string)
    ensures DropSpaces(" \r\n" + b) == CRLF + DropSpaces(b)
  {
    var t := " \r\n" + b;
    assert t[..3] == " \r\n" && t[3..] == b;
  }

  lemma DropSpacesStep(t: string)
    requires t != "" && !StartsWith(t, " \r\n")
    ensures DropSpaces(t) == [t[0]] + DropSpaces(t[1..])
  {
  }

  lemma {:induction false} DropSpacesOver(a: string, b: string)
    requires NoBreaks(a)
    ensures DropSpaces(a + CRLF + b) == DropLastSpace(a) + CRLF + DropSpaces(b)
  {
    hide DropSpaces;
    var t := a + CRLF + b;
    if a == "" {
      assert t == CRLF + b;
      DropSpacesOverBreak(b);
    } else if a == " " {
      assert t == " \r\n" + b;
      DropSpacesMatch(b);
    } else {
      assert t[1..] == a[1..] + CRLF + b && t == a + (CRLF + b);
      NoMatchAt(t, a, CRLF + b);
      DropSpacesStep(t);
      DropSpacesOver(a[1..], b);
      assert DropLastSpace(a) == [a[0]] + DropLastSpace(a[1..]);
    }
  }

  lemma {:induction false} DropSpacesPlain(a: string)
    requires NoBreaks(a)
    ensures DropSpaces(a) == a
  {
    if a != "" {
      NoMatchAt(a, a, "");
      DropSpacesPlain(a[1..]);
    }
  }

  // Collapsed text: no tab, no two spaces in a row.
  predicate Single(s: string) {
    forall i :: 0 <= i < |s| ==> s[i] != '\t' && (i + 1 < |s| && s[i] == ' ' ==> s[i + 1] != ' ')
  }

  lemma {:induction false} CollapsedIsSingle(s: string)
    ensures Single(Collapse(s, WSP))
    ensures s != "" && s[0] !in WSP ==> Collapse(s, WSP)[0] == s[0]
    decreases |s|
  {
    if s == "" {
    } else if s[0] in WSP {
      CollapsedIsSingle(Skip(s[1..], WSP));
    } else {
      CollapsedIsSingle(s[1..]);
    }
  }

  lemma {:induction false} SingleIsCollapsed(s: string)
    requires Single(s)
    ensures Collapse(s, WSP) == s
  {
    if s != "" {
      assert Single(s[1..]) by {
        forall i | 0 <= i < |s[1..]|
          ensures s[1..][i] != '\t' && (i + 1 < |s[1..]| && s[1..][i] == ' ' ==> s[1..][i + 1] != ' ')
        {
          assert s[1..][i] == s[i + 1];
        }
      }
      SingleIsCollapsed(s[1..]);
      if s[0] in WSP {
        assert Skip(s[1..], WSP) == s[1..] by {
          assert s[1..] != "" ==> s[1..][0] == s[1];
        }
      }
    }
  }

  lemma SingleTrim(s: string)
    requires Single(s)
    ensures TrimRight(s, WSP) == DropLastSpace(s)
  {
  }

  lemma CollapseNoBreaks(line: string)
    requires NoBreaks(line)
    ensures NoBreaks(Collapse(line, WSP))
  {
    CollapseLeavesSpaces(line, WSP);
  }

  // All lines but the last come out as section 3.4.4 wants them.
  function SqueezedLines(lines: seq<string>): (r: seq<string>)
    requires lines != []
    ensures |r| == |lines|
  {
    if |lines| == 1 then [Collapse(lines[0], WSP)]
    else [RfcLine(lines[0])] + SqueezedLines(lines[1..])
  }

  lemma {:induction false} SqueezedByLine(lines: seq<string>)
    requires lines != [] && forall i :: 0 <= i < |lines| ==> NoBreaks(lines[i])
    ensures Squeezed(Join(lines, CRLF)) == Join(SqueezedLines(lines), CRLF)
  {
    CollapseNoBreaks(lines[0]);
    if |lines| == 1 {
      DropSpacesPlain(Collapse(lines[0], WSP));
    } else {
      var rest := Join(lines[1..], CRLF);
      CollapseOver(lines[0], rest);
      DropSpacesOver(Collapse(lines[0], WSP), Collapse(rest, WSP));
      CollapsedIsSingle(lines[0]);
      SingleTrim(Collapse(lines[0], WSP));
      SqueezedByLine(lines[1..]);
      assert SqueezedLines(lines)[1..] == SqueezedLines(lines[1..]);
    }
  }

  lemma {:induction false} SqueezedLinesAre(lines: seq<string>) returns (front: seq<string>, last: string)
    requires lines != [] && forall i :: 0 <= i < |lines| ==> NoBreaks(lines[i])
    ensures SqueezedLines(lines) == front + [last]
    ensures RfcLines(lines) == front + [Core(last)]
    ensures NoBreaks(last) && Single(last)
    ensures forall i :: 0 <= i < |front| ==> NoBreaks(front[i]) && Core(front[i]) == front[i]
  {
    RfcLineShape(lines[0]);
    if |lines| == 1 {
      CollapsedIsSingle(lines[0]);
      CollapseNoBreaks(lines[0]);
      front, last := [], Collapse(lines[0], WSP);
    } else {
      front, last := SqueezedLinesAre(lines[1..]);
      front := [RfcLine(lines[0])] + front;
    }
  }

  // A canonical line has no trailing byte of TRAILING, and is what the flat
  // trailing loop leaves of the collapsed line.
  lemma RfcLineShape(line: string)
    requires NoBreaks(line)
    ensures Core(Collapse(line, WSP)) == RfcLine(line)
    ensures Core(RfcLine(line)) == RfcLine(line)
    ensures NoBreaks(RfcLine(line)) && Single(RfcLine(line))
  {
    var c := Collapse(line, WSP);
    CollapseNoBreaks(line);
    CollapsedIsSingle(line);
    assert forall i :: 0 <= i < |c| ==> (c[i] in TRAILING <==> c[i] in WSP);
    TrimRightSame(c, TRAILING, WSP);
    TrimRightParts(c, WSP);
    var r := RfcLine(line);
    assert forall i :: 0 <= i < |r| ==> r[i] == c[i];
  }

  // The flat trailing loop drops the empty lines at the end.
  lemma {:induction false} CoreByLine(front: seq<string>, last: string)
    requires NoBreaks(last)
    requires forall i :: 0 <= i < |front| ==> NoBreaks(front[i]) && Core(front[i]) == front[i]
    ensures var kept := DropEmptyTail(front + [Core(last)]);
            Core(Join(front + [last], CRLF)) == Join(kept, CRLF)
    decreases |front|
  {
    var all := front + [last];
    TrimRightParts(last, TRAILING);
    var kept := DropEmptyTail(front + [Core(last)]);
    if front == [] {
      assert all == [last];
      if Core(last) != "" {
        assert kept == [Core(last)];
      } else {
        assert kept == [];
      }
    } else {
      JoinAppend(front, last, CRLF);
      var f := front[|front| - 1];
      var shorter := front[..|front| - 1];
      assert front == shorter + [f];
      if Core(last) == "" {
        CoreOfBlankEnd(Join(front, CRLF), CRLF + last);
        assert Join(front, CRLF) + CRLF + last == Join(front, CRLF) + (CRLF + last);
        CoreByLine(shorter, f);
        assert (front + [Core(last)])[..|front|] == front;
      } else {
        CoreOfInkEnd(Join(front, CRLF) + CRLF, last);
        assert kept == front + [Core(last)];
        JoinAppend(front, Core(last), CRLF);
      }
    }
  }

  lemma {:induction false} CoreOfBlankEnd(a: string, end: string)
    requires forall i :: 0 <= i < |end| ==> end[i] in TRAILING
    ensures Core(a + end) == Core(a)
  {
    if end == "" {
      assert a + end == a;
    } else {
      var shorter := end[..|end| - 1];
      assert (a + end)[..|a + end| - 1] == a + shorter;
      CoreOfBlankEnd(a, shorter);
    }
  }

  lemma CoreOfInkEnd(a: string, end: string)
    requires Core(end) != ""
    ensures Core(a + end) == a + Core(end)
  {
    TrimRightParts(end, TRAILING);
    var c := Core(end);
    assert a + end == (a + c) + end[|c|..];
    TrimRightExact(a + c, end[|c|..], TRAILING);
  }

  lemma {:induction false} TerminatedIsJoin(lines: seq<string>)
    requires lines != []
    ensures Terminated(lines) == Join(lines, CRLF) + CRLF
  {
    if |lines| > 1 {
      TerminatedIsJoin(lines[1..]);
    }
  }

  // What the code computes for a clean body, line by line.
  lemma CoreIsRfc(v: string)
    requires CleanBody(v)
    ensures Core(Squeezed(v)) == Join(DropEmptyTail(RfcLines(Split(v, CRLF))), CRLF)
  {
    var lines := Split(v, CRLF);
    JoinSplit(v, CRLF);
    SqueezedByLine(lines);
    CoreOfSqueezed(lines);
  }

  lemma CoreOfSqueezed(lines: seq<string>)
    requires lines != [] && forall i :: 0 <= i < |lines| ==> NoBreaks(lines[i])
    ensures Core(Join(SqueezedLines(lines), CRLF)) == Join(DropEmptyTail(RfcLines(lines)), CRLF)
  {
    var front, last := SqueezedLinesAre(lines);
    CoreByLine(front, last);
  }

  lemma {:induction false} InkInSomeLine(lines: seq<string>)
    requires lines != []
    ensures HasInk(Join(lines, CRLF)) <==> exists i :: 0 <= i < |lines| && HasInk(lines[i])
  {
    if |lines| == 1 {
      assert HasInk(lines[0]) <==> exists i :: 0 <= i < |lines| && HasInk(lines[i]);
    } else {
      var rest := Join(lines[1..], CRLF);
      InkInSomeLine(lines[1..]);
      InkInParts(lines[0], CRLF + rest);
      InkInParts(CRLF, rest);
      assert lines[0] + CRLF + rest == lines[0] + (CRLF + rest);
      assert (exists i :: 0 <= i < |lines| && HasInk(lines[i])) <==>
             HasInk(lines[0]) || (exists i :: 0 <= i < |lines[1..]| && HasInk(lines[1..][i])) by {
        forall i | 0 <= i < |lines| && HasInk(lines[i])
          ensures HasInk(lines[0]) || exists j :: 0 <= j < |lines[1..]| && HasInk(lines[1..][j])
        {
          if i > 0 { assert lines[1..][i - 1] == lines[i]; }
        }
        forall j | 0 <= j < |lines[1..]| && HasInk(lines[1..][j])
          ensures HasInk(lines[j + 1])
        {
        }
      }
    }
  }

  lemma InkInParts(a: string, b: string)
    ensures HasInk(a + b) <==> HasInk(a) || HasInk(b)
  {
    var t := a + b;
    forall i | 0 <= i < |a| && a[i] !in TRAILING && a[i] !in WSP ensures HasInk(t) { assert t[i] == a[i]; }
    forall i | 0 <= i < |b| && b[i] !in TRAILING && b[i] !in WSP ensures HasInk(t) { assert t[|a| + i] == b[i]; }
    forall i | 0 <= i < |t| && t[i] !in TRAILING && t[i] !in WSP
      ensures HasInk(a) || HasInk(b)
    {
      if i < |a| { assert a[i] == t[i]; } else { assert b[i - |a|] == t[i]; }
    }
  }

  lemma {:induction false} InkSurvives(line: string)
    requires NoBreaks(line)
    ensures HasInk(line) <==> RfcLine(line) != ""
    decreases |line|
  {
    RfcLineShape(line);
    var c := Collapse(line, WSP);
    TrimRightParts(c, WSP);
    InkCollapse(line);
    if RfcLine(line) != "" {
      var k := |RfcLine(line)| - 1;
      assert c[k] !in WSP && c[k] !in TRAILING;
      assert HasInk(c);
    }
  }

  lemma {:induction false} InkCollapse(line: string)
    ensures HasInk(line) <==> HasInk(Collapse(line, WSP))
    decreases |line|
  {
    if line == "" {
    } else if line[0] in WSP {
      var rest := Skip(line[1..], WSP);
      SkipIsSuffix(line[1..], WSP);
      var blank := line[..|line| - |rest|];
      assert line == blank + rest;
      SkippedBlank(line[1..]);
      assert !HasInk(blank);
      InkInParts(blank, rest);
      InkInParts(" ", Collapse(rest, WSP));
      InkCollapse(rest);
    } else {
      assert line == [line[0]] + line[1..];
      InkInParts([line[0]], line[1..]);
      InkInParts([line[0]], Collapse(line[1..], WSP));
      InkCollapse(line[1..]);
    }
  }

  lemma {:induction false} SkippedBlank(s: string)
    ensures |Skip(s, WSP)| <= |s|
    ensures forall i :: 0 <= i < |s| - |Skip(s, WSP)| ==> s[i] in WSP
  {
    if s != "" && s[0] in WSP {
      SkippedBlank(s[1..]);
    }
  }

  // Relaxed mode on flat bytes is section 3.4.4, for clean bodies, exactly when
  // the body is empty or has a visible byte.
  lemma RelaxedIsRfcIff(v: string)
    requires CleanBody(v)
    ensures RelaxedBody(v) == RfcRelaxedBody(v) <==> v == "" || HasInk(v)
  {
    var lines := Split(v, CRLF);
    var kept := DropEmptyTail(RfcLines(lines));
    CoreIsRfc(v);
    InkIffKept(v);
    if v == "" {
      assert lines == [""];
    } else if kept != [] {
      TerminatedIsJoin(kept);
      JoinLastInk(kept);
      TrimRightParts(Squeezed(v), TRAILING);
      assert Squeezed(v)[..Keep(Squeezed(v))] == Core(Squeezed(v));
    } else {
      assert RelaxedBody(v) != "";
    }
  }

  lemma InkIffKept(v: string)
    requires CleanBody(v)
    ensures HasInk(v) <==> DropEmptyTail(RfcLines(Split(v, CRLF))) != []
  {
    var lines := Split(v, CRLF);
    JoinSplit(v, CRLF);
    InkInSomeLine(lines);
    var r := RfcLines(lines);
    var kept := DropEmptyTail(r);
    forall i | 0 <= i < |lines|
      ensures HasInk(lines[i]) <==> r[i] != ""
    {
      InkSurvives(lines[i]);
    }
    if kept != [] {
      assert r[|kept| - 1] != "";
      assert HasInk(lines[|kept| - 1]);
    }
  }

  lemma JoinLastInk(lines: seq<string>)
    requires lines != [] && lines[|lines| - 1] != ""
    ensures Join(lines, CRLF) != ""
  {
    JoinLength(lines);
  }

  // The lines of a relaxed body, the empty one after the last CRLF included.
  lemma RelaxedLines(v: string) returns (kept: seq<string>)
    requires CleanBody(v) && HasInk(v)
    ensures kept != [] && kept[|kept| - 1] != "" && RelaxedBody(v) == Join(kept + [""], CRLF)
    ensures forall i :: 0 <= i < |kept| ==> NoBreaks(kept[i]) && RfcLine(kept[i]) == kept[i]
  {
    hide Join, Split, RfcLine, RelaxedBody, NoBreaks;
    var r := RfcLines(Split(v, CRLF));
    kept := DropEmptyTail(r);
    RelaxedIsRfcIff(v);
    InkIffKept(v);
    TerminatedIsJoin(kept);
    JoinAppend(kept, "", CRLF);
    forall i | 0 <= i < |kept|
      ensures NoBreaks(kept[i]) && RfcLine(kept[i]) == kept[i]
    {
      RfcLineShape(Split(v, CRLF)[i]);
      RfcLineIdempotent(Split(v, CRLF)[i]);
    }
  }

  lemma EmptyIsPlain()
    ensures NoBreaks("") && RfcLine("") == ""
  {
  }

  lemma InkIdempotent(v: string)
    requires CleanBody(v) && HasInk(v)
    ensures RelaxedBody(RelaxedBody(v)) == RelaxedBody(v)
  {
    hide RelaxedBody, Join, Split, RfcLine, NoBreaks;
    var kept := RelaxedLines(v);
    var u := RelaxedBody(v);
    EmptyIsPlain();
    PlainLinesSplit(kept + [""]);
    assert RfcLines(kept + [""]) == kept + [""];
    assert (kept + [""])[..|kept|] == kept;
    assert DropEmptyTail(kept + [""]) == DropEmptyTail(kept) == kept;
    TerminatedIsJoin(kept);
    JoinAppend(kept, "", CRLF);
    InkIffKept(u);
    RelaxedIsRfcIff(u);
  }

  lemma {:induction false} JoinLength(lines: seq<string>)
    requires lines != []
    ensures |Join(lines, CRLF)| >= 2 * (|lines| - 1)
    ensures (forall i :: 0 <= i < |lines| - 1 ==> lines[i] == "") ==>
              |Join(lines, CRLF)| == 2 * (|lines| - 1) + |lines[|lines| - 1]|
  {
    if |lines| > 1 {
      JoinLength(lines[1..]);
    }
  }

  lemma BlankLast(last: string)
    requires NoBreaks(last) && Single(last) && Core(last) == ""
    ensures |last| <= 1 && !HasInk(last)
  {
    TrimRightParts(last, TRAILING);
  }

  // The lines of a body without a visible byte are empty but for one space.
  lemma BlankLines(v: string) returns (front: seq<string>, last: string)
    requires CleanBody(v) && !HasInk(v)
    ensures Squeezed(v) == Join(front + [last], CRLF) && |last| <= 1 && NoBreaks(last) && !HasInk(last)
    ensures forall i :: 0 <= i < |front| ==> front[i] == ""
    ensures Core(Squeezed(v)) == ""
  {
    hide RfcLine, Squeezed, Join, Core, NoBreaks, Single, HasInk;
    var lines := Split(v, CRLF);
    InkIffKept(v);
    front, last := SqueezedLinesAre(lines);
    JoinSplit(v, CRLF);
    SqueezedByLine(lines);
    var r := RfcLines(lines);
    assert forall i :: 0 <= i < |front| ==> r[i] == front[i];
    assert r[|front|] == Core(last);
    BlankLast(last);
    CoreIsRfc(v);
    JoinNothing();
  }

  lemma JoinNothing()
    ensures Join([], CRLF) == ""
  {
  }

  // Without a visible byte every canonicalisation adds to a body.
  lemma BlankGrows(v: string)
    requires CleanBody(v) && v != "" && !HasInk(v)
    ensures |RelaxedBody(RelaxedBody(v))| > |RelaxedBody(v)|
  {
    hide Split, Join, RfcLine, Squeezed, HasInk;
    var front, last := BlankLines(v);
    var u := RelaxedBody(v);
    assert u == Squeezed(v) + CRLF;
    var lines := front + [last];
    JoinLength(lines);
    JoinAppend(lines, "", CRLF);
    assert Join(lines, CRLF) + CRLF + "" == u;
    var all := lines + [""];
    EmptyHasNoInk();
    AllBlank(all, u);
    var front', last' := BlankLines(u);
    SqueezedByLine(all);
    JoinLength(SqueezedLines(all));
  }

  lemma EmptyHasNoInk()
    ensures !HasInk("") && NoBreaks("")
  {
  }

  lemma AllBlank(lines: seq<string>, u: string)
    requires lines != [] && u == Join(lines, CRLF)
    requires forall i :: 0 <= i < |lines| ==> NoBreaks(lines[i]) && !HasInk(lines[i])
    ensures CleanBody(u) && !HasInk(u)
  {
    hide HasInk, Join, Split;
    PlainLinesSplit(lines);
    InkInSomeLine(lines);
  }

  // Canonicalising twice changes nothing.
  lemma RelaxedIdempotent(v: string)
    requires CleanBody(v) && (v == "" || HasInk(v))
    ensures RelaxedBody(RelaxedBody(v)) == RelaxedBody(v)
  {
    if v != "" {
      InkIdempotent(v);
    }
  }

  // Canonicalising a clean body twice changes nothing exactly if it is empty or
  // has a visible byte.
  lemma RelaxedIdempotentIff(v: string)
    requires CleanBody(v)
    ensures RelaxedBody(RelaxedBody(v)) == RelaxedBody(v) <==> v == "" || HasInk(v)
  {
    hide CleanBody, HasInk, Squeezed;
    if HasInk(v) {
      RelaxedIdempotent(v);
    } else if v != "" {
      BlankGrows(v);
    }
  }

  lemma RfcLineIdempotent(line: string)
    requires NoBreaks(line)
    ensures RfcLine(RfcLine(line)) == RfcLine(line)
  {
    RfcLineShape(line);
    SingleIsCollapsed(RfcLine(line));
    TrimRightParts(Collapse(line, WSP), WSP);
  }

  lemma PlainLinesSplit(lines: seq<string>)
    requires lines != [] && forall i :: 0 <= i < |lines| ==> NoBreaks(lines[i])
    ensures Split(Join(lines, CRLF), CRLF) == lines
  {
    forall i | 0 <= i < |lines|
      ensures !Contains(lines[i], CRLF)
    {
      ContainsIffOccurs(lines[i], CRLF);
    }
    SplitJoin(lines, CRLF);
  }
}
