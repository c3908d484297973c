// The relaxed form of section 3.4.2 of RFC 6376 is one line for every field of
// every header block, whatever stray CR, LF or white space the field contains.
module HeaderLines {
  import opened Text
  import opened Headers

  // Every line break is followed by white space.
  predicate FoldsOnly(v: string) {
    if v == "" then true
    else if StartsWith(v, CRLF) then |v| >= 3 && v[2] in WSP && FoldsOnly(v[2..])
    else FoldsOnly(v[1..])
  }

  lemma {:induction false} FreeFolds(line: string)
    requires !Contains(line, CRLF)
    ensures FoldsOnly(line)
  {
    if line != "" {
      FreeFolds(line[1..]);
    }
  }

  lemma {:induction false} FoldsContinued(f: string, line: string)
    requires FoldsOnly(f) && !Contains(line, CRLF) && Continues(line)
    ensures FoldsOnly(f + CRLF + line)
  {
    var t := f + CRLF + line;
    if f == "" {
      FreeFolds(line);
      assert t[2..] == line && t[..2] == CRLF;
    } else if StartsWith(f, CRLF) {
      FoldsContinued(f[2..], line);
      assert t[2..] == f[2..] + CRLF + line && t[..2] == CRLF && t[2] == f[2];
    } else {
      FoldsContinued(f[1..], line);
      NotAtStart(f, CRLF, line);
      assert t[1..] == f[1..] + CRLF + line;
    }
  }

  lemma {:induction false} FoldIntoFolds(list: seq<string>, lines: seq<string>)
    requires AllFree(lines, CRLF) && forall i :: 0 <= i < |list| ==> FoldsOnly(list[i])
    ensures forall i :: 0 <= i < |FoldInto(list, lines)| ==> FoldsOnly(FoldInto(list, lines)[i])
    decreases |lines|
  {
    hide FoldsOnly;
    if lines != [] {
      FreeFolds(lines[0]);
      if Continues(lines[0]) && list != [] {
        FoldsContinued(list[|list| - 1], lines[0]);
        FoldIntoFolds(list[|list| - 1 := list[|list| - 1] + CRLF + lines[0]], lines[1..]);
      } else {
        FoldIntoFolds(list + [lines[0]], lines[1..]);
      }
    }
  }

  lemma FieldsFold(header: string)
    ensures forall i :: 0 <= i < |Fields(header)| ==> FoldsOnly(Fields(header)[i])
  {
    SplitPiecesFree(header, CRLF);
    FoldIntoFolds([], Split(header, CRLF));
  }

  lemma {:induction false} FoldsAround(a: string, b: string)
    requires FoldsOnly(a + ":" + b)
    ensures FoldsOnly(a) && FoldsOnly(b)
  {
    var t := a + ":" + b;
    if a == "" {
      assert t[1..] == b && t[0] == ':';
      assert |t| >= 2 ==> t[..2][0] == ':';
    } else if StartsWith(t, CRLF) {
      assert t[0] == t[..2][0] == '\r' && t[1] == t[..2][1] == '\n';
      assert t[|a|] == ':';
      assert |a| >= 3;
      assert t[2..] == a[2..] + ":" + b && a[..2] == t[..2] && a[2] == t[2];
      FoldsAround(a[2..], b);
    } else {
      assert t[1..] == a[1..] + ":" + b;
      assert |a| >= 2 ==> a[..2] == t[..2];
      FoldsAround(a[1..], b);
    }
  }

  lemma PartsFold(field: string)
    requires FoldsOnly(field)
    ensures FoldsOnly(NamePart(field)) && FoldsOnly(ValuePart(field))
  {
    if Contains(field, ":") {
      FoldsAround(NamePart(field), ValuePart(field));
    }
  }

  // ----- No line break comes about --------------------------------------------

  predicate Free(s: string) {
    forall i :: 0 <= i < |s| - 1 ==> !(s[i] == '\r' && s[i + 1] == '\n')
  }

  lemma FreeIff(s: string)
    ensures Free(s) <==> !Contains(s, CRLF)
  {
    ContainsIffOccurs(s, CRLF);
    if !Free(s) {
      var i :| 0 <= i < |s| - 1 && s[i] == '\r' && s[i + 1] == '\n';
      assert OccursAt(s, CRLF, i);
    }
    if Contains(s, CRLF) {
      var i := |Cut(s, CRLF).value.0|;
      assert s[i..i + 2][0] == '\r' && s[i..i + 2][1] == '\n';
    }
  }

  lemma FreePrepended(c: char, s: string)
    requires Free(s) && !(c == '\r' && s != "" && s[0] == '\n')
    ensures Free([c] + s)
  {
    var t := [c] + s;
    forall i | 0 <= i < |t| - 1
      ensures !(t[i] == '\r' && t[i + 1] == '\n')
    {
      if i > 0 {
        assert t[i] == s[i - 1] && t[i + 1] == s[i];
      }
    }
  }

  lemma {:induction false} UnfoldFree(v: string)
    requires FoldsOnly(v)
    ensures Free(Unfold(v))
    ensures v != "" && StartsWith(v, CRLF) ==> Unfold(v) != "" && Unfold(v)[0] in WSP
    ensures v != "" && !StartsWith(v, CRLF) ==> Unfold(v) != "" && Unfold(v)[0] == v[0]
    decreases |v|
  {
    if v == "" {
    } else if StartsWith(v, CRLF) {
      UnfoldFree(v[2..]);
      assert v[2..][0] in WSP;
      assert |v[2..]| >= 2 ==> v[2..][..2][0] in WSP;
    } else {
      UnfoldFree(v[1..]);
      assert |v| >= 2 ==> v[..2] == [v[0], v[1]];
      FreePrepended(v[0], Unfold(v[1..]));
    }
  }

  lemma {:induction false} CollapseFree(u: string)
    requires Free(u)
    ensures Free(Collapse(u, WSP))
    ensures u != "" ==> Collapse(u, WSP) != "" && Collapse(u, WSP)[0] == if u[0] in WSP then ' ' else u[0]
    decreases |u|
  {
    if u == "" {
    } else if u[0] in WSP {
      var rest := Skip(u[1..], WSP);
      SkipIsSuffix(u[1..], WSP);
      SliceFree(u, |u| - |rest|, |u|);
      assert u[|u| - |rest|..] == rest;
      CollapseFree(rest);
      FreePrepended(' ', Collapse(rest, WSP));
    } else {
      SliceFree(u, 1, |u|);
      CollapseFree(u[1..]);
      FreePrepended(u[0], Collapse(u[1..], WSP));
    }
  }

  lemma SliceFree(s: string, i: nat, j: nat)
    requires Free(s) && i <= j <= |s|
    ensures Free(s[i..j])
  {
    var t := s[i..j];
    assert forall k :: 0 <= k < |t| ==> t[k] == s[i + k];
  }

  lemma TrimFree(s: string)
    requires Free(s)
    ensures Free(Trim(s, WSP))
  {
    var before, after := TrimParts(s, WSP);
    SliceFree(s, |before|, |before| + |Trim(s, WSP)|);
    assert s[|before|..|before| + |Trim(s, WSP)|] == Trim(s, WSP);
  }

  lemma JoinedFree(a: string, b: string)
    requires Free(a) && Free(b)
    ensures Free(a + ":" + b)
  {
    var t := a + ":" + b;
    forall i | 0 <= i < |t| - 1
      ensures !(t[i] == '\r' && t[i + 1] == '\n')
    {
      if i >= |a| {
        assert t[i + 1] == b[i - |a|];
        if i > |a| {
          assert t[i] == b[i - |a| - 1];
        }
      } else if i + 1 < |a| {
        assert t[i] == a[i] && t[i + 1] == a[i + 1];
      }
    }
  }

  lemma PartFree(v: string)
    requires FoldsOnly(v)
    ensures Free(Trim(Collapse(Unfold(v), WSP), WSP))
  {
    UnfoldFree(v);
    CollapseFree(Unfold(v));
    TrimFree(Collapse(Unfold(v), WSP));
  }

  lemma LowerFree(n: string)
    requires Free(n)
    ensures Free(seq(|n|, i requires 0 <= i < |n| => LowerChar(n[i])))
  {
  }

  // No line break is left in the standard's form of a field.
  lemma RfcRelaxedIsOneLine(field: string)
    requires FoldsOnly(field)
    ensures !Contains(RfcRelaxed(field), CRLF)
  {
    hide FoldsOnly, Collapse, Unfold, Trim, Free;
    PartsFold(field);
    PartFree(NamePart(field));
    PartFree(ValuePart(field));
    LowerFree(Trim(Collapse(Unfold(NamePart(field)), WSP), WSP));
    JoinedFree(RfcName(NamePart(field)), RfcValue(ValuePart(field)));
    FreeIff(RfcRelaxed(field));
  }
}
