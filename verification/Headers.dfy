// dkim/header.go, dkim/headerlist.go and dkim/util.go: splitting a message into
// header fields, printing them back, and relaxed canonicalisation.
module Headers {
  import opened Wrappers
  import opened Text

  const EMPTY_LINE := "\r\n\r\n"
  const SIGNATURE_KEY := "DKIM-Signature"
  const SIGNATURE_NAME := "dkim-signature" // in lower case

  // splitEML: header block and body, if there is an empty line.
  function SplitEml(eml: string): Option<(string, string)> {
    Cut(eml, EMPTY_LINE)
  }

  // ----- Parsing --------------------------------------------------------------

  predicate Continues(line: string) {
    line != "" && (line[0] == ' ' || line[0] == '\t')
  }

  function FoldInto(list: seq<string>, lines: seq<string>): seq<string>
    decreases |lines|
  {
    if lines == [] then list
    else if Continues(lines[0]) && list != [] then
      FoldInto(list[|list| - 1 := list[|list| - 1] + CRLF + lines[0]], lines[1..])
    else FoldInto(list + [lines[0]], lines[1..])
  }

  function Fields(header: string): seq<string> {
    FoldInto([], Split(header, CRLF))
  }

  method ParseHeaderList(header: string) returns (list: seq<string>)
    ensures list == Fields(header)
  {
    var lines := Split(header, CRLF);
    list := [];
    var lastHeader := -1;
    var i := 0;
    while i < |lines|
      invariant 0 <= i <= |lines|
      invariant lastHeader == |list| - 1
      invariant FoldInto(list, lines[i..]) == Fields(header)
    {
      var v := lines[i];
      assert lines[i..][1..] == lines[i + 1..];
      if Continues(v) && lastHeader >= 0 {
        list := list[lastHeader := list[lastHeader] + CRLF + v];
      } else {
        lastHeader := |list|;
        list := list + [v];
      }
      i := i + 1;
    }
  }

  lemma {:induction false} FoldKeepsText(list: seq<string>, lines: seq<string>)
    requires list != [] || lines != []
    ensures FoldInto(list, lines) != []
    ensures Join(FoldInto(list, lines), CRLF) == Join(list + lines, CRLF)
    decreases |lines|
  {
    if lines == [] {
      assert list + lines == list;
    } else if Continues(lines[0]) && list != [] {
      var last := list[|list| - 1];
      var longer := list[|list| - 1 := last + CRLF + lines[0]];
      FoldKeepsText(longer, lines[1..]);
      JoinMergesLast(list, lines);
    } else {
      FoldKeepsText(list + [lines[0]], lines[1..]);
      assert list + [lines[0]] + lines[1..] == list + lines;
    }
  }

  lemma JoinMergesLast(list: seq<string>, lines: seq<string>)
    requires list != [] && lines != []
    ensures Join(list[|list| - 1 := list[|list| - 1] + CRLF + lines[0]] + lines[1..], CRLF)
            == Join(list + lines, CRLF)
  {
    var before := list[..|list| - 1];
    var last := list[|list| - 1];
    assert list + lines == before + ([last] + lines);
    assert list[|list| - 1 := last + CRLF + lines[0]] + lines[1..]
        == before + ([last + CRLF + lines[0]] + lines[1..]);
    JoinMerge(before, last, lines[0], lines[1..]);
    assert [last] + lines == [last, lines[0]] + lines[1..];
  }

  lemma {:induction false} JoinMerge(before: seq<string>, a: string, b: string, after: seq<string>)
    ensures Join(before + ([a + CRLF + b] + after), CRLF) == Join(before + ([a, b] + after), CRLF)
  {
    var one := before + ([a + CRLF + b] + after);
    var two := before + ([a, b] + after);
    if before == [] {
      assert two[1..] == [b] + after;
      if after == [] {
        assert one == [a + CRLF + b] && two[1..] == [b];
      } else {
        assert one[1..] == after && two[1..][1..] == after;
        assert (a + CRLF + b) + CRLF + Join(after, CRLF) == a + CRLF + (b + CRLF + Join(after, CRLF));
      }
    } else {
      JoinMerge(before[1..], a, b, after);
      assert one[1..] == before[1..] + ([a + CRLF + b] + after);
      assert two[1..] == before[1..] + ([a, b] + after);
    }
  }

  // Printing the parsed list gives back the header block.
  lemma FieldsPrintBack(header: string)
    ensures Fields(header) != []
    ensures Join(Fields(header), CRLF) == header
  {
    var lines := Split(header, CRLF);
    FoldKeepsText([], lines);
    assert [] + lines == lines;
    JoinSplit(header, CRLF);
  }

  lemma {:induction false} FoldAppend(list: seq<string>, lines: seq<string>, line: string)
    ensures FoldInto(list, lines + [line]) == FoldInto(FoldInto(list, lines), [line])
    decreases |lines|
  {
    if lines == [] {
      assert lines + [line] == [line];
    } else {
      assert (lines + [line])[1..] == lines[1..] + [line];
      var next := if Continues(lines[0]) && list != []
                  then list[|list| - 1 := list[|list| - 1] + CRLF + lines[0]]
                  else list + [lines[0]];
      FoldAppend(next, lines[1..], line);
    }
  }

  // A line added below a header block goes to the last field if it begins with a
  // space or a tab, and is one more field otherwise.
  lemma FieldsAppend(header: string, line: string)
    requires !Contains(line, CRLF)
    ensures Fields(header) != []
    ensures Fields(header + CRLF + line)
            == var list := Fields(header);
               if line != "" && line[0] in {' ', '\t'} then list[|list| - 1 := list[|list| - 1] + "\r\n" + line]
               else list + [line]
  {
    SplitAppend(header, CRLF, line);
    FoldAppend([], Split(header, CRLF), line);
    FieldsPrintBack(header);
    assert [line][1..] == [];
  }

  // ----- The field list without the parser ------------------------------------

  // A field, possibly folded: after its first line only continuation lines.
  ghost predicate IsField(field: string) {
    var lines := Split(field, CRLF);
    forall i :: 1 <= i < |lines| ==> Continues(lines[i])
  }

  // The header block cut into fields, none of which but the first could
  // continue the one above.
  ghost predicate CutsInto(header: string, list: seq<string>) {
    && list != [] && Join(list, CRLF) == header
    && (forall i :: 0 <= i < |list| ==> IsField(list[i]))
    && (forall i :: 1 <= i < |list| ==> !Continues(list[i]))
  }

  lemma LineIsField(line: string)
    requires !Contains(line, CRLF)
    ensures IsField(line) && Split(line, CRLF) == [line]
  {
  }

  lemma LongerField(field: string, line: string)
    requires IsField(field) && !Contains(line, CRLF) && Continues(line)
    ensures IsField(field + CRLF + line)
    ensures Continues(field + CRLF + line) <==> Continues(field)
  {
    SplitAppend(field, CRLF, line);
  }

  lemma {:induction false} FoldMakesFields(list: seq<string>, lines: seq<string>)
    requires AllFree(lines, CRLF) && (forall i :: 0 <= i < |list| ==> IsField(list[i]))
    requires forall i :: 1 <= i < |list| ==> !Continues(list[i])
    ensures forall i :: 0 <= i < |FoldInto(list, lines)| ==> IsField(FoldInto(list, lines)[i])
    ensures forall i :: 1 <= i < |FoldInto(list, lines)| ==> !Continues(FoldInto(list, lines)[i])
    decreases |lines|
  {
    hide IsField;
    if lines != [] {
      LineIsField(lines[0]);
      if Continues(lines[0]) && list != [] {
        LongerField(list[|list| - 1], lines[0]);
        FoldMakesFields(list[|list| - 1 := list[|list| - 1] + CRLF + lines[0]], lines[1..]);
      } else {
        FoldMakesFields(list + [lines[0]], lines[1..]);
      }
    }
  }

  // The continuation lines of a field all go to it.
  lemma {:induction false} FoldContinued(list: seq<string>, field: string, lines: seq<string>, more: seq<string>)
    requires forall i :: 0 <= i < |lines| ==> Continues(lines[i])
    ensures FoldInto(list + [field], lines + more) == FoldInto(list + [Join([field] + lines, CRLF)], more)
    decreases |lines|
  {
    hide Continues, Join;
    JoinContinued(field, lines);
    if lines == [] {
      assert lines + more == more;
    } else {
      var longer := field + CRLF + lines[0];
      FoldContinued(list, longer, lines[1..], more);
      assert (lines + more)[0] == lines[0] && (lines + more)[1..] == lines[1..] + more;
      assert (list + [field])[|list| := longer] == list + [longer];
    }
  }

  lemma JoinOne(field: string)
    ensures Join([field], CRLF) == field
  {
  }

  lemma JoinContinued(field: string, lines: seq<string>)
    ensures Join([field] + lines, CRLF)
            == if lines == [] then field else Join([field + CRLF + lines[0]] + lines[1..], CRLF)
  {
    hide Join;
    if lines == [] {
      JoinOne(field);
      assert [field] + lines == [field];
    } else {
      JoinMerge([], field, lines[0], lines[1..]);
      assert [] + ([field + CRLF + lines[0]] + lines[1..]) == [field + CRLF + lines[0]] + lines[1..];
      assert [] + ([field, lines[0]] + lines[1..]) == [field] + lines;
    }
  }

  lemma FoldOneField(list: seq<string>, field: string, more: seq<string>)
    requires IsField(field) && (list == [] || !Continues(field))
    ensures FoldInto(list, Split(field, CRLF) + more) == FoldInto(list + [field], more)
  {
    var lines := Split(field, CRLF);
    FirstLine(field);
    assert (lines + more)[0] == lines[0] && (lines + more)[1..] == lines[1..] + more;
    FoldContinued(list, lines[0], lines[1..], more);
    assert [lines[0]] + lines[1..] == lines;
    JoinSplit(field, CRLF);
  }

  lemma FirstLine(field: string)
    ensures Continues(Split(field, CRLF)[0]) ==> Continues(field)
  {
  }

  lemma {:induction false} FoldFields(list: seq<string>, fields: seq<string>)
    requires fields != [] && forall i :: 0 <= i < |fields| ==> IsField(fields[i])
    requires forall i :: 0 <= i < |fields| && list + fields[..i] != [] ==> !Continues(fields[i])
    ensures FoldInto(list, Split(Join(fields, CRLF), CRLF)) == list + fields
    decreases |fields|
  {
    hide IsField, Continues;
    var f, rest := fields[0], fields[1..];
    assert list + fields[..0] == list;
    if rest == [] {
      FoldOneField(list, f, []);
      assert Split(f, CRLF) + [] == Split(f, CRLF);
      assert list + [f] == list + fields;
    } else {
      SplitConcat(f, CRLF, Join(rest, CRLF));
      FoldOneField(list, f, Split(Join(rest, CRLF), CRLF));
      forall i | 0 <= i < |rest| && list + [f] + rest[..i] != []
        ensures !Continues(rest[i])
      {
        assert rest[i] == fields[i + 1];
        assert (list + fields[..i + 1]) != [];
      }
      FoldFields(list + [f], rest);
      assert list + [f] + rest == list + fields;
    }
  }

  // The parsed list is the one way to cut the header block into fields.
  lemma FieldsAreUnique(header: string, list: seq<string>)
    ensures CutsInto(header, list) <==> list == Fields(header)
  {
    hide IsField, Continues, FoldInto;
    if CutsInto(header, list) {
      FoldFields([], list);
      assert [] + list == list;
    }
    SplitPiecesFree(header, CRLF);
    FoldMakesFields([], Split(header, CRLF));
    FieldsPrintBack(header);
  }

  // ----- One field ------------------------------------------------------------

  function NewHeader(key: string, value: string): string {
    key + ": " + value
  }

  // Component(0) and Component(1).
  function NamePart(field: string): string {
    match Cut(field, ":")
    case None => field
    case Some((name, _)) => name
  }

  function ValuePart(field: string): string {
    match Cut(field, ":")
    case None => ""
    case Some((_, value)) => value
  }

  // The class \s of a regular expression.
  const RE_SPACE: set<char> := {' ', '\t', '\n', '\U{000C}', '\r'}
  const WSP: set<char> := {' ', '\t'}

  function Key(field: string, relax: bool): string {
    if relax then ToLower(TrimSpace(NamePart(field))) else TrimSpace(NamePart(field))
  }

  function Value(field: string, relax: bool): string {
    if relax then TrimSpace(Collapse(ValuePart(field), RE_SPACE)) else TrimSpace(ValuePart(field))
  }

  function Canonical(field: string, relax: bool): string {
    if relax then Key(field, relax) + ":" + Value(field, relax) else field
  }

  // ----- The list -------------------------------------------------------------

  // HeaderList.Get: the first field with the key, or "".
  function Get(list: seq<string>, key: string): string {
    if list == [] then ""
    else if Key(list[0], true) == ToLower(key) then list[0]
    else Get(list[1..], key)
  }

  method FindHeader(list: seq<string>, key: string) returns (h: string)
    ensures h == Get(list, key)
  {
    var i := 0;
    while i < |list|
      invariant 0 <= i <= |list|
      invariant Get(list[i..], key) == Get(list, key)
    {
      if Key(list[i], true) == ToLower(key) {
        return list[i];
      }
      assert list[i..][1..] == list[i + 1..];
      i := i + 1;
    }
    return "";
  }

  // Get in terms of positions: the topmost field of that name.
  lemma {:induction false} GetIsFirst(list: seq<string>, key: string) returns (i: nat)
    ensures i <= |list|
    ensures forall j :: 0 <= j < i ==> Key(list[j], true) != ToLower(key)
    ensures i < |list| ==> Key(list[i], true) == ToLower(key) && Get(list, key) == list[i]
    ensures i == |list| ==> Get(list, key) == ""
  {
    if list == [] {
      i := 0;
    } else if Key(list[0], true) == ToLower(key) {
      i := 0;
    } else {
      i := GetIsFirst(list[1..], key);
      i := i + 1;
    }
  }

  // HeaderList.Fields: the names as written, without the signature field.
  function Names(list: seq<string>): seq<string> {
    if list == [] then [] else NameOf(list[0]) + Names(list[1..])
  }

  function NameOf(field: string): seq<string> {
    var k := Key(field, false);
    if ToLower(k) != SIGNATURE_NAME then [k] else []
  }

  lemma NamesStep(a: seq<string>, list: seq<string>, i: nat)
    requires i < |list|
    ensures (a + NameOf(list[i])) + Names(list[i + 1..]) == a + Names(list[i..])
  {
  }

  lemma NamesDone(a: seq<string>, list: seq<string>)
    ensures a + Names(list[|list|..]) == a && [] + Names(list[0..]) == Names(list)
  {
    assert list[0..] == list;
  }

  method FieldNames(list: seq<string>) returns (names: string)
    ensures names == Join(Names(list), ":")
  {
    hide Key, ToLower, Join, Names, SIGNATURE_NAME;
    var a: seq<string> := [];
    NamesDone(a, list);
    var i := 0;
    while i < |list|
      invariant 0 <= i <= |list|
      invariant a + Names(list[i..]) == Names(list)
    {
      NamesStep(a, list, i);
      var k := Key(list[i], false);
      if ToLower(k) != SIGNATURE_NAME {
        a := a + [k];
      }
      i := i + 1;
    }
    NamesDone(a, list);
    return Join(a, ":");
  }

  function CanonicalAll(list: seq<string>, relax: bool): (r: seq<string>)
    ensures |r| == |list|
    ensures forall i :: 0 <= i < |list| ==> r[i] == Canonical(list[i], relax)
  {
    if list == [] then [] else [Canonical(list[0], relax)] + CanonicalAll(list[1..], relax)
  }

  function CanonicalBlock(list: seq<string>, relax: bool): string {
    Join(CanonicalAll(list, relax), CRLF) + CRLF
  }

  method CanonicalList(list: seq<string>, relaxed: bool) returns (block: string)
    ensures block == CanonicalBlock(list, relaxed)
  {
    var a: seq<string> := [];
    var i := 0;
    while i < |list|
      invariant 0 <= i <= |list| && |a| == i
      invariant forall j :: 0 <= j < i ==> a[j] == Canonical(list[j], relaxed)
    {
      a := a + [Canonical(list[i], relaxed)];
      i := i + 1;
    }
    assert a == CanonicalAll(list, relaxed);
    return Join(a, CRLF) + CRLF;
  }

  // The header round trip, for every byte string.
  lemma HeaderRoundTrip(header: string)
    ensures CanonicalBlock(Fields(header), false) == header + CRLF
  {
    assert CanonicalAll(Fields(header), false) == Fields(header);
    FieldsPrintBack(header);
  }

  // ----- Relaxed canonicalisation as section 3.4.2 of RFC 6376 has it ----------

  // Remove the line breaks of folded lines.
  function Unfold(v: string): string {
    if v == "" then ""
    else if StartsWith(v, CRLF) then Unfold(v[2..])
    else [v[0]] + Unfold(v[1..])
  }

  // Unfold, reduce white space to single spaces, strip both ends.
  function RfcValue(value: string): string {
    Trim(Collapse(Unfold(value), WSP), WSP)
  }

  // The same for the name, in lower case. Names have no white space of their
  // own, so what is left at the two ends is removed as it is next to the colon.
  function RfcName(name: string): string {
    var n := Trim(Collapse(Unfold(name), WSP), WSP);
    seq(|n|, i requires 0 <= i < |n| => LowerChar(n[i]))
  }

  function RfcRelaxed(field: string): string {
    RfcName(NamePart(field)) + ":" + RfcValue(ValuePart(field))
  }

  // Line breaks only where a folded line continues; no vertical white space.
  predicate CleanField(v: string) {
    if v == "" then true
    else if v[0] == '\r' then |v| >= 3 && v[1] == '\n' && v[2] in WSP && CleanField(v[2..])
    else v[0] != '\n' && v[0] != '\U{000B}' && v[0] != '\U{000C}' && CleanField(v[1..])
  }

  predicate PlainLine(line: string) {
    '\r' !in line && '\n' !in line && '\U{000B}' !in line && '\U{000C}' !in line
  }

  // A header block in which CR and LF occur only together.
  predicate CleanHeader(header: string) {
    var lines := Split(header, CRLF);
    forall i :: 0 <= i < |lines| ==> PlainLine(lines[i])
  }

  lemma {:induction false} PlainIsClean(line: string)
    requires PlainLine(line)
    ensures CleanField(line)
  {
    if line != "" {
      PlainIsClean(line[1..]);
    }
  }

  lemma {:induction false} CleanContinued(f: string, line: string)
    requires CleanField(f) && PlainLine(line) && Continues(line)
    ensures CleanField(f + CRLF + line)
  {
    var t := f + CRLF + line;
    if f == "" {
      PlainIsClean(line);
      assert t[2..] == line;
    } else if f[0] == '\r' {
      CleanContinued(f[2..], line);
      assert t[2..] == f[2..] + CRLF + line;
    } else {
      CleanContinued(f[1..], line);
      assert t[1..] == f[1..] + CRLF + line;
    }
  }

  lemma {:induction false} FoldClean(list: seq<string>, lines: seq<string>)
    requires forall i :: 0 <= i < |list| ==> CleanField(list[i])
    requires forall i :: 0 <= i < |lines| ==> PlainLine(lines[i])
    ensures forall i :: 0 <= i < |FoldInto(list, lines)| ==> CleanField(FoldInto(list, lines)[i])
    decreases |lines|
  {
    if lines != [] {
      PlainIsClean(lines[0]);
      if Continues(lines[0]) && list != [] {
        CleanContinued(list[|list| - 1], lines[0]);
        FoldClean(list[|list| - 1 := list[|list| - 1] + CRLF + lines[0]], lines[1..]);
      } else {
        FoldClean(list + [lines[0]], lines[1..]);
      }
    }
  }

  lemma {:induction false} CleanAfter(a: string, b: string)
    requires CleanField(a + ":" + b)
    ensures CleanField(b)
  {
    var t := a + ":" + b;
    if a == "" {
      assert t[1..] == b;
    } else if t[0] == '\r' {
      assert t[|a|] == ':';
      assert |a| != 1;
      assert t[2..] == a[2..] + ":" + b;
      CleanAfter(a[2..], b);
    } else {
      assert t[1..] == a[1..] + ":" + b;
      CleanAfter(a[1..], b);
    }
  }

  lemma {:induction false} SkipUnfold(v: string)
    requires CleanField(v)
    ensures CleanField(Skip(v, RE_SPACE))
    ensures Skip(Unfold(v), WSP) == Unfold(Skip(v, RE_SPACE))
    decreases |v|
  {
    if v == "" {
    } else if v[0] == '\r' {
      assert StartsWith(v, CRLF);
      assert Skip(v, RE_SPACE) == Skip(v[1..], RE_SPACE) == Skip(v[1..][1..], RE_SPACE);
      assert v[1..][1..] == v[2..];
      SkipUnfold(v[2..]);
    } else {
      assert !StartsWith(v, CRLF);
      assert ([v[0]] + Unfold(v[1..]))[1..] == Unfold(v[1..]);
      if v[0] in WSP {
        SkipUnfold(v[1..]);
      }
    }
  }

  lemma {:induction false} UnfoldStarts(v: string)
    requires CleanField(v) && v != "" && v[0] in RE_SPACE
    ensures Unfold(v) != "" && Unfold(v)[0] in WSP
    decreases |v|
  {
  }

  lemma {:induction false} CollapseUnfold(v: string)
    requires CleanField(v)
    ensures Collapse(v, RE_SPACE) == Collapse(Unfold(v), WSP)
    decreases |v|
  {
    if v == "" {
    } else if v[0] in RE_SPACE {
      UnfoldStarts(v);
      SkipUnfold(v);
      var u := Unfold(v);
      assert Skip(v, RE_SPACE) == Skip(v[1..], RE_SPACE);
      assert Skip(u, WSP) == Skip(u[1..], WSP);
      CollapseUnfold(Skip(v, RE_SPACE));
    } else {
      assert !StartsWith(v, CRLF);
      assert ([v[0]] + Unfold(v[1..]))[1..] == Unfold(v[1..]);
      CollapseUnfold(v[1..]);
    }
  }

  lemma {:induction false} CleanBefore(a: string, b: string)
    requires CleanField(a + ":" + b)
    ensures CleanField(a)
  {
    var t := a + ":" + b;
    if a == "" {
    } else if t[0] == '\r' {
      assert t[|a|] == ':';
      assert |a| >= 3;
      assert t[2..] == a[2..] + ":" + b;
      CleanBefore(a[2..], b);
    } else {
      assert t[1..] == a[1..] + ":" + b;
      CleanBefore(a[1..], b);
    }
  }

  lemma PartsClean(field: string)
    requires CleanField(field)
    ensures CleanField(NamePart(field)) && CleanField(ValuePart(field))
  {
    if Contains(field, ":") {
      CleanBefore(NamePart(field), ValuePart(field));
      CleanAfter(NamePart(field), ValuePart(field));
    }
  }

  lemma ValueIsRfc(field: string)
    requires CleanField(field)
    ensures Value(field, true) == RfcValue(ValuePart(field))
  {
    PartsClean(field);
    CollapsedTrim(ValuePart(field));
  }

  // Go's white space and the standard's are the same after collapsing.
  lemma CollapsedTrim(v: string)
    requires CleanField(v)
    ensures TrimSpace(Collapse(v, RE_SPACE)) == Trim(Collapse(Unfold(v), WSP), WSP)
    ensures TrimSpace(Collapse(v, RE_SPACE)) == Collapse(TrimSpace(v), RE_SPACE)
  {
    CollapseUnfold(v);
    var c := Collapse(v, RE_SPACE);
    CollapseLeavesSpaces(v, RE_SPACE);
    CleanHasNoVerticalTab(v);
    assert forall i :: 0 <= i < |c| ==> (c[i] in SPACE <==> c[i] in WSP);
    TrimSame(c, SPACE, WSP);
    TrimSame(c, SPACE, RE_SPACE);
    TrimSame(v, SPACE, RE_SPACE);
    CollapseTrim(v, RE_SPACE);
  }

  // The name as the code prints it, in the terms of the standard.
  lemma NameIsRfcIff(field: string)
    requires CleanField(field)
    ensures RfcName(NamePart(field)) == ToLower(Collapse(TrimSpace(NamePart(field)), RE_SPACE))
    ensures Key(field, true) == RfcName(NamePart(field)) <==> SingleSpaced(TrimSpace(NamePart(field)), RE_SPACE)
  {
    var name := NamePart(field);
    PartsClean(field);
    CollapsedTrim(name);
    CollapseKeepsIff(TrimSpace(name), RE_SPACE);
    ToLowerAt(Collapse(TrimSpace(name), RE_SPACE));
  }

  // The code's relaxed form of a well-formed field is the standard's in exactly
  // these cases: it leaves white space inside a name as it is.
  lemma RelaxedIsRfcIff(field: string)
    requires CleanField(field)
    ensures Canonical(field, true) == RfcRelaxed(field) <==> SingleSpaced(TrimSpace(NamePart(field)), RE_SPACE)
  {
    hide Collapse, Unfold, Trim, ToLower, RfcName, RfcValue, SingleSpaced, CleanField;
    ValueIsRfc(field);
    NameIsRfcIff(field);
    SameBefore(Key(field, true), RfcName(NamePart(field)), ":" + Value(field, true));
    assert Canonical(field, true) == Key(field, true) + (":" + Value(field, true));
    assert RfcRelaxed(field) == RfcName(NamePart(field)) + (":" + Value(field, true));
  }

  lemma SameBefore(a: string, b: string, t: string)
    ensures a + t == b + t <==> a == b
  {
    if a + t == b + t {
      assert |a| == |b|;
      assert a == (a + t)[..|a|] == b;
    }
  }

  lemma {:induction false} CleanHasNoVerticalTab(v: string)
    requires CleanField(v)
    ensures '\U{000B}' !in v && (forall i :: 0 <= i < |v| && v[i] == '\t' ==> v[i] in RE_SPACE)
    decreases |v|
  {
    if v == "" {
    } else if v[0] == '\r' {
      CleanHasNoVerticalTab(v[2..]);
      assert v == [v[0], v[1]] + v[2..];
    } else {
      CleanHasNoVerticalTab(v[1..]);
      assert v == [v[0]] + v[1..];
    }
  }

  lemma FieldsClean(header: string)
    requires CleanHeader(header)
    ensures forall i :: 0 <= i < |Fields(header)| ==> CleanField(Fields(header)[i])
  {
    FoldClean([], Split(header, CRLF));
  }
}
