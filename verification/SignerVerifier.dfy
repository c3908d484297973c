// Signing does not damage the message, and a verifier rebuilds from the signed
// message exactly the block that was hashed.
module SignerVerifier {
  import opened Wrappers
  import opened Text
  import opened Headers
  import opened HeaderLines
  import opened Signing
  import opened Verifier
  import opened SharedBuffer
  import Body

  // ----- The emitted message --------------------------------------------------

  lemma {:induction false} CutAt(s: string, sep: string, i: nat)
    requires sep != "" && OccursAt(s, sep, i)
    requires forall j :: 0 <= j < i ==> !OccursAt(s, sep, j)
    ensures Cut(s, sep) == Some((s[..i], s[i + |sep|..]))
  {
    ContainsIffOccurs(s, sep);
    var a := Cut(s, sep).value.0;
    var b := Cut(s, sep).value.1;
    assert OccursAt(s, sep, |a|);
    assert |a| == i;
    assert s == a + sep + b;
    assert a == s[..i] && b == s[i + |sep|..];
  }

  // The empty line after the new field is the first one of the emitted message.
  lemma FirstEmptyLine(eml: string, field: string, body: string)
    requires SplitEml(eml).Some? && Body.NoBreaks(field) && field != ""
    ensures var header := SplitEml(eml).value.0;
            SplitEml(header + CRLF + field + EMPTY_LINE + body) == Some((header + CRLF + field, body))
  {
    var header := SplitEml(eml).value.0;
    var top := header + CRLF + field;
    var s := top + EMPTY_LINE + body;
    assert OccursAt(s, EMPTY_LINE, |top|);
    forall j | 0 <= j < |top|
      ensures !OccursAt(s, EMPTY_LINE, j)
    {
      NoEarlierEmptyLine(eml, field, body, j);
    }
    CutAt(s, EMPTY_LINE, |top|);
    assert s[..|top|] == top && s[|top| + 4..] == body;
  }

  lemma NoEarlierEmptyLine(eml: string, field: string, body: string, j: nat)
    requires SplitEml(eml).Some? && Body.NoBreaks(field) && field != ""
    requires j < |SplitEml(eml).value.0 + CRLF + field|
    ensures !OccursAt(SplitEml(eml).value.0 + CRLF + field + EMPTY_LINE + body, EMPTY_LINE, j)
  {
    var header := SplitEml(eml).value.0;
    var s := header + CRLF + field + EMPTY_LINE + body;
    var start := |header| + 2;
    assert forall i :: 0 <= i < |field| ==> s[start + i] == field[i];
    if j + 4 <= start {
      ContainsIffOccurs(eml, EMPTY_LINE);
      assert eml[..start] == s[..start];
      assert eml[j..j + 4] == eml[..start][j..j + 4];
      assert s[j..j + 4] == s[..start][j..j + 4];
      assert !OccursAt(eml, EMPTY_LINE, j);
    } else {
      InkPrevents(s, j, if j <= start then start - j else 0);
    }
  }

  // Another character among the next four rules an empty line out.
  lemma InkPrevents(s: string, j: nat, k: nat)
    requires k < 4 && j + k < |s| && s[j + k] != '\r' && s[j + k] != '\n'
    ensures !OccursAt(s, EMPTY_LINE, j)
  {
    if j + 4 <= |s| {
      assert s[j..j + 4][k] == s[j + k] && (EMPTY_LINE[k] == '\r' || EMPTY_LINE[k] == '\n');
    }
  }

  // The printed list with one more field below, and the body.
  function Emitted(list: seq<string>, field: string, body: string): string {
    CanonicalBlock(list + [field], false) + CRLF + body
  }

  lemma EmittedSplits(eml: string, field: string, body: string)
    requires SplitEml(eml).Some? && Body.NoBreaks(field) && field != "" && !Continues(field)
    ensures var header := SplitEml(eml).value.0;
            && SplitEml(Emitted(Fields(header), field, body)) == Some((header + CRLF + field, body))
            && Fields(header + CRLF + field) == Fields(header) + [field]
  {
    var header := SplitEml(eml).value.0;
    FreeOf(field, CRLF);
    FieldsAppend(header, field);
    FieldsPrintBack(header);
    MessageText(Fields(header), field, body);
    FirstEmptyLine(eml, field, body);
  }

  // The parts of a successful signing.
  lemma SignParts(c: Conf, names: seq<string>, crypto: Crypto, eml: string, spare: nat)
    returns (header: string, body: string, c1: Conf, sig: Base64)
    requires SignSpec(c, names, crypto, eml, spare).Ok?
    ensures SplitEml(eml) == Some((header, body))
    ensures c1 == Prepared(c, Fields(header), names, crypto.hash(Body.CanonicalBody(body, RelaxedBodyMode(c))))
    ensures var signed := SignSpec(c, names, crypto, eml, spare).value;
            && signed.conf == c1["b" := sig]
            && signed.block == Block(c1, Fields(header), names)
            && crypto.sign(signed.block) == Some(sig)
            && signed.message == Emitted(Fields(header), SignatureHeader(c1["b" := sig]),
                                         AfterCanonical(body, spare, RelaxedBodyMode(c)))
  {
    header := SplitEml(eml).value.0;
    body := SplitEml(eml).value.1;
    c1 := Prepared(c, Fields(header), names, crypto.hash(Body.CanonicalBody(body, RelaxedBodyMode(c))));
    sig := crypto.sign(Block(c1, Fields(header), names)).value;
  }

  // ----- Fields without line breaks -------------------------------------------

  ghost predicate BreakFree(parts: seq<string>) {
    forall i :: 0 <= i < |parts| ==> Body.NoBreaks(parts[i])
  }

  // No value of the configuration has a CR or LF.
  ghost predicate BreakFreeConf(c: Conf) {
    forall k :: k in c ==> Body.NoBreaks(c[k])
  }

  lemma {:induction false} JoinBreakFree(parts: seq<string>, sep: string)
    requires BreakFree(parts) && Body.NoBreaks(sep)
    ensures Body.NoBreaks(Join(parts, sep))
  {
    if |parts| > 1 {
      JoinBreakFree(parts[1..], sep);
    }
  }

  lemma {:induction false} PairsBreakFree(c: Conf, keys: seq<string>)
    requires BreakFreeConf(c) && BreakFree(keys)
    ensures BreakFree(Pairs(c, keys))
  {
    if keys != [] {
      PairsBreakFree(c, keys[1..]);
    }
  }

  lemma TagKeysBreakFree()
    ensures BreakFree(KEY_ORDER)
  {
    KeyOrderTags();
    assert forall i :: 0 <= i < |KEY_ORDER| ==> TagKey(KEY_ORDER[i]);
  }

  lemma SignatureBreakFree(c: Conf)
    requires BreakFreeConf(c)
    ensures var f := SignatureHeader(c); Body.NoBreaks(f) && f != "" && !Continues(f)
  {
    TagKeysBreakFree();
    PairsBreakFree(c, KEY_ORDER);
    JoinBreakFree(Pairs(c, KEY_ORDER), "; ");
    SignatureKeyPlain(SIGNATURE_KEY);
    PlainHeader(SIGNATURE_KEY, Render(c));
  }

  lemma PlainHeader(key: string, value: string)
    requires key != "" && Visible(key) && !Continues(key) && Body.NoBreaks(value)
    ensures var f := NewHeader(key, value); Body.NoBreaks(f) && f != "" && !Continues(f)
  {
  }

  lemma {:induction false} GetKey(list: seq<string>, name: string)
    ensures Get(list, name) != "" ==> Key(Get(list, name), true) == ToLower(name)
  {
    if list != [] {
      GetKey(list[1..], name);
    }
  }

  lemma LowerBreaks(a: string, b: string)
    requires ToLower(a) == ToLower(b) && Body.NoBreaks(b)
    ensures Body.NoBreaks(a)
  {
    ToLowerAt(a);
    ToLowerAt(b);
    forall i | 0 <= i < |a|
      ensures a[i] != '\r' && a[i] != '\n'
    {
      assert LowerChar(a[i]) == LowerChar(b[i]);
    }
  }

  lemma NameBreakFree(field: string, name: string)
    requires Key(field, true) == ToLower(name) && Body.NoBreaks(name)
    ensures BreakFree(NameOf(field))
  {
    LowerBreaks(Key(field, false), name);
  }

  // The names that go into h= are as free of line breaks as the signable names.
  lemma {:induction false} SelectedBreakFree(list: seq<string>, names: seq<string>)
    requires BreakFree(names)
    ensures BreakFree(Names(Selected(list, names)))
  {
    if names != [] {
      SelectedBreakFree(list, names[1..]);
      var h := Get(list, names[0]);
      var rest := Selected(list, names[1..]);
      if h != "" {
        GetKey(list, names[0]);
        NameBreakFree(h, names[0]);
        assert ([h] + rest)[1..] == rest;
      } else {
        assert Selected(list, names) == rest;
      }
    }
  }

  lemma PreparedBreakFree(c: Conf, list: seq<string>, names: seq<string>, bh: Base64, sig: Base64)
    requires BreakFreeConf(c) && BreakFree(names)
    ensures BreakFreeConf(Prepared(c, list, names, bh)["b" := sig])
  {
    SelectedBreakFree(list, names);
    JoinBreakFree(Names(Selected(list, names)), ":");
  }

  // Signing adds one field to the header block and keeps the body but for the
  // in-place write, whatever the tag values are, if only they have no line break.
  lemma SigningIsNonDestructive(c: Conf, names: seq<string>, crypto: Crypto, eml: string, spare: nat)
    requires BreakFreeConf(c) && BreakFree(names) && SplitEml(eml).Some?
    ensures SignSpec(c, names, crypto, eml, spare).Ok? ==>
              var (header, body) := SplitEml(eml).value;
              var signed := SignSpec(c, names, crypto, eml, spare).value;
              var field := SignatureHeader(signed.conf);
              && SplitEml(signed.message)
                 == Some((header + CRLF + field, AfterCanonical(body, spare, RelaxedBodyMode(c))))
              && Fields(header + CRLF + field) == Fields(header) + [field]
  {
    hide SignatureHeader, Emitted, Prepared;
    if SignSpec(c, names, crypto, eml, spare).Ok? {
      var header, body, c1, sig := SignParts(c, names, crypto, eml, spare);
      PreparedBreakFree(c, Fields(header), names, crypto.hash(Body.CanonicalBody(body, RelaxedBodyMode(c))), sig);
      SignatureBreakFree(c1["b" := sig]);
      EmittedSplits(eml, SignatureHeader(c1["b" := sig]), AfterCanonical(body, spare, RelaxedBodyMode(c)));
    }
  }

  lemma MessageText(list: seq<string>, field: string, body: string)
    requires list != []
    ensures CanonicalBlock(list + [field], false) + CRLF + body
            == Join(list, CRLF) + CRLF + field + EMPTY_LINE + body
  {
    assert CanonicalAll(list + [field], false) == list + [field];
    JoinAppend(list, field, CRLF);
    assert CRLF + CRLF == EMPTY_LINE;
  }

  // The body comes through unchanged in exactly the harmless cases.
  lemma BodyKeptIff(c: Conf, names: seq<string>, crypto: Crypto, eml: string, spare: nat)
    requires BreakFreeConf(c) && BreakFree(names) && !RelaxedBodyMode(c) && SplitEml(eml).Some?
    ensures SignSpec(c, names, crypto, eml, spare).Ok? ==>
              var body := SplitEml(eml).value.1;
              var tail := body[Body.Keep(body)..];
              var emitted := SplitEml(SignSpec(c, names, crypto, eml, spare).value.message);
              (emitted.Some? && emitted.value.1 == body) <==>
              (body == "" || Body.Keep(body) + 2 > |body| + spare || tail == "" || tail == "\r"
               || StartsWith(tail, CRLF))
  {
    if SignSpec(c, names, crypto, eml, spare).Ok? {
      SigningIsNonDestructive(c, names, crypto, eml, spare);
      UnchangedIff(SplitEml(eml).value.1, spare);
    }
  }

  // ----- The body hash --------------------------------------------------------

  // Bodies whose simple canonical form a verifier finds again: after the last
  // byte outside CR, LF and space there is nothing, or two bytes (which signing
  // makes a line break) and whole line breaks.
  predicate BodyAgrees(body: string) {
    var tail := body[Body.Keep(body)..];
    if Body.Core(body) == "" then Body.StripCrlfs(body) == body
    else tail == "" || (|tail| >= 2 && Body.StripCrlfs(tail[2..]) == "")
  }

  lemma {:induction false} StripAfterBreak(r: string)
    ensures Body.StripCrlfs(CRLF + r) == "" <==> Body.StripCrlfs(r) == ""
    decreases |r|
  {
    var t := CRLF + r;
    if |r| >= 2 {
      assert t[|t| - 2..] == r[|r| - 2..];
      assert t[..|t| - 2] == CRLF + r[..|r| - 2];
      if r[|r| - 2..] == CRLF {
        StripAfterBreak(r[..|r| - 2]);
      }
    } else if |r| == 1 {
      assert t[|t| - 2..][0] == '\n';
    } else {
      assert t[|t| - 2..] == CRLF && t[..|t| - 2] == "";
    }
  }

  // What signing leaves of a body with a visible byte.
  lemma AfterSimpleParts(body: string, spare: nat)
    requires Body.Core(body) != ""
    ensures var k := Body.Keep(body); var tail := body[k..];
            AfterSimple(body, spare) == body[..k]
              + if |tail| >= 2 then CRLF + tail[2..]
                else if |tail| == 1 then (if spare == 0 then tail else "\r") else ""
  {
  }

  lemma StripFromCore(body: string, rest: string)
    requires Body.Core(body) != ""
    ensures var core := body[..Body.Keep(body)];
            Body.RfcSimpleBody(core + rest) == core + CRLF <==> Body.StripCrlfs(rest) == ""
  {
    TrimRightParts(body, Body.TRAILING);
    var core := body[..Body.Keep(body)];
    Body.StripKeepsCore(core, rest);
    Body.SamePrefix(core + Body.StripCrlfs(rest), core, CRLF);
    if Body.StripCrlfs(rest) != "" {
      assert |core + Body.StripCrlfs(rest)| > |core|;
    }
  }

  // The verifier's simple body of the emitted bytes is the one that was hashed
  // exactly for these bodies, whatever capacity lies behind them.
  lemma BodyBytesAgreeIff(body: string, spare: nat)
    ensures Body.RfcSimpleBody(AfterSimple(body, spare)) == Body.SimpleBody(body) <==> BodyAgrees(body)
  {
    hide Body.StripCrlfs;
    TrimRightParts(body, Body.TRAILING);
    if Body.Core(body) == "" {
      assert body[..Body.Keep(body)] == body && AfterSimple(body, spare) == body;
      Body.SamePrefix(Body.StripCrlfs(body), body, CRLF);
      EmptyStrips();
    } else {
      var tail := body[Body.Keep(body)..];
      AfterSimpleParts(body, spare);
      var rest := if |tail| >= 2 then CRLF + tail[2..]
                  else if |tail| == 1 then (if spare == 0 then tail else "\r") else "";
      StripFromCore(body, rest);
      StripAfterBreak(if |tail| >= 2 then tail[2..] else "");
      EmptyStrips();
      if |tail| == 1 {
        OneByteStays(rest);
      }
    }
  }

  lemma EmptyStrips()
    ensures Body.StripCrlfs("") == ""
  {
  }

  lemma OneByteStays(s: string)
    requires |s| == 1
    ensures Body.StripCrlfs(s) == s
  {
  }

  // A verifier hashes the bytes behind bh= exactly for these bodies.
  lemma BodyHashAgreesIff(c: Conf, names: seq<string>, crypto: Crypto, eml: string, spare: nat)
    requires BreakFreeConf(c) && BreakFree(names) && !RelaxedBodyMode(c) && SplitEml(eml).Some?
    ensures SignSpec(c, names, crypto, eml, spare).Ok? ==>
              var body := SplitEml(eml).value.1;
              var signed := SignSpec(c, names, crypto, eml, spare).value;
              && SplitEml(signed.message).Some?
              && "bh" in signed.conf && signed.conf["bh"] == crypto.hash(Body.SimpleBody(body))
              && (Body.RfcSimpleBody(SplitEml(signed.message).value.1) == Body.SimpleBody(body) <==> BodyAgrees(body))
  {
    hide BreakFreeConf, BreakFree, BodyAgrees, SignatureHeader, Body.RfcSimpleBody, Body.SimpleBody, Emitted;
    SigningIsNonDestructive(c, names, crypto, eml, spare);
    BodyBytesAgreeIff(SplitEml(eml).value.1, spare);
  }

  // ----- The configurations of a signing --------------------------------------

  lemma TokenIsSafe(name: string)
    requires Token(name)
    ensures SafeText(name)
  {
  }

  lemma SafeJoined(a: string, b: string)
    requires SafeText(a) && SafeText(b)
    ensures SafeText(a + ":" + b)
  {
  }

  lemma {:induction false} NamesAreSafe(names: seq<string>)
    requires forall i :: 0 <= i < |names| ==> Token(names[i])
    ensures SafeText(Join(names, ":"))
  {
    if names != [] {
      hide Token;
      TokenIsSafe(names[0]);
      NamesAreSafe(names[1..]);
      SafeJoined(names[0], Join(names[1..], ":"));
    }
  }

  lemma HashIsSafe(s: Base64)
    ensures SafeText(s)
  {
  }

  lemma SelectedNamesAreTokens(list: seq<string>, names: seq<string>)
    requires forall i :: 0 <= i < |names| ==> Token(names[i])
    ensures forall i :: 0 <= i < |Names(Selected(list, names))| ==> Token(Names(Selected(list, names))[i])
  {
    NamesOfSelected(list, names);
  }

  lemma ConfsAreSafe(c: Conf, list: seq<string>, names: seq<string>, bh: Base64, sig: Base64)
    requires (forall k :: k in c ==> SafeText(c[k])) && "b" in c
    requires forall i :: 0 <= i < |names| ==> Token(names[i])
    ensures var c1 := Prepared(c, list, names, bh); var c2 := c1["b" := sig];
            && (forall k :: k in c1 ==> SafeText(c1[k])) && (forall k :: k in c2 ==> SafeText(c2[k]))
            && "b" in c1 && "b" in c2 && c1["b"] == c["b"] && "h" in c2
            && c2["h"] == Join(Names(Selected(list, names)), ":")
  {
    SelectedNamesAreTokens(list, names);
    NamesAreSafe(Names(Selected(list, names)));
    HashIsSafe(bh);
    HashIsSafe(sig);
  }

  // ----- Canonical lines ------------------------------------------------------

  predicate Solid(s: string) {
    s != "" && s[0] !in SPACE && s[|s| - 1] !in SPACE
  }

  lemma CanonicalIsSolid(field: string)
    ensures Solid(Canonical(field, true))
  {
    hide ToLower, Collapse, Trim, NamePart, ValuePart;
    var raw := TrimSpace(NamePart(field));
    var _, _ := TrimParts(NamePart(field), SPACE);
    ToLowerAt(raw);
    var _, _ := TrimParts(Collapse(ValuePart(field), RE_SPACE), SPACE);
  }

  lemma TrimmedBlock(lines: seq<string>)
    requires lines != [] && forall i :: 0 <= i < |lines| ==> Solid(lines[i])
    ensures TrimSpace(Join(lines, CRLF) + CRLF) == Join(lines, CRLF)
  {
    JoinIsSolid(lines);
    TrimLineEnd(Join(lines, CRLF));
  }

  lemma TrimLineEnd(s: string)
    requires Solid(s)
    ensures TrimSpace(s + CRLF) == s
  {
    TrimExact("", s, CRLF, SPACE);
    assert "" + s + CRLF == s + CRLF;
  }

  lemma {:induction false} JoinIsSolid(lines: seq<string>)
    requires lines != [] && forall i :: 0 <= i < |lines| ==> Solid(lines[i])
    ensures Solid(Join(lines, CRLF))
  {
    if |lines| > 1 {
      JoinIsSolid(lines[1..]);
    }
  }

  // The canonical form of a field with a usable name is one line.
  lemma CanonicalIsOneLine(field: string, name: string)
    requires Token(name) && Key(field, true) == ToLower(name)
    ensures !Contains(Canonical(field, true), CRLF)
  {
    LowerTwice(name);
    LowerToken(ToLower(name), name);
    ValueIsOneLine(field);
    assert '\r' !in Key(field, true) + ":" + Value(field, true);
    FreeOf(Canonical(field, true), CRLF);
  }

  lemma ValueIsOneLine(field: string)
    ensures '\r' !in Value(field, true)
  {
    var value := Collapse(ValuePart(field), RE_SPACE);
    CollapseLeavesSpaces(ValuePart(field), RE_SPACE);
    assert '\r' !in value;
    var before, after := TrimParts(value, SPACE);
    assert forall i :: 0 <= i < |TrimSpace(value)| ==> TrimSpace(value)[i] == value[|before| + i];
  }

  lemma LowerTwice(s: string)
    ensures ToLower(ToLower(s)) == ToLower(s)
  {
  }

  lemma CanonicalLinesFree(fields: seq<string>)
    requires forall f :: f in fields ==> Usable(f)
    ensures AllFree(CanonicalAll(fields, true), CRLF)
    ensures forall i :: 0 <= i < |fields| ==> Solid(CanonicalAll(fields, true)[i])
  {
    forall i | 0 <= i < |fields|
      ensures !Contains(CanonicalAll(fields, true)[i], CRLF) && Solid(CanonicalAll(fields, true)[i])
    {
      assert Usable(fields[i]);
      var name :| Token(name) && Key(fields[i], true) == ToLower(name);
      CanonicalIsOneLine(fields[i], name);
      CanonicalIsSolid(fields[i]);
    }
  }

  ghost predicate Usable(field: string) {
    exists name :: Token(name) && Key(field, true) == ToLower(name)
  }

  lemma {:induction false} SelectedUsable(list: seq<string>, names: seq<string>)
    requires forall i :: 0 <= i < |names| ==> Token(names[i])
    ensures forall f :: f in Selected(list, names) ==> Usable(f) && f in list
  {
    if names != [] {
      SelectedUsable(list, names[1..]);
      GetFacts(list, names[0]);
    }
  }

  lemma {:induction false} PickFieldIn(list: seq<string>, name: string)
    ensures PickField(list, name, 0) != "" ==> PickField(list, name, 0) in list
  {
    if list != [] {
      PickFieldIn(list[..|list| - 1], name);
      assert list == list[..|list| - 1] + [list[|list| - 1]];
    }
  }

  lemma {:induction false} PickedIn(list: seq<string>, names: seq<string>)
    ensures forall f :: f in Picked(list, names) ==> f in list
  {
    if names != [] {
      PickFieldIn(list, names[0]);
      PickedIn(list, names[1..]);
    }
  }

  // The verifier's lines, too, are lines, whatever the header block is.
  lemma RfcLinesFree(header: string, names: seq<string>)
    ensures AllFree(RfcAll(Picked(Fields(header), names)), CRLF)
  {
    var picked := Picked(Fields(header), names);
    PickedIn(Fields(header), names);
    FieldsFold(header);
    forall i | 0 <= i < |picked|
      ensures !Contains(RfcAll(picked)[i], CRLF)
    {
      assert picked[i] in picked;
      RfcRelaxedIsOneLine(picked[i]);
    }
  }

  lemma SignatureUsable(c: Conf)
    requires (forall k :: k in c ==> SafeText(c[k])) && "b" in c
    ensures Usable(SignatureHeader(c)) && Key(SignatureHeader(c), true) == SIGNATURE_NAME
    ensures CleanField(SignatureHeader(c))
    ensures RfcName(NamePart(SignatureHeader(c))) == SIGNATURE_NAME
  {
    SignatureText(c);
    VisibleLine(SignatureHeader(c));
    SignatureNameTrimmed(NamePart(SignatureHeader(c)));
    SignatureNameIsToken(SIGNATURE_KEY);
    SameNames(SignatureHeader(c), SIGNATURE_KEY);
  }

  lemma LowerIs(name: string, lower: string)
    requires |name| == |lower| && forall i :: 0 <= i < |name| ==> LowerChar(name[i]) == lower[i]
    ensures ToLower(name) == lower
  {
    ToLowerAt(name);
  }

  lemma SignatureNameIsToken(name: string)
    requires name == SIGNATURE_KEY
    ensures Token(name) && ToLower(name) == SIGNATURE_NAME
  {
    SignatureKeyLower(name, SIGNATURE_NAME);
    LowerIs(name, SIGNATURE_NAME);
  }

  lemma SignatureKeyLower(name: string, lower: string)
    requires name == SIGNATURE_KEY && lower == SIGNATURE_NAME
    ensures Token(name)
    ensures |name| == |lower| && forall i :: 0 <= i < |name| ==> LowerChar(name[i]) == lower[i]
  {
  }

  lemma SignatureNameTrimmed(name: string)
    requires name == SIGNATURE_KEY
    ensures ToLower(TrimSpace(name)) == SIGNATURE_NAME
  {
    SolidIsTrimmed(name);
    SignatureNameIsToken(name);
  }

  lemma SolidIsTrimmed(s: string)
    requires Solid(s)
    ensures TrimSpace(s) == s
  {
  }

  // The signer's block is its canonical lines, joined.
  lemma BlockLines(c: Conf, list: seq<string>, names: seq<string>)
    requires (forall k :: k in c ==> SafeText(c[k])) && "b" in c && RelaxedHeaderMode(c)
    ensures Block(c, list, names)
            == Join(CanonicalAll(Selected(list, names), true) + [Canonical(SignatureHeader(c), true)], CRLF)
  {
    hide Canonical, SignatureHeader, Solid, Join, ToLower;
    var fields := Selected(list, names) + [SignatureHeader(c)];
    forall i | 0 <= i < |fields| ensures Solid(Canonical(fields[i], true)) { CanonicalIsSolid(fields[i]); }
    TrimmedBlock(CanonicalAll(fields, true));
    assert CanonicalAll(fields, true)
        == CanonicalAll(Selected(list, names), true) + [Canonical(SignatureHeader(c), true)];
  }

  // Two lists of canonical lines below one signature line.
  lemma BlocksEqualIff(a: seq<string>, b: seq<string>, last: string)
    requires AllFree(a, CRLF) && AllFree(b, CRLF) && !Contains(last, CRLF)
    ensures Join(a + [last], CRLF) == Join(b + [last], CRLF) <==> a == b
  {
    JoinInjective(a + [last], b + [last], CRLF);
    if a + [last] == b + [last] {
      assert a == (a + [last])[..|a|] && b == (b + [last])[..|b|];
    }
  }

  // A well-formed field with a usable name has one relaxed form.
  lemma UsableIsRfc(field: string)
    requires CleanField(field) && Usable(field)
    ensures RfcRelaxed(field) == Canonical(field, true)
  {
    hide RfcRelaxed, Canonical, Key, Token, CleanField;
    var name :| Token(name) && Key(field, true) == ToLower(name);
    SameNames(field, name);
    RelaxedIsRfcIff(field);
  }

  // ----- The agreement theorem ------------------------------------------------

  // What the verifier reads out of an emitted message, whatever its header block is.
  lemma RebuiltBlock(eml: string, names: seq<string>, c1: Conf, c2: Conf, body: string)
    requires SplitEml(eml).Some? && SignableNames(names)
    requires (forall k :: k in c1 ==> SafeText(c1[k])) && (forall k :: k in c2 ==> SafeText(c2[k]))
    requires DifferInB(c1, c2) && "h" in c2
    requires c2["h"] == Join(Names(Selected(Fields(SplitEml(eml).value.0), names)), ":")
    ensures var list := Fields(SplitEml(eml).value.0);
            Rebuild(Emitted(list, SignatureHeader(c2), body))
            == Some(Join(RfcAll(Picked(list, names)) + [Canonical(SignatureHeader(c1), true)], CRLF))
  {
    var list := Fields(SplitEml(eml).value.0);
    var field := SignatureHeader(c2);
    SignatureText(c2);
    VisibleLine(field);
    EmittedSplits(eml, field, body);
    RebuiltLines(list, names, c1, c2);
    SignatureUsable(c1);
    UsableIsRfc(SignatureHeader(c1));
  }

  lemma RebuiltLines(list: seq<string>, names: seq<string>, c1: Conf, c2: Conf)
    requires SignableNames(names) && DifferInB(c1, c2) && "h" in c2
    requires (forall k :: k in c1 ==> SafeText(c1[k])) && (forall k :: k in c2 ==> SafeText(c2[k]))
    requires c2["h"] == Join(Names(Selected(list, names)), ":")
    ensures var field := SignatureHeader(c2);
            && PickFields(list + [field], [], ListedNames(field)) == Picked(list, names)
            && StripSignature(field) == SignatureHeader(c1)
  {
    SignatureUsable(c2);
    SelectedNamesAreTokens(list, names);
    ListedAreNames(c2, Names(Selected(list, names)));
    PickAllIsPicked(list, SignatureHeader(c2), [], names);
    StrippedIsUnsigned(c1, c2);
  }

  // Signed and rebuilt block are the same exactly if the same lines go in.
  lemma SameBlockIff(header: string, names: seq<string>, c1: Conf)
    requires (forall k :: k in c1 ==> SafeText(c1[k])) && "b" in c1 && RelaxedHeaderMode(c1)
    requires forall i :: 0 <= i < |names| ==> Token(names[i])
    ensures var list := Fields(header);
            Block(c1, list, names)
            == Join(RfcAll(Picked(list, names)) + [Canonical(SignatureHeader(c1), true)], CRLF)
            <==> Verifiable(list, names)
  {
    var list := Fields(header);
    BlockLines(c1, list, names);
    SelectedUsable(list, names);
    CanonicalLinesFree(Selected(list, names));
    RfcLinesFree(header, names);
    SignatureLineFree(c1);
    BlocksEqualIff(CanonicalAll(Selected(list, names), true), RfcAll(Picked(list, names)),
                   Canonical(SignatureHeader(c1), true));
    SameListsIff(list, names);
  }

  lemma SignatureLineFree(c1: Conf)
    requires (forall k :: k in c1 ==> SafeText(c1[k])) && "b" in c1
    ensures !Contains(Canonical(SignatureHeader(c1), true), CRLF)
  {
    SignatureUsable(c1);
    var name :| Token(name) && Key(SignatureHeader(c1), true) == ToLower(name);
    CanonicalIsOneLine(SignatureHeader(c1), name);
  }

  // The header block that the verifier rebuilds is the signed one, byte for byte,
  // exactly when the message has no signature yet and of every signable name the
  // topmost field as the code reads it is the bottommost as the standard reads it.
  lemma VerifierAgreesIff(c: Conf, names: seq<string>, crypto: Crypto, eml: string, spare: nat)
    requires SafeConf(c) && SignableNames(names) && SplitEml(eml).Some?
    ensures SignSpec(c, names, crypto, eml, spare).Ok? ==>
              var signed := SignSpec(c, names, crypto, eml, spare).value;
              Rebuild(signed.message) == Some(signed.block)
              <==> Verifiable(Fields(SplitEml(eml).value.0), names)
  {
    if SignSpec(c, names, crypto, eml, spare).Ok? {
      SignedVerifiesIff(c, names, crypto, eml, spare);
    }
  }

  lemma SignedVerifiesIff(c: Conf, names: seq<string>, crypto: Crypto, eml: string, spare: nat)
    requires SafeConf(c) && SignableNames(names) && SignSpec(c, names, crypto, eml, spare).Ok?
    ensures var signed := SignSpec(c, names, crypto, eml, spare).value;
            && SplitEml(eml).Some?
            && (Rebuild(signed.message) == Some(signed.block)
                <==> Verifiable(Fields(SplitEml(eml).value.0), names))
  {
    var header, body, c1, sig := SignParts(c, names, crypto, eml, spare);
    var list := Fields(header);
    ConfsAreSafe(c, list, names, crypto.hash(Body.CanonicalBody(body, RelaxedBodyMode(c))), sig);
    RebuiltBlock(eml, names, c1, c1["b" := sig], AfterCanonical(body, spare, RelaxedBodyMode(c)));
    SameBlockIff(header, names, c1);
  }

  // ----- DKIMSign -------------------------------------------------------------

  function Shape(name: string): int
    requires name != ""
  {
    1000 * |name| + LowerChar(name[0]) as int
  }

  lemma SameLowerSameShape(a: string, b: string)
    requires a != "" && b != "" && ToLower(a) == ToLower(b)
    ensures Shape(a) == Shape(b)
  {
    ToLowerAt(a);
    ToLowerAt(b);
  }

  const STD_SHAPES := [2099, 12099, 4100, 4102, 8114, 7115, 2116, 14100]

  lemma StdShapes(names: seq<string>, i: nat)
    requires names == STD_SIGNABLE_HEADERS && i < |names|
    ensures Token(names[i]) && Shape(names[i]) == STD_SHAPES[i]
  {
  }

  lemma StdApart(names: seq<string>, i: nat, j: nat)
    requires names == STD_SIGNABLE_HEADERS && i < j < |names|
    ensures ToLower(names[i]) != ToLower(names[j])
  {
    StdShapes(names, i);
    StdShapes(names, j);
    ShapesApart(names[i], names[j], i, j);
  }

  lemma ShapesApart(a: string, b: string, i: nat, j: nat)
    requires a != "" && b != "" && i < j < 8 && Shape(a) == STD_SHAPES[i] && Shape(b) == STD_SHAPES[j]
    ensures ToLower(a) != ToLower(b)
  {
    assert STD_SHAPES[i] != STD_SHAPES[j];
    if ToLower(a) == ToLower(b) {
      SameLowerSameShape(a, b);
    }
  }

  lemma StdHeadersSignable()
    ensures SignableNames(STD_SIGNABLE_HEADERS)
  {
    var names := STD_SIGNABLE_HEADERS;
    forall i | 0 <= i < |names| ensures Token(names[i]) { StdShapes(names, i); }
    forall i, j | 0 <= i < j < |names| ensures ToLower(names[i]) != ToLower(names[j]) { StdApart(names, i, j); }
  }

  ghost predicate AllSafe(c: Conf) {
    forall k :: k in c ==> SafeText(c[k])
  }

  lemma PutSafe(c: Conf, k: string, v: string)
    requires AllSafe(c) && SafeText(v)
    ensures AllSafe(c[k := v])
  {
  }

  lemma NewConfIsSafe(domain: string, selector: string, time: string)
    requires domain != "" && selector != "" && SafeText(domain) && SafeText(selector) && SafeText(time)
    ensures SafeConf(NewConf(domain, selector, time).value)
    ensures !RelaxedBodyMode(NewConf(domain, selector, time).value)
  {
    SimpleByDefault(domain, selector, time);
    NewConfAllSafe(domain, selector, time);
    var c := NewConf(domain, selector, time).value;
    assert c["b"] == Lookup(c, "b");
  }

  lemma NewConfAllSafe(domain: string, selector: string, time: string)
    requires domain != "" && selector != "" && SafeText(domain) && SafeText(selector) && SafeText(time)
    ensures AllSafe(NewConf(domain, selector, time).value)
  {
    var c1: Conf := map["v" := "1"];
    var c2 := c1["a" := "rsa-sha256"];
    PutSafe(c1, "a", "rsa-sha256");
    PutSafe(c2, "d", domain);
    var c3 := c2["d" := domain];
    PutSafe(c3, "s", selector);
    var c4 := c3["s" := selector];
    PutSafe(c4, "c", DEFAULT_MODES);
    var c5 := c4["c" := DEFAULT_MODES];
    PutSafe(c5, "q", "dns/txt");
    var c6 := c5["q" := "dns/txt"];
    PutSafe(c6, "t", time);
    var c7 := c6["t" := time];
    PutSafe(c7, "h", "");
    PutSafe(c7["h" := ""], "bh", "");
    PutSafe(c7["h" := ""]["bh" := ""], "b", "");
    assert NewConf(domain, selector, time).value == c7["h" := ""]["bh" := ""]["b" := ""];
  }

  // The message DKIMSign hands to Sign.
  function Outgoing(data: string): string {
    if SignsCopy(data) then ReplaceLf(data) else data
  }

  // ----- A whole verification -------------------------------------------------

  // Two texts that the hash does not tell apart.
  predicate Collide(hash: string -> Base64, x: string, y: string) {
    x != y && hash(x) == hash(y)
  }

  // The verifier finds in bh= the hash the signer put there.
  lemma HashIsTrimmed(s: Base64)
    ensures TrimSpace(s) == s
  {
    TrimmedStays(s);
  }

  lemma ReadsBodyHash(c: Conf, bh: Base64)
    requires (forall k :: k in c ==> SafeText(c[k])) && "b" in c && "bh" in c && c["bh"] == bh
    ensures ListedBodyHash(SignatureHeader(c)) == Some(c["bh"])
  {
    hide SafeText, Render, SignatureHeader, Pairs, Spaced, FindTag, Split, TrimSpace;
    KeyOrderTags();
    SignatureText(c);
    FindTagIn(c, KEY_ORDER, "bh");
    BodyHashIsTag();
    HashIsTrimmed(bh);
  }

  lemma BodyHashIsTag()
    ensures "bh" in KEY_ORDER
  {
    assert KEY_ORDER[7] == "bh";
  }

  // The verifier accepts the emitted message with the block that was signed
  // exactly if the header is verifiable and the body hashes to bh=.
  lemma VerifyIff(c: Conf, names: seq<string>, crypto: Crypto, eml: string, spare: nat)
    requires SafeConf(c) && SignableNames(names) && !RelaxedBodyMode(c)
    requires SplitEml(eml).Some?
    ensures SignSpec(c, names, crypto, eml, spare).Ok? ==>
              var (header, body) := SplitEml(eml).value;
              var signed := SignSpec(c, names, crypto, eml, spare).value;
              Verify(signed.message, crypto.hash) == Some(signed.block)
              <==> && Verifiable(Fields(header), names)
                   && crypto.hash(Body.RfcSimpleBody(AfterSimple(body, spare))) == crypto.hash(Body.SimpleBody(body))
  {
    if SignSpec(c, names, crypto, eml, spare).Ok? {
      SignedVerifyIff(c, names, crypto, eml, spare);
    }
  }

  lemma SignedVerifyIff(c: Conf, names: seq<string>, crypto: Crypto, eml: string, spare: nat)
    requires SafeConf(c) && SignableNames(names) && !RelaxedBodyMode(c)
    requires SignSpec(c, names, crypto, eml, spare).Ok?
    ensures var (header, body) := SplitEml(eml).value;
            var signed := SignSpec(c, names, crypto, eml, spare).value;
            Verify(signed.message, crypto.hash) == Some(signed.block)
            <==> && Verifiable(Fields(header), names)
                 && crypto.hash(Body.RfcSimpleBody(AfterSimple(body, spare))) == crypto.hash(Body.SimpleBody(body))
  {
    hide SignatureHeader, Verifiable, Rebuild, Emitted, SafeText, Body.SimpleBody, Body.RfcSimpleBody;
    var header, body, c1, sig := SignParts(c, names, crypto, eml, spare);
    var c2 := c1["b" := sig];
    var bh := crypto.hash(Body.SimpleBody(body));
    ConfsAreSafe(c, Fields(header), names, bh, sig);
    SignatureText(c2);
    VisibleLine(SignatureHeader(c2));
    EmittedSplits(eml, SignatureHeader(c2), AfterSimple(body, spare));
    ReadsBodyHash(c2, bh);
    SignedVerifiesIff(c, names, crypto, eml, spare);
  }

  // Every message the relay signs verifies, header and body, exactly if it was
  // unsigned and unambiguous and its body ends as BodyAgrees says; a collision
  // of the hash alone could make another body verify.
  lemma RelayedSignatureVerifiesIff(
    repo: map<string, RepoKey>, domain: string, time: string, data: string, spare: nat)
    requires domain in repo && SafeText(repo[domain].domain) && SafeText(repo[domain].selector) && SafeText(time)
    requires SplitEml(Outgoing(data)).Some?
    ensures var (header, body) := SplitEml(Outgoing(data)).value;
            var hash := repo[domain].crypto.hash;
            && DkimSignSpec(repo, domain, time, data, spare).Ok?
            && !Collide(hash, Body.RfcSimpleBody(AfterSimple(body, SpareOf(data, spare))), Body.SimpleBody(body)) ==>
              var signed := DkimSignSpec(repo, domain, time, data, spare).value;
              Verify(signed.message, hash) == Some(signed.block)
              <==> Verifiable(Fields(header), STD_SIGNABLE_HEADERS) && BodyAgrees(body)
  {
    hide SignSpec, SplitEml, Verify, Verifiable, Fields, SafeText, ReplaceLf, BodyAgrees;
    hide Body.SimpleBody, Body.RfcSimpleBody, AfterSimple;
    if DkimSignSpec(repo, domain, time, data, spare).Ok? {
      var key := repo[domain];
      NewConfIsSafe(key.domain, key.selector, time);
      SimpleByDefault(key.domain, key.selector, time);
      StdHeadersSignable();
      VerifyIff(NewConf(key.domain, key.selector, time).value, STD_SIGNABLE_HEADERS, key.crypto,
                Outgoing(data), SpareOf(data, spare));
      BodyBytesAgreeIff(SplitEml(Outgoing(data)).value.1, SpareOf(data, spare));
    }
  }

  // The capacity behind the message that Sign gets: none behind a copy.
  function SpareOf(data: string, spare: nat): nat {
    if SignsCopy(data) then 0 else spare
  }

  // In a well-formed header block only ambiguity is in the way.
  lemma CleanHeaderIff(header: string, names: seq<string>)
    requires CleanHeader(header) && SignableNames(names)
    ensures Verifiable(Fields(header), names) <==> Unambiguous(Fields(header), names)
  {
    FieldsClean(header);
    CleanVerifiableIff(Fields(header), names);
  }

  // At most one field of every signable name, and no signature: the ordinary case.
  predicate EachAtMostOnce(list: seq<string>, names: seq<string>) {
    && (forall f :: f in list ==> Key(f, true) != SIGNATURE_NAME)
    && forall i, j, k :: 0 <= i < j < |list| && 0 <= k < |names| ==>
         !(Key(list[i], true) == ToLower(names[k]) && Key(list[j], true) == ToLower(names[k]))
  }

  lemma OrdinaryMailIsUnambiguous(list: seq<string>, names: seq<string>)
    requires SignableNames(names) && EachAtMostOnce(list, names)
    ensures Unambiguous(list, names)
  {
    forall k | 0 <= k < |names| && Get(list, names[k]) != ""
      ensures UnambiguousName(list, names[k])
    {
      LastIffGet(list, names[k]);
      var i :| 0 <= i < |list| && list[i] == Get(list, names[k]);
      var j :| 0 <= j < |list| && list[j] == Last(list, names[k]);
      assert i == j;
    }
  }

  // A message that already carries a signature never verifies under the new one.
  lemma SecondSignatureFails(c: Conf, names: seq<string>, crypto: Crypto, eml: string, spare: nat, i: nat)
    requires SafeConf(c) && SignableNames(names) && SIGNATURE_KEY in names
    requires SplitEml(eml).Some?
    requires i < |Fields(SplitEml(eml).value.0)|
    requires Key(Fields(SplitEml(eml).value.0)[i], true) == SIGNATURE_NAME
    ensures SignSpec(c, names, crypto, eml, spare).Ok? ==>
              var signed := SignSpec(c, names, crypto, eml, spare).value;
              Rebuild(signed.message) != Some(signed.block)
  {
    VerifierAgreesIff(c, names, crypto, eml, spare);
    var list := Fields(SplitEml(eml).value.0);
    SignatureNameIsToken(SIGNATURE_KEY);
    GetFacts(list, SIGNATURE_KEY);
    assert list[i] in list;
    var k :| 0 <= k < |names| && names[k] == SIGNATURE_KEY;
  }
}
