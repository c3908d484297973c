// The other end of a DKIM signature: a verifier that follows sections 3.4.2,
// 3.5, 3.7 and 5.4.2 of RFC 6376 and rebuilds the signed block from the message
// that Sign emits.
module Verifier {
  import opened Wrappers
  import opened Text
  import opened Headers
  import opened Signing
  import Body
  import SharedBuffer

  // ----- The verifier ---------------------------------------------------------

  // A tag of the tag list: name and value around the first "=".
  function TagName(piece: string): string {
    match Cut(piece, "=")
    case None => TrimSpace(piece)
    case Some((name, _)) => TrimSpace(name)
  }

  function TagValue(piece: string): string {
    match Cut(piece, "=")
    case None => ""
    case Some((_, value)) => TrimSpace(value)
  }

  function FindTag(pieces: seq<string>, name: string): Option<string> {
    if pieces == [] then None
    else if TagName(pieces[0]) == name then Some(TagValue(pieces[0]))
    else FindTag(pieces[1..], name)
  }

  // The field names of the h= tag.
  function ListedNames(field: string): seq<string> {
    match FindTag(Split(ValuePart(field), ";"), "h")
    case None => []
    case Some(h) => if h == "" then [] else Split(h, ":")
  }

  // The value of the b= tag removed, everything else kept as it is.
  function WithoutValue(piece: string): string {
    if TagName(piece) != "b" then piece
    else
      match Cut(piece, "=")
      case None => piece
      case Some((name, _)) => name + "="
  }

  function WithoutValues(pieces: seq<string>): seq<string> {
    if pieces == [] then [] else [WithoutValue(pieces[0])] + WithoutValues(pieces[1..])
  }

  function StripSignature(field: string): string {
    NamePart(field) + ":" + Join(WithoutValues(Split(ValuePart(field), ";")), ";")
  }

  // The field with that name, from the bottom up, skipping as many as were
  // picked before.
  function PickField(fields: seq<string>, name: string, skip: nat): string {
    if fields == [] then ""
    else
      var last, above := fields[|fields| - 1], fields[..|fields| - 1];
      if RfcName(NamePart(last)) != ToLower(name) then PickField(above, name, skip)
      else if skip > 0 then PickField(above, name, skip - 1)
      else last
  }

  // The same choice by the code's keys.
  function PickFrom(fields: seq<string>, name: string, skip: nat): string {
    if fields == [] then ""
    else
      var last, above := fields[|fields| - 1], fields[..|fields| - 1];
      if Key(last, true) != ToLower(name) then PickFrom(above, name, skip)
      else if skip > 0 then PickFrom(above, name, skip - 1)
      else last
  }

  function CountName(names: seq<string>, name: string): nat {
    if names == [] then 0
    else (if ToLower(names[0]) == ToLower(name) then 1 else 0) + CountName(names[1..], name)
  }

  // The fields listed in h=, in that order; names without a field are passed over.
  function PickFields(fields: seq<string>, prior: seq<string>, names: seq<string>): seq<string>
    decreases |names|
  {
    if names == [] then []
    else
      var field := PickField(fields, names[0], CountName(prior, names[0]));
      (if field != "" then [field] else []) + PickFields(fields, prior + [names[0]], names[1..])
  }

  function RfcAll(fields: seq<string>): (r: seq<string>)
    ensures |r| == |fields|
    ensures forall i :: 0 <= i < |fields| ==> r[i] == RfcRelaxed(fields[i])
  {
    if fields == [] then [] else [RfcRelaxed(fields[0])] + RfcAll(fields[1..])
  }

  // Every field with its line break, then the signature field without one.
  function BlockOf(picked: seq<string>, signature: string): string {
    Join(RfcAll(picked) + [RfcRelaxed(signature)], CRLF)
  }

  function Rebuild(message: string): Option<string> {
    match SplitEml(message)
    case None => None
    case Some((header, _)) =>
      var fields := Fields(header);
      FieldsPrintBack(header);
      var signature := fields[|fields| - 1];
      Some(BlockOf(PickFields(fields, [], ListedNames(signature)), StripSignature(signature)))
  }

  // The value of the bh= tag.
  function ListedBodyHash(field: string): Option<string> {
    FindTag(Split(ValuePart(field), ";"), "bh")
  }

  // The whole verification in simple body mode, up to the RSA check: the block
  // to check, if the body hashes to the value of bh=.
  function Verify(message: string, hash: string -> Base64): Option<string> {
    match SplitEml(message)
    case None => None
    case Some((header, body)) =>
      var fields := Fields(header);
      FieldsPrintBack(header);
      if ListedBodyHash(fields[|fields| - 1]) == Some(hash(Body.RfcSimpleBody(body))) then Rebuild(message) else None
  }

  // ----- Characters of names and tags -----------------------------------------

  predicate TokenChar(c: char) {
    '!' <= c <= '~' && c != ';' && c != ':'
  }

  predicate Token(s: string) {
    s != "" && forall i :: 0 <= i < |s| ==> TokenChar(s[i])
  }

  lemma LowerToken(s: string, t: string)
    requires ToLower(s) == ToLower(t)
    ensures Token(s) <==> Token(t)
  {
    ToLowerAt(s);
    ToLowerAt(t);
    assert forall i :: 0 <= i < |s| ==> LowerChar(s[i]) == LowerChar(t[i]);
    assert forall c :: TokenChar(LowerChar(c)) <==> TokenChar(c);
  }

  lemma FreeOf(s: string, sep: string)
    requires |sep| >= 1 && forall i :: 0 <= i < |s| ==> s[i] != sep[0]
    ensures !Contains(s, sep)
  {
    ContainsIffOccurs(s, sep);
    forall i: nat
      ensures !OccursAt(s, sep, i)
    {
      if i + |sep| <= |s| {
        assert s[i..i + |sep|][0] == s[i];
      }
    }
  }

  lemma TokenSpaced(s: string)
    requires Token(s)
    ensures SingleSpaced(s, RE_SPACE)
  {
  }

  // A usable name is read alike by the code and by the standard.
  lemma SameNames(field: string, name: string)
    requires CleanField(field) && Token(name)
    ensures RfcName(NamePart(field)) == ToLower(name) <==> Key(field, true) == ToLower(name)
    ensures Key(field, true) == ToLower(name) ==> SingleSpaced(TrimSpace(NamePart(field)), RE_SPACE)
  {
    hide RfcName, Collapse, ToLower, Token, CleanField, SingleSpaced, TrimSpace;
    var n := TrimSpace(NamePart(field));
    NameIsRfcIff(field);
    if Key(field, true) == ToLower(name) {
      LowerToken(n, name);
      TokenSpaced(n);
    }
    if RfcName(NamePart(field)) == ToLower(name) {
      LowerToken(Collapse(n, RE_SPACE), name);
      UncollapsedToken(n);
    }
  }

  lemma UncollapsedToken(s: string)
    requires Token(Collapse(s, RE_SPACE))
    ensures SingleSpaced(s, RE_SPACE)
  {
    forall i | 0 <= i < |s|
      ensures s[i] !in RE_SPACE
    {
      if s[i] in RE_SPACE {
        CollapseShowsSpace(s, RE_SPACE, i);
        assert false;
      }
    }
  }

  lemma {:induction false} SamePick(fields: seq<string>, name: string, skip: nat)
    requires Token(name) && forall f :: f in fields ==> CleanField(f)
    ensures PickField(fields, name, skip) == PickFrom(fields, name, skip)
  {
    hide RfcName, Key, Token, CleanField;
    if fields != [] {
      SameNames(fields[|fields| - 1], name);
      SamePick(fields[..|fields| - 1], name, skip);
      if skip > 0 {
        SamePick(fields[..|fields| - 1], name, skip - 1);
      }
    }
  }

  // A signable list: usable names, no two the same up to case.
  predicate SignableNames(names: seq<string>) {
    && (forall i :: 0 <= i < |names| ==> Token(names[i]))
    && (forall i, j :: 0 <= i < j < |names| ==> ToLower(names[i]) != ToLower(names[j]))
  }

  // A configuration as NewConf makes it: safe values, relaxed headers, b= empty.
  predicate SafeConf(c: Conf) {
    && (forall k :: k in c ==> SafeText(c[k]))
    && RelaxedHeaderMode(c)
    && "b" in c && c["b"] == ""
  }

  predicate TagKey(k: string) {
    k != "" && forall i :: 0 <= i < |k| ==> 'a' <= k[i] <= 'z'
  }

  lemma KeyOrderTags()
    ensures forall i :: 0 <= i < |KEY_ORDER| ==> TagKey(KEY_ORDER[i])
    ensures "b" in KEY_ORDER && "h" in KEY_ORDER
  {
  }

  // ----- The signature field as text ------------------------------------------

  function Spaced(pairs: seq<string>): (r: seq<string>)
    ensures |r| == |pairs|
  {
    if pairs == [] then [] else [" " + pairs[0]] + Spaced(pairs[1..])
  }

  lemma {:induction false} JoinSpaced(pairs: seq<string>)
    requires pairs != []
    ensures " " + Join(pairs, "; ") == Join(Spaced(pairs), ";")
  {
    if |pairs| > 1 {
      JoinSpaced(pairs[1..]);
      var rest := Join(pairs[1..], "; ");
      assert Spaced(pairs)[1..] == Spaced(pairs[1..]);
      assert pairs[0] + "; " + rest == pairs[0] + ";" + (" " + rest);
      assert " " + (pairs[0] + ";" + (" " + rest)) == (" " + pairs[0]) + ";" + (" " + rest);
    }
  }

  ghost predicate SafeKeys(c: Conf, keys: seq<string>) {
    && (forall k :: k in c ==> SafeText(c[k]))
    && (forall i :: 0 <= i < |keys| ==> TagKey(keys[i]))
  }

  lemma PairIsSafe(k: string, v: string)
    requires TagKey(k) && SafeText(v)
    ensures SafeText(k + "=" + v)
  {
  }

  lemma {:induction false} PairsAreSafe(c: Conf, keys: seq<string>)
    requires SafeKeys(c, keys)
    ensures forall i :: 0 <= i < |Pairs(c, keys)| ==> SafeText(Pairs(c, keys)[i])
  {
    if keys != [] {
      PairsAreSafe(c, keys[1..]);
      if keys[0] in c {
        PairIsSafe(keys[0], c[keys[0]]);
      }
    }
  }

  lemma {:induction false} SpacedFree(pairs: seq<string>)
    requires forall i :: 0 <= i < |pairs| ==> SafeText(pairs[i])
    ensures AllFree(Spaced(pairs), ";")
  {
    if pairs != [] {
      FreeOf(" " + pairs[0], ";");
      SpacedFree(pairs[1..]);
    }
  }

  // A line without vertical white space.
  predicate Visible(s: string) {
    forall i :: 0 <= i < |s| ==> s[i] !in VERTICAL
  }

  lemma {:induction false} JoinVisible(pairs: seq<string>)
    requires forall i :: 0 <= i < |pairs| ==> SafeText(pairs[i])
    ensures Visible(Join(pairs, "; "))
  {
    if pairs != [] {
      JoinVisible(pairs[1..]);
    }
  }

  lemma {:induction false} PairsHaveB(c: Conf, keys: seq<string>)
    requires "b" in keys && "b" in c
    ensures Pairs(c, keys) != []
  {
    if keys[0] != "b" {
      PairsHaveB(c, keys[1..]);
    }
  }

  // Name, tags and characters of the signature field.
  lemma SignatureText(c: Conf)
    requires (forall k :: k in c ==> SafeText(c[k])) && "b" in c
    ensures var f := SignatureHeader(c);
            && NamePart(f) == SIGNATURE_KEY
            && ValuePart(f) == " " + Render(c)
            && Split(ValuePart(f), ";") == Spaced(Pairs(c, KEY_ORDER))
            && Pairs(c, KEY_ORDER) != []
            && Visible(f) && f != "" && !Continues(f)
  {
    var pairs := Pairs(c, KEY_ORDER);
    KeyOrderTags();
    PairsAreSafe(c, KEY_ORDER);
    PairsHaveB(c, KEY_ORDER);
    TagsOf(pairs);
    FieldOf(Render(c));
  }

  lemma TagsOf(pairs: seq<string>)
    requires pairs != [] && forall i :: 0 <= i < |pairs| ==> SafeText(pairs[i])
    ensures Split(" " + Join(pairs, "; "), ";") == Spaced(pairs)
    ensures Visible(Join(pairs, "; "))
  {
    JoinSpaced(pairs);
    SpacedFree(pairs);
    SplitJoin(Spaced(pairs), ";");
    JoinVisible(pairs);
  }

  lemma FieldOf(value: string)
    requires Visible(value)
    ensures var f := NewHeader(SIGNATURE_KEY, value);
            && NamePart(f) == SIGNATURE_KEY && ValuePart(f) == " " + value
            && Visible(f) && f != "" && !Continues(f)
  {
    SignatureKeyPlain(SIGNATURE_KEY);
    HeaderParts(SIGNATURE_KEY, value);
  }

  lemma PlainWord(key: string)
    requires key != "" && forall i :: 0 <= i < |key| ==> '-' <= key[i] <= 'u' && key[i] != ':'
    ensures Visible(key) && !Continues(key) && !Contains(key, ":")
  {
    FreeOf(key, ":");
  }

  lemma SignatureKeyPlain(key: string)
    requires key == SIGNATURE_KEY
    ensures key != "" && Visible(key) && !Continues(key) && !Contains(key, ":")
  {
    hide Visible, Continues, Contains, Cut;
    assert forall i :: 0 <= i < |key| ==> '-' <= key[i] <= 'u' && key[i] != ':';
    PlainWord(key);
  }

  lemma HeaderParts(key: string, value: string)
    requires key != "" && !Continues(key) && !Contains(key, ":") && Visible(key) && Visible(value)
    ensures var f := NewHeader(key, value);
            NamePart(f) == key && ValuePart(f) == " " + value && Visible(f) && f != "" && !Continues(f)
  {
    assert NewHeader(key, value) == key + ":" + (" " + value);
    CutAppended(key, ":", " " + value);
  }

  lemma VisibleLine(f: string)
    requires Visible(f)
    ensures !Contains(f, CRLF) && PlainLine(f) && CleanField(f)
  {
    FreeOf(f, CRLF);
    PlainIsClean(f);
  }

  // ----- Removing the signature value -----------------------------------------

  lemma TagOfPair(k: string, v: string)
    requires TagKey(k) && SafeText(v)
    ensures Cut(" " + (k + "=" + v), "=") == Some((" " + k, v))
    ensures TagName(" " + (k + "=" + v)) == k && TagValue(" " + (k + "=" + v)) == TrimSpace(v)
  {
    FreeOf(" " + k, "=");
    CutAppended(" " + k, "=", v);
    assert " " + (k + "=" + v) == (" " + k) + "=" + v;
    TrimExact(" ", k, "", SPACE);
    assert " " + k + "" == " " + k;
  }

  // Only b= differs between the two configurations.
  predicate DifferInB(c1: Conf, c2: Conf) {
    && c1.Keys == c2.Keys && "b" in c1 && c1["b"] == ""
    && forall k :: k in c1 && k != "b" ==> c1[k] == c2[k]
  }

  lemma {:induction false} StripPairs(c1: Conf, c2: Conf, keys: seq<string>)
    requires SafeKeys(c1, keys) && SafeKeys(c2, keys) && DifferInB(c1, c2)
    ensures WithoutValues(Spaced(Pairs(c2, keys))) == Spaced(Pairs(c1, keys))
  {
    if keys != [] {
      var k := keys[0];
      StripPairs(c1, c2, keys[1..]);
      if k in c1 {
        var piece := " " + (k + "=" + c2[k]);
        TagOfPair(k, c2[k]);
        assert WithoutValue(piece) == " " + (k + "=" + c1[k]) by {
          if k == "b" {
            assert " " + k + "=" == " " + (k + "=" + "");
          }
        }
        var rest := Spaced(Pairs(c2, keys[1..]));
        assert Pairs(c2, keys)[1..] == Pairs(c2, keys[1..]);
        assert Pairs(c1, keys)[1..] == Pairs(c1, keys[1..]);
        assert Spaced(Pairs(c2, keys)) == [piece] + rest;
        assert ([piece] + rest)[1..] == rest;
      } else {
        assert Pairs(c2, keys) == Pairs(c2, keys[1..]);
        assert Pairs(c1, keys) == Pairs(c1, keys[1..]);
      }
    }
  }

  // What the verifier hashes of the signature field is what the signer hashed.
  lemma StrippedIsUnsigned(c1: Conf, c2: Conf)
    requires (forall k :: k in c1 ==> SafeText(c1[k])) && (forall k :: k in c2 ==> SafeText(c2[k]))
    requires DifferInB(c1, c2)
    ensures StripSignature(SignatureHeader(c2)) == SignatureHeader(c1)
  {
    KeyOrderTags();
    SignatureText(c2);
    SignatureText(c1);
    StripPairs(c1, c2, KEY_ORDER);
    JoinSpaced(Pairs(c1, KEY_ORDER));
    assert SIGNATURE_KEY + ": " + Render(c1) == SIGNATURE_KEY + ":" + (" " + Render(c1));
  }

  // ----- Reading h= -----------------------------------------------------------

  lemma {:induction false} FindTagIn(c: Conf, keys: seq<string>, name: string)
    requires SafeKeys(c, keys) && name in c
    ensures FindTag(Spaced(Pairs(c, keys)), name) == if name in keys then Some(TrimSpace(c[name])) else None
  {
    if keys != [] {
      var k := keys[0];
      FindTagIn(c, keys[1..], name);
      if k in c {
        var piece := " " + (k + "=" + c[k]);
        TagOfPair(k, c[k]);
        assert Pairs(c, keys)[1..] == Pairs(c, keys[1..]);
        assert Spaced(Pairs(c, keys)) == [piece] + Spaced(Pairs(c, keys[1..]));
        assert ([piece] + Spaced(Pairs(c, keys[1..])))[1..] == Spaced(Pairs(c, keys[1..]));
      } else {
        assert Pairs(c, keys) == Pairs(c, keys[1..]);
      }
    }
  }

  lemma ListedAreNames(c: Conf, names: seq<string>)
    requires (forall k :: k in c ==> SafeText(c[k])) && "b" in c && "h" in c
    requires forall i :: 0 <= i < |names| ==> Token(names[i])
    requires c["h"] == Join(names, ":")
    ensures ListedNames(SignatureHeader(c)) == names
  {
    hide Pairs, Render, SignatureHeader, Spaced, FindTag, SafeText, Join, Split, Token;
    KeyOrderTags();
    SignatureText(c);
    FindTagIn(c, KEY_ORDER, "h");
    TokensJoined(names);
    JoinedIsTrimmed(names);
  }

  // Text that does not begin or end with white space.
  predicate Trimmed(s: string) {
    s != "" ==> s[0] !in SPACE && s[|s| - 1] !in SPACE
  }

  lemma TrimmedStays(s: string)
    requires Trimmed(s)
    ensures TrimSpace(s) == s
  {
    if s != "" {
      TrimExact("", s, "", SPACE);
      assert "" + s + "" == s;
    }
  }

  lemma {:induction false} JoinEnds(names: seq<string>)
    requires names != [] && forall i :: 0 <= i < |names| ==> Token(names[i])
    ensures var s := Join(names, ":"); s != "" && TokenChar(s[0]) && TokenChar(s[|s| - 1])
  {
    if |names| > 1 {
      JoinEnds(names[1..]);
    }
  }

  lemma JoinedIsTrimmed(names: seq<string>)
    requires forall i :: 0 <= i < |names| ==> Token(names[i])
    ensures TrimSpace(Join(names, ":")) == Join(names, ":")
  {
    hide TrimSpace, Token, Join;
    if names != [] {
      JoinEnds(names);
    } else {
      NothingJoined();
    }
    TrimmedStays(Join(names, ":"));
  }

  lemma NothingJoined()
    ensures Join([], ":") == ""
  {
  }

  lemma TokensJoined(names: seq<string>)
    requires forall i :: 0 <= i < |names| ==> Token(names[i])
    ensures (if Join(names, ":") == "" then [] else Split(Join(names, ":"), ":")) == names
  {
    if names != [] {
      forall i | 0 <= i < |names| ensures !Contains(names[i], ":") { FreeOf(names[i], ":"); }
      SplitJoin(names, ":");
      assert |Join(names, ":")| >= |names[0]|;
    }
  }

  // ----- What the signer and the verifier pick --------------------------------

  // The bottommost field of a name.
  function Last(list: seq<string>, name: string): string {
    PickFrom(list, name, 0)
  }

  lemma {:induction false} LastIffGet(list: seq<string>, name: string)
    requires Token(name)
    ensures Last(list, name) == "" <==> Get(list, name) == ""
    ensures Last(list, name) != "" ==> Last(list, name) in list && Key(Last(list, name), true) == ToLower(name)
    ensures Get(list, name) != "" ==> Get(list, name) in list && Key(Get(list, name), true) == ToLower(name)
  {
    GetFacts(list, name);
    LastFacts(list, name);
  }

  lemma {:induction false} GetFacts(list: seq<string>, name: string)
    requires Token(name)
    ensures Get(list, name) != "" ==> Get(list, name) in list && Key(Get(list, name), true) == ToLower(name)
    ensures Get(list, name) == "" ==> forall f :: f in list ==> Key(f, true) != ToLower(name)
  {
    if list != [] {
      GetFacts(list[1..], name);
      assert list == [list[0]] + list[1..];
      if Key(list[0], true) == ToLower(name) {
        NamedNotEmpty(list[0], name);
      }
    }
  }

  lemma {:induction false} LastFacts(list: seq<string>, name: string)
    requires Token(name)
    ensures Last(list, name) != "" ==> Last(list, name) in list && Key(Last(list, name), true) == ToLower(name)
    ensures Last(list, name) == "" ==> forall f :: f in list ==> Key(f, true) != ToLower(name)
  {
    if list != [] {
      var above := list[..|list| - 1];
      LastFacts(above, name);
      assert list == above + [list[|list| - 1]];
      if Key(list[|list| - 1], true) == ToLower(name) {
        NamedNotEmpty(list[|list| - 1], name);
      }
    }
  }

  lemma NamedNotEmpty(field: string, name: string)
    requires Token(name) && Key(field, true) == ToLower(name)
    ensures field != ""
  {
  }

  predicate IsSignatureName(name: string) {
    ToLower(name) == SIGNATURE_NAME
  }

  // What the verifier takes for a signable name that h= lists: the bottommost
  // field of that name, if the standard reads any field so.
  function PickedFor(list: seq<string>, name: string): seq<string> {
    if Get(list, name) == "" || IsSignatureName(name) || PickField(list, name, 0) == "" then []
    else [PickField(list, name, 0)]
  }

  function Picked(list: seq<string>, names: seq<string>): seq<string> {
    if names == [] then [] else PickedFor(list, names[0]) + Picked(list, names[1..])
  }

  // What the signer puts into h= when it goes through these names.
  lemma NameOfSelected(list: seq<string>, name: string)
    requires Token(name) && Get(list, name) != ""
    ensures var f := Get(list, name);
            && Key(f, true) == ToLower(Key(f, false)) == ToLower(name) && Token(Key(f, false))
            && NameOf(f) == if IsSignatureName(name) then [] else [Key(f, false)]
  {
    GetFacts(list, name);
    LowerToken(Key(Get(list, name), false), name);
  }

  lemma {:induction false} NamesOfSelected(list: seq<string>, names: seq<string>)
    requires forall i :: 0 <= i < |names| ==> Token(names[i])
    ensures forall i :: 0 <= i < |Names(Selected(list, names))| ==>
              var n := Names(Selected(list, names))[i];
              Token(n) && exists j :: 0 <= j < |names| && ToLower(n) == ToLower(names[j])
  {
    if names != [] {
      NamesOfSelected(list, names[1..]);
      var h := Get(list, names[0]);
      var rest := Selected(list, names[1..]);
      if h != "" {
        NameOfSelected(list, names[0]);
        assert ([h] + rest)[1..] == rest;
      } else {
        assert Selected(list, names) == rest;
      }
      forall i | 0 <= i < |Names(Selected(list, names))|
        ensures var n := Names(Selected(list, names))[i];
                Token(n) && exists j :: 0 <= j < |names| && ToLower(n) == ToLower(names[j])
      {
        var n := Names(Selected(list, names))[i];
        if h == "" || n in Names(rest) {
          assert n in Names(rest);
          var j :| 0 <= j < |names[1..]| && ToLower(n) == ToLower(names[1..][j]);
          assert ToLower(n) == ToLower(names[j + 1]);
        } else {
          assert ToLower(n) == ToLower(names[0]);
        }
      }
    }
  }

  lemma {:induction false} CountNone(names: seq<string>, name: string)
    requires forall i :: 0 <= i < |names| ==> ToLower(names[i]) != ToLower(name)
    ensures CountName(names, name) == 0
  {
    if names != [] {
      CountNone(names[1..], name);
    }
  }

  lemma PickBelow(list: seq<string>, signature: string, name: string)
    requires RfcName(NamePart(signature)) == SIGNATURE_NAME && ToLower(name) != SIGNATURE_NAME
    ensures PickField(list + [signature], name, 0) == PickField(list, name, 0)
  {
  }

  lemma {:induction false} PickSame(list: seq<string>, a: string, b: string, skip: nat)
    requires ToLower(a) == ToLower(b)
    ensures PickField(list, a, skip) == PickField(list, b, skip)
  {
    hide RfcName, NamePart;
    if list != [] {
      var above := list[..|list| - 1];
      PickSame(above, a, b, skip);
      if skip > 0 {
        PickSame(above, a, b, skip - 1);
      }
    }
  }

  // No name of the one list is a name of the other.
  predicate Apart(prior: seq<string>, names: seq<string>) {
    forall i, j :: 0 <= i < |prior| && 0 <= j < |names| ==> ToLower(prior[i]) != ToLower(names[j])
  }

  // Going through h= bottom up finds the bottommost field of each listed name.
  lemma {:induction false} PickAllIsPicked(
    list: seq<string>, signature: string, prior: seq<string>, names: seq<string>)
    requires RfcName(NamePart(signature)) == SIGNATURE_NAME && SignableNames(names) && Apart(prior, names)
    ensures PickFields(list + [signature], prior, Names(Selected(list, names))) == Picked(list, names)
    decreases |names|
  {
    if names != [] {
      FewerSignable(names);
      if Get(list, names[0]) == "" || IsSignatureName(names[0]) {
        ApartRest(prior, names);
        PickAllIsPicked(list, signature, prior, names[1..]);
        PickUnlisted(list, signature, prior, names);
      } else {
        NameOfSelected(list, names[0]);
        StillApart(prior, Key(Get(list, names[0]), false), names);
        PickAllIsPicked(list, signature, prior + [Key(Get(list, names[0]), false)], names[1..]);
        PickListed(list, signature, prior, names);
      }
    }
  }

  lemma ApartRest(prior: seq<string>, names: seq<string>)
    requires names != [] && Apart(prior, names)
    ensures Apart(prior, names[1..])
  {
  }

  lemma PickUnlisted(list: seq<string>, signature: string, prior: seq<string>, names: seq<string>)
    requires names != [] && Token(names[0])
    requires Get(list, names[0]) == "" || IsSignatureName(names[0])
    requires PickFields(list + [signature], prior, Names(Selected(list, names[1..]))) == Picked(list, names[1..])
    ensures PickFields(list + [signature], prior, Names(Selected(list, names))) == Picked(list, names)
  {
    FirstName(list, names);
    assert [] + Names(Selected(list, names[1..])) == Names(Selected(list, names[1..]));
    assert [] + Picked(list, names[1..]) == Picked(list, names[1..]);
  }

  lemma StillApart(prior: seq<string>, n: string, names: seq<string>)
    requires names != [] && SignableNames(names) && Apart(prior, names) && ToLower(n) == ToLower(names[0])
    ensures Apart(prior + [n], names[1..])
  {
  }

  lemma PickListed(list: seq<string>, signature: string, prior: seq<string>, names: seq<string>)
    requires RfcName(NamePart(signature)) == SIGNATURE_NAME
    requires names != [] && Token(names[0]) && Apart(prior, names)
    requires Get(list, names[0]) != "" && !IsSignatureName(names[0])
    requires PickFields(list + [signature], prior + [Key(Get(list, names[0]), false)],
                        Names(Selected(list, names[1..])))
             == Picked(list, names[1..])
    ensures PickFields(list + [signature], prior, Names(Selected(list, names))) == Picked(list, names)
  {
    var n := Key(Get(list, names[0]), false);
    FirstName(list, names);
    PickOne(list, signature, prior, names[0], Get(list, names[0]));
    PickAllHead(list + [signature], prior, n, Names(Selected(list, names[1..])));
  }

  lemma FewerSignable(names: seq<string>)
    requires SignableNames(names) && names != []
    ensures SignableNames(names[1..])
    ensures forall j :: 0 <= j < |names[1..]| ==> ToLower(names[0]) != ToLower(names[1..][j])
  {
  }

  lemma PickAllHead(fields: seq<string>, prior: seq<string>, n: string, names: seq<string>)
    ensures var f := PickField(fields, n, CountName(prior, n));
            PickFields(fields, prior, [n] + names)
            == (if f != "" then [f] else []) + PickFields(fields, prior + [n], names)
  {
  }

  // How the first signable name contributes to h= and to what is picked.
  lemma FirstName(list: seq<string>, names: seq<string>)
    requires names != [] && Token(names[0])
    ensures var listed := Get(list, names[0]) != "" && !IsSignatureName(names[0]);
            && Names(Selected(list, names))
               == (if listed then [Key(Get(list, names[0]), false)] else []) + Names(Selected(list, names[1..]))
            && Picked(list, names)
               == (if listed then PickedFor(list, names[0]) else []) + Picked(list, names[1..])
  {
    var h, rest := Get(list, names[0]), Selected(list, names[1..]);
    if h == "" {
      assert Selected(list, names) == rest;
    } else {
      NameOfSelected(list, names[0]);
      assert ([h] + rest)[1..] == rest;
    }
  }

  lemma PickOne(list: seq<string>, signature: string, prior: seq<string>, name: string, h: string)
    requires RfcName(NamePart(signature)) == SIGNATURE_NAME && Token(name) && !IsSignatureName(name)
    requires h == Get(list, name) && h != ""
    requires forall i :: 0 <= i < |prior| ==> ToLower(prior[i]) != ToLower(name)
    ensures var n := Key(h, false);
            PickField(list + [signature], n, CountName(prior, n)) == PickField(list, name, 0)
  {
    var n := Key(h, false);
    NameOfSelected(list, name);
    CountNone(prior, n);
    PickBelow(list, signature, n);
    PickSame(list, n, name, 0);
  }

  // ----- When both take the same ----------------------------------------------

  // The name is not that of a signature, the standard finds a field of that name,
  // and its form of the bottommost one is the code's form of the topmost.
  predicate VerifiableName(list: seq<string>, name: string) {
    Get(list, name) != "" ==>
      && !IsSignatureName(name) && PickField(list, name, 0) != ""
      && RfcRelaxed(PickField(list, name, 0)) == Canonical(Get(list, name), true)
  }

  predicate Verifiable(list: seq<string>, names: seq<string>) {
    forall i :: 0 <= i < |names| ==> VerifiableName(list, names[i])
  }

  lemma {:induction false} PickedIsShorter(list: seq<string>, names: seq<string>)
    ensures |Picked(list, names)| <= |Selected(list, names)|
  {
    if names != [] {
      PickedIsShorter(list, names[1..]);
    }
  }

  // The lines that are signed and the lines that are verified.
  lemma {:induction false} SameListsIff(list: seq<string>, names: seq<string>)
    ensures CanonicalAll(Selected(list, names), true) == RfcAll(Picked(list, names)) <==> Verifiable(list, names)
  {
    hide Canonical, RfcRelaxed, IsSignatureName;
    if names != [] {
      var name, rest := names[0], names[1..];
      SameListsIff(list, rest);
      VerifiableSplit(list, names);
      PickedIsShorter(list, rest);
      var h := Get(list, name);
      var s, p := Selected(list, rest), Picked(list, rest);
      if h == "" {
        assert Selected(list, names) == s && Picked(list, names) == p;
      } else if PickedFor(list, name) == [] {
        assert Selected(list, names) == [h] + s && Picked(list, names) == p;
      } else {
        SamePrepended(h, s, PickField(list, name, 0), p);
      }
    }
  }

  lemma SamePrepended(h: string, s: seq<string>, l: string, p: seq<string>)
    ensures CanonicalAll([h] + s, true) == RfcAll([l] + p)
            <==> Canonical(h, true) == RfcRelaxed(l) && CanonicalAll(s, true) == RfcAll(p)
  {
    hide Canonical, RfcRelaxed;
  }

  lemma VerifiableSplit(list: seq<string>, names: seq<string>)
    requires names != []
    ensures Verifiable(list, names) <==> VerifiableName(list, names[0]) && Verifiable(list, names[1..])
  {
    hide VerifiableName;
    assert forall i :: 0 < i < |names| ==> names[i] == names[1..][i - 1];
  }

  // The message carries no signature of its own, and where a signable name
  // occurs more than once, its first and last field canonicalise alike.
  predicate Unambiguous(list: seq<string>, names: seq<string>) {
    forall i :: 0 <= i < |names| ==> UnambiguousName(list, names[i])
  }

  predicate UnambiguousName(list: seq<string>, name: string) {
    Get(list, name) != "" ==>
      !IsSignatureName(name) && Canonical(Get(list, name), true) == Canonical(Last(list, name), true)
  }

  // In well-formed header blocks nothing else is in the way.
  lemma CleanVerifiableIff(list: seq<string>, names: seq<string>)
    requires (forall i :: 0 <= i < |names| ==> Token(names[i])) && forall f :: f in list ==> CleanField(f)
    ensures Verifiable(list, names) <==> Unambiguous(list, names)
  {
    hide VerifiableName, UnambiguousName, Token, CleanField;
    forall i | 0 <= i < |names|
      ensures VerifiableName(list, names[i]) <==> UnambiguousName(list, names[i])
    {
      CleanNameIff(list, names[i]);
    }
  }

  lemma CleanNameIff(list: seq<string>, name: string)
    requires Token(name) && forall f :: f in list ==> CleanField(f)
    ensures VerifiableName(list, name) <==> UnambiguousName(list, name)
  {
    hide Token, CleanField, RfcRelaxed, Canonical, RfcName, Key;
    SamePick(list, name, 0);
    LastIffGet(list, name);
    if Last(list, name) != "" {
      SameNames(Last(list, name), name);
      RelaxedIsRfcIff(Last(list, name));
    }
  }
}
