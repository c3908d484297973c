// The signature field that the relay writes: its text, what a verifier reads from
// it, and the complete verification of a relayed message.
module SignatureField {
  import opened Wrappers
  import opened Text
  import opened Headers
  import opened Signing
  import opened Verifier
  import opened SignerVerifier
  import Body
  import SharedBuffer

  // ----- The text of the field ------------------------------------------------

  function Tag(name: string, value: string): string {
    name + "=" + value
  }

  lemma FirstPair(c: Conf, k: string, keys: seq<string>)
    ensures Pairs(c, [k] + keys) == (if k in c then [Tag(k, c[k])] else []) + Pairs(c, keys)
  {
    assert ([k] + keys)[1..] == keys;
  }

  lemma LastPairs(c: Conf, keys: seq<string>)
    requires keys == ["t", "bh", "h", "z", "i", "l", "b"] && {"t", "bh", "h", "b"} <= c.Keys
    requires "z" !in c && "i" !in c && "l" !in c
    ensures Pairs(c, keys) == [Tag("t", c["t"]), Tag("bh", c["bh"]), Tag("h", c["h"]), Tag("b", c["b"])]
  {
    hide Pairs;
    FirstPair(c, "t", ["bh", "h", "z", "i", "l", "b"]);
    FirstPair(c, "bh", ["h", "z", "i", "l", "b"]);
    FirstPair(c, "h", ["z", "i", "l", "b"]);
    FirstPair(c, "z", ["i", "l", "b"]);
    FirstPair(c, "i", ["l", "b"]);
    FirstPair(c, "l", ["b"]);
    FirstPair(c, "b", []);
    NoPairs(c);
    assert keys == ["t"] + ["bh", "h", "z", "i", "l", "b"];
    assert ["bh", "h", "z", "i", "l", "b"] == ["bh"] + ["h", "z", "i", "l", "b"];
    assert ["h", "z", "i", "l", "b"] == ["h"] + ["z", "i", "l", "b"];
    assert ["z", "i", "l", "b"] == ["z"] + ["i", "l", "b"] && ["i", "l", "b"] == ["i"] + ["l", "b"];
    assert ["l", "b"] == ["l"] + ["b"] && ["b"] == ["b"] + [];
  }

  lemma NoPairs(c: Conf)
    ensures Pairs(c, []) == []
  {
  }

  lemma AllPairs(c: Conf, order: seq<string>)
    requires order == KEY_ORDER && {"v", "a", "c", "d", "q", "s", "t", "bh", "h", "b"} <= c.Keys
    requires "z" !in c && "i" !in c && "l" !in c
    ensures Pairs(c, order)
            == [Tag("v", c["v"]), Tag("a", c["a"]), Tag("c", c["c"]), Tag("d", c["d"]), Tag("q", c["q"])]
               + [Tag("s", c["s"]), Tag("t", c["t"]), Tag("bh", c["bh"]), Tag("h", c["h"]), Tag("b", c["b"])]
  {
    hide Pairs, Tag;
    var last := ["t", "bh", "h", "z", "i", "l", "b"];
    LastPairs(c, last);
    FirstPair(c, "v", ["a", "c", "d", "q", "s"] + last);
    FirstPair(c, "a", ["c", "d", "q", "s"] + last);
    FirstPair(c, "c", ["d", "q", "s"] + last);
    FirstPair(c, "d", ["q", "s"] + last);
    FirstPair(c, "q", ["s"] + last);
    FirstPair(c, "s", last);
    assert order == ["v"] + (["a", "c", "d", "q", "s"] + last);
    assert ["a", "c", "d", "q", "s"] + last == ["a"] + (["c", "d", "q", "s"] + last);
    assert ["c", "d", "q", "s"] + last == ["c"] + (["d", "q", "s"] + last);
    assert ["d", "q", "s"] + last == ["d"] + (["q", "s"] + last);
    assert ["q", "s"] + last == ["q"] + (["s"] + last);
  }

  // A tag list, told field by field.
  function TagText(v: string, a: string, m: string, d: string, q: string, s: string,
                   t: string, bh: string, h: string, b: string): string
  {
    Tag("v", v) + "; " + (Tag("a", a) + "; " + (Tag("c", m) + "; " + (Tag("d", d) + "; " + (Tag("q", q) + "; "
    + (Tag("s", s) + "; " + (Tag("t", t) + "; " + (Tag("bh", bh) + "; " + (Tag("h", h) + "; " + Tag("b", b)))))))))
  }

  lemma JoinTwo(x: string, rest: seq<string>)
    requires rest != []
    ensures Join([x] + rest, "; ") == x + "; " + Join(rest, "; ")
  {
    assert ([x] + rest)[1..] == rest;
  }

  lemma TagsAsText(c: Conf)
    requires {"v", "a", "c", "d", "q", "s", "t", "bh", "h", "b"} <= c.Keys
    requires "z" !in c && "i" !in c && "l" !in c
    ensures Render(c)
            == TagText(c["v"], c["a"], c["c"], c["d"], c["q"], c["s"], c["t"], c["bh"], c["h"], c["b"])
  {
    AllPairs(c, KEY_ORDER);
    var x := Pairs(c, KEY_ORDER);
    hide Pairs, Join;
    JoinTen(x);
  }

  lemma JoinTen(x: seq<string>)
    requires |x| == 10
    ensures Join(x, "; ")
            == x[0] + "; " + (x[1] + "; " + (x[2] + "; " + (x[3] + "; " + (x[4] + "; " + (x[5] + "; "
               + (x[6] + "; " + (x[7] + "; " + (x[8] + "; " + x[9]))))))))
  {
    hide Join;
    JoinFrom(x, 0);
    JoinFrom(x, 1);
    JoinFrom(x, 2);
    JoinFrom(x, 3);
    JoinFrom(x, 4);
    JoinFrom(x, 5);
    JoinFrom(x, 6);
    JoinFrom(x, 7);
    JoinFrom(x, 8);
    JoinOne(x[9]);
    assert x[9..] == [x[9]] && x[0..] == x;
  }

  lemma JoinOne(x: string)
    ensures Join([x], "; ") == x
  {
  }

  lemma JoinFrom(x: seq<string>, i: nat)
    requires i + 1 < |x|
    ensures Join(x[i..], "; ") == x[i] + "; " + Join(x[i + 1..], "; ")
  {
    JoinTwo(x[i], x[i + 1..]);
    assert x[i..] == [x[i]] + x[i + 1..];
  }

  // The configuration of a signature by this key.
  lemma ConfTags(domain: string, selector: string, time: string, bh: string, h: string, b: string)
    requires domain != "" && selector != ""
    ensures NewConf(domain, selector, time).Ok?
    ensures var c := NewConf(domain, selector, time).value["bh" := bh]["h" := h]["b" := b];
            && {"v", "a", "c", "d", "q", "s", "t", "bh", "h", "b"} == c.Keys
            && c["v"] == "1" && c["a"] == "rsa-sha256" && c["c"] == "relaxed/simple" && c["d"] == domain
            && c["q"] == "dns/txt" && c["s"] == selector && c["t"] == time
            && c["bh"] == bh && c["h"] == h && c["b"] == b
  {
  }

  // ----- What a verifier reads ------------------------------------------------

  // The tag of that name, as a verifier reads it from the last field of a message.
  function TagOf(message: string, name: string): Option<string> {
    match SplitEml(message)
    case None => None
    case Some((header, _)) =>
      FieldsPrintBack(header);
      FindTag(Split(ValuePart(Fields(header)[|Fields(header)| - 1]), ";"), name)
  }

  // Where section 3.6.2.1 of RFC 6376 has the verifier look for the key.
  function KeyName(message: string): Option<string> {
    match TagOf(message, "s")
    case None => None
    case Some(selector) =>
      match TagOf(message, "d")
      case None => None
      case Some(domain) => Some(selector + "._domainkey." + domain)
  }

  // The parts of a signature that DKIMSign makes.
  lemma RelayedParts(repo: map<string, RepoKey>, domain: string, time: string, data: string, spare: nat)
    returns (header: string, body: string, c: Conf, sig: Base64)
    requires DkimSignSpec(repo, domain, time, data, spare).Ok?
    ensures domain in repo && repo[domain].domain != "" && repo[domain].selector != ""
    ensures SplitEml(Outgoing(data)) == Some((header, body))
    ensures var key := repo[domain]; var signed := DkimSignSpec(repo, domain, time, data, spare).value;
            var names := Names(Selected(Fields(header), STD_SIGNABLE_HEADERS));
            && c == NewConf(key.domain, key.selector, time).value
                      ["bh" := key.crypto.hash(Body.SimpleBody(body))]["h" := Join(names, ":")]["b" := sig]
            && key.crypto.sign(signed.block) == Some(sig)
            && signed.message == Emitted(Fields(header), SignatureHeader(c),
                                         SharedBuffer.AfterSimple(body, SpareOf(data, spare)))
  {
    hide Block, SplitEml, Fields, Selected, RelaxedHeaderMode, RelaxedBodyMode, ReplaceLf, Emitted;
    var key := repo[domain];
    SimpleByDefault(key.domain, key.selector, time);
    var c1: Conf;
    header, body, c1, sig :=
      SignParts(NewConf(key.domain, key.selector, time).value, STD_SIGNABLE_HEADERS, key.crypto,
                Outgoing(data), SpareOf(data, spare));
    c := c1["b" := sig];
  }

  lemma FieldOfConf(domain: string, selector: string, time: string, bh: string, h: string, b: string)
    requires domain != "" && selector != ""
    ensures var c := NewConf(domain, selector, time).value["bh" := bh]["h" := h]["b" := b];
            SignatureHeader(c)
            == SIGNATURE_KEY + ": "
               + TagText("1", "rsa-sha256", "relaxed/simple", domain, "dns/txt", selector, time, bh, h, b)
  {
    hide NewConf, TagText, Render;
    ConfTags(domain, selector, time, bh, h, b);
    TagsAsText(NewConf(domain, selector, time).value["bh" := bh]["h" := h]["b" := b]);
  }

  // The last field of every relayed message: the whole text of the signature.
  lemma RelayedField(repo: map<string, RepoKey>, domain: string, time: string, data: string, spare: nat)
    requires domain in repo && SafeText(repo[domain].domain) && SafeText(repo[domain].selector) && SafeText(time)
    ensures DkimSignSpec(repo, domain, time, data, spare).Ok? ==>
              var signed := DkimSignSpec(repo, domain, time, data, spare).value;
              var (header, body) := SplitEml(Outgoing(data)).value;
              var key := repo[domain];
              && key.crypto.sign(signed.block).Some?
              && SplitEml(signed.message).Some?
              && Fields(SplitEml(signed.message).value.0) == Fields(header) +
                   [SIGNATURE_KEY + ": "
                    + TagText("1", "rsa-sha256", "relaxed/simple", key.domain, "dns/txt", key.selector, time,
                              key.crypto.hash(Body.SimpleBody(body)),
                              Join(Names(Selected(Fields(header), STD_SIGNABLE_HEADERS)), ":"),
                              key.crypto.sign(signed.block).value)]
  {
    hide SplitEml, Fields, Selected, Names, Emitted, SafeText, TagText, Outgoing, Join, NewConf, SignatureHeader;
    hide Body.SimpleBody, SharedBuffer.AfterSimple, DkimSignSpec;
    if DkimSignSpec(repo, domain, time, data, spare).Ok? {
      var header, body, c, sig := RelayedParts(repo, domain, time, data, spare);
      var key := repo[domain];
      FieldOfConf(key.domain, key.selector, time, key.crypto.hash(Body.SimpleBody(body)),
                  Join(Names(Selected(Fields(header), STD_SIGNABLE_HEADERS)), ":"), sig);
      RelayedConfSafe(repo, domain, time, data, spare, header, body, c, sig);
      SignatureText(c);
      VisibleLine(SignatureHeader(c));
      EmittedSplits(Outgoing(data), SignatureHeader(c), SharedBuffer.AfterSimple(body, SpareOf(data, spare)));
    }
  }

  lemma RelayedConfSafe(repo: map<string, RepoKey>, domain: string, time: string, data: string, spare: nat,
                        header: string, body: string, c: Conf, sig: Base64)
    requires domain in repo && SafeText(repo[domain].domain) && SafeText(repo[domain].selector) && SafeText(time)
    requires repo[domain].domain != "" && repo[domain].selector != ""
    requires var key := repo[domain];
             c == NewConf(key.domain, key.selector, time).value
                    ["bh" := key.crypto.hash(Body.SimpleBody(body))]
                    ["h" := Join(Names(Selected(Fields(header), STD_SIGNABLE_HEADERS)), ":")]["b" := sig]
    ensures (forall k :: k in c ==> SafeText(c[k])) && "b" in c
  {
    hide SafeText, Selected, Names, Fields, Join;
    var key := repo[domain];
    NewConfIsSafe(key.domain, key.selector, time);
    StdHeadersSignable();
    ConfsAreSafe(NewConf(key.domain, key.selector, time).value, Fields(header), STD_SIGNABLE_HEADERS,
                 key.crypto.hash(Body.SimpleBody(body)), sig);
  }

  // And what a verifier reads from it: the key's own domain and selector among them.
  lemma RelayedTags(repo: map<string, RepoKey>, domain: string, time: string, data: string, spare: nat)
    requires domain in repo && SafeText(repo[domain].domain) && SafeText(repo[domain].selector) && SafeText(time)
    ensures DkimSignSpec(repo, domain, time, data, spare).Ok? ==>
              var signed := DkimSignSpec(repo, domain, time, data, spare).value;
              var m := signed.message;
              var key := repo[domain];
              && TagOf(m, "v") == Some("1") && TagOf(m, "a") == Some("rsa-sha256")
              && TagOf(m, "c") == Some("relaxed/simple") && TagOf(m, "q") == Some("dns/txt")
              && TagOf(m, "d") == Some(TrimSpace(key.domain)) && TagOf(m, "s") == Some(TrimSpace(key.selector))
              && TagOf(m, "t") == Some(TrimSpace(time))
              && TagOf(m, "bh") == Some(key.crypto.hash(Body.SimpleBody(SplitEml(Outgoing(data)).value.1)))
              && key.crypto.sign(signed.block).Some? && TagOf(m, "b") == key.crypto.sign(signed.block)
              && KeyName(m) == Some(TrimSpace(key.selector) + "._domainkey." + TrimSpace(key.domain))
  {
    hide SplitEml, Fields, Selected, Names, Emitted, SafeText, Outgoing, Join, FindTag, Split, TrimSpace, NewConf;
    if DkimSignSpec(repo, domain, time, data, spare).Ok? {
      var header, body, c, sig := RelayedParts(repo, domain, time, data, spare);
      var key := repo[domain];
      RelayedConfSafe(repo, domain, time, data, spare, header, body, c, sig);
      SignatureText(c);
      VisibleLine(SignatureHeader(c));
      EmittedSplits(Outgoing(data), SignatureHeader(c), SharedBuffer.AfterSimple(body, SpareOf(data, spare)));
      ConfTags(key.domain, key.selector, time, c["bh"], c["h"], c["b"]);
      TagsRead(c);
      HashIsTrimmed(key.crypto.hash(Body.SimpleBody(body)));
      HashIsTrimmed(sig);
      ConstantsTrimmed();
    }
  }

  lemma TagsRead(c: Conf)
    requires (forall k :: k in c ==> SafeText(c[k])) && {"v", "a", "c", "d", "q", "s", "t", "bh", "b"} <= c.Keys
    ensures var pieces := Split(ValuePart(SignatureHeader(c)), ";");
            forall name :: name in {"v", "a", "c", "d", "q", "s", "t", "bh", "b"} ==>
              FindTag(pieces, name) == Some(TrimSpace(c[name]))
  {
    hide SafeText, Render, SignatureHeader, Pairs, Spaced, FindTag, Split, TrimSpace;
    KeyOrderTags();
    SignatureText(c);
    forall name | name in {"v", "a", "c", "d", "q", "s", "t", "bh", "b"}
      ensures FindTag(Spaced(Pairs(c, KEY_ORDER)), name) == Some(TrimSpace(c[name]))
    {
      OrderHas(KEY_ORDER, name);
      FindTagIn(c, KEY_ORDER, name);
    }
  }

  lemma OrderHas(order: seq<string>, name: string)
    requires order == KEY_ORDER && name in {"v", "a", "c", "d", "q", "s", "t", "bh", "b"}
    ensures name in order
  {
    assert order[0] == "v" && order[1] == "a" && order[2] == "c" && order[3] == "d" && order[4] == "q";
    assert order[5] == "s" && order[6] == "t" && order[7] == "bh" && order[12] == "b";
  }

  lemma ConstantsTrimmed()
    ensures TrimSpace("1") == "1" && TrimSpace("rsa-sha256") == "rsa-sha256"
    ensures TrimSpace("relaxed/simple") == "relaxed/simple" && TrimSpace("dns/txt") == "dns/txt"
  {
    hide TrimSpace;
    TrimmedStays("1");
    TrimmedStays("rsa-sha256");
    TrimmedStays("relaxed/simple");
    TrimmedStays("dns/txt");
  }

  // ----- The signed fields ----------------------------------------------------

  // The names of fields that are signed, in lower case.
  const SIGNED_NAMES: set<string> := {"cc", "content-type", "date", "from", "reply-to", "subject", "to"}

  lemma StdLower(names: seq<string>, i: nat)
    requires names == STD_SIGNABLE_HEADERS && i < |names|
    ensures ToLower(names[i])
            == ["cc", "content-type", "date", "from", "reply-to", "subject", "to", SIGNATURE_NAME][i]
  {
    StdLowerAt(names, i, ["cc", "content-type", "date", "from", "reply-to", "subject", "to", SIGNATURE_NAME]);
    LowerIs(names[i], ["cc", "content-type", "date", "from", "reply-to", "subject", "to", SIGNATURE_NAME][i]);
  }

  lemma StdLowerAt(names: seq<string>, i: nat, lower: seq<string>)
    requires names == STD_SIGNABLE_HEADERS && i < |names|
    requires lower == ["cc", "content-type", "date", "from", "reply-to", "subject", "to", SIGNATURE_NAME]
    ensures |names[i]| == |lower[i]| && forall k :: 0 <= k < |names[i]| ==> LowerChar(names[i][k]) == lower[i][k]
  {
  }

  // A name is listed exactly if it is one of these and the message has it.
  lemma {:induction false} ListedIff(list: seq<string>, names: seq<string>, lower: string)
    requires (forall i :: 0 <= i < |names| ==> Token(names[i])) && lower != SIGNATURE_NAME
    ensures (exists n :: n in Names(Selected(list, names)) && ToLower(n) == lower)
            <==> exists i :: 0 <= i < |names| && ToLower(names[i]) == lower && Get(list, names[i]) != ""
  {
    hide ToLower, Token, Get, Key;
    if names != [] {
      ListedIff(list, names[1..], lower);
      FirstName(list, names);
      FirstListed(list, names, lower);
      FirstPresent(list, names, lower);
    }
  }

  lemma FirstPresent(list: seq<string>, names: seq<string>, lower: string)
    requires names != []
    ensures (exists i :: 0 <= i < |names| && ToLower(names[i]) == lower && Get(list, names[i]) != "") <==>
            || (ToLower(names[0]) == lower && Get(list, names[0]) != "")
            || (exists i :: 0 <= i < |names[1..]| && ToLower(names[1..][i]) == lower
                            && Get(list, names[1..][i]) != "")
  {
    hide ToLower, Get;
    forall i | 0 < i < |names| ensures names[i] == names[1..][i - 1] {}
    forall i | 0 <= i < |names[1..]| ensures names[1..][i] == names[i + 1] {}
  }

  lemma FirstListed(list: seq<string>, names: seq<string>, lower: string)
    requires names != [] && Token(names[0]) && lower != SIGNATURE_NAME
    ensures var first := Get(list, names[0]) != "" && !IsSignatureName(names[0]);
            && (first && ToLower(names[0]) == lower <==> Get(list, names[0]) != "" && ToLower(names[0]) == lower)
            && (first ==> ToLower(Key(Get(list, names[0]), false)) == ToLower(names[0]))
  {
    if Get(list, names[0]) != "" {
      NameOfSelected(list, names[0]);
    }
  }

  // The names in h= are, up to letter case, those of the seven signed kinds of
  // fields that the message has.
  lemma SignedFieldsIff(list: seq<string>, lower: string)
    ensures lower in SIGNED_NAMES ==>
              ((exists n :: n in Names(Selected(list, STD_SIGNABLE_HEADERS)) && ToLower(n) == lower)
               <==> exists f :: f in list && Key(f, true) == lower)
    ensures forall n :: n in Names(Selected(list, STD_SIGNABLE_HEADERS)) ==>
              ToLower(n) in SIGNED_NAMES
  {
    hide ToLower, Token, Get, Key, Names, Selected;
    var names := STD_SIGNABLE_HEADERS;
    StdHeadersSignable();
    forall i | 0 <= i < |names|
      ensures ToLower(names[i])
              == ["cc", "content-type", "date", "from", "reply-to", "subject", "to", SIGNATURE_NAME][i]
    {
      StdLower(names, i);
    }
    forall i | 0 <= i < |names|
      ensures Get(list, names[i]) != "" <==> exists f :: f in list && Key(f, true) == ToLower(names[i])
    {
      GetFacts(list, names[i]);
    }
    NamesOfSelected(list, names);
    NamesAreOther(Selected(list, names));
    if lower in SIGNED_NAMES {
      SignatureIsOther(lower);
      ListedIff(list, names, lower);
      var i: nat :| i < 7
                    && lower == ["cc", "content-type", "date", "from", "reply-to", "subject", "to", SIGNATURE_NAME][i];
      assert ToLower(names[i]) == lower;
    }
  }

  lemma {:induction false} NamesAreOther(list: seq<string>)
    ensures forall n :: n in Names(list) ==> ToLower(n) != SIGNATURE_NAME
  {
    hide ToLower, Key;
    if list != [] {
      NamesAreOther(list[1..]);
    }
  }

  lemma SignatureIsOther(lower: string)
    requires lower in SIGNED_NAMES
    ensures lower != SIGNATURE_NAME
    ensures exists i: nat :: i < 7
              && lower == ["cc", "content-type", "date", "from", "reply-to", "subject", "to", SIGNATURE_NAME][i]
  {
    var all := ["cc", "content-type", "date", "from", "reply-to", "subject", "to", SIGNATURE_NAME];
    assert all[0] == "cc" && all[1] == "content-type" && all[2] == "date" && all[3] == "from";
    assert all[4] == "reply-to" && all[5] == "subject" && all[6] == "to";
  }

  // What is signed: the message itself, or a copy if it has no CRLF, in which every
  // LF has become one.
  lemma SignedText(data: string)
    ensures Outgoing(data) == if Contains(data, "\r\n") then data else Join(Split(data, "\n"), "\r\n")
  {
    hide Cut, Split, Join;
    CopyHasCrlfs(data);
  }

  lemma {:induction false} CopyHasCrlfs(data: string)
    ensures ReplaceLf(data) == Join(Split(data, "\n"), "\r\n")
    decreases |data|
  {
    match Cut(data, "\n")
    case None =>
      ReplaceNothing(data);
    case Some((a, b)) =>
      CutPieceFree(data, "\n");
      ReplaceNothing(a);
      ReplaceFirst(a, b);
      CopyHasCrlfs(b);
      assert ([a] + Split(b, "\n"))[1..] == Split(b, "\n");
  }

  lemma {:induction false} ReplaceNothing(a: string)
    requires !Contains(a, "\n")
    ensures ReplaceLf(a) == a
  {
    if a != "" {
      assert a[0] == '\n' ==> StartsWith(a, "\n");
      ReplaceNothing(a[1..]);
    }
  }

  lemma {:induction false} ReplaceFirst(a: string, b: string)
    requires ReplaceLf(a) == a && !Contains(a, "\n")
    ensures ReplaceLf(a + "\n" + b) == a + CRLF + ReplaceLf(b)
  {
    var t := a + "\n" + b;
    if a == "" {
      assert t[1..] == b;
    } else {
      assert a[0] == '\n' ==> StartsWith(a, "\n");
      assert t[1..] == a[1..] + "\n" + b;
      ReplaceNothing(a[1..]);
      ReplaceFirst(a[1..], b);
    }
  }

  // Each way to fail, in its order; the key signs the block of the fresh
  // configuration with body hash and names filled in.
  lemma SigningSucceedsIff(repo: map<string, RepoKey>, domain: string, time: string, data: string, spare: nat)
    ensures var r := DkimSignSpec(repo, domain, time, data, spare);
            if domain !in repo || repo[domain].domain == "" then r == Err(NoKey)
            else if repo[domain].selector == "" then r == Err(NoSelector)
            else if !Contains(Outgoing(data), "\r\n\r\n") then r == Err(NoHeaderBlock)
            else
              var key := repo[domain];
              var (header, body) := SplitEml(Outgoing(data)).value;
              var c := NewConf(key.domain, key.selector, time).value
                         ["bh" := key.crypto.hash(Body.SimpleBody(body))]
                         ["h" := Join(Names(Selected(Fields(header), STD_SIGNABLE_HEADERS)), ":")];
              var signature := key.crypto.sign(Block(c, Fields(header), STD_SIGNABLE_HEADERS));
              (r.Ok? <==> signature.Some?) && (r.Err? ==> r == Err(RsaFailed))
  {
    hide Block, Cut, Fields, Selected, Names, RelaxedHeaderMode, RelaxedBodyMode, ReplaceLf, Join, CanonicalBlock;
    if domain in repo && repo[domain].domain != "" && repo[domain].selector != "" {
      SimpleByDefault(repo[domain].domain, repo[domain].selector, time);
    }
  }

  // ----- The complete verification --------------------------------------------

  // Verification with the public half of the key. The RSA signatures of the relay
  // are those of PKCS #1 v1.5: a block has one signature, and the check accepts it.
  predicate Accepts(message: string, crypto: Crypto) {
    match Verify(message, crypto.hash)
    case None => false
    case Some(block) => crypto.sign(block).Some? && TagOf(message, "b") == crypto.sign(block)
  }

  // No other block has the signature of this one.
  ghost predicate SignedAlone(crypto: Crypto, block: string) {
    forall x :: crypto.sign(x) == crypto.sign(block) ==> x == block
  }

  // A relayed message is accepted exactly if all signable names are verifiable and
  // the body ends as BodyAgrees says, short of collisions of hash and signature.
  lemma RelayedMailAcceptedIff(repo: map<string, RepoKey>, domain: string, time: string, data: string, spare: nat)
    requires domain in repo && SafeText(repo[domain].domain) && SafeText(repo[domain].selector) && SafeText(time)
    requires SplitEml(Outgoing(data)).Some?
    ensures var (header, body) := SplitEml(Outgoing(data)).value;
            var crypto := repo[domain].crypto;
            DkimSignSpec(repo, domain, time, data, spare).Ok? ==>
              var signed := DkimSignSpec(repo, domain, time, data, spare).value;
              && !Collide(crypto.hash, Body.RfcSimpleBody(SharedBuffer.AfterSimple(body, SpareOf(data, spare))),
                          Body.SimpleBody(body))
              && SignedAlone(crypto, signed.block) ==>
                (Accepts(signed.message, crypto)
                 <==> Verifiable(Fields(header), STD_SIGNABLE_HEADERS) && BodyAgrees(body))
  {
    hide SplitEml, Fields, Verifiable, BodyAgrees, Verify, TagOf, SafeText, Outgoing, Collide, DkimSignSpec;
    hide Body.RfcSimpleBody, Body.SimpleBody, SharedBuffer.AfterSimple;
    RelayedSignatureVerifiesIff(repo, domain, time, data, spare);
    RelayedTags(repo, domain, time, data, spare);
  }
}
