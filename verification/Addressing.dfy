// Envelope commands on the wire: the line the client writes for an address
// (smtp/smtp.go) and the address the server reads from it (smtpd/protocol.go,
// smtpd/address.go).
module Addressing {
  import opened Wrappers
  import opened Text
  import opened Session

  predicate NoSpace(s: string) {
    forall i :: 0 <= i < |s| ==> s[i] !in SPACE
  }

  // Addresses that survive the wire: no white space, no colon, at most one @.
  predicate Mailbox(a: string) {
    NoSpace(a) && ':' !in a && CountAt(a) <= 1
  }

  function EnvelopeLine(verb: string, keyword: string, a: string, suffix: string): string {
    verb + (" " + (keyword + ":<" + a + ">" + suffix))
  }

  // ----- Words ----------------------------------------------------------------

  lemma {:induction false} WordsSolid(s: string)
    ensures forall i :: 0 <= i < |Words(s)| ==> Words(s)[i] != "" && NoSpace(Words(s)[i])
    decreases |s|
  {
    TrimLeftParts(s, SPACE);
    var t := TrimLeft(s, SPACE);
    if t != "" {
      WordLengthStops(t);
      WordsSolid(t[WordLength(t)..]);
    }
  }

  lemma {:induction false} WordLengthStops(s: string)
    ensures NoSpace(s[..WordLength(s)])
  {
    if s != "" && s[0] !in SPACE {
      WordLengthStops(s[1..]);
      assert s[..WordLength(s)] == [s[0]] + s[1..][..WordLength(s[1..])];
    }
  }

  lemma {:induction false} WordLengthOf(w: string, rest: string)
    requires NoSpace(w) && (rest == "" || rest[0] in SPACE)
    ensures WordLength(w + rest) == |w|
  {
    if w == "" {
      assert w + rest == rest;
    } else {
      assert (w + rest)[1..] == w[1..] + rest;
      WordLengthOf(w[1..], rest);
    }
  }

  lemma WordsFirst(w: string, rest: string)
    requires w != "" && NoSpace(w) && (rest == "" || rest[0] in SPACE)
    ensures Words(w + rest) == [w] + Words(rest)
  {
    var s := w + rest;
    assert s[0] == w[0];
    assert TrimLeft(s, SPACE) == s;
    WordLengthOf(w, rest);
    assert s[..|w|] == w && s[|w|..] == rest;
  }

  lemma WordsSkip(s: string)
    ensures Words(" " + s) == Words(s)
  {
  }

  // The action and the words of a command line that begins with its verb.
  lemma CommandWords(verb: string, rest: string)
    requires verb != "" && NoSpace(verb)
    ensures ParseLine(verb + (" " + rest)).action == ToUpper(verb)
    ensures ParseLine(verb + (" " + rest)).fields == [verb] + Words(rest)
  {
    WordsFirst(verb, " " + rest);
    WordsSkip(rest);
  }

  lemma BareCommand(verb: string)
    requires verb != "" && NoSpace(verb)
    ensures ParseLine(verb).action == ToUpper(verb)
  {
    WordsFirst(verb, "");
    assert verb + "" == verb;
  }

  // ----- Addresses ------------------------------------------------------------

  lemma {:induction false} CountAtAppend(s: string, t: string)
    ensures CountAt(s + t) == CountAt(s) + CountAt(t)
  {
    if s == "" {
      assert s + t == t;
    } else {
      assert (s + t)[1..] == s[1..] + t;
      CountAtAppend(s[1..], t);
    }
  }

  lemma BracketedCount(a: string)
    ensures CountAt("<" + a + ">") == CountAt(a)
  {
    CountAtAppend("<" + a, ">");
    CountAtAppend("<", a);
  }

  // parseAddress reads back exactly the bracketed texts with at most one @.
  lemma ParseAddressIff(src: string, a: string)
    ensures ParseAddress(src) == Some(a) ==> src == "<" + a + ">" && CountAt(a) <= 1
    ensures src == "<" + a + ">" && CountAt(a) <= 1 ==> ParseAddress(src) == Some(a)
  {
    BracketedCount(a);
    if ParseAddress(src) == Some(a) {
      BracketsCounted(src);
      assert src == [src[0]] + src[1..|src| - 1] + [src[|src| - 1]];
    } else if src == "<" + a + ">" {
      assert src[1..|src| - 1] == a;
    }
  }

  // A lone "<" cannot be an address: it does not end in ">".
  lemma BracketsCounted(src: string)
    requires ParseAddress(src).Some?
    ensures |src| >= 2
  {
  }

  lemma NoColonIsFree(s: string)
    ensures ':' !in s <==> !Contains(s, ":")
  {
    ContainsIffOccurs(s, ":");
    if Contains(s, ":") {
      var i: nat :| OccursAt(s, ":", i);
      assert s[i] == s[i..i + 1][0] == ':';
    } else {
      forall i | 0 <= i < |s| ensures s[i] != ':' {
        assert s[i..i + 1] == [s[i]];
        assert !OccursAt(s, ":", i);
      }
    }
  }

  // Whatever address the server takes from a line is a mailbox.
  lemma AcceptedIsMailbox(line: string)
    ensures AddressOf(ParseLine(line)).Some? ==> Mailbox(AddressOf(ParseLine(line)).value)
  {
    var cmd := ParseLine(line);
    if AddressOf(cmd).Some? {
      var a := AddressOf(cmd).value;
      ParseAddressIff(cmd.params[1], a);
      WordsSolid(line);
      SplitPiecesFree(cmd.fields[1], ":");
      NoColonIsFree(cmd.params[1]);
      PieceOfWord(cmd.fields[1], cmd.params[1]);
      assert forall i :: 0 <= i < |a| ==> a[i] == cmd.params[1][i + 1];
    }
  }

  lemma PieceOfWord(word: string, piece: string)
    requires NoSpace(word) && piece in Split(word, ":")
    ensures NoSpace(piece)
  {
    PiecesInside(word, ":");
    forall i | 0 <= i < |piece|
      ensures piece[i] !in SPACE
    {
      assert piece[i] in piece && piece[i] in word;
    }
  }

  lemma {:induction false} PiecesInside(s: string, sep: string)
    requires sep != ""
    ensures forall p, c :: p in Split(s, sep) && c in p ==> c in s
    decreases |s|
  {
    if Cut(s, sep).Some? {
      PiecesInside(Cut(s, sep).value.1, sep);
    }
  }

  // An envelope line with a mailbox is read back.
  lemma MailboxIsRead(verb: string, keyword: string, a: string, suffix: string)
    requires verb != "" && NoSpace(verb) && keyword != "" && NoSpace(keyword) && ':' !in keyword
    requires suffix == "" || suffix[0] in SPACE
    requires Mailbox(a)
    ensures AddressOf(ParseLine(EnvelopeLine(verb, keyword, a, suffix))) == Some(a)
  {
    hide Words, Cut, Contains, ParseAddress, ToUpper;
    var bracketed := "<" + a + ">";
    var word := keyword + ":" + bracketed;
    assert keyword + ":<" + a + ">" + suffix == word + suffix;
    CommandWords(verb, word + suffix);
    WordsFirst(word, suffix);
    NoColonIsFree(keyword);
    NoColonIsFree(bracketed);
    CutAppended(keyword, ":", bracketed);
    assert Split(word, ":") == [keyword] + [bracketed];
    ParseAddressIff(bracketed, a);
  }

  // The server reads the address the client was given exactly if that address
  // is a mailbox.
  lemma AddressSurvivesIff(verb: string, keyword: string, a: string, suffix: string)
    requires verb != "" && NoSpace(verb) && keyword != "" && NoSpace(keyword) && ':' !in keyword
    requires suffix == "" || suffix[0] in SPACE
    ensures AddressOf(ParseLine(EnvelopeLine(verb, keyword, a, suffix))) == Some(a) <==> Mailbox(a)
  {
    AcceptedIsMailbox(EnvelopeLine(verb, keyword, a, suffix));
    if Mailbox(a) {
      MailboxIsRead(verb, keyword, a, suffix);
    }
  }

  // A colon can even change the address without an error: the server takes what
  // stands before it.
  lemma ColonTruncates(verb: string, keyword: string, x: string, y: string, suffix: string)
    requires verb != "" && NoSpace(verb) && keyword != "" && NoSpace(keyword) && ':' !in keyword
    requires suffix == "" || suffix[0] in SPACE
    requires Mailbox(x) && NoSpace(y)
    ensures AddressOf(ParseLine(EnvelopeLine(verb, keyword, x + ">:" + y, suffix))) == Some(x)
  {
    hide Words, Cut, Contains, ParseAddress, ToUpper;
    var bracketed, tail := "<" + x + ">", y + ">";
    var word := keyword + ":" + (bracketed + ":" + tail);
    assert keyword + ":<" + (x + ">:" + y) + ">" + suffix == word + suffix;
    CommandWords(verb, word + suffix);
    WordsFirst(word, suffix);
    NoColonIsFree(keyword);
    NoColonIsFree(bracketed);
    CutAppended(keyword, ":", bracketed + ":" + tail);
    CutAppended(bracketed, ":", tail);
    assert Split(word, ":")[1] == bracketed;
    ParseAddressIff(bracketed, x);
  }
}
