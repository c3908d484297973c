// status.go: what the text of a failed delivery says, and how smtpd.Error and
// textproto.Error print it.
module Status {
  import opened Wrappers
  import opened Text
  import Session
  import SmtpClient
  import Pipeline
  import Dns

  datatype SmtpError = SmtpError(code: int, message: string)

  const MESSAGE_ERROR_UNKNOWN := SmtpError(450, "Requested mail action not taken")

  // "%d %s", which for codes of three digits is also "%03d %s".
  function Printed(e: SmtpError): string {
    Session.Decimal(e.code) + (" " + e.message)
  }

  // Decimal digits, at least one.
  function DigitsValue(s: string): Option<nat> {
    if s == "" || !('0' <= s[|s| - 1] <= '9') then None
    else
      var digit := s[|s| - 1] as int - '0' as int;
      if |s| == 1 then Some(digit)
      else
        match DigitsValue(s[..|s| - 1])
        case None => None
        case Some(front) => Some(10 * front + digit)
  }

  // strconv.Atoi for 64-bit integers.
  function Atoi(s: string): Option<int> {
    if s == "" then None
    else
      var signed := s[0] == '-' || s[0] == '+';
      match DigitsValue(if signed then s[1..] else s)
      case None => None
      case Some(n) =>
        var m: int := n;
        var v := if s[0] == '-' then -m else m;
        if -0x8000_0000_0000_0000 <= v < 0x8000_0000_0000_0000 then Some(v) else None
  }

  function ParseOutcomingError(text: string): SmtpError {
    var str := TrimSpace(text);
    if |str| < 3 then MESSAGE_ERROR_UNKNOWN
    else
      var (code, msg) := match Cut(str, " ") case None => (str, "") case Some((a, b)) => (a, b);
      match Atoi(code)
      case None => SmtpError(450, str)
      case Some(n) => SmtpError(n, msg)
  }

  // ----- Reading back ---------------------------------------------------------

  lemma {:induction false} DigitsRead(n: nat)
    ensures DigitsValue(Session.Digits(n)) == Some(n)
    ensures forall i :: 0 <= i < |Session.Digits(n)| ==> '0' <= Session.Digits(n)[i] <= '9'
    ensures Session.Digits(n) != "" && (n >= 100 ==> |Session.Digits(n)| >= 3)
  {
    var s := Session.Digits(n);
    if n >= 10 {
      DigitsRead(n / 10);
      assert s[..|s| - 1] == Session.Digits(n / 10);
      if n >= 100 {
        LongEnough(n / 10);
      }
    }
  }

  lemma LongEnough(n: nat)
    requires n >= 10
    ensures |Session.Digits(n)| >= 2
  {
  }

  lemma AtoiOfDigits(n: nat)
    requires n < 0x8000_0000_0000_0000
    ensures Atoi(Session.Digits(n)) == Some(n)
  {
    DigitsRead(n);
    assert Session.Digits(n)[0] != '-' && Session.Digits(n)[0] != '+';
  }

  // Trimming a text that begins with a word trims only its end.
  lemma TrimAfterWord(word: string, rest: string)
    requires word != "" && forall i :: 0 <= i < |word| ==> word[i] !in SPACE
    ensures TrimSpace(word + rest) == word + TrimRight(rest, SPACE)
  {
    hide TrimLeft, TrimRight;
    var t := TrimRight(rest, SPACE);
    TrimRightParts(rest, SPACE);
    var s := word + t;
    assert s[0] == word[0];
    assert s[|s| - 1] == if t == "" then word[|word| - 1] else t[|t| - 1];
    TrimExact("", s, rest[|t|..], SPACE);
    assert "" + s + rest[|t|..] == word + rest;
  }

  lemma TrimBlank(message: string)
    ensures TrimRight(" " + message, SPACE)
            == if TrimRight(message, SPACE) == "" then "" else " " + TrimRight(message, SPACE)
  {
    var t := TrimRight(message, SPACE);
    TrimRightParts(message, SPACE);
    if t == "" {
      BlankTrims(" " + message);
    } else {
      TrimRightExact(" " + t, message[|t|..], SPACE);
      assert " " + t + message[|t|..] == " " + message;
    }
  }

  lemma {:induction false} BlankTrims(s: string)
    requires forall i :: 0 <= i < |s| ==> s[i] in SPACE
    ensures TrimRight(s, SPACE) == ""
  {
    if s != "" {
      BlankTrims(s[..|s| - 1]);
    }
  }

  // A printed error is read back; only white space at its end is lost.
  lemma ErrorRoundTrip(code: nat, message: string)
    requires 100 <= code < 0x8000_0000_0000_0000
    ensures ParseOutcomingError(Printed(SmtpError(code, message))) == SmtpError(code, TrimRight(message, SPACE))
  {
    hide Session.Digits, Atoi, TrimRight, DigitsValue;
    var word := Session.Digits(code);
    DigitsRead(code);
    AtoiOfDigits(code);
    TrimAfterWord(word, " " + message);
    TrimBlank(message);
    var t := TrimRight(message, SPACE);
    FirstWord(word, if t == "" then "" else " " + t);
    assert word + "" == word;
  }

  // ----- The parser, exactly --------------------------------------------------

  lemma {:induction false} DigitsIff(s: string)
    ensures DigitsValue(s).Some? <==> s != "" && forall i :: 0 <= i < |s| ==> '0' <= s[i] <= '9'
    ensures DigitsValue(s).Some? ==> DigitsValue("0" + s) == DigitsValue(s)
  {
    if s != "" {
      var front := s[..|s| - 1];
      DigitsIff(front);
      assert ("0" + s)[..|s|] == "0" + front;
      assert front == "" ==> "0" + front == "0";
    }
  }

  // A decimal number of 64 bits, with or without a sign.
  ghost predicate Numeral(s: string, n: int) {
    && -0x8000_0000_0000_0000 <= n < 0x8000_0000_0000_0000
    && exists digits :: DigitsValue(digits).Some? && Signed(s, n, digits, DigitsValue(digits).value)
  }

  predicate Signed(s: string, n: int, digits: string, value: int) {
    (s in {digits, "+" + digits} && n == value) || (s == "-" + digits && n == -value)
  }

  lemma AtoiIff(s: string, n: int)
    ensures Atoi(s) == Some(n) <==> Numeral(s, n)
  {
    hide DigitsValue;
    DigitsIff(s);
    if s != "" {
      DigitsIff(s[1..]);
      assert s == [s[0]] + s[1..];
      if Atoi(s) == Some(n) {
        assert Numeral(s, n) by {
          var digits := if s[0] == '-' || s[0] == '+' then s[1..] else s;
          assert DigitsValue(digits).Some? && Signed(s, n, digits, DigitsValue(digits).value);
        }
      }
    }
    if Numeral(s, n) {
      var digits :| DigitsValue(digits).Some? && Signed(s, n, digits, DigitsValue(digits).value);
      DigitsIff(digits);
      assert s != digits ==> s[1..] == digits;
    }
  }

  // The code is the first word if that is a number, else 450; the message is what
  // follows the number, else the whole text.
  lemma ParsedIs(text: string, word: string, rest: string)
    requires TrimSpace(text) == word + rest && ' ' !in word && (rest == "" || rest[0] == ' ')
    ensures |word + rest| < 3 ==>
              ParseOutcomingError(text) == SmtpError(450, "Requested mail action not taken")
    ensures |word + rest| >= 3 ==>
              && (forall n :: Numeral(word, n) ==>
                    ParseOutcomingError(text) == SmtpError(n, if rest == "" then "" else rest[1..]))
              && ((forall n :: !Numeral(word, n)) ==>
                    ParseOutcomingError(text) == SmtpError(450, TrimSpace(text)))
  {
    hide TrimSpace, Atoi, Numeral;
    FirstWord(word, rest);
    assert rest == "" ==> word + rest == word;
    forall n
      ensures Atoi(word) == Some(n) <==> Numeral(word, n)
    {
      AtoiIff(word, n);
    }
    assert Atoi(word).Some? ==> Numeral(word, Atoi(word).value);
  }

  lemma FirstWord(word: string, rest: string)
    requires ' ' !in word && (rest == "" || rest[0] == ' ')
    ensures Cut(word + rest, " ") == if rest == "" then None else Some((word, rest[1..]))
  {
    hide Cut;
    ContainsIffOccurs(word, " ");
    forall i: nat | i < |word|
      ensures !OccursAt(word, " ", i)
    {
      assert word[i..i + 1] == [word[i]];
    }
    if rest == "" {
      assert word + rest == word;
    } else {
      CutAppended(word, " ", rest[1..]);
      assert rest == " " + rest[1..];
      assert word + rest == word + " " + rest[1..];
    }
  }

  // ----- Permanent or temporary -----------------------------------------------

  // The text of an error of SendMail; net is what a broken connection reports.
  function ErrorText(e: SmtpClient.ClientError, net: string): string {
    match e
    case NoReply => net
    case Unexpected(reply) => Printed(SmtpError(reply.code, Join(reply.lines, "\n")))
  }

  // A text that begins with a letter carries no code.
  lemma WordsAreTemporary(text: string)
    requires text != "" && ('a' <= text[0] <= 'z' || 'A' <= text[0] <= 'Z')
    ensures ParseOutcomingError(text).code == 450
  {
    hide Atoi;
    var str := TrimSpace(text);
    assert TrimLeft(text, SPACE) == text;
    TrimRightParts(text, SPACE);
    if |str| >= 3 {
      assert str[0] == text[0];
      var code := match Cut(str, " ") case None => str case Some((a, b)) => a;
      LetterIsNoCode(code, str);
    }
  }

  lemma LetterIsNoCode(code: string, str: string)
    requires str != "" && ('a' <= str[0] <= 'z' || 'A' <= str[0] <= 'Z')
    requires code <= str
    ensures Atoi(code) == None
  {
    if code != "" {
      assert code[0] == str[0];
      LetterFirst(code);
    }
  }

  lemma {:induction false} LetterFirst(s: string)
    requires s != "" && !('0' <= s[0] <= '9')
    ensures DigitsValue(s) == None
  {
    if |s| > 1 {
      LetterFirst(s[..|s| - 1]);
    }
  }

  // An attempt is given up at once exactly if the server answered with a 5xx
  // code; every other failure counts one error, a broken connection included.
  lemma GivenUpIff(c: Pipeline.Config, e: Pipeline.QueueEntry, err: SmtpClient.ClientError, net: string,
                   answer: Dns.MxAnswer, now: int)
    requires net != "" && ('a' <= net[0] <= 'z' || 'A' <= net[0] <= 'Z')
    requires err.Unexpected? ==> 100 <= err.reply.code <= 999
    ensures Pipeline.AfterFailure(c, e, ParseOutcomingError(ErrorText(err, net)).code, answer, now) == Pipeline.Drop(e)
            <==> err.Unexpected? && 500 <= err.reply.code <= 599
    ensures ParseOutcomingError(ErrorText(err, net)).code / 100 == 5
            <==> err.Unexpected? && 500 <= err.reply.code <= 599
  {
    hide ParseOutcomingError, Printed;
    if err.Unexpected? {
      ErrorRoundTrip(err.reply.code, Join(err.reply.lines, "\n"));
    } else {
      WordsAreTemporary(net);
    }
  }
}
