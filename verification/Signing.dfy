// dkim/conf.go, the signing part of dkim/dkim.go, and DKIMSign of dkim.go.
// SHA-256, RSA and base64 are arguments: all that is known of them is the
// alphabet of base64.
module Signing {
  import opened Wrappers
  import opened Text
  import opened Headers
  import Body
  import opened SharedBuffer

  type Conf = map<string, string>

  const KEY_ORDER := ["v", "a", "c", "d", "q", "s", "t", "bh", "h", "z", "i", "l", "b"]

  const STD_SIGNABLE_HEADERS :=
    ["Cc", "Content-Type", "Date", "From", "Reply-To", "Subject", "To", SIGNATURE_KEY]

  // White space that a line has not got.
  const VERTICAL: set<char> := {'\n', '\r', '\U{000B}', '\U{000C}'}

  // One line without the separator of tags: what tag values consist of.
  predicate SafeText(s: string) {
    forall i :: 0 <= i < |s| ==> s[i] !in VERTICAL && s[i] != ';'
  }

  predicate Base64Char(c: char) {
    'A' <= c <= 'Z' || 'a' <= c <= 'z' || '0' <= c <= '9' || c == '+' || c == '/' || c == '='
  }

  type Base64 = s: string | forall i :: 0 <= i < |s| ==> Base64Char(s[i]) witness ""

  // hash: base64 of the SHA-256 digest; sign: base64 of the RSA signature, if there is one.
  datatype Crypto = Crypto(hash: string -> Base64, sign: string -> Option<Base64>)

  datatype SignError = NoDomain | NoSelector | NoKey | NoHeaderBlock | RsaFailed

  const DEFAULT_MODES := "relaxed/simple"

  function NewConf(domain: string, selector: string, time: string): Result<Conf, SignError> {
    if domain == "" then Err(NoDomain)
    else if selector == "" then Err(NoSelector)
    else Ok(map["v" := "1", "a" := "rsa-sha256", "d" := domain, "s" := selector,
                "c" := DEFAULT_MODES, "q" := "dns/txt", "t" := time,
                "h" := "", "bh" := "", "b" := ""])
  }

  function Lookup(c: Conf, key: string): string {
    if key in c then c[key] else ""
  }

  predicate RelaxedHeaderMode(c: Conf) {
    StartsWith(ToLower(Lookup(c, "c")), "relaxed")
  }

  predicate RelaxedBodyMode(c: Conf) {
    var can := ToLower(Lookup(c, "c"));
    |can| >= 8 && can[|can| - 8..] == "/relaxed"
  }

  // Conf.String: the tags present, in the fixed order.
  function Pairs(c: Conf, keys: seq<string>): seq<string> {
    if keys == [] then []
    else (if keys[0] in c then [keys[0] + "=" + c[keys[0]]] else []) + Pairs(c, keys[1..])
  }

  function Render(c: Conf): string {
    Join(Pairs(c, KEY_ORDER), "; ")
  }

  lemma PairsStep(c: Conf, a: seq<string>, keys: seq<string>, i: nat)
    requires i < |keys|
    ensures a + Pairs(c, keys[i..])
            == (if keys[i] in c then a + [keys[i] + "=" + c[keys[i]]] else a) + Pairs(c, keys[i + 1..])
  {
  }

  method ConfString(c: Conf) returns (s: string)
    ensures s == Render(c)
  {
    var pairs: seq<string> := [];
    var i := 0;
    while i < |KEY_ORDER|
      invariant 0 <= i <= |KEY_ORDER|
      invariant pairs + Pairs(c, KEY_ORDER[i..]) == Pairs(c, KEY_ORDER)
    {
      PairsStep(c, pairs, KEY_ORDER, i);
      var k := KEY_ORDER[i];
      if k in c {
        pairs := pairs + [k + "=" + c[k]];
      }
      i := i + 1;
    }
    assert pairs == Pairs(c, KEY_ORDER);
    s := Join(pairs, "; ");
  }

  // The signable fields the message has, each the topmost of its name.
  function Selected(list: seq<string>, names: seq<string>): seq<string> {
    if names == [] then []
    else (if Get(list, names[0]) != "" then [Get(list, names[0])] else []) + Selected(list, names[1..])
  }

  lemma SelectedStep(list: seq<string>, a: seq<string>, names: seq<string>, i: nat)
    requires i < |names|
    ensures a + Selected(list, names[i..])
            == (if Get(list, names[i]) != "" then a + [Get(list, names[i])] else a)
               + Selected(list, names[i + 1..])
  {
  }

  method SelectHeaders(list: seq<string>, names: seq<string>) returns (selected: seq<string>)
    ensures selected == Selected(list, names)
  {
    selected := [];
    var i := 0;
    while i < |names|
      invariant 0 <= i <= |names|
      invariant selected + Selected(list, names[i..]) == Selected(list, names)
    {
      SelectedStep(list, selected, names, i);
      var h := FindHeader(list, names[i]);
      if h != "" {
        selected := selected + [h];
      }
      i := i + 1;
    }
  }

  function SignatureHeader(c: Conf): string {
    NewHeader(SIGNATURE_KEY, Render(c))
  }

  // The configuration with body hash and field list filled in.
  function Prepared(c: Conf, list: seq<string>, names: seq<string>, bh: string): Conf {
    c["bh" := bh]["h" := Join(Names(Selected(list, names)), ":")]
  }

  // The block that is hashed and signed.
  function Block(c: Conf, list: seq<string>, names: seq<string>): string {
    TrimSpace(CanonicalBlock(Selected(list, names) + [SignatureHeader(c)], RelaxedHeaderMode(c)))
  }

  datatype Signed = Signed(conf: Conf, block: string, message: string)

  // Sign as a function of the message, spare being the capacity behind it.
  function SignSpec(c: Conf, names: seq<string>, crypto: Crypto, eml: string, spare: nat): Result<Signed, SignError> {
    match SplitEml(eml)
    case None => Err(NoHeaderBlock)
    case Some((header, body)) =>
      var list := Fields(header);
      var c1 := Prepared(c, list, names, crypto.hash(Body.CanonicalBody(body, RelaxedBodyMode(c))));
      var block := Block(c1, list, names);
      match crypto.sign(block)
      case None => Err(RsaFailed)
      case Some(sig) =>
        var c2 := c1["b" := sig];
        Ok(Signed(c2, block,
                  CanonicalBlock(list + [SignatureHeader(c2)], false) + CRLF
                  + AfterCanonical(body, spare, RelaxedBodyMode(c))))
  }

  method SplitEmlSlice(eml: Slice) returns (r: Option<(string, Slice)>)
    requires eml.Fits()
    ensures SplitEml(eml.View()).None? <==> r.None?
    ensures r.Some? ==>
              && SplitEml(eml.View()).value.0 == r.value.0
              && r.value.1.arr == eml.arr && r.value.1.Fits()
              && r.value.1.off == eml.off + |r.value.0| + 4
              && r.value.1.off + r.value.1.len == eml.off + eml.len
              && r.value.1.off + r.value.1.cap == eml.off + eml.cap
              && r.value.1.View() == SplitEml(eml.View()).value.1
  {
    var text := eml.View();
    var cut := Cut(text, EMPTY_LINE);
    if cut.None? {
      return None;
    }
    var header := cut.value.0;
    var start := |header| + 4;
    assert text == header + EMPTY_LINE + cut.value.1;
    var body := Slice(eml.arr, eml.off + start, eml.len - start, eml.cap - start);
    assert body.View() == text[start..];
    return Some((header, body));
  }

  // Only the part from mid on was written.
  lemma SameHead(before: seq<char>, now: seq<char>, off: nat, mid: nat, end: nat)
    requires off <= mid <= end <= |before| == |now|
    requires forall k :: 0 <= k < mid ==> now[k] == before[k]
    ensures now[off..end] == before[off..mid] + now[mid..end]
  {
  }

  class Dkim {
    const signableHeaders: seq<string>
    const crypto: Crypto
    var conf: Conf

    constructor (signableHeaders: seq<string>, crypto: Crypto, conf: Conf)
      ensures this.signableHeaders == signableHeaders && this.crypto == crypto && this.conf == conf
    {
      this.signableHeaders := signableHeaders;
      this.crypto := crypto;
      this.conf := conf;
    }

    method SignableHeaderBlock(header: string, body: Slice) returns (block: string)
      requires body.Fits()
      modifies this, body.arr
      ensures conf == Prepared(old(conf), Fields(header), signableHeaders,
                               crypto.hash(Body.CanonicalBody(old(body.View()), RelaxedBodyMode(old(conf)))))
      ensures block == Block(conf, Fields(header), signableHeaders)
      ensures body.View() == AfterCanonical(old(body.View()), body.cap - body.len, RelaxedBodyMode(old(conf)))
      ensures forall k :: 0 <= k < body.arr.Length && k < body.off ==> body.arr[k] == old(body.arr[..])[k]
    {
      var headerList := ParseHeaderList(header);
      var signableHeaderList := SelectHeaders(headerList, signableHeaders);
      var relaxedBody := RelaxedBodyMode(conf);
      var canonical := CanonicalBodyInPlace(body, relaxedBody);
      conf := conf["bh" := crypto.hash(canonical.View())];
      var names := FieldNames(signableHeaderList);
      conf := conf["h" := names];
      var rendered := ConfString(conf);
      signableHeaderList := signableHeaderList + [NewHeader(SIGNATURE_KEY, rendered)];
      var text := CanonicalList(signableHeaderList, RelaxedHeaderMode(conf));
      return TrimSpace(text);
    }

    method Sign(eml: Slice) returns (r: Result<string, SignError>)
      requires eml.Fits()
      modifies this, eml.arr
      ensures var spec := SignSpec(old(conf), signableHeaders, crypto, old(eml.View()), eml.cap - eml.len);
              && (r.Ok? <==> spec.Ok?)
              && (r.Ok? ==> r.value == spec.value.message && conf == spec.value.conf)
              && (r.Err? ==> r.error == spec.error)
      ensures eml.View() == AfterSign(old(eml.View()), eml.cap - eml.len, RelaxedBodyMode(old(conf)))
    {
      hide Body.CanonicalBody, Render, CanonicalBlock, RelaxedBodyMode, AfterCanonical, Fields, Prepared, Block;
      ghost var before, content := eml.View(), eml.arr[..];
      var split := SplitEmlSlice(eml);
      if split.None? {
        return Err(NoHeaderBlock);
      }
      var (header, body) := split.value;
      var block := SignableHeaderBlock(header, body);
      assert eml.View() == header + EMPTY_LINE + body.View() by {
        hide Cut;
        SameHead(content, eml.arr[..], eml.off, body.off, eml.off + eml.len);
        assert before == header + EMPTY_LINE + SplitEml(before).value.1;
        assert content[eml.off..body.off] == before[..|header| + 4];
      }
      var sig := crypto.sign(block);
      if sig.None? {
        return Err(RsaFailed);
      }
      conf := conf["b" := sig.value];
      var headerList := ParseHeaderList(header);
      var rendered := ConfString(conf);
      headerList := headerList + [NewHeader(SIGNATURE_KEY, rendered)];
      var signedHeader := CanonicalList(headerList, false);
      return Ok(signedHeader + CRLF + body.View());
    }
  }

  // What signing leaves in the message buffer.
  function AfterSign(eml: string, spare: nat, relaxedBody: bool): string {
    match SplitEml(eml)
    case None => eml
    case Some((header, body)) => header + EMPTY_LINE + AfterCanonical(body, spare, relaxedBody)
  }

  // ----- Signing the same buffer again ----------------------------------------

  lemma {:induction false} CutStable(s: string, sep: string, b': string)
    requires sep != "" && Contains(s, sep)
    ensures var a := Cut(s, sep).value.0; Cut(a + sep + b', sep) == Some((a, b'))
  {
    var a := Cut(s, sep).value.0;
    var t := a + sep + b';
    if StartsWith(s, sep) {
      assert a == "" && t == sep + b';
    } else {
      CutStable(s[1..], sep, b');
      assert t[1..] == a[1..] + sep + b';
      assert s[..|sep|] == t[..|sep|] by {
        assert |a| >= 1 && s[..|a| + |sep|] == t[..|a| + |sep|];
      }
    }
  }

  // A retry finds the buffer as the first signing left it, and produces the
  // same block, tags and message.
  lemma SignAgain(c: Conf, names: seq<string>, crypto: Crypto, eml: string, spare: nat)
    ensures var again := AfterSign(eml, spare, RelaxedBodyMode(c));
            && SignSpec(c, names, crypto, again, spare) == SignSpec(c, names, crypto, eml, spare)
            && AfterSign(again, spare, RelaxedBodyMode(c)) == again
            && |again| == |eml|
  {
    if SplitEml(eml).Some? {
      var (header, body) := SplitEml(eml).value;
      CutStable(eml, EMPTY_LINE, AfterCanonical(body, spare, RelaxedBodyMode(c)));
      if !RelaxedBodyMode(c) {
        RecomputeSame(body, spare);
      }
    }
  }

  // ----- DKIMSign -------------------------------------------------------------

  datatype RepoKey = RepoKey(domain: string, selector: string, crypto: Crypto)

  // bytes.Replace of LF by CRLF.
  function ReplaceLf(data: string): string {
    if data == "" then ""
    else (if data[0] == '\n' then CRLF else [data[0]]) + ReplaceLf(data[1..])
  }

  // The message DKIMSign signs: data itself, or a converted copy.
  predicate SignsCopy(data: string) {
    !Contains(data, CRLF)
  }

  function DkimSignSpec(repo: map<string, RepoKey>, domain: string, time: string, data: string, spare: nat)
    : Result<Signed, SignError>
  {
    if domain !in repo || repo[domain].domain == "" then Err(NoKey)
    else
      match NewConf(repo[domain].domain, repo[domain].selector, time)
      case Err(e) => Err(e)
      case Ok(c) =>
        if SignsCopy(data) then
          SignSpec(c, STD_SIGNABLE_HEADERS, repo[domain].crypto, ReplaceLf(data), 0)
        else
          SignSpec(c, STD_SIGNABLE_HEADERS, repo[domain].crypto, data, spare)
  }

  function AfterDkimSign(repo: map<string, RepoKey>, domain: string, data: string, spare: nat): string {
    if domain !in repo || repo[domain].domain == "" || repo[domain].selector == "" || SignsCopy(data) then data
    else AfterSign(data, spare, false)
  }

  // Every signing gets a fresh configuration.
  method DkimSign(repo: map<string, RepoKey>, domain: string, time: string, data: Slice)
    returns (r: Result<string, SignError>)
    requires data.Fits()
    modifies data.arr
    ensures var spec := DkimSignSpec(repo, domain, time, old(data.View()), data.cap - data.len);
            && (r.Ok? <==> spec.Ok?)
            && (r.Ok? ==> r.value == spec.value.message)
            && (r.Err? ==> r.error == spec.error)
    ensures data.View() == AfterDkimSign(repo, domain, old(data.View()), data.cap - data.len)
  {
    hide SignSpec, AfterSign, ReplaceLf, RelaxedBodyMode, RelaxedHeaderMode, Cut;
    if domain !in repo || repo[domain].domain == "" {
      return Err(NoKey);
    }
    var key := repo[domain];
    var conf := NewConf(key.domain, key.selector, time);
    if conf.Err? {
      return Err(conf.error);
    }
    SimpleByDefault(key.domain, key.selector, time);
    var dkim := new Dkim(STD_SIGNABLE_HEADERS, key.crypto, conf.value);
    if Cut(data.View(), CRLF).None? {
      var copy := NewSlice(ReplaceLf(data.View()));
      r := dkim.Sign(copy);
    } else {
      r := dkim.Sign(data);
    }
  }

  lemma SimpleByDefault(domain: string, selector: string, time: string)
    requires domain != "" && selector != ""
    ensures var c := NewConf(domain, selector, time).value;
            !RelaxedBodyMode(c) && RelaxedHeaderMode(c) && Lookup(c, "b") == ""
  {
    var c := NewConf(domain, selector, time).value;
    DefaultModes(Lookup(c, "c"));
  }

  lemma DefaultModes(modes: string)
    requires modes == DEFAULT_MODES
    ensures ToLower(modes) == modes
    ensures |modes| == 14 && modes[..7] == "relaxed" && modes[6..] != "/relaxed"
  {
    DefaultModesLower(modes);
    DefaultModesEnd(modes);
  }

  lemma DefaultModesLower(modes: string)
    requires modes == DEFAULT_MODES
    ensures ToLower(modes) == modes
  {
    assert forall i :: 0 <= i < |modes| ==> !('A' <= modes[i] <= 'Z');
    LowerAlready(modes);
  }

  lemma DefaultModesEnd(modes: string)
    requires modes == DEFAULT_MODES
    ensures |modes| == 14 && modes[..7] == "relaxed" && modes[6..] != "/relaxed"
  {
  }

  // Retries and sibling entries of a message sign the same block, whatever the
  // signings before them wrote into the shared buffer.
  lemma DkimSignAgain(repo: map<string, RepoKey>, domain: string, time: string, data: string, spare: nat)
    ensures var again := AfterDkimSign(repo, domain, data, spare);
            && DkimSignSpec(repo, domain, time, again, spare) == DkimSignSpec(repo, domain, time, data, spare)
            && AfterDkimSign(repo, domain, again, spare) == again
  {
    if AfterDkimSign(repo, domain, data, spare) != data {
      var key := repo[domain];
      SimpleByDefault(key.domain, key.selector, time);
      SignAgain(NewConf(key.domain, key.selector, time).value, STD_SIGNABLE_HEADERS, key.crypto, data, spare);
      StillNoCopy(data, spare);
    }
  }

  lemma StillNoCopy(data: string, spare: nat)
    requires AfterSign(data, spare, false) != data
    ensures !SignsCopy(AfterSign(data, spare, false))
  {
    var again := AfterSign(data, spare, false);
    var (header, body) := SplitEml(data).value;
    assert again == header + CRLF + (CRLF + AfterCanonical(body, spare, false));
    assert OccursAt(again, CRLF, |header|);
    ContainsIffOccurs(again, CRLF);
  }
}
