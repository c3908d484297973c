// dns.go: choosing a mail exchanger for a domain.
// The resolver itself is foreign code; its answer is an argument.
module Dns {
  import opened Wrappers

  // What net.LookupMX may return: host names carry their trailing dot.
  datatype MxAnswer = ResolverFailed | Records(hosts: seq<string>)

  datatype DnsError = InvalidDomain | Resolver | NoRecord | BadRecord | InvalidHost

  predicate Loopback(name: string) {
    name == "localhost" || name == "127.0.0.1"
  }

  // Position in an MX list that attempt number errorCount goes to.
  function RoundRobin(errorCount: nat, l: nat): (k: nat)
    requires l > 0
    ensures k < l
  {
    errorCount % l
  }

  // The subtraction loop of getRoundElement.
  method GetRoundElement(hosts: seq<string>, errorCount: nat) returns (mx: Option<string>)
    ensures hosts == [] <==> mx == None
    ensures hosts != [] ==> mx == Some(hosts[RoundRobin(errorCount, |hosts|)])
  {
    var l := |hosts|;
    if l == 0 {
      return None;
    }
    var count := errorCount;
    while count >= l
      invariant count >= 0
      invariant count % l == errorCount % l
    {
      SubtractKeepsRemainder(count, l);
      count := count - l;
    }
    return Some(hosts[count]);
  }

  lemma SubtractKeepsRemainder(n: nat, l: nat)
    requires 0 < l <= n
    ensures (n - l) % l == n % l
  {
    var q, r := n / l, n % l;
    assert n == q * l + r;
    assert n - l == (q - 1) * l + r by {
      assert (q - 1) * l == q * l - l;
    }
    RemainderUnique(n - l, l, q - 1, r);
  }

  lemma RemainderUnique(n: int, l: nat, q: int, r: nat)
    requires l > 0 && n == q * l + r && r < l
    ensures n % l == r && n / l == q
  {
    var q', r' := n / l, n % l;
    assert n == q' * l + r';
    assert (q - q') * l == r' - r by {
      assert (q - q') * l == q * l - q' * l;
    }
    if q > q' {
      MulAtLeast(q - q', l);
    } else if q < q' {
      assert (q - q') * l == -((q' - q) * l);
      MulAtLeast(q' - q, l);
    }
  }

  lemma MulAtLeast(a: int, l: nat)
    requires a >= 1
    ensures a * l >= l
  {
  }

  // Any l consecutive attempts visit every list position exactly once.
  lemma WindowVisitsEachOnce(first: nat, l: nat, position: nat) returns (k: nat)
    requires position < l
    ensures first <= k < first + l && RoundRobin(k, l) == position
    ensures forall k' :: first <= k' < first + l && RoundRobin(k', l) == position ==> k' == k
  {
    var r := first % l;
    var q := first / l;
    assert first == q * l + r;
    if position >= r {
      k := first + (position - r);
      RemainderUnique(k, l, q, position);
    } else {
      k := first + (position + l - r);
      assert (q + 1) * l == q * l + l;
      RemainderUnique(k, l, q + 1, position);
    }
    forall k' | first <= k' < first + l && RoundRobin(k', l) == position
      ensures k' == k
    {
      SameRemainderFarApart(k, k', l);
    }
  }

  lemma SameRemainderFarApart(a: nat, b: nat, l: nat)
    requires l > 0 && a % l == b % l && a < b + l && b < a + l
    ensures a == b
  {
    var qa, qb := a / l, b / l;
    assert (qa - qb) * l == a - b by {
      assert a == qa * l + a % l && b == qb * l + b % l;
      assert (qa - qb) * l == qa * l - qb * l;
    }
    if qa > qb {
      MulAtLeast(qa - qb, l);
    } else if qb > qa {
      assert (qb - qa) * l == -((qa - qb) * l);
      MulAtLeast(qb - qa, l);
    }
  }

  // lookupMailServer: every way to fail, and the address it builds.
  function MailServerFor(domain: string, errorCount: nat, answer: MxAnswer): (r: Result<string, DnsError>)
    ensures r.Ok? ==> answer.Records? && |r.value| >= 3 && r.value[|r.value| - 3..] == ":25"
  {
    if Loopback(domain) then Err(InvalidDomain)
    else if answer.ResolverFailed? then Err(Resolver)
    else if answer.hosts == [] then Err(NoRecord)
    else
      var mx := answer.hosts[RoundRobin(errorCount, |answer.hosts|)];
      if |mx| == 0 then Err(BadRecord)
      else if Loopback(mx[..|mx| - 1]) then Err(InvalidHost)
      else Ok(mx[..|mx| - 1] + ":25")
  }

  method LookupMailServer(domain: string, errorCount: nat, answer: MxAnswer) returns (r: Result<string, DnsError>)
    ensures r == MailServerFor(domain, errorCount, answer)
  {
    if domain == "localhost" || domain == "127.0.0.1" {
      return Err(InvalidDomain);
    }
    if answer.ResolverFailed? {
      return Err(Resolver);
    }
    var mx := GetRoundElement(answer.hosts, errorCount);
    if mx.None? {
      return Err(NoRecord);
    }
    if |mx.value| == 0 {
      return Err(BadRecord);
    }
    var host := mx.value[..|mx.value| - 1];
    if host == "localhost" || host == "127.0.0.1" {
      return Err(InvalidHost);
    }
    return Ok(host + ":25");
  }

  // The lookup of attempt k of an entry gives this server.
  predicate Resolves(domain: string, k: nat, answer: MxAnswer, server: string) {
    && domain !in {"localhost", "127.0.0.1"}
    && answer.Records? && answer.hosts != []
    && var host := answer.hosts[k % |answer.hosts|];
       && host != "" && host[..|host| - 1] !in {"localhost", "127.0.0.1"}
       && server == host[..|host| - 1] + ":25"
  }

  lemma LookupIff(domain: string, k: nat, answer: MxAnswer, server: string)
    ensures MailServerFor(domain, k, answer) == Ok(server) <==> Resolves(domain, k, answer, server)
  {
  }

  // A list lookupMailServer accepts at every position.
  predicate UsableList(domain: string, hosts: seq<string>) {
    && !Loopback(domain)
    && hosts != []
    && forall i :: 0 <= i < |hosts| ==> |hosts[i]| > 0 && !Loopback(hosts[i][..|hosts[i]| - 1])
  }

  // The address of the exchanger at one position of a usable list.
  function HostAddress(domain: string, hosts: seq<string>, position: nat): string
    requires UsableList(domain, hosts) && position < |hosts|
  {
    hosts[position][..|hosts[position]| - 1] + ":25"
  }

  lemma UsableListNeverFails(domain: string, hosts: seq<string>, errorCount: nat)
    requires UsableList(domain, hosts)
    ensures MailServerFor(domain, errorCount, Records(hosts))
            == Ok(HostAddress(domain, hosts, RoundRobin(errorCount, |hosts|)))
  {
  }
}
