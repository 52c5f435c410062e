/** The request layer: the fixed endpoint and command names, the merge of the
    caller's query parameters over the defaults, and the sequential
    one-request-per-domain fan-out. The HTTP GET itself is a parameter
    (`Transport`): it receives the position of the request within its loop,
    the URL and the final query, and either yields the decoded response or
    the error it raised. Because the position is an input, two requests for
    the same URL and query may be answered differently. */
module Api {
  import opened Wrappers
  import opened PyDict

  const EndpointPrefix := "https://"
  const EndpointSuffix := ".mxrouting.net:2222"
  const DomainsCmd := "CMD_API_SHOW_DOMAINS"
  const PopCmd := "CMD_API_POP"
  const ForwardersCmd := "CMD_API_EMAIL_FORWARDERS"
  const DnsCmd := "CMD_API_DNS_CONTROL"

  /** What a failed request raises: the transport's error (bad status,
      timeout, connection failure) or a body that is not JSON. */
  datatype ApiError =
    | RequestFailed(detail: string)
    | JsonDecodeFailed(body: string)

  /** The HTTP GET with basic authentication: the n-th request of a loop,
      applied to a URL and a query. */
  type Transport<R> = (nat, string, Dict<string, string>) -> Result<R, ApiError>

  type Query = Dict<string, string>

  /** The URL of a command on the account's host. */
  function Url(host: string, cmd: string): string
  {
    EndpointPrefix + host + EndpointSuffix + "/" + cmd
  }

  const DefaultParams: Query := [("json", "yes")]

  /** The query actually sent: the defaults, overridden and extended by the
      caller's parameters (`params or {}` treats a missing dict as empty). */
  function RequestParams(params: Option<Query>): (r: Query)
    requires params.Some? ==> Valid(params.value)
    ensures Valid(r)
    ensures |r| >= 1 && r[0].0 == "json"
    ensures params.None? ==> r == DefaultParams
    ensures params.Some? ==> forall k :: k in Keys(r) <==> k == "json" || k in Keys(params.value)
    ensures params.Some? ==> forall k :: k in Keys(params.value) ==> Get(r, k) == Get(params.value, k)
    ensures params.Some? && "json" !in Keys(params.value) ==> Get(r, "json") == Some("yes")
  {
    var p := if params.Some? then params.value else [];
    var r := Update(DefaultParams, p);
    DedupFromProps(Keys(DefaultParams), Keys(p));
    UpdateValid(DefaultParams, p);
    assert Keys(r)[..1] == ["json"];
    assert forall k :: k in Keys(p) ==> Get(r, k) == Get(p, k) by {
      forall k | k in Keys(p) {
        UpdateGet(DefaultParams, p, k);
      }
    }
    UpdateGet(DefaultParams, p, "json");
    r
  }

  /** `make_api_request(cmd, params)`, as the n-th request of its loop: one
      GET of the command's URL with the merged query; whatever the transport
      raises propagates. */
  function MakeApiRequest<R>(host: string, send: Transport<R>, n: nat, cmd: string, params: Option<Query>): Result<R, ApiError>
    requires params.Some? ==> Valid(params.value)
  {
    send(n, Url(host, cmd), RequestParams(params))
  }

  /** The per-domain query `{'domain': domain, 'action': action}`. */
  function DomainQuery(domain: string, action: string): Query
  {
    [("domain", domain), ("action", action)]
  }

  /** The request the fan-out issues for the domain at position n. */
  function FetchFor<R>(host: string, send: Transport<R>, n: nat, cmd: string, action: string, domain: string): Result<R, ApiError>
  {
    MakeApiRequest(host, send, n, cmd, Some(DomainQuery(domain, action)))
  }

  /** A well-formed query without a `json` key is sent as json=yes followed
      by the query's own entries in order. */
  lemma RequestParamsFresh(q: Query)
    requires Valid(q) && "json" !in Keys(q)
    ensures RequestParams(Some(q)) == [("json", "yes")] + q
  {
    assert Valid(DefaultParams + q) by {
      forall i, j | 0 <= i < j < |DefaultParams + q|
        ensures (DefaultParams + q)[i].0 != (DefaultParams + q)[j].0
      {
        if i > 0 {
          assert (DefaultParams + q)[i] == q[i - 1];
        }
        assert (DefaultParams + q)[j] == q[j - 1];
        assert Keys(q)[j - 1] == q[j - 1].0;
      }
    }
    UpdateFresh(DefaultParams, q);
  }

  /** The query sent for a domain holds exactly json=yes, domain and action,
      in that order. */
  lemma DomainRequestQuery(domain: string, action: string)
    ensures RequestParams(Some(DomainQuery(domain, action))) == [("json", "yes"), ("domain", domain), ("action", action)]
  {
    var q := DomainQuery(domain, action);
    assert Keys(q) == ["domain", "action"];
    RequestParamsFresh(q);
  }

  /** The DNS-control request for a domain sends exactly json=yes and the domain. */
  lemma DnsRequestQuery(domain: string)
    ensures RequestParams(Some([("domain", domain)])) == [("json", "yes"), ("domain", domain)]
  {
    var q: Query := [("domain", domain)];
    assert Keys(q) == ["domain"];
    RequestParamsFresh(q);
  }

  /** The position of the last occurrence of x in xs. */
  function LastIndex<T(==)>(xs: seq<T>, x: T): (i: nat)
    requires x in xs
    ensures i < |xs| && xs[i] == x
    ensures forall j :: i < j < |xs| ==> xs[j] != x
  {
    if x in xs[1..] then
      var k := LastIndex(xs[1..], x);
      assert forall j :: k + 1 < j < |xs| ==> xs[j] == xs[1..][j - 1];
      k + 1
    else
      assert forall j :: 0 < j < |xs| ==> xs[j] == xs[1..][j - 1];
      0
  }

  /** The loop of `get_email_data_per_domain`, continuing from the dict built
      so far: `responses[i]` is what the request for `domains[i]` yields. One
      request per domain in order, `result[domain] = response`, and the first
      error aborts the whole loop, so no later response is used. */
  function Collect<R>(acc: Dict<string, R>, domains: seq<string>, responses: seq<Result<R, ApiError>>): (r: Result<Dict<string, R>, ApiError>)
    requires |responses| == |domains|
    ensures r.Ok? ==> Keys(r.value) == DedupFrom(Keys(acc), domains)
    decreases |domains|
  {
    if |domains| == 0 then Ok(acc)
    else
      match responses[0]
      case Err(e) => Err(e)
      case Ok(v) => Collect(Set(acc, domains[0], v), domains[1..], responses[1..])
  }

  /** The loop succeeds exactly when every request does. */
  lemma {:induction false} CollectOk<R>(acc: Dict<string, R>, domains: seq<string>, responses: seq<Result<R, ApiError>>)
    requires |responses| == |domains|
    ensures Collect(acc, domains, responses).Ok? <==> forall i :: 0 <= i < |responses| ==> responses[i].Ok?
    decreases |domains|
  {
    if |domains| > 0 && responses[0].Ok? {
      CollectOk(Set(acc, domains[0], responses[0].value), domains[1..], responses[1..]);
      assert forall i :: 1 <= i < |responses| ==> responses[1..][i - 1] == responses[i];
    }
  }

  /** A failed loop carries the error of the first request that failed. */
  lemma {:induction false} CollectErr<R>(acc: Dict<string, R>, domains: seq<string>, responses: seq<Result<R, ApiError>>) returns (i: nat)
    requires |responses| == |domains|
    requires Collect(acc, domains, responses).Err?
    ensures i < |responses| && responses[i] == Err(Collect(acc, domains, responses).error)
    ensures forall j :: 0 <= j < i ==> responses[j].Ok?
    decreases |domains|
  {
    if responses[0].Err? {
      i := 0;
    } else {
      var k := CollectErr(Set(acc, domains[0], responses[0].value), domains[1..], responses[1..]);
      i := k + 1;
      assert responses[1..][k] == responses[i];
      assert forall j :: 1 <= j < i ==> responses[1..][j - 1] == responses[j];
    }
  }

  /** A key the input never named keeps what the starting dict held. */
  lemma {:induction false} CollectKeeps<R>(acc: Dict<string, R>, domains: seq<string>, responses: seq<Result<R, ApiError>>, d: string)
    requires |responses| == |domains|
    requires Collect(acc, domains, responses).Ok?
    requires d !in domains
    ensures Get(Collect(acc, domains, responses).value, d) == Get(acc, d)
    decreases |domains|
  {
    if |domains| > 0 {
      var v := responses[0].value;
      assert d != domains[0] && d !in domains[1..];
      CollectKeeps(Set(acc, domains[0], v), domains[1..], responses[1..], d);
      SetGet(acc, domains[0], v, d);
    }
  }

  /** A head that no later position repeats is not in the tail. */
  lemma NotInTail<T>(xs: seq<T>)
    requires |xs| > 0 && forall j :: 0 < j < |xs| ==> xs[j] != xs[0]
    ensures xs[0] !in xs[1..]
  {
    forall j | 0 <= j < |xs| - 1
      ensures xs[1..][j] != xs[0]
    {
      assert xs[1..][j] == xs[j + 1];
    }
  }

  /** A position no later one repeats keeps that property in the tail. */
  lemma LastInTail<T>(xs: seq<T>, i: nat)
    requires 0 < i < |xs| && forall j :: i < j < |xs| ==> xs[j] != xs[i]
    ensures xs[1..][i - 1] == xs[i]
    ensures forall j :: i - 1 < j < |xs| - 1 ==> xs[1..][j] != xs[1..][i - 1]
  {
    forall j | i - 1 < j < |xs| - 1
      ensures xs[1..][j] != xs[1..][i - 1]
    {
      assert xs[1..][j] == xs[j + 1];
    }
  }

  /** In a successful loop with result r, the entry of the domain at
      position i holds the response to request i when no later position
      names that domain again: a repeated domain keeps the place of its first
      occurrence but the value of its last request. */
  lemma {:induction false} CollectValues<R>(acc: Dict<string, R>, domains: seq<string>, responses: seq<Result<R, ApiError>>, i: nat, r: Dict<string, R>)
    requires |responses| == |domains|
    requires Collect(acc, domains, responses) == Ok(r)
    requires i < |domains|
    requires forall j :: i < j < |domains| ==> domains[j] != domains[i]
    ensures Get(r, domains[i]).Some?
    ensures responses[i] == Ok(Get(r, domains[i]).value)
    decreases |domains|
  {
    var v := responses[0].value;
    var acc' := Set(acc, domains[0], v);
    if i > 0 {
      LastInTail(domains, i);
      CollectValues(acc', domains[1..], responses[1..], i - 1, r);
      assert responses[1..][i - 1] == responses[i];
    } else {
      NotInTail(domains);
      CollectKeeps(acc', domains[1..], responses[1..], domains[0]);
      SetGet(acc, domains[0], v, domains[0]);
    }
  }

  /** What each request of the fan-out would yield: the request for the
      domain at position i is the i-th of the loop. */
  function Responses<R>(host: string, send: Transport<R>, cmd: string, action: string, domains: seq<string>): (rs: seq<Result<R, ApiError>>)
    ensures |rs| == |domains|
  {
    seq(|domains|, i requires 0 <= i < |domains| => FetchFor(host, send, i, cmd, action, domains[i]))
  }

  /** `get_email_data_per_domain(cmd, domains, action)`. */
  function FanOut<R>(host: string, send: Transport<R>, cmd: string, action: string, domains: seq<string>): (r: Result<Dict<string, R>, ApiError>)
    ensures |domains| == 0 ==> r == Ok([])
  {
    Collect([], domains, Responses(host, send, cmd, action, domains))
  }

  /** A fan-out succeeds exactly when every per-domain request does. */
  lemma FanOutOk<R>(host: string, send: Transport<R>, cmd: string, action: string, domains: seq<string>)
    ensures FanOut(host, send, cmd, action, domains).Ok?
        <==> forall i :: 0 <= i < |domains| ==> FetchFor(host, send, i, cmd, action, domains[i]).Ok?
  {
    var rs := Responses(host, send, cmd, action, domains);
    CollectOk([], domains, rs);
    assert forall i :: 0 <= i < |domains| ==> rs[i] == FetchFor(host, send, i, cmd, action, domains[i]);
  }

  /** A successful fan-out has one entry per distinct input domain, in
      first-occurrence order, each holding the response to the last request
      for that domain; no other domain has an entry. */
  lemma FanOutValues<R>(host: string, send: Transport<R>, cmd: string, action: string, domains: seq<string>)
    requires FanOut(host, send, cmd, action, domains).Ok?
    ensures Keys(FanOut(host, send, cmd, action, domains).value) == Dedup(domains)
    ensures Distinct(Keys(FanOut(host, send, cmd, action, domains).value))
    ensures forall d :: d in domains ==>
      && Get(FanOut(host, send, cmd, action, domains).value, d).Some?
      && FetchFor(host, send, LastIndex(domains, d), cmd, action, d) == Ok(Get(FanOut(host, send, cmd, action, domains).value, d).value)
    ensures forall d :: d !in domains ==> Get(FanOut(host, send, cmd, action, domains).value, d) == None
  {
    var rs := Responses(host, send, cmd, action, domains);
    var r := FanOut(host, send, cmd, action, domains).value;
    var empty: Dict<string, R> := [];
    assert Keys(empty) == [];
    DedupProps(domains);
    forall d | d in domains
      ensures Get(r, d).Some?
      ensures FetchFor(host, send, LastIndex(domains, d), cmd, action, d) == Ok(Get(r, d).value)
    {
      var i := LastIndex(domains, d);
      CollectValues(empty, domains, rs, i, r);
      assert rs[i] == FetchFor(host, send, i, cmd, action, d);
    }
    forall d | d !in domains
      ensures Get(r, d) == None
    {
      CollectKeeps(empty, domains, rs, d);
    }
  }

  /** A failed fan-out carries the error of the first failing request, and
      every request before it succeeded. */
  lemma FanOutError<R>(host: string, send: Transport<R>, cmd: string, action: string, domains: seq<string>) returns (failed: nat)
    requires FanOut(host, send, cmd, action, domains).Err?
    ensures failed < |domains|
    ensures FetchFor(host, send, failed, cmd, action, domains[failed]) == Err(FanOut(host, send, cmd, action, domains).error)
    ensures forall j :: 0 <= j < failed ==> FetchFor(host, send, j, cmd, action, domains[j]).Ok?
  {
    var rs := Responses(host, send, cmd, action, domains);
    failed := CollectErr([], domains, rs);
    assert forall j :: 0 <= j <= failed ==> rs[j] == FetchFor(host, send, j, cmd, action, domains[j]);
  }

  /** Each entry of a successful fan-out, read in order, is a domain of the
      input paired with the response to the last request for it. */
  lemma FanOutEntries<R>(host: string, send: Transport<R>, cmd: string, action: string, domains: seq<string>)
    requires FanOut(host, send, cmd, action, domains).Ok?
    ensures var r := FanOut(host, send, cmd, action, domains).value;
      forall i :: 0 <= i < |r| ==>
        && r[i].0 in domains
        && FetchFor(host, send, LastIndex(domains, r[i].0), cmd, action, r[i].0) == Ok(r[i].1)
  {
    var r := FanOut(host, send, cmd, action, domains).value;
    FanOutValues(host, send, cmd, action, domains);
    DedupProps(domains);
    forall i | 0 <= i < |r|
      ensures r[i].0 in domains
      ensures FetchFor(host, send, LastIndex(domains, r[i].0), cmd, action, r[i].0) == Ok(r[i].1)
    {
      assert r[i].0 == Keys(r)[i];
      assert Valid(r);
      GetAt(r, i);
    }
  }
}
