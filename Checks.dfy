/** The per-iteration part of tests/sample-test.js's default function that
    is not I/O: the request headers and the six named checks applied to the
    response status. */
module Checks {

  import opened Wrappers

  /** The six checks, in the order the script lists them. */
  datatype Check = Ok200 | NetworkError | Unauthorized | BadGateway | ServiceUnavailable | GatewayTimeout

  const AllChecks: seq<Check> :=
    [Ok200, NetworkError, Unauthorized, BadGateway, ServiceUnavailable, GatewayTimeout]

  /** The name under which each check is reported. */
  function Label(c: Check): string
  {
    match c
    case Ok200 => "200 OK"
    case NetworkError => "[NETWORK ERROR]"
    case Unauthorized => "401 Unauthorized"
    case BadGateway => "502 Bad Gateway"
    case ServiceUnavailable => "503 Service Unavailable"
    case GatewayTimeout => "504 Gateway Timeout"
  }

  /** The predicate of each check: '200 OK' asks for status 200, the other
      five only reject their own status (0 being k6's status for a request
      that got no response). */
  function Passes(c: Check, status: int): bool
  {
    match c
    case Ok200 => status == 200
    case NetworkError => status != 0
    case Unauthorized => status != 401
    case BadGateway => status != 502
    case ServiceUnavailable => status != 503
    case GatewayTimeout => status != 504
  }

  /** The check that is named after an error status, if any. */
  function CheckNamedFor(status: int): (r: Option<Check>)
    ensures r.Some? ==> r.value != Ok200 && !Passes(r.value, status)
    ensures r.Some? <==> status in {0, 401, 502, 503, 504}
  {
    if status == 0 then Some(NetworkError)
    else if status == 401 then Some(Unauthorized)
    else if status == 502 then Some(BadGateway)
    else if status == 503 then Some(ServiceUnavailable)
    else if status == 504 then Some(GatewayTimeout)
    else None
  }

  /** The checks a response with this status fails. */
  function Failed(status: int): set<Check>
  {
    set c | c in AllChecks && !Passes(c, status)
  }

  /** The verdict of `check(...)`: true when every check passed. */
  function AllPass(status: int): (r: bool)
    ensures r <==> status == 200
  {
    assert Ok200 in AllChecks;
    forall c :: c in AllChecks ==> Passes(c, status)
  }

  /** The named outcomes the script hands to k6, one per label. */
  function Outcomes(status: int): (m: map<string, bool>)
    ensures forall c: Check :: Label(c) in m && m[Label(c)] == Passes(c, status)
    ensures forall l :: l in m ==> exists c: Check :: Label(c) == l
  {
    map[Label(Ok200) := Passes(Ok200, status),
        Label(NetworkError) := Passes(NetworkError, status),
        Label(Unauthorized) := Passes(Unauthorized, status),
        Label(BadGateway) := Passes(BadGateway, status),
        Label(ServiceUnavailable) := Passes(ServiceUnavailable, status),
        Label(GatewayTimeout) := Passes(GatewayTimeout, status)]
  }

  /** Every check appears in the list. */
  lemma AllChecksComplete(c: Check)
    ensures c in AllChecks
  {
  }

  /** No two checks share a label, so no outcome overwrites another. */
  lemma LabelsDistinct(c1: Check, c2: Check)
    requires Label(c1) == Label(c2)
    ensures c1 == c2
  {
  }

  /** Exact verdicts by status: 200 passes all six checks; 0, 401, 502, 503
      and 504 fail '200 OK' and their own check; every other status fails
      '200 OK' only. */
  lemma FailedByStatus(status: int)
    ensures status == 200 ==> Failed(status) == {}
    ensures CheckNamedFor(status).Some? ==>
      Failed(status) == {Ok200, CheckNamedFor(status).value}
    ensures status != 200 && CheckNamedFor(status).None? ==> Failed(status) == {Ok200}
  {
    var f := Failed(status);
    forall c: Check
      ensures c in f <==>
        if status == 200 then false
        else c == Ok200 || CheckNamedFor(status) == Some(c)
    {
      AllChecksComplete(c);
    }
    if status == 200 {
      assert forall c: Check :: c !in f;
    }
  }

  /** The request headers: JSON content and the Basic credentials, which are
      the base64 text of `user:password` computed outside this model. */
  function RequestHeaders(credentials: string): (h: map<string, string>)
    ensures h.Keys == {"Content-Type", "Authorization"}
    ensures h["Content-Type"] == "application/json"
    ensures |h["Authorization"]| == 6 + |credentials|
    ensures h["Authorization"][..6] == "Basic " && h["Authorization"][6..] == credentials
  {
    map["Content-Type" := "application/json", "Authorization" := "Basic " + credentials]
  }
}
