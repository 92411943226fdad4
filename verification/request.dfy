/** One stats request of the polling engine: choosing the endpoint and
    building its URI from the engine's options, then turning the HTTP
    outcome into a decoded payload or an error. The HTTP client and the
    JSON decoder are not modelled; a `Server` stands for what they deliver. */
module StatsRequest {
  import opened Outcomes
  import opened Decimal
  import opened GoInt
  import Conn

  newtype byte = x: int | 0 <= x < 256

  const CR: byte := 13
  const LF: byte := 10

  /** The longest body excerpt an error message carries. */
  const MaxExcerpt: nat := 80

  /** The value of the `subs` query parameter when subscriptions are shown. */
  const DisplaySubscriptions: int := 1

  /** The aggregate server status; only the counters the monitor derives rates from. */
  datatype Varz = Varz(mem: Int64, inMsgs: Int64, outMsgs: Int64, inBytes: Int64, outBytes: Int64)

  const EmptyVarz := Varz(0, 0, 0, 0, 0)

  /** The connection list. */
  datatype Connz = Connz(numConns: int, limit: int, conns: seq<Conn.ConnInfo>)

  const EmptyConnz := Connz(0, 0, [])

  datatype Endpoint = VarzEndpoint | ConnzEndpoint

  /** A decoded response: the type is fixed by the endpoint. */
  datatype Statz = VarzStatz(varz: Varz) | ConnzStatz(connz: Connz)

  /** The engine's request-shaping options. */
  datatype Engine = Engine(uri: string, conns: int, sortOpt: string, displaySubs: bool)

  /** What the HTTP client delivers for one GET: a failure to connect, a
      failure to read the body, or a status code with the body. */
  datatype HttpResponse = TransportFailure(cause: string) | ReadFailure(cause: string) | Reply(status: int, body: seq<byte>)

  /** The server as the engine sees it: the response to each URI and the
      JSON decoding of a body into each payload type. */
  datatype Server = Server(
    get: string -> HttpResponse,
    decodeVarz: seq<byte> -> Option<Varz>,
    decodeConnz: seq<byte> -> Option<Connz>)

  /** The errors a request reports; each stands for one message format. */
  datatype Error =
    | InvalidPath(path: string)
    | GetFailed(cause: string)
    | ReadFailed(cause: string)
    | StatusFailed(status: int, excerpt: seq<byte>)
    | UnmarshalFailed

  /** The query string of a connection-list request. */
  function ConnzQuery(e: Engine): string {
    "?limit=" + IntToString(e.conns) + "&sort=" + e.sortOpt
    + (if e.displaySubs then "&subs=" + IntToString(DisplaySubscriptions) else "")
  }

  /** The URI to fetch for a path and the payload type it decodes to; only
      the two status paths are known. */
  function Target(e: Engine, path: string): (r: Option<(string, Endpoint)>)
    ensures r.Some? <==> path == "/varz" || path == "/connz"
    ensures r.Some? ==> (r.value.1 == VarzEndpoint <==> path == "/varz")
    ensures path == "/varz" ==> r.value.0 == e.uri + "/varz"
    ensures path == "/connz" ==> r.value.0 == e.uri + "/connz" + ConnzQuery(e)
  {
    if path == "/varz" then Some((e.uri + path, VarzEndpoint))
    else if path == "/connz" then Some((e.uri + path + ConnzQuery(e), ConnzEndpoint))
    else None
  }

  predicate IsLineBreak(b: byte) {
    b == CR || b == LF
  }

  /** `bytes.IndexAny(body, "\r\n")`: the first CR or LF, or -1 when there is none. */
  function IndexOfLineBreak(body: seq<byte>): (r: int)
    ensures -1 <= r < |body|
    ensures r >= 0 ==> IsLineBreak(body[r])
    ensures forall i :: 0 <= i < |body| && (r < 0 || i < r) ==> !IsLineBreak(body[i])
  {
    if |body| == 0 then -1
    else if IsLineBreak(body[0]) then 0
    else
      var r := IndexOfLineBreak(body[1..]);
      if r < 0 then -1 else r + 1
  }

  /** The error excerpt as the code computes it: up to the first line break,
      capped at 80 bytes. Without a line break the end index stays -1 and
      `body[:end]` panics, which is the None here. */
  function ExcerptAsWritten(body: seq<byte>): (r: Option<seq<byte>>)
    ensures r.None? <==> forall i :: 0 <= i < |body| ==> !IsLineBreak(body[i])
  {
    var found := IndexOfLineBreak(body);
    var end := if found > MaxExcerpt as int then MaxExcerpt as int else found;
    if end < 0 then None else Some(body[..end])
  }

  /** A non-200 reply with an empty body (or any body without a line break)
      makes the as-written excerpt panic. */
  lemma ExcerptAsWrittenPanicsOnEmptyBody()
    ensures ExcerptAsWritten([]) == None
    ensures ExcerptAsWritten([79, 75]) == None
  {
  }

  /** The intended excerpt: the body up to its first line break, or the
      whole body when it has none, capped at 80 bytes. */
  function Excerpt(body: seq<byte>): (r: seq<byte>)
    ensures |r| <= MaxExcerpt && r <= body
    ensures forall i :: 0 <= i < |r| ==> !IsLineBreak(r[i])
    ensures |r| == MaxExcerpt || |r| == |body| || IsLineBreak(body[|r|])
    ensures ExcerptAsWritten(body).Some? ==> ExcerptAsWritten(body).value == r
  {
    var found := IndexOfLineBreak(body);
    var limit := if found < 0 then |body| else found;
    body[..if limit > MaxExcerpt then MaxExcerpt else limit]
  }

  function Decode(endpoint: Endpoint, body: seq<byte>, srv: Server): (r: Result<Statz, Error>)
    ensures endpoint == VarzEndpoint ==>
      r == (if srv.decodeVarz(body).Some? then Success(VarzStatz(srv.decodeVarz(body).value)) else Failure(UnmarshalFailed))
    ensures endpoint == ConnzEndpoint ==>
      r == (if srv.decodeConnz(body).Some? then Success(ConnzStatz(srv.decodeConnz(body).value)) else Failure(UnmarshalFailed))
    ensures r.Success? ==> (r.value.VarzStatz? <==> endpoint == VarzEndpoint)
    ensures r.Failure? ==> r.error == UnmarshalFailed
  {
    match endpoint
    case VarzEndpoint =>
      (match srv.decodeVarz(body)
       case Some(v) => Success(VarzStatz(v))
       case None => Failure(UnmarshalFailed))
    case ConnzEndpoint =>
      (match srv.decodeConnz(body)
       case Some(c) => Success(ConnzStatz(c))
       case None => Failure(UnmarshalFailed))
  }

  /** `Engine.Request`: an unknown path fails before any HTTP call; otherwise
      the response to the target URI is decoded when its status is 200 and
      reported as an error carrying status and excerpt when it is not. */
  function Request(e: Engine, path: string, srv: Server): (r: Result<Statz, Error>)
    ensures Target(e, path).None? ==> r == Failure(InvalidPath(path))
    ensures r.Success? ==>
      && Target(e, path).Some?
      && srv.get(Target(e, path).value.0).Reply?
      && srv.get(Target(e, path).value.0).status == 200
      && (r.value.VarzStatz? <==> path == "/varz")
    ensures r.Failure? && r.error.StatusFailed? ==>
      && Target(e, path).Some?
      && srv.get(Target(e, path).value.0).Reply?
      && srv.get(Target(e, path).value.0).status == r.error.status != 200
      && r.error.excerpt == Excerpt(srv.get(Target(e, path).value.0).body)
    ensures (Target(e, path).Some? && srv.get(Target(e, path).value.0).Reply?
      && srv.get(Target(e, path).value.0).status != 200) ==>
      r == Failure(StatusFailed(srv.get(Target(e, path).value.0).status, Excerpt(srv.get(Target(e, path).value.0).body)))
    ensures (Target(e, path).Some? && srv.get(Target(e, path).value.0).Reply?
      && srv.get(Target(e, path).value.0).status == 200) ==>
      r == Decode(Target(e, path).value.1, srv.get(Target(e, path).value.0).body, srv)
    ensures Target(e, path).Some? && srv.get(Target(e, path).value.0).TransportFailure? ==>
      r == Failure(GetFailed(srv.get(Target(e, path).value.0).cause))
    ensures Target(e, path).Some? && srv.get(Target(e, path).value.0).ReadFailure? ==>
      r == Failure(ReadFailed(srv.get(Target(e, path).value.0).cause))
  {
    match Target(e, path)
    case None => Failure(InvalidPath(path))
    case Some((uri, endpoint)) =>
      match srv.get(uri)
      case TransportFailure(cause) => Failure(GetFailed(cause))
      case ReadFailure(cause) => Failure(ReadFailed(cause))
      case Reply(status, body) =>
        if status != 200 then Failure(StatusFailed(status, Excerpt(body)))
        else Decode(endpoint, body, srv)
  }

  /** Splits s at every occurrence of sep. */
  function SplitOn(s: string, sep: char): (r: seq<string>)
    ensures |r| >= 1
    decreases |s|
  {
    if |s| == 0 then [""]
    else
      var rest := SplitOn(s[1..], sep);
      if s[0] == sep then [""] + rest else [[s[0]] + rest[0]] + rest[1..]
  }

  lemma {:induction false} SplitOnFree(a: string, sep: char)
    requires sep !in a
    ensures SplitOn(a, sep) == [a]
    decreases |a|
  {
    if |a| > 0 {
      assert sep !in a[1..];
      SplitOnFree(a[1..], sep);
      assert [a[0]] + a[1..] == a;
    }
  }

  lemma {:induction false} SplitOnFirst(a: string, sep: char, b: string)
    requires sep !in a
    ensures SplitOn(a + [sep] + b, sep) == [a] + SplitOn(b, sep)
    decreases |a|
  {
    var s := a + [sep] + b;
    if |a| == 0 {
      assert s[1..] == b;
    } else {
      assert s[1..] == a[1..] + [sep] + b;
      assert sep !in a[1..];
      SplitOnFirst(a[1..], sep, b);
      assert [a[0]] + a[1..] == a;
    }
  }

  /** Reads the connection limit, sort option and subscription flag back
      from a connection-list query string. */
  function ReadConnzQuery(q: string): Option<(int, string, bool)> {
    if |q| >= 1 && q[0] == '?' then
      var parts := SplitOn(q[1..], '&');
      if (|parts| == 2 || (|parts| == 3 && parts[2] == "subs=1"))
         && |parts[0]| >= 6 && parts[0][..6] == "limit="
         && |parts[1]| >= 5 && parts[1][..5] == "sort="
         && ParseInt(parts[0][6..]).Some?
      then Some((ParseInt(parts[0][6..]).value, parts[1][5..], |parts| == 3))
      else None
    else None
  }

  /** The query string carries exactly the engine's limit, sort option and
      subscription flag, provided the sort option has no '&' of its own. */
  lemma ConnzQueryRoundTrip(e: Engine)
    requires '&' !in e.sortOpt
    ensures ReadConnzQuery(ConnzQuery(e)) == Some((e.conns, e.sortOpt, e.displaySubs))
  {
    var limit := "limit=" + IntToString(e.conns);
    var sort := "sort=" + e.sortOpt;
    var q := ConnzQuery(e);
    ConnzQueryParts(e);
    var parts := SplitOn(q[1..], '&');
    assert parts[0] == limit && parts[1] == sort;
    assert limit[..6] == "limit=" && limit[6..] == IntToString(e.conns);
    assert sort[..5] == "sort=" && sort[5..] == e.sortOpt;
    IntToStringRoundTrip(e.conns);
  }

  /** The query string splits at '&' into its limit, sort and optional subs parameters. */
  lemma ConnzQueryParts(e: Engine)
    requires '&' !in e.sortOpt
    ensures |ConnzQuery(e)| >= 1 && ConnzQuery(e)[0] == '?'
    ensures SplitOn(ConnzQuery(e)[1..], '&')
      == ["limit=" + IntToString(e.conns), "sort=" + e.sortOpt] + (if e.displaySubs then ["subs=1"] else [])
  {
    var limit := "limit=" + IntToString(e.conns);
    var sort := "sort=" + e.sortOpt;
    IntToStringHasNoAmpersand(e.conns);
    SubsParameter();
    if e.displaySubs {
      assert ConnzQuery(e) == "?" + limit + "&" + sort + "&subs=1";
      QueryWithSubs(limit, sort);
    } else {
      assert ConnzQuery(e) == "?" + limit + "&" + sort + "";
      QueryWithoutSubs(limit, sort);
    }
  }

  lemma SubsParameter()
    ensures "&subs=" + IntToString(DisplaySubscriptions) == "&subs=1"
  {
    assert IntToString(1) == NatToString(1) == [DigitChar(1)] == "1";
  }

  lemma QueryWithSubs(limit: string, sort: string)
    requires '&' !in limit && '&' !in sort
    ensures SplitOn(("?" + limit + "&" + sort + "&subs=1")[1..], '&') == [limit, sort, "subs=1"]
  {
    assert ("?" + limit + "&" + sort + "&subs=1")[1..] == limit + ['&'] + sort + ['&'] + "subs=1";
    SplitThree(limit, sort, "subs=1");
  }

  lemma QueryWithoutSubs(limit: string, sort: string)
    requires '&' !in limit && '&' !in sort
    ensures SplitOn(("?" + limit + "&" + sort + "")[1..], '&') == [limit, sort]
  {
    assert ("?" + limit + "&" + sort + "")[1..] == limit + ['&'] + sort;
    SplitTwo(limit, sort);
  }

  lemma SplitTwo(a: string, b: string)
    requires '&' !in a && '&' !in b
    ensures SplitOn(a + ['&'] + b, '&') == [a, b]
  {
    SplitOnFirst(a, '&', b);
    SplitOnFree(b, '&');
  }

  lemma SplitThree(a: string, b: string, c: string)
    requires '&' !in a && '&' !in b && '&' !in c
    ensures SplitOn(a + ['&'] + b + ['&'] + c, '&') == [a, b, c]
  {
    assert a + ['&'] + b + ['&'] + c == a + ['&'] + (b + ['&'] + c);
    SplitOnFirst(a, '&', b + ['&'] + c);
    SplitTwo(b, c);
  }

  lemma IntToStringHasNoAmpersand(i: int)
    ensures '&' !in IntToString(i)
  {
    var s := IntToString(i);
    assert forall m :: 0 <= m < |s| ==> s[m] == '-' || IsDigit(s[m]);
  }
}
