/**
  The HTTP transport of the JSON-RPC client (src/transports/http.rs): the
  builder that collects the HTTP client configuration and default headers,
  the authorization header values it derives, the transport's request-id
  counter with `prepare`, and the single/batch payloads `execute` and
  `execute_batch` hand to the network. The network round trip itself (the
  reqwest client and `send_request`) is not part of this model.
*/
module Http {
  import opened Wrappers
  import opened Bytes
  import opened JsonRpc
  import Base64
  import Utf8

  // ==========================================================================
  // Configuration values
  // ==========================================================================

  /** `usize` on a 64-bit target. */
  type usize = x: int | 0 <= x < 0x1_0000_0000_0000_0000

  const USIZE_MAX: usize := 0xFFFF_FFFF_FFFF_FFFF

  /** A `Duration`, counted in nanoseconds; the transport does no arithmetic on it. */
  type Duration = nat

  const SECOND: Duration := 1_000_000_000

  /** A header name, in the lower-case form `HeaderName` stores. */
  type HeaderName = string

  const AUTHORIZATION: HeaderName := "authorization"

  /**
    The bytes `HeaderValue::from_str` accepts: each is a tab, or at least 32
    and not 127.
  */
  predicate IsHeaderValueBytes(b: seq<byte>)
  {
    forall i :: 0 <= i < |b| ==> IsHeaderByte(b[i])
  }

  predicate IsHeaderByte(b: byte)
  {
    b == 9 || (32 <= b && b != 127)
  }

  /**
    The same condition stated per character; `HeaderBytes` proves the two
    agree on the UTF-8 bytes of the text.
  */
  predicate IsHeaderValueText(s: string)
  {
    forall i :: 0 <= i < |s| ==> IsHeaderChar(s[i])
  }

  predicate IsHeaderChar(c: char)
  {
    c == '\t' || (32 <= c as int && c as int != 127)
  }

  lemma HeaderCharBytes(c: char)
    ensures IsHeaderValueText([c]) <==> IsHeaderValueBytes(Utf8.EncodeChar(c))
  {
    var r := Utf8.EncodeChar(c);
    assert [c][0] == c;
    if c as int < 0x80 {
      assert r == [c as int];
    } else {
      assert r[0] >= 0xC0;
      assert forall i :: 0 <= i < |r| ==> r[i] >= 0x80;
    }
  }

  lemma TextConcat(a: string, b: string)
    ensures IsHeaderValueText(a + b) <==> IsHeaderValueText(a) && IsHeaderValueText(b)
  {
    if IsHeaderValueText(a + b) {
      forall i | 0 <= i < |a| ensures IsHeaderChar(a[i]) { assert a[i] == (a + b)[i]; }
      forall i | 0 <= i < |b| ensures IsHeaderChar(b[i]) { assert b[i] == (a + b)[|a| + i]; }
    }
  }

  lemma BytesConcat(a: seq<byte>, b: seq<byte>)
    ensures IsHeaderValueBytes(a + b) <==> IsHeaderValueBytes(a) && IsHeaderValueBytes(b)
  {
    if IsHeaderValueBytes(a + b) {
      forall i | 0 <= i < |a| ensures IsHeaderByte(a[i]) { assert a[i] == (a + b)[i]; }
      forall i | 0 <= i < |b| ensures IsHeaderByte(b[i]) { assert b[i] == (a + b)[|a| + i]; }
    }
  }

  /** A text is valid header text exactly when its UTF-8 bytes are what `HeaderValue::from_str` accepts. */
  lemma {:induction false} HeaderBytes(s: string)
    ensures IsHeaderValueText(s) <==> IsHeaderValueBytes(Utf8.Encode(s))
  {
    if s != [] {
      HeaderCharBytes(s[0]);
      HeaderBytes(s[1..]);
      assert s == [s[0]] + s[1..];
      TextConcat([s[0]], s[1..]);
      BytesConcat(Utf8.EncodeChar(s[0]), Utf8.Encode(s[1..]));
    }
  }

  type HeaderValue = s: string | IsHeaderValueText(s)

  /** One value per name: `HeaderMap::insert` replaces whatever the name had. */
  type HeaderMap = map<HeaderName, HeaderValue>

  /** Everything a builder carries into `build`, field for field. */
  datatype ClientConfig = ClientConfig(
    headers: HeaderMap,
    timeout: Option<Duration>,
    connectTimeout: Option<Duration>,
    poolIdleTimeout: Option<Duration>,
    poolMaxIdlePerHost: usize,
    tcpKeepalive: Option<Duration>,
    tcpNodelay: bool,
    httpsOnly: bool)

  // ==========================================================================
  // Authorization header values
  // ==========================================================================

  const BASIC_PREFIX: string := "Basic "
  const BEARER_PREFIX: string := "Bearer "

  lemma EncodingIsHeaderText(s: string)
    requires forall i :: 0 <= i < |s| ==> Base64.IsEncodingChar(s[i])
    ensures IsHeaderValueText(BASIC_PREFIX + s)
  {
  }

  /**
    The value `basic_auth` puts under Authorization: "Basic " followed by the
    Base64 of the UTF-8 text "username:password" (or "username:" without a
    password). It is always a valid header value, and decoding it gives back
    exactly the credentials text.
  */
  function BasicAuthValue(username: string, password: Option<string>): (value: HeaderValue)
    ensures |value| >= |BASIC_PREFIX| && value[..|BASIC_PREFIX|] == BASIC_PREFIX
    ensures Base64.Decode(value[|BASIC_PREFIX|..]).Some?
    ensures Utf8.Decode(Base64.Decode(value[|BASIC_PREFIX|..]).value)
            == Some(username + ":" + (if password.Some? then password.value else ""))
  {
    var credentials := if password.Some? then username + ":" + password.value else username + ":";
    var auth := Base64.Encode(Utf8.Encode(credentials));
    Utf8.DecodeEncode(credentials);
    Base64.DecodeEncode(Utf8.Encode(credentials));
    Base64.EncodeAlphabet(Utf8.Encode(credentials));
    EncodingIsHeaderText(auth);
    assert (BASIC_PREFIX + auth)[|BASIC_PREFIX|..] == auth;
    assert password.None? ==> credentials == username + ":" + "";
    BASIC_PREFIX + auth
  }

  /**
    The value `bearer_auth` puts under Authorization: "Bearer " followed by the
    token, unchanged. `HeaderValue::from_str(..).expect(..)` panics unless the
    token is valid header text, so callers must pass such a token.
  */
  function BearerAuthValue(token: string): (value: HeaderValue)
    requires IsHeaderValueText(token)
    ensures |value| == |BEARER_PREFIX| + |token|
    ensures value[..|BEARER_PREFIX|] == BEARER_PREFIX && value[|BEARER_PREFIX|..] == token
  {
    BEARER_PREFIX + token
  }

  /**
    The contract of `BasicAuthValue` pins the value down: any text that starts
    with "Basic " and whose rest decodes, through Base64 and then UTF-8, to the
    credentials text is that value.
  */
  lemma BasicAuthValueDetermined(username: string, password: Option<string>, v: string)
    requires |v| >= |BASIC_PREFIX| && v[..|BASIC_PREFIX|] == BASIC_PREFIX
    requires Base64.Decode(v[|BASIC_PREFIX|..]).Some?
    requires Utf8.Decode(Base64.Decode(v[|BASIC_PREFIX|..]).value)
             == Some(username + ":" + (if password.Some? then password.value else ""))
    ensures v == BasicAuthValue(username, password)
  {
    var rest := v[|BASIC_PREFIX|..];
    var bytes := Base64.Decode(rest).value;
    var credentials := username + ":" + (if password.Some? then password.value else "");
    Base64.EncodeDecode(rest);
    Utf8.EncodeDecode(bytes);
    assert password.None? ==> username + ":" == credentials;
    assert v == BASIC_PREFIX + rest;
  }

  /** Leaving out the password encodes the same header as an empty password. */
  lemma BasicAuthWithoutPassword(username: string)
    ensures BasicAuthValue(username, None) == BasicAuthValue(username, Some(""))
  {
    assert username + ":" == username + ":" + "";
  }

  // ==========================================================================
  // The builder
  // ==========================================================================

  datatype BuildError = ClientBuildError

  /** `HttpTransportBuilder`: a configuration record whose setters each overwrite one field. */
  class HttpTransportBuilder {
    var headers: HeaderMap
    var timeout: Option<Duration>
    var connectTimeout: Option<Duration>
    var poolIdleTimeout: Option<Duration>
    var poolMaxIdlePerHost: usize
    var tcpKeepalive: Option<Duration>
    var tcpNodelay: bool
    var httpsOnly: bool

    /** All fields as one value. */
    function Config(): ClientConfig
      reads this
    {
      ClientConfig(headers, timeout, connectTimeout, poolIdleTimeout, poolMaxIdlePerHost,
                   tcpKeepalive, tcpNodelay, httpsOnly)
    }

    /** `new` (and `Default::default`): no headers, no timeouts, 90 s idle pool timeout, unbounded idle pool. */
    constructor ()
      ensures headers == map[]
      ensures timeout == None && connectTimeout == None
      ensures poolIdleTimeout == Some(90 * SECOND)
      ensures poolMaxIdlePerHost == USIZE_MAX
      ensures tcpKeepalive == None
      ensures !tcpNodelay && !httpsOnly
    {
      headers := map[];
      timeout := None;
      connectTimeout := None;
      poolIdleTimeout := Some(90 * SECOND);
      poolMaxIdlePerHost := USIZE_MAX;
      tcpKeepalive := None;
      tcpNodelay := false;
      httpsOnly := false;
    }

    /** Sets `name` to `value`, replacing any earlier value; nothing else changes. */
    method Header(name: HeaderName, value: HeaderValue)
      modifies this
      ensures Config() == old(Config()).(headers := old(headers)[name := value])
    {
      headers := headers[name := value];
    }

    /**
      Adds every header of `headers`: a name it carries takes its value there,
      any other name keeps its value; nothing else changes.
    */
    method Headers(headers: HeaderMap)
      modifies this
      ensures Config() == old(Config()).(headers := old(this.headers) + headers)
      ensures this.headers.Keys == old(this.headers).Keys + headers.Keys
      ensures forall name :: name in headers ==> this.headers[name] == headers[name]
      ensures forall name :: name in old(this.headers) && name !in headers ==> this.headers[name] == old(this.headers)[name]
    {
      this.headers := this.headers + headers;
    }

    /** Sets Authorization to the basic credentials; nothing else changes. */
    method BasicAuth(username: string, password: Option<string>)
      modifies this
      ensures Config() == old(Config()).(headers := old(headers)[AUTHORIZATION := BasicAuthValue(username, password)])
    {
      var basicAuth := BASIC_PREFIX;
      var auth;
      if password.Some? {
        auth := Base64.Encode(Utf8.Encode(username + ":" + password.value));
      } else {
        auth := Base64.Encode(Utf8.Encode(username + ":"));
      }
      basicAuth := basicAuth + auth;
      assert basicAuth == BasicAuthValue(username, password);
      Header(AUTHORIZATION, basicAuth);
    }

    /** Sets Authorization to the bearer token; nothing else changes. */
    method BearerAuth(token: string)
      requires IsHeaderValueText(token)
      modifies this
      ensures Config() == old(Config()).(headers := old(headers)[AUTHORIZATION := BearerAuthValue(token)])
    {
      Header(AUTHORIZATION, BearerAuthValue(token));
    }

    method Timeout(timeout: Duration)
      modifies this
      ensures Config() == old(Config()).(timeout := Some(timeout))
    {
      this.timeout := Some(timeout);
    }

    method ConnectTimeout(timeout: Duration)
      modifies this
      ensures Config() == old(Config()).(connectTimeout := Some(timeout))
    {
      connectTimeout := Some(timeout);
    }

    method PoolIdleTimeout(val: Duration)
      modifies this
      ensures Config() == old(Config()).(poolIdleTimeout := Some(val))
    {
      poolIdleTimeout := Some(val);
    }

    method PoolMaxIdlePerHost(max: usize)
      modifies this
      ensures Config() == old(Config()).(poolMaxIdlePerHost := max)
    {
      poolMaxIdlePerHost := max;
    }

    method TcpNodelay(enabled: bool)
      modifies this
      ensures Config() == old(Config()).(tcpNodelay := enabled)
    {
      tcpNodelay := enabled;
    }

    method TcpKeepalive(val: Duration)
      modifies this
      ensures Config() == old(Config()).(tcpKeepalive := Some(val))
    {
      tcpKeepalive := Some(val);
    }

    method HttpsOnly(enabled: bool)
      modifies this
      ensures Config() == old(Config()).(httpsOnly := enabled)
    {
      httpsOnly := enabled;
    }

    /**
      `build`: a transport for `url` whose client carries this configuration
      and whose id counter starts at 1. `clientBuilt` stands for the outcome of
      the foreign `reqwest::ClientBuilder::build`, the only way `build` fails.
    */
    method Build(url: string, clientBuilt: bool) returns (r: Result<HttpTransport, BuildError>)
      ensures r.Ok? <==> clientBuilt
      ensures r.Ok? ==> fresh(r.value) && r.value.url == url && r.value.config == Config() && r.value.id == 1
    {
      if !clientBuilt {
        return Err(ClientBuildError);
      }
      var transport := new HttpTransport(url, Config());
      return Ok(transport);
    }
  }

  // ==========================================================================
  // The transport
  // ==========================================================================

  /** The call `prepare` makes when the counter reads `counter`. */
  function PreparedCall(counter: u64, methodName: string, params: Option<Params>): MethodCall
  {
    MethodCall(V2_0, methodName, params, Num(counter))
  }

  /** The counter after `fetch_add(1)`, which wraps around at 2^64. */
  function NextId(counter: u64): u64
  {
    (counter + 1) % U64_MODULUS
  }

  /** `HttpTransport`: a target URL, a configured client and a shared request-id counter. */
  class HttpTransport {
    const url: string
    /** The configuration the HTTP client was built with. */
    const config: ClientConfig
    /** The next request id to hand out. */
    var id: u64

    constructor (url: string, config: ClientConfig)
      ensures this.url == url && this.config == config && id == 1
    {
      this.url := url;
      this.config := config;
      id := 1;
    }

    /** `HttpTransport::new`: a transport with the default configuration. */
    static method New(url: string, clientBuilt: bool) returns (r: Result<HttpTransport, BuildError>)
      ensures r.Ok? <==> clientBuilt
      ensures r.Ok? ==> fresh(r.value) && r.value.url == url && r.value.id == 1
      ensures r.Ok? ==> r.value.config == ClientConfig(map[], None, None, Some(90 * SECOND), USIZE_MAX, None, false, false)
    {
      var builder := new HttpTransportBuilder();
      r := builder.Build(url, clientBuilt);
    }

    /** `HttpTransport::builder`: the same as a new builder. */
    static method Builder() returns (builder: HttpTransportBuilder)
      ensures fresh(builder)
      ensures builder.Config() == ClientConfig(map[], None, None, Some(90 * SECOND), USIZE_MAX, None, false, false)
    {
      builder := new HttpTransportBuilder();
    }

    /**
      `prepare`: a version 2.0 call of `methodName` with `params` as given,
      numbered with the counter's current value; the counter moves on by one.
    */
    method Prepare(methodName: string, params: Option<Params>) returns (call: MethodCall)
      modifies this`id
      ensures call == PreparedCall(old(id), methodName, params)
      ensures id == NextId(old(id))
    {
      var current := id;
      id := NextId(id);
      call := MethodCall(V2_0, methodName, params, Num(current));
    }

    /**
      `prepare` called once per request, in order: the calls and the counter
      are those of `PrepareAll`. On a transport whose counter is still at 1,
      fewer than 2^64 calls get the ids 1, 2, ..., n.
    */
    method PrepareEach(requests: seq<Request>) returns (calls: seq<MethodCall>)
      modifies this`id
      ensures (calls, id) == PrepareAll(old(id), requests)
      ensures old(id) == 1 && |requests| < U64_MODULUS ==>
        |calls| == |requests| && forall i :: 0 <= i < |calls| ==> calls[i].id == Num(i + 1)
    {
      ghost var start := id;
      calls := [];
      var i := 0;
      while i < |requests|
        invariant 0 <= i <= |requests|
        invariant PrepareAll(start, requests).0 == calls + PrepareAll(id, requests[i..]).0
        invariant PrepareAll(start, requests).1 == PrepareAll(id, requests[i..]).1
      {
        assert requests[i..][1..] == requests[i + 1..];
        var call := Prepare(requests[i].0, requests[i].1);
        calls := calls + [call];
        i := i + 1;
      }
      assert requests[i..] == [];
      assert calls + [] == calls;
      if start == 1 && |requests| < U64_MODULUS {
        FreshTransportIds(requests);
      }
    }

    /** The payload `execute` sends: the call on its own. */
    static function Execute(call: MethodCall): (request: MethodCallRequest)
      ensures request.Single? && Calls(request) == [call]
    {
      Single(call)
    }

    /** The payload `execute_batch` sends: all the calls, as an array, in the order given. */
    static function ExecuteBatch(calls: seq<MethodCall>): (request: MethodCallRequest)
      ensures request.Batch? && Calls(request) == calls
    {
      Batch(calls)
    }
  }

  // ==========================================================================
  // Successive prepare calls
  // ==========================================================================

  /** A method name and its parameters, as handed to `prepare`. */
  type Request = (string, Option<Params>)

  /** The calls that successive `prepare` calls return, and the counter they leave behind. */
  function PrepareAll(counter: u64, requests: seq<Request>): (seq<MethodCall>, u64)
    decreases |requests|
  {
    if requests == [] then ([], counter)
    else
      var (rest, last) := PrepareAll(NextId(counter), requests[1..]);
      ([PreparedCall(counter, requests[0].0, requests[0].1)] + rest, last)
  }

  lemma NextIdShift(counter: u64, k: nat)
    ensures (NextId(counter) + k) % U64_MODULUS == (counter + 1 + k) % U64_MODULUS
  {
  }

  /**
    The i-th of successive `prepare` calls keeps its method and parameters and
    gets the id the counter held, i steps on (modulo 2^64).
  */
  lemma {:induction false} PrepareAllIds(counter: u64, requests: seq<Request>)
    ensures var (calls, last) := PrepareAll(counter, requests);
      && |calls| == |requests|
      && (forall i :: 0 <= i < |calls| ==>
            calls[i] == PreparedCall((counter + i) % U64_MODULUS, requests[i].0, requests[i].1))
      && last == (counter + |requests|) % U64_MODULUS
    decreases |requests|
  {
    if requests != [] {
      var next := NextId(counter);
      PrepareAllIds(next, requests[1..]);
      var (rest, last) := PrepareAll(next, requests[1..]);
      var calls := PrepareAll(counter, requests).0;
      forall i | 0 <= i < |calls|
        ensures calls[i] == PreparedCall((counter + i) % U64_MODULUS, requests[i].0, requests[i].1)
      {
        if i > 0 {
          assert calls[i] == rest[i - 1];
          NextIdShift(counter, i - 1);
        }
      }
      NextIdShift(counter, |requests| - 1);
    }
  }

  /**
    On a fresh transport (counter 1), fewer than 2^64 successive `prepare`
    calls get the ids 1, 2, ..., n: all at least 1, strictly increasing and
    so pairwise distinct.
  */
  lemma FreshTransportIds(requests: seq<Request>)
    requires |requests| < U64_MODULUS
    ensures var calls := PrepareAll(1, requests).0;
      && |calls| == |requests|
      && (forall i :: 0 <= i < |calls| ==> calls[i].id == Num(i + 1))
      && (forall i, j :: 0 <= i < j < |calls| ==> 1 <= calls[i].id.n < calls[j].id.n)
  {
    PrepareAllIds(1, requests);
  }

  /** The counter wraps: after 2^64 calls on a fresh transport, the first id comes round again. */
  lemma IdRecursAfterWrap(requests: seq<Request>)
    requires |requests| == U64_MODULUS + 1
    ensures var calls := PrepareAll(1, requests).0;
      |calls| == |requests| && calls[U64_MODULUS].id == calls[0].id
  {
    PrepareAllIds(1, requests);
  }

  /**
    A batch of calls prepared in succession on a fresh transport keeps their
    order, and its ids are 1..n, pairwise distinct.
  */
  lemma BatchOfPreparedCalls(requests: seq<Request>)
    requires |requests| < U64_MODULUS
    ensures var request := HttpTransport.ExecuteBatch(PrepareAll(1, requests).0);
      && |request.calls| == |requests|
      && (forall i :: 0 <= i < |requests| ==>
            request.calls[i].methodName == requests[i].0 && request.calls[i].params == requests[i].1
            && request.calls[i].id == Num(i + 1))
      && (forall i, j :: 0 <= i < j < |requests| ==> request.calls[i].id != request.calls[j].id)
  {
    PrepareAllIds(1, requests);
    FreshTransportIds(requests);
  }
}
