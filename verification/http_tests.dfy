/**
  The unit tests of src/transports/http.rs, restated as verified claims: the
  exact Authorization values of `http_basic_auth` and `http_bearer_auth`, and
  the request payloads that `make_jsonrpc_v2_request` expects the server to
  receive. `AuthorizationOverwritten` adds one derived property of the
  builder that the file's tests do not check.
*/
module HttpTests {
  import opened Wrappers
  import opened Bytes
  import opened JsonRpc
  import opened Http
  import Base64
  import Utf8
  import CredentialVectors

  // ==========================================================================
  // http_basic_auth and http_bearer_auth
  // ==========================================================================

  /** `basic_auth` is determined by the UTF-8 bytes of the credentials text and their Base64. */
  lemma BasicAuthOf(username: string, password: Option<string>, text: string, bytes: seq<byte>, encoded: string)
    requires text == username + ":" + (if password.Some? then password.value else "")
    requires Utf8.Encode(text) == bytes && Base64.Encode(bytes) == encoded
    ensures BasicAuthValue(username, password) == "Basic " + encoded
  {
    assert password.None? ==> username + ":" == username + ":" + "";
  }

  lemma UsernamePasswordPieces()
    ensures BasicAuthValue("username", Some("password")) == "Basic " + ("dXNl" + "cm5h" + "bWU6" + "cGFz" + "c3dv" + "cmQ=")
  {
    CredentialVectors.UsernamePasswordBytes();
    CredentialVectors.UsernamePasswordBase64();
    BasicAuthOf("username", Some("password"), "username" + ":" + "password",
                [117, 115, 101] + [114, 110, 97] + [109, 101, 58] + [112, 97, 115] + [115, 119, 111] + [114, 100],
                "dXNl" + "cm5h" + "bWU6" + "cGFz" + "c3dv" + "cmQ=");
  }

  lemma UsernamePasswordValue()
    ensures BasicAuthValue("username", Some("password")) == "Basic " + "dXNlcm5hbWU6cGFzc3dvcmQ="
  {
    UsernamePasswordPieces();
    CredentialVectors.UsernamePasswordText();
  }

  lemma UsernameOnlyPieces()
    ensures BasicAuthValue("username", None) == "Basic " + ("dXNl" + "cm5h" + "bWU6")
  {
    CredentialVectors.UsernameOnlyBytes();
    CredentialVectors.UsernameOnlyBase64();
    BasicAuthOf("username", None, "username" + ":" + "",
                [117, 115, 101] + [114, 110, 97] + [109, 101, 58], "dXNl" + "cm5h" + "bWU6");
  }

  lemma UsernameOnlyValue()
    ensures BasicAuthValue("username", None) == "Basic " + "dXNlcm5hbWU6"
  {
    UsernameOnlyPieces();
    CredentialVectors.UsernameOnlyText();
  }

  lemma EmptyUsernamePieces()
    ensures BasicAuthValue("", Some("password")) == "Basic " + ("OnBh" + "c3N3" + "b3Jk")
  {
    CredentialVectors.EmptyUsernameBytes();
    CredentialVectors.EmptyUsernameBase64();
    BasicAuthOf("", Some("password"), "" + ":" + "password",
                [58, 112, 97] + [115, 115, 119] + [111, 114, 100], "OnBh" + "c3N3" + "b3Jk");
  }

  lemma EmptyUsernameValue()
    ensures BasicAuthValue("", Some("password")) == "Basic " + "OnBhc3N3b3Jk"
  {
    EmptyUsernamePieces();
    CredentialVectors.EmptyUsernameText();
  }

  /** `http_basic_auth`: the Authorization header a fresh builder carries after `basic_auth`. */
  method HttpBasicAuth() returns (withPassword: HeaderValue, withoutPassword: HeaderValue, emptyUsername: HeaderValue)
    ensures withPassword == "Basic " + "dXNlcm5hbWU6cGFzc3dvcmQ="
    ensures withoutPassword == "Basic " + "dXNlcm5hbWU6"
    ensures emptyUsername == "Basic " + "OnBhc3N3b3Jk"
  {
    var builder := new HttpTransportBuilder();
    builder.BasicAuth("username", Some("password"));
    withPassword := builder.headers[AUTHORIZATION];
    UsernamePasswordValue();

    builder := new HttpTransportBuilder();
    builder.BasicAuth("username", None);
    withoutPassword := builder.headers[AUTHORIZATION];
    UsernameOnlyValue();

    builder := new HttpTransportBuilder();
    builder.BasicAuth("", Some("password"));
    emptyUsername := builder.headers[AUTHORIZATION];
    EmptyUsernameValue();
  }

  /** `http_bearer_auth`: the Authorization header a fresh builder carries after `bearer_auth`. */
  method HttpBearerAuth() returns (bearer: HeaderValue)
    ensures bearer == "Bearer Hold my bear"
  {
    var builder := new HttpTransportBuilder();
    builder.BearerAuth("Hold my bear");
    bearer := builder.headers[AUTHORIZATION];
  }

  /**
    Not one of the file's tests, but a consequence of `header` replacing what
    a name had: `basic_auth` and `bearer_auth` both set the one Authorization
    header, so the later call wins.
  */
  method AuthorizationOverwritten(username: string, password: Option<string>, token: string) returns (value: HeaderValue)
    requires IsHeaderValueText(token)
    ensures value == "Bearer " + token
  {
    var builder := new HttpTransportBuilder();
    builder.BasicAuth(username, password);
    builder.BearerAuth(token);
    value := builder.headers[AUTHORIZATION];
    assert value == BearerAuthValue(token);
  }

  // ==========================================================================
  // make_jsonrpc_v2_request
  // ==========================================================================

  /**
    The payloads the test server checks for on its three paths: a call
    without parameters, a call with an empty parameter array, and a batch of
    both, each sent from a new transport and so numbered from 1. `send` and
    `send_batch` prepare the calls first and then execute them.
  */
  method MakeJsonrpcV2Request() returns (noParams: MethodCallRequest, params: MethodCallRequest, batch: MethodCallRequest)
    ensures noParams == Single(MethodCall(V2_0, "foo", None, Num(1)))
    ensures params == Single(MethodCall(V2_0, "bar", Some(Params.Array([])), Num(1)))
    ensures batch == Batch([MethodCall(V2_0, "foo", None, Num(1)),
                            MethodCall(V2_0, "bar", Some(Params.Array([])), Num(2))])
  {
    var r := HttpTransport.New("http://127.0.0.1:8080/v2_no_params", true);
    var client := r.value;
    var call := client.Prepare("foo", None);
    noParams := HttpTransport.Execute(call);

    r := HttpTransport.New("http://127.0.0.1:8080/v2_params", true);
    client := r.value;
    call := client.Prepare("bar", Some(Params.Array([])));
    params := HttpTransport.Execute(call);

    r := HttpTransport.New("http://127.0.0.1:8080/v2_batch", true);
    client := r.value;
    var first := client.Prepare("foo", None);
    var second := client.Prepare("bar", Some(Params.Array([])));
    batch := HttpTransport.ExecuteBatch([first, second]);
  }
}
