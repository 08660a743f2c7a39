# HTTP transport of async-jsonrpc, in Dafny

This project models the HTTP transport of the `async-jsonrpc` JSON-RPC 2.0
client (`src/transports/http.rs`). The model covers four parts:

- **`HttpTransportBuilder`.** A class with one field per configuration option. Each setter overwrites its own field and leaves the others alone. `header` and `headers` insert into the default header map. `basic_auth` and `bearer_auth` derive the `Authorization` value. `build` yields a transport.
- **`HttpTransport`.** A class holding a URL, the client configuration and a request-id counter. `prepare` numbers a version 2.0 method call with the counter and advances it by one, wrapping at 2^64 as `AtomicU64::fetch_add` does. `execute` and `execute_batch` wrap one call or many into the payload that goes on the wire.
- **Base64 and UTF-8.** The encodings `basic_auth` relies on: `format!` yields a Rust `String`, and its UTF-8 bytes are what `base64::encode` reads. Base64 is the standard alphabet with `=` padding, as in section 4 of RFC 4648. Each encoding has a strict decoder, and round trips are proved in both directions for each.
- **The unit tests.** The file's own tests are restated as verified claims: the three basic-auth vectors, the bearer vector, and the payloads the `make_jsonrpc_v2_request` server checks.

Modules:

| module | file | contents |
|---|---|---|
| `Wrappers` | `wrappers.dfy` | `Option` and `Result` |
| `Bytes` | `bytes.dfy` | the octet type |
| `Base64` | `base64.dfy` | encoder, strict decoder and round trips |
| `Utf8` | `utf8.dfy` | encoder, strict decoder and round trips |
| `JsonRpc` | `jsonrpc.dfy` | method calls and request payloads, as the transport builds them |
| `Http` | `http.dfy` | the builder, the transport, the `Authorization` values and the id lemmas |
| `CredentialVectors` | `credential_vectors.dfy` | the byte and Base64 values of the test credentials, three octets at a time |
| `HttpTests` | `http_tests.dfy` | the unit tests, and one derived property of the builder |

The code and its doc comments disagree in three places. The model follows the code in each:

- The doc comment of `tcp_nodelay` calls `true` the default (`src/transports/http.rs:145`), but `new` sets the field to `false` (`src/transports/http.rs:49`).
- The doc comment of `pool_idle_timeout` says to pass `None` to disable the timeout (`src/transports/http.rs:127`). The setter takes a `Duration`, though, and always stores `Some` of it (`src/transports/http.rs:130-131`).
- The doc comment of `tcp_keepalive` says the option is not set for `None` (`src/transports/http.rs:153`). The setter takes a `Duration`, though, and always stores `Some` of it (`src/transports/http.rs:154-155`).

## Model

| member | source | states |
|---|---|---|
| Base64.Encode | src/transports/http.rs:65-69 | the encoding has four characters for every started group of three octets |
| Base64.IndexChar | src/transports/http.rs:65-69 | each of the 64 digits is read back as its own index and is never the pad character |
| Base64.CharIndex | src/transports/http.rs:65-69 | every alphabet character is the digit of its own index, so the alphabet is a bijection with 0..63 |
| Base64.EncodeAlphabet | src/transports/http.rs:65-69 | every character of an encoding is an alphabet character or `=` |
| Base64.EncodeAppend | src/transports/http.rs:65-69 | encoding a concatenation whose first part is a whole number of three-octet groups concatenates the encodings |
| Base64.DecodeEncode | src/transports/http.rs:65-69 | decoding an encoding gives back exactly the octets, so encoding is injective |
| Base64.EncodeDecode | src/transports/http.rs:65-69 | every text the strict decoder accepts is the encoding of what it decodes to, so encodings are canonical |
| Utf8.EncodeChar | src/transports/http.rs:65-69 | a character becomes one to four bytes; the lead byte announces the count, and the rest are continuation bytes |
| Utf8.Encode | src/transports/http.rs:65-69 | text becomes between one and four bytes per character |
| Utf8.CharRoundTrip | src/transports/http.rs:65-69 | the strict decoder reads each encoded character back as that character |
| Utf8.DecodeEncode | src/transports/http.rs:65-69 | decoding the bytes of a text gives back the text |
| Utf8.CharEncodesBack | src/transports/http.rs:65-69 | bytes the strict decoder accepts as one character are exactly that character's encoding |
| Utf8.EncodeDecode | src/transports/http.rs:65-69 | every byte string the strict decoder accepts is the encoding of the text it decodes to |
| Utf8.EncodeConcat | src/transports/http.rs:65-69 | the bytes of a concatenation are the concatenated bytes |
| Utf8.EncodeAscii | src/transports/http.rs:65-69 | ASCII text is encoded one byte per character, each byte being the character's code |
| Http.HeaderBytes | src/transports/http.rs:71 | a text passes the per-character header check exactly when its UTF-8 bytes pass the per-byte check `HeaderValue::from_str` makes |
| Http.EncodingIsHeaderText | src/transports/http.rs:71 | "Basic " followed by any Base64 text is valid header text, so the `expect` in `basic_auth` cannot panic |
| Http.BasicAuthValue | src/transports/http.rs:59-73 | the value starts with "Basic "; the rest decodes to "username:password", or to "username:" when no password is given; the value is always a valid header value |
| Http.BasicAuthValueDetermined | src/transports/http.rs:64-70 | any text that starts with "Basic " and whose rest decodes to the credentials text is the `basic_auth` value, so the contract of `BasicAuthValue` fixes the value |
| Http.BasicAuthWithoutPassword | src/transports/http.rs:65-69 | a missing password gives the same header as an empty password |
| Http.BearerAuthValue | src/transports/http.rs:76-83 | for a token that is valid header text, the value is "Bearer " followed by the token unchanged |
| Http.HttpTransportBuilder.constructor | src/transports/http.rs:41-52 | a new builder has no headers and no timeouts, a 90-second pool idle timeout, an unbounded idle pool, no keepalive, and nodelay and https-only both off |
| Http.HttpTransportBuilder.Header | src/transports/http.rs:86-89 | the name is mapped to the value, replacing any earlier value; every other field and header is unchanged |
| Http.HttpTransportBuilder.Headers | src/transports/http.rs:92-95 | every name in the given map takes its value there, other names keep theirs, and the key set is the union; nothing else changes |
| Http.HttpTransportBuilder.BasicAuth | src/transports/http.rs:59-73 | Authorization is set to the basic credentials value; nothing else changes |
| Http.HttpTransportBuilder.BearerAuth | src/transports/http.rs:76-83 | Authorization is set to the bearer value; nothing else changes |
| Http.HttpTransportBuilder.Timeout | src/transports/http.rs:107-110 | the request timeout is set; nothing else changes |
| Http.HttpTransportBuilder.ConnectTimeout | src/transports/http.rs:120-123 | the connect timeout is set; nothing else changes |
| Http.HttpTransportBuilder.PoolIdleTimeout | src/transports/http.rs:130-133 | the pool idle timeout is set; nothing else changes |
| Http.HttpTransportBuilder.PoolMaxIdlePerHost | src/transports/http.rs:136-139 | the idle-per-host bound is set; nothing else changes |
| Http.HttpTransportBuilder.TcpNodelay | src/transports/http.rs:146-149 | the nodelay flag is set; nothing else changes |
| Http.HttpTransportBuilder.TcpKeepalive | src/transports/http.rs:154-157 | the keepalive duration is set; nothing else changes |
| Http.HttpTransportBuilder.HttpsOnly | src/transports/http.rs:166-169 | the https-only flag is set; nothing else changes |
| Http.HttpTransportBuilder.Build | src/transports/http.rs:174-198 | succeeds exactly when the client can be built; the new transport has the URL, the builder's whole configuration and a counter at 1 |
| Http.HttpTransport.constructor | src/transports/http.rs:193-197 | a transport holds its URL and configuration, and its counter starts at 1 |
| Http.HttpTransport.New | src/transports/http.rs:211-213 | the same as building from a new builder: the default configuration and a counter at 1 |
| Http.HttpTransport.Builder | src/transports/http.rs:218-220 | a fresh builder with the default configuration |
| Http.HttpTransport.Prepare | src/transports/http.rs:231-239 | a version 2.0 call with the given method and parameters, numbered with the counter's old value; the counter advances by one modulo 2^64 |
| Http.HttpTransport.PrepareEach | src/transports/http.rs:231-239 | calling `prepare` once per request, in order, returns the calls of `PrepareAll` and leaves the counter where `PrepareAll` does; on a transport whose counter is still 1, fewer than 2^64 calls get ids 1..n |
| Http.HttpTransport.Execute | src/transports/http.rs:241-244 | the payload is a single call, carrying exactly that call |
| Http.HttpTransport.ExecuteBatch | src/transports/http.rs:249-256 | the payload is a batch carrying exactly the given calls, in order |
| Http.PrepareAllIds | src/transports/http.rs:231-239 | the i-th of successive prepares keeps its method and parameters and gets id counter+i modulo 2^64; the counter ends at counter+n modulo 2^64 |
| Http.FreshTransportIds | src/transports/http.rs:231-239 | on a new transport, fewer than 2^64 prepares get ids 1..n: at least 1, strictly increasing, pairwise distinct |
| Http.IdRecursAfterWrap | src/transports/http.rs:232 | after 2^64 prepares the counter has wrapped, and call 2^64 gets the same id as the first |
| Http.BatchOfPreparedCalls | src/transports/http.rs:249-256 | a batch of calls prepared on a new transport keeps the order, methods and parameters, with ids 1..n pairwise distinct |
| HttpTests.UsernamePasswordValue | src/transports/http.rs:265-270 | ("username", "password") gives "Basic " followed by "dXNlcm5hbWU6cGFzc3dvcmQ=" |
| HttpTests.UsernameOnlyValue | src/transports/http.rs:272-274 | ("username", no password) gives "Basic " followed by "dXNlcm5hbWU6" |
| HttpTests.EmptyUsernameValue | src/transports/http.rs:276-278 | ("", "password") gives "Basic " followed by "OnBhc3N3b3Jk" |
| HttpTests.HttpBasicAuth | src/transports/http.rs:264-279 | a new builder given those credentials carries exactly these three Authorization values |
| HttpTests.HttpBearerAuth | src/transports/http.rs:282-286 | a new builder given the token "Hold my bear" carries "Bearer Hold my bear" |
| HttpTests.AuthorizationOverwritten | src/transports/http.rs:86-89 | not one of the file's tests: `bearer_auth` after `basic_auth` leaves only the bearer value, because `header` replaces |
| HttpTests.MakeJsonrpcV2Request | src/transports/http.rs:327-371 | the three payloads the test server expects: `foo` with no params and id 1; `bar` with an empty parameter array and id 1; both in a batch with ids 1 and 2 |

## Left out

- **Network I/O.** `send_request` is not modelled: the POST of the JSON body, awaiting the response and decoding it. The reqwest `Client` is not modelled either. `execute` and `execute_batch` stop at the payload they pass to `send_request`.
- Http.HttpTransportBuilder.Build: the foreign `reqwest::ClientBuilder::build` is represented by the boolean `clientBuilt`. That is the only way `build` fails. What reqwest does with each option is not modelled.
- **JSON serialisation.** Neither requests nor responses are serialised. JSON numbers are kept as integers.
- **Response handling.** The transport never correlates a response with its request id, so the model does not either.
- **Concurrency and sharing.** The counter's atomicity, the `AcqRel` ordering, the `Arc` that clones share, and `async` execution are not modelled. `Prepare` is one sequential step.
- **`send` and `send_batch`.** These default methods of the `Transport` and `BatchTransport` traits live in the crate's transport module, which is not part of this model. `HttpTests.MakeJsonrpcV2Request` writes out their prepare-then-execute order.
- Http.HttpTransportBuilder.Headers: the header map holds one value per name. The multi-value entries that `HeaderMap::extend` can append are not modelled.
- **Header names.** A header name is plain lower-case text. Validation of names by the `http` crate is not modelled.
- Http.HttpTransportBuilder.BearerAuth: the token must be valid header text. The source panics on any other token, through `expect`. `Http.BearerAuthValue` has the same precondition.
- **`Duration`.** It is a natural number of nanoseconds; the transport does no arithmetic on it.
- **`usize`.** It is taken to be 64 bits wide.
- **`Display` on the credentials.** `basic_auth` and `bearer_auth` format them with `Display`. The model takes the strings that formatting produces.
