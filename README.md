# Brawl Stars API client: a Dafny model

This project models the request/response layer of a TypeScript client
library for the Brawl Stars REST API (`BrawlStarsClient` and
`BrawlStarsApiError` in `src/client.ts`), and proves properties of it.

The client does four things, each modelled as pure functions over
datatypes:

- **Construction** (`Client.NewClient`). It refuses an empty or absent API
  key. Otherwise it records the base URL (default
  `https://api.brawlstars.com/v1`), the header `Bearer <key>` and
  `Accept: application/json`.
- **Tag encoding** (`Client.EncodeTag`, module `Uri`). One leading `#` is
  stripped and the rest goes through `encodeURIComponent`. That function is
  modelled as the Encode operation of ECMA-262, section 19.2.6, on code
  points: unreserved characters are kept, and every other code point is
  written as UTF-8 with each byte as an upper-case `%HH` triplet (section
  2.1 of RFC 3986). A decoder proves that nothing is lost.
- **Requests** (`Client.RequestOf`). Each of the ten endpoint methods
  (`Client.Endpoint`) builds a path from the source's template. Five of
  them forward the caller's paging options as the request's `params`; the
  other five send none. `Routing.Route` reads a request back into the call
  that built it. This shows that the path string and parameters handed to
  the HTTP library identify the call.
- **Error normalisation** (`Errors.Normalize`). This is `_request`'s case
  split on what the transport reports. A success gives back the body
  unchanged. An HTTP-library error becomes an `ApiError` whose message
  follows a three-step fallback, whose status code is present iff a
  response arrived, and whose `errorData` is that response's body unchanged
  (absent when there is no response or the response has no body). Any
  other thrown value is re-raised unchanged.

The transport is a function parameter (`Client.Transport`): for each
request it gives the outcome the HTTP library would report.
`Client.Call` sends one endpoint's request through it and normalises the
outcome.

Modules follow the source: `Client` (the client class), `Errors` (`_request`
and the error class), `Types` (the two shapes of `src/types.ts` that the
client uses, plus an opaque JSON value), and helpers `Uri`, `Decimal`,
`Paths`, `Routing` and `Wrappers`.

Three details of the code that the model keeps:
- `encodeTag` strips exactly one `#`. A tag not starting with `#` and the
  same tag with one `#` in front give the same path, but `##X` keeps its
  second `#`, which is sent as `%23` (`Client.EncodeTagStripsOneHash`).
- The base URL falls back to the default only when the argument is absent.
  An empty string given as the base URL is kept as it is.
- Country codes and string brawler ids are put into the path raw. A `/`
  in them adds path segments, and two different calls can then send the
  same path (`Routing.RawCountryCodeCollision`). The round trip through
  `Routing.Route` therefore requires them to hold no `/`. It is a statement
  about the path string handed to the HTTP library: a `?` or `#` in a raw
  piece stays in that string, and how the library then reads it as a query
  or a fragment is not modelled.

## Model

| member | source | states |
|---|---|---|
| `Client.NewClient` | src/client.ts:22-33 | Fails, with the fixed message, iff the key is absent or empty. On success the header is exactly `"Bearer " + key`, Accept is `application/json`, and the base URL is the one given, or `https://api.brawlstars.com/v1` when absent. |
| `Client.CredentialKept` | src/client.ts:30 | The authorization header of a constructed client gives back exactly the key it was built with. |
| `Client.EncodeTag` | src/client.ts:56-58 | The result is well-formed encoder output and contains no `/`, `?` or `#`, so a tag cannot add a path segment, a query or a fragment. |
| `Client.EncodeTagWithHash` | src/client.ts:57 | For `t` not starting with `#`, `encodeTag("#" + t) == encodeTag(t)`. |
| `Client.EncodeTagStripsOneHash` | src/client.ts:57 | At most one `#` is stripped: `encodeTag("##" + x)` is `"%23"` followed by the encoding of `x`. |
| `Client.EncodeTagRoundTrip` | src/client.ts:56-58 | Decoding the encoded tag gives the tag without its first `#`. |
| `Uri.EncodeURIComponent` | src/client.ts:57 | The output is a run of unreserved characters and upper-case `%HH` triplets, none of which stands for an unreserved character, and is never shorter than the input. |
| `Uri.EncodeUnique` | src/client.ts:57 | The encoding of `s` is the only text of that form whose percent-decoding is the UTF-8 bytes of `s`: unreserved characters stay literal wherever they occur. |
| `Uri.EncodedUnique` | src/client.ts:57 | Two texts of the encoder's output form that percent-decode to the same bytes are equal. |
| `Uri.EncodeConcat` | src/client.ts:57 | Encoding distributes over concatenation: each character is encoded on its own. |
| `Uri.EncodedHasNoDelimiters` | src/client.ts:57 | Well-formed encoder output holds no `/`, `?` or `#`. |
| `Uri.EncodeIdentity` | src/client.ts:57 | Encoding leaves a string unchanged iff all its characters are unreserved (both directions). |
| `Uri.EncodeRoundTrip` | src/client.ts:57 | Decoding undoes encoding for every string of code points. |
| `Uri.EncodeInjective` | src/client.ts:57 | Two strings have the same encoding iff they are equal. |
| `Uri.PercentRoundTrip` | src/client.ts:57 | Percent-decoding the output gives the UTF-8 bytes of the input. |
| `Uri.Utf8RoundTrip` | src/client.ts:57 | UTF-8 decoding undoes the UTF-8 encoding used by the encoder. |
| `Client.IdString` | src/client.ts:110 | A string id is used unchanged. A numeric id becomes decimal text in canonical form (no leading zero, no `-0`) that parses back to the number and holds no `/`. |
| `Decimal.IntToString` | src/client.ts:110 | The text is digits with a leading `-` exactly for a negative number, and is in canonical form. |
| `Decimal.IntRoundTrip` | src/client.ts:140 | The decimal text of an integer reads back as the same integer. |
| `Decimal.CanonicalUnique` | src/client.ts:110 | The only canonical text that reads as `n` is the decimal text of `n`, so the text `toString` writes is pinned down (no `05` for 5). |
| `Client.RequestOf` | src/client.ts:64-149 | Every request is a GET whose path starts with `/`. The five paged endpoints forward the caller's options unchanged as `params`; the other five send none. |
| `Client.PathIsJoinedSegments` | src/client.ts:66-148 | Each endpoint's path is exactly its template: the segments of the endpoint table (`Client.Segments`) joined by `/`. |
| `Client.PathSegments` | src/client.ts:66-148 | A tag endpoint's path splits into exactly its template's segments, whatever the tag holds. Other endpoints do too when their raw arguments hold no `/`. |
| `Client.PlayerPathExample` | src/client.ts:64-66 | Tag `#ABC123` gives the path `/players/%23ABC123`. |
| `Client.QueryParams` | src/client.ts:36-42 | The query has one entry per present paging field and none for an absent one. Each value is the caller's string, or for `limit` decimal text that parses back to the caller's number. |
| `Client.QueryRoundTrip` | src/client.ts:36-42 | Reading the query back gives exactly the caller's paging options. |
| `Client.Call` | src/client.ts:36-148 | Each endpoint method sends its request through the transport and returns `_request`'s result: success exactly when the transport delivers a body, and then that body; a normalised error exactly for an error the HTTP library reports; any other thrown value re-raised unwrapped. `Client.CallsAreIndependent` and `Client.CallReturnsBody` are stated about it. |
| `Client.CallsAreIndependent` | src/client.ts:36-43 | A call's result depends only on the transport's answer to that call's own request. |
| `Client.CallReturnsBody` | src/client.ts:43 | On success a call returns the response body unchanged. |
| `Errors.ErrorMessage` | src/client.ts:49 | The remote body's message if non-empty; otherwise the transport's message if non-empty; otherwise `An unknown API error occurred`. The result is never empty. |
| `Errors.Normalize` | src/client.ts:36-53 | Ok iff the outcome is a success, and then it is the body unchanged. A library error gives an `ApiError` whose status code is present iff a response arrived (and then equals its status), whose `errorData` is the response body unchanged, and whose message is `ErrorMessage`. Any other thrown value is re-raised unchanged. |
| `Errors.ClubNotFoundExample` | src/client.ts:45-50 | A 404 carrying the not-found envelope gives status 404, that envelope as `errorData`, and the message `Club not found`. |
| `Errors.NoResponseExample` | src/client.ts:45-50 | A library error with no response gives no status code and no `errorData`; its message is the transport's, or the fixed text. |
| `Routing.RequestOfCanonical` | src/client.ts:56-58 | Adding back the single optional `#` or writing a numeric id as its decimal text does not change a call's request. |
| `Routing.RouteRoundTrip` | src/client.ts:64-149 | Reading back any request recovers the call that built it, up to the optional `#` and the form of the id, provided country codes and string ids hold no `/`. |
| `Routing.RequestsIdentifyCalls` | src/client.ts:64-149 | Two such calls send the same request iff they are the same call up to the optional `#` and the form of the id (both directions). |
| `Routing.RawCountryCodeCollision` | src/client.ts:120-142 | A country code containing `/` makes player rankings and brawler rankings send the same path. |

## Left out

- The HTTP library itself is not modelled: request dispatch, joining the base URL with the path, sending the headers, TLS, timeouts and the `isAxiosError` test. The transport is a function parameter, and its outcome is an input datatype (`Errors.Outcome`).
- Async behaviour and concurrent use. Each call is a pure function of its request and the transport's answer.
- The JavaScript class plumbing of the error: `Object.setPrototypeOf` and the `name` field.
- `src/test-cli.ts` (interactive prompt, console output, environment variables, process exit) is not part of this model.
- `src/types.ts` is not part of this model beyond `PagingOptions` and `ClientError`. Success bodies and the error's `detail` are an opaque JSON value. Bodies are not decoded or checked, just as the client does not check them.
- JSON numbers are integers in `Types.Json`. Nothing in the client does arithmetic on them.
- `Uri.EncodeURIComponent`: strings are sequences of Unicode scalar values. A JavaScript string holding a lone surrogate, for which `encodeURIComponent` throws `URIError`, cannot be written, so that error is not modelled.
- `Client.IdString` models numeric ids as integers only, written as their exact decimal digits. It leaves out fractions, `NaN`, infinities, `-0`, the exponent form that `toString` uses from 10^21 up, and integers above 2^53 in magnitude, for which `toString` writes the shortest round-trip digits padded with zeros (2^60 is sent as `1152921504606847000`, not its exact digits); it also admits integers no JavaScript number can hold, such as 2^53 + 1.
- `Types.PagingOptions` models `limit` as an integer; TypeScript's `number` also admits fractions and `NaN`. The client only forwards the value, so nothing it does depends on this. `Client.QueryParams` writes a limit with `Decimal.IntToString`, which agrees with JavaScript's text only for magnitudes up to 2^53; above that the library would send the shortest round-trip digits padded with zeros.
- `Client.QueryParams` models which entries the HTTP library sends and their values. It leaves out how the library serialises them into the URL: its percent-encoding and the order of keys.
- `Errors.Normalize` takes a response body to be a `ClientError` or absent. It leaves out bodies of other shapes, and the JavaScript truthiness rules for a `message` that is not a string.
- `Errors.Outcome` does not model an error response's headers or status text, because the client never reads them.
