# Klein request compatibility wrapper and in-memory session store, in Dafny

This project models two small stateful pieces of Klein, a web micro-framework
built on Twisted.

The first is `HTTPRequestWrappingIRequest`. It presents a legacy Twisted
request through Klein's modern request interface. The model follows what
`src/klein/test/test_request_compat.py` requires of it:

- `method` is the legacy method bytes decoded as ASCII.
- `uri` is a structured URI. Its scheme is `https` when the legacy request
  is secure and `http` otherwise. Host and port are copied, userinfo is
  absent, and path, query and fragment come from the legacy path.
- `headers` is a read-only view over the legacy header store. Names are
  matched without regard to ASCII case.
- The body is one-shot. `bodyAsFount()` succeeds once and raises
  `FountAlreadyAccessedError` afterwards. `bodyAsBytes()` yields the whole
  body and then answers later calls from its cache, without reading the body
  source again.

The second is `MemorySessionStore` from the forms example
(`docs/introduction/codeexamples/forms.py`). It is a dictionary from session
identifier to `MemorySession`:

- `new_session` files a session under the hex encoding of 32 random bytes.
- `load_session` returns the stored session when its confidentiality flag
  matches.
- On a flag mismatch, `load_session` evicts the entry and fails with
  `NoSuchSession`.
- On an absent identifier, `load_session` fails with `NoSuchSession` and
  changes nothing.

Layout, one module per file:

- `results.dfy`: `Option` and `Result`. These stand in for exceptions and for
  `succeed`/`fail` Deferreds.
- `ascii.dfy`: bytes, the ASCII codec, and ASCII lower-casing.
- `binascii.dfy`: `hexlify` and its inverse `unhexlify`.
- `urls.dfy`: the structured URI, and the split of a request target into
  path, query and fragment (section 3 of RFC 3986). It includes the round
  trip from a URI to its request target and back.
- `headers.dfy`: the read-only header view.
- `message.dfy`: the one-shot body state machine (`Fresh`, `FountTaken`,
  `BytesCached`) as pure functions, with lemmas over any sequence of body
  calls.
- `request_compat.dfy`: the `LegacyRequest` record, whose default field
  values are those of the tests' `legacyRequest` helper. It also holds the
  `RequestWrapper` class, and the test cases as methods and lemmas.
- `sessions.dfy`: `MemorySession`, the `MemorySessionStore` class, and `Load`,
  the function that specifies `load_session`.

The implementation of `HTTPRequestWrappingIRequest` (`src/klein/_request_compat.py`)
is not part of this model. The tests leave three behaviours open, and the
model fixes them as follows:

- a `bodyAsBytes()` after a `bodyAsFount()` fails with
  `FountAlreadyAccessedError`, because the fount it would collect is gone;
- a `bodyAsFount()` after `bodyAsBytes()` fails too;
- a host or path that is not ASCII gives an error result.

## Model

| member | source | states |
|---|---|---|
| `Ascii.Decode` | src/klein/test/test_request_compat.py:69-71 | ASCII decoding succeeds exactly on bytes below 128, keeps the length and maps each byte to the character with the same code; a failure names the first byte of 128 or more |
| `Ascii.DecodeEncode` | src/klein/test/test_request_compat.py:69-71 | decoding the ASCII encoding of ASCII text gives the text back |
| `RequestCompat.RequestWrapper.Method` | src/klein/test/test_request_compat.py:63-71 | `method` succeeds exactly when the legacy method bytes are ASCII, and its text encodes back to those bytes |
| `RequestCompat.MethodOfUppercase` | src/klein/test/test_request_compat.py:63-71 | for every non-empty method of upper-case ASCII letters, `method` returns that text |
| `RequestCompat.RequestWrapper.Uri` | src/klein/test/test_request_compat.py:73-116 | `uri` succeeds exactly when host and path are ASCII; its scheme is `https` iff the request is secure, else `http`; userinfo is absent; host encodes back to the legacy host; port is copied; the path is rooted with at least one segment |
| `Urls.Split` | src/klein/test/test_request_compat.py:83-85 | splitting at a separator gives at least one part, no part contains the separator, and joining the parts gives the text back |
| `Urls.SplitJoin` | src/klein/test/test_request_compat.py:83-85 | splitting the join of separator-free parts gives the parts back |
| `Urls.ParseRenderQuery` | src/klein/test/test_request_compat.py:83-85 | parsing the rendered query (`&`-separated, `=` before each value) gives the parameters back, except the single empty parameter, which renders as empty query text and so parses as no parameters |
| `Urls.ParseRenderTarget` | src/klein/test/test_request_compat.py:79-95 | parsing the request target rendered from a well-formed URI gives back its path segments, query and fragment |
| `Urls.RenderTargetAscii` | src/klein/test/test_request_compat.py:83-91 | the request target of a well-formed URI is ASCII, so the legacy path of the round-trip construction can always be encoded |
| `RequestCompat.UriRoundTrip` | src/klein/test/test_request_compat.py:73-116 | a legacy request built from a well-formed URI (secure iff `https`, its host, port and target) gives back that URI, equal field by field |
| `RequestCompat.RequestWrapper.Headers` | src/klein/test/test_request_compat.py:118-126 | `headers` is a view whose raw pairs are the legacy request's headers |
| `Headers.HeaderView.GetValues` | src/klein/test/test_request_compat.py:118-126 | a value is listed for a name exactly when some header whose name matches it up to ASCII case carries that value |
| `Headers.ValuesForMembership` | src/klein/test/test_request_compat.py:118-126 | the filtered value list holds exactly the values of the headers with the matching lower-cased name |
| `Headers.ValuesForAppend` | src/klein/test/test_request_compat.py:118-126 | lookup keeps the store's order: the values for two concatenated header lists are those of the first followed by those of the second |
| `Headers.GetValuesIgnoresCase` | src/klein/test/test_request_compat.py:118-126 | names equal up to ASCII case look up the same values |
| `Headers.GetValuesLowered` | src/klein/test/test_request_compat.py:118-126 | looking up a lower-cased name is looking up the name |
| `RequestCompat.RequestWrapper.constructor` | src/klein/test/test_request_compat.py:60 | a new wrapper holds its legacy request, is fresh, has not read the body source, and satisfies the one-shot invariant |
| `RequestCompat.RequestWrapper.BodyAsFount` | src/klein/test/test_request_compat.py:128-136 | on a fresh wrapper returns a fount over the body and moves to `FountTaken`; in any other state fails with `FountAlreadyAccessed` and changes nothing; keeps the one-shot invariant (fresh exactly when the source is unread, at most one read, a cache holds the whole body) |
| `RequestCompat.RequestWrapper.BodyAsBytes` | src/klein/test/test_request_compat.py:138-161 | on a fresh wrapper returns the whole body and caches it; once cached returns the cached bytes and changes nothing, so the source is not read again; after a fount was taken fails with `FountAlreadyAccessed`; every success is exactly the legacy body; keeps the one-shot invariant, so the source is read at most once |
| `Message.TakeFount` | src/klein/test/test_request_compat.py:128-136 | the fount is issued only from `Fresh`, and issuing it counts one read of the source |
| `Message.CollectBytes` | src/klein/test/test_request_compat.py:138-161 | collecting bytes answers from the cache, fails after a fount was taken, and from `Fresh` reads the source once and caches exactly the body |
| `Message.RunKeepsOneShot` | src/klein/test/test_request_compat.py:128-161 | over any sequence of body calls the state never returns to `Fresh`, the source is read at most once, at most one fount is issued, and every successful `bodyAsBytes` yields exactly the body |
| `Message.OneShotFromFresh` | src/klein/test/test_request_compat.py:150-161 | from a fresh wrapper, any sequence of calls reads the source at most once and issues at most one fount |
| `Message.NoFountAfterTaken` | src/klein/test/test_request_compat.py:128-136 | once the body was taken in either form, no later call issues a fount |
| `RequestCompat.BodyAsFountTwice` | src/klein/test/test_request_compat.py:128-136 | on any legacy request, including the default empty body, the first `bodyAsFount()` succeeds and the second fails with `FountAlreadyAccessed` |
| `RequestCompat.BodyAsBytesOnce` | src/klein/test/test_request_compat.py:138-148 | for every byte string, `bodyAsBytes()` yields exactly that string |
| `RequestCompat.BodyAsBytesCached` | src/klein/test/test_request_compat.py:150-161 | two `bodyAsBytes()` calls return the same value, equal to the body, with one read of the source |
| `RequestCompat.EmptyBodyThenFount` | src/klein/test/test_request_compat.py:36-54 | on the default request the body collects to empty bytes, and a `bodyAsFount()` afterwards fails |
| `RequestCompat.DefaultMethod` | src/klein/test/test_request_compat.py:36-54 | the default legacy request's method is `GET` |
| `RequestCompat.DefaultUri` | src/klein/test/test_request_compat.py:36-54 | the default legacy request's URI is `http://localhost:8080/`: no userinfo, one empty path segment, no query, no fragment |
| `Binascii.Hexlify` | docs/introduction/codeexamples/forms.py:56 | the identifier has two lower-case hex digits per random byte, 64 for 32 bytes |
| `Binascii.UnhexlifyHexlify` | docs/introduction/codeexamples/forms.py:56 | unhexlify undoes hexlify |
| `Binascii.HexlifyInjective` | docs/introduction/codeexamples/forms.py:56 | distinct random bytes give distinct identifiers |
| `Sessions.MemorySessionStore.constructor` | docs/introduction/codeexamples/forms.py:40-44 | a new store has empty storage |
| `Sessions.MemorySessionStore.NewSession` | docs/introduction/codeexamples/forms.py:52-59 | returns a session with the given confidentiality and mechanism under a 64-digit hex identifier; the storage maps that identifier to it and every other entry is unchanged; every session stays filed under its own identifier |
| `Sessions.Load` | docs/introduction/codeexamples/forms.py:61-72 | a load succeeds exactly when the identifier is present with the requested confidentiality, and then returns the stored session with the table unchanged; it evicts exactly that identifier when present with the other confidentiality; otherwise nothing changes |
| `Sessions.MemorySessionStore.LoadSession` | docs/introduction/codeexamples/forms.py:61-72 | absent identifier: `NoSuchSession`, storage unchanged; matching flag: the stored session, storage unchanged; mismatched flag: `NoSuchSession` and exactly that identifier removed; a returned session carries the requested identifier and flag |
| `Sessions.FailedLoadIsFinal` | docs/introduction/codeexamples/forms.py:65-72 | after a failed load, including an eviction, every later load of that identifier fails whatever flag is given |
| `Sessions.SuccessfulLoadRepeats` | docs/introduction/codeexamples/forms.py:65-70 | a successful load leaves the table as it was, so repeating it gives the same result |
| `Sessions.NewThenLoad` | docs/introduction/codeexamples/forms.py:52-72 | a new session loads back with its own flag, is evicted when asked for with the other flag, and cannot be loaded afterwards |

## Left out

- `RequestCompat.UriRoundTrip`: stated only for URIs whose path segments, query parameters and fragment need no percent-encoding, with at least one path segment, and whose query is not a single parameter with empty name and no value (that query renders as a bare `?`, which parses as no parameters). The URL library's normalisation and percent-encoding (`DecodedURL`, `asURI`, `asText`) are not modelled, and neither is the generator of random URLs.
- `RequestCompat.RequestWrapper.Uri`: the port is copied as given. Dropping the default port from the authority and restoring it on parsing is not modelled, because its net effect on the structured URI is nil.
- `RequestCompat.RequestWrapper.Headers`: only the byte-level view is modelled (raw pairs and case-insensitive lookup). Text-keyed lookup and the interface checks (`assertProvides`, `test_interface`) are not.
- `RequestCompat.RequestWrapper.BodyAsBytes`: the body source is bytes that are already available. Chunked push delivery, Deferreds and I/O failures part-way through a read are not modelled, so the intermediate `FountTaken` state inside one `bodyAsBytes()` call is not observable.
- `RequestCompat.BodyAsBytesCached`: Python object identity (`assertIdentical`) is modelled as "returns the cached value and does not read the source again", counted by `sourceReads`.
- `Sessions.MemorySessionStore.NewSession`: the 32 bytes from `urandom(32)` are a parameter. An identifier collision replaces the old entry, as the dictionary assignment does.
- `MemorySession.save`, `MemorySessionStore.procurer`, `sent_insecurely` and the `data` (`Componentized`) field are no-ops or foreign code.
- The form, the templates, the two routes and `app.run` (docs/introduction/codeexamples/forms.py:80-109) are routing, templating and network start-up.
- Concurrency: the wrapper and the store are used by one task at a time, and the model is sequential.
