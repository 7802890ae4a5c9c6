/** `HTTPRequestWrappingIRequest`: the modern request interface over a
    legacy request, with the behaviour its tests fix: the method decoded as
    ASCII, the URI rebuilt field by field, a header view, and the one-shot
    body (`bodyAsFount` once, `bodyAsBytes` cached). */
module RequestCompat {
  import opened Results
  import opened Ascii
  import opened Urls
  import opened Headers
  import opened Message

  /** The fields of a legacy request the wrapper reads. The default values
      are those of the tests' `legacyRequest` helper. */
  datatype LegacyRequest = LegacyRequest(
    path: Bytes := Encode("/"),
    methodBytes: Bytes := Encode("GET"),
    host: Bytes := Encode("localhost"),
    port: int := 8080,
    isSecure: bool := false,
    body: Bytes := [],
    headers: seq<Header> := [])

  class RequestWrapper {
    const legacy: LegacyRequest
    var state: BodyState
    var sourceReads: nat

    /** The body bookkeeping as a value of the one-shot machine. */
    function Machine(): BodyMachine
      reads this
    {
      BodyMachine(state, sourceReads)
    }

    /** The one-shot invariant: the source has been handed out exactly when
        the body is no longer fresh, at most once, and a cache holds the
        whole body. */
    ghost predicate Valid()
      reads this
    {
      Consistent(Machine(), legacy.body)
    }

    constructor (legacy: LegacyRequest)
      ensures Valid()
      ensures this.legacy == legacy
      ensures Machine() == Initial
    {
      this.legacy := legacy;
      state := Fresh;
      sourceReads := 0;
    }

    /** `method`: the legacy method bytes decoded as ASCII. */
    function Method(): (m: Result<string, DecodeError>)
      ensures m.Ok? <==> IsAscii(legacy.methodBytes)
      ensures m.Ok? ==> IsAsciiText(m.value) && Encode(m.value) == legacy.methodBytes
    {
      Decode(legacy.methodBytes)
    }

    /** `uri`: scheme from the secure flag, host and port copied, no
        userinfo, and path, query and fragment read from the legacy path.
        Fails when the host or the path is not ASCII. */
    function Uri(): (u: Result<Url, DecodeError>)
      ensures u.Ok? <==> IsAscii(legacy.host) && IsAscii(legacy.path)
      ensures u.Ok? ==>
        && u.value.scheme == (if legacy.isSecure then "https" else "http")
        && u.value.userinfo == ""
        && IsAsciiText(u.value.host) && Encode(u.value.host) == legacy.host
        && u.value.port == legacy.port
        && u.value.rooted
        && |u.value.path| >= 1
    {
      match Decode(legacy.host)
      case Err(e) => Err(e)
      case Ok(host) =>
        match Decode(legacy.path)
        case Err(e) => Err(e)
        case Ok(target) =>
          EncodeDecode(legacy.host);
          var t := ParseTarget(target);
          Ok(Url(if legacy.isSecure then "https" else "http", "", host, legacy.port, true,
                 t.path, t.query, t.fragment))
    }

    /** `headers`: a read-only view over the legacy header store. */
    function Headers(): (view: HeaderView)
      ensures view.RawHeaders() == legacy.headers
    {
      HeaderView(legacy.headers)
    }

    /** `bodyAsFount()`: succeeds on a fresh wrapper, raises
        FountAlreadyAccessed on every later call. */
    method BodyAsFount() returns (f: Result<Fount, BodyError>)
      requires Valid()
      modifies this
      ensures Valid() && sourceReads <= 1
      ensures (Machine(), f) == TakeFount(old(Machine()), legacy.body)
      ensures old(state) == Fresh ==> f == Ok(Fount(legacy.body)) && state == FountTaken
      ensures old(state) != Fresh ==> f == Err(FountAlreadyAccessed) && state == old(state)
    {
      if state != Fresh {
        return Err(FountAlreadyAccessed);
      }
      state := FountTaken;
      sourceReads := sourceReads + 1;
      f := Ok(Fount(legacy.body));
    }

    /** `bodyAsBytes()`: the whole body, collected through the fount on the
        first call and answered from the cache, without touching the source,
        on later calls. */
    method BodyAsBytes() returns (b: Result<Bytes, BodyError>)
      requires Valid()
      modifies this
      ensures Valid() && sourceReads <= 1
      ensures b.Ok? ==> b.value == legacy.body
      ensures (Machine(), b) == CollectBytes(old(Machine()), legacy.body)
      ensures old(state) == Fresh ==> b == Ok(legacy.body) && state == BytesCached(legacy.body)
      ensures old(state).BytesCached? ==> b == Ok(old(state).cached) && unchanged(this)
    {
      if state.BytesCached? {
        return Ok(state.cached);
      }
      var fount := BodyAsFount();
      if fount.Err? {
        return Err(fount.error);
      }
      state := BytesCached(fount.value.data);
      b := Ok(fount.value.data);
    }
  }

  /** test_method: any non-empty method of upper-case ASCII letters comes
      back unchanged. */
  lemma MethodOfUppercase(w: RequestWrapper, methodText: string)
    requires |methodText| >= 1
    requires forall i :: 0 <= i < |methodText| ==> 'A' <= methodText[i] <= 'Z'
    requires w.legacy.methodBytes == Encode(methodText)
    ensures w.Method() == Ok(methodText)
  {
    DecodeEncode(methodText);
  }

  /** test_uri: a request whose secure flag, host, port and path are taken
      from a URI gives back that URI, field by field. */
  lemma UriRoundTrip(w: RequestWrapper, u: Url)
    requires WellFormed(u)
    requires w.legacy.isSecure == (u.scheme == "https")
    requires w.legacy.host == Encode(u.host)
    requires w.legacy.port == u.port
    requires IsAsciiText(RenderTarget(u)) && w.legacy.path == Encode(RenderTarget(u))
    ensures w.Uri() == Ok(u)
  {
    DecodeEncode(u.host);
    DecodeEncode(RenderTarget(u));
    ParseRenderTarget(u);
  }

  /** test_bodyAsFountTwice: the first call succeeds, the second raises. */
  method BodyAsFountTwice(legacy: LegacyRequest) returns (first: Result<Fount, BodyError>, second: Result<Fount, BodyError>)
    ensures first == Ok(Fount(legacy.body))
    ensures second == Err(FountAlreadyAccessed)
  {
    var request := new RequestWrapper(legacy);
    first := request.BodyAsFount();
    second := request.BodyAsFount();
  }

  /** test_bodyAsBytes: the bytes are exactly the legacy body. */
  method BodyAsBytesOnce(data: Bytes) returns (body: Result<Bytes, BodyError>)
    ensures body == Ok(data)
  {
    var request := new RequestWrapper(LegacyRequest(body := data));
    body := request.BodyAsBytes();
  }

  /** test_bodyAsBytesCached: two calls give the same cached value and
      the body source is handed out once. */
  method BodyAsBytesCached(data: Bytes) returns (body1: Result<Bytes, BodyError>, body2: Result<Bytes, BodyError>, sourceReads: nat)
    ensures body1 == Ok(data) && body2 == body1
    ensures sourceReads == 1
  {
    var request := new RequestWrapper(LegacyRequest(body := data));
    body1 := request.BodyAsBytes();
    body2 := request.BodyAsBytes();
    sourceReads := request.sourceReads;
  }

  /** An empty body collects to empty bytes, after which the fount is gone. */
  method EmptyBodyThenFount() returns (body: Result<Bytes, BodyError>, fount: Result<Fount, BodyError>)
    ensures body == Ok([])
    ensures fount == Err(FountAlreadyAccessed)
  {
    var request := new RequestWrapper(LegacyRequest());
    body := request.BodyAsBytes();
    fount := request.BodyAsFount();
  }

  /** The defaults of `legacyRequest`: GET on http://localhost:8080/. */
  lemma DefaultMethod(w: RequestWrapper)
    requires w.legacy == LegacyRequest()
    ensures w.Method() == Ok("GET")
  {
    DecodeEncode("GET");
  }

  lemma DefaultUri(w: RequestWrapper)
    requires w.legacy == LegacyRequest()
    ensures w.Uri() == Ok(Url("http", "", "localhost", 8080, true, [""], [], ""))
  {
    DefaultHostAndPath();
  }

  lemma DefaultHostAndPath()
    ensures Decode(LegacyRequest().host) == Ok("localhost")
    ensures Decode(LegacyRequest().path) == Ok("/")
  {
    DecodeEncode("localhost");
    DecodeEncode("/");
  }
}
