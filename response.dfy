/** The HTTP response the handler fills in: status, headers and body, and
    the fixed error pages and server identity. */
module Http {
  import opened Utf8

  const StatusOk: int := 200
  const StatusBadRequest: int := 400
  const StatusNotFound: int := 404
  const StatusInternalServerError: int := 500

  const ErrBadRequest: seq<byte> := ByteString(ErrorPage("400", "Bad Request"))
  const ErrNotFound: seq<byte> := ByteString(ErrorPage("404", "Not Found"))
  const ErrInternalServerError: seq<byte> :=
    ByteString(ErrorPage("500", "Internal Server Error"))

  const PageOpen: string := "<html><body><h1>"
  const PageClose: string := "</h1></body></html>"

  /** The text of an error page: an HTML document whose heading is the
      status code and its reason phrase. */
  function ErrorPage(code: string, reason: string): string
  {
    PageOpen + code + " " + reason + PageClose
  }

  const ServerHeader: string := "Server"

  /** `SERVER_VERSION`: the program name and the package version, which is
      fixed at build time and so is a parameter here. */
  function ServerId(packageVersion: string): string
  {
    "hyttpd/" + packageVersion
  }

  /** The server names the program and carries the package version
      verbatim: two versions give the same header exactly when they are
      equal. */
  lemma ServerIdVersion(v: string, w: string)
    ensures ServerId(v)[..7] == "hyttpd/" && ServerId(v)[7..] == v
    ensures ServerId(v) == ServerId(w) <==> v == w
  {
    assert ServerId(v)[7..] == v;
    assert ServerId(w)[7..] == w;
  }

  /** The heading of an error page starts with the status code. */
  lemma ErrorPageCode(code: string, reason: string)
    requires |code| == 3
    ensures ErrorPage(code, reason)[..16] == PageOpen
    ensures ErrorPage(code, reason)[16..19] == code
  {
    assert ErrorPage(code, reason) == PageOpen + (code + (" " + reason + PageClose));
  }

  /** Each error page names its own status code where its heading starts,
      so the three pages differ. */
  lemma ErrorPagesNameStatus()
    ensures ErrBadRequest[16..19] == ByteString("400")
    ensures ErrNotFound[16..19] == ByteString("404")
    ensures ErrInternalServerError[16..19] == ByteString("500")
    ensures ErrBadRequest != ErrNotFound && ErrNotFound != ErrInternalServerError
      && ErrBadRequest != ErrInternalServerError
  {
    var t400 := ErrorPage("400", "Bad Request");
    var t404 := ErrorPage("404", "Not Found");
    var t500 := ErrorPage("500", "Internal Server Error");
    ErrorPageCode("400", "Bad Request");
    ErrorPageCode("404", "Not Found");
    ErrorPageCode("500", "Internal Server Error");
    ByteStringSlice(t400, 16, 19);
    ByteStringSlice(t404, 16, 19);
    ByteStringSlice(t500, 16, 19);
    assert ErrBadRequest[18] != ErrNotFound[18];
    assert ErrBadRequest[16] != ErrInternalServerError[16];
    assert ErrNotFound[16] != ErrInternalServerError[16];
  }

  /** Before `start` a response takes a status and headers; after it, body
      writes; after `end`, nothing. */
  datatype Phase = Fresh | Streaming | Ended

  class Response {
    var status: int
    var headers: map<string, string>
    var body: seq<byte>
    var phase: Phase

    /** A response as the transport hands it over: status 200, no headers. */
    constructor ()
      ensures status == StatusOk && headers == map[] && body == [] && phase == Fresh
    {
      status := StatusOk;
      headers := map[];
      body := [];
      phase := Fresh;
    }

    /** `status_mut()` assignment. */
    method SetStatus(code: int)
      requires phase == Fresh
      modifies this
      ensures status == code
      ensures headers == old(headers) && body == old(body) && phase == old(phase)
    {
      status := code;
    }

    /** `headers_mut().set(...)`: replaces any earlier value. */
    method SetHeader(name: string, value: string)
      requires phase == Fresh
      modifies this
      ensures headers == old(headers)[name := value]
      ensures status == old(status) && body == old(body) && phase == old(phase)
    {
      headers := headers[name := value];
    }

    /** `start()`: commits status and headers; the body follows. */
    method Start()
      requires phase == Fresh
      modifies this
      ensures phase == Streaming
      ensures status == old(status) && headers == old(headers) && body == old(body)
    {
      phase := Streaming;
    }

    /** `write`: the whole chunk is appended to the body. */
    method Write(bytes: seq<byte>)
      requires phase == Streaming
      modifies this
      ensures body == old(body) + bytes
      ensures status == old(status) && headers == old(headers) && phase == old(phase)
    {
      body := body + bytes;
    }

    /** `end()`: the body is complete. */
    method End()
      requires phase == Streaming
      modifies this
      ensures phase == Ended
      ensures status == old(status) && headers == old(headers) && body == old(body)
    {
      phase := Ended;
    }

    /** `send(bytes)`: start, write the bytes, end. */
    method Send(bytes: seq<byte>)
      requires phase == Fresh
      modifies this
      ensures phase == Ended && body == old(body) + bytes
      ensures status == old(status) && headers == old(headers)
    {
      Start();
      Write(bytes);
      End();
    }
  }
}
