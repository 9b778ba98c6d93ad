/** The stand-alone HTTP request parser and response formatter
    (`protocol/http.py`): an object whose `parse` resets its fields, scans the
    request up to the first empty line, reads the request line and the header
    lines between it and the last one, splits a query string off the URI, and
    cuts the body at `Content-Length`. Every step writes the object's fields,
    and an exception leaves the fields as far as the steps before it got. */
module ProtocolHttp {
  import opened PyText
  import opened PyDict
  import opened Percent
  import opened HttpWire
  import opened Io

  /** The fields of an `Http` object. `content` is None both for Python's
      None and before the first parse; `leftData`, `httpMethod`, `uri` and
      `version` are None while the attribute does not exist yet. */
  datatype Fields = Fields(
    headerParams: map<string, string>,
    getParams: map<string, string>,
    content: Option<string>,
    leftData: Option<string>,
    httpMethod: Option<string>,
    uri: Option<string>,
    version: Option<string>)

  /** The fields a step leaves and the exception it raises, if any. */
  datatype Step = Step(state: Fields, err: Option<Exc>)

  /** `headers[1:-1]`: the lines after the request line except the last. */
  function Middle(lines: seq<string>): seq<string> {
    if |lines| >= 2 then lines[1..|lines| - 1] else []
  }

  /** `clean`: both dicts emptied, `content` and `left_data` set to "". */
  function CleanStep(s: Fields): Fields {
    s.(headerParams := map[], getParams := map[], content := Some(""), leftData := Some(""))
  }

  /** `__parse_raw_data`: `content` becomes the text after the first empty
      line, or None without one. */
  function RawStep(s: Fields, data: string): Fields {
    s.(content := Scan(data).body)
  }

  /** `__parse_header`: IndexError without lines; ValueError, with nothing
      assigned, when the request line does not split into three words;
      otherwise the three words, and the middle lines stored over the old
      header dict. */
  function HeaderStep(s: Fields, headers: seq<string>): Step {
    if |headers| == 0 then Step(s, Some(IndexError))
    else match RequestLine(headers[0])
      case None => Step(s, Some(ValueError))
      case Some((m, u, v)) =>
        Step(s.(httpMethod := Some(m), uri := Some(u), version := Some(v),
                headerParams := Update(s.headerParams, HeaderPairs(Middle(headers)))), None)
  }

  /** `__parse_uri`: a URI without '?' stays as it is, undecoded; otherwise
      the decoded part before '?' is the URI and the query is stored. */
  function UriStep(s: Fields): Fields
    requires s.uri.Some?
  {
    match IndexOf(s.uri.value, '?')
    case None => s
    case Some(i) =>
      s.(uri := Some(Unquote(s.uri.value[..i])), getParams := QueryParams(s.getParams, s.uri.value[i + 1..]))
  }

  /** `int(header_params.get('Content-Length', 0))`: None for the ValueError. */
  function ContentLength(h: map<string, string>): Option<int> {
    if "Content-Length" in h then ParseInt(h["Content-Length"]) else Some(0)
  }

  /** `__parse_content`: the length is read first, so a bad length is a
      ValueError even without a body; a missing body (`None[n:]`) is a
      TypeError; otherwise the body is cut in two at the length. */
  function ContentStep(s: Fields): Step {
    match ContentLength(s.headerParams)
    case None => Step(s, Some(ValueError))
    case Some(n) =>
      if s.content.None? then Step(s, Some(TypeError))
      else Step(s.(leftData := Some(SliceFrom(s.content.value, n)), content := Some(SliceTo(s.content.value, n))), None)
  }

  /** `parse(data)` from fields `s`: the steps in order, the first exception
      ending it. */
  function ParseSpec(data: string, s: Fields): Step {
    var s1 := RawStep(CleanStep(s), data);
    var h := HeaderStep(s1, Scan(data).lines);
    if h.err.Some? then h
    else ContentStep(UriStep(h.state))
  }

  /** A request as a client sends it: request line, header lines, the empty
      line, then the body. */
  function Request(m: string, u: string, v: string, headerLines: seq<string>, body: string): string {
    JoinLines([m + " " + u + " " + v] + headerLines) + CRLF + body
  }

  /** A request line of three space-free words, and header lines that are
      lines of their own. */
  predicate WellFormed(m: string, u: string, v: string, headerLines: seq<string>) {
    && ' ' !in m && ' ' !in u && ' ' !in v && IsLine(m + " " + u + " " + v)
    && forall i :: 0 <= i < |headerLines| ==> IsLine(headerLines[i])
  }

  /** The header lines `__parse_header` stores: all but the last. */
  function StoredLines(headerLines: seq<string>): seq<string> {
    if |headerLines| == 0 then [] else headerLines[..|headerLines| - 1]
  }

  /** What `parse` leaves for a well-formed request, whatever the object
      held before: the three words; the header lines but the last stored,
      the last store of a key winning; a URI without '?' kept undecoded
      with no query parameters, else the decoded part before '?' and the
      query's pairs; then a Content-Length that `int()` rejects raises
      ValueError with the body left whole, and any other cuts the body. */
  lemma ParseRequest(m: string, u: string, v: string, headerLines: seq<string>, body: string, s: Fields)
    requires WellFormed(m, u, v, headerLines)
    ensures var r := ParseSpec(Request(m, u, v, headerLines, body), s);
      var stored := Update(map[], HeaderPairs(StoredLines(headerLines)));
      && r.state.headerParams == stored
      && r.state.httpMethod == Some(m) && r.state.version == Some(v)
      && ('?' !in u ==> r.state.uri == Some(u) && r.state.getParams == map[])
      && (IndexOf(u, '?').Some? ==>
            var i := IndexOf(u, '?').value;
            r.state.uri == Some(Unquote(u[..i])) && r.state.getParams == QueryParams(map[], u[i + 1..]))
      && (ContentLength(stored).None? ==>
            r.err == Some(ValueError) && r.state.content == Some(body) && r.state.leftData == Some(""))
      && (ContentLength(stored).Some? ==>
            var n := ContentLength(stored).value;
            && r.err == None
            && r.state.content == Some(SliceTo(body, n)) && r.state.leftData == Some(SliceFrom(body, n)))
  {
    var t := Fields(Update(map[], HeaderPairs(StoredLines(headerLines))), map[], Some(body), Some(""), Some(m), Some(u), Some(v));
    AfterHeader(m, u, v, headerLines, body, s);
    UriStepShape(t);
    ContentStepShape(UriStep(t));
  }

  /** For a well-formed request, the state `__parse_header` leaves, which
      the URI and content steps then finish. */
  lemma AfterHeader(m: string, u: string, v: string, headerLines: seq<string>, body: string, s: Fields)
    requires WellFormed(m, u, v, headerLines)
    ensures ParseSpec(Request(m, u, v, headerLines, body), s) == ContentStep(UriStep(
      Fields(Update(map[], HeaderPairs(StoredLines(headerLines))), map[], Some(body), Some(""), Some(m), Some(u), Some(v))))
  {
    var data := Request(m, u, v, headerLines, body);
    ScanRequest(m, u, v, headerLines, body);
    var t := Fields(Update(map[], HeaderPairs(StoredLines(headerLines))), map[], Some(body), Some(""), Some(m), Some(u), Some(v));
    assert HeaderStep(RawStep(CleanStep(s), data), Scan(data).lines) == Step(t, None);
  }

  /** `__parse_uri` touches only the URI and the GET parameters. */
  lemma UriStepShape(t: Fields)
    requires t.uri.Some?
    ensures var r := UriStep(t);
      && r.headerParams == t.headerParams && r.content == t.content && r.leftData == t.leftData
      && r.httpMethod == t.httpMethod && r.version == t.version
      && ('?' !in t.uri.value ==> r.uri == t.uri && r.getParams == t.getParams)
      && (IndexOf(t.uri.value, '?').Some? ==>
            var i := IndexOf(t.uri.value, '?').value;
            r.uri == Some(Unquote(t.uri.value[..i])) && r.getParams == QueryParams(t.getParams, t.uri.value[i + 1..]))
  {
  }

  /** `__parse_content` on a state holding content: the outcome by the
      stored Content-Length, every other field kept. */
  lemma ContentStepShape(t: Fields)
    requires t.content.Some?
    ensures var r := ContentStep(t);
      && r.state.headerParams == t.headerParams && r.state.getParams == t.getParams
      && r.state.httpMethod == t.httpMethod && r.state.uri == t.uri && r.state.version == t.version
      && (ContentLength(t.headerParams).None? ==> r.err == Some(ValueError) && r.state == t)
      && (ContentLength(t.headerParams).Some? ==>
            var n := ContentLength(t.headerParams).value;
            && r.err == None
            && r.state.content == Some(SliceTo(t.content.value, n))
            && r.state.leftData == Some(SliceFrom(t.content.value, n)))
  {
  }

  /** The scan of a well-formed request: its request line, which unpacks to
      the three words, the header lines, and the body. */
  lemma ScanRequest(m: string, u: string, v: string, headerLines: seq<string>, body: string)
    requires WellFormed(m, u, v, headerLines)
    ensures var lines := Scan(Request(m, u, v, headerLines, body)).lines;
      && lines == [m + " " + u + " " + v] + headerLines
      && RequestLine(lines[0]) == Some((m, u, v))
      && Middle(lines) == StoredLines(headerLines)
    ensures Scan(Request(m, u, v, headerLines, body)).body == Some(body)
  {
    var lines := [m + " " + u + " " + v] + headerLines;
    ScanAssembled(lines, body);
    RequestLineShape(m, u, v);
    assert lines[0] == m + " " + u + " " + v;
    assert Middle(lines) == StoredLines(headerLines);
  }

  /** With a single header line nothing is stored, not even a Content-Length:
      the content comes out empty and the whole body is left over. */
  lemma SingleHeaderIgnored(m: string, u: string, v: string, line: string, body: string, s: Fields)
    requires WellFormed(m, u, v, [line])
    ensures var r := ParseSpec(Request(m, u, v, [line], body), s);
      && r.err == None && r.state.headerParams == map[]
      && r.state.content == Some("") && r.state.leftData == Some(body)
  {
    ParseRequest(m, u, v, [line], body, s);
    assert StoredLines([line]) == [];
    SliceSplits(body, 0);
  }

  /** `clean` runs first, so the dicts, the content and the left-over data
      never depend on an earlier parse, nor does the exception; only a parse
      that fails before the request line unpacks keeps the earlier method,
      URI and version. */
  lemma ParseForgets(data: string, s: Fields, t: Fields)
    ensures var a := ParseSpec(data, s);
      var b := ParseSpec(data, t);
      && a.err == b.err
      && a.state.headerParams == b.state.headerParams && a.state.getParams == b.state.getParams
      && a.state.content == b.state.content && a.state.leftData == b.state.leftData
    ensures var lines := Scan(data).lines;
      |lines| >= 1 && RequestLine(lines[0]).Some? ==> ParseSpec(data, s) == ParseSpec(data, t)
    ensures var lines := Scan(data).lines;
      |lines| == 0 || RequestLine(lines[0]).None? ==>
        var r := ParseSpec(data, s).state;
        r.httpMethod == s.httpMethod && r.uri == s.uri && r.version == s.version
  {
  }

  /** The exceptions of `parse`: IndexError exactly when no line comes
      before the empty line (or the end); TypeError only without the empty
      line; and a parse that raises nothing has cut the body after the empty
      line into content and left-over data that join back to it, the content
      being empty when no Content-Length was stored. */
  lemma ParseOutcome(data: string, s: Fields)
    ensures var r := ParseSpec(data, s);
      && (r.err == Some(IndexError) <==> |Scan(data).lines| == 0)
      && (r.err == Some(TypeError) ==> Scan(data).body.None?)
      && (r.err.None? ==>
            && Scan(data).body.Some? && r.state.content.Some? && r.state.leftData.Some?
            && r.state.content.value + r.state.leftData.value == Scan(data).body.value
            && ("Content-Length" !in r.state.headerParams ==> r.state.content == Some("")))
  {
    var r := ParseSpec(data, s);
    if r.err.None? {
      var body := Scan(data).body.value;
      var n := ContentLength(r.state.headerParams).value;
      SliceSplits(body, n);
    }
  }

  /** The response `format` builds reads back, with the request scan, as its
      status line, one `key: value` line per entry of the updated dict, and
      exactly the content after the empty line; its Content-Length is the
      content's length. */
  lemma FormatReadsBack(h: map<string, string>, content: string, order: seq<string>)
    requires Enumerates(order, h["Content-Length" := NatToString(|content|)])
    requires forall k :: k in h ==> NoCrlf(k) && NoCrlf(h[k])
    ensures var sent := h["Content-Length" := NatToString(|content|)];
      && Scan(Response("200 OK", sent, order, content))
           == Head(["HTTP/1.1 200 OK"] + HeaderLines(sent, order), Some(content))
      && ParseInt(sent["Content-Length"]) == Some(|content|)
  {
    var len := NatToString(|content|);
    var sent := h["Content-Length" := len];
    assert "Content-Length" in order;
    assert NoCrlf("Content-Length") && NoCrlf("200 OK");
    assert NoCrlf(len) by {
      forall j | 0 <= j < |len| ensures !CrlfAt(len, j) {
        assert IsDigit(len[j]);
      }
    }
    assert forall k :: k in sent ==> NoCrlf(k) && NoCrlf(sent[k]);
    ResponseScan("200 OK", sent, order, content);
    assert "HTTP/1.1 " + "200 OK" == "HTTP/1.1 200 OK";
    ParseIntOfNatToString(|content|);
  }

  /** The loop of `__parse_header`: each line holding a colon stores its
      decoded key and value in the dict; the others are skipped. */
  method StoreHeaders(init: map<string, string>, lines: seq<string>) returns (stored: map<string, string>)
    ensures stored == Update(init, HeaderPairs(lines))
  {
    stored := init;
    var i := 0;
    while i < |lines|
      invariant i <= |lines|
      invariant stored == Update(init, HeaderPairs(lines[..i]))
    {
      assert lines[..i + 1][..i] == lines[..i];
      match HeaderPair(lines[i]) {
        case None =>
        case Some(p) =>
          UpdateSnoc(init, HeaderPairs(lines[..i]), p);
          stored := stored[p.0 := p.1];
      }
      i := i + 1;
    }
    assert lines[..i] == lines;
  }

  /** The dict `format` receives from its caller and writes into. */
  class HeaderDict {
    var items: map<string, string>

    constructor(items: map<string, string>)
      ensures this.items == items
    {
      this.items := items;
    }
  }

  class Http {
    var headerParams: map<string, string>
    var getParams: map<string, string>
    var content: Option<string>
    var leftData: Option<string>
    var httpMethod: Option<string>
    var uri: Option<string>
    var version: Option<string>

    function State(): Fields
      reads this
    {
      Fields(headerParams, getParams, content, leftData, httpMethod, uri, version)
    }

    /** `Http()`: only the two dicts exist. */
    constructor()
      ensures State() == Fields(map[], map[], None, None, None, None, None)
    {
      headerParams := map[];
      getParams := map[];
      content := None;
      leftData := None;
      httpMethod := None;
      uri := None;
      version := None;
    }

    method Clean()
      modifies this
      ensures State() == CleanStep(old(State()))
    {
      headerParams := map[];
      getParams := map[];
      content := Some("");
      leftData := Some("");
    }

    /** `__parse_raw_data`: collect the lines found CRLF by CRLF until the
        empty line, whose CRLF starts the content, or until no CRLF is left. */
    method ParseRawData(data: string) returns (headers: seq<string>)
      modifies this
      ensures headers == Scan(data).lines
      ensures State() == RawStep(old(State()), data)
    {
      var beg: nat := 0;
      headers := [];
      content := None;
      ghost var whole := Scan(data);
      ghost var tail := whole;
      assert [] + whole.lines == whole.lines;
      while true
        invariant beg <= |data| && tail == ScanFrom(data, beg)
        invariant whole.lines == headers + tail.lines && whole.body == tail.body
        invariant State() == old(State()).(content := None)
        decreases |data| - beg
      {
        var found := FindCrlf(data, beg);
        if found.None? {
          assert headers + [] == headers;
          return;
        }
        var e := found.value;
        var line := data[beg..e];
        if line == "" {
          content := Some(data[e + 2..]);
          assert headers + [] == headers;
          return;
        }
        ScanAdvance(data, beg, e, headers, whole, tail);
        tail := ScanFrom(data, e + 2);
        headers := headers + [line];
        beg := e + 2;
      }
    }

    /** `__parse_header`: unpack the request line, then store the middle
        lines. */
    method ParseHeader(headers: seq<string>) returns (err: Option<Exc>)
      modifies this
      ensures Step(State(), err) == HeaderStep(old(State()), headers)
    {
      if |headers| == 0 {
        return Some(IndexError);
      }
      var parts := Split(headers[0], ' ');
      if |parts| != 3 {
        return Some(ValueError);
      }
      httpMethod, uri, version := Some(parts[0]), Some(parts[1]), Some(parts[2]);
      headerParams := StoreHeaders(headerParams, Middle(headers));
      err := None;
    }

    /** `__parse_uri`. */
    method ParseUri()
      requires uri.Some?
      modifies this
      ensures State() == UriStep(old(State()))
    {
      match IndexOf(uri.value, '?') {
        case None =>
        case Some(i) =>
          var getLine := uri.value[i + 1..];
          uri := Some(Unquote(uri.value[..i]));
          getParams := StoreQuery(getParams, getLine);
      }
    }

    /** `__parse_content`. */
    method ParseContent() returns (err: Option<Exc>)
      modifies this
      ensures Step(State(), err) == ContentStep(old(State()))
    {
      var n := 0;
      if "Content-Length" in headerParams {
        var parsed := ParseInt(headerParams["Content-Length"]);
        if parsed.None? {
          return Some(ValueError);
        }
        n := parsed.value;
      }
      if content.None? {
        return Some(TypeError);
      }
      leftData := Some(SliceFrom(content.value, n));
      content := Some(SliceTo(content.value, n));
      err := None;
    }

    /** `parse(data)`: the exception of the first step that raises escapes. */
    method Parse(data: string) returns (err: Option<Exc>)
      modifies this
      ensures Step(State(), err) == ParseSpec(data, old(State()))
    {
      Clean();
      var headers := ParseRawData(data);
      err := ParseHeader(headers);
      if err.Some? {
        return;
      }
      ParseUri();
      err := ParseContent();
    }

    /** `format(header, content)`: `Content-Length` in the caller's dict is
        set to the content's length, and the response is `200 OK` with the
        dict's entries as header lines in the order the dict yields them. */
    method Format(header: HeaderDict, content: string, order: seq<string>) returns (r: string)
      requires Enumerates(order, header.items["Content-Length" := NatToString(|content|)])
      modifies header
      ensures header.items == old(header.items)["Content-Length" := NatToString(|content|)]
      ensures r == Response("200 OK", header.items, order, content)
    {
      header.items := header.items["Content-Length" := NatToString(|content|)];
      var lines := HeaderLines(header.items, order);
      r := "HTTP/1.1 200 OK" + CRLF + JoinWith(lines, CRLF) + CRLF + CRLF + content;
    }
  }
}
