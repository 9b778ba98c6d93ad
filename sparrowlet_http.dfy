/** The HTTP layer of the sparrowlet snapshot: it parses the text received on
    a connection into an `HttpData` record, picks the handler registered for
    the URI, formats the response and queues it on the connection. */
module SparrowletHttp {
  import opened PyText
  import opened PyDict
  import opened Percent
  import opened HttpWire
  import opened Io
  import opened SparrowFd

  /** `HttpData`: what a parse leaves; None marks a field never assigned. */
  datatype HttpData = HttpData(
    version: Option<string>,
    uri: Option<string>,
    rawUri: Option<string>,
    httpMethod: Option<string>,
    content: Option<string>,
    headers: map<string, string>,
    getParams: map<string, string>)

  /** A fresh `HttpData()`. */
  const Blank: HttpData := HttpData(None, None, None, None, None, map[], map[])

  /** A parse either raises (the request line does not unpack) or leaves a record. */
  datatype ParseResult = Failed | Done(data: HttpData)

  /** `__parse_uri`: the decoded path, and the query stored over `params`;
      without '?' the whole URI is decoded and nothing is stored. */
  function UriSpec(uri: string, params: map<string, string>): (string, map<string, string>) {
    match IndexOf(uri, '?')
    case None => (Unquote(uri), params)
    case Some(i) => (Unquote(uri[..i]), QueryParams(params, uri[i + 1..]))
  }

  method ParseUri(uri: string, params: map<string, string>) returns (path: string, stored: map<string, string>)
    ensures (path, stored) == UriSpec(uri, params)
  {
    match IndexOf(uri, '?') {
      case None =>
        path, stored := Unquote(uri), params;
      case Some(i) =>
        path := Unquote(uri[..i]);
        stored := StoreQuery(params, uri[i + 1..]);
    }
  }

  /** A URI without '?' is its decoded self and stores nothing. */
  lemma UriPlain(uri: string, params: map<string, string>)
    requires '?' !in uri
    ensures UriSpec(uri, params) == (Unquote(uri), params)
  {
  }

  /** A path, '?' and one `key=value` segment: the decoded path, and exactly
      that decoded pair stored. */
  lemma UriWithQuery(path: string, k: string, v: string, params: map<string, string>)
    requires '?' !in path
    requires '=' !in k && '=' !in v && '&' !in k && '&' !in v
    ensures UriSpec(path + "?" + k + "=" + v, params)
      == (Unquote(path), params[Unquote(Strip(k)) := Unquote(Strip(v))])
  {
    var uri := path + "?" + (k + "=" + v);
    assert path + "?" + k + "=" + v == uri;
    var i := IndexOf(uri, '?').value;
    assert uri[|path|] == '?';
    assert uri[..|path|] == path;
    assert i == |path|;
    assert uri[i + 1..] == k + "=" + v;
    QueryParamsOne(params, k, v);
  }

  /** `__parse_header(line, index, http_data)`: line 0 is the request line,
      which must unpack into three words; later lines store a header field,
      or are skipped when they hold no colon. */
  function ApplyLine(d: HttpData, line: string, index: nat): ParseResult {
    if index == 0 then
      match RequestLine(line)
      case None => Failed
      case Some((m, u, v)) =>
        var (path, params) := UriSpec(u, d.getParams);
        Done(d.(httpMethod := Some(m), rawUri := Some(u), uri := Some(path), getParams := params, version := Some(v)))
    else
      match HeaderPair(line)
      case None => Done(d)
      case Some((k, v)) => Done(d.(headers := d.headers[k := v]))
  }

  /** The header lines applied in order to a fresh record; the first failure ends it. */
  function ApplyLines(lines: seq<string>): ParseResult {
    if |lines| == 0 then Done(Blank)
    else match ApplyLines(lines[..|lines| - 1])
      case Failed => Failed
      case Done(d) => ApplyLine(d, lines[|lines| - 1], |lines| - 1)
  }

  /** `__parse_header` as a step of the parse loop. */
  method ParseHeader(line: string, index: nat, d: HttpData) returns (r: ParseResult)
    ensures r == ApplyLine(d, line, index)
  {
    if index == 0 {
      match RequestLine(line) {
        case None =>
          return Failed;
        case Some((m, u, v)) =>
          var path, params := ParseUri(u, d.getParams);
          return Done(d.(httpMethod := Some(m), rawUri := Some(u), uri := Some(path), getParams := params, version := Some(v)));
      }
    }
    match HeaderPair(line) {
      case None =>
        r := Done(d);
      case Some((k, v)) =>
        r := Done(d.(headers := d.headers[k := v]));
    }
  }

  /** `__parse`: the lines before the first empty line are applied; when the
      empty line is there, `__parse_content` runs with a length that is
      always 0, so the content is "" and the body is handed to a registry
      key that is never filed. Without the empty line the content stays None. */
  function ParseSpec(data: string): ParseResult {
    ParseHead(Scan(data))
  }

  /** The record the scanned lines and body leave. */
  function ParseHead(h: Head): ParseResult {
    match ApplyLines(h.lines)
    case Failed => Failed
    case Done(d) => Done(if h.body.Some? then d.(content := Some("")) else d)
  }

  /** A failure stays a failure whatever lines follow. */
  lemma {:induction false} ApplyLinesFailed(p: seq<string>, q: seq<string>)
    requires ApplyLines(p) == Failed
    ensures ApplyLines(p + q) == Failed
    decreases |q|
  {
    if |q| > 0 {
      var q0 := q[..|q| - 1];
      ApplyLinesFailed(p, q0);
      assert (p + q)[..|p + q| - 1] == p + q0;
    } else {
      assert p + q == p;
    }
  }

  /** Applying one more line continues from the record the earlier ones left. */
  lemma ApplyLinesSnoc(seen: seq<string>, line: string, d: HttpData)
    requires ApplyLines(seen) == Done(d)
    ensures ApplyLines(seen + [line]) == ApplyLine(d, line, |seen|)
  {
    assert (seen + [line])[..|seen|] == seen;
  }

  /** `__parse_header` on the line after `seen`, stated over the lines so far. */
  method ParseLine(ghost seen: seq<string>, line: string, index: nat, d: HttpData) returns (r: ParseResult)
    requires ApplyLines(seen) == Done(d) && index == |seen|
    ensures r == ApplyLines(seen + [line])
  {
    ApplyLinesSnoc(seen, line, d);
    r := ParseHeader(line, index, d);
  }

  /** The parse of `data` once its scan is known to be `seen` and `body`. */
  lemma ParseSpecOf(data: string, whole: Head, seen: seq<string>, body: Option<string>, d: HttpData)
    requires whole == Scan(data) && whole.lines == seen && whole.body == body && ApplyLines(seen) == Done(d)
    ensures ParseSpec(data) == Done(if body.Some? then d.(content := Some("")) else d)
  {
  }

  /** `__parse` itself: find each CRLF from `beg_index`; an empty line hands
      the rest to `__parse_content` and stops, any other line goes to
      `__parse_header` with its index; no further CRLF stops the loop. */
  method Parse(data: string) returns (r: ParseResult)
    ensures r == ParseSpec(data)
  {
    var beg: nat := 0;
    var index: nat := 0;
    var d := Blank;
    ghost var whole := Scan(data);
    ghost var tail := whole;
    ghost var seen: seq<string> := [];
    assert [] + whole.lines == whole.lines;
    while true
      invariant beg <= |data| && index == |seen| && tail == ScanFrom(data, beg)
      invariant whole.lines == seen + tail.lines && whole.body == tail.body
      invariant ApplyLines(seen) == Done(d)
      decreases |data| - beg
    {
      var found := FindCrlf(data, beg);
      if found.None? {
        assert seen + [] == seen;
        ParseSpecOf(data, whole, seen, None, d);
        return Done(d);
      }
      var e := found.value;
      if e == beg {
        assert seen + [] == seen;
        return Done(d.(content := Some("")));
      }
      var line := data[beg..e];
      ScanAdvance(data, beg, e, seen, whole, tail);
      tail := ScanFrom(data, e + 2);
      var step := ParseLine(seen, line, index, d);
      if step.Failed? {
        ApplyLinesFailed(seen + [line], tail.lines);
        assert ParseSpec(data) == ParseHead(whole);
        return Failed;
      }
      d := step.data;
      seen := seen + [line];
      beg := e + 2;
      index := index + 1;
    }
  }

  /** The record a request line and header lines leave: fields from the
      request line, and each header from the last line naming it. */
  function Fields(requestLine: (string, string, string), headerLines: seq<string>): HttpData {
    var (m, u, v) := requestLine;
    var (path, params) := UriSpec(u, map[]);
    HttpData(Some(v), Some(path), Some(u), Some(m), None, Update(map[], HeaderPairs(headerLines)), params)
  }

  /** Applying the lines fails exactly when the first one does not unpack;
      otherwise the record is `Fields` of the request line and the rest. */
  lemma {:induction false} ApplyLinesClosed(lines: seq<string>)
    requires |lines| >= 1
    ensures RequestLine(lines[0]).None? ==> ApplyLines(lines) == Failed
    ensures RequestLine(lines[0]).Some? ==> ApplyLines(lines) == Done(Fields(RequestLine(lines[0]).value, lines[1..]))
    decreases |lines|
  {
    var init := lines[..|lines| - 1];
    var last := lines[|lines| - 1];
    if |lines| == 1 {
      assert init == [];
    } else {
      ApplyLinesClosed(init);
      assert init[0] == lines[0];
      if RequestLine(lines[0]).Some? {
        var tail := lines[1..];
        assert tail[..|tail| - 1] == init[1..];
        assert tail[|tail| - 1] == last;
        match HeaderPair(last)
        case None =>
        case Some(p) =>
          UpdateSnoc(map[], HeaderPairs(init[1..]), p);
      }
    }
  }

  /** A request assembled from a request line of three space-free words,
      header lines and a body parses to exactly those fields, with the
      content "" whatever the body. */
  lemma ParseRequest(m: string, u: string, v: string, headerLines: seq<string>, body: string)
    requires ' ' !in m && ' ' !in u && ' ' !in v && IsLine(m + " " + u + " " + v)
    requires forall i :: 0 <= i < |headerLines| ==> IsLine(headerLines[i])
    ensures ParseSpec(JoinLines([m + " " + u + " " + v] + headerLines) + CRLF + body)
      == Done(Fields((m, u, v), headerLines).(content := Some("")))
  {
    var lines := [m + " " + u + " " + v] + headerLines;
    assert forall i :: 0 <= i < |lines| ==> IsLine(lines[i]) by {
      forall i | 0 <= i < |lines| ensures IsLine(lines[i]) {
        if i > 0 {
          assert lines[i] == headerLines[i - 1];
        }
      }
    }
    ScanAssembled(lines, body);
    RequestLineShape(m, u, v);
    ApplyLinesClosed(lines);
    assert lines[1..] == headerLines;
  }

  /** A parse fails exactly when the first line scanned does not split into
      three words. */
  lemma ParseFails(data: string)
    ensures ParseSpec(data) == Failed <==>
      |Scan(data).lines| >= 1 && Count(Scan(data).lines[0], ' ') != 2
  {
    if |Scan(data).lines| >= 1 {
      ApplyLinesClosed(Scan(data).lines);
    }
  }

  /** The content is set exactly when the empty line ending the head was
      received, and it is then always "" (the body is never kept). */
  lemma ParseContent(data: string)
    requires ParseSpec(data).Done?
    ensures ParseSpec(data).data.content.Some? <==> Scan(data).body.Some?
    ensures ParseSpec(data).data.content.Some? ==> ParseSpec(data).data.content == Some("")
  {
    var lines := Scan(data).lines;
    if |lines| >= 1 {
      ApplyLinesClosed(lines);
    }
  }

  /** Data that starts with the empty line has content but no method. */
  lemma ParseNoRequestLine(rest: string)
    ensures ParseSpec(CRLF + rest) == Done(Blank.(content := Some("")))
  {
    ScanAssembled([], rest);
  }

  /** `__default_send_header`. */
  const DefaultHeader: map<string, string> :=
    map["Content-Type" := "text/html;charset=utf-8", "Connection" := "keep-alive"]

  /** The header `__format` sends: a copy of the default with the length added. */
  function SendHeader(content: string): map<string, string> {
    DefaultHeader["Content-Length" := NatToString(|content|)]
  }

  /** `order` is the order the dict yields the three keys of a sent header. */
  predicate HeaderOrder(order: seq<string>) {
    Enumerates(order, SendHeader(""))
  }

  lemma HeaderOrderFits(order: seq<string>, content: string)
    requires HeaderOrder(order)
    ensures Enumerates(order, SendHeader(content)) && |order| >= 1
  {
    assert SendHeader(content).Keys == SendHeader("").Keys;
    assert "Connection" in order;
  }

  /** `__format(content, code)` without a header argument. */
  function Format(content: string, code: string, order: seq<string>): string
    requires HeaderOrder(order)
  {
    HeaderOrderFits(order, content);
    Response(code, SendHeader(content), order, content)
  }

  lemma NoCr(s: string)
    requires forall i :: 0 <= i < |s| ==> s[i] != '\r'
    ensures NoCrlf(s)
  {
  }

  /** Read back with the request scan, a formatted response is its status
      line, one line per header entry, and the content as the body; and its
      Content-Length value parses to the content's length. */
  lemma FormatReadsBack(content: string, code: string, order: seq<string>)
    requires HeaderOrder(order) && NoCrlf(code)
    ensures Scan(Format(content, code, order))
      == Head(["HTTP/1.1 " + code] + HeaderLines(SendHeader(content), order), Some(content))
    ensures ParseInt(SendHeader(content)["Content-Length"]) == Some(|content|)
  {
    HeaderOrderFits(order, content);
    var h := SendHeader(content);
    NoCr("Content-Type");
    NoCr("text/html;charset=utf-8");
    NoCr("Connection");
    NoCr("keep-alive");
    NoCr("Content-Length");
    NoCr(NatToString(|content|));
    assert forall k :: k in h ==> NoCrlf(k) && NoCrlf(h[k]);
    ResponseScan(code, h, order, content);
    ParseIntOfNatToString(|content|);
  }

  /** A registered page: `uri_cls(http_data)` then `get()` or `post()`. */
  datatype Handler = Handler(get: HttpData -> string, post: HttpData -> string)

  /** What `on_receive` does with the received text: the fd is removed, it
      waits for more, the worker faults on an exception raised outside the
      `try`, or a response is queued. */
  datatype Outcome = Dropped | Waiting | Faulted(exc: Exc) | Responded(response: string)

  class HttpServer {
    /** The module-level `fd_manager`. */
    const manager: FdManager
    /** The order a sent header's keys come out of the dict. */
    const order: seq<string>
    var uriDict: map<string, Handler>
    /** `__404` and `__400`, formatted once at construction. */
    const notFound: string
    const badRequest: string

    predicate Valid()
      reads this
    {
      && HeaderOrder(order)
      && notFound == Format("404 Not Found", "404 Not Found", order)
      && badRequest == Format("400 Bad Request", "400 Bad Request", order)
    }

    /** `HttpServer(...)`: no page registered; the 404 and 400 responses
        carry their own status text as content. */
    constructor(manager: FdManager, order: seq<string>)
      requires HeaderOrder(order)
      ensures Valid() && uriDict == map[] && this.manager == manager && this.order == order
    {
      this.manager := manager;
      this.order := order;
      uriDict := map[];
      notFound := Format("404 Not Found", "404 Not Found", order);
      badRequest := Format("400 Bad Request", "400 Bad Request", order);
    }

    /** `register(uri_dict)`: `dict.update`, so a new entry replaces an old
        one for the same URI and other URIs keep theirs. */
    method Register(pages: map<string, Handler>)
      modifies this
      ensures uriDict.Keys == old(uriDict).Keys + pages.Keys
      ensures forall u :: u in pages ==> uriDict[u] == pages[u]
      ensures forall u :: u in old(uriDict) && u !in pages ==> uriDict[u] == old(uriDict)[u]
    {
      uriDict := uriDict + pages;
    }

    /** The response for a parsed request that has a method: 404 for an
        unregistered URI, else the page's `get()` or `post()` (the method
        compared in lower case) formatted with 200 OK, else 400. */
    function Reply(d: HttpData): string
      reads this
      requires Valid() && d.httpMethod.Some?
    {
      if d.uri.None? || d.uri.value !in uriDict then notFound
      else
        var m := Lower(d.httpMethod.value);
        var page := uriDict[d.uri.value];
        if m == "get" then Format(page.get(d), "200 OK", order)
        else if m == "post" then Format(page.post(d), "200 OK", order)
        else badRequest
    }

    /** The outcome `on_receive` reaches from what `pop_received_data`
        returned, before the response is sent. */
    function Decide(got: Option<string>): Outcome
      reads this
      requires Valid()
    {
      if got.None? then Dropped
      else match ParseSpec(got.value)
        case Failed => Dropped
        case Done(d) =>
          if d.content.None? then Waiting
          else if d.httpMethod.None? then Faulted(AttributeError)
          else Responded(Reply(d))
    }

    /** A parse that reaches the content with a method is answered with `Reply`. */
    lemma DecideDone(text: string, d: HttpData)
      requires Valid() && ParseSpec(text) == Done(d) && d.content.Some? && d.httpMethod.Some?
      ensures Decide(Some(text)) == Responded(Reply(d))
    {
    }

    /** A complete request for a registered page whose method reads `get`
        or `post` in lower case is answered with that page's text for the
        method, formatted with 200 OK; any other method is answered 400. */
    lemma DecideRegistered(m: string, u: string, v: string, headerLines: seq<string>, body: string)
      requires Valid()
      requires ' ' !in m && ' ' !in u && ' ' !in v && IsLine(m + " " + u + " " + v)
      requires forall i :: 0 <= i < |headerLines| ==> IsLine(headerLines[i])
      requires UriSpec(u, map[]).0 in uriDict
      ensures var d := Fields((m, u, v), headerLines).(content := Some(""));
        var page := uriDict[UriSpec(u, map[]).0];
        var got := Decide(Some(JoinLines([m + " " + u + " " + v] + headerLines) + CRLF + body));
        && (Lower(m) == "get" ==> got == Responded(Format(page.get(d), "200 OK", order)))
        && (Lower(m) == "post" ==> got == Responded(Format(page.post(d), "200 OK", order)))
        && (Lower(m) != "get" && Lower(m) != "post" ==> got == Responded(badRequest))
    {
      var d := Fields((m, u, v), headerLines).(content := Some(""));
      ParseRequest(m, u, v, headerLines, body);
      DecideDone(JoinLines([m + " " + u + " " + v] + headerLines) + CRLF + body, d);
      ReplyRegistered(d);
    }

    /** `Reply` for a registered URI, by the method in lower case. */
    lemma ReplyRegistered(d: HttpData)
      requires Valid() && d.httpMethod.Some? && d.uri.Some? && d.uri.value in uriDict
      ensures var m := Lower(d.httpMethod.value);
        && (m == "get" ==> Reply(d) == Format(uriDict[d.uri.value].get(d), "200 OK", order))
        && (m == "post" ==> Reply(d) == Format(uriDict[d.uri.value].post(d), "200 OK", order))
        && (m != "get" && m != "post" ==> Reply(d) == badRequest)
    {
    }

    /** A complete request for a page nobody registered is answered 404,
        whatever its method. */
    lemma DecideNotFound(m: string, u: string, v: string, headerLines: seq<string>, body: string)
      requires Valid()
      requires ' ' !in m && ' ' !in u && ' ' !in v && IsLine(m + " " + u + " " + v)
      requires forall i :: 0 <= i < |headerLines| ==> IsLine(headerLines[i])
      requires UriSpec(u, map[]).0 !in uriDict
      ensures Decide(Some(JoinLines([m + " " + u + " " + v] + headerLines) + CRLF + body)) == Responded(notFound)
    {
      var d := Fields((m, u, v), headerLines).(content := Some(""));
      ParseRequest(m, u, v, headerLines, body);
      DecideDone(JoinLines([m + " " + u + " " + v] + headerLines) + CRLF + body, d);
      assert d.uri == Some(UriSpec(u, map[]).0);
    }

    /** `on_receive(fd)`: pop the received text and parse it. A missing fd
        (`__parse(None)`) or a bad request line removes the fd; an unfinished
        head leaves it waiting, with the text already popped; data starting
        with the empty line faults on `None.lower()`; otherwise the response
        is queued on the connection and flushed, and a failed send escapes. */
    method OnReceive(fd: int, now: int) returns (out: Outcome)
      requires manager.Valid() && Valid()
      modifies manager, manager.io, manager.Entry(fd)
      ensures manager.Valid() && manager.io == old(manager.io)
      ensures fd in manager.infos ==> manager.infos[fd].receivedData.chunks == []
      ensures fd !in old(manager.infos) ==>
        && out == Dropped && manager.infos == old(manager.infos)
        && (manager.io != null ==> manager.io.interest == old(manager.io.interest) - {fd})
      ensures fd in old(manager.infos) ==>
        var info := old(manager.infos[fd]);
        var plan := Decide(Some(Concat(old(info.receivedData.chunks))));
        && (plan.Dropped? ==>
              && out == Dropped && manager.infos == old(manager.infos) - {fd}
              && (manager.io != null ==> manager.io.interest == old(manager.io.interest) - {fd}))
        && (!plan.Dropped? ==> manager.io != null ==> manager.io.interest == old(manager.io.interest))
        && (plan.Waiting? || plan.Faulted? ==>
              && out == plan && manager.infos == old(manager.infos)
              && info.State() == old(info.State()).(received := []))
        && (plan.Responded? ==>
              var text := Concat(old(info.sendingData.chunks) + [plan.response]);
              var f := Flush(text, 0, old(info.socket.sendPlan));
              && manager.infos == old(manager.infos)
              && info.sendingData.chunks == [] && info.timestamp == now
              && info.socket.wire == old(info.socket.wire) + text[..f.sent] && info.socket.sendPlan == f.rest
              && info.socket.inbox == old(info.socket.inbox) && info.socket.closeCalls == old(info.socket.closeCalls)
              && out == (if f.error.None? then plan else Faulted(f.error.value)))
    {
      var got := manager.PopReceivedData(fd);
      if got.None? {
        manager.Remove(fd);
        return Dropped;
      }
      var r := Parse(got.value);
      if r.Failed? {
        manager.Remove(fd);
        return Dropped;
      }
      var d := r.data;
      if d.content.None? {
        return Waiting;
      }
      if d.httpMethod.None? {
        return Faulted(AttributeError);
      }
      assert Decide(got) == Responded(Reply(d));
      out := Answer(fd, d, now);
    }

    /** The end of `on_receive` for a parsed request with a method: pick the
        response and send it on the connection; a failed send escapes. */
    method Answer(fd: int, d: HttpData, now: int) returns (out: Outcome)
      requires manager.Valid() && Valid() && fd in manager.infos && d.httpMethod.Some?
      modifies manager.Entry(fd)
      ensures manager.Valid() && manager.infos == old(manager.infos)
      ensures var info := manager.infos[fd];
        var text := Concat(old(info.sendingData.chunks) + [Reply(d)]);
        var f := Flush(text, 0, old(info.socket.sendPlan));
        && info.sendingData.chunks == [] && info.timestamp == now
        && info.receivedData.chunks == old(info.receivedData.chunks)
        && info.socket.wire == old(info.socket.wire) + text[..f.sent] && info.socket.sendPlan == f.rest
        && info.socket.inbox == old(info.socket.inbox) && info.socket.closeCalls == old(info.socket.closeCalls)
        && out == (if f.error.None? then Responded(Reply(d)) else Faulted(f.error.value))
    {
      var response := Reply(d);
      var info := manager.infos[fd];
      assert info.Pending(Some(response)) == info.sendingData.chunks + [response];
      var err := manager.Send(fd, Some(response), now);
      if err.Some? {
        return Faulted(err.value);
      }
      out := Responded(response);
    }

    /** `on_send(fd)`: the response is out, so the connection is removed. */
    method OnSend(fd: int)
      requires manager.Valid()
      modifies manager, manager.io
      ensures manager.Valid() && manager.io == old(manager.io)
      ensures manager.infos == old(manager.infos) - {fd}
      ensures manager.io != null ==> manager.io.interest == old(manager.io.interest) - {fd}
    {
      manager.Remove(fd);
    }
  }
}
