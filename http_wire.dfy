/** The parts of the HTTP/1.1 message format that both request parsers and both
    response formatters share: the CRLF-by-CRLF scan that splits a request into
    the lines before the first empty line and the body after it (section 3 of
    RFC 7230), the decoding of one header field line (section 3.2) and of one
    query segment (section 3.4 of RFC 3986), and the text of a response. */
module HttpWire {
  import opened PyText
  import opened PyDict
  import opened Percent

  /** The lines met before the first empty line, and the text after that empty
      line's CRLF; `body` is None when the scan runs out of CRLFs first. */
  datatype Head = Head(lines: seq<string>, body: Option<string>)

  /** The scan both parsers run with `data.index('\r\n', beg_index)`, from `beg`. */
  function ScanFrom(data: string, beg: nat): Head
    requires beg <= |data|
    decreases |data| - beg
  {
    match FindCrlf(data, beg)
    case None => Head([], None)
    case Some(e) =>
      if e == beg then Head([], Some(data[e + 2..]))
      else
        var rest := ScanFrom(data, e + 2);
        Head([data[beg..e]] + rest.lines, rest.body)
  }

  /** One step of the scan: a non-empty line, then the scan after its CRLF. */
  lemma ScanFromStep(data: string, beg: nat, e: nat)
    requires beg <= |data| && FindCrlf(data, beg) == Some(e) && e != beg
    ensures e + 2 <= |data|
    ensures ScanFrom(data, beg) == Head([data[beg..e]] + ScanFrom(data, e + 2).lines, ScanFrom(data, e + 2).body)
  {
  }

  /** One more line taken off the front of the unscanned text. */
  lemma ScanAdvance(data: string, beg: nat, e: nat, seen: seq<string>, whole: Head, tail: Head)
    requires beg <= |data| && FindCrlf(data, beg) == Some(e) && e != beg && tail == ScanFrom(data, beg)
    requires whole.lines == seen + tail.lines && whole.body == tail.body
    ensures e + 2 <= |data|
    ensures whole.lines == (seen + [data[beg..e]]) + ScanFrom(data, e + 2).lines
    ensures whole.body == ScanFrom(data, e + 2).body
  {
    ScanFromStep(data, beg, e);
  }

  function Scan(data: string): Head {
    ScanFrom(data, 0)
  }

  /** A line a scan can yield: not empty and holding no CRLF. */
  predicate IsLine(l: string) {
    l != "" && NoCrlf(l)
  }

  /** Each line followed by its CRLF. */
  function JoinLines(lines: seq<string>): string {
    if |lines| == 0 then "" else lines[0] + CRLF + JoinLines(lines[1..])
  }

  lemma FindCrlfAfterLine(l: string, rest: string)
    requires NoCrlf(l)
    ensures FindCrlf(l + CRLF + rest, 0) == Some(|l|)
  {
    var data := l + CRLF + rest;
    assert CrlfAt(data, |l|);
    forall j | 0 <= j < |l| ensures !CrlfAt(data, j) {
      if j + 1 < |l| {
        assert !CrlfAt(l, j);
        assert data[j] == l[j] && data[j + 1] == l[j + 1];
      } else {
        assert data[j + 1] == '\r';
      }
    }
  }

  /** The scan from an offset only sees the text from that offset on. */
  lemma {:induction false} FindCrlfShift(pre: string, s: string, k: nat)
    requires k <= |s|
    ensures FindCrlf(pre + s, |pre| + k) ==
      (match FindCrlf(s, k) case None => None case Some(i) => Some(|pre| + i))
    decreases |s| - k
  {
    var d := pre + s;
    if k + 2 <= |s| {
      assert d[|pre| + k] == s[k] && d[|pre| + k + 1] == s[k + 1];
      if !(s[k] == '\r' && s[k + 1] == '\n') {
        FindCrlfShift(pre, s, k + 1);
      }
    }
  }

  lemma {:induction false} ScanFromShift(pre: string, s: string, k: nat)
    requires k <= |s|
    ensures ScanFrom(pre + s, |pre| + k) == ScanFrom(s, k)
    decreases |s| - k
  {
    var d := pre + s;
    FindCrlfShift(pre, s, k);
    match FindCrlf(s, k)
    case None =>
    case Some(e) =>
      if e != k {
        ScanFromShift(pre, s, e + 2);
        assert d[|pre| + k..|pre| + e] == s[k..e];
      } else {
        assert d[|pre| + e + 2..] == s[e + 2..];
      }
  }

  /** Scanning lines that were joined with CRLFs and closed by an empty line
      gives back exactly those lines and the text after them. */
  lemma {:induction false} ScanAssembled(lines: seq<string>, body: string)
    requires forall i :: 0 <= i < |lines| ==> IsLine(lines[i])
    ensures Scan(JoinLines(lines) + CRLF + body) == Head(lines, Some(body))
    decreases |lines|
  {
    if |lines| == 0 {
      var d := CRLF + body;
      assert FindCrlf(d, 0) == Some(0);
      assert d[2..] == body;
    } else {
      var l := lines[0];
      var rest := JoinLines(lines[1..]) + CRLF + body;
      var d := JoinLines(lines) + CRLF + body;
      assert d == l + CRLF + rest;
      FindCrlfAfterLine(l, rest);
      ScanAssembled(lines[1..], body);
      ScanFromShift(l + CRLF, rest, 0);
      assert d[0..|l|] == l;
      assert [l] + lines[1..] == lines;
    }
  }

  /** Conversely, what a scan yields reassembles the data: every line is a
      proper line, and the body follows the lines and the empty line. */
  lemma {:induction false} ScanFromLines(data: string, beg: nat)
    requires beg <= |data|
    ensures forall i :: 0 <= i < |ScanFrom(data, beg).lines| ==> IsLine(ScanFrom(data, beg).lines[i])
    decreases |data| - beg
  {
    match FindCrlf(data, beg)
    case None =>
    case Some(e) =>
      if e != beg {
        ScanFromLines(data, e + 2);
        var l := data[beg..e];
        forall j | 0 <= j < |l| ensures !CrlfAt(l, j) {
          assert !CrlfAt(data, beg + j);
          if j + 1 < |l| {
            assert l[j] == data[beg + j] && l[j + 1] == data[beg + j + 1];
          }
        }
      }
  }

  lemma {:induction false} ScanFromBody(data: string, beg: nat)
    requires beg <= |data|
    requires ScanFrom(data, beg).body.Some?
    ensures data[beg..] == JoinLines(ScanFrom(data, beg).lines) + CRLF + ScanFrom(data, beg).body.value
    decreases |data| - beg
  {
    var e := FindCrlf(data, beg).value;
    if e == beg {
      assert data[beg..] == CRLF + data[e + 2..];
    } else {
      ScanFromBody(data, e + 2);
      var l := data[beg..e];
      var r := ScanFrom(data, e + 2);
      assert ScanFrom(data, beg).lines == [l] + r.lines;
      assert ([l] + r.lines)[1..] == r.lines;
      assert data[beg..] == l + CRLF + data[e + 2..];
    }
  }

  /** When no empty line is found, the lines are a prefix of the data and the
      unscanned tail holds no CRLF. */
  lemma {:induction false} ScanFromTail(data: string, beg: nat)
    requires beg <= |data|
    requires ScanFrom(data, beg).body.None?
    ensures beg + |JoinLines(ScanFrom(data, beg).lines)| <= |data|
    ensures data[beg..beg + |JoinLines(ScanFrom(data, beg).lines)|] == JoinLines(ScanFrom(data, beg).lines)
    ensures NoCrlf(data[beg + |JoinLines(ScanFrom(data, beg).lines)|..])
    decreases |data| - beg
  {
    match FindCrlf(data, beg)
    case None =>
      assert JoinLines([]) == "";
      NoCrlfAfter(data, beg);
    case Some(e) =>
      ScanFromStep(data, beg, e);
      var r := ScanFrom(data, e + 2);
      var whole := ScanFrom(data, beg);
      assert whole.lines == [data[beg..e]] + r.lines;
      ScanFromTail(data, e + 2);
      LineThenLines(data, beg, e, r.lines);
  }

  /** Without a CRLF from `beg` on, the rest of the data holds none. */
  lemma NoCrlfAfter(data: string, beg: nat)
    requires beg <= |data| && FindCrlf(data, beg).None?
    ensures NoCrlf(data[beg..])
  {
    var t := data[beg..];
    forall j | 0 <= j < |t| ensures !CrlfAt(t, j) {
      assert !CrlfAt(data, beg + j);
      assert t[j] == data[beg + j];
      if j + 1 < |t| {
        assert t[j + 1] == data[beg + j + 1];
      }
    }
  }

  /** A line ended by the CRLF at `e`, followed in the data by the joined
      `lines`, is the joined `[line] + lines`. */
  lemma LineThenLines(data: string, beg: nat, e: nat, lines: seq<string>)
    requires beg <= e && CrlfAt(data, e)
    requires e + 2 + |JoinLines(lines)| <= |data|
    requires data[e + 2..e + 2 + |JoinLines(lines)|] == JoinLines(lines)
    ensures beg + |JoinLines([data[beg..e]] + lines)| == e + 2 + |JoinLines(lines)|
    ensures data[beg..e + 2 + |JoinLines(lines)|] == JoinLines([data[beg..e]] + lines)
  {
    var l := data[beg..e];
    var all := [l] + lines;
    assert all[0] == l && all[1..] == lines;
    var n := |JoinLines(lines)|;
    assert data[e..e + 2] == CRLF;
    assert data[beg..e + 2 + n] == data[beg..e] + data[e..e + 2] + data[e + 2..e + 2 + n];
  }

  lemma ScanDecomposes(data: string)
    ensures var h := Scan(data);
      && (forall i :: 0 <= i < |h.lines| ==> IsLine(h.lines[i]))
      && (h.body.Some? ==> data == JoinLines(h.lines) + CRLF + h.body.value)
      && (h.body.None? ==> JoinLines(h.lines) <= data && NoCrlf(data[|JoinLines(h.lines)|..]))
  {
    var h := Scan(data);
    ScanFromLines(data, 0);
    if h.body.Some? {
      ScanFromBody(data, 0);
    } else {
      ScanFromTail(data, 0);
    }
    assert data[0..] == data;
  }

  /** One header field line `key: value`, split at its first colon, both sides
      stripped and percent-decoded; None for a line without a colon. */
  function HeaderPair(line: string): (r: Option<(string, string)>)
    ensures r.None? <==> ':' !in line
  {
    match SplitOnce(line, ':')
    case None => None
    case Some((k, v)) => Some((Unquote(Strip(k)), Unquote(Strip(v))))
  }

  /** The pairs that the lines store, in order. */
  function HeaderPairs(lines: seq<string>): seq<(string, string)> {
    if |lines| == 0 then []
    else match HeaderPair(lines[|lines| - 1])
      case None => HeaderPairs(lines[..|lines| - 1])
      case Some(p) => HeaderPairs(lines[..|lines| - 1]) + [p]
  }

  /** One query segment `key=value`: it must split on '=' into exactly two
      parts; both are stripped and percent-decoded. */
  function QueryPair(seg: string): Option<(string, string)> {
    var parts := Split(seg, '=');
    if |parts| != 2 then None else Some((Unquote(Strip(parts[0])), Unquote(Strip(parts[1]))))
  }

  function QueryPairs(segs: seq<string>): seq<(string, string)> {
    if |segs| == 0 then []
    else match QueryPair(segs[|segs| - 1])
      case None => QueryPairs(segs[..|segs| - 1])
      case Some(p) => QueryPairs(segs[..|segs| - 1]) + [p]
  }

  /** A segment stores a pair exactly when it holds one '=' and no other: the
      text before it is the key and the text after it the value. */
  lemma QueryPairShape(a: string, b: string)
    ensures QueryPair(a + "=" + b).Some? <==> '=' !in a && '=' !in b
    ensures '=' !in a && '=' !in b ==>
      QueryPair(a + "=" + b) == Some((Unquote(Strip(a)), Unquote(Strip(b))))
  {
    var seg := a + "=" + b;
    SplitCount(seg, '=');
    CountConcat(a + "=", b, '=');
    CountConcat(a, "=", '=');
    CountZero(a, '=');
    CountZero(b, '=');
    if '=' !in a && '=' !in b {
      assert Join([a, b], '=') == seg;
      SplitJoin([a, b], '=');
    }
  }

  /** A segment without '=' stores nothing. */
  lemma QueryPairNeedsEquals(seg: string)
    requires '=' !in seg
    ensures QueryPair(seg) == None
  {
    SplitCount(seg, '=');
    CountZero(seg, '=');
  }

  /** `line.split(' ')` unpacked into method, URI and version; None stands
      for the ValueError of any other number of pieces. */
  function RequestLine(line: string): (r: Option<(string, string, string)>)
    ensures r.Some? <==> Count(line, ' ') == 2
  {
    SplitCount(line, ' ');
    var parts := Split(line, ' ');
    if |parts| == 3 then Some((parts[0], parts[1], parts[2])) else None
  }

  /** Three space-free words joined by single spaces unpack to themselves. */
  lemma RequestLineShape(m: string, u: string, v: string)
    requires ' ' !in m && ' ' !in u && ' ' !in v
    ensures RequestLine(m + " " + u + " " + v) == Some((m, u, v))
  {
    var ws := [m, u, v];
    assert Join(ws, ' ') == m + " " + u + " " + v by {
      assert ws[1..] == [u, v];
      assert Join([u, v], ' ') == u + " " + v by {
        assert [u, v][1..] == [v];
      }
    }
    SplitJoin(ws, ' ');
  }

  /** The query parameters `get_line.split('&')` stores over `init`. */
  function QueryParams(init: map<string, string>, query: string): map<string, string> {
    Update(init, QueryPairs(Split(query, '&')))
  }

  /** The loop over the `&`-separated segments: each segment that splits on
      '=' into two parts stores its decoded pair; the others are skipped. */
  method StoreQuery(init: map<string, string>, query: string) returns (params: map<string, string>)
    ensures params == QueryParams(init, query)
  {
    var segs := Split(query, '&');
    params := init;
    var i := 0;
    while i < |segs|
      invariant i <= |segs|
      invariant params == Update(init, QueryPairs(segs[..i]))
    {
      assert segs[..i + 1][..i] == segs[..i];
      match QueryPair(segs[i]) {
        case None =>
        case Some(p) =>
          UpdateSnoc(init, QueryPairs(segs[..i]), p);
          params := params[p.0 := p.1];
      }
      i := i + 1;
    }
    assert segs[..i] == segs;
  }

  /** A query of one `key=value` segment stores exactly that decoded pair. */
  lemma QueryParamsOne(init: map<string, string>, k: string, v: string)
    requires '=' !in k && '=' !in v && '&' !in k && '&' !in v
    ensures QueryParams(init, k + "=" + v) == init[Unquote(Strip(k)) := Unquote(Strip(v))]
  {
    var seg := k + "=" + v;
    SplitCount(seg, '&');
    CountConcat(k + "=", v, '&');
    CountConcat(k, "=", '&');
    CountZero(k, '&');
    CountZero(v, '&');
    CountZero(seg, '&');
    assert Split(seg, '&') == [seg] by {
      SplitPieces(seg, '&');
      JoinSplit(seg, '&');
    }
    QueryPairShape(k, v);
    var pair := (Unquote(Strip(k)), Unquote(Strip(v)));
    assert [seg][..0] == [];
    assert QueryPairs([seg]) == [pair];
    assert Update(init, [pair]) == Update(init[pair.0 := pair.1], []);
  }

  /** `key + ": " + value` for each key, in the order the dict yields them. */
  function HeaderLines(h: map<string, string>, order: seq<string>): (r: seq<string>)
    requires forall i :: 0 <= i < |order| ==> order[i] in h
    ensures |r| == |order|
    ensures forall i :: 0 <= i < |order| ==> r[i] == order[i] + ": " + h[order[i]]
  {
    if |order| == 0 then [] else [order[0] + ": " + h[order[0]]] + HeaderLines(h, order[1..])
  }

  /** `order` lists every key of `h` exactly once: the dict's iteration order,
      which Python leaves unspecified. */
  predicate Enumerates(order: seq<string>, h: map<string, string>) {
    && (forall i, j :: 0 <= i < j < |order| ==> order[i] != order[j])
    && (forall i :: 0 <= i < |order| ==> order[i] in h)
    && (forall k :: k in h ==> k in order)
  }

  /** `'HTTP/1.1 {}\r\n{}\r\n\r\n{}'.format(code, '\r\n'.join(lines), content)`. */
  function Response(code: string, h: map<string, string>, order: seq<string>, content: string): string
    requires Enumerates(order, h)
  {
    "HTTP/1.1 " + code + CRLF + JoinWith(HeaderLines(h, order), CRLF) + CRLF + CRLF + content
  }

  lemma {:induction false} JoinWithCrlf(lines: seq<string>)
    requires |lines| >= 1
    ensures JoinWith(lines, CRLF) + CRLF == JoinLines(lines)
  {
    if |lines| > 1 {
      JoinWithCrlf(lines[1..]);
    }
  }

  lemma NoCrlfJoin(a: string, b: string)
    requires NoCrlf(a) && NoCrlf(b)
    requires |a| == 0 || |b| == 0 || a[|a| - 1] != '\r' || b[0] != '\n'
    ensures NoCrlf(a + b)
  {
    var s := a + b;
    forall j | 0 <= j < |s| ensures !CrlfAt(s, j) {
      if j + 1 < |a| {
        assert !CrlfAt(a, j);
        assert s[j] == a[j] && s[j + 1] == a[j + 1];
      } else if j >= |a| {
        assert !CrlfAt(b, j - |a|);
        if j + 1 < |s| {
          assert s[j] == b[j - |a|] && s[j + 1] == b[j - |a| + 1];
        }
      } else if j + 1 < |s| {
        assert s[j] == a[|a| - 1] && s[j + 1] == b[0];
      }
    }
  }

  /** A header whose keys and values hold no CRLF gives proper lines. */
  lemma HeaderLinesAreLines(h: map<string, string>, order: seq<string>)
    requires forall i :: 0 <= i < |order| ==> order[i] in h
    requires forall k :: k in h ==> NoCrlf(k) && NoCrlf(h[k])
    ensures forall i :: 0 <= i < |order| ==> IsLine(HeaderLines(h, order)[i])
  {
    forall i | 0 <= i < |order| ensures IsLine(HeaderLines(h, order)[i]) {
      var k := order[i];
      assert NoCrlf(": ");
      NoCrlfJoin(k, ": ");
      NoCrlfJoin(k + ": ", h[k]);
    }
  }

  /** The response is its status line and header lines, each closed by CRLF,
      then the empty line and the content. */
  lemma ResponseLayout(code: string, h: map<string, string>, order: seq<string>, content: string)
    requires Enumerates(order, h) && |order| >= 1
    ensures Response(code, h, order, content)
      == JoinLines(["HTTP/1.1 " + code] + HeaderLines(h, order)) + CRLF + content
  {
    LinesLayout("HTTP/1.1 " + code, HeaderLines(h, order), content);
  }

  /** A first line, the CRLF-joined lines after it, two CRLFs and the
      content are the lines each closed by CRLF, then CRLF and the content. */
  lemma LinesLayout(status: string, hl: seq<string>, content: string)
    requires |hl| >= 1
    ensures status + CRLF + JoinWith(hl, CRLF) + CRLF + CRLF + content
      == JoinLines([status] + hl) + CRLF + content
  {
    var lines := [status] + hl;
    assert lines[0] == status && lines[1..] == hl;
    var body := JoinWith(hl, CRLF);
    JoinWithCrlf(hl);
    var p := status + CRLF;
    assert JoinLines(lines) == p + JoinLines(hl);
    assert p + body + CRLF == p + (body + CRLF);
  }

  lemma StatusAndHeaderLines(status: string, hl: seq<string>)
    requires IsLine(status)
    requires forall i :: 0 <= i < |hl| ==> IsLine(hl[i])
    ensures forall i :: 0 <= i < |[status] + hl| ==> IsLine(([status] + hl)[i])
  {
  }

  /** A response read back with the request scan yields its status line, one
      line per header entry, and exactly the content as the body. */
  lemma ResponseScan(code: string, h: map<string, string>, order: seq<string>, content: string)
    requires Enumerates(order, h) && |order| >= 1
    requires NoCrlf(code)
    requires forall k :: k in h ==> NoCrlf(k) && NoCrlf(h[k])
    ensures Scan(Response(code, h, order, content))
      == Head(["HTTP/1.1 " + code] + HeaderLines(h, order), Some(content))
  {
    var status := "HTTP/1.1 " + code;
    assert NoCrlf("HTTP/1.1 ");
    NoCrlfJoin("HTTP/1.1 ", code);
    HeaderLinesAreLines(h, order);
    StatusAndHeaderLines(status, HeaderLines(h, order));
    ResponseLayout(code, h, order, content);
    ScanAssembled([status] + HeaderLines(h, order), content);
  }
}
