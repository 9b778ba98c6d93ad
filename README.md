# sparrowlet, modelled in Dafny

sparrowlet is a small HTTP server for Stackless Python 2. It has five parts:

- A reactor (`sparrowlet/loop.py`) waits on epoll and runs one handler per event:
  - on the listening socket it accepts connections;
  - on a connection it drains the socket, flushes it or drops it.
- After each event the reactor hands the fd to a worker as a receive or send task. It then applies the idle timeout to that fd.
- A registry (`sparrow/fd.py`) files one record per connection. Each record holds a chunk buffer (`sparrowlet/buff.py`) for pending output and one for received input. The registry keeps epoll in step when records are filed and removed.
- The HTTP layer (`sparrowlet/http_server.py`) handles each receive task:
  - it pops the received text and parses it line by line into an `HttpData` record;
  - it looks up the page registered for the URI;
  - it formats the page's `get()` or `post()` text, or a fixed 404 or 400 response;
  - it queues the response on the connection.
- The repository also keeps older versions of these parts:
  - an earlier reactor and registry (`core/loop.py`, `core/fd_info.py`, `core/fd_manager.py`);
  - a per-fd accumulator of received text (`tasks.py`);
  - a stand-alone request parser and response formatter (`protocol/http.py`).

The project models all of these, one module per source file:

| module | source |
|---|---|
| `SparrowletHttp` | `sparrowlet/http_server.py` |
| `ProtocolHttp` | `protocol/http.py` |
| `Buff` | `sparrowlet/buff.py` |
| `SparrowFd` | `sparrow/fd.py` |
| `CoreFdInfo` | `core/fd_info.py` |
| `CoreFdManager` | `core/fd_manager.py` |
| `SparrowletLoop` | `sparrowlet/loop.py` |
| `CoreLoop` | `core/loop.py` |
| `Tasks` | `tasks.py` |

Four support modules are shared:

- `PyText`: the Python 2 `str` operations the code uses. This covers `index`, `split`, `strip`, `lower`, `join`, slicing with negative bounds, `int()` and `str()`. `int()` follows the C conversion under Python 2's `int`, which skips whitespace both before the sign and after it, so `int('- 5') == -5`.
- `PyDict`: storing pairs into a dict, where the last store of a key wins.
- `Percent`: `urllib.unquote`. It is proved to be the inverse of `urllib.quote`.
- `HttpWire`: what both parsers share:
  - the CRLF-by-CRLF scan that splits a request into head lines and body (section 3 of RFC 7230);
  - the decoding of header fields and query segments;
  - the response text.

`Io` models the environment as scripts:

- A socket is the sequence of outcomes its `recv` calls will have, and the sequence of capacities its `send` calls will meet. Everything written to it is recorded on `wire`.
- The listening socket is the sequence of outcomes of `accept`.
- epoll is a map from fd to interest mask. Its `epoll_ctl` failures are raised as `IOError`, as Python 2 does.
- A script that runs out answers EAGAIN, as a non-blocking socket with nothing to do.

`Drain` and `Flush` give the exact result of the receive and send loops. Each method that runs one of those loops is proved against them.

Other modelling choices:

- `time.time()` becomes a `now` parameter.
- The task channel becomes the loop's `queue` of tasks.
- The order a dict yields its keys becomes an `order` parameter. `Enumerates` requires it to list every key exactly once.
- A field that is unset or holds None is an `Option` holding `None`.

Where the behaviour of the Python 2 code differs from what its documentation suggests, the model follows the code.

- **Send errors.** Both connection records guard `send` with `except socket.errno`. That names a module, so the handler never matches. Every failed `send` therefore escapes as `socket.error`, EAGAIN included.
  - The sparrow record has already emptied its buffer by then, so the unsent text is lost.
  - The core record keeps the whole pending string, the part already sent included.
- **Content-Length in the server.** `__parse_content` in `sparrowlet/http_server.py` never reads the header, so the length is always 0.
  - The content of every complete request is "".
  - The body goes to `append_received_data` under a key that is never filed (the module `fd`), so nothing happens to it.
- **Lost partial requests.** An unfinished request (no empty line yet) is not kept: the received text was already popped.
- **Requests with no request line.** Data that starts with the empty line parses to a record with content but no method. `on_receive` then faults on `None.lower()`.
- **Event dispatch.** The reactors choose handlers differently:
  - `sparrowlet/loop.py` tests READ, then WRITE, then ERR.
  - `core/loop.py` looks the mask up in a dict, so only a mask exactly equal to one flag has a handler. Any other mask is skipped, as is a KeyError for an unknown fd; the timeout rule is then not applied.
- **Header lines in `protocol/http.py`.** The parser stores only `headers[1:-1]`, so the last header line is never stored. It reads `Content-Length` with `int()` before it looks at the body. So a bad length is a ValueError even when there is no body, and an absent length cuts the content to "".
- **The `tasks.py` flags.** `Task.__init__` sets a flag spelled with three n's (`__disconnnect`). `disconnect` sets a different flag.

## Model

| member | source | states |
|---|---|---|
| SparrowletHttp.ParseUri | sparrowlet/http_server.py:85-110 | the decoded path and the stored query parameters are those of `UriSpec`: without '?' the whole URI decoded and nothing stored, else the decoded part before '?' and the query's pairs |
| SparrowletHttp.UriPlain | sparrowlet/http_server.py:92-97 | a URI without '?' is its own decoded self and leaves the GET parameters unchanged |
| SparrowletHttp.UriWithQuery | sparrowlet/http_server.py:99-110 | `path?k=v` yields the decoded path and stores exactly the stripped, decoded pair (k, v) over the old parameters |
| SparrowletHttp.ParseHeader | sparrowlet/http_server.py:56-83 | line 0 must unpack into three words (else the parse fails), setting method, raw URI, decoded URI, GET parameters and version; a later line stores its `key: value` pair, or is skipped without a colon |
| SparrowletHttp.Parse | sparrowlet/http_server.py:137-169 | the CRLF loop's result equals `ParseSpec(data)`: the lines before the first empty line applied in order, the first failure ending it, and content "" exactly when the empty line was found |
| SparrowletHttp.ApplyLinesFailed | sparrowlet/http_server.py:150-169 | once a line has raised, no later line changes the outcome: the parse stays failed |
| SparrowletHttp.ApplyLinesClosed | sparrowlet/http_server.py:56-83 | applying the lines fails exactly when the first does not unpack; otherwise the record is the request line's fields with each header taken from the last line naming it |
| SparrowletHttp.ParseRequest | sparrowlet/http_server.py:137-169 | a request of three space-free words, header lines, the empty line and any body parses to exactly those fields, with content "" whatever the body |
| SparrowletHttp.ParseFails | sparrowlet/http_server.py:65-67 | a parse fails if and only if there is a first line and it does not hold exactly two spaces |
| SparrowletHttp.ParseContent | sparrowlet/http_server.py:112-135 | content is set if and only if the empty line was received, and it is then always "": the body is never kept |
| SparrowletHttp.ParseNoRequestLine | sparrowlet/http_server.py:157-163 | data starting with the empty line yields a record with content "" and no method, URI or version |
| SparrowletHttp.FormatReadsBack | sparrowlet/http_server.py:171-186 | a formatted response scans back to its status line, one `key: value` line per default header plus Content-Length, and exactly the content as body; its Content-Length parses to the content's length |
| SparrowletHttp.HttpServer.constructor | sparrowlet/http_server.py:35-54 | no page is registered; the 404 and 400 responses are formatted once, each with its status text as content |
| SparrowletHttp.HttpServer.Register | sparrowlet/http_server.py:188-194 | `dict.update`: every given URI maps to its new page, every other URI keeps its old one, and no other URI appears |
| SparrowletHttp.HttpServer.DecideRegistered | sparrowlet/http_server.py:215-235 | a complete request for a registered page is answered with the page's `get()` text when its method lowers to "get", its `post()` text for "post", both formatted 200 OK, and with the 400 response for any other method |
| SparrowletHttp.HttpServer.ReplyRegistered | sparrowlet/http_server.py:215-235 | for a registered URI, the reply is chosen by the method in lower case: get, post, else 400 |
| SparrowletHttp.HttpServer.DecideNotFound | sparrowlet/http_server.py:216-221 | a complete request for an unregistered URI is answered with the 404 response, whatever its method |
| SparrowletHttp.HttpServer.OnReceive | sparrowlet/http_server.py:196-238 | the received buffer is emptied; a missing fd or a failed parse removes the fd and epoll stops watching it; on every other path epoll is untouched; an unfinished head waits and no method faults with AttributeError, both with the rest of the record untouched; otherwise pending output plus the response is written until the send script stops, the socket keeping the rest of the script, its inbox and its close count, and a send error escapes |
| SparrowletHttp.HttpServer.Answer | sparrowlet/http_server.py:215-238 | the pending output followed by the reply goes out as far as the send script allows, the output buffer is emptied, the received buffer kept, the socket left with the rest of the send script and with its inbox and close count unchanged, and a send error is returned as the fault |
| SparrowletHttp.HttpServer.OnSend | sparrowlet/http_server.py:240-243 | the fd's record is removed and epoll no longer watches it |
| HttpWire.ScanAssembled | sparrowlet/http_server.py:150-169 | scanning lines joined with CRLFs, an empty line and a body yields exactly those lines and that body |
| HttpWire.ScanDecomposes | protocol/http.py:36-55 | conversely, the scan's lines are proper lines and with the body reassemble the data; without an empty line they are a prefix followed by text with no CRLF |
| HttpWire.HeaderPair | sparrowlet/http_server.py:75-81 | a header line yields a pair if and only if it holds a colon |
| HttpWire.QueryPairShape | sparrowlet/http_server.py:101-108 | a `a=b` segment stores a pair if and only if neither side holds '=', and the pair is both sides stripped and decoded |
| HttpWire.QueryPairNeedsEquals | sparrowlet/http_server.py:102-105 | a segment without '=' is skipped |
| HttpWire.RequestLine | sparrowlet/http_server.py:67 | the request line unpacks if and only if it holds exactly two spaces |
| HttpWire.RequestLineShape | sparrowlet/http_server.py:67 | three space-free words joined by spaces unpack to themselves |
| HttpWire.StoreQuery | sparrowlet/http_server.py:101-110 | the loop over the `&`-segments stores exactly `QueryParams` over the old parameters |
| HttpWire.QueryParamsOne | protocol/http.py:84-93 | a query of one `k=v` segment stores exactly that decoded pair |
| HttpWire.HeaderLines | sparrowlet/http_server.py:184 | one `key: value` line per key, in the dict's order |
| HttpWire.ResponseLayout | protocol/http.py:97-100 | the response is the status line and the header lines, each closed by CRLF, then CRLF and the content |
| HttpWire.ResponseScan | protocol/http.py:95-100 | a response read back with the request scan yields its status line, its header lines and exactly its content |
| ProtocolHttp.ParseRequest | protocol/http.py:13-93 | for a well-formed request and any prior state: the three words; the header lines but the last stored, last store winning; URI kept undecoded without '?', else decoded with the query's pairs; a Content-Length `int()` rejects raises ValueError with the body whole, any other cuts the body; `int()` accepts whitespace on both sides of the sign |
| ProtocolHttp.ScanRequest | protocol/http.py:30-64 | a well-formed request scans to its request line (unpacking to the three words) and header lines, the stored middle being all but the last, with the body after the empty line |
| ProtocolHttp.AfterHeader | protocol/http.py:57-72 | for a well-formed request, `parse` is the URI and content steps applied to the state holding the three words, the stored middle headers, empty GET parameters, the body as content and "" left over |
| ProtocolHttp.UriStepShape | protocol/http.py:74-93 | `__parse_uri` leaves every field but the URI and the GET parameters alone; without '?' those stay too, else the URI is the decoded part before '?' and the query's pairs are stored over the old ones |
| ProtocolHttp.ContentStepShape | protocol/http.py:25-28 | with content present, a length `int()` rejects (it accepts whitespace on both sides of the sign) is ValueError with nothing changed; else the content is cut at the length with the rest left over, every other field kept |
| ProtocolHttp.SingleHeaderIgnored | protocol/http.py:64-72 | with one header line nothing is stored, so the content is "" and the whole body is left over |
| ProtocolHttp.ParseForgets | protocol/http.py:13-23 | the exception, both dicts, the content and the left-over data do not depend on earlier state; only a parse failing before the request line unpacks keeps the old method, URI and version |
| ProtocolHttp.ParseOutcome | protocol/http.py:13-28 | IndexError if and only if no line precedes the empty line; TypeError only without the empty line; a parse without exception splits the body into content and left-over data that join back to it, content "" when no Content-Length is stored |
| ProtocolHttp.FormatReadsBack | protocol/http.py:95-100 | the response with Content-Length written into the caller's dict scans back to `HTTP/1.1 200 OK`, one line per entry and exactly the content; its Content-Length parses to the content's length |
| ProtocolHttp.StoreHeaders | protocol/http.py:64-72 | the header loop stores exactly the lines' pairs over the old dict, last store winning |
| ProtocolHttp.Http.constructor | protocol/http.py:9-11 | only the two empty dicts exist |
| ProtocolHttp.Http.Clean | protocol/http.py:102-106 | both dicts emptied, content and left-over data "", everything else untouched |
| ProtocolHttp.Http.ParseRawData | protocol/http.py:30-55 | the lines returned are the scan's lines, and content becomes the text after the empty line, None without one |
| ProtocolHttp.Http.ParseHeader | protocol/http.py:57-72 | IndexError without lines; ValueError with nothing assigned when the first line does not split into three; else the three words set and the middle lines stored |
| ProtocolHttp.Http.ParseUri | protocol/http.py:74-93 | without '?' nothing changes; else the URI becomes the decoded part before '?' and the query's pairs are stored |
| ProtocolHttp.Http.ParseContent | protocol/http.py:25-28 | a length `int()` rejects (it accepts whitespace on both sides of the sign) is a ValueError, no content a TypeError; else left-over data is the content from the length on and content the part before it, with Python's slicing |
| ProtocolHttp.Http.Parse | protocol/http.py:13-23 | the fields and the exception are those of `ParseSpec`: clean, scan, header, URI, content, the first exception ending it |
| ProtocolHttp.Http.Format | protocol/http.py:95-100 | Content-Length in the caller's dict is set to the content's length, and the response is `200 OK` with the dict's entries in its order |
| Buff.Buff.constructor | sparrowlet/buff.py:11-19 | empty, or the one initial chunk |
| Buff.Buff.Append | sparrowlet/buff.py:21-25 | one more chunk at the end |
| Buff.Buff.PopStr | sparrowlet/buff.py:27-33 | the concatenation of all chunks in order, leaving the buffer empty |
| Buff.Buff.Clean | sparrowlet/buff.py:35-38 | no chunk is left |
| SparrowFd.FdInfo.constructor | sparrow/fd.py:30-46 | the address, the socket, the time, and two fresh empty buffers |
| SparrowFd.FdInfo.Receive | sparrow/fd.py:64-82 | stamped; the received buffer gains exactly the non-empty leading chunks of the recv script, the script is consumed through the stopping entry, and only a non-EAGAIN socket error is raised |
| SparrowFd.FdInfo.Send | sparrow/fd.py:84-108 | stamped; the output buffer is always emptied; with anything pending the joined text is written as far as the send script allows and any socket error escapes; nothing pending sends nothing |
| SparrowFd.FdInfo.WriteAll | sparrow/fd.py:97-108 | the send loop writes the prefix `Flush` computes and raises its error |
| SparrowFd.FdManager.constructor | sparrow/fd.py:120-126 | an empty registry without epoll |
| SparrowFd.FdManager.SetIo | sparrow/fd.py:164-165 | the epoll object is set, the records untouched |
| SparrowFd.FdManager.SetItem | sparrow/fd.py:152-162 | a non-record is refused with ValueError and the map kept; a record is filed under the fd |
| SparrowFd.FdManager.Remove | sparrow/fd.py:128-150 | the entry is dropped if present and epoll stops watching the fd; removing twice is removing once |
| SparrowFd.FdManager.New | sparrow/fd.py:167-178 | without epoll AttributeError; an fd epoll already watches is IOError with nothing filed; else the fd is registered and a fresh empty record filed, every other record kept |
| SparrowFd.FdManager.Receive | sparrow/fd.py:180-191 | a missing fd changes nothing; else the record's `receive`, with the registry, the pending output and the socket's send script, wire and close count kept |
| SparrowFd.FdManager.Send | sparrow/fd.py:193-204 | a missing fd changes nothing; else the record's `send` with `data` queued, the received buffer and the socket's inbox and close count kept; with nothing pending the send script and wire stay |
| SparrowFd.FdManager.PopReceivedData | sparrow/fd.py:209-215 | None for a missing fd; else the received text with the buffer emptied and the rest of the record untouched |
| SparrowFd.FdManager.AppendReceivedData | sparrow/fd.py:217-223 | one more received chunk for a filed fd, with the stamp, the pending output and the socket kept; nothing otherwise |
| CoreFdInfo.FdInfo.constructor | core/fd_info.py:16-34 | the address, the socket, the time, nothing pending and nothing received |
| CoreFdInfo.FdInfo.ReceivedData | core/fd_info.py:55-64 | the joined received text, with the list emptied |
| CoreFdInfo.FdInfo.Receive | core/fd_info.py:66-84 | stamped; without a socket AttributeError; else the non-empty leading chunks of the recv script are kept and only a non-EAGAIN socket error is raised |
| CoreFdInfo.FdInfo.Send | core/fd_info.py:86-113 | stamped, `data` appended; nothing pending sends nothing; else the text is written as far as the send script allows, cleared when all is out and kept whole when a socket error escapes |
| CoreFdInfo.FdInfo.Transmit | core/fd_info.py:99-113 | the send loop writes the prefix `Flush` computes and raises its error |
| CoreFdInfo.FdInfo.CleanFd | core/fd_info.py:115-119 | the socket is closed once and dropped; without one AttributeError |
| CoreFdInfo.FdInfo.Finalize | core/fd_info.py:36-44 | the socket is closed only while there is one |
| CoreFdManager.FdManager.constructor | core/fd_manager.py:15-22 | an empty registry over the given epoll |
| CoreFdManager.FdManager.SetItem | core/fd_manager.py:59-69 | a non-record is refused with ValueError and the map kept; a record is filed under the fd |
| CoreFdManager.FdManager.New | core/fd_manager.py:24-35 | an fd epoll already watches is IOError with nothing filed; else registered and a fresh empty record filed, every other record kept |
| CoreFdManager.FdManager.Delete | core/fd_manager.py:37-57 | the entry is dropped, its socket closed exactly once and detached, and epoll stops watching the fd |
| CoreFdManager.FdManager.Receive | core/fd_manager.py:71-82 | the record's socket is drained and what was read discarded; a read error escapes with the chunks kept; the pending text and the socket's send script, wire and close count stay |
| CoreFdManager.FdManager.Send | core/fd_manager.py:84-94 | an absent fd raises AttributeError; else the record's `send`, with the received chunks and the socket's inbox and close count kept; with nothing pending the send script and wire stay |
| SparrowletLoop.Loop.constructor | sparrowlet/loop.py:35-54 | a fresh epoll watching only the listening fd for READ and ERR, given to the empty registry |
| SparrowletLoop.Loop.AcceptOne | sparrowlet/loop.py:82-97 | one accept: a refused accept stops the loop; a registration failure is IOError with nothing filed and epoll unchanged; else one fresh record under the new fd, watched for READ and ERR |
| SparrowletLoop.Loop.EventNew | sparrowlet/loop.py:82-97 | the accept loop files exactly the fds `Admit` says, each watched for READ and ERR, leaves every fd epoll watched before as it was, consumes the backlog as far, and escapes with IOError exactly when a registration failed |
| SparrowletLoop.Loop.EventReceive | sparrowlet/loop.py:99-107 | the record gains the drained chunks and its pending output, send script, wire and close count stay; on success it is also watched for WRITE, on a socket error removed; either way a receive task is queued; an unknown fd is IOError |
| SparrowletLoop.Loop.EventSend | sparrowlet/loop.py:109-117 | pending output is flushed, the wire gaining what `Flush` sent, the received buffer, inbox and close count kept, and the send script and wire unchanged when nothing is pending; on success the fd is watched for READ and ERR again, on a socket error removed; either way a send task is queued |
| SparrowletLoop.Loop.EventError | sparrowlet/loop.py:119-120 | the connection is removed |
| SparrowletLoop.Loop.CheckTimeout | sparrowlet/loop.py:122-137 | a record silent for more than `timeout` is removed, any other restamped with its buffers and socket kept; no other record changes |
| SparrowletLoop.Loop.Handle | sparrowlet/loop.py:139-162 | the listening fd runs the accept loop, filing exactly the fds `Admit` says, each watched for READ and ERR, and failing exactly when `Admit` crashes; else READ before WRITE before ERR; a mask matching none changes nothing, the fd's record included; no other fd's record is touched |
| SparrowletLoop.Loop.Dispatch | sparrowlet/loop.py:139-162 | one event: on the listening fd the accept outcome `Admit` gives and no task; otherwise the handler, then, unless skipped or raised, the timeout rule on that fd alone, so a connection that survives it was active within `timeout`; a skipped event leaves the fd's record whole |
| CoreLoop.Loop.constructor | core/loop.py:24-47 | a fresh epoll watching only the listening fd, and an empty registry over it |
| CoreLoop.Loop.AcceptOne | core/loop.py:71-85 | one accept: a refused accept stops the loop; a registration failure is IOError with nothing filed and epoll unchanged; else one fresh record under the new fd, watched for IN, ERR and HUP |
| CoreLoop.Loop.EventNew | core/loop.py:71-85 | the accept loop files exactly the fds `Admit` says, each watched for IN, ERR and HUP, leaves every fd epoll watched before as it was, and escapes with IOError exactly when a registration failed |
| CoreLoop.Loop.EventReceive | core/loop.py:87-96 | KeyError for an unknown fd with nothing changed; else drain and discard, the pending text, send script and wire kept; on success also watched for OUT with the socket kept open, on a socket error deleted, its socket detached and closed exactly once; a receive task queued |
| CoreLoop.Loop.EventSend | core/loop.py:98-107 | KeyError for an unknown fd; else flush, the wire gaining what `Flush` sent, the received chunks and inbox kept, the send script and wire unchanged when nothing is pending; on success watched for input only with the socket kept open, on a socket error deleted, the pending text kept and the socket closed exactly once; a send task queued |
| CoreLoop.Loop.EventError | core/loop.py:109-110 | the connection leaves the registry and epoll, and its socket is detached and closed exactly once |
| CoreLoop.Loop.CheckTimeout | core/loop.py:140-155 | a record silent for more than `timeout` is deleted and its socket closed exactly once, any other restamped with its text and socket kept; no other record changes |
| CoreLoop.Loop.Handle | core/loop.py:112-138 | the listening fd runs the accept loop, filing exactly the fds `Admit` says, each watched for IN, ERR and HUP; otherwise a handler only for a mask exactly IN, OUT, HUP or ERR, HUP or ERR closing the socket; any other mask, or IN/OUT on an unknown fd, is skipped with nothing changed, the fd's record included |
| CoreLoop.Loop.Dispatch | core/loop.py:112-138 | one event: on the listening fd the accept outcome `Admit` gives and no task; otherwise the handler, then, unless skipped, the timeout rule on that fd alone; a skipped event leaves the fd's record whole |
| Tasks.Task.constructor | tasks.py:7-10 | one chunk holding the data, both flags false |
| Tasks.Task.Append | tasks.py:12-13 | one more chunk; the text grows by the data |
| Tasks.Task.Data | tasks.py:22-25 | the text so far, with the chunks collapsed into that one string |
| Tasks.Task.Check | tasks.py:18-19 | the printed string is the text so far |
| Tasks.Task.Disconnect | tasks.py:15-16 | the flag `disconnect` owns is set, the one `__init__` set is not |
| Tasks.Manager.constructor | tasks.py:34-35 | no task |
| Tasks.Manager.Add | tasks.py:37-43 | the fd's text grows by the data, or a fresh task holds it; no other fd's text changes; the printed string is the fd's whole text |
| Tasks.Manager.Check | tasks.py:45-48 | prints the fd's text when it has a task, nothing otherwise; no text changes |
| Tasks.Manager.Disconnect | tasks.py:50-53 | the fd's task is flagged; no other task's flag changes |
| Io.DrainShape | sparrow/fd.py:70-82 | the receive loop keeps exactly the leading non-empty reads, stops at an empty read or an error, and raises only a non-EAGAIN error |
| Io.DrainRaises | core/fd_info.py:70-84 | the only exception the receive loop raises is a socket error |
| Io.DrainAll | sparrow/fd.py:70-82 | a script of non-empty reads is drained completely without an error |
| Io.FlushShape | sparrow/fd.py:97-108 | the send loop stops only when all is out or a send raised, and what it leaves of the script is a suffix |
| Io.FlushRaises | core/fd_info.py:99-113 | the only exception the send loop raises is a socket error |
| Io.FlushCompletes | core/fd_info.py:99-113 | sends that each accept something and together cover the text write all of it |
| Io.AdmitShape | sparrowlet/loop.py:82-97 | the accept loop files only fds epoll did not watch, each that of an accepted connection, and leaves a suffix of the backlog |
| Io.AdmitDistinct | core/loop.py:71-85 | accepted connections with distinct new fds are all filed and the loop ends without failure |
| PyDict.UpdateLastWins | sparrowlet/http_server.py:82-83 | after the stores a key is present if and only if it was already or some pair names it, and it then holds the last such pair's value |
| PyDict.UpdateOtherKeys | protocol/http.py:72 | pairs for other keys leave a key's presence and value alone |
| Percent.Unquote | sparrowlet/http_server.py:80-81 | decoding never lengthens the text and leaves text without '%' unchanged |
| Percent.UnquoteQuote | sparrowlet/http_server.py:96 | decoding undoes `urllib.quote`: `unquote(quote(x)) == x` |
| PyText.SplitJoin | sparrowlet/http_server.py:67 | splitting a join of separator-free pieces gives the pieces back |
| PyText.JoinSplit | sparrowlet/http_server.py:67 | joining the pieces of a split gives the text back |
| PyText.SplitCount | sparrowlet/http_server.py:67 | a split has one piece more than the text has separators |
| PyText.ParseIntOfNatToString | protocol/http.py:96 | `int(str(n)) == n` for the written Content-Length |
| PyText.ParseIntNeedsDigit | protocol/http.py:26 | `int()` rejects text without a digit |
| PyText.ParseIntSignSpaces | protocol/http.py:26 | `int()` reads a sign, whitespace, then digits as the signed value, so `int('- 5') == -5` |
| PyText.SliceSplits | protocol/http.py:27-28 | whatever the bound, `s[:n] + s[n:] == s` |
| PyText.ConcatSplit | sparrowlet/buff.py:27-33 | joining does not depend on how the text was cut into chunks |

## Left out

- Stackless tasklets, the channel and the worker pool are left out. The tasks a reactor hands over are recorded in its `queue` instead.
- Logging and `print` are left out. So is `Http.output` in `protocol/http.py`, which only prints.
- The timing of `__del__` depends on the garbage collector. The core registry calls `Finalize` where the record is let go.
- SparrowFd.FdManager.Remove: the sparrow record's own `__del__` (sparrow/fd.py:47-53) closes its socket once the record is collected; the model does not close a sparrow socket, since nothing in sparrow/fd.py closes it outside `__del__` and the time of collection is not determined.
- The `recv` size (`MAX_RECV_SIZE`) only bounds how much one script entry stands for, so it is not modelled.
- `bind`, `listen` and the listening socket's `setblocking` and `setsockopt` are left out, and so is the failure of epoll creation. They only run at start-up.
- AcceptOne, EventNew, SparrowFd.FdManager.New and CoreFdManager.FdManager.New: the `setblocking` and `setsockopt` calls made on every accepted socket are left out, and so is their `socket.error`. These calls are at sparrowlet/loop.py:91-93, core/loop.py:80-81 and the records' `__init_socket` (sparrow/fd.py:56-62, core/fd_info.py:46-52). In the source that error ends the accept loop and loses the connection. On the sparrow path the fd is by then already registered with epoll. The model treats these calls as always succeeding, since the socket options are not modelled.
- The `epoll.poll` call and the `while` loop of `run` are left out. `Dispatch` models the body for one event.
- The module-level `fd_manager` and the `singleton` decorator are left out. The registry is passed in explicitly.
- A value that is not a record, stored with `self[fd] = v`, is modelled as `null`.
- SparrowletHttp.Format: the optional `header` argument of `__format` is left out, because no caller passes one. The default header is always copied.
- SparrowletHttp.HttpServer.OnReceive: the `if send_data:` test is not modelled, because every response is non-empty.
- SparrowletHttp.HttpServer.OnReceive: a page's `get()` or `post()` is assumed to return, because the pages are application code.
- Python 2 byte strings are modelled as `seq<char>`.
- `urllib.unquote` is modelled on the percent escapes only, with a malformed escape kept as written. Decoding to text is not modelled.
