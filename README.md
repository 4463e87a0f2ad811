# CogServer simple storage client, modelled in Dafny

This project models the client side of the simple CogServer storage node
(`CogSimpleStorage.cc`): the check of the `cog://` URI made on construction,
the host and port slicing done by `open`, the connection state kept in the
descriptor field `_sockfd`, the not-connected guards of `do_send` and
`do_recv`, and the read loop of `do_recv`, which cuts one server reply out of
the chunks that successive `recv()` calls return.

Files:

- `outcomes.dfy` — `Error` (one value per exception the node throws),
  `Result` and `Outcome`. `Outcome.Blocked` means the modelled input ran out
  while the call was still waiting in `recv()`.
- `cstring.dfy` — the two C-string effects the source relies on: a `char*`
  read as `std::string` stops at the first NUL (`CStr`), and `strncmp`
  (`StrNCmpEqual`).
- `uri.dfy` — `init` and the slicing in `open`, modelled as written,
  including the colon search that runs past the `/` ending the host.
- `framing.dfy` — the `do_recv` loop. `FrameFrom` is the loop stated step
  for step from a state (`first_time`, `rb`). `ReadMessage` is the loop
  itself, a `while` loop proved equal to `FrameFrom`. The lemmas state what
  the reply is in terms of the chunks alone, in both directions. A reply
  is the concatenation (`Join`) of the C-string views of the *substantive*
  chunks, that is, every chunk other than the single byte 0x16. The reply
  is *finished* at a chunk in one of two cases. In the first, that chunk is
  the first substantive one and takes the fast path: it is shorter than
  4096 bytes and either ends in `'\n'` or `garbage` is set. The reply is
  then that chunk alone. In the second, that chunk ends in `'\n'` and
  nothing before it finished the reply.
- `storage.dfy` — class `CogSimpleStorage` with the field `sockfd`.
  `Connected()` is `0 < sockfd`, so both -1 and 0 read as disconnected.
  The operating system's answers are method parameters. Ghost fields log
  what the node hands to the system and what the system takes: the targets
  given to getaddrinfo, the bytes send() accepted and the descriptors given
  to close().

Points where the code's behaviour is easy to misread, which the model
follows:

- A failed `connect` or handshake `send` in `open` throws without resetting
  `_sockfd`. The node then reads as connected if the descriptor is positive,
  and the descriptor is not released; `Open` says so.
- `do_send` makes one `send()` call and does not retry a short count.
- The fast path returns the chunk through `char*`, so the reply is cut at
  the chunk's first NUL byte, as `rb += buf` cuts accumulated chunks. The
  newline test looks at the raw last byte of the chunk.
- A descriptor of 0 returned by `socket()` is stored but reads as
  disconnected, so the `do_recv` that ends `open` then throws
  "not connected".

## Model

| member | source | states |
|---|---|---|
| CString.CStr | opencog/persist/cog-simple/CogSimpleStorage.cc:227-245 | A buffer read through `char*` is the longest prefix that holds no NUL. The result is followed by a NUL or is the whole buffer. |
| CString.StrNCmpPrefix | opencog/persist/cog-simple/CogSimpleStorage.cc:52-53 | `StrNCmpEqual` models `strncmp(a, b, n) == 0`: the end of a sequence reads as NUL, and the comparison stops at a shared NUL or after `n` characters. Comparing `a` against a NUL-free `b` over the length of `b` finds them equal exactly when `b` is a prefix of the C-string view of `a`. |
| Uri.Init | opencog/persist/cog-simple/CogSimpleStorage.cc:50-56 | `init` accepts exactly the URIs whose C-string view starts with `cog://` and stores that view; any other URI raises `UnknownUri`. |
| Uri.InitKeepsCogUri | opencog/persist/cog-simple/CogSimpleStorage.cc:53-55 | A NUL-free URI that starts with `cog://` is accepted and stored unchanged. |
| Uri.FindFirstOf | opencog/persist/cog-simple/CogSimpleStorage.cc:83-89 | `find_first_of` and `find` return the first index at or after the start that holds a wanted character; npos means no such index. |
| Uri.Before | opencog/persist/cog-simple/CogSimpleStorage.cc:83-95 | Cutting at the first stop character gives a prefix that holds no stop character and is followed by a stop character or the end. |
| Uri.BeforeUnique | opencog/persist/cog-simple/CogSimpleStorage.cc:83-95 | Those three properties determine the cut. |
| Uri.Host | opencog/persist/cog-simple/CogSimpleStorage.cc:82-85 | The host follows `cog://` directly in the URI and holds no `:` or `/`. It ends at a `:`, at a `/` or at the end of the URI. |
| Uri.PortColon | opencog/persist/cog-simple/CogSimpleStorage.cc:89 | The port colon is the first `:` at or after index 6 plus the length of the host, searched through the whole URI. |
| Uri.Port | opencog/persist/cog-simple/CogSimpleStorage.cc:87-96 | With no port colon the port is "17001". Otherwise it is the text after that colon up to the next `/` or the end. |
| Uri.PathDoesNotChangeTarget | opencog/persist/cog-simple/CogSimpleStorage.cc:82-96 | `cog://h:p/rest` and `cog://h:p` both give host `h` and port `p`. |
| Uri.NoColonMeansDefaultPort | opencog/persist/cog-simple/CogSimpleStorage.cc:87-90 | `cog://h` and `cog://h/rest` with no `:` in `rest` give host `h` and port "17001". |
| Uri.ColonInPathIsPort | opencog/persist/cog-simple/CogSimpleStorage.cc:89-96 | The colon search runs past the `/` that ends the host: `cog://h/a:b` gives host `h` and port `b`. |
| Framing.FrameFrom | opencog/persist/cog-simple/CogSimpleStorage.cc:209-250 | The loop consumes at least one recv() result unless it is still blocked. When blocked, it has consumed all of them. |
| Framing.ReadMessage | opencog/persist/cog-simple/CogSimpleStorage.cc:209-251 | The `while` loop over recv() results returns the outcome and the number of results consumed that `Frame` specifies. |
| Framing.FrameIsAccounted | opencog/persist/cog-simple/CogSimpleStorage.cc:229-249 | A reply is the join of the substantive chunks read, and they finish it at the last result consumed. A negative read ends the call with `RecvFailed` and a zero read with `PeerClosed`, both while the reply is unfinished. A blocked call has read only chunks and finished nothing. |
| Framing.FrameRepliesWhenFinished | opencog/persist/cog-simple/CogSimpleStorage.cc:238-249 | Converse of the above: chunks that finish a reply at their last one make the loop return exactly their join there, whatever follows. |
| Framing.FrameStopsAtFailure | opencog/persist/cog-simple/CogSimpleStorage.cc:215-226 | Chunks that leave the reply unfinished are read through. The next negative read then fails the call with `RecvFailed` and the next zero read with `PeerClosed`. With no further results the call blocks. |
| Framing.FrameDecidedByPrefix | opencog/persist/cog-simple/CogSimpleStorage.cc:211-250 | Once the results read so far decide the call, later results change nothing: the loop never reads past a reply or a failure. |
| Framing.IdlesAreSkipped | opencog/persist/cog-simple/CogSimpleStorage.cc:232-233 | Any number of solitary 0x16 chunks leave the reply and `first_time` unchanged, in any loop state. |
| Framing.FastPathAfterIdles | opencog/persist/cog-simple/CogSimpleStorage.cc:232-242 | After idle bytes, a first substantive chunk that takes the fast path is the whole reply, cut at NUL. Idle bytes do not use up the fast path. |
| Framing.ShortUnterminatedReadGoesOn | opencog/persist/cog-simple/CogSimpleStorage.cc:238-249 | When `garbage` is false, a short first chunk without a newline does not end the call. It starts `rb`, clears `first_time`, and the loop goes on reading. |
| Framing.ReplySpanningTwoReads | opencog/persist/cog-simple/CogSimpleStorage.cc:244-249 | A full 4096-byte chunk without a newline, followed by a chunk ending in a newline, is returned as the two joined. |
| Framing.LongerIdleChunkIsContent | opencog/persist/cog-simple/CogSimpleStorage.cc:232-249 | Every chunk of two or more bytes that starts with 0x16 is content, in any loop state. It ends the call by the fast path or by a final newline, or it is appended to `rb` and clears `first_time`. It is never skipped. |
| CogSimple.CogSimpleStorage.constructor | opencog/persist/cog-simple/CogSimpleStorage.cc:58-60 | A new node holds the accepted URI with `sockfd == -1`, so it reads as disconnected. |
| CogSimple.CogSimpleStorage.Connected | opencog/persist/cog-simple/CogSimpleStorage.cc:170-173 | `connected()` is `0 < _sockfd`, so -1 (never opened or closed) and 0 (peer closed during a receive) both read as disconnected. |
| CogSimple.CogSimpleStorage.Create | opencog/persist/cog-simple/CogSimpleStorage.cc:50-63 | Construction fails with `UnknownUri` exactly when `init` rejects the URI. Otherwise the new node stores `init`'s URI and is disconnected. |
| CogSimple.CogSimpleStorage.Close | opencog/persist/cog-simple/CogSimpleStorage.cc:175-180 | From any state `close` ends at `sockfd == -1`, disconnected. It releases the descriptor only when the node was connected. |
| CogSimple.CloseTwice | opencog/persist/cog-simple/CogSimpleStorage.cc:175-180 | Closing twice has the same effect as closing once: the node ends at `sockfd == -1` and has released the descriptor at most once. The lookup and send logs are unchanged. |
| CogSimple.CogSimpleStorage.DoSend | opencog/persist/cog-simple/CogSimpleStorage.cc:184-193 | When disconnected, `do_send` raises `NotConnected` and changes nothing. A negative send count raises `SendFailed`. Otherwise the first `rc` bytes of the payload are logged as accepted by send(). The descriptor never changes. |
| CogSimple.CogSimpleStorage.DoRecv | opencog/persist/cog-simple/CogSimpleStorage.cc:198-226 | When disconnected, `do_recv` raises `NotConnected` and changes nothing. Otherwise its outcome is the loop's (`Frame`). A zero read releases the descriptor and leaves `sockfd == 0`, disconnected. Any other outcome leaves `sockfd` unchanged. |
| CogSimple.CogSimpleStorage.Open | opencog/persist/cog-simple/CogSimpleStorage.cc:70-159 | When connected, `open` returns at once and changes nothing. Otherwise it looks up `(Host(uri), Port(uri))` and throws at the first failing step. It stores socket()'s descriptor before any later step, and a failed connect or handshake leaves `sockfd == fd`. The prompt read ends like `Frame` on the given results. |

## Left out

- getaddrinfo, socket, connect, send, recv and close are not modelled as
  operations. Their results are parameters of `Open`, `DoSend` and `DoRecv`,
  and the ghost fields record what is handed to them.
- The setsockopt calls for TCP_NODELAY and TCP_QUICKACK are left out. Their
  failure is only printed.
- The mutex taken by `open` is left out: the model is sequential.
- The branches compiled out by `USE_GUILE_INSTEAD` are left out.
- `barrier`, `clear_stats`, `print_stats` and the node factory are left
  out. They are empty bodies, printf and registration glue.
- Exception message texts, `errno`/`strerror`, the `free(servinfo)` calls
  and the diagnostics are left out. Each exception is one `Error` value.
- The destructor, which calls `close`, is left out: Dafny objects have no
  destructor.
- The default value of `do_recv`'s `garbage` argument is declared in a
  header that is not part of this model. `garbage` is a parameter of
  `DoRecv` and `Open`.
- A call that would block forever is left out. When the given recv()
  results run out before a reply is finished, `ReadMessage`, `DoRecv` and
  `Open` return `Blocked` instead.
- The `recv()` byte count is taken as the chunk length (1 to 4096). The
  `int` width of `len` and `rc` is not modelled: no such count can
  overflow it.
