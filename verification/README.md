# https-proxy: header handling and request shaping, in Dafny

This project models the core of a single-hop, TLS-terminating HTTP reverse proxy written in Go. The proxy takes each decrypted request, forwards it over plain HTTP to one fixed backend address, and relays the backend's reply to the client. The model covers the part of `main.go` that has real protocol meaning:

- **Header collections** (`headers.dfy`, module `Headers`). A collection maps a canonical field name to its ordered list of values. It is the class `HeaderMap`, whose `fields` the proxy changes in place with `Add`, `Del` and `Set`. The proxy's three helpers are methods. `CopyHeader` and `DelHopHeaders` have loops; `AppendHostToXForwardHeader` looks the chain up, folds it and sets it:
  - `CopyHeader` adds every source value, name by name and in order, to the destination.
  - `DelHopHeaders` deletes the eight hop-by-hop names of section 13.5.1 of RFC 2616, one after another.
  - `AppendHostToXForwardHeader` folds an existing `X-Forwarded-For` list into a single comma-and-space value and puts the client host at its end.

  Each method is proved against a specification function: `Merged`, `Stripped` and `WithForwardedFor`. Lemmas then state what the proxy relies on about those functions.
- **The forwarding chain** (`chain.dfy`, module `Chain`). `Join` is the string join used when the chain is folded. `Entries` reads a chain value back, cutting it at every `", "`. The lemmas show three things:
  - with a non-empty earlier chain, folding and then appending is the chain of all earlier entries followed by the host;
  - reading that chain back gives the entries again, when no entry contains `", "`;
  - a present but empty chain gives `", " + host`, a value with an empty first entry.
- **The handler** (`proxy.dfy`, module `Proxy`). `ReverseProxy.ServeHTTP` mutates the inbound request's header object in place. It then hands that same object to the outbound request, and the model keeps this aliasing. The outbound request keeps the inbound method. Its address is `"http://" + proxyTo + requestURI`. Its header is the inbound header with the hop-by-hop fields removed. The client host, but never the port, is added to `X-Forwarded-For`, and only when the remote address splits into host and port. On the way back, the backend's header is stripped the same way and appended after whatever the response writer already holds. On the success path the backend status becomes the client status.

The handler is modelled as the code is written, not as a cleaned-up version:

- The scheme-upgrade branch (`main.go:56-59`) writes a 301 and does not return. So the request is still forwarded. The backend status write later is ignored, because a status is already out. The backend's headers reach the writer's live header collection but not the header fields sent with the 301. The backend body, which the model leaves out, still follows the 301.
- The backend-error branch (`main.go:77-80`) writes a 502 and does not return. What happens next depends on whether the call also returned a response:
  - When the call returned no response, the handler reaches `resp.Body.Close()` on a nil response and panics. The model reports this through `Exit.NilResponsePanic`.
  - When the client refused to follow a redirect, the call returns that redirect response together with the error. The handler then strips the response's header and merges it into the writer's live header. Its status write is ignored, because the 502 is already out, and the handler returns.

The response writer is modelled with three parts:
- a live header collection;
- the status, where only the first status written takes effect;
- a snapshot of the header fields sent with that status.

Together these let the model state, on each path, which status the writer records and which header fields it snapshots with that status. On the panic path the model does not say what the client finally receives (see "## Left out").

Inputs from outside the core:
- `net.SplitHostPort` of the remote address is passed in as `Option<(host, port)>`.
- The backend call is passed in as `BackendReply`. It is one of three outcomes:
  - `Reply(status, header)`: a response and no error;
  - `Unreachable`: an error and no response;
  - `RedirectRefused(status, header)`: an error together with the redirect response the client refused to follow.
- The backend address comes from the `ReverseProxy` constructor.

## Model

| member | source | states |
|---|---|---|
| `Headers.Stripped` | main.go:16-25 | no hop-by-hop name (`Connection`, `Keep-Alive`, `Proxy-Authenticate`, `Proxy-Authorization`, `Te`, `Trailers`, `Transfer-Encoding`, `Upgrade`) is left, every other name is kept iff it was present, and every kept name has its full value list unchanged |
| `Headers.Merged` | main.go:27-33 | a name is in the merge iff the destination had it or the source holds at least one value for it; the destination's values are a prefix of the merged list (nothing overwritten) |
| `Headers.ForwardedValue` | main.go:45-47 | the host always ends the new chain value; with no earlier chain it is the host alone; with a non-empty earlier chain it is the comma-and-space join of that chain followed by the host |
| `Headers.WithForwardedFor` | main.go:41-49 | `X-Forwarded-For` is added to the names and holds exactly one value; with no earlier chain that value is the host alone; every other name keeps its values |
| `Headers.HeaderMap.Add` | main.go:30 | the value is appended after the name's existing values, creating the name if absent; other names unchanged |
| `Headers.HeaderMap.Del` | main.go:37 | the name and all its values are removed; absence is no error; nothing else changes |
| `Headers.HeaderMap.Set` | main.go:48 | the name ends up with the single given value; nothing else changes |
| `Headers.HeaderMap.Lookup` | main.go:45 | reports whether the name is present (the comma-ok index) and, if so, its exact value list |
| `Headers.CopyHeader` | main.go:27-33 | the destination becomes `Merged(old dst, old src)`: per name, its old values followed by the source's values in order, duplicates kept; names the source lacks are untouched; the source is unchanged when it is a different object |
| `Headers.AddValues` | main.go:29-31 | every value of the list is appended under the name in order; an empty list leaves the collection exactly as it was (no name is created) |
| `Headers.DelHopHeaders` | main.go:35-39 | the header becomes `Stripped` of its old fields: no hop-by-hop name remains and all other names keep their full value lists |
| `Headers.AppendHostToXForwardHeader` | main.go:41-49 | the header becomes `WithForwardedFor(old fields, host)` |
| `Headers.StrippedIdempotent` | main.go:35-39 | removing the hop-by-hop fields twice gives the same collection as removing them once |
| `Headers.MergedKeepsAndAppends` | main.go:27-33 | for every name, the merged values are the destination's values followed by the source's; a name absent from the source keeps exactly the destination's values |
| `Headers.MergedUnique` | main.go:27-33 | any collection with the merge's names and, under each, the destination's values followed by the source's, is the merge: copying has exactly one outcome, whatever order the names are visited in |
| `Headers.MergedIntoEmpty` | main.go:27-33 | merging into an empty collection keeps every non-empty source list whole and in order (both `Set-Cookie` values, say) and adds no name the source lacks |
| `Headers.ForwardedChainExtends` | main.go:42-48 | with an earlier non-empty chain `p`, the single new value is the comma-and-space join of `p + [host]`; read back entry by entry it gives `p + [host]` when no entry contains `", "` |
| `Headers.ForwardedEmptyPrior` | main.go:45-48 | a present but empty chain yields the single value `", " + host` |
| `Headers.ForwardedExample` | main.go:45-48 | an earlier chain `["10.0.0.5"]` and host `"192.168.1.1"` give exactly `["10.0.0.5, 192.168.1.1"]` |
| `Chain.Join` | main.go:46 | the join of no parts is empty; a non-empty join starts with the first part, followed by the separator when there is a second, and ends with the last part |
| `Chain.JoinSnoc` | main.go:46 | joining one more part onto a non-empty list is the old join, the separator, then that part |
| `Chain.Entries` | main.go:42-44 | reading a comma-and-space list always yields at least one entry |
| `Chain.EntriesOfJoin` | main.go:42-46 | reading back the comma-and-space join of a non-empty list whose entries contain no separator gives that list |
| `Proxy.BackendTarget` | main.go:63 | the outbound address is `http://`, then exactly the configured backend address, then exactly the inbound request-URI |
| `Proxy.BackendUrl` | main.go:63 | the outbound URL has scheme `http` and renders as the outbound address |
| `Proxy.OutboundFields` | main.go:68-74 | the outbound header has no hop-by-hop name; every other name except `X-Forwarded-For` is present iff it was inbound, with the same values; with no host split it is the stripped inbound header exactly, with one it holds exactly one `X-Forwarded-For` value |
| `Proxy.Request.constructor` | main.go:63 | a new outgoing request has the given method and URL, a fresh empty header of its own, and an empty request-URI |
| `Proxy.ReverseProxy.constructor` | main.go:51-53 | the handler holds the backend address it is given |
| `Proxy.ReverseProxy.Forward` | main.go:61-74 | the outbound request is fresh, keeps the inbound method, has scheme `http` and targets `http://proxyTo + requestURI`, has an empty request-URI, and shares the inbound header object, whose fields become `OutboundFields` of the old ones |
| `Proxy.ResponseWriter.WriteHeader` | main.go:87 | the first status written takes effect and captures the header fields sent with it; a later write changes nothing |
| `Proxy.ResponseWriter.Redirect` | main.go:56-59 | `Location` is set to the upgraded URL, then the redirect status is written |
| `Proxy.ReverseProxy.ServeHTTP` | main.go:55-89 | inbound scheme `http` becomes `https`; the outbound request is fresh, keeps the method, targets `http://proxyTo + requestURI`, and shares the inbound header object, whose fields become `OutboundFields`; on the success path (no redirect, a response and no error) the writer records the backend status with the snapshot `Merged(prior writer fields, Stripped(backend header))`; on a failed call it records 502 with the prior fields, and the handler ends in the nil-response panic when there is no response, or merges the stripped response header into the live header and returns when there is one; after a redirect it records 301 with the prior fields plus `Location`, and no backend header enters that snapshot |
| `Proxy.RelayResponse` | main.go:76-88 | with no response, 502 is written unless a status is already out, the header is unchanged, and the handler ends in the nil-response panic; with a response, its stripped header is merged into the writer's and the handler returns; the recorded status is the backend's when there was no error and 502 otherwise, unless a status was already out; after an error the snapshot holds the fields as they were before the merge |
| `Proxy.OutboundChain` | main.go:72-74 | with a host split, `X-Forwarded-For` is `[host]` when the client sent none, and with a non-empty client chain it is the single join of the client's chain then the host; the port never enters it |
| `Proxy.RelayedFields` | main.go:84-87 | a hop-by-hop name reaches the client only if the writer already held it, and then with the writer's values alone; every other name carries the writer's values followed by the backend's |
| `Proxy.RelayExample` | main.go:84-87 | a backend header `X-App: ok` plus `Connection: close`, relayed into an empty writer, arrives as `X-App: ok` alone |

## Left out

- Header-name canonicalisation (Go's `textproto` canonical form) is not modelled. Names are taken to be canonical already, and so are the eight hop-by-hop names and `X-Forwarded-For`. Matching is exact string equality.
- The internals of `net.SplitHostPort` are not modelled. Its outcome is the `remote` parameter of `ServeHTTP`.
- The backend call (`client.Do`) is not modelled; its outcome is the `backend` parameter. So is the rest of what `http.NewRequest` does beyond the method and URL: the `Host` field, URL parsing errors, and the `panic` at `main.go:64-66`. The model assumes the request is always built.
- Bodies are not modelled. That covers forwarding the inbound body, `io.Copy` of the backend body (`main.go:88`) and `resp.Body.Close` (`main.go:82`). So the model does not capture two things. After a redirect, the backend body still follows the 301 to the client. After a refused redirect, the copy reads the already-closed body of that response. Only the nil-response panic at `main.go:82` is kept, as `Exit.NilResponsePanic`.
- `http.Error` is modelled only as its 502 status. Its `Content-Type` and `X-Content-Type-Options` headers and its `Server Error` body are not modelled.
- `http.Redirect` is modelled only as its `Location` field and the 301 status. Its `Content-Type`, its short HTML body and its escaping of non-ASCII URLs are not modelled.
- URL serialisation is reduced to `scheme:rest`.
- How net/http recovers from the handler's panic, and what the client then sees on the connection, is not modelled.
- `Proxy.ResponseWriter.WriteHeader` does not model net/http's rejection of status codes outside 100-999. It also does not model the special handling of 1xx informational statuses.
- `log.Printf` and all of `main` are not modelled: flag parsing, the `os.Stat` certificate checks and `http.ListenAndServeTLS` (`main.go:91-119`). These are command-line, filesystem and TLS I/O.
- Concurrent calls of the handler are not modelled. Neither is Go's randomised map iteration order: `CopyHeader` picks the source names in an arbitrary order, and its result does not depend on that order.
