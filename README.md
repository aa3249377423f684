# Distributed URL shortener — verified model of the core

The shortener turns a submitted URL into a five-symbol code and answers with
`http://localhost:8080/<code>`. It picks one of three backend nodes, round
robin, to forward the request to. It stores code → URL in a shared key-value
store and later redirects `GET /<code>` to the stored URL. This project
models the deterministic part of `main.go` in Dafny and proves what it
promises:

- **CodeGen** (`codegen.dfy`) models `rollingHash` and `shortenUrl`.
  - `Hash` is a recursive function. `RollingHash` and `ShortenUrl` are the
    source's loops, written as methods over Go's `int64` and proved equal to
    the specification functions. Using `int64` means the verifier also checks
    that no step overflows: `h < 2^31`, so `h*31 + ch < 2^63`.
  - `Poly` is an independent reference definition, the unreduced polynomial
    sum. `HashIsPolynomial` proves the hash equals `Poly(s) mod 2^31`.
  - The code holds the first five base-62 digits of the hash, least
    significant first. `DigitsValue` reads a code back as a number and
    recovers `hash mod 62^5`. With `ValueInjective`, this gives
    `SameCodeIff`: two URLs share a code exactly when their hashes agree
    modulo 62^5. The source does not detect such collisions; the later write
    wins.
- **ShortCode** (`shortcode.dfy`) models `extractShortCode`.
  - It takes the last element of `strings.Split(s, "/")`, then applies
    `strings.TrimRight(…, "/ ")`.
  - `TrimRight`'s contract, and `LastSegment`'s together with the lemma
    `LastSegmentIsSuffix`, determine each result completely.
  - Proved: extraction is idempotent, and it recovers the code from
    `shortenUrl`'s result.
  - Because the split already removes every `/`, the `/` in the trim set
    never has an effect. A URL with a trailing slash therefore extracts to
    the empty code (`ExtractTrailingSlash`).
- **Dispatch** (`dispatch.dfy`) models the round-robin step at lines
  106-109.
  - It is a class holding `currentNodeIndex` as Go's `int32`. A ghost
    history records the ports handed out.
  - The class invariant states that the history is exactly 8081, 8082, 8083,
    8081, … The invariant rests on `PortsCycle` and `PortsExtend`.
- **Store** (`store.dfy`) models the shared store as a class whose
  `map<string, string>` field `storeUrlMapping` updates.
- **Handlers** (`handlers.dfy`) models the two handlers.
  - `shortenUrlHandler` rejects an empty `url` before touching the counter
    or the store. It then advances the counter and stores the extracted code.
  - `redirectHandler` returns NotFound exactly when the code is missing.
    Otherwise it redirects to the stored URL, with `http://` added when the
    URL has neither scheme.
  - HTTP statuses are the constructors of `Response`.

The forwarded HTTP call is not modelled. Its outcome is the parameter
`reply` of `ShortenUrlHandler`: `None` means creating, sending or reading the
request failed; `Some(body)` is the body the node answered with. Go does not
check that reply's status code, so any body is possible, and the model
allows any body.

The model follows the code where it differs from the intended design of a
frontend that dispatches and workers that write:

- The same handler runs on every node. The mapping is written by the handler
  that receives the node's reply. Its key is the code extracted from that
  reply, not a code the handler computed itself.
- `storeUrlMapping` does not wait for its write, and its error result is
  always nil. The "store failed" branch of the handler therefore never runs.
  The model keeps that branch.
- The alphabet constant is written in `codegen.dfy` as three concatenated
  literals. Its value is the source's single literal: `LettersMatchRanges` checks it
  position by position.

Strings are `seq<char>`: sequences of Unicode scalar values. Go's `range`
over a string and `strings.HasPrefix`, `Split` and `TrimRight` then act on
code points exactly as modelled, provided the string is valid UTF-8.

## Model

| member | source | states |
|---|---|---|
| `CodeGen.LettersMatchRanges` | main.go:19 | the alphabet holds `a`–`z`, `A`–`Z`, `0`–`9` in that order, position by position, 62 symbols |
| `CodeGen.LetterFacts` | main.go:19 | no alphabet symbol is `/` or a space, and each symbol's position can be recovered from it |
| `CodeGen.Hash` | main.go:171-180 | the rolling hash always lies in `[0, 2^31)` |
| `CodeGen.HashSnoc` | main.go:175-177 | one more code point is one step `h = (h*31 + ch) mod 2^31` |
| `CodeGen.HashIsPolynomial` | main.go:171-180 | reducing at every step gives the polynomial value of the code points mod 2^31 |
| `CodeGen.RollingHash` | main.go:171-180 | the loop over the code points in int64 computes `Hash` without overflow |
| `CodeGen.DigitShift` | main.go:163-165 | dividing the hash by 62 moves on to the next base-62 digit |
| `CodeGen.ShortenUrl` | main.go:158-169 | the loop returns `"http://localhost:8080/"` followed by base-62 digits 0..4 of the hash, least significant first |
| `CodeGen.CodeShape` | main.go:161-166 | the code has exactly 5 symbols, each in `letters`, none `/` or space |
| `CodeGen.EmptyUrl` | main.go:158-180 | the empty URL hashes to 0 and shortens to `http://localhost:8080/aaaaa` |
| `CodeGen.DigitsValue` | main.go:161-166 | reading the n digits back as a base-62 number gives `hash mod 62^n` |
| `CodeGen.ValueInjective` | main.go:161-166 | equal-length strings of alphabet symbols with the same value are equal |
| `CodeGen.SameCodeIff` | main.go:158-180 | two URLs get the same code if and only if their hashes agree mod 62^5 |
| `ShortCode.LastSegment` | main.go:199-200 | the last element of the split holds no `/` and is no longer than the string |
| `ShortCode.LastSegmentIsSuffix` | main.go:199-200 | the last element of the split is the longest `/`-free suffix: all of the string, or the part after its last `/` |
| `ShortCode.TrimRight` | main.go:203 | the trimmed string is the longest prefix not ending in a cutset character; only cutset characters are removed |
| `ShortCode.ExtractShortCode` | main.go:197-206 | the extracted code contains no `/` and does not end in a space |
| `ShortCode.ExtractIdempotent` | main.go:197-206 | extracting twice gives the same as extracting once |
| `ShortCode.ExtractAfterSlash` | main.go:197-206 | a code without `/` and without a trailing space is recovered from behind any `…/` prefix |
| `ShortCode.ExtractShortUrl` | main.go:168 | extracting from the short URL gives back exactly its 5-symbol code |
| `ShortCode.ExtractTrailingSlash` | main.go:199-203 | a URL ending in `/` extracts to the empty code, so trimming `/` never has an effect |
| `Dispatch.Advance` | main.go:108 | the next index is in `[0, 3)`: one more, or back to 0 after 2 |
| `Dispatch.PortsCycle` | main.go:106-109 | starting at index i, dispatch j goes to port `8081 + (i + j) mod 3` |
| `Dispatch.PortsExtend` | main.go:106-109 | from a fresh start, dispatch k goes to port `8081 + k mod 3`, after the earlier k ports |
| `Dispatch.RoundRobin.constructor` | main.go:27 | the counter starts at 0 with nothing dispatched |
| `Dispatch.RoundRobin.NextPort` | main.go:106-109 | returns `8081 + index`, advances `index = (index+1) mod 3`, and keeps the history equal to the round-robin cycle |
| `Store.KeyValueStore.Get` | main.go:213-217 | a lookup succeeds exactly when the key is stored, and returns its URL |
| `Store.KeyValueStore.StoreUrlMapping` | main.go:182-195 | sets `store[extractShortCode(s)] = url`, leaves every other key unchanged, and returns nil |
| `Handlers.WithScheme` | main.go:219-221 | the target always starts with `http://` or `https://`; it equals the input exactly when the input already did, and is otherwise `"http://" + input` |
| `Handlers.WithSchemeIdempotent` | main.go:219-221 | applying the prefix rule twice is the same as applying it once |
| `Handlers.RedirectHandler` | main.go:208-224 | not-found exactly when the code is absent; otherwise a redirect to the stored URL, with `http://` added if it had no scheme |
| `Handlers.ShortenUrlHandler` | main.go:95-156 | an empty url gives BadRequest before the counter or store changes; otherwise one round-robin step happens; a failed forward or an empty reply is a server error and writes nothing; otherwise the extracted reply code maps to url and the client gets `shortenUrl(url)`; when the reply is that short URL, its code then redirects to url |
| `Handlers.ResolveAfterStore` | main.go:213-221 | after a store write, the written code redirects to the new URL and every other code resolves as before |

## Left out

- HTTP routing, the servers and `main`/`runNode`/`init` are left out. They are transport and process start-up, not logic.
- The forwarded request (`http.NewRequest`, `DefaultClient.Do`, reading the body) is left out because it is network I/O. Its outcome is the `reply` parameter.
- The self-forwarding that results from registering the same handler on every node is not modelled, because the forwarded call is not modelled.
- The Redis client and the start-up connection test are replaced by a map, because Redis is a foreign library.
- `Store.KeyValueStore.Get` fails only when the key is absent. A Redis GET can also fail for other reasons, such as a lost connection with the key still present, and `redirectHandler` turns every such error into 404. The map model has no such failures, so its NotFound means "key absent" only.
- `Store.KeyValueStore.StoreUrlMapping` writes at once. The source writes in a detached goroutine, and a failed write is only printed. A sequential model cannot express that lost write.
- `currentNodeMutex` is left out. It is the only mutex the code locks (lines 106 and 109), and it only makes the round-robin step atomic, which `NextPort` already is.
- `mu` and `serverMutex` are left out because they are declared but never used.
- `randSource` is left out because no logic uses it.
- Response bodies, error message texts and `http.Redirect` are left out. They are transport details; the outcomes are `Response` constructors.
- Invalid UTF-8 input is left out. On invalid bytes, Go's `range` yields U+FFFD per byte, and `seq<char>` cannot represent such strings.
