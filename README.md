# OpenAPI paths to Ingress paths, modelled in Dafny

The `go-openapi-spec-to-ingress` Pulumi program reads an OpenAPI document
for the pet store API and turns the keys of its `paths` object into
Kubernetes Ingress HTTP paths. Each key is put after the server URL
(`servers[0].url`). The result is rewritten with the regular expression
`\{.+\}`: the matched text is looked up in a three-entry table of path
parameters and replaced by what the table gives, or by the empty string when
the table has no entry. Each rewritten path becomes one `Exact` ingress path
whose backend is the `petstore-svc` Service on port 80.

This project models that translation and proves what it does:

- `wrappers.dfy` (module `Wrappers`): `Option` and `Result`.
- `path_param.dfy` (module `PathParam`): the pattern `\{.+\}` as Go's RE2
  engine matches it, the substitution table `pathParamMap`, and
  `ReplaceAllStringFunc`.
- `ingress.dfy` (module `Ingress`): the ingress path record, the shared
  backend, `TranslatePath` for one key, and `BuildPaths`, the loop that
  appends one entry per key.

## How the pattern is modelled

`IsMatch(s, i, j)` says that `\{.+\}` matches `s[i..j]`. That means a `{`,
then one or more characters other than a newline (Go's `.` does not match
`\n`), then a `}`. Go's engine reports the leftmost-first match, and with a
greedy `.+` that is the longest match at the leftmost start with any match.
`IsGreedyMatch` states exactly this. `GreedySpan` computes the span and is
proved to return it. `FindGreedySpan` finds the same span with two nested
loops. On one line, the match runs from the first `{` of the string to its
last `}` (`SingleLineSpan`). So a path gets at most one replacement, and a
path with two parameters, such as `/pet/{petId}/order/{orderId}`, loses
everything from `{petId}` on. The model keeps this behaviour as written.

`ReplaceAllFunc` takes any replacement function. It replaces each match from
left to right and resumes the search where the match ended.
`Rewrite` is `ReplaceAllFunc` with the table lookup, where a missing key
gives Go's zero value `""`.

Inputs are plain data. The server URL is an `Option<string>`: `None` when
`jsonparser.GetString` finds no string at `servers[0].url`. The path keys
are a `seq<string>` in document order, holding the keys that
`jsonparser.ObjectEach` visits. The code discards `ObjectEach`'s error, so
when `paths` is missing or is not an object, the run visits no keys and
succeeds with an empty list. The model gets that case from an empty
sequence.

The backend's name and port are the constants `petstore-svc` and `80`.
The code reads them from the Service it has just declared.

A per-token scan (`\{[^}]+\}`) would rewrite each parameter of a
multi-parameter path separately. The code does not do this, and neither
does the model: the greedy span is kept, and a span with no table entry is
deleted.

## Model

| member | source | states |
|---|---|---|
| `PathParam.GreedySpan` | go-openapi-spec-to-ingress/main.go:87 | the span returned is a match of `\{.+\}` with no match starting further left and no longer match at the same start; `None` only when the pattern matches nowhere |
| `PathParam.MatchEnd` | go-openapi-spec-to-ingress/main.go:87 | a match starting at `i` ends at the last `}` before the end of that line, and none exists when there is no such `}` two or more places past the `{` |
| `PathParam.GreedySpanIsTheMatch` | go-openapi-spec-to-ingress/main.go:87 | `GreedySpan(s) == Some((i, j))` exactly when `s[i..j]` is RE2's leftmost-first greedy match; `None` exactly when nothing matches |
| `PathParam.SingleLineSpan` | go-openapi-spec-to-ingress/main.go:87 | on a string without newlines, the span runs from the first `{` to the last `}` (both directions); there is no span exactly when no `{` has a `}` two or more places after it |
| `PathParam.FindGreedySpan` | go-openapi-spec-to-ingress/main.go:87 | the loop-based search returns the same span as `GreedySpan` on every string |
| `PathParam.FindMatchEnd` | go-openapi-spec-to-ingress/main.go:87 | the inner loop, walking from a `{` to the end of its line, returns the same match end as `MatchEnd` |
| `PathParam.Lookup` | go-openapi-spec-to-ingress/main.go:88-97 | `pathParamMap[s]`: the result is empty exactly when the token is not one of the three table keys (Go's zero value), and no result holds a `{` or a newline, so the fragments cannot form a new match |
| `PathParam.ReplaceAllFunc` | go-openapi-spec-to-ingress/main.go:96 | the definition of `ReplaceAllStringFunc` for this pattern (no contract of its own); its properties are stated by `AtMostOneReplacement`, `NoBracePairUnchanged`, `RewrittenHasNoMatch` and `BraceFreePrefixUntouched` |
| `PathParam.Rewrite` | go-openapi-spec-to-ingress/main.go:96-98 | the definition of the rewrite with the table lookup as the replacement (no contract of its own); its properties are stated by `RewriteIdempotent` and `RewriteKey` |
| `PathParam.AtMostOneReplacement` | go-openapi-spec-to-ingress/main.go:96-98 | without newlines, `ReplaceAllStringFunc` replaces at most one span, and the text before and after it is kept verbatim |
| `PathParam.NoBracePairUnchanged` | go-openapi-spec-to-ingress/main.go:87-98 | a path in which no `{` has a `}` two or more places after it is returned unchanged, newlines or not |
| `PathParam.RewrittenHasNoMatch` | go-openapi-spec-to-ingress/main.go:96-98 | when the replacements hold no `{` or newline, the pattern matches nowhere in the result, on every input including ones with newlines |
| `PathParam.RewriteIdempotent` | go-openapi-spec-to-ingress/main.go:87-98 | rewriting an already rewritten path changes nothing |
| `PathParam.BraceFreePrefixUntouched` | go-openapi-spec-to-ingress/main.go:95-96 | a prefix with no `{` is kept as it is, and the rest is rewritten as if the prefix were absent |
| `Ingress.BuildPaths` | go-openapi-spec-to-ingress/main.go:83-112 | a missing server URL gives the error and no paths; otherwise one entry per key, in key order, each holding the key's translated path, `Exact`, and the `petstore-svc`:80 backend |
| `Ingress.TranslatePath` | go-openapi-spec-to-ingress/main.go:95-98 | the definition of one ingress path, `Rewrite(prefix + key)` (no contract of its own); its properties are stated by `TranslateWithoutSpan`, `TranslateWithSpan`, `TranslateIsFinal`, `TranslateKeepsPrefix` and the examples |
| `Ingress.PathEntry` | go-openapi-spec-to-ingress/main.go:99-110 | the definition of the appended element (no contract of its own); `BuildPaths` states what every element holds |
| `Ingress.EmptyPathsExample` | go-openapi-spec-to-ingress/main.go:93-112 | with a server URL present (any URL), an empty `paths` object gives an empty list of ingress paths and no error |
| `Ingress.TranslateWithoutSpan` | go-openapi-spec-to-ingress/main.go:95-96 | when no `{` of prefix + key has a `}` two or more places after it, the ingress path is exactly prefix + key |
| `Ingress.TranslateWithSpan` | go-openapi-spec-to-ingress/main.go:95-98 | the one span of prefix + key is replaced by its table fragment when it is a table key and deleted when it is not, with the text around it kept |
| `Ingress.TranslateIsFinal` | go-openapi-spec-to-ingress/main.go:95-98 | an ingress path holds no span the pattern could still rewrite |
| `Ingress.TranslateKeepsPrefix` | go-openapi-spec-to-ingress/main.go:95-98 | a server URL without `{` appears unchanged at the front of every ingress path |
| `Ingress.RewriteKey` | go-openapi-spec-to-ingress/main.go:96-98 | a key without a newline whose first `{` and last `}`, with at least one character between them, delimit `key[i..j]` is rewritten to `key[..i]`, the lookup of that span, and `key[j..]` |
| `Ingress.TranslateKeyWithSpan` | go-openapi-spec-to-ingress/main.go:95-98 | the same as `RewriteKey` (key without a newline, first `{` and last `}` with at least one character between them), under a server URL without `{` |
| `Ingress.TranslateOneToken` | go-openapi-spec-to-ingress/main.go:95-98 | under a server URL without `{`, a key without a newline, made of a head without `{`, one `{...}` token and a tail without `}`, gives the server URL, the head, the token's table fragment (or nothing) and the tail |
| `Ingress.PetIdExample` | go-openapi-spec-to-ingress/main.go:89 | `/api/v3` with key `/pet/{petId}` gives `/api/v3/pet/(\d+)` |
| `Ingress.PetIdWithTail` | go-openapi-spec-to-ingress/main.go:89 | `/pet/{petId}` followed by any tail without `}` or newline (such as `/uploadImage`) becomes `/pet/(\d+)` followed by the same tail |
| `Ingress.OrderIdExample` | go-openapi-spec-to-ingress/main.go:90 | key `/store/order/{orderId}` gives the server URL followed by `/store/order/(\d+)` |
| `Ingress.UsernameExample` | go-openapi-spec-to-ingress/main.go:91 | key `/user/{username}` gives the server URL followed by `/user/([A-Za-z0-9]+)` |
| `Ingress.TwoParameterExample` | go-openapi-spec-to-ingress/main.go:87 | key `/pet/{petId}/order/{orderId}` gives the server URL followed by `/pet/`: one greedy span covers both parameters and, not being a table key, is deleted |
| `Ingress.UnknownParameterExample` | go-openapi-spec-to-ingress/main.go:97 | a parameter missing from the table is deleted: key `/pet/{tag}/photo` gives the server URL followed by `/pet//photo` |
| `Ingress.PlainKeyExample` | go-openapi-spec-to-ingress/main.go:95-96 | a key without parameters, `/store/inventory`, comes out unchanged after the server URL |
| `Ingress.ServerVariableExample` | go-openapi-spec-to-ingress/main.go:83-98 | a server URL with a server variable, `https://{env}.x`, starts the greedy span inside the URL: with key `/pet/{petId}` the span `{env}.x/pet/{petId}` is no table key and is deleted, leaving `https://` |

The examples other than `PetIdExample` and `ServerVariableExample` hold
for every server URL without `{`, `/api/v3` among them (`EmptyPathsExample`
for every server URL).

## Left out

- Reading `openapi.json` (main.go:79-82) is I/O. The model starts from the server URL and the keys.
- Parsing JSON inside `jsonparser` (main.go:83, main.go:94, main.go:112) is foreign code. The model takes the URL `GetString` returns and the keys `ObjectEach` visits, already unescaped, in order.
- A key that `ObjectEach` visits before it stops on malformed JSON still gets its entry. The model covers this because its input is the list of keys visited.
- The Pulumi Deployment and Service declarations (main.go:19-76) are calls into the Pulumi SDK. Only the Service's name and port are kept, as constants.
- The Pulumi `Output` values for the backend (main.go:104-106) are asynchronous. The model replaces them with the constants they resolve to.
- The `minikube ip` call (main.go:114-120) is a process exec whose result is never used. The error it can return comes after the paths are built. That error is not modelled.
- The ingress path list is built but never passed to an Ingress resource. The model returns the list.
- Characters are Dafny `char`s, not UTF-8 bytes. Go's `.` matches an invalid byte as one character, and the model has no such bytes.
- Newlines inside a path: the general definitions `GreedySpan` and `ReplaceAllFunc` treat them as Go's `.` does, and `NoBracePairUnchanged`, `TranslateWithoutSpan` and `RewrittenHasNoMatch` hold with them too, but the lemmas named next describe only paths without them, since OpenAPI path keys and server URLs never hold one. With a newline, a key such as `{petId}` newline `{orderId}` gets one replacement per line.
- SingleLineSpan: stated only for strings without a newline.
- AtMostOneReplacement: stated only for strings without a newline; a path spanning several lines can get one replacement per line.
- TranslateWithSpan: stated only for a server URL and key without a newline.
- RewriteKey: stated only for a key without a newline.
- TranslateKeyWithSpan: stated only for a key without a newline.
- TranslateOneToken: stated only for a key without a newline.
- PetIdWithTail: stated only for a tail without a newline.
