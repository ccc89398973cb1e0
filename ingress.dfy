/**
 * The ingress path list of go-openapi-spec-to-ingress/main.go:83-112: the
 * prefix from `servers[0].url`, then one `Exact` ingress path per key of
 * the OpenAPI `paths` object, in document order, each pointing at the one
 * pet store service.
 */
module Ingress {
  import opened Wrappers
  import opened PathParam

  /** The Service `petstore-svc` (main.go:62) and its port (main.go:68),
      which every ingress path uses as backend (main.go:104-106). */
  const PetstoreServiceName: string := "petstore-svc"
  const PetstoreServicePort: int := 80

  /** The path type every generated path carries (main.go:101). */
  const ExactPathType: string := "Exact"

  datatype ServiceBackend = ServiceBackend(name: string, port: int)

  /** One element of the ingress path array (`HTTPIngressPathArgs`). */
  datatype HttpIngressPath = HttpIngressPath(path: string, pathType: string, backend: ServiceBackend)

  /** The one error the translation returns: `servers[0].url` is missing or
      not a string, so `jsonparser.GetString` fails (main.go:83-86). */
  datatype Error = MissingServerUrl

  const PetstoreBackend: ServiceBackend := ServiceBackend(PetstoreServiceName, PetstoreServicePort)

  /** The ingress path for one key of `paths`: the prefix followed by the
      key (main.go:95), then the parameter rewrite (main.go:96-98). */
  function TranslatePath(prefix: string, key: string): string
  {
    Rewrite(prefix + key)
  }

  /** The element appended for one key (main.go:99-110). */
  function PathEntry(prefix: string, key: string): HttpIngressPath
  {
    HttpIngressPath(TranslatePath(prefix, key), ExactPathType, PetstoreBackend)
  }

  /** The whole run after the file is read: `prefix` is what
      `jsonparser.GetString(oas, "servers", "[0]", "url")` finds, `keys` the
      keys `jsonparser.ObjectEach` visits under `paths`, in document order. */
  method BuildPaths(prefix: Option<string>, keys: seq<string>)
    returns (r: Result<seq<HttpIngressPath>, Error>)
    ensures prefix.None? <==> r.Err?
    ensures r.Err? ==> r.error == MissingServerUrl
    ensures r.Ok? ==> |r.value| == |keys|
    ensures r.Ok? ==> forall n :: 0 <= n < |keys| ==>
      r.value[n] == HttpIngressPath(TranslatePath(prefix.value, keys[n]), ExactPathType, PetstoreBackend)
  {
    if prefix.None? {
      return Err(MissingServerUrl);
    }
    var p := prefix.value;
    var paths: seq<HttpIngressPath> := [];
    var n := 0;
    while n < |keys|
      invariant 0 <= n <= |keys|
      invariant |paths| == n
      invariant forall m :: 0 <= m < n ==>
        paths[m] == HttpIngressPath(TranslatePath(p, keys[m]), ExactPathType, PetstoreBackend)
    {
      paths := paths + [PathEntry(p, keys[n])];
      n := n + 1;
    }
    r := Ok(paths);
  }

  // ---------------------------------------------------------------------
  // What one ingress path looks like
  // ---------------------------------------------------------------------

  /** When no `{` of prefix + key has a `}` two or more places after it, the
      ingress path is prefix + key exactly. */
  lemma TranslateWithoutSpan(prefix: string, key: string)
    requires !HasBracePair(prefix + key)
    ensures TranslatePath(prefix, key) == prefix + key
  {
    NoBracePairUnchanged(prefix + key, Lookup);
  }

  /** Otherwise the one greedy span of prefix + key is replaced by its table
      fragment when the table has it and deleted when it does not; the text
      on either side of the span is kept. */
  lemma TranslateWithSpan(prefix: string, key: string, i: nat, j: nat)
    requires NoNewline(prefix) && NoNewline(key)
    requires GreedySpan(prefix + key) == Some((i, j))
    ensures var s := prefix + key;
      && (s[i..j] in ParamTable ==> TranslatePath(prefix, key) == s[..i] + ParamTable[s[i..j]] + s[j..])
      && (s[i..j] !in ParamTable ==> TranslatePath(prefix, key) == s[..i] + s[j..])
  {
    NoNewlineConcat(prefix, key);
    AtMostOneReplacement(prefix + key, Lookup);
  }

  lemma NoNewlineConcat(x: string, y: string)
    requires NoNewline(x) && NoNewline(y)
    ensures NoNewline(x + y)
  {
    forall k | 0 <= k < |x + y| ensures (x + y)[k] != '\n' {
      if k >= |x| { assert (x + y)[k] == y[k - |x|]; }
    }
  }

  /** Translating an ingress path a second time changes nothing: no span of
      the rewritten path is left for the pattern to match. */
  lemma TranslateIsFinal(prefix: string, key: string)
    ensures Rewrite(TranslatePath(prefix, key)) == TranslatePath(prefix, key)
  {
    RewriteIdempotent(prefix + key);
  }

  /** A server URL without `{` comes through untouched; only the key is
      rewritten. */
  lemma TranslateKeepsPrefix(prefix: string, key: string)
    requires NoOpenBrace(prefix)
    ensures TranslatePath(prefix, key) == prefix + Rewrite(key)
  {
    BraceFreePrefixUntouched(prefix, key, Lookup);
  }

  // ---------------------------------------------------------------------
  // The keys of the pet store document
  // ---------------------------------------------------------------------

  /** Rewrites a key whose first `{` and last `}` delimit one span. */
  lemma RewriteKey(key: string, i: nat, j: nat)
    requires NoNewline(key) && FirstOpenLastClose(key, i, j)
    ensures Rewrite(key) == key[..i] + Lookup(key[i..j]) + key[j..]
  {
    SingleLineSpan(key, i, j);
    AtMostOneReplacement(key, Lookup);
  }

  /** Under a server URL without `{`, a key whose first `{` and last `}`
      delimit s[i..j] becomes the URL, the key up to the span, the span's
      table fragment (or nothing) and the rest of the key. */
  lemma TranslateKeyWithSpan(prefix: string, key: string, i: nat, j: nat)
    requires NoOpenBrace(prefix) && NoNewline(key) && FirstOpenLastClose(key, i, j)
    ensures TranslatePath(prefix, key) == prefix + key[..i] + Lookup(key[i..j]) + key[j..]
  {
    TranslateKeepsPrefix(prefix, key);
    RewriteKey(key, i, j);
  }

  /** A key made of a head without `{`, one `{...}` token and a tail
      without `}` keeps its head and tail; the token becomes its table
      fragment, or nothing. */
  lemma TranslateOneToken(prefix: string, head: string, token: string, tail: string)
    requires NoOpenBrace(prefix) && NoOpenBrace(head) && NoNewline(head)
    requires 3 <= |token| && token[0] == '{' && token[|token| - 1] == '}' && NoNewline(token)
    requires NoCloseBrace(tail) && NoNewline(tail)
    ensures TranslatePath(prefix, head + token + tail) == prefix + head + Lookup(token) + tail
  {
    var key := head + token + tail;
    var i, j := |head|, |head| + |token|;
    assert NoNewline(key) by {
      forall k | 0 <= k < |key| ensures key[k] != '\n' {
        if k < i { assert key[k] == head[k]; }
        else if k < j { assert key[k] == token[k - i]; }
        else { assert key[k] == tail[k - j]; }
      }
    }
    assert FirstOpenLastClose(key, i, j) by {
      forall k | 0 <= k < i ensures key[k] != '{' { assert key[k] == head[k]; }
      forall k | j <= k < |key| ensures key[k] != '}' { assert key[k] == tail[k - j]; }
      assert key[i] == token[0];
      assert key[j - 1] == token[|token| - 1];
    }
    TranslateKeyWithSpan(prefix, key, i, j);
    assert key[..i] == head && key[i..j] == token && key[j..] == tail;
  }

  /** `/pet/{petId}` under the server URL `/api/v3` gives `/api/v3/pet/(\d+)`. */
  lemma PetIdExample()
    ensures TranslatePath("/api/v3", "/pet/{petId}") == "/api/v3" + "/pet/(\\d+)"
  {
    var head, token, tail := "/pet/", "{petId}", "";
    assert head + token + tail == "/pet/{petId}";
    assert head + Lookup(token) + tail == "/pet/(\\d+)";
    assert NoOpenBrace("/api/v3") && NoOpenBrace(head) && NoNewline(head) && NoNewline(token);
    TranslateOneToken("/api/v3", head, token, tail);
    SeqAssoc("/api/v3", head, Lookup(token), tail);
  }

  /** `{petId}` is replaced and whatever follows it is kept, such as
      `/uploadImage`, under any server URL without `{`. */
  lemma PetIdWithTail(prefix: string, tail: string)
    requires NoOpenBrace(prefix) && NoCloseBrace(tail) && NoNewline(tail)
    ensures TranslatePath(prefix, "/pet/{petId}" + tail) == prefix + "/pet/(\\d+)" + tail
  {
    var head, token := "/pet/", "{petId}";
    assert head + token == "/pet/{petId}";
    assert head + Lookup(token) == "/pet/(\\d+)";
    assert NoOpenBrace(head) && NoNewline(head) && NoNewline(token);
    TranslateOneToken(prefix, head, token, tail);
  }

  lemma OrderIdExample(prefix: string)
    requires NoOpenBrace(prefix)
    ensures TranslatePath(prefix, "/store/order/{orderId}") == prefix + "/store/order/(\\d+)"
  {
    var head, token, tail := "/store/order/", "{orderId}", "";
    assert head + token + tail == "/store/order/{orderId}";
    assert head + Lookup(token) + tail == "/store/order/(\\d+)";
    assert NoOpenBrace(head) && NoNewline(head) && NoNewline(token);
    TranslateOneToken(prefix, head, token, tail);
    SeqAssoc(prefix, head, Lookup(token), tail);
  }

  lemma UsernameExample(prefix: string)
    requires NoOpenBrace(prefix)
    ensures TranslatePath(prefix, "/user/{username}") == prefix + "/user/([A-Za-z0-9]+)"
  {
    var head, token, tail := "/user/", "{username}", "";
    assert head + token + tail == "/user/{username}";
    assert head + Lookup(token) + tail == "/user/([A-Za-z0-9]+)";
    assert NoOpenBrace(head) && NoNewline(head) && NoNewline(token);
    TranslateOneToken(prefix, head, token, tail);
    SeqAssoc(prefix, head, Lookup(token), tail);
  }

  /** Two parameters on one path: the greedy span covers both, is not a
      table key, and is deleted. */
  lemma TwoParameterExample(prefix: string)
    requires NoOpenBrace(prefix)
    ensures TranslatePath(prefix, "/pet/{petId}/order/{orderId}") == prefix + "/pet/"
  {
    var head, token, tail := "/pet/", "{petId}/order/{orderId}", "";
    assert head + token + tail == "/pet/{petId}/order/{orderId}";
    assert token !in ParamTable;
    assert head + Lookup(token) + tail == "/pet/";
    assert NoOpenBrace(head) && NoNewline(head) && NoNewline(token);
    TranslateOneToken(prefix, head, token, tail);
    SeqAssoc(prefix, head, Lookup(token), tail);
  }

  /** A parameter missing from the table is deleted rather than kept. */
  lemma UnknownParameterExample(prefix: string)
    requires NoOpenBrace(prefix)
    ensures TranslatePath(prefix, "/pet/{tag}/photo") == prefix + "/pet//photo"
  {
    var head, token, tail := "/pet/", "{tag}", "/photo";
    assert head + token + tail == "/pet/{tag}/photo";
    assert token !in ParamTable;
    assert head + Lookup(token) + tail == "/pet//photo";
    assert NoOpenBrace(head) && NoNewline(head) && NoNewline(token) && NoCloseBrace(tail) && NoNewline(tail);
    TranslateOneToken(prefix, head, token, tail);
    SeqAssoc(prefix, head, Lookup(token), tail);
  }

  /** A key without parameters, such as `/store/inventory`, comes out
      after the server URL unchanged. */
  lemma PlainKeyExample(prefix: string)
    requires NoOpenBrace(prefix)
    ensures TranslatePath(prefix, "/store/inventory") == prefix + "/store/inventory"
  {
    var key := "/store/inventory";
    assert NoOpenBrace(key);
    TranslateKeepsPrefix(prefix, key);
    GreedySpanIsTheMatch(key, 0, 0);
  }

  /** A server URL that carries a server variable, such as
      `https://{env}.x`, starts the greedy span inside the URL: the span
      runs to the key's last `}`, is no table key, and is deleted with the
      whole of the key. */
  lemma ServerVariableExample()
    ensures TranslatePath("https://{env}.x", "/pet/{petId}") == "https://"
  {
    var prefix, key := "https://{env}.x", "/pet/{petId}";
    var s := prefix + key;
    assert |s| == 27 && s[..8] == "https://" && s[27..] == [];
    assert |s[8..27]| == 19;
    assert NoNewline(prefix) && NoNewline(key);
    NoNewlineConcat(prefix, key);
    assert FirstOpenLastClose(s, 8, 27) by {
      assert s[8] == prefix[8] && s[26] == key[11];
      forall k | 0 <= k < 8 ensures s[k] != '{' { assert s[k] == prefix[k]; }
    }
    SingleLineSpan(s, 8, 27);
    TranslateWithSpan(prefix, key, 8, 27);
  }

  /** An empty `paths` object gives an empty list of ingress paths, whatever
      the server URL `p`. */
  method EmptyPathsExample(p: string) returns (r: Result<seq<HttpIngressPath>, Error>)
    ensures r == Ok([])
  {
    r := BuildPaths(Some(p), []);
  }
}
