/**
  The decision logic of the HTTP front end (pkg/protocol/http/router.go): the
  proxy-route installer, the CORS short-circuit, and the normalisation of the
  embedding input and of chat messages. The gin engine is abstracted to the set of
  paths that already have handlers, and a registration that gin rejects for any
  other reason is a path in the parameter `malformed`.
 */
module HttpRouter {
  import opened Wrappers
  import opened Collections
  import Json

  /** One `proxy_routes` entry of the configuration. */
  datatype ProxyDecl = ProxyDecl(path: string, targetUrl: string, enable: bool)

  /** The installer acts on an enabled declaration with a non-empty path and target. */
  predicate Eligible(d: ProxyDecl)
  {
    d.enable && d.path != "" && d.targetUrl != ""
  }

  /**
    The result of one pass: the engine's paths afterwards, the paths handed to the
    registration callback (in call order), and whether a registration panic escaped.
   */
  datatype Installation = Installation(engine: set<string>, installed: seq<string>, panicked: bool)

  /** Some eligible declaration of `decls` has path `p`. */
  ghost predicate Declares(decls: seq<ProxyDecl>, p: string)
  {
    exists i :: 0 <= i < |decls| && Eligible(decls[i]) && decls[i].path == p
  }

  /** Some eligible declaration has a path gin rejects. */
  ghost predicate Hits(decls: seq<ProxyDecl>, malformed: set<string>)
  {
    exists i :: 0 <= i < |decls| && Eligible(decls[i]) && decls[i].path in malformed
  }

  /** The index of the first eligible declaration whose path gin rejects, or `|decls|` if there is none. */
  function FirstHit(decls: seq<ProxyDecl>, malformed: set<string>): (n: nat)
    ensures n <= |decls|
    ensures forall i :: 0 <= i < n ==> !(Eligible(decls[i]) && decls[i].path in malformed)
    ensures n < |decls| ==> Eligible(decls[n]) && decls[n].path in malformed
    decreases |decls|
  {
    if |decls| == 0 then 0
    else if Eligible(decls[0]) && decls[0].path in malformed then 0
    else
      var n := FirstHit(decls[1..], malformed);
      assert forall i :: 0 < i <= n ==> decls[i] == decls[1..][i - 1];
      1 + n
  }

  /** The index of the first eligible declaration of path `p`, or `|decls|` if there is none. */
  function FirstDecl(decls: seq<ProxyDecl>, p: string): (n: nat)
    ensures n <= |decls|
    ensures forall i :: 0 <= i < n ==> !(Eligible(decls[i]) && decls[i].path == p)
    ensures n < |decls| ==> Eligible(decls[n]) && decls[n].path == p
    decreases |decls|
  {
    if |decls| == 0 then 0
    else if Eligible(decls[0]) && decls[0].path == p then 0
    else
      var n := FirstDecl(decls[1..], p);
      assert forall i :: 0 < i <= n ==> decls[i] == decls[1..][i - 1];
      1 + n
  }

  /**
    RegisterProxyRoutesFromConfig, one declaration at a time in list order: ineligible
    declarations are skipped; a path gin rejects with any other panic stops the pass
    and the panic propagates; a path that already has handlers is skipped ("handlers
    are already registered" is recovered); any other path is registered and reported
    to the callback.
   */
  function Install(decls: seq<ProxyDecl>, engine: set<string>, malformed: set<string>): (r: Installation)
    ensures Distinct(r.installed)
    ensures forall p :: p in r.installed ==> p !in engine && p !in malformed && Declares(decls, p)
    ensures r.engine == engine + Elements(r.installed)
    ensures r.panicked <==> Hits(decls, malformed)
    ensures !r.panicked ==> forall p :: Declares(decls, p) && p !in engine ==> p in r.installed
    ensures forall p :: p in r.installed <==> p !in engine && Declares(decls[..FirstHit(decls, malformed)], p)
    ensures forall i, j :: 0 <= i < j < |r.installed| ==>
              FirstDecl(decls, r.installed[i]) < FirstDecl(decls, r.installed[j])
    ensures |decls| == 0 ==> r == Installation(engine, [], false)
    decreases |decls|
  {
    if |decls| == 0 then Installation(engine, [], false)
    else
      var d := decls[0];
      var rest := decls[1..];
      InstallTail(decls, malformed);
      if !Eligible(d) || (d.path !in malformed && d.path in engine) then
        DeclaredBeforeHit(decls, malformed);
        Install(rest, engine, malformed)
      else if d.path in malformed then
        assert decls[..0] == [];
        Installation(engine, [], true)
      else
        DeclaredBeforeHit(decls, malformed);
        var r := Install(rest, engine + {d.path}, malformed);
        InstalledAfterHead(d, r.installed);
        Installation(r.engine, [d.path] + r.installed, r.panicked)
  }

  /** Before the first rejected path, the head's path is declared, or a path declared before the tail's first rejection. */
  lemma DeclaredBeforeHit(decls: seq<ProxyDecl>, malformed: set<string>)
    requires |decls| > 0 && !(Eligible(decls[0]) && decls[0].path in malformed)
    ensures forall p :: Declares(decls[..FirstHit(decls, malformed)], p) <==>
              (Eligible(decls[0]) && decls[0].path == p) || Declares(decls[1..][..FirstHit(decls[1..], malformed)], p)
  {
    var pre := decls[..1 + FirstHit(decls[1..], malformed)];
    assert pre[0] == decls[0] && pre[1..] == decls[1..][..FirstHit(decls[1..], malformed)];
    InstallTail(pre, malformed);
  }

  /** Prepending the head's path keeps the installed paths in order of first declaration. */
  lemma InstalledAfterHead(d: ProxyDecl, installed: seq<string>)
    ensures forall i :: 0 < i <= |installed| ==> ([d.path] + installed)[i] == installed[i - 1]
  {
  }

  lemma InstallTail(decls: seq<ProxyDecl>, malformed: set<string>)
    requires |decls| > 0
    ensures forall p :: Declares(decls, p) <==> (Eligible(decls[0]) && decls[0].path == p) || Declares(decls[1..], p)
    ensures Hits(decls, malformed) <==> (Eligible(decls[0]) && decls[0].path in malformed) || Hits(decls[1..], malformed)
  {
    forall p | Declares(decls, p) ensures (Eligible(decls[0]) && decls[0].path == p) || Declares(decls[1..], p) {
      var i :| 0 <= i < |decls| && Eligible(decls[i]) && decls[i].path == p;
      if i > 0 {
        assert decls[1..][i - 1] == decls[i];
      }
    }
    forall p | Declares(decls[1..], p) ensures Declares(decls, p) {
      var i :| 0 <= i < |decls[1..]| && Eligible(decls[1..][i]) && decls[1..][i].path == p;
      assert decls[i + 1] == decls[1..][i];
    }
    if Hits(decls, malformed) && !(Eligible(decls[0]) && decls[0].path in malformed) {
      var i :| 0 <= i < |decls| && Eligible(decls[i]) && decls[i].path in malformed;
      assert decls[1..][i - 1] == decls[i];
    }
    if Hits(decls[1..], malformed) {
      var i :| 0 <= i < |decls[1..]| && Eligible(decls[1..][i]) && decls[1..][i].path in malformed;
      assert decls[i + 1] == decls[1..][i];
    }
  }

  /** A rejected path ends the pass before a new path declared after it is installed. */
  lemma RejectionStopsThePass()
    ensures Install([ProxyDecl("/a", "http://a", true), ProxyDecl("/b", "http://b", true)], {}, {"/a"})
              == Installation({}, [], true)
  {
  }

  /** Without a rejection, the callback sees the new paths in declaration order. */
  lemma CallbacksInDeclarationOrder()
    ensures Install([ProxyDecl("/a", "http://a", true), ProxyDecl("/b", "http://b", true)], {}, {})
              == Installation({"/a", "/b"}, ["/a", "/b"], false)
  {
    var a, b := ProxyDecl("/a", "http://a", true), ProxyDecl("/b", "http://b", true);
    assert [a, b][1..] == [b] && [b][1..] == [];
    assert Install([b], {"/a"}, {}) == Installation({"/a"} + {"/b"}, ["/b"], false);
    assert {"/a"} + {"/b"} == {"/a", "/b"};
  }

  /**
    Running the installer again over the engine a clean pass left behind installs
    nothing and invokes no callback: every declared path is now registered.
   */
  lemma InstallIdempotent(decls: seq<ProxyDecl>, engine: set<string>, malformed: set<string>)
    requires !Install(decls, engine, malformed).panicked
    ensures var r := Install(decls, engine, malformed);
            Install(decls, r.engine, malformed) == Installation(r.engine, [], false)
  {
  }

  // ---------------------------------------------------------------------------
  // CORS

  const AllowOrigin := "*"
  const AllowMethods := "GET, POST, PUT, DELETE, OPTIONS"
  const AllowHeaders := "Content-Type, Authorization"
  const ExposeHeaders := "Content-Length"

  /** What the middleware did: the headers it set, and either an aborted 200 response or a call of the next handler. */
  datatype CorsOutcome = CorsOutcome(headers: map<string, string>, abortStatus: Option<int>, next: bool)

  /** corsMiddleware: the four CORS headers always; OPTIONS is answered 200 and aborted, any other method goes on. */
  function Cors(httpMethod: string): (o: CorsOutcome)
    ensures o.headers.Keys == {"Access-Control-Allow-Origin", "Access-Control-Allow-Methods",
                               "Access-Control-Allow-Headers", "Access-Control-Expose-Headers"}
    ensures o.headers["Access-Control-Allow-Origin"] == AllowOrigin
    ensures o.headers["Access-Control-Allow-Methods"] == AllowMethods
    ensures o.headers["Access-Control-Allow-Headers"] == AllowHeaders
    ensures o.headers["Access-Control-Expose-Headers"] == ExposeHeaders
    ensures o.next <==> httpMethod != "OPTIONS"
    ensures o.abortStatus.Some? <==> httpMethod == "OPTIONS"
    ensures o.abortStatus.Some? ==> o.abortStatus.value == 200
  {
    var headers := map[
      "Access-Control-Allow-Origin" := AllowOrigin,
      "Access-Control-Allow-Methods" := AllowMethods,
      "Access-Control-Allow-Headers" := AllowHeaders,
      "Access-Control-Expose-Headers" := ExposeHeaders];
    if httpMethod == "OPTIONS" then CorsOutcome(headers, Some(200), false)
    else CorsOutcome(headers, None, true)
  }

  /**
    The headers a response carries do not depend on the method, and every request is
    either answered here or passed on, never both.
   */
  lemma CorsPreflightOnly(m1: string, m2: string)
    ensures Cors(m1).headers == Cors(m2).headers
    ensures Cors(m1).next != Cors(m1).abortStatus.Some?
    ensures m1 != "OPTIONS" && m2 != "OPTIONS" ==> Cors(m1) == Cors(m2)
  {
  }

  // ---------------------------------------------------------------------------
  // Request normalisation

  /** The string elements of a JSON array, in order; other elements are dropped. */
  function StringsOf(items: seq<Json.Value>): (r: seq<string>)
    ensures |r| <= |items|
    ensures forall x :: x in r <==> Json.Str(x) in items
  {
    if |items| == 0 then []
    else
      var rest := StringsOf(items[1..]);
      assert forall v :: v in items <==> v == items[0] || v in items[1..];
      if items[0].Str? then [items[0].s] + rest else rest
  }

  lemma {:induction false} StringsOfAppend(a: seq<Json.Value>, b: seq<Json.Value>)
    ensures StringsOf(a + b) == StringsOf(a) + StringsOf(b)
    decreases |a|
  {
    if |a| == 0 {
      assert a + b == b;
    } else {
      assert (a + b)[1..] == a[1..] + b;
      StringsOfAppend(a[1..], b);
    }
  }

  /** An array of strings is passed through unchanged. */
  lemma {:induction false} StringsOfAllStrings(xs: seq<string>)
    ensures StringsOf(seq(|xs|, i requires 0 <= i < |xs| => Json.Str(xs[i]))) == xs
    decreases |xs|
  {
    if |xs| > 0 {
      var items := seq(|xs|, i requires 0 <= i < |xs| => Json.Str(xs[i]));
      assert items[1..] == seq(|xs[1..]|, i requires 0 <= i < |xs[1..]| => Json.Str(xs[1..][i]));
      StringsOfAllStrings(xs[1..]);
      assert xs == [xs[0]] + xs[1..];
    }
  }

  /** The embedding handler's `input`: an array gives its string elements, a string gives itself, anything else nothing. */
  function EmbeddingInput(input: Json.Value): (r: seq<string>)
    ensures input.Array? ==> r == StringsOf(input.items)
    ensures input.Str? ==> r == [input.s]
    ensures !input.Array? && !input.Str? ==> r == []
  {
    match input
    case Array(items) => StringsOf(items)
    case Str(s) => [s]
    case _ => []
  }

  datatype Message = Message(role: string, content: string)

  /** One chat message from a JSON object: a missing or non-string role or content becomes "". */
  function ToMessage(fields: map<string, Json.Value>): (m: Message)
    ensures m.role == "" || ("role" in fields && fields["role"] == Json.Str(m.role))
    ensures "role" in fields && fields["role"].Str? ==> m.role == fields["role"].s
    ensures m.content == "" || ("content" in fields && fields["content"] == Json.Str(m.content))
    ensures "content" in fields && fields["content"].Str? ==> m.content == fields["content"].s
  {
    Message(Json.StringField(fields, "role").GetOr(""), Json.StringField(fields, "content").GetOr(""))
  }

  /** The chat handler's messages: objects become messages in order; any other item is dropped. */
  function ChatMessages(items: seq<Json.Value>): (r: seq<Message>)
    ensures |r| <= |items|
    ensures forall m :: m in r ==> exists f :: Json.Object(f) in items && m == ToMessage(f)
    ensures (forall i :: 0 <= i < |items| ==> items[i].Object?) ==>
              |r| == |items| && forall i :: 0 <= i < |items| ==> r[i] == ToMessage(items[i].fields)
  {
    if |items| == 0 then []
    else
      var rest := ChatMessages(items[1..]);
      assert forall v :: v in items[1..] ==> v in items;
      if items[0].Object? then [ToMessage(items[0].fields)] + rest else rest
  }

  lemma {:induction false} ChatMessagesAppend(a: seq<Json.Value>, b: seq<Json.Value>)
    ensures ChatMessages(a + b) == ChatMessages(a) + ChatMessages(b)
    decreases |a|
  {
    if |a| == 0 {
      assert a + b == b;
    } else {
      assert (a + b)[1..] == a[1..] + b;
      ChatMessagesAppend(a[1..], b);
    }
  }
}
