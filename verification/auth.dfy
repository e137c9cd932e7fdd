/** The OAuth middleware (crates/apollo-mcp-server/src/auth.rs): who is let through without a token, and which scopes a
    token needs. Whether a token is valid, and how a body parses, are inputs. */
module Auth {
  import opened GraphQL

  const TOOL_CALL := "tools/call"
  const MCP_METHOD := "mcp-method"
  const MCP_NAME := "mcp-name"
  const PROTOCOL_VERSION := "mcp-protocol-version"
  const PEEK_BODY_LIMIT: nat := 16 * 1024

  /** A header value, if it is readable as text. */
  type HeaderValue = Option<string>

  type Headers = map<string, HeaderValue>

  /** The JSON-RPC method of a request and the name it is called with. */
  datatype Peek = Peek(rpcMethod: string, name: Option<string>)

  /** A body, with what it parses to; or nothing, once it was taken and not put back. */
  datatype Body = Body(size: nat, parsed: Option<Peek>) | Taken

  datatype ScopeMode = Disabled | RequireAll | RequireAny
  {
    predicate IsSatisfiedBy(required: seq<string>, present: seq<string>) {
      match this
      case Disabled => true
      case RequireAll => forall s :: s in required ==> s in present
      case RequireAny => exists s :: s in required && s in present
    }
  }

  /** Alternative groups of scopes; every scope of one group is needed. */
  datatype OperationScopes = OperationScopes(groups: seq<seq<string>>)
  {
    predicate IsSatisfiedBy(present: seq<string>) {
      exists g :: g in groups && forall s :: s in g ==> s in present
    }

    function ChallengeScopes(): seq<string> {
      if groups == [] then [] else groups[0]
    }
  }

  datatype SkipLists = SkipLists(methods: seq<string>, tools: seq<string>, headers: seq<string>)
  {
    predicate NeedsBody() {
      methods != [] || tools != []
    }

    predicate MatchesHeaders(present: Headers) {
      exists name :: name in headers && name in present
    }

    predicate MatchesTool(peek: Peek, appQualified: bool) {
      peek.rpcMethod == TOOL_CALL && !appQualified && peek.name.Some? && peek.name.value in tools
    }

    predicate MatchesPeek(peek: Peek, appQualified: bool) {
      peek.rpcMethod in methods || MatchesTool(peek, appQualified)
    }
  }

  /** The configuration, with the known protocol versions that enforce the standard headers and those without the
      initialize handshake. */
  datatype Config = Config(
    scopes: seq<string>, mode: ScopeMode, skip: SkipLists, required: map<string, OperationScopes>, stateful: bool,
    enforcing: set<string>, stateless: set<string>)

  /** A presented token: its scopes, if it is valid. */
  datatype Token = Token(validated: Option<seq<string>>)

  /** The head of a request. */
  datatype Head = Head(verb: string, headers: Headers, appQualified: bool)

  datatype Outcome =
    | Forwarded(scopes: Option<seq<string>>)
    | Unauthorized
    | Forbidden(required: seq<string>, mode: ScopeMode)
    | Rejected(status: nat)

  function Header(headers: Headers, name: string): Option<string> {
    if name in headers then headers[name] else None
  }

  function FromHeaders(headers: Headers): Option<Peek> {
    match Header(headers, MCP_METHOD)
    case None => None
    case Some(rpcMethod) =>
      if rpcMethod != TOOL_CALL then Some(Peek(rpcMethod, None)) else
      match Header(headers, MCP_NAME)
      case None => None
      case Some(name) => if "=?" <= name then None else Some(Peek(rpcMethod, Some(name)))
  }

  /** Where headers may be decided on: a later stage compares them with the body and refuses what does not match. */
  predicate StandardHeadersEnforced(config: Config, head: Head) {
    && head.verb == "POST" && MCP_METHOD in head.headers
    && Header(head.headers, PROTOCOL_VERSION).Some? && Header(head.headers, PROTOCOL_VERSION).value in config.enforcing
  }

  predicate UsesStatelessProtocol(config: Config, head: Head) {
    Header(head.headers, PROTOCOL_VERSION).Some? && Header(head.headers, PROTOCOL_VERSION).value in config.stateless
  }

  /** The requirement of the operation that the scopes do not meet. */
  function MissingScopes(
    peek: Peek, required: map<string, OperationScopes>, present: seq<string>)
    : Option<OperationScopes>
  {
    if peek.rpcMethod != TOOL_CALL || peek.name.None? || peek.name.value !in required then None
    else if required[peek.name.value].IsSatisfiedBy(present) then None
    else Some(required[peek.name.value])
  }

  /** The body as far as it is peeked at: what it asks for, or the status of a refusal. */
  function PeekBody(body: Body): (r: (Option<Peek>, nat)) {
    if body.Taken? || body.size > PEEK_BODY_LIMIT then (None, 413)
    else if body.parsed.None? then (None, 400)
    else (body.parsed, 200)
  }

  // ---------- The decision ----------

  predicate Exempt(config: Config, head: Head) {
    head.verb == "GET" && (!config.stateful || UsesStatelessProtocol(config, head))
  }

  /** The decision on a token, given what the request asks for as far as that is known. */
  function Scoped(config: Config, token: Token, peek: Option<Peek>): Outcome {
    match token.validated
    case None => Unauthorized
    case Some(scopes) =>
      if config.scopes != [] && !config.mode.IsSatisfiedBy(config.scopes, scopes)
      then Forbidden(config.scopes, config.mode) else
      match if peek.Some? then MissingScopes(peek.value, config.required, scopes) else None
      case Some(missing) => Forbidden(missing.ChallengeScopes(), RequireAll)
      case None => Forwarded(Some(scopes))
  }

  /** The decision with the headers trusted to say what the body asks for, or not. */
  function Decide(config: Config, token: Option<Token>, head: Head, body: Body, trusted: bool): Outcome {
    var fromHeaders := if trusted then FromHeaders(head.headers) else None;
    if Exempt(config, head) then Forwarded(None) else
    match token
    case None =>
      if config.skip.MatchesHeaders(head.headers) then Forwarded(None) else
      var peek := if trusted then fromHeaders
                  else if head.verb == "POST" && config.skip.NeedsBody() then PeekBody(body).0
                  else None;
      if peek.Some? && config.skip.MatchesPeek(peek.value, head.appQualified) then Forwarded(None) else Unauthorized
    case Some(presented) =>
      if fromHeaders.Some? then Scoped(config, presented, fromHeaders)
      else if head.verb == "POST" && config.required != map[] then
        var (peek, status) := PeekBody(body);
        if peek.None? then Rejected(status) else Scoped(config, presented, peek)
      else Scoped(config, presented, None)
  }

  // ---------- The middleware ----------

  class Request {
    const head: Head
    var body: Body

    constructor (head: Head, body: Body)
      ensures this.head == head && this.body == body
    {
      this.head, this.body := head, body;
    }

    /** Take the body, look at it, and put it back if it could be parsed. */
    method ExtractBody() returns (peek: Option<Peek>, status: nat)
      modifies this`body
      ensures (peek, status) == PeekBody(old(body))
      ensures peek.Some? ==> BodySays(old(body), peek.value)
      ensures peek.None? ==>
                && (forall p :: !BodySays(old(body), p))
                && status == if old(body).Taken? || old(body).size > 16384 then 413 else 400
      ensures body == if peek.Some? then old(body) else Taken
    {
      var taken := body;
      body := Taken;
      if taken.Taken? || taken.size > PEEK_BODY_LIMIT {
        return None, 413;
      }
      if taken.parsed.None? {
        return None, 400;
      }
      body := taken;
      return taken.parsed, 200;
    }
  }

  /** The outcome is the decision, and what is forwarded still has the body it came with. */
  method OauthValidate(config: Config, token: Option<Token>, request: Request) returns (outcome: Outcome)
    modifies request`body
    ensures outcome == Decided(config, token, request.head, old(request.body))
    ensures outcome.Forwarded? ==> request.body == old(request.body)
  {
    hide Scoped, ScopeMode.IsSatisfiedBy, OperationScopes.IsSatisfiedBy, SkipLists.MatchesHeaders;
    hide SkipLists.MatchesPeek;
    var head := request.head;
    if Exempt(config, head) {
      return Forwarded(None);
    }
    if token.None? && config.skip.MatchesHeaders(head.headers) {
      return Forwarded(None);
    }
    var headerPeek: Option<Peek> := None;
    if StandardHeadersEnforced(config, head) {
      headerPeek := FromHeaders(head.headers);
      if headerPeek.None? && token.None? {
        return Unauthorized;
      }
    }
    if token.None? && headerPeek.Some? {
      if config.skip.MatchesPeek(headerPeek.value, head.appQualified) {
        return Forwarded(None);
      }
      return Unauthorized;
    }
    var forSkipLists := token.None? && config.skip.NeedsBody();
    var bodyPeek: Option<Peek> := None;
    if headerPeek.None? && head.verb == "POST" && (forSkipLists || config.required != map[]) {
      var status;
      bodyPeek, status := request.ExtractBody();
      if bodyPeek.None? && token.Some? {
        return Rejected(status);
      }
    }
    if forSkipLists && bodyPeek.Some? && config.skip.MatchesPeek(bodyPeek.value, head.appQualified) {
      return Forwarded(None);
    }
    if token.None? {
      return Unauthorized;
    }
    outcome := CheckScopes(config, token.value, if headerPeek.Some? then headerPeek else bodyPeek);
  }

  method CheckScopes(config: Config, token: Token, peek: Option<Peek>) returns (outcome: Outcome)
    ensures outcome == Scoped(config, token, peek)
  {
    hide ScopeMode.IsSatisfiedBy, OperationScopes.IsSatisfiedBy;
    if token.validated.None? {
      return Unauthorized;
    }
    var scopes := token.validated.value;
    if config.scopes != [] && !config.mode.IsSatisfiedBy(config.scopes, scopes) {
      return Forbidden(config.scopes, config.mode);
    }
    if peek.Some? {
      var missing := MissingScopes(peek.value, config.required, scopes);
      if missing.Some? {
        return Forbidden(missing.value.ChallengeScopes(), RequireAll);
      }
    }
    return Forwarded(Some(scopes));
  }

  // ---------- Headers against body ----------

  /** The headers can be read and say what the body says. Only a tool call has a name to compare. */
  predicate HeadersAgree(head: Head, body: Body) {
    var peek := FromHeaders(head.headers);
    && peek.Some? && PeekBody(body).0.Some?
    && peek.value.rpcMethod == PeekBody(body).0.value.rpcMethod
    && (peek.value.rpcMethod == TOOL_CALL ==> peek.value.name == PeekBody(body).0.value.name)
  }

  /** Deciding from the headers, without reading the body, comes to what deciding from the body does. */
  lemma HeadersDecideAsBody(config: Config, token: Option<Token>, head: Head, body: Body)
    requires head.verb == "POST" && HeadersAgree(head, body)
    ensures Decide(config, token, head, body, true) == Decide(config, token, head, body, false)
  {
    hide ScopeMode.IsSatisfiedBy, OperationScopes.IsSatisfiedBy, SkipLists.MatchesHeaders;
    var fromHeaders, fromBody := FromHeaders(head.headers).value, PeekBody(body).0.value;
    assert config.skip.MatchesPeek(fromHeaders, head.appQualified)
        == config.skip.MatchesPeek(fromBody, head.appQualified);
    if token.Some? && token.value.validated.Some? {
      assert MissingScopes(fromHeaders, config.required, token.value.validated.value)
          == MissingScopes(fromBody, config.required, token.value.validated.value);
    }
  }

  // ---------- The outcome, in terms of the request and the configuration ----------

  /** What the middleware decides: `OauthValidate` returns it. */
  function Decided(config: Config, token: Option<Token>, head: Head, body: Body): Outcome {
    Decide(config, token, head, body, StandardHeadersEnforced(config, head))
  }

  /** The request names a protocol version of this set. */
  ghost predicate NamesVersion(head: Head, versions: set<string>) {
    && "mcp-protocol-version" in head.headers
    && exists v :: v in versions && head.headers["mcp-protocol-version"] == Some(v)
  }

  /** The body is there, is not too long to peek at, and says what it asks for. */
  ghost predicate BodySays(body: Body, peek: Peek) {
    body.Body? && body.size <= 16384 && body.parsed == Some(peek)
  }

  /** The headers say the method, and of a tool call the plain name of the tool. */
  ghost predicate HeadersSay(head: Head, peek: Peek) {
    && "mcp-method" in head.headers && head.headers["mcp-method"] == Some(peek.rpcMethod)
    && (peek.rpcMethod == "tools/call" ==>
          && peek.name.Some? && "mcp-name" in head.headers && head.headers["mcp-name"] == peek.name
          && !("=?" <= peek.name.value))
  }

  /** The heads differ at most in the two headers that repeat what the body says. */
  ghost predicate SameButRepeated(a: Head, b: Head) {
    && a.verb == b.verb && a.appQualified == b.appQualified
    && forall name :: name != "mcp-method" && name != "mcp-name" ==>
         (name in a.headers <==> name in b.headers) && (name in a.headers ==> a.headers[name] == b.headers[name])
  }

  /** Unless the request names a version that enforces them, those two headers decide nothing, but that a skip list may
      ask whether one is there. */
  lemma RepeatedDecideNothing(config: Config, token: Option<Token>, a: Head, b: Head, body: Body)
    requires SameButRepeated(a, b) && !NamesVersion(a, config.enforcing)
    requires forall name :: name in config.skip.headers ==> (name in a.headers <==> name in b.headers)
    ensures Decided(config, token, a, body) == Decided(config, token, b, body)
  {
    hide ScopeMode.IsSatisfiedBy, OperationScopes.IsSatisfiedBy, SkipLists.MatchesPeek, Scoped;
    NotEnforced(config, a);
    NotEnforced(config, b);
    assert Header(a.headers, PROTOCOL_VERSION) == Header(b.headers, PROTOCOL_VERSION);
    assert config.skip.MatchesHeaders(a.headers) == config.skip.MatchesHeaders(b.headers);
  }

  lemma NotEnforced(config: Config, head: Head)
    requires !NamesVersion(head, config.enforcing)
    ensures !StandardHeadersEnforced(config, head)
  {
  }

  /** When it does, the body decides nothing for a request without a token, nor for one whose headers can be read. */
  lemma BodyDecidesNothing(config: Config, token: Option<Token>, head: Head, body: Body, other: Body)
    requires head.verb == "POST" && "mcp-method" in head.headers && NamesVersion(head, config.enforcing)
    requires token.None? || exists peek :: HeadersSay(head, peek)
    ensures Decided(config, token, head, body) == Decided(config, token, head, other)
  {
    hide ScopeMode.IsSatisfiedBy, OperationScopes.IsSatisfiedBy, SkipLists.MatchesPeek, SkipLists.MatchesHeaders;
    hide Scoped;
    HeadersSayIff(head);
  }

  /** The scopes of a valid token meet those configured. */
  ghost predicate ScopesMet(config: Config, scopes: seq<string>) {
    || config.scopes == []
    || match config.mode
       case Disabled => true
       case RequireAll => forall s :: s in config.scopes ==> s in scopes
       case RequireAny => exists s :: s in config.scopes && s in scopes
  }

  /** The scopes meet every one of some group that the tool called asks for, if it asks for any. */
  ghost predicate ToolMet(config: Config, peek: Peek, scopes: seq<string>) {
    peek.rpcMethod == "tools/call" && peek.name.Some? && peek.name.value in config.required ==>
      exists g :: g in config.required[peek.name.value].groups && forall s :: s in g ==> s in scopes
  }

  /** A listed header is there. */
  ghost predicate HeaderListed(config: Config, head: Head) {
    exists name :: name in config.skip.headers && name in head.headers
  }

  /** The method is listed, or it is a call of a listed tool that no app stands for. */
  ghost predicate CallListed(config: Config, head: Head, peek: Peek) {
    || peek.rpcMethod in config.skip.methods
    || (peek.rpcMethod == "tools/call" && !head.appQualified && peek.name.Some? && peek.name.value in config.skip.tools)
  }

  /** What the configuration permits for a request that asks for `peek`. */
  ghost predicate Permitted(config: Config, token: Option<Token>, head: Head, peek: Peek) {
    match token
    case None => HeaderListed(config, head) || CallListed(config, head, peek)
    case Some(presented) =>
      && presented.validated.Some?
      && ScopesMet(config, presented.validated.value) && ToolMet(config, peek, presented.validated.value)
  }

  /** A call that the dispatcher will take, whichever way it was decided, is forwarded exactly when the configuration
      permits what its body asks for; with a token its scopes go with it. The dispatcher takes no call whose headers,
      where the version enforces them, say anything else than its body. */
  lemma ForwardedIffPermitted(config: Config, token: Option<Token>, head: Head, body: Body, peek: Peek)
    requires head.verb == "POST" && BodySays(body, peek)
    requires "mcp-method" in head.headers && NamesVersion(head, config.enforcing) ==> HeadersSay(head, peek)
    ensures Decided(config, token, head, body).Forwarded? <==> Permitted(config, token, head, peek)
    ensures Permitted(config, token, head, peek) ==>
              Decided(config, token, head, body) ==
              Forwarded(if token.None? then None else token.value.validated)
  {
    DecidedOnBody(config, token, head, body, peek);
    if !config.skip.NeedsBody() {
      assert !config.skip.MatchesPeek(peek, head.appQualified);
    }
  }

  /** For such a call the headers might as well not be looked at. */
  lemma DecidedOnBody(config: Config, token: Option<Token>, head: Head, body: Body, peek: Peek)
    requires head.verb == "POST" && BodySays(body, peek)
    requires "mcp-method" in head.headers && NamesVersion(head, config.enforcing) ==> HeadersSay(head, peek)
    ensures Decided(config, token, head, body) == Decide(config, token, head, body, false)
  {
    hide ScopeMode.IsSatisfiedBy, OperationScopes.IsSatisfiedBy, SkipLists.MatchesHeaders, Decide;
    if StandardHeadersEnforced(config, head) {
      HeadersDecideAsBody(config, token, head, body);
    }
  }

  /** What a refusal of such a call says: it asks for a token when there is no valid one, otherwise for the configured
      scopes if the token does not meet them, and otherwise for the first group of scopes of the operation called. */
  lemma RefusalSaysWhatIsMissing(config: Config, token: Option<Token>, head: Head, body: Body, peek: Peek)
    requires head.verb == "POST" && BodySays(body, peek)
    requires "mcp-method" in head.headers && NamesVersion(head, config.enforcing) ==> HeadersSay(head, peek)
    requires !Permitted(config, token, head, peek)
    ensures Decided(config, token, head, body) ==
            if token.None? || token.value.validated.None? then Unauthorized
            else if !ScopesMet(config, token.value.validated.value) then Forbidden(config.scopes, config.mode)
            else
              var groups := config.required[peek.name.value].groups;
              Forbidden(if groups == [] then [] else groups[0], RequireAll)
  {
    DecidedOnBody(config, token, head, body, peek);
  }

  /** A request that is not a POST is never decided on what it asks for. A GET that no session can be behind is let
      through; any other is, by a listed header or by a token whose scopes meet those configured. */
  lemma OtherVerbs(config: Config, token: Option<Token>, head: Head, body: Body)
    requires head.verb != "POST"
    ensures Decided(config, token, head, body).Forwarded? <==>
              || (head.verb == "GET" && (!config.stateful || NamesVersion(head, config.stateless)))
              || match token
                 case None => HeaderListed(config, head)
                 case Some(presented) => presented.validated.Some? && ScopesMet(config, presented.validated.value)
  {
  }

  /** A body that cannot be peeked at never turns a request without a token away with anything but the challenge for
      one, and one with a token is refused for it only if some operation has scopes of its own and the headers do not
      say which is called. */
  lemma UnreadableBody(config: Config, token: Option<Token>, head: Head, body: Body)
    requires forall peek :: !BodySays(body, peek)
    ensures token.None? ==> !Decided(config, token, head, body).Rejected?
    ensures Decided(config, token, head, body).Rejected? <==>
              && token.Some? && head.verb == "POST" && config.required != map[]
              && !(NamesVersion(head, config.enforcing) && exists peek :: HeadersSay(head, peek))
    ensures Decided(config, token, head, body).Rejected? ==>
              Decided(config, token, head, body) == Rejected(if body.Taken? || body.size > 16384 then 413 else 400)
  {
    hide ScopeMode.IsSatisfiedBy, OperationScopes.IsSatisfiedBy, SkipLists.MatchesHeaders, SkipLists.MatchesPeek;
    BodySaysIff(body);
    HeadersSayIff(head);
  }

  lemma BodySaysIff(body: Body)
    ensures PeekBody(body).0.Some? <==> exists peek :: BodySays(body, peek)
  {
    if PeekBody(body).0.Some? {
      assert BodySays(body, PeekBody(body).0.value);
    }
  }

  lemma HeadersSayIff(head: Head)
    ensures FromHeaders(head.headers).Some? <==> exists peek :: HeadersSay(head, peek)
  {
    if FromHeaders(head.headers).Some? {
      assert HeadersSay(head, FromHeaders(head.headers).value);
    }
  }
}
