/** The request-building half of the Sesame HTTP client: the MIME constants, the
    endpoint configuration, the validators, the encoding of a context, the table of
    routes of the Sesame HTTP API, and one builder per public operation that turns the
    configuration and the operation's arguments into a request or a validation error. */
module Protocol {
  import opened Php

  // Result MIME types. Only SPARQL_XML has a results handler.
  const SPARQL_XML := "application/sparql-results+xml"
  const SPARQL_JSON := "application/sparql-results+json"
  const BINARY_TABLE := "application/x-binary-rdf-results-table"
  const BOOLEAN := "text/boolean"

  // Input MIME types.
  const RDFXML := "application/rdf+xml"
  const NTRIPLES := "text/plain"
  const TURTLE := "application/x-turtle"
  const N3 := "text/rdf+n3"
  const TRIX := "application/trix"
  const TRIG := "application/x-trig"

  const INPUT_FORMATS: set<string> := {RDFXML, NTRIPLES, TURTLE, N3, TRIX, TRIG}
  const QUERY_LANGUAGES: set<string> := {"sparql", "serql"}

  const DEFAULT_DSN := "http://localhost:8080/openrdf-sesame"
  const DEFAULT_ENCODING := "utf-8"
  /** The context sentinel that names the default graph; it is sent as it is. */
  const NULL_CONTEXT := "null"

  /** The public operations of the client. */
  datatype Operation =
    | ListRepositories | Query | Append | Overwrite
    | GetNamespace | SetNamespace | DeleteNamespace
    | Contexts | Size | Clear

  /** One kind per place the client throws. */
  datatype Error =
    | NoRepository                              // no repository selected
    | InvalidQueryLanguage                      // neither SPARQL nor SeRQL
    | InvalidResultFormat                       // a result format without a handler
    | InvalidInputFormat                        // not one of the six input formats
    | MissingFilePath                           // empty file path
    | MissingPrefix                             // empty namespace prefix
    | MissingPrefixOrNamespace                  // empty prefix or namespace when setting one
    | EngineResponseError                       // listing repositories got another status
    | UnexpectedStatus(op: Operation, status: int) // the server answered another status
    | TransportFailure(op: Operation)           // the transport raised an error

  datatype Result<+T> = Ok(value: T) | Err(error: Error)

  /** What a validator does: accept, or throw. */
  datatype Outcome = Pass | Fail(error: Error)

  /** The credentials kept by the client (`null` until set). */
  datatype Auth = Auth(user: Option<string>, password: Option<string>)

  /** The client's configuration at the moment an operation runs: the server URL, the
      selected repository, the charset appended to content types, the credentials. */
  datatype Endpoint = Endpoint(dsn: string, repository: Option<string>, queryEncoding: string, auth: Auth)
  {
    /** The charset parameter appended to every content type the client sends. */
    function GetCharsetString(): (r: string)
      ensures |r| == 9 + |queryEncoding|
      ensures r[..9] == ";charset=" && r[9..] == queryEncoding
    {
      ";charset=" + queryEncoding
    }
  }

  /** The charset string names the configured encoding and nothing else: two
      configurations send the same charset exactly when their encodings agree. */
  lemma CharsetStringDeterminesEncoding(e1: Endpoint, e2: Endpoint)
    ensures e1.GetCharsetString() == e2.GetCharsetString() <==> e1.queryEncoding == e2.queryEncoding
  {
    if e1.GetCharsetString() == e2.GetCharsetString() {
      assert e1.queryEncoding == e1.GetCharsetString()[9..] == e2.GetCharsetString()[9..] == e2.queryEncoding;
    }
  }

  datatype Method = GET | POST | PUT | DELETE
  /** A header field; names are kept in lower case (field names are case-insensitive). */
  datatype Header = Header(name: string, value: string)
  datatype FormValue = FormText(text: string) | FormFlag(flag: bool)
  datatype Body = NoBody | Raw(data: string) | Form(fields: seq<(string, FormValue)>)
  datatype Credentials = Credentials(user: string, password: Option<string>)
  datatype Request = Request(verb: Method, url: string, headers: seq<Header>, body: Body, credentials: Option<Credentials>)

  // ---------------------------------------------------------------------------
  // Validators
  // ---------------------------------------------------------------------------

  /** A repository is selected when it is a string other than `""` and `"0"`. */
  predicate RepositorySelected(repository: Option<string>) {
    repository.Some? && repository.value != "" && repository.value != "0"
  }

  function CheckRepository(repository: Option<string>): (r: Outcome)
    ensures r == Pass <==> RepositorySelected(repository)
    ensures r != Pass ==> r == Fail(NoRepository)
  {
    if Empty(repository) || StringOf(repository) == "" then Fail(NoRepository) else Pass
  }

  function CheckQueryLang(queryLang: string): (r: Outcome)
    ensures r == Pass <==> queryLang in QUERY_LANGUAGES
    ensures r != Pass ==> r == Fail(InvalidQueryLanguage)
  {
    if queryLang != "sparql" && queryLang != "serql" then Fail(InvalidQueryLanguage) else Pass
  }

  function CheckResultFormat(format: string): (r: Outcome)
    ensures r == Pass <==> format == SPARQL_XML
    ensures format in {SPARQL_JSON, BINARY_TABLE, BOOLEAN} ==> r == Fail(InvalidResultFormat)
    ensures r != Pass ==> r == Fail(InvalidResultFormat)
  {
    if format != SPARQL_XML then Fail(InvalidResultFormat) else Pass
  }

  function CheckInputFormat(format: string): (r: Outcome)
    ensures r == Pass <==> format in INPUT_FORMATS
    ensures r != Pass ==> r == Fail(InvalidInputFormat)
  {
    if format != RDFXML && format != N3 && format != NTRIPLES
       && format != TRIG && format != TRIX && format != TURTLE
    then Fail(InvalidInputFormat)
    else Pass
  }

  /** The prefix guard of getting and deleting a namespace. */
  function CheckPrefix(prefix: string): (r: Outcome)
    ensures r == Pass <==> prefix != "" && prefix != "0"
    ensures r != Pass ==> r == Fail(MissingPrefix)
  {
    if Empty(Some(prefix)) then Fail(MissingPrefix) else Pass
  }

  /** The guard of setting a namespace: both the prefix and the namespace are needed. */
  function CheckPrefixAndNamespace(prefix: string, namespace: string): (r: Outcome)
    ensures r == Pass <==> prefix !in {"", "0"} && namespace !in {"", "0"}
    ensures r != Pass ==> r == Fail(MissingPrefixOrNamespace)
  {
    if Empty(Some(prefix)) || Empty(Some(namespace)) then Fail(MissingPrefixOrNamespace) else Pass
  }

  /** The file-path guard of loading data from a file or URL. */
  function CheckFilePath(filePath: string): (r: Outcome)
    ensures r == Pass <==> filePath !in {"", "0"}
    ensures r != Pass ==> r == Fail(MissingFilePath)
  {
    if Empty(Some(filePath)) || filePath == "" then Fail(MissingFilePath) else Pass
  }

  /** Running a validator before the rest of an operation: a failure is thrown at once,
      a pass goes on with the rest. */
  function Guard<T>(check: Outcome, next: Result<T>): Result<T>
  {
    match check
    case Fail(error) => Err(error)
    case Pass => next
  }

  // ---------------------------------------------------------------------------
  // Contexts
  // ---------------------------------------------------------------------------

  /** A context already written between angle brackets. */
  predicate Delimited(c: string) {
    c != [] && c[0] == '<' && c[|c| - 1] == '>'
  }

  /** The bracketing step of the context check: wrap unless already delimited. */
  function Delimit(context: string): (r: string)
    ensures Delimited(r)
    ensures r == context <==> Delimited(context)
    ensures r != context ==> |r| == |context| + 2 && r[1..|r| - 1] == context
  {
    if !Delimited(context) then "<" + context + ">" else context
  }

  /** Delimiting is idempotent: an already delimited context is never wrapped twice. */
  lemma DelimitIdempotent(context: string)
    ensures Delimit(Delimit(context)) == Delimit(context)
  {
  }

  /** The context as it goes into a query string: the sentinel `null` unchanged, any
      other context delimited and then url-encoded (see CheckContextDecodes). */
  function CheckContext(context: string): (r: string)
    requires IsByteString(context)
    ensures context == NULL_CONTEXT ==> r == context
  {
    if context != NULL_CONTEXT then
      DelimitKeepsBytes(context);
      UrlEncode(Delimit(context))
    else context
  }

  lemma DelimitKeepsBytes(context: string)
    requires IsByteString(context)
    ensures IsByteString(Delimit(context))
  {
    if !Delimited(context) {
      ByteStringConcat("<", context);
      ByteStringConcat("<" + context, ">");
    }
  }

  /** What the server decodes from an encoded context is the delimited context, and
      nothing in the encoded form can end the query parameter. */
  lemma CheckContextDecodes(context: string)
    requires IsByteString(context)
    requires context != NULL_CONTEXT
    ensures UrlSafe(CheckContext(context))
    ensures UrlDecode(CheckContext(context)) == Delimit(context)
    ensures CheckContext(context)[..3] == "%3C"
  {
    var d := Delimit(context);
    DelimitKeepsBytes(context);
    UrlDecodeInvertsEncode(d);
    UrlEncodeIsUrlSafe(d);
    var r := UrlEncode(d);
    assert r == EncodeByte(d[0]) + UrlEncode(d[1..]);
    assert d[0] == '<' && '<' as int == 60;
    assert EncodeByte(d[0]) == "%3C";
  }

  /** Two contexts are sent alike exactly when they delimit alike. */
  lemma CheckContextInjective(c1: string, c2: string)
    requires IsByteString(c1) && IsByteString(c2)
    requires c1 != NULL_CONTEXT && c2 != NULL_CONTEXT
    ensures CheckContext(c1) == CheckContext(c2) <==> Delimit(c1) == Delimit(c2)
  {
    CheckContextDecodes(c1);
    CheckContextDecodes(c2);
  }

  // ---------------------------------------------------------------------------
  // Routes of the Sesame HTTP API
  // ---------------------------------------------------------------------------

  /** A piece of a path: fixed text, or an argument of the operation. */
  datatype Segment = Literal(text: string) | RepositoryName | Prefix | EncodedContext | RawContext

  /** A path below the server URL, as a list of segments. */
  datatype Path = End | Then(segment: Segment, rest: Path)

  datatype Route = Route(verb: Method, path: Path)

  /** The arguments a path can mention. */
  datatype PathArgs = PathArgs(repository: string, prefix: string, context: string)

  /** The method and path of each operation, below the server URL. */
  function RouteOf(op: Operation): Route {
    match op
    case ListRepositories => Route(GET, Then(Literal("/repositories"), End))
    case Query => Route(POST, Then(Literal("/repositories/"), Then(RepositoryName, End)))
    case Append => Route(POST, StatementsOf(EncodedContext))
    case Overwrite => Route(PUT, StatementsOf(EncodedContext))
    case GetNamespace => Route(GET, NamespaceOf())
    case SetNamespace => Route(PUT, NamespaceOf())
    case DeleteNamespace => Route(DELETE, NamespaceOf())
    case Contexts => Route(POST, Then(Literal("/repositories/"), Then(RepositoryName, Then(Literal("/contexts"), End))))
    case Size => Route(POST, Then(Literal("/repositories/"), Then(RepositoryName, Then(Literal("/size?context="), Then(RawContext, End)))))
    case Clear => Route(DELETE, Then(Literal("/repositories/"), Then(RepositoryName, Then(Literal("/statements"), End))))
  }

  /** The statements of the repository, in the context the query string names. */
  function StatementsOf(context: Segment): Path {
    Then(Literal("/repositories/"), Then(RepositoryName, Then(Literal("/statements?context="), Then(context, End))))
  }

  /** The namespace bound to a prefix. */
  function NamespaceOf(): Path {
    Then(Literal("/repositories/"), Then(RepositoryName, Then(Literal("/namespaces/"), Then(Prefix, End))))
  }

  /** The media type an operation announces in its Accept header, if any. */
  function AcceptOf(op: Operation): Option<string> {
    match op
    case ListRepositories | Query | Contexts => Some(SPARQL_XML)
    case GetNamespace | Size => Some("text/plain")
    case _ => None
  }

  /** The media type of the body an operation sends, if any (the charset follows it). */
  function ContentMediaOf(op: Operation, inputFormat: string): Option<string> {
    match op
    case Query => Some("application/x-www-form-urlencoded")
    case Append | Overwrite => Some(inputFormat)
    case SetNamespace => Some("text/plain")
    case _ => None
  }

  function ExpandSegment(s: Segment, args: PathArgs): string
    requires IsByteString(args.context)
  {
    match s
    case Literal(text) => text
    case RepositoryName => args.repository
    case Prefix => args.prefix
    case EncodedContext => CheckContext(args.context)
    case RawContext => args.context
  }

  /** The URL `url` followed by the segments of `path`, in order. */
  function Expand(url: string, path: Path, args: PathArgs): string
    requires IsByteString(args.context)
    decreases path
  {
    match path
    case End => url
    case Then(segment, rest) => Expand(url + ExpandSegment(segment, args), rest, args)
  }

  /** Expanding a path of three segments appends their expansions in order. */
  lemma ExpandThree(url: string, s1: Segment, s2: Segment, s3: Segment, args: PathArgs)
    requires IsByteString(args.context)
    ensures Expand(url, Then(s1, Then(s2, Then(s3, End))), args)
            == url + ExpandSegment(s1, args) + ExpandSegment(s2, args) + ExpandSegment(s3, args)
  {
    var u1 := url + ExpandSegment(s1, args);
    var u2 := u1 + ExpandSegment(s2, args);
    assert Expand(u2, Then(s3, End), args) == u2 + ExpandSegment(s3, args);
    assert Expand(u1, Then(s2, Then(s3, End)), args) == Expand(u2, Then(s3, End), args);
  }

  /** Expanding a path of four segments appends their expansions in order. */
  lemma ExpandFour(url: string, s1: Segment, s2: Segment, s3: Segment, s4: Segment, args: PathArgs)
    requires IsByteString(args.context)
    ensures Expand(url, Then(s1, Then(s2, Then(s3, Then(s4, End)))), args)
            == url + ExpandSegment(s1, args) + ExpandSegment(s2, args) + ExpandSegment(s3, args) + ExpandSegment(s4, args)
  {
    var u1 := url + ExpandSegment(s1, args);
    ExpandThree(u1, s2, s3, s4, args);
  }

  /** The statements resource of appending and overwriting, with its encoded context. */
  lemma StatementsPath(url: string, repository: string, context: string)
    requires IsByteString(context)
    ensures RouteOf(Overwrite).path == RouteOf(Append).path
    ensures Expand(url, RouteOf(Append).path, PathArgs(repository, "", context))
            == url + "/repositories/" + repository + "/statements?context=" + CheckContext(context)
  {
    ExpandFour(url, Literal("/repositories/"), RepositoryName, Literal("/statements?context="), EncodedContext,
               PathArgs(repository, "", context));
  }

  /** The headers the route table gives an operation, and no others: the Accept header
      first, then the content type with the configured charset. */
  function HeadersOf(op: Operation, e: Endpoint, inputFormat: string): seq<Header> {
    (if AcceptOf(op).Some? then [Header("accept", AcceptOf(op).value)] else [])
    + (if ContentMediaOf(op, inputFormat).Some?
       then [Header("content-type", ContentMediaOf(op, inputFormat).value + e.GetCharsetString())]
       else [])
  }

  /** The credentials attached to every request: only when a user is set (a loose
      comparison with null, so an empty user name attaches nothing). */
  function Prepare(auth: Auth): (r: Option<Credentials>)
    ensures r.Some? <==> auth.user.Some? && auth.user.value != ""
    ensures r.Some? ==> r.value.user == auth.user.value && r.value.password == auth.password
  {
    if LooseNotNull(auth.user) then Some(Credentials(auth.user.value, auth.password)) else None
  }

  /** A request is the one the route table gives for `op`: its method, the server URL
      followed by the expanded path, exactly the headers of the table (the content type
      carrying the configured charset), and the configured credentials. */
  predicate Conforms(req: Request, op: Operation, e: Endpoint, args: PathArgs, inputFormat: string)
    requires IsByteString(args.context)
  {
    && req.verb == RouteOf(op).verb
    && req.url == Expand(e.dsn, RouteOf(op).path, args)
    && req.headers == HeadersOf(op, e, inputFormat)
    && req.credentials == Prepare(e.auth)
  }

  /** The operations that change the repository. */
  predicate Mutating(op: Operation) {
    op in {Append, Overwrite, SetNamespace, DeleteNamespace, Clear}
  }

  /** The one status each operation accepts: 204 No Content for the operations that
      change the repository, 200 OK for those that read it. */
  function ExpectedStatus(op: Operation): (status: int)
    ensures status == (if Mutating(op) then 204 else 200)
  {
    match op
    case ListRepositories => 200
    case Query => 200
    case Append => 204
    case Overwrite => 204
    case GetNamespace => 200
    case SetNamespace => 204
    case DeleteNamespace => 204
    case Contexts => 200
    case Size => 200
    case Clear => 204
  }

  /** The error for a reply whose status the operation does not accept. Listing the
      repositories throws a message without the status; every other operation reports it. */
  function StatusError(op: Operation, status: int): (err: Error)
    ensures err.UnexpectedStatus? <==> op != ListRepositories
    ensures err.UnexpectedStatus? ==> err.op == op && err.status == status
    ensures !err.UnexpectedStatus? ==> err == EngineResponseError
  {
    if op == ListRepositories then EngineResponseError else UnexpectedStatus(op, status)
  }

  // ---------------------------------------------------------------------------
  // Request builders
  // ---------------------------------------------------------------------------

  /** The path arguments of an operation of the selected repository. */
  function Args(e: Endpoint, prefix: string, context: string): PathArgs {
    PathArgs(StringOf(e.repository), prefix, context)
  }

  function ListRepositoriesRequest(e: Endpoint): (r: Request)
    ensures Conforms(r, ListRepositories, e, Args(e, "", ""), "")
    ensures r.body == NoBody
  {
    Request(GET, e.dsn + "/repositories", [Header("accept", SPARQL_XML)], NoBody, Prepare(e.auth))
  }

  function QueryRequest(e: Endpoint, query: string,
                        resultFormat: string := SPARQL_XML, queryLang: string := "sparql", infer: bool := true): (r: Result<Request>)
    ensures r.Ok? <==> RepositorySelected(e.repository) && queryLang in QUERY_LANGUAGES && resultFormat == SPARQL_XML
    ensures !RepositorySelected(e.repository) ==> r == Err(NoRepository)
    ensures RepositorySelected(e.repository) && queryLang !in QUERY_LANGUAGES ==> r == Err(InvalidQueryLanguage)
    ensures RepositorySelected(e.repository) && queryLang in QUERY_LANGUAGES && resultFormat != SPARQL_XML
            ==> r == Err(InvalidResultFormat)
    ensures r.Ok? ==> Conforms(r.value, Query, e, Args(e, "", ""), "")
    ensures r.Ok? ==> r.value.body == Form([("query", FormText(query)), ("queryLn", FormText(queryLang)), ("infer", FormFlag(infer))])
  {
    Guard(CheckRepository(e.repository),
    Guard(CheckQueryLang(queryLang),
    Guard(CheckResultFormat(resultFormat),
    Ok(Request(POST, e.dsn + "/repositories/" + StringOf(e.repository),
                 [Header("accept", SPARQL_XML),
                  Header("content-type", "application/x-www-form-urlencoded" + e.GetCharsetString())],
                 Form([("query", FormText(query)), ("queryLn", FormText(queryLang)), ("infer", FormFlag(infer))]),
                 Prepare(e.auth))))))
  }

  /** The request appending and overwriting build is the one of the route table. */
  lemma StatementsRequestConforms(op: Operation, e: Endpoint, data: string, context: string, inputFormat: string)
    requires op == Append || op == Overwrite
    requires IsByteString(context)
    ensures Conforms(Request(RouteOf(op).verb, e.dsn + "/repositories/" + StringOf(e.repository) + "/statements?context=" + CheckContext(context),
                             [Header("content-type", inputFormat + e.GetCharsetString())],
                             Raw(data), Prepare(e.auth)),
                     op, e, Args(e, "", context), inputFormat)
  {
    assert AcceptOf(op) == None && ContentMediaOf(op, inputFormat) == Some(inputFormat);
    assert HeadersOf(op, e, inputFormat) == [] + [Header("content-type", inputFormat + e.GetCharsetString())];
    StatementsPath(e.dsn, StringOf(e.repository), context);
  }

  function AppendRequest(e: Endpoint, data: string, context: string := NULL_CONTEXT, inputFormat: string := RDFXML): (r: Result<Request>)
    requires IsByteString(context)
    ensures r.Ok? <==> RepositorySelected(e.repository) && inputFormat in INPUT_FORMATS
    ensures !RepositorySelected(e.repository) ==> r == Err(NoRepository)
    ensures RepositorySelected(e.repository) && inputFormat !in INPUT_FORMATS ==> r == Err(InvalidInputFormat)
    ensures r.Ok? ==> Conforms(r.value, Append, e, Args(e, "", context), inputFormat) && r.value.body == Raw(data)
  {
    var request := Request(POST, e.dsn + "/repositories/" + StringOf(e.repository) + "/statements?context=" + CheckContext(context),
                           [Header("content-type", inputFormat + e.GetCharsetString())],
                           Raw(data), Prepare(e.auth));
    StatementsRequestConforms(Append, e, data, context, inputFormat);
    Guard(CheckRepository(e.repository),
    Guard(CheckInputFormat(inputFormat),
    Ok(request)))
  }

  function OverwriteRequest(e: Endpoint, data: string, context: string := NULL_CONTEXT, inputFormat: string := RDFXML): (r: Result<Request>)
    requires IsByteString(context)
    ensures r.Ok? <==> RepositorySelected(e.repository) && inputFormat in INPUT_FORMATS
    ensures !RepositorySelected(e.repository) ==> r == Err(NoRepository)
    ensures RepositorySelected(e.repository) && inputFormat !in INPUT_FORMATS ==> r == Err(InvalidInputFormat)
    ensures r.Ok? ==> Conforms(r.value, Overwrite, e, Args(e, "", context), inputFormat) && r.value.body == Raw(data)
  {
    var request := Request(PUT, e.dsn + "/repositories/" + StringOf(e.repository) + "/statements?context=" + CheckContext(context),
                           [Header("content-type", inputFormat + e.GetCharsetString())],
                           Raw(data), Prepare(e.auth));
    StatementsRequestConforms(Overwrite, e, data, context, inputFormat);
    Guard(CheckRepository(e.repository),
    Guard(CheckInputFormat(inputFormat),
    Ok(request)))
  }

  function GetNamespaceRequest(e: Endpoint, prefix: string): (r: Result<Request>)
    ensures r.Ok? <==> RepositorySelected(e.repository) && prefix !in {"", "0"}
    ensures !RepositorySelected(e.repository) ==> r == Err(NoRepository)
    ensures RepositorySelected(e.repository) && prefix in {"", "0"} ==> r == Err(MissingPrefix)
    ensures r.Ok? ==> Conforms(r.value, GetNamespace, e, Args(e, prefix, ""), "") && r.value.body == NoBody
  {
    ExpandFour(e.dsn, Literal("/repositories/"), RepositoryName, Literal("/namespaces/"), Prefix, Args(e, prefix, ""));
    Guard(CheckRepository(e.repository),
    Guard(CheckPrefix(prefix),
    Ok(Request(GET, e.dsn + "/repositories/" + StringOf(e.repository) + "/namespaces/" + prefix,
                 [Header("accept", "text/plain")], NoBody, Prepare(e.auth)))))
  }

  function SetNamespaceRequest(e: Endpoint, prefix: string, namespace: string): (r: Result<Request>)
    ensures r.Ok? <==> RepositorySelected(e.repository) && prefix !in {"", "0"} && namespace !in {"", "0"}
    ensures !RepositorySelected(e.repository) ==> r == Err(NoRepository)
    ensures RepositorySelected(e.repository) && (prefix in {"", "0"} || namespace in {"", "0"})
            ==> r == Err(MissingPrefixOrNamespace)
    ensures r.Ok? ==> Conforms(r.value, SetNamespace, e, Args(e, prefix, ""), "") && r.value.body == Raw(namespace)
  {
    ExpandFour(e.dsn, Literal("/repositories/"), RepositoryName, Literal("/namespaces/"), Prefix, Args(e, prefix, ""));
    Guard(CheckRepository(e.repository),
    Guard(CheckPrefixAndNamespace(prefix, namespace),
    Ok(Request(PUT, e.dsn + "/repositories/" + StringOf(e.repository) + "/namespaces/" + prefix,
                 [Header("content-type", "text/plain" + e.GetCharsetString())],
                 Raw(namespace), Prepare(e.auth)))))
  }

  function DeleteNamespaceRequest(e: Endpoint, prefix: string): (r: Result<Request>)
    ensures r.Ok? <==> RepositorySelected(e.repository) && prefix !in {"", "0"}
    ensures !RepositorySelected(e.repository) ==> r == Err(NoRepository)
    ensures RepositorySelected(e.repository) && prefix in {"", "0"} ==> r == Err(MissingPrefix)
    ensures r.Ok? ==> Conforms(r.value, DeleteNamespace, e, Args(e, prefix, ""), "") && r.value.body == NoBody
  {
    ExpandFour(e.dsn, Literal("/repositories/"), RepositoryName, Literal("/namespaces/"), Prefix, Args(e, prefix, ""));
    Guard(CheckRepository(e.repository),
    Guard(CheckPrefix(prefix),
    Ok(Request(DELETE, e.dsn + "/repositories/" + StringOf(e.repository) + "/namespaces/" + prefix,
                 [], NoBody, Prepare(e.auth)))))
  }

  function ContextsRequest(e: Endpoint, resultFormat: string := SPARQL_XML): (r: Result<Request>)
    ensures r.Ok? <==> RepositorySelected(e.repository) && resultFormat == SPARQL_XML
    ensures !RepositorySelected(e.repository) ==> r == Err(NoRepository)
    ensures RepositorySelected(e.repository) && resultFormat != SPARQL_XML ==> r == Err(InvalidResultFormat)
    ensures r.Ok? ==> Conforms(r.value, Contexts, e, Args(e, "", ""), "") && r.value.body == NoBody
  {
    ExpandThree(e.dsn, Literal("/repositories/"), RepositoryName, Literal("/contexts"), Args(e, "", ""));
    Guard(CheckRepository(e.repository),
    Guard(CheckResultFormat(resultFormat),
    Ok(Request(POST, e.dsn + "/repositories/" + StringOf(e.repository) + "/contexts",
                 [Header("accept", SPARQL_XML)], NoBody, Prepare(e.auth)))))
  }

  /** The context of `size` goes into the URL as given: neither delimited nor encoded. */
  function SizeRequest(e: Endpoint, context: string := NULL_CONTEXT): (r: Result<Request>)
    requires IsByteString(context)
    ensures r.Ok? <==> RepositorySelected(e.repository)
    ensures !RepositorySelected(e.repository) ==> r == Err(NoRepository)
    ensures r.Ok? ==> Conforms(r.value, Size, e, Args(e, "", context), "") && r.value.body == NoBody
  {
    ExpandFour(e.dsn, Literal("/repositories/"), RepositoryName, Literal("/size?context="), RawContext, Args(e, "", context));
    Guard(CheckRepository(e.repository),
    Ok(Request(POST, e.dsn + "/repositories/" + StringOf(e.repository) + "/size?context=" + context,
                 [Header("accept", "text/plain")], NoBody, Prepare(e.auth))))
  }

  function ClearRequest(e: Endpoint): (r: Result<Request>)
    ensures r.Ok? <==> RepositorySelected(e.repository)
    ensures !RepositorySelected(e.repository) ==> r == Err(NoRepository)
    ensures r.Ok? ==> Conforms(r.value, Clear, e, Args(e, "", ""), "") && r.value.body == NoBody
  {
    ExpandThree(e.dsn, Literal("/repositories/"), RepositoryName, Literal("/statements"), Args(e, "", ""));
    Guard(CheckRepository(e.repository),
    Ok(Request(DELETE, e.dsn + "/repositories/" + StringOf(e.repository) + "/statements",
                 [], NoBody, Prepare(e.auth))))
  }

  // ---------------------------------------------------------------------------
  // Properties relating several builders
  // ---------------------------------------------------------------------------

  /** Called with their default arguments (SPARQL XML results, SPARQL, inference on,
      the default graph, RDF/XML input), the operations pass every check but the
      repository one, and a query asks for inference. */
  lemma DefaultArgumentsPassValidation(e: Endpoint, query: string, data: string)
    ensures QueryRequest(e, query).Ok? <==> RepositorySelected(e.repository)
    ensures QueryRequest(e, query).Ok? ==> QueryRequest(e, query).value.body.fields[2] == ("infer", FormFlag(true))
    ensures AppendRequest(e, data).Ok? <==> RepositorySelected(e.repository)
    ensures OverwriteRequest(e, data).Ok? <==> RepositorySelected(e.repository)
    ensures ContextsRequest(e).Ok? <==> RepositorySelected(e.repository)
  {
    assert IsByteString(NULL_CONTEXT);
  }

  /** Appending and overwriting validate alike and build the same request but for the
      method: POST adds the statements, PUT replaces them. */
  lemma AppendOverwriteDifferOnlyInMethod(e: Endpoint, data: string, context: string, inputFormat: string)
    requires IsByteString(context)
    ensures AppendRequest(e, data, context, inputFormat).Err? <==> OverwriteRequest(e, data, context, inputFormat).Err?
    ensures AppendRequest(e, data, context, inputFormat).Err?
            ==> AppendRequest(e, data, context, inputFormat) == OverwriteRequest(e, data, context, inputFormat)
    ensures AppendRequest(e, data, context, inputFormat).Ok?
            ==> AppendRequest(e, data, context, inputFormat).value.verb == POST
                && OverwriteRequest(e, data, context, inputFormat).value.verb == PUT
                && AppendRequest(e, data, context, inputFormat).value.(verb := PUT)
                   == OverwriteRequest(e, data, context, inputFormat).value
  {
  }

  /** The three namespace operations address the same resource and differ in method. */
  lemma NamespaceOperationsShareResource(e: Endpoint, prefix: string, namespace: string)
    requires SetNamespaceRequest(e, prefix, namespace).Ok?
    ensures GetNamespaceRequest(e, prefix).Ok? && DeleteNamespaceRequest(e, prefix).Ok?
    ensures GetNamespaceRequest(e, prefix).value.url == SetNamespaceRequest(e, prefix, namespace).value.url
                                                   == DeleteNamespaceRequest(e, prefix).value.url
    ensures GetNamespaceRequest(e, prefix).value.verb == GET
    ensures SetNamespaceRequest(e, prefix, namespace).value.verb == PUT
    ensures DeleteNamespaceRequest(e, prefix).value.verb == DELETE
  {
  }
}
