/** The protocol-client half of the Sesame HTTP client: each public operation validates
    its arguments and builds its request (module Protocol), hands the request to the
    transport, and succeeds on exactly one status. */
module Sesame {
  import opened Php
  import opened Protocol

  /** What the transport gives back: a status and a body, or the error it raised. */
  datatype Reply = Response(status: int, body: string) | TransportError

  /** Sending a request, seen from the client: the reply is a function of the request. */
  type Transport = Request -> Reply

  /** Reading a file or URL, seen from the client. */
  type Loader = string -> string

  /** The contract every operation keeps. A validation error is returned as it is and
      does not depend on the transport: nothing was sent. Otherwise the request is sent
      once; an error of the transport is reported as such; the operation succeeds
      exactly when the status is `expected`, and reports any other status as the
      operation's `StatusError`. */
  predicate KeepsStatusContract<T>(op: Operation, request: Result<Request>, send: Transport, expected: int, r: Result<T>) {
    match request
    case Err(error) => r == Err(error)
    case Ok(req) =>
      match send(req)
      case TransportError => r == Err(TransportFailure(op))
      case Response(status, _) => if status == expected then r.Ok? else r == Err(StatusError(op, status))
  }

  /** Sending a built request and checking the status against the operation's. */
  function Exchange(op: Operation, request: Result<Request>, send: Transport): (r: Result<string>)
    ensures KeepsStatusContract(op, request, send, ExpectedStatus(op), r)
    ensures r.Ok? ==> r.value == send(request.value).body
  {
    match request
    case Err(error) => Err(error)
    case Ok(req) =>
      match send(req)
      case TransportError => Err(TransportFailure(op))
      case Response(status, body) =>
        if status != ExpectedStatus(op) then Err(StatusError(op, status)) else Ok(body)
  }

  /** An exchange whose body is not used. */
  function Done(r: Result<string>): Result<()>
  {
    match r
    case Ok(_) => Ok(())
    case Err(error) => Err(error)
  }

  /** The repositories of the server, as the raw SPARQL results document. */
  function ListRepositories(e: Endpoint, send: Transport): (r: Result<string>)
    ensures KeepsStatusContract(Operation.ListRepositories, Ok(ListRepositoriesRequest(e)), send, 200, r)
    ensures r.Ok? ==> r.value == send(ListRepositoriesRequest(e)).body
  {
    Exchange(Operation.ListRepositories, Ok(ListRepositoriesRequest(e)), send)
  }

  /** Runs a query; the result is the raw SPARQL results document. */
  function Query(e: Endpoint, send: Transport, query: string,
                 resultFormat: string := SPARQL_XML, queryLang: string := "sparql", infer: bool := true): (r: Result<string>)
    ensures KeepsStatusContract(Operation.Query, QueryRequest(e, query, resultFormat, queryLang, infer), send, 200, r)
    ensures r.Ok? ==> r.value == send(QueryRequest(e, query, resultFormat, queryLang, infer).value).body
  {
    Exchange(Operation.Query, QueryRequest(e, query, resultFormat, queryLang, infer), send)
  }

  /** Adds statements to the selected repository. */
  function Append(e: Endpoint, send: Transport, data: string, context: string := NULL_CONTEXT, inputFormat: string := RDFXML): (r: Result<()>)
    requires IsByteString(context)
    ensures KeepsStatusContract(Operation.Append, AppendRequest(e, data, context, inputFormat), send, 204, r)
  {
    Done(Exchange(Operation.Append, AppendRequest(e, data, context, inputFormat), send))
  }

  /** Replaces the statements of the selected repository. */
  function Overwrite(e: Endpoint, send: Transport, data: string, context: string := NULL_CONTEXT, inputFormat: string := RDFXML): (r: Result<()>)
    requires IsByteString(context)
    ensures KeepsStatusContract(Operation.Overwrite, OverwriteRequest(e, data, context, inputFormat), send, 204, r)
  {
    Done(Exchange(Operation.Overwrite, OverwriteRequest(e, data, context, inputFormat), send))
  }

  /** Reading data for appending or overwriting from a file or URL; the path is
      checked before anything else. */
  function GetFile(filePath: string, load: Loader): (r: Result<string>)
    ensures r.Ok? <==> filePath !in {"", "0"}
    ensures r.Err? ==> r.error == MissingFilePath
    ensures r.Ok? ==> r.value == load(filePath)
  {
    Guard(CheckFilePath(filePath), Ok(load(filePath)))
  }

  function AppendFile(e: Endpoint, send: Transport, load: Loader, filePath: string,
                      context: string := NULL_CONTEXT, inputFormat: string := RDFXML): (r: Result<()>)
    requires IsByteString(context)
    ensures filePath in {"", "0"} ==> r == Err(MissingFilePath)
    ensures filePath !in {"", "0"} ==> r == Append(e, send, load(filePath), context, inputFormat)
  {
    match GetFile(filePath, load)
    case Err(error) => Err(error)
    case Ok(data) => Append(e, send, data, context, inputFormat)
  }

  function OverwriteFile(e: Endpoint, send: Transport, load: Loader, filePath: string,
                         context: string := NULL_CONTEXT, inputFormat: string := RDFXML): (r: Result<()>)
    requires IsByteString(context)
    ensures filePath in {"", "0"} ==> r == Err(MissingFilePath)
    ensures filePath !in {"", "0"} ==> r == Overwrite(e, send, load(filePath), context, inputFormat)
  {
    match GetFile(filePath, load)
    case Err(error) => Err(error)
    case Ok(data) => Overwrite(e, send, data, context, inputFormat)
  }

  /** The namespace bound to a prefix, as the body of the reply. */
  function GetNamespace(e: Endpoint, send: Transport, prefix: string): (r: Result<string>)
    ensures KeepsStatusContract(Operation.GetNamespace, GetNamespaceRequest(e, prefix), send, 200, r)
    ensures r.Ok? ==> r.value == send(GetNamespaceRequest(e, prefix).value).body
  {
    Exchange(Operation.GetNamespace, GetNamespaceRequest(e, prefix), send)
  }

  function SetNamespace(e: Endpoint, send: Transport, prefix: string, namespace: string): (r: Result<()>)
    ensures KeepsStatusContract(Operation.SetNamespace, SetNamespaceRequest(e, prefix, namespace), send, 204, r)
  {
    Done(Exchange(Operation.SetNamespace, SetNamespaceRequest(e, prefix, namespace), send))
  }

  function DeleteNamespace(e: Endpoint, send: Transport, prefix: string): (r: Result<()>)
    ensures KeepsStatusContract(Operation.DeleteNamespace, DeleteNamespaceRequest(e, prefix), send, 204, r)
  {
    Done(Exchange(Operation.DeleteNamespace, DeleteNamespaceRequest(e, prefix), send))
  }

  /** The contexts of the repository, as the raw SPARQL results document. */
  function Contexts(e: Endpoint, send: Transport, resultFormat: string := SPARQL_XML): (r: Result<string>)
    ensures KeepsStatusContract(Operation.Contexts, ContextsRequest(e, resultFormat), send, 200, r)
    ensures r.Ok? ==> r.value == send(ContextsRequest(e, resultFormat).value).body
  {
    Exchange(Operation.Contexts, ContextsRequest(e, resultFormat), send)
  }

  /** The number of statements, read from the body by PHP's integer cast. */
  function Size(e: Endpoint, send: Transport, context: string := NULL_CONTEXT): (r: Result<int>)
    requires IsByteString(context)
    ensures KeepsStatusContract(Operation.Size, SizeRequest(e, context), send, 200, r)
    ensures r.Ok? ==> r.value == IntCast(send(SizeRequest(e, context).value).body)
  {
    match Exchange(Operation.Size, SizeRequest(e, context), send)
    case Err(error) => Err(error)
    case Ok(body) => Ok(IntCast(body))
  }

  /** Removes every statement of the repository, in all contexts. */
  function Clear(e: Endpoint, send: Transport): (r: Result<()>)
    ensures KeepsStatusContract(Operation.Clear, ClearRequest(e), send, 204, r)
  {
    Done(Exchange(Operation.Clear, ClearRequest(e), send))
  }

  /** Without a selected repository every repository-scoped operation reports
      `NoRepository`, whatever its other arguments, and the transport is never used. */
  lemma UnselectedRepositoryFailsEarly(e: Endpoint, send: Transport, query: string, resultFormat: string,
                                       queryLang: string, infer: bool, data: string, context: string,
                                       inputFormat: string, prefix: string, namespace: string)
    requires !RepositorySelected(e.repository)
    requires IsByteString(context)
    ensures Query(e, send, query, resultFormat, queryLang, infer) == Err(NoRepository)
    ensures Append(e, send, data, context, inputFormat) == Err(NoRepository)
    ensures Overwrite(e, send, data, context, inputFormat) == Err(NoRepository)
    ensures GetNamespace(e, send, prefix) == Err(NoRepository)
    ensures SetNamespace(e, send, prefix, namespace) == Err(NoRepository)
    ensures DeleteNamespace(e, send, prefix) == Err(NoRepository)
    ensures Contexts(e, send, resultFormat) == Err(NoRepository)
    ensures Size(e, send, context) == Err(NoRepository)
    ensures Clear(e, send) == Err(NoRepository)
  {
  }

  // ---------------------------------------------------------------------------
  // Scenarios
  // ---------------------------------------------------------------------------

  /** The encoding of the delimited context `<g>`: both brackets are escaped. */
  lemma EncodedBracketsExample()
    ensures IsByteString("<g>") && UrlEncode("<g>") == "%3Cg%3E"
  {
    assert '<' as int == 60 && '>' as int == 62;
    assert EncodeByte('<') == "%3C";
    assert EncodeByte('>') == "%3E";
  }

  /** A context is delimited and percent-encoded before it goes into the URL; the
      default graph `null` goes in as it is. */
  lemma ContextEncodingExample()
    ensures CheckContext("g") == "%3Cg%3E"
    ensures CheckContext(NULL_CONTEXT) == NULL_CONTEXT
  {
    EncodedBracketsExample();
    assert Delimit("g") == "<g>";
  }

  /** A context that already carries its angle brackets is not wrapped a second time. */
  lemma DelimitedContextExample()
    ensures CheckContext("<g>") == "%3Cg%3E"
  {
    EncodedBracketsExample();
    assert Delimit("<g>") == "<g>";
  }

  /** The size of the default graph is read from a 200 reply whose body is "42". */
  lemma SizeOfDefaultGraph(e: Endpoint, send: Transport)
    requires RepositorySelected(e.repository)
    requires send(SizeRequest(e).value) == Response(200, "42")
    ensures Size(e, send) == Ok(42)
  {
    var body := send(SizeRequest(e).value).body;
    assert body == IntToString(42);
    IntCastInvertsIntToString(42);
  }

  /** Appending RDF/XML to the default graph, the defaults of `append`, succeeds on 204
      and reports 201 as an unexpected status. */
  lemma AppendAcceptsOnlyNoContent(e: Endpoint, data: string)
    requires RepositorySelected(e.repository)
    ensures Append(e, (req: Request) => Response(204, ""), data) == Ok(())
    ensures Append(e, (req: Request) => Response(201, ""), data) == Err(UnexpectedStatus(Operation.Append, 201))
  {
    assert IsByteString(NULL_CONTEXT);
  }

  /** Listing the repositories reports a refused reply without its status. */
  lemma ListRepositoriesHidesStatus(e: Endpoint)
    ensures ListRepositories(e, (req: Request) => Response(200, "x")) == Ok("x")
    ensures ListRepositories(e, (req: Request) => Response(500, "x")) == Err(EngineResponseError)
  {
  }
}
