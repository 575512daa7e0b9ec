# phpSesame in Dafny

A model of `phpSesame`, a PHP client for the HTTP API of the Sesame (OpenRDF) RDF
repository. The client keeps a small configuration: the server URL (`dsn`), the
selected repository, the charset it appends to content types, and the credentials.
Each public operation does three things in order:

- it validates its arguments and throws at the first failing check;
- it builds an HTTP request: a method, a URL made by concatenation, headers, a body and
  optional credentials;
- it sends the request and accepts exactly one status, 200 for reads and 204 for writes.

The model is in four modules:

- `Php` (`php.dfy`): the parts of PHP's semantics the client relies on. These are
  `empty()`, the loose comparison `!= null`, `urlencode` (and `urldecode`, the
  receiver's inverse), and the `(int)` cast of a string.
- `Protocol` (`protocol.dfy`):
  - the constants, the error kinds and the validators;
  - the context encoding of `checkContext`, `getCharsetString` and `prepareRequest`;
  - one request builder per operation.

  A separate route table (`RouteOf`, `AcceptOf`, `ContentMediaOf`) gives each
  operation's method, path, Accept header and content type. Every builder is proved to
  produce the request of that table (`Conforms`).
- `Sesame` (`sesame.dfy`): the ten operations over a transport, the status contract
  they keep, and the file-loading variants.
- `SesameClient` (`client.dfy`): the `Client` class with the four fields, the
  constructor and the setters. Its `Endpoint()` is the snapshot of the configuration
  that the operations read.

Modelling choices:

- **PHP version.** The class declares `private` and `public` members and class
  constants, which PHP 4 lacks, and creates requests with `=& new`, which PHP 7 no
  longer accepts; so PHP 5 semantics are modelled. `empty()` is true for `null`, `""`
  and `"0"`. The `(int)` cast of a string reads like `strtol`: leading white space, an
  optional sign, the longest run of digits, and saturation to the 64-bit range of a
  64-bit build other than Windows.
- **Strings** are byte strings: a `seq<char>` whose characters are all below 256
  (`IsByteString`). The operations that put a context into a URL (`append`,
  `overwrite`, `size`) require their context to be one, as every PHP string is.
- **Null arguments.** Arguments that PHP lets be `null` are `Option<string>` where the
  code distinguishes `null`: the repository and the credentials. Elsewhere they are plain
  strings.
- **Loose comparisons.** Every constant the code compares against is a non-numeric
  string, so PHP's loose `!=` is ordinary string inequality there.
- **The transport** is a function from a request to a reply: a status and a body, or
  an error. File loading is a function from a path to its contents.
- **Exceptions** become `Err` values from a closed set of error kinds.
- **Default arguments** of the PHP methods are Dafny default parameter values:
  SPARQL XML results, the SPARQL language, inference on, the context `null` (the
  default graph) and RDF/XML input.

Four behaviours of the code that a reader might not expect, all of which the model
keeps:

- `prepareRequest` tests the user with a loose `!= null`, so an empty user name attaches
  no credentials either.
- `size` puts its context into the URL exactly as given.
- The namespace and file-path guards use `empty()`, so the string `"0"` is rejected as
  well as the empty string.
- `listRepositories` reports a refused status without the status, while every other
  operation's error message carries it.

## Model

| member | source | states |
|---|---|---|
| Php.EmptyValues | phpSesame.php:134 | `empty()` is true exactly for `null`, `""` and `"0"`; of these only `"0"` is loosely different from `null`. |
| Php.LooseNullValues | phpSesame.php:497 | Loosely, exactly `null` and `""` equal `null`, and each of them is empty. |
| Php.UrlEncode | phpSesame.php:171 | The encoding is between one and three times as long as its input, and empty exactly when the input is. |
| Php.UrlEncodeIsUrlSafe | phpSesame.php:171 | The encoding contains only unreserved bytes, `+` and `%`, so no query delimiter can occur in it. |
| Php.UrlDecodeInvertsEncode | phpSesame.php:171 | Decoding what `urlencode` produced gives back the original bytes. |
| Php.UrlEncodeConcat | phpSesame.php:171 | `urlencode` works byte by byte: the encoding of a concatenation is the concatenation of the encodings. |
| Php.UrlEncodeKeepsUnreserved | phpSesame.php:171 | A string made only of letters, digits, `-`, `_` and `.` is left unchanged. |
| Php.UrlEncodeInjective | phpSesame.php:171 | Distinct byte strings have distinct encodings. |
| Php.IntCast | phpSesame.php:452 | PHP 5's `(int)` of a string always lies in the 64-bit integer range. |
| Php.IntCastReadsDigits | phpSesame.php:452 | A non-empty run of digits, followed by nothing or by a non-digit, casts to the value of the digits, saturated to 64 bits. |
| Php.IntCastReadsDecimal | phpSesame.php:452 | A body made of a decimal number, followed by nothing or by a non-digit, casts to that number, saturated to 64 bits. |
| Php.IntCastInvertsIntToString | phpSesame.php:452 | Casting PHP's decimal rendering of any 64-bit integer gives the integer back. |
| Protocol.Endpoint.GetCharsetString | phpSesame.php:483-486 | The charset string is `;charset=` followed by the configured encoding, nine characters longer than it. |
| Protocol.CharsetStringDeterminesEncoding | phpSesame.php:483-486 | Two configurations produce the same charset string exactly when their encodings are equal. |
| Protocol.CheckRepository | phpSesame.php:132-138 | Passes exactly when the repository is a string other than `""` and `"0"`. Otherwise it fails with `NoRepository`. |
| Protocol.CheckQueryLang | phpSesame.php:140-146 | Passes exactly when the language is `sparql` or `serql`. Otherwise it fails with `InvalidQueryLanguage`. |
| Protocol.CheckResultFormat | phpSesame.php:153-159 | Passes exactly when the format is `SPARQL_XML`. The three declared formats that have no handler are rejected. |
| Protocol.CheckInputFormat | phpSesame.php:175-182 | Passes exactly when the format is one of the six input media types. |
| Protocol.CheckPrefix | phpSesame.php:329-332 | The prefix guard of `getNS` and `deleteNS`: passes exactly when the prefix is neither `""` nor `"0"`. |
| Protocol.CheckPrefixAndNamespace | phpSesame.php:359-362 | The guard of `setNS`: passes exactly when neither the prefix nor the namespace is `""` or `"0"`. |
| Protocol.CheckFilePath | phpSesame.php:308-311 | Passes exactly when the path is neither `""` nor `"0"`. Otherwise it fails with `MissingFilePath`. |
| Protocol.Delimit | phpSesame.php:170 | The result is always delimited by angle brackets. It equals the input exactly when the input already starts with `<` and ends with `>`. Otherwise it is the input with one bracket added on each side. |
| Protocol.DelimitIdempotent | phpSesame.php:170 | An already delimited context is never wrapped again. |
| Protocol.CheckContext | phpSesame.php:166-173 | The sentinel `null` passes through unchanged. |
| Protocol.CheckContextDecodes | phpSesame.php:166-173 | For any other context, the result is URL-safe, starts with `%3C`, and decodes to the delimited context. |
| Protocol.CheckContextInjective | phpSesame.php:166-173 | Two contexts other than `null` are sent alike exactly when they delimit alike. |
| Protocol.StatementsPath | phpSesame.php:235 | Appending and overwriting share one path: below any base URL, `/repositories/{repo}/statements?context=` followed by the encoded context. |
| Protocol.Prepare | phpSesame.php:495-504 | Credentials are attached exactly when the user is a non-empty string, and they carry that user and the stored password. |
| Protocol.ExpectedStatus | phpSesame.php:117-476 | Each operation accepts exactly one status: 204 for the five operations that change the repository, 200 for the five that read it. |
| Protocol.ListRepositoriesRequest | phpSesame.php:117-121 | The request is the route table's: GET of `/repositories`, accepting SPARQL XML, with the configured credentials and no body. |
| Protocol.QueryRequest | phpSesame.php:197-209 | Checks run in order: repository, then query language, then result format, each with its own error. On success the request is the table's POST to the repository. The form carries the query, the language and the inference flag, and the content type carries the charset. |
| Protocol.StatementsRequestConforms | phpSesame.php:235-238 | The request `append` and `overwrite` build is the route table's request for either operation. |
| Protocol.AppendRequest | phpSesame.php:229-238 | Checks run in order: repository, then input format. On success the request is a POST to the statements resource with the encoded context. The content type is the input format with the charset, and the body is the data. |
| Protocol.OverwriteRequest | phpSesame.php:271-280 | The same checks as appending. On success the request is a PUT to the statements resource with the encoded context, and the body is the data. |
| Protocol.GetNamespaceRequest | phpSesame.php:325-336 | Checks run in order: repository, then prefix. On success the request is a GET of `/namespaces/{prefix}` accepting `text/plain`. |
| Protocol.SetNamespaceRequest | phpSesame.php:355-367 | Checks run in order: repository, then prefix and namespace. On success the request is a PUT of `/namespaces/{prefix}` whose body is the namespace, sent as `text/plain` with the charset. |
| Protocol.DeleteNamespaceRequest | phpSesame.php:383-393 | Checks run in order: repository, then prefix. On success the request is a DELETE of `/namespaces/{prefix}` with exactly the table's headers, which are none, and no body. |
| Protocol.ContextsRequest | phpSesame.php:411-418 | Checks run in order: repository, then result format. On success the request is a POST to `/contexts` accepting SPARQL XML. |
| Protocol.SizeRequest | phpSesame.php:438-444 | Only the repository is checked. The request is a POST to `/size?context=` followed by the context exactly as given, accepting `text/plain`. |
| Protocol.ClearRequest | phpSesame.php:464-469 | Only the repository is checked. The request is a DELETE of the statements resource, with no context, no headers and no body. |
| Protocol.StatusError | phpSesame.php:124-127 | A refused status is reported with the operation and the status, except by `listRepositories`, whose error carries neither. |
| Protocol.DefaultArgumentsPassValidation | phpSesame.php:197 | With their default arguments, `query`, `append`, `overwrite` and `contexts` pass validation exactly when a repository is selected, and a default query asks for inference. |
| Protocol.AppendOverwriteDifferOnlyInMethod | phpSesame.php:229-280 | Appending and overwriting fail alike. When they succeed they build the same request except for the method, POST versus PUT. |
| Protocol.NamespaceOperationsShareResource | phpSesame.php:325-400 | Whenever setting a namespace is valid, getting and deleting it are valid too. All three address the same URL, with GET, PUT and DELETE respectively. |
| Sesame.Exchange | phpSesame.php:122-128 | The status contract. A validation error is returned and nothing is sent. A transport error is reported as such. The operation succeeds exactly on its expected status and returns the body. Any other status gives the operation's `StatusError`. |
| Sesame.ListRepositories | phpSesame.php:117-130 | Keeps the status contract with 200, and on success returns the reply body. |
| Sesame.Query | phpSesame.php:197-218 | Keeps the status contract with 200 for the query request, and on success returns the reply body. |
| Sesame.Append | phpSesame.php:229-245 | Keeps the status contract with 204. |
| Sesame.Overwrite | phpSesame.php:271-287 | Keeps the status contract with 204. |
| Sesame.GetFile | phpSesame.php:306-314 | Fails with `MissingFilePath` exactly for the paths `""` and `"0"`. Otherwise it returns what the loader reads from the path. |
| Sesame.AppendFile | phpSesame.php:256-260 | The file-path guard runs first. Otherwise the result is that of appending the loaded data. |
| Sesame.OverwriteFile | phpSesame.php:296-300 | The file-path guard runs first. Otherwise the result is that of overwriting with the loaded data. |
| Sesame.GetNamespace | phpSesame.php:325-345 | Keeps the status contract with 200, and returns the body as the namespace. |
| Sesame.SetNamespace | phpSesame.php:355-374 | Keeps the status contract with 204. |
| Sesame.DeleteNamespace | phpSesame.php:383-400 | Keeps the status contract with 204. |
| Sesame.Contexts | phpSesame.php:411-427 | Keeps the status contract with 200, and returns the reply body. |
| Sesame.Size | phpSesame.php:438-453 | Keeps the status contract with 200, and returns the integer cast of the reply body. |
| Sesame.Clear | phpSesame.php:464-476 | Keeps the status contract with 204. |
| Sesame.UnselectedRepositoryFailsEarly | phpSesame.php:132-138 | Without a selected repository, all nine repository-scoped operations return `NoRepository` whatever the transport does. |
| Sesame.EncodedBracketsExample | phpSesame.php:171 | `urlencode` writes `<g>` as `%3Cg%3E`. |
| Sesame.ContextEncodingExample | phpSesame.php:166-173 | The context `g` is sent as `%3Cg%3E`, and `null` is sent as `null`. |
| Sesame.DelimitedContextExample | phpSesame.php:166-173 | The context `<g>` is sent as `%3Cg%3E`, with no second pair of brackets. |
| Sesame.SizeOfDefaultGraph | phpSesame.php:438-453 | `size` with its default context: a 200 reply with body `42` gives 42. |
| Sesame.AppendAcceptsOnlyNoContent | phpSesame.php:241-244 | `append` with its default context and format succeeds on 204 and reports 201 as an unexpected status. |
| Sesame.ListRepositoriesHidesStatus | phpSesame.php:124-127 | Listing the repositories returns the body on 200 and reports 500 without the status. |
| SesameClient.Client.constructor | phpSesame.php:70-74 | A new client has the given URL (the local server by default), the given repository (none by default), the encoding `utf-8` and no credentials. |
| SesameClient.Client.SetQueryEncoding | phpSesame.php:82-86 | Stores the encoding, returns it, and makes the charset string `;charset=` followed by it. Nothing else changes. |
| SesameClient.Client.SetRepository | phpSesame.php:94-97 | Stores the repository, which is then selected exactly when it is a string other than `""` and `"0"`. Nothing else changes. |
| SesameClient.Client.SetAuth | phpSesame.php:105-110 | Overwrites both credential fields and returns them. Credentials are then attached exactly when the user is a non-empty string. Nothing else changes. |

## Left out

- The `HTTP_Request2` library, which is not part of this model:
  - sending, header storage and post-parameter encoding;
  - the authentication scheme (Basic or otherwise);
  - how the `infer` flag is serialised in the form.

  A request is a value, and sending it is a function parameter.
- `phpSesame_SparqlRes` and the decoding of SPARQL results: `resultFormats.php` is not
  part of this model. `query`, `listRepositories` and `contexts` return the raw body.
- File and URL input. `file_get_contents` is a function parameter. Its `false` result on
  failure is not modelled.
- Exception message texts: each is represented by an error kind.
- Non-string arguments: an integer, boolean or array passed where a string is expected,
  and `null` where an argument is modelled as a string.
- Loose comparison between numeric strings: none of the constants compared against is
  numeric.
- PHP 7.1's reading of exponents in numeric strings: `(int)"1e3"` is 1000 there and 1
  in the PHP 5 cast modelled here.
- 32-bit integers: the integer range is that of a 64-bit build other than Windows. On
  32-bit builds and on Windows, PHP 5's integer has 32 bits.
- Header-name case: names are recorded in lower case because HTTP field names are
  case-insensitive.
- The order of `setHeader` and `prepareRequest` calls: they touch disjoint parts of the
  request, so it is not modelled.
- Protocol.CheckContext: its own contract states only the `null` case. What it does to
  any other context is stated by Protocol.CheckContextDecodes, Protocol.Delimit and
  Php.UrlEncodeConcat.
- Sesame.ContextEncodingExample: shows a one-letter context. Longer ones follow from
  Php.UrlEncodeConcat and Php.UrlEncodeKeepsUnreserved.
