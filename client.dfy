/** The client object: the configuration a `phpSesame` instance keeps between calls and
    the setters that change it. Every operation reads this configuration through
    `Endpoint()`, the snapshot the operations of module Sesame take. */
module SesameClient {
  import opened Php
  import opened Protocol

  class Client {
    /** The server's base URL. */
    var dsn: string
    /** The selected repository; `None` stands for PHP `null`. */
    var repository: Option<string>
    /** The charset appended to every content type the client sends. */
    var queryEncoding: string
    /** The credentials, both initially `null`. */
    var auth: Auth

    /** The configuration every operation of the client reads. */
    function Endpoint(): Protocol.Endpoint
      reads this
    {
      Protocol.Endpoint(dsn, repository, queryEncoding, auth)
    }

    /** A new client talks to `sesameUrl` (the local default server when omitted), works on
        `repository` (none when omitted), sends `utf-8` as its charset and has no credentials. */
    constructor (sesameUrl: string := DEFAULT_DSN, repository: Option<string> := None)
      ensures Endpoint() == Protocol.Endpoint(sesameUrl, repository, DEFAULT_ENCODING, Auth(None, None))
      ensures Endpoint().GetCharsetString() == ";charset=utf-8"
    {
      dsn := sesameUrl;
      queryEncoding := DEFAULT_ENCODING;
      auth := Auth(None, None);
      new;
      SetRepository(repository);
    }

    /** Sets the charset appended to content types and returns the value now in force. */
    method SetQueryEncoding(encoding: string) returns (stored: string)
      modifies this`queryEncoding
      ensures queryEncoding == encoding && stored == encoding
      ensures Endpoint().GetCharsetString() == ";charset=" + encoding
      ensures Endpoint() == old(Endpoint()).(queryEncoding := encoding)
    {
      queryEncoding := encoding;
      stored := queryEncoding;
    }

    /** Selects the repository later operations work on; `None` or an empty name leaves
        none selected, so repository-scoped operations fail. */
    method SetRepository(rep: Option<string>)
      modifies this`repository
      ensures repository == rep
      ensures RepositorySelected(repository) <==> rep.Some? && rep.value != "" && rep.value != "0"
      ensures Endpoint() == old(Endpoint()).(repository := rep)
    {
      repository := rep;
    }

    /** Stores the credentials and returns them; credentials are sent only when the user
        name is a non-empty string. */
    method SetAuth(user: Option<string>, password: Option<string>) returns (stored: Auth)
      modifies this`auth
      ensures auth == Auth(user, password) && stored == auth
      ensures Prepare(auth).Some? <==> user.Some? && user.value != ""
      ensures Endpoint() == old(Endpoint()).(auth := Auth(user, password))
    {
      auth := auth.(user := user);
      auth := auth.(password := password);
      stored := auth;
    }
  }
}
