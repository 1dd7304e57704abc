/** The request middleware (middleware.ts): a request for `/uploads/…` is
    served by the `/api/uploads/…` route by rewriting the pathname of the URL;
    every other request passes through. */
module Middleware {

  /** The parts of a request URL the rewrite keeps or changes. */
  datatype Url = Url(host: string, pathname: string, search: string)

  /** NextResponse.rewrite(url) or NextResponse.next(). */
  datatype Response = Rewrite(url: Url) | Next

  const UploadsPrefix: string := "/uploads/"
  const ApiPrefix: string := "/api"

  predicate StartsWith(s: string, prefix: string) {
    |prefix| <= |s| && s[..|prefix|] == prefix
  }

  function Route(u: Url): Response {
    if StartsWith(u.pathname, UploadsPrefix) then Rewrite(u.(pathname := ApiPrefix + u.pathname))
    else Next
  }

  /** Exactly the `/uploads/` paths are rewritten; the rewritten URL differs
      only in its pathname, which is `/api/uploads/` followed by the original
      suffix. */
  lemma RewriteShape(u: Url)
    ensures Route(u).Rewrite? <==> StartsWith(u.pathname, UploadsPrefix)
    ensures Route(u).Rewrite? ==>
      var v := Route(u).url;
      v.host == u.host && v.search == u.search &&
      StartsWith(v.pathname, "/api/uploads/") &&
      v.pathname[|"/api/uploads/"|..] == u.pathname[|UploadsPrefix|..]
  {
    if StartsWith(u.pathname, UploadsPrefix) {
      var v := Route(u).url;
      assert v.pathname[..|"/api/uploads/"|] == ApiPrefix + u.pathname[..|UploadsPrefix|];
    }
  }

  /** Dropping the `/api` prefix of a rewritten pathname gives back the
      request's own pathname. */
  lemma RewriteInvertible(u: Url)
    requires Route(u).Rewrite?
    ensures Route(u).url.(pathname := Route(u).url.pathname[|ApiPrefix|..]) == u
  {
  }

  /** A rewritten URL is not rewritten again. */
  lemma RewriteOnce(u: Url)
    requires Route(u).Rewrite?
    ensures Route(Route(u).url) == Next
  {
    var p := Route(u).url.pathname;
    assert p[1] == 'a';
  }

  /** The bare `/uploads` path, without a trailing slash, passes through. */
  lemma BareUploadsPasses(host: string, search: string)
    ensures Route(Url(host, "/uploads", search)) == Next
  {
  }
}
