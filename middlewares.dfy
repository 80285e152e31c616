/**
 * The v1 request-parameter middlewares: each reads one value from the
 * path, the query string or a header, normalises it, and either stores it
 * in the request context for the next handler or answers 400 Bad Request.
 *
 * The string-to-number conversion (`cast.ToUintE`) and the UUID parser
 * (`uuid.Parse`) are not part of this model; they are parameters, and
 * nothing is assumed about the grammar they accept.
 */
module Middlewares {
  import opened Records

  /** `LimitDefault` in params.go. */
  const LimitDefault: Uint := 20

  /** The page value used when no query or header value is given. */
  const PageFallback: string := "1"

  /** The limit value used when no query or header value is given. */
  const LimitFallback: string := "0"

  /**
   * What a middleware does with a request: call the next handler with
   * `value` stored in the context, or answer 400 and stop.
   */
  datatype Outcome<+T> = Next(value: T) | BadRequest

  /**
   * The precedence chain of PageField and LimitField: start from the
   * fallback, replace it by a non-empty header value, then by a
   * non-empty query value.
   */
  function Pick(query: string, header: string, fallback: string): (v: string)
    ensures query != "" ==> v == query
    ensures query == "" && header != "" ==> v == header
    ensures query == "" && header == "" ==> v == fallback
    ensures fallback != "" ==> v != ""
  {
    var fromHeader := if header != "" then header else fallback;
    if query != "" then query else fromHeader
  }

  /**
   * Uuid middleware: parse the `uuid` path segment; 400 when the parser
   * rejects it.
   */
  function UuidField(segment: string, parse: string -> Option<Uuid>): (r: Outcome<Uuid>)
    ensures r.BadRequest? <==> parse(segment).None?
    ensures r.Next? ==> Some(r.value) == parse(segment)
  {
    match parse(segment)
    case None => BadRequest
    case Some(u) => Next(u)
  }

  /** LoginField: an empty `login` path segment is answered with 400; any other passes unchanged. */
  function LoginField(segment: string): (r: Outcome<string>)
    ensures r.BadRequest? <==> segment == ""
    ensures r.Next? ==> r.value == segment && r.value != ""
  {
    if segment == "" then BadRequest else Next(segment)
  }

  /**
   * PageField: the page number, from the `page` query value, else the
   * `Pagination-Page` header, else "1"; a value the parser rejects is
   * answered with 400, and a parsed 0 becomes `pageDefault`.
   *
   * `PageDefault` is used here and by the router but, unlike
   * `LimitDefault`, is not defined in params.go; it is the parameter
   * `pageDefault`, assumed at least 1.
   */
  function PageField(query: string, header: string, parse: string -> Option<Uint>, pageDefault: Uint): (r: Outcome<Uint>)
    requires pageDefault >= 1
    ensures r.BadRequest? <==> parse(Pick(query, header, PageFallback)).None?
    ensures r.Next? ==> r.value >= 1
    ensures r.Next? && parse(Pick(query, header, PageFallback)).value >= 1 ==>
              r.value == parse(Pick(query, header, PageFallback)).value
    ensures r.Next? && parse(Pick(query, header, PageFallback)).value == 0 ==> r.value == pageDefault
  {
    var u := parse(Pick(query, header, PageFallback));
    if u.None? then BadRequest
    else if u.value < 1 then Next(pageDefault)
    else Next(u.value)
  }

  /**
   * LimitField: the page size, from the `limit` query value, else the
   * `Pagination-Limit` header, else "0"; a value the parser rejects is
   * answered with 400, and a parsed 0 becomes `LimitDefault`.
   */
  function LimitField(query: string, header: string, parse: string -> Option<Uint>): (r: Outcome<Uint>)
    ensures r.BadRequest? <==> parse(Pick(query, header, LimitFallback)).None?
    ensures r.Next? ==> r.value >= 1
    ensures r.Next? && parse(Pick(query, header, LimitFallback)).value != 0 ==>
              r.value == parse(Pick(query, header, LimitFallback)).value
    ensures r.Next? && parse(Pick(query, header, LimitFallback)).value == 0 ==> r.value == LimitDefault
  {
    var u := parse(Pick(query, header, LimitFallback));
    if u.None? then BadRequest
    else if u.value == 0 then Next(LimitDefault)
    else Next(u.value)
  }

  /** A non-empty query value decides the page alone: the header is not consulted. */
  lemma QueryOverridesHeader(query: string, h1: string, h2: string, parse: string -> Option<Uint>, pageDefault: Uint)
    requires query != "" && pageDefault >= 1
    ensures PageField(query, h1, parse, pageDefault) == PageField(query, h2, parse, pageDefault)
    ensures LimitField(query, h1, parse) == LimitField(query, h2, parse)
  {
  }

  /**
   * Without query or header values the limit is the parse of "0", hence
   * `LimitDefault` whenever the parser reads "0" as 0.
   */
  lemma LimitDefaultsTo20(parse: string -> Option<Uint>)
    requires parse(LimitFallback) == Some(0)
    ensures LimitField("", "", parse) == Next(20)
  {
  }

  /**
   * Without query or header values the page is the parse of "1", hence
   * page 1 whenever the parser reads "1" as 1.
   */
  lemma PageDefaultsToFirst(parse: string -> Option<Uint>, pageDefault: Uint)
    requires pageDefault >= 1
    requires parse(PageFallback) == Some(1)
    ensures PageField("", "", parse, pageDefault) == Next(1)
  {
  }
}
