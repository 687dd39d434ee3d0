/** One request as the parser hands it on (src/http/HttpRequest.cpp). The class is
    copied and moved by value, so it is a value here; each mutator is a function
    from the old value to the new one. */
module HttpRequests {
  import opened Text

  datatype Method = Invalid | Get | Post | Head

  datatype Request = Request(
    verb: Method,
    path: string,
    query: string,
    version: string,
    body: string,
    headers: map<string, string>,
    keepAlive: bool)

  const EMPTY_REQUEST: Request := Request(Invalid, "/", "", "HTTP/1.0", "", map[], false)

  function MethodFromString(text: string): Method {
    if text == "GET" then Get
    else if text == "POST" then Post
    else if text == "HEAD" then Head
    else Invalid
  }

  function MethodToString(m: Method): string {
    match m
    case Get => "GET"
    case Post => "POST"
    case Head => "HEAD"
    case Invalid => "INVALID"
  }

  /** Splits "path?query" at the first question mark; an empty path becomes "/". */
  function SetPath(r: Request, target: string): Request {
    var pos := Find(target, '?');
    var path := target[..pos];
    r.(path := if path == "" then "/" else path,
       query := if pos == |target| then "" else target[pos + 1..])
  }

  function AddHeader(r: Request, key: string, value: string): Request {
    r.(headers := r.headers[ToLower(Trim(key)) := Trim(value)])
  }

  function GetHeader(r: Request, key: string): string {
    if ToLower(key) in r.headers then r.headers[ToLower(key)] else ""
  }

  /** A field is found under its name in any spelling, with the value last stored and its
      blanks trimmed; other fields stay as they were, and one never stored reads empty. */
  lemma FieldIsFound(r: Request, key: string, value: string, asked: string)
    ensures var added := AddHeader(r, key, value);
      GetHeader(added, asked) == if ToLower(asked) == ToLower(Trim(key)) then Trim(value) else GetHeader(r, asked)
    ensures ToLower(asked) == ToLower(key) ==> GetHeader(r, asked) == GetHeader(r, key)
    ensures r.headers == map[] ==> GetHeader(r, asked) == ""
  {
    hide Trim, ToLower;
  }

  /** Header names are kept in a form that lower-casing and trimming leave alone,
      and neither names nor values can break the line they are printed on. */
  ghost predicate CanonicalHeaders(headers: map<string, string>) {
    forall k :: k in headers ==> CanonicalName(k) && CanonicalValue(headers[k])
  }

  ghost predicate CanonicalName(k: string) {
    k != "" && Trimmed(k) && ToLower(k) == k && OneLine(k) && ':' !in k
  }

  ghost predicate CanonicalValue(v: string) {
    Trimmed(v) && OneLine(v)
  }

  /** The shape of every request the parser can deliver. */
  ghost predicate WellFormed(r: Request) {
    && r.verb != Invalid
    && (r.version == "HTTP/1.1" || r.version == "HTTP/1.0")
    && r.path != "" && OneLine(r.path)
    && ' ' !in r.path && '?' !in r.path
    && OneLine(r.query) && ' ' !in r.query
    && CanonicalHeaders(r.headers)
  }

  /** Whatever the target was, path and query come out of it as clean fragments,
      and gluing them together again gives the same path and query. */
  lemma SetPathFragments(r: Request, target: string)
    requires OneLine(target) && ' ' !in target
    ensures var s := SetPath(r, target);
      && s.path != "" && OneLine(s.path) && OneLine(s.query)
      && ' ' !in s.path && '?' !in s.path && ' ' !in s.query
  {
    var pos := Find(target, '?');
    OneLineParts(target, pos);
    if pos < |target| { OneLineParts(target, pos + 1); }
  }

  lemma SetPathOfPrinted(r: Request, path: string, query: string)
    requires path != "" && '?' !in path
    ensures SetPath(r, path + if query == "" then "" else "?" + query)
         == r.(path := path, query := query)
  {
    if query == "" {
      FindMissing(path, '?');
      assert path + "" == path;
      assert path[..|path|] == path;
    } else {
      var target := path + ("?" + query);
      assert target[|path|] == '?';
      FindIs(target, '?', |path|);
      assert target[..|path|] == path && target[|path| + 1..] == query;
    }
  }
}
