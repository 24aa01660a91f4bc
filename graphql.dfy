/**
 * The GraphQL endpoint's gate and its one query: OneRingAuthenticator,
 * which decides whether a request carries HTTP Basic credentials and maps
 * a failed login to a 401, and ReadPropertiesQueryCreator, whose
 * `readProperties` lists the properties, optionally the one with a given ID.
 */
module GraphQL {
  import opened Common
  import opened Records

  // ---------------------------------------------------------------------
  // preg_match('/Basic\s+(.*)$/i', $value)
  // ---------------------------------------------------------------------

  /** `\s` of PCRE: space, tab, line feed, vertical tab, form feed, carriage return. */
  predicate IsPcreSpace(c: char) {
    c == ' ' || c == '\t' || c == '\n' || c == '\U{B}' || c == '\U{C}' || c == '\r'
  }

  /** A letter compared without regard to ASCII case. */
  predicate SameLetter(c: char, lower: char) {
    c == lower || c as int == lower as int - 32
  }

  /** The five characters are "basic" in any mix of cases. */
  predicate IsBasicWord(w: string) {
    |w| == 5 && SameLetter(w[0], 'b') && SameLetter(w[1], 'a') && SameLetter(w[2], 's') &&
    SameLetter(w[3], 'i') && SameLetter(w[4], 'c')
  }

  predicate AllSpace(w: string) {
    forall k :: 0 <= k < |w| ==> IsPcreSpace(w[k])
  }

  predicate NoNewline(t: string) {
    forall k :: 0 <= k < |t| ==> t[k] != '\n'
  }

  /**
   * `(.*)$`: the rest holds no line feed, except one that ends the
   * subject (`$` also matches before a final line feed).
   */
  predicate RestOfLine(t: string) {
    NoNewline(t) || (|t| > 0 && t[|t| - 1] == '\n' && NoNewline(t[..|t| - 1]))
  }

  /**
   * The pattern matches somewhere in `s`, unanchored at the start: "basic"
   * in any case at `i`, one or more spaces up to `j`, and the rest of the
   * line from `j`.
   */
  predicate BasicPatternMatches(s: string) {
    exists i, j | 0 <= i <= |s| && 0 <= j <= |s| :: MatchAt(s, i, j)
  }

  /** "basic" at `i`, then spaces up to `j`, then the rest of the line. */
  predicate MatchAt(s: string, i: int, j: int) {
    WordAt(s, i) && i + 5 < j <= |s| && AllSpace(s[i + 5..j]) && RestOfLine(s[j..])
  }

  /** The word "basic", in any case, starts at `i`. */
  predicate WordAt(s: string, i: int) {
    0 <= i && i + 5 <= |s| && IsBasicWord(s[i..i + 5])
  }

  /** "Basic <credentials>" matches when the credentials are on one line. */
  lemma BasicSchemeMatches(credentials: string)
    requires NoNewline(credentials)
    ensures BasicPatternMatches("Basic " + credentials)
  {
    var s := "Basic " + credentials;
    assert s[0..5] == "Basic" && s[5..6] == " " && s[6..] == credentials;
    assert MatchAt(s, 0, 6);
  }

  /** The match is not anchored: text before the scheme does not stop it. */
  lemma {:induction false} MatchesAfterAnyPrefix(prefix: string, s: string)
    requires BasicPatternMatches(s)
    ensures BasicPatternMatches(prefix + s)
  {
    var i, j :| MatchAt(s, i, j);
    assert MatchAt(s, i, j);
    assert WordAt(s, i);
    var t := prefix + s;
    var n := |prefix|;
    assert t[n..] == s;
    assert t[n + i..n + i + 5] == s[i..i + 5] by {
      assert t[n + i..n + i + 5] == t[n..][i..i + 5];
    }
    assert t[n + i + 5..n + j] == s[i + 5..j] by {
      assert t[n + i + 5..n + j] == t[n..][i + 5..j];
    }
    assert t[n + j..] == s[j..] by {
      assert t[n + j..] == t[n..][j..];
    }
    assert MatchAt(t, n + i, n + j);
  }

  /** The word must be followed by whitespace: "Basic" with anything else right after it fails. */
  lemma NoSpaceNoMatch(s: string)
    requires forall i :: WordAt(s, i) && i + 5 < |s| ==> !IsPcreSpace(s[i + 5])
    ensures !BasicPatternMatches(s)
  {
  }

  /** Text without a "c" of either case cannot hold the word, so it never matches. */
  lemma NoLetterCNoMatch(s: string)
    requires forall k :: 0 <= k < |s| ==> s[k] != 'c' && s[k] != 'C'
    ensures !BasicPatternMatches(s)
  {
  }

  // ---------------------------------------------------------------------
  // isApplicable and hasAuthHandler
  // ---------------------------------------------------------------------

  /** `$_SERVER`: the server variables that are set. */
  type ServerVars = map<string, string>

  const HttpAuthorization: string := "HTTP_AUTHORIZATION"
  const RedirectHttpAuthorization: string := "REDIRECT_HTTP_AUTHORIZATION"
  const PhpAuthUser: string := "PHP_AUTH_USER"
  const PhpAuthPw: string := "PHP_AUTH_PW"

  /** `hasAuthHandler($servervar)`: the variable is set and matches the Basic pattern. */
  predicate HasAuthHandler(server: ServerVars, name: string) {
    name in server && BasicPatternMatches(server[name])
  }

  /**
   * `isApplicable`: always in development mode; otherwise when either
   * authorization variable carries the Basic scheme, or when both the
   * user and the password variables are set.
   */
  predicate IsApplicable(isDev: bool, server: ServerVars) {
    if isDev then true
    else if HasAuthHandler(server, HttpAuthorization) || HasAuthHandler(server, RedirectHttpAuthorization) then true
    else if PhpAuthUser in server && PhpAuthPw in server then true
    else false
  }

  /** Development mode applies to every request, headers or not. */
  lemma DevAlwaysApplicable(server: ServerVars)
    ensures IsApplicable(true, server)
  {
  }

  /** Outside development mode, an Authorization header "Basic <credentials>" makes it apply. */
  lemma BasicHeaderApplicable(server: ServerVars, credentials: string)
    requires NoNewline(credentials)
    requires HttpAuthorization in server && server[HttpAuthorization] == "Basic " + credentials
    ensures IsApplicable(false, server)
  {
    BasicSchemeMatches(credentials);
  }

  /** So does the same header when it reaches PHP only as the redirect variable, with any prefix. */
  lemma RedirectHeaderApplicable(server: ServerVars, prefix: string, credentials: string)
    requires NoNewline(credentials)
    requires RedirectHttpAuthorization in server && server[RedirectHttpAuthorization] == prefix + ("Basic " + credentials)
    ensures IsApplicable(false, server)
  {
    BasicSchemeMatches(credentials);
    MatchesAfterAnyPrefix(prefix, "Basic " + credentials);
  }

  /**
   * A bearer token alone does not apply, and neither does a user name
   * without a password.
   */
  lemma BearerAndUserAloneNotApplicable(server: ServerVars)
    requires HttpAuthorization in server && server[HttpAuthorization] == "Bearer x"
    requires RedirectHttpAuthorization !in server
    requires PhpAuthPw !in server
    ensures !IsApplicable(false, server)
  {
    NoLetterCNoMatch("Bearer x");
  }

  /** Outside development mode, the user and password variables apply only together. */
  lemma CredentialsNeedBoth(server: ServerVars)
    requires !HasAuthHandler(server, HttpAuthorization) && !HasAuthHandler(server, RedirectHttpAuthorization)
    ensures IsApplicable(false, server) <==> PhpAuthUser in server && PhpAuthPw in server
  {
  }

  // ---------------------------------------------------------------------
  // authenticate
  // ---------------------------------------------------------------------

  /** What BasicAuth::requireLogin does: log a member in, or throw with a challenge response. */
  datatype BasicAuthResult = LoggedIn(memberId: int) | Challenged(responseBody: string)

  /** What `authenticate` returns or throws. */
  datatype AuthOutcome =
    | DefaultAdmin
    | Member(memberId: int)
    | ValidationError(message: string, code: int)

  /**
   * `authenticate`: the default admin in development mode, without looking
   * at credentials; otherwise the member Basic auth logs in, or a
   * validation error with code 401 carrying the challenge's body.
   */
  function Authenticate(isDev: bool, basicAuth: BasicAuthResult): (r: AuthOutcome)
    ensures isDev <==> r.DefaultAdmin?
    ensures r.ValidationError? ==> r.code == 401
  {
    if isDev then DefaultAdmin
    else match basicAuth
      case LoggedIn(m) => Member(m)
      case Challenged(body) => ValidationError(body, 401)
  }

  /** Outside development mode a refused login is a 401 carrying the response body, and only then. */
  lemma FailedLoginIs401(basicAuth: BasicAuthResult)
    ensures Authenticate(false, basicAuth).ValidationError? <==> basicAuth.Challenged?
    ensures basicAuth.Challenged? ==> Authenticate(false, basicAuth) == ValidationError(basicAuth.responseBody, 401)
    ensures basicAuth.LoggedIn? ==> Authenticate(false, basicAuth) == Member(basicAuth.memberId)
  {
  }

  // ---------------------------------------------------------------------
  // readProperties
  // ---------------------------------------------------------------------

  datatype ArgType = GraphQLInt

  /** The operation's name and its arguments, each optional. */
  datatype OperationSchema = OperationSchema(name: string, args: seq<(string, ArgType)>)

  /** `attributes` and `args`. */
  function ReadPropertiesSchema(): (r: OperationSchema)
    ensures r.name == "readProperties" && |r.args| == 1 && r.args[0] == ("ID", GraphQLInt)
  {
    OperationSchema("readProperties", [("ID", GraphQLInt)])
  }

  /** `sprintf('%s view access not permitted', Property::class)`. */
  const ViewNotPermitted: string := "Property view access not permitted"

  datatype Resolved = Denied(message: string) | Listed(properties: seq<Property>)

  function HasId(id: int): Property -> bool {
    (p: Property) => p.id == id
  }

  /**
   * The arguments the GraphQL layer hands to `resolve`: each name the
   * client passed, with its value, None where the client passed null.
   */
  type Args = map<string, Option<int>>

  /** `isset($args['ID'])`, and the value when it holds. */
  function IdArg(args: Args): Option<int> {
    if "ID" in args then args["ID"] else None
  }

  /**
   * `resolve`: refuse unless the current user may view properties; then
   * every property, or only those whose ID is the given one.
   */
  function Resolve(canView: bool, all: seq<Property>, args: Args): (r: Resolved)
    ensures r.Denied? <==> !canView
    ensures r.Denied? ==> r.message == ViewNotPermitted
    ensures r.Listed? && IdArg(args).None? ==> r.properties == all
    ensures r.Listed? && IdArg(args).Some? ==> forall p :: p in r.properties <==> p in all && p.id == IdArg(args).value
  {
    if !canView then Denied(ViewNotPermitted)
    else if IdArg(args).Some? then Listed(Filter(all, HasId(IdArg(args).value)))
    else Listed(all)
  }

  /** Two argument maps that agree on one name: both pass it, with the same value, or neither does. */
  predicate AgreeOn(args: Args, other: Args, name: string) {
    (name in args <==> name in other) && (name in args ==> args[name] == other[name])
  }

  /**
   * `resolve` reads the arguments the schema declares and nothing else:
   * calls whose arguments agree on every declared name resolve alike.
   */
  lemma ResolveReadsDeclaredArgs(canView: bool, all: seq<Property>, args: Args, other: Args)
    requires forall i :: 0 <= i < |ReadPropertiesSchema().args| ==> AgreeOn(args, other, ReadPropertiesSchema().args[i].0)
    ensures Resolve(canView, all, args) == Resolve(canView, all, other)
  {
    assert AgreeOn(args, other, ReadPropertiesSchema().args[0].0);
  }

  /** An ID the schema's Int argument carries narrows the list; a null or missing one does not. */
  lemma ResolveUsesDeclaredArg(all: seq<Property>, id: int, p: Property)
    ensures ReadPropertiesSchema().args[0].0 == "ID"
    ensures p in Resolve(true, all, map["ID" := Some(id)]).properties <==> p in all && p.id == id
    ensures Resolve(true, all, map["ID" := None]).properties == all
    ensures Resolve(true, all, map[]).properties == all
  {
  }

  /** With IDs unique in the table, an ID lists at most one property, and exactly it when it exists. */
  lemma ResolveById(all: seq<Property>, id: int)
    requires forall i, j :: 0 <= i < j < |all| ==> all[i].id != all[j].id
    ensures |Resolve(true, all, map["ID" := Some(id)]).properties| <= 1
    ensures (exists p :: p in all && p.id == id) ==> |Resolve(true, all, map["ID" := Some(id)]).properties| == 1
  {
    FilterAtMostOne(all, id);
  }

  lemma {:induction false} FilterAtMostOne(all: seq<Property>, id: int)
    requires forall i, j :: 0 <= i < j < |all| ==> all[i].id != all[j].id
    ensures |Filter(all, HasId(id))| <= 1
    ensures (exists p :: p in all && p.id == id) ==> |Filter(all, HasId(id))| == 1
  {
    if all != [] {
      assert forall i, j :: 0 <= i < j < |all[1..]| ==> all[1..][i].id != all[1..][j].id by {
        forall i, j | 0 <= i < j < |all[1..]| ensures all[1..][i].id != all[1..][j].id {
          assert all[1..][i] == all[i + 1] && all[1..][j] == all[j + 1];
        }
      }
      FilterAtMostOne(all[1..], id);
      if all[0].id == id {
        forall p | p in all[1..] ensures !HasId(id)(p) {
          var k :| 0 <= k < |all[1..]| && all[1..][k] == p;
          assert all[k + 1] == p;
        }
        FilterNone(all[1..], HasId(id));
      } else if exists p :: p in all && p.id == id {
        var p :| p in all && p.id == id;
        assert p in all[1..];
      }
    }
  }
}
