/** `authMiddleware`: parse the Bearer header, verify the token, check that it
    has not been revoked, and hand the request on. */
module AuthMiddleware {
  import opened Wrappers
  import opened JsText
  import opened TokenModel

  /** `s.split(sep)` for a one-character separator: the pieces between separators, in order. */
  function Split(s: string, sep: char): (parts: seq<string>)
    ensures |parts| >= 1
  {
    if s == [] then [""]
    else
      var rest := Split(s[1..], sep);
      if s[0] == sep then [""] + rest else [[s[0]] + rest[0]] + rest[1..]
  }

  /** The text of s up to, not including, its first sep. */
  function TakeUntil(s: string, sep: char): string {
    if s == [] || s[0] == sep then [] else [s[0]] + TakeUntil(s[1..], sep)
  }

  /** The first piece of a split is the text before the first separator. */
  lemma {:induction false} SplitFirst(s: string, sep: char)
    ensures Split(s, sep)[0] == TakeUntil(s, sep)
  {
    if s != [] && s[0] != sep {
      SplitFirst(s[1..], sep);
    }
  }

  /** Splitting after a separator-free word and a separator gives that word,
      then the split of the rest. */
  lemma {:induction false} SplitAfterWord(w: string, sep: char, t: string)
    requires sep !in w
    ensures Split(w + [sep] + t, sep) == [w] + Split(t, sep)
  {
    if w == [] {
      assert w + [sep] + t == [sep] + t;
      assert ([sep] + t)[1..] == t;
    } else {
      SplitAfterWord(w[1..], sep, t);
      assert (w + [sep] + t)[1..] == w[1..] + [sep] + t;
      assert [w[0]] + w[1..] == w;
    }
  }

  const BearerPrefix: string := "Bearer "

  predicate StartsWith(s: string, prefix: string) {
    |prefix| <= |s| && s[..|prefix|] == prefix
  }

  /** `authHeader.split(' ')[1]`, for a header the prefix check admitted. */
  function BearerToken(header: string): (t: string)
    requires StartsWith(header, BearerPrefix)
    ensures t == TakeUntil(header[|BearerPrefix|..], ' ')
  {
    var rest := header[|BearerPrefix|..];
    assert header == "Bearer" + [' '] + rest;
    SplitAfterWord("Bearer", ' ', rest);
    SplitFirst(rest, ' ');
    Split(header, ' ')[1]
  }

  /** Why a request was turned away; every case answers 401. */
  datatype AuthError =
    | MissingToken      // no header, or not a Bearer header
    | TokenRevoked      // verified, but no longer in the token store
    | TokenInvalid      // `jwt.verify` threw, or the token store lookup failed

  datatype AuthResult = Rejected(error: AuthError) | Admitted(user: Claims, token: string)

  /** The middleware's decision. `verify` is `jwt.verify(token, secret)`:
      `None` when it throws, otherwise the decoded claims. `storeFails` is a
      rejected `Token.findOne`, which the same catch block answers as an
      invalid token. */
  function Authorize(records: seq<TokenRecord>, header: Option<string>, verify: string -> Option<Claims>,
                     storeFails: bool): (r: AuthResult)
    ensures !(Truthy(header) && StartsWith(header.value, BearerPrefix)) ==> r == Rejected(MissingToken)
    ensures Truthy(header) && StartsWith(header.value, BearerPrefix) ==>
      var t := BearerToken(header.value);
      && (verify(t).None? ==> r == Rejected(TokenInvalid))
      && (verify(t).Some? && storeFails ==> r == Rejected(TokenInvalid))
      && (verify(t).Some? && !storeFails && !HasToken(records, t) ==> r == Rejected(TokenRevoked))
      && (verify(t).Some? && !storeFails && HasToken(records, t) ==> r == Admitted(verify(t).value, t))
  {
    if !(Truthy(header) && StartsWith(header.value, BearerPrefix)) then Rejected(MissingToken)
    else
      var t := BearerToken(header.value);
      match verify(t)
      case None => Rejected(TokenInvalid)
      case Some(claims) =>
        if storeFails then Rejected(TokenInvalid)
        else if HasToken(records, t) then Admitted(claims, t) else Rejected(TokenRevoked)
  }

  /** A token is admitted only if it is in the store: revoked tokens never
      pass, and neither does any token while the store fails. A request is
      admitted exactly when it presents a Bearer token that verifies and that
      the working store holds. */
  lemma AdmittedTokenIsStored(records: seq<TokenRecord>, header: Option<string>, verify: string -> Option<Claims>,
                              storeFails: bool)
    ensures var r := Authorize(records, header, verify, storeFails);
      r.Admitted? ==> && !storeFails && HasToken(records, r.token) && verify(r.token) == Some(r.user)
    ensures Authorize(records, header, verify, storeFails).Admitted? <==>
      && Truthy(header) && StartsWith(header.value, BearerPrefix)
      && verify(BearerToken(header.value)).Some?
      && !storeFails && HasToken(records, BearerToken(header.value))
  {
  }

  /** The token is the first word after "Bearer ": a header with a second
      space after the token still yields just that token. */
  lemma TokenStopsAtSpace(t: string, extra: string)
    requires ' ' !in t
    ensures BearerToken(BearerPrefix + t + " " + extra) == t
  {
    var h := BearerPrefix + t + " " + extra;
    assert h[..|BearerPrefix|] == BearerPrefix;
    assert h[|BearerPrefix|..] == t + [' '] + extra;
    TakeUntilWord(t, extra);
  }

  lemma {:induction false} TakeUntilWord(t: string, extra: string)
    requires ' ' !in t
    ensures TakeUntil(t + [' '] + extra, ' ') == t
  {
    if t != [] {
      TakeUntilWord(t[1..], extra);
      assert (t + [' '] + extra)[1..] == t[1..] + [' '] + extra;
      assert [t[0]] + t[1..] == t;
    }
  }

  /** The parts of an Express request the middleware reads and writes. */
  class Request {
    var authorization: Option<string>
    var user: Option<Claims>
    var token: Option<string>
    var status: Option<int>    // set when the middleware answers the request itself
    var nextCalls: nat         // how many times `next()` was called

    constructor (authorization: Option<string>)
      ensures this.authorization == authorization
      ensures user.None? && token.None? && status.None? && nextCalls == 0
    {
      this.authorization := authorization;
      user, token, status, nextCalls := None, None, None, 0;
    }
  }

  /** Running the middleware: on success `req.user` and `req.token` are set and
      `next` is called once; otherwise the answer is 401 and `next` is not
      called. The token store is only read. */
  method Run(req: Request, tokens: TokenStore, verify: string -> Option<Claims>, storeFails: bool)
    modifies req
    ensures req.authorization == old(req.authorization)
    ensures match Authorize(tokens.records, req.authorization, verify, storeFails)
      case Admitted(claims, t) =>
        req.user == Some(claims) && req.token == Some(t)
        && req.nextCalls == old(req.nextCalls) + 1 && req.status == old(req.status)
      case Rejected(_) =>
        req.status == Some(401) && req.nextCalls == old(req.nextCalls)
        && req.user == old(req.user) && req.token == old(req.token)
  {
    var decision := Authorize(tokens.records, req.authorization, verify, storeFails);
    match decision
    case Rejected(_) =>
      req.status := Some(401);
    case Admitted(claims, t) =>
      req.user := Some(claims);
      req.token := Some(t);
      req.nextCalls := req.nextCalls + 1;
  }
}
