/** `logout`: delete the token record of the request's token. */
module Logout {
  import opened Wrappers
  import opened JsText
  import opened TokenModel
  import opened AuthMiddleware

  datatype LogoutReply = NoToken | LoggedOut | ServerError
  {
    function Status(): int {
      match this
      case NoToken => 400
      case LoggedOut => 200
      case ServerError => 500
    }
  }

  /** `Token.findOneAndDelete({ token })`: the first record holding the token
      goes, every other record stays in place. */
  function DeleteFirst(records: seq<TokenRecord>, t: string): (r: seq<TokenRecord>)
    ensures |records| - 1 <= |r| <= |records|
  {
    if records == [] then []
    else if records[0].token == t then records[1..]
    else [records[0]] + DeleteFirst(records[1..], t)
  }

  /** How many records hold token t. */
  function Holders(records: seq<TokenRecord>, t: string): nat {
    if records == [] then 0
    else (if records[0].token == t then 1 else 0) + Holders(records[1..], t)
  }

  lemma {:induction false} HoldersCount(records: seq<TokenRecord>, t: string)
    ensures Holders(records, t) == 0 <==> !HasToken(records, t)
  {
    if records != [] {
      HoldersCount(records[1..], t);
      if HasToken(records[1..], t) {
        var k :| 0 <= k < |records[1..]| && records[1..][k].token == t;
        assert records[k + 1].token == t;
      }
      if HasToken(records, t) && records[0].token != t {
        var k :| 0 <= k < |records| && records[k].token == t;
        assert records[1..][k - 1].token == t;
      }
    }
  }

  /** Deleting removes one record holding t when there is one, and leaves
      every record of another token (the same user's other sessions included)
      as often as it was. */
  lemma {:induction false} DeleteFirstEffect(records: seq<TokenRecord>, t: string)
    ensures HasToken(records, t) ==> |DeleteFirst(records, t)| == |records| - 1
    ensures !HasToken(records, t) ==> DeleteFirst(records, t) == records
    ensures Holders(DeleteFirst(records, t), t) == if Holders(records, t) == 0 then 0 else Holders(records, t) - 1
    ensures forall x: TokenRecord :: x.token != t ==> multiset(DeleteFirst(records, t))[x] == multiset(records)[x]
  {
    HoldersCount(records, t);
    if records != [] {
      DeleteFirstEffect(records[1..], t);
      HoldersCount(records[1..], t);
      assert records == [records[0]] + records[1..];
      if records[0].token != t && HasToken(records, t) {
        var k :| 0 <= k < |records| && records[k].token == t;
        assert records[1..][k - 1].token == t;
      }
    }
  }

  /** The record removed is the first one holding t; the others keep their order. */
  lemma {:induction false} DeleteFirstSplices(records: seq<TokenRecord>, t: string, k: nat)
    requires k < |records| && records[k].token == t
    requires forall j :: 0 <= j < k ==> records[j].token != t
    ensures DeleteFirst(records, t) == records[..k] + records[k + 1..]
  {
    if k == 0 {
      assert records[..0] + records[1..] == records[1..];
    } else {
      var rest := records[1..];
      assert rest[k - 1] == records[k];
      forall j | 0 <= j < k - 1 ensures rest[j].token != t {
        assert rest[j] == records[j + 1];
      }
      DeleteFirstSplices(rest, t, k - 1);
      ConsSplice(records, k);
    }
  }

  /** Cutting index k > 0 out of s is keeping s[0] and cutting k - 1 out of the tail. */
  lemma ConsSplice<T>(s: seq<T>, k: nat)
    requires 0 < k < |s|
    ensures [s[0]] + (s[1..][..k - 1] + s[1..][k..]) == s[..k] + s[k + 1..]
  {
    assert s[1..][..k - 1] == s[1..k] && s[1..][k..] == s[k + 1..];
    assert s[..k] == [s[0]] + s[1..k];
  }

  /** After logging out a token that only one record held, the store no longer
      holds it, and the middleware rejects every request that presents it. */
  lemma LogoutRevokes(records: seq<TokenRecord>, header: string, verify: string -> Option<Claims>,
                      storeFails: bool)
    requires header != "" && StartsWith(header, BearerPrefix)
    requires Holders(records, BearerToken(header)) <= 1
    ensures var after := DeleteFirst(records, BearerToken(header));
      && !HasToken(after, BearerToken(header))
      && Authorize(after, Some(header), verify, storeFails).Rejected?
  {
    var t := BearerToken(header);
    DeleteFirstEffect(records, t);
    HoldersCount(DeleteFirst(records, t), t);
  }

  /** Two records of the same token (two logins that signed identical tokens):
      one logout leaves the other, and the token is still admitted. */
  lemma DuplicateSurvivesLogout(r: TokenRecord, verify: string -> Option<Claims>)
    requires r.token != "" && ' ' !in r.token && verify(r.token).Some?
    ensures var after := DeleteFirst([r, r], r.token);
      Authorize(after, Some(BearerPrefix + r.token), verify, false).Admitted?
  {
    var h := BearerPrefix + r.token;
    assert h[..|BearerPrefix|] == BearerPrefix;
    TokenStopsAtSpace(r.token, "");
    assert h + " " + "" == BearerPrefix + r.token + " " + "";
    assert BearerToken(h) == TakeUntil(r.token, ' ') by { assert h[|BearerPrefix|..] == r.token; }
    TakeUntilAll(r.token);
    assert DeleteFirst([r, r], r.token) == [r];
    assert HasToken([r], r.token) by { assert [r][0].token == r.token; }
  }

  lemma {:induction false} TakeUntilAll(s: string)
    requires ' ' !in s
    ensures TakeUntil(s, ' ') == s
  {
    if s != [] {
      TakeUntilAll(s[1..]);
      assert [s[0]] + s[1..] == s;
    }
  }

  /** `logout` for the token the middleware stored in `req.token`;
      `storeFails` is a rejected `findOneAndDelete`. */
  method Logout(tokens: TokenStore, token: Option<string>, storeFails: bool) returns (r: LogoutReply)
    modifies tokens
    ensures !Truthy(token) ==> r == NoToken && tokens.records == old(tokens.records)
    ensures Truthy(token) && storeFails ==> r == ServerError && tokens.records == old(tokens.records)
    ensures Truthy(token) && !storeFails ==>
      r == LoggedOut && tokens.records == DeleteFirst(old(tokens.records), token.value)
  {
    if !Truthy(token) {
      return NoToken;
    }
    if storeFails {
      return ServerError;
    }
    tokens.records := DeleteFirst(tokens.records, token.value);
    r := LoggedOut;
  }
}
