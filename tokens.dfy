/** The session-token registry of `TokensService`: a table of (user id, access token)
    rows that makes signed tokens revocable, and the check every protected request
    goes through. Signature verification is the `verify` collaborator the service is
    built with: given a token and the current time, it yields the token's claims, or
    nothing when the signature or the expiry does not check out at that time. */
module Tokens {
  import opened Common
  import Table

  /** A row of the tokens table: generated primary key, owning user, token string. */
  datatype TokenRow = TokenRow(id: nat, userId: int, accessToken: string)

  /** The input of `createToken`. */
  datatype CreateTokenDto = CreateTokenDto(accessToken: string, userId: int)

  /** The input of `removeToken`. */
  datatype DeleteTokenDto = DeleteTokenDto(userId: int, accessToken: string)

  /** The payload of a verified session token. */
  datatype Claims = Claims(userId: int)

  /** The only failure of the token check; which step failed is not revealed. */
  datatype AuthError = Unauthorized

  function RowId(row: TokenRow): int
  {
    row.id
  }

  /** The criteria `{ access_token: token }`. */
  function SameToken(token: string): TokenRow -> bool
  {
    (row: TokenRow) => row.accessToken == token
  }

  /** The criteria `{ user_id: userId, access_token: token }`. */
  function SameUserAndToken(userId: int, token: string): TokenRow -> bool
  {
    (row: TokenRow) => row.userId == userId && row.accessToken == token
  }

  /** The criteria `{ user_id: userId }`. */
  function SameUser(userId: int): TokenRow -> bool
  {
    (row: TokenRow) => row.userId == userId
  }

  /** The signature check as it answers at time `now`. */
  function VerifierAt(verify: (string, nat) -> Option<Claims>, now: nat): string -> Option<Claims>
  {
    (token: string) => verify(token, now)
  }

  /** Some row of the registry carries the token, whoever owns it. */
  ghost predicate Registered(rows: seq<TokenRow>, token: string)
  {
    exists row :: row in rows && row.accessToken == token
  }

  /** The registry lookup `findOneBy({ access_token })`. */
  function FindByToken(rows: seq<TokenRow>, token: string): (r: Option<TokenRow>)
    ensures r.Some? <==> Registered(rows, token)
    ensures r.Some? ==> r.value in rows && r.value.accessToken == token
  {
    Table.FindOneBy(rows, SameToken(token))
  }

  /** The outcome of `checkIsValidToken`: the registry is consulted first and the
      signature second; either failure is `Unauthorized`, and on success the claims
      are the ones signature verification decoded. */
  function Validate(rows: seq<TokenRow>, verify: string -> Option<Claims>, token: string): (r: Result<Claims, AuthError>)
    ensures r.Success? <==> Registered(rows, token) && verify(token).Some?
    ensures r.Success? ==> r.value == verify(token).value
  {
    match FindByToken(rows, token)
    case None => Failure(Unauthorized)
    case Some(_) =>
      match verify(token)
      case None => Failure(Unauthorized)
      case Some(claims) => Success(claims)
  }

  /** The registry after `removeToken(userId, token)`: no row of that user carries
      the token any more, and every other row (the same user's other tokens, other
      users' rows, even with the same token) is kept. */
  function AfterRemoveToken(rows: seq<TokenRow>, userId: int, token: string): (r: seq<TokenRow>)
    ensures forall row :: row in r ==> !(row.userId == userId && row.accessToken == token)
    ensures forall row :: row in rows && !(row.userId == userId && row.accessToken == token) ==>
              row in r && multiset(r)[row] == multiset(rows)[row]
    ensures forall row :: row in r ==> row in rows
  {
    Table.DeleteWhere(rows, SameUserAndToken(userId, token))
  }

  /** The registry after `removeTokensByUserId(userId)`: none of that user's rows
      is left and every row of another user is kept. */
  function AfterRemoveUserTokens(rows: seq<TokenRow>, userId: int): (r: seq<TokenRow>)
    ensures forall row :: row in r ==> row.userId != userId
    ensures forall row :: row in rows && row.userId != userId ==>
              row in r && multiset(r)[row] == multiset(rows)[row]
    ensures forall row :: row in r ==> row in rows
  {
    Table.DeleteWhere(rows, SameUser(userId))
  }

  /** Revocation: once a user removes their row for a token that no other user's row
      carries, the token check fails for that token, whatever its signature. */
  lemma RevocationEffective(rows: seq<TokenRow>, verify: string -> Option<Claims>, userId: int, token: string)
    requires forall row :: row in rows && row.accessToken == token ==> row.userId == userId
    ensures Validate(AfterRemoveToken(rows, userId, token), verify, token) == Failure(Unauthorized)
  {
    var after := AfterRemoveToken(rows, userId, token);
    assert !Registered(after, token) by {
      forall row | row in after
        ensures row.accessToken != token
      {
        assert row in rows;
      }
    }
  }

  /** Removing all of a user's rows revokes every token only that user held. */
  lemma RemoveUserTokensRevokes(rows: seq<TokenRow>, verify: string -> Option<Claims>, userId: int, token: string)
    requires forall row :: row in rows && row.accessToken == token ==> row.userId == userId
    ensures Validate(AfterRemoveUserTokens(rows, userId), verify, token) == Failure(Unauthorized)
  {
    var after := AfterRemoveUserTokens(rows, userId);
    assert !Registered(after, token) by {
      forall row | row in after
        ensures row.accessToken != token
      {
        assert row in rows;
      }
    }
  }

  /** The lookup is by token string only: a row owned by any user, including one
      other than the token's subject, lets a well-signed token through. */
  lemma LookupIgnoresOwner(rows: seq<TokenRow>, verify: string -> Option<Claims>, row: TokenRow)
    requires row in rows
    requires verify(row.accessToken).Some?
    ensures Validate(rows, verify, row.accessToken) == Success(verify(row.accessToken).value)
  {
  }

  /** A token just added to the registry passes the check exactly when its
      signature verifies, and yields the verified claims. */
  lemma CreatedTokenValidates(rows: seq<TokenRow>, verify: string -> Option<Claims>, row: TokenRow)
    ensures Validate(rows + [row], verify, row.accessToken).Success? <==> verify(row.accessToken).Some?
  {
    assert row in rows + [row];
  }

  /** The token service and the tokens table it owns. */
  class TokensService {
    var rows: seq<TokenRow>
    var nextId: nat
    const verify: (string, nat) -> Option<Claims>

    /** Primary keys are generated in increasing order and stay below the next one. */
    ghost predicate Valid()
      reads this
    {
      && Table.Increasing(rows, RowId)
      && forall row :: row in rows ==> row.id < nextId
    }

    constructor (verify: (string, nat) -> Option<Claims>)
      ensures Valid()
      ensures rows == [] && this.verify == verify
    {
      rows := [];
      nextId := 0;
      this.verify := verify;
    }

    /** `createToken`: saves one new row carrying the given user and token, with a
        fresh primary key; the rows already there are unchanged. */
    method CreateToken(dto: CreateTokenDto) returns (saved: TokenRow)
      requires Valid()
      modifies this
      ensures Valid()
      ensures saved.userId == dto.userId && saved.accessToken == dto.accessToken
      ensures forall row :: row in old(rows) ==> row.id != saved.id
      ensures rows == old(rows) + [saved]
    {
      saved := TokenRow(nextId, dto.userId, dto.accessToken);
      rows := rows + [saved];
      nextId := nextId + 1;
    }

    /** `removeToken`: deletes the rows matching both user and token and reports
        how many there were. */
    method RemoveToken(dto: DeleteTokenDto) returns (res: Table.DeleteResult)
      requires Valid()
      modifies this
      ensures Valid() && nextId == old(nextId)
      ensures rows == AfterRemoveToken(old(rows), dto.userId, dto.accessToken)
      ensures res == Table.DeleteResult(Table.CountWhere(old(rows), SameUserAndToken(dto.userId, dto.accessToken)), None)
    {
      var before := rows;
      rows := AfterRemoveToken(rows, dto.userId, dto.accessToken);
      Table.DeleteWhereKeepsIncreasing(before, SameUserAndToken(dto.userId, dto.accessToken), RowId);
      Table.DeleteWhereCount(before, SameUserAndToken(dto.userId, dto.accessToken));
      res := Table.DeleteResult(|before| - |rows|, None);
    }

    /** `checkIsValidToken` at time `now` (the clock the signature check reads):
        reads the registry and never changes it. */
    method CheckIsValidToken(token: string, now: nat) returns (r: Result<Claims, AuthError>)
      ensures r == Validate(rows, VerifierAt(verify, now), token)
    {
      var tokenEntity := FindByToken(rows, token);
      if tokenEntity.None? {
        return Failure(Unauthorized);
      }
      var payload := verify(token, now);
      if payload.None? {
        return Failure(Unauthorized);
      }
      return Success(payload.value);
    }

    /** `removeTokensByUserId`: deletes every row of the user and reports how many
        there were. */
    method RemoveTokensByUserId(userId: int) returns (res: Table.DeleteResult)
      requires Valid()
      modifies this
      ensures Valid() && nextId == old(nextId)
      ensures rows == AfterRemoveUserTokens(old(rows), userId)
      ensures res == Table.DeleteResult(Table.CountWhere(old(rows), SameUser(userId)), None)
    {
      var before := rows;
      rows := AfterRemoveUserTokens(rows, userId);
      Table.DeleteWhereKeepsIncreasing(before, SameUser(userId), RowId);
      Table.DeleteWhereCount(before, SameUser(userId));
      res := Table.DeleteResult(|before| - |rows|, None);
    }
  }
}
