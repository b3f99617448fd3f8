/**
 * Refresh tokens (server/internal/store/refreshtokens.go) and the refresh request
 * (server/internal/handlers/refresh.go). A request reads the token, decides, and only then writes; any number of
 * requests interleave between the reads and the writes.
 */
module RefreshTokens {

  import opened Wrappers

  type TokenId = nat
  type Family = nat

  /** The hash stands for the token; equal tokens have equal hashes. */
  datatype Token = Token(hash: nat, family: Family, email: nat, user: Option<nat>,
                         created: int, expires: int, replaced: Option<int>)

  type Tokens = map<TokenId, Token>

  /** Seconds during which a replaced token is still tolerated. */
  const REUSE_GRACE := 30
  const TOKEN_TTL := 12 * 3600

  predicate HashUnused(tokens: Tokens, hash: nat) {
    forall id: TokenId :: id in tokens ==> tokens[id].hash != hash
  }

  function WithoutExpired(tokens: Tokens, now: int): Tokens {
    map id: TokenId | id in tokens && now <= tokens[id].expires :: tokens[id]
  }

  function WithoutFamily(tokens: Tokens, family: Family): Tokens {
    map id: TokenId | id in tokens && tokens[id].family != family :: tokens[id]
  }

  function WithoutEmail(tokens: Tokens, email: nat): Tokens {
    map id: TokenId | id in tokens && tokens[id].email != email :: tokens[id]
  }

  function WithoutUser(tokens: Tokens, user: nat): Tokens {
    map id: TokenId | id in tokens && tokens[id].user != Some(user) :: tokens[id]
  }

  /** A login that fails on a duplicate token leaves the table as it was. */
  function Created(tokens: Tokens, id: TokenId, token: Token): Tokens {
    var kept := WithoutExpired(tokens, token.created);
    if HashUnused(kept, token.hash) then kept[id := token] else tokens
  }

  predicate CanRotate(tokens: Tokens, used: TokenId, hash: nat) {
    used in tokens && tokens[used].replaced.None? && HashUnused(tokens, hash)
  }

  /** The used token is marked, its successor inherits login and account. */
  function Rotated(tokens: Tokens, used: TokenId, id: TokenId, hash: nat, now: int, expires: int): Tokens {
    if CanRotate(tokens, used, hash) then
      tokens[used := tokens[used].(replaced := Some(now))]
            [id := tokens[used].(hash := hash, created := now, expires := expires)]
    else
      tokens
  }

  /** What a request does with the token it read. `session` says whether the account still allows the login. */
  datatype Verdict = Revoke | Tolerate | Rotate

  function Judge(stored: Token, now: int, session: bool): (verdict: Verdict) {
    if stored.expires <= now then Revoke
    else if stored.replaced.Some? && now - stored.replaced.value > REUSE_GRACE then Revoke
    else if !session then Revoke
    else if stored.replaced.Some? then Tolerate
    else Rotate
  }

  // ---------- The table ----------

  /** NotFound: the token was replaced or revoked meanwhile. */
  datatype Rotation = Done | NotFound | Duplicate

  datatype Reply = Unauthorized | Failed | Access(renewed: bool)

  class TokenTable {
    var tokens: Tokens
    var nextId: TokenId

    constructor ()
      ensures tokens == map[] && nextId == 0
    {
      tokens, nextId := map[], 0;
    }

    /** Go: CreateRefreshToken. */
    method CreateRefreshToken(hash: nat, family: Family, email: nat, user: Option<nat>, created: int, expires: int)
      returns (ok: bool)
      modifies this
      ensures ok == HashUnused(WithoutExpired(old(tokens), created), hash)
      ensures tokens == Created(old(tokens), old(nextId), Token(hash, family, email, user, created, expires, None))
      ensures nextId == old(nextId) + 1
    {
      var kept := map id: TokenId | id in tokens && !(tokens[id].expires < created) :: tokens[id];
      assert kept == WithoutExpired(tokens, created);
      var id := nextId;
      nextId := nextId + 1;
      if forall other: TokenId :: other in kept ==> kept[other].hash != hash {
        tokens := kept[id := Token(hash, family, email, user, created, expires, None)];
        return true;
      }
      return false;
    }

    /** Go: GetRefreshToken, by the hash of the presented token. */
    method GetRefreshToken(hash: nat) returns (found: Option<(TokenId, Token)>)
      ensures found.None? <==> HashUnused(tokens, hash)
      ensures found.Some? ==>
        found.value.0 in tokens && tokens[found.value.0] == found.value.1 && found.value.1.hash == hash
    {
      if id: TokenId :| id in tokens && tokens[id].hash == hash {
        return Some((id, tokens[id]));
      }
      return None;
    }

    /** Go: RotateRefreshToken. Marking and inserting are one transaction. */
    method RotateRefreshToken(stored: TokenId, hash: nat, now: int, expires: int) returns (outcome: Rotation)
      requires forall id: TokenId :: id in tokens ==> id < nextId
      modifies this
      ensures tokens == Rotated(old(tokens), stored, old(nextId), hash, now, expires)
      ensures nextId == old(nextId) + 1
      ensures outcome == Done <==> CanRotate(old(tokens), stored, hash)
      ensures outcome == NotFound <==> stored !in old(tokens) || old(tokens)[stored].replaced.Some?
    {
      var id := nextId;
      nextId := nextId + 1;
      if stored !in tokens || tokens[stored].replaced.Some? {
        return NotFound;
      }
      var marked := tokens[stored := tokens[stored].(replaced := Some(now))];
      if other: TokenId :| other in marked && marked[other].hash == hash {
        assert tokens[other].hash == hash;
        return Duplicate;
      }
      assert forall other: TokenId :: other in tokens ==> marked[other].hash == tokens[other].hash;
      tokens := marked[id := marked[stored].(hash := hash, created := now, expires := expires, replaced := None)];
      return Done;
    }

    /** Go: RevokeRefreshTokenFamily. */
    method RevokeRefreshTokenFamily(family: Family)
      modifies this`tokens
      ensures tokens == WithoutFamily(old(tokens), family)
    {
      tokens := map id: TokenId | id in tokens && tokens[id].family != family :: tokens[id];
    }

    /**
     * Go: the part of refresh after the token was read. By then the table may have changed; only what was read
     * decides.
     */
    method FinishRefresh(id: TokenId, stored: Token, now: int, session: bool, next: nat) returns (reply: Reply)
      requires forall other: TokenId :: other in tokens ==> other < nextId
      modifies this
      ensures tokens == Acted(old(tokens), old(nextId), id, stored, now, session, next)
      ensures reply == Unauthorized <==> Judge(stored, now, session) == Revoke
      ensures reply == Access(true) <==> Judge(stored, now, session) == Rotate && CanRotate(old(tokens), id, next)
      ensures nextId == old(nextId) + if Judge(stored, now, session) == Rotate then 1 else 0
    {
      if now >= stored.expires {
        RevokeRefreshTokenFamily(stored.family);
        return Unauthorized;
      }
      var reused := stored.replaced.Some?;
      if reused && now - stored.replaced.value > REUSE_GRACE {
        RevokeRefreshTokenFamily(stored.family);
        return Unauthorized;
      }
      if !session {
        RevokeRefreshTokenFamily(stored.family);
        return Unauthorized;
      }
      var renewed := false;
      if !reused {
        var outcome := RotateRefreshToken(id, next, now, now + TOKEN_TTL);
        match outcome
        case Done => renewed := true;
        case NotFound =>
        case Duplicate => return Failed;
      }
      return Access(renewed);
    }
  }

  function Acted(tokens: Tokens, nextId: TokenId, id: TokenId, stored: Token, now: int, session: bool, next: nat)
    : Tokens
  {
    match Judge(stored, now, session)
    case Revoke => WithoutFamily(tokens, stored.family)
    case Tolerate => tokens
    case Rotate => Rotated(tokens, id, nextId, next, now, now + TOKEN_TTL)
  }
}
