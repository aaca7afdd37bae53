/** The auth repository and usecase as objects, called one request at a time. */
module Accounts {
  import opened Entities
  import S = Sessions

  /** The user and refresh-token tables. */
  class AuthRepository {
    var users: map<string, Id>
    var tokens: S.Tokens

    constructor (users: map<string, Id>)
      ensures this.users == users && tokens == map[]
    {
      this.users := users;
      tokens := map[];
    }

    method FindUserByUsername(username: string) returns (found: Option<Id>)
      ensures found == if username in users then Some(users[username]) else None
    {
      if username in users {
        return Some(users[username]);
      }
      return None;
    }

    method FindUserByID(id: Id) returns (ok: bool)
      ensures ok == (id in users.Values)
    {
      ok := id in users.Values;
    }

    method CreateRefreshToken(hash: string, token: S.RefreshToken) returns (ok: bool)
      modifies this`tokens
      ensures ok == (hash !in old(tokens)) && tokens == S.InsertToken(old(tokens), hash, token)
    {
      if hash in tokens {
        return false;
      }
      tokens := tokens[hash := token];
      return true;
    }

    method FindRefreshToken(hash: string) returns (found: Option<S.RefreshToken>)
      ensures found == if hash in tokens then Some(tokens[hash]) else None
    {
      if hash in tokens {
        return Some(tokens[hash]);
      }
      return None;
    }

    /** The first revocation wins. */
    method RevokeRefreshToken(hash: string, at: Time)
      modifies this`tokens
      ensures tokens == S.Revoke(old(tokens), hash, at)
    {
      if hash in tokens && tokens[hash].revokedAt == None {
        tokens := tokens[hash := tokens[hash].(revokedAt := Some(at))];
      }
    }
  }

  class AuthUsecase {
    const repo: AuthRepository
    const accessTtl: Time
    const refreshTtl: Time

    constructor (repo: AuthRepository, accessTtl: Time, refreshTtl: Time)
      ensures this.repo == repo && this.accessTtl == accessTtl && this.refreshTtl == refreshTtl
    {
      this.repo := repo;
      this.accessTtl := accessTtl;
      this.refreshTtl := refreshTtl;
    }

    /** The object did what the request does alone in the concurrent model, with
        its steps at the given clocks. */
    twostate predicate Performed(op: S.Op, clocks: seq<Time>, out: S.Outcome)
      reads this, repo
    {
      var c := S.Config([op], old(repo.users), accessTtl, refreshTtl);
      var m := S.Alone(c, old(repo.tokens), op, S.Start, clocks);
      && repo.users == old(repo.users)
      && repo.tokens == m.tokens
      && m.pc == S.Done(out)
    }

    method GenerateAccessToken(userId: Id, session: string, checkedAt: Time, now: Time) returns (access: S.Access)
      ensures access.userId == userId && access.session == session
      ensures access.checkedAt == checkedAt && access.mintedAt == now
      ensures access.exp * 1_000_000_000 <= now + accessTtl < (access.exp + 1) * 1_000_000_000
    {
      access := S.Access(userId, (now + accessTtl) / S.SECOND, session, checkedAt, now);
    }

    /** `hash` is the hash of the token drawn for the session; the clock is read for
        the access token, after the password comparison, and again for the session. */
    method Login(username: string, passes: bool, hash: string, lookup: Time, signing: Time, issuing: Time)
      returns (out: S.Outcome)
      modifies repo`tokens
      ensures Performed(S.Login(username, passes, hash), [lookup, signing, issuing], out)
      ensures if username !in repo.users || !passes then out == S.Unauthorized
              else if hash in old(repo.tokens) then out == S.ServerError
              else
                && out.LoggedIn? && out.access.userId == repo.users[username] && out.access.mintedAt == signing
                && out.access.exp * 1_000_000_000 <= signing + accessTtl < (out.access.exp + 1) * 1_000_000_000
      ensures repo.users == old(repo.users)
      ensures repo.tokens == if out.LoggedIn?
                             then old(repo.tokens)[hash := S.RefreshToken(repo.users[username], issuing + refreshTtl,
                                                                          None, issuing)]
                             else old(repo.tokens)
    {
      ghost var op := S.Login(username, passes, hash);
      S.ThreeSteps(S.Config([op], repo.users, accessTtl, refreshTtl), repo.tokens, op, S.Start,
                   lookup, signing, issuing);
      var user := repo.FindUserByUsername(username);
      if user == None {
        return S.Unauthorized;
      }
      if !passes {
        return S.Unauthorized;
      }
      var access := GenerateAccessToken(user.value, hash, signing, signing);
      var ok := repo.CreateRefreshToken(hash, S.RefreshToken(user.value, issuing + refreshTtl, None, issuing));
      if !ok {
        return S.ServerError;
      }
      return S.LoggedIn(access);
    }

    /** Reads only: the stored token is neither rotated nor extended. */
    method Refresh(hash: string, first: Time, second: Time) returns (out: S.Outcome)
      ensures Performed(S.Refresh(hash), [first, second], out)
      ensures if hash !in repo.tokens || repo.tokens[hash].revokedAt != None || first > repo.tokens[hash].expiresAt
              then out == S.Unauthorized
              else if repo.tokens[hash].userId !in repo.users.Values then out == S.ServerError
              else
                && out.Refreshed? && out.access.userId == repo.tokens[hash].userId && out.access.mintedAt == second
                && out.access.exp * 1_000_000_000 <= second + accessTtl < (out.access.exp + 1) * 1_000_000_000
    {
      ghost var op := S.Refresh(hash);
      S.TwoSteps(S.Config([op], repo.users, accessTtl, refreshTtl), repo.tokens, op, S.Start, first, second);
      var found := repo.FindRefreshToken(hash);
      if found == None {
        return S.Unauthorized;
      }
      var stored := found.value;
      if stored.revokedAt != None {
        return S.Unauthorized;
      }
      if first > stored.expiresAt {
        return S.Unauthorized;
      }
      var known := repo.FindUserByID(stored.userId);
      if !known {
        return S.ServerError;
      }
      var access := GenerateAccessToken(stored.userId, hash, first, second);
      return S.Refreshed(access);
    }

    method Logout(hash: string, first: Time, second: Time) returns (out: S.Outcome)
      modifies repo`tokens
      ensures Performed(S.Logout(hash), [first, second], out)
      ensures out == if hash in old(repo.tokens) then S.LoggedOut else S.Unauthorized
      ensures repo.users == old(repo.users)
      ensures repo.tokens == if hash in old(repo.tokens) && old(repo.tokens)[hash].revokedAt == None
                             then old(repo.tokens)[hash := old(repo.tokens)[hash].(revokedAt := Some(second))]
                             else old(repo.tokens)
    {
      ghost var op := S.Logout(hash);
      S.TwoSteps(S.Config([op], repo.users, accessTtl, refreshTtl), repo.tokens, op, S.Start, first, second);
      var found := repo.FindRefreshToken(hash);
      if found == None {
        return S.Unauthorized;
      }
      repo.RevokeRefreshToken(hash, second);
      return S.LoggedOut;
    }
  }
}
