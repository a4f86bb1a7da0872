/** The in-memory registry of issued tokens: at most one token per user, kept
    in a dictionary from user id to token. The dictionary enumerates its
    entries in an order it does not specify, so a lookup by token may find any
    user holding that token. */
module TokenService {
  import opened Common

  class TokenService {
    var tokens: map<Guid, string>

    constructor ()
      ensures tokens == map[]
    {
      tokens := map[];
    }

    /** User `u` is registered with token `t`. */
    predicate Holds(u: Guid, t: string)
      reads this
    {
      u in tokens && tokens[u] == t
    }

    /** `AddToken(userId, token)`: stores the token for the user, replacing
        the user's earlier token. */
    method AddToken(userId: Guid, token: string)
      modifies this
      ensures tokens == old(tokens)[userId := token]
      ensures Holds(userId, token)
      ensures forall t :: t != token ==> !Holds(userId, t)
      ensures forall u, t :: u != userId ==> (Holds(u, t) <==> old(Holds(u, t)))
    {
      tokens := tokens[userId := token];
    }

    /** `GetUserIdByToken(token)`: a user holding the token, or the empty Guid
        when no user does. */
    method GetUserIdByToken(token: string) returns (userId: Guid)
      ensures (exists u :: Holds(u, token)) ==> Holds(userId, token)
      ensures !(exists u :: Holds(u, token)) ==> userId == Empty
    {
      if u :| u in tokens && tokens[u] == token {
        assert Holds(u, token);
        userId := u;
      } else {
        userId := Empty;
      }
    }

    /** `RemoveToken(token)`: looks the token up and, unless the user found is
        the empty Guid, deletes that user's entry and no other. */
    method RemoveToken(token: string)
      modifies this
      ensures !(exists u :: old(Holds(u, token))) ==> tokens == old(tokens)
      ensures (exists u :: old(Holds(u, token))) ==>
        exists u :: old(Holds(u, token)) && tokens == (if u == Empty then old(tokens) else old(tokens) - {u})
    {
      var userId := GetUserIdByToken(token);
      assert (exists u :: u in tokens && tokens[u] == token) ==> userId in tokens && tokens[userId] == token by {
        if exists u :: u in tokens && tokens[u] == token {
          var u :| u in tokens && tokens[u] == token;
          assert Holds(u, token);
        }
      }
      if userId != Empty {
        tokens := tokens - {userId};
      }
      if exists u :: old(Holds(u, token)) {
        var u :| old(Holds(u, token));
        assert u in old(tokens) && old(tokens)[u] == token;
        assert old(Holds(userId, token));
      }
    }

    /** `ClearTokens()`: forgets every token. */
    method ClearTokens()
      modifies this
      ensures tokens == map[]
      ensures forall u, t :: !Holds(u, t)
    {
      tokens := map[];
    }
  }

  /** A client's session as the controllers drive it: after a user logs in
      again with a fresh token, the old token no longer identifies them; after
      the old token is revoked the new one still does; after a clear no token
      identifies anyone. */
  method Session(s: TokenService, u: Guid, t1: string, t2: string) returns (a: Guid, b: Guid, c: Guid)
    requires u != Empty && t1 != t2
    requires forall w :: !s.Holds(w, t2)
    modifies s
    ensures a != u
    ensures b == u
    ensures c == Empty
  {
    s.AddToken(u, t1);
    s.AddToken(u, t2);
    assert forall w :: s.Holds(w, t2) ==> w == u;
    a := s.GetUserIdByToken(t1);
    ghost var m := s.tokens;
    assert u in m && m[u] == t2;
    assert forall w :: w in m && m[w] == t2 ==> w == u by {
      forall w | w in m && m[w] == t2 ensures w == u {
        assert s.Holds(w, t2);
      }
    }
    s.RemoveToken(t1);
    assert s.tokens == m || exists x :: x in m && m[x] == t1 && s.tokens == m - {x};
    assert forall w :: w in s.tokens ==> w in m && s.tokens[w] == m[w];
    b := s.GetUserIdByToken(t2);
    assert s.Holds(u, t2);
    assert b in m && m[b] == t2;
    s.ClearTokens();
    c := s.GetUserIdByToken(t2);
  }
}
