/** The refresh token repository over its table, and the parts of the auth service that use it. Generated ids,
    tokens' hashes and the time are parameters. */
module AuthService {
  import opened Sequences
  import opened RefreshTokens

  /** The update statements: each row is rewritten in turn. */
  method UpdateRows(rows: Table, f: Token -> Token) returns (updated: Table)
    ensures updated == Map(rows, f)
  {
    updated := [];
    for i := 0 to |rows|
      invariant |updated| == i && forall k :: 0 <= k < i ==> updated[k] == f(rows[k])
    {
      updated := updated + [f(rows[i])];
    }
  }

  /** The rows an update statement reports. */
  method CountRows(rows: Table, p: Token -> bool) returns (count: nat)
    ensures count == Count(rows, p)
  {
    count := 0;
    for i := 0 to |rows|
      invariant count == Count(rows[..i], p)
    {
      assert rows[..i + 1] == rows[..i] + [rows[i]];
      FilterSnoc(rows[..i], rows[i], p);
      if p(rows[i]) {
        count := count + 1;
      }
    }
    assert rows[..|rows|] == rows;
  }

  function Active(user: string): Token -> bool {
    (t: Token) => t.user == user && !t.revoked
  }

  function ActiveInFamily(family: string): Token -> bool {
    (t: Token) => t.family == family && !t.revoked
  }

  function Indices(rows: Table, p: Token -> bool): set<int> {
    set i | 0 <= i < |rows| && p(rows[i])
  }

  lemma IndicesSnoc(rows: Table, t: Token, p: Token -> bool)
    ensures Indices(rows + [t], p) == if p(t) then Indices(rows, p) + {|rows|} else Indices(rows, p)
    ensures |rows| !in Indices(rows, p)
  {
  }

  lemma {:induction false} CountIndices(rows: Table, p: Token -> bool)
    ensures Count(rows, p) == |Indices(rows, p)|
    decreases |rows|
  {
    if rows == [] {
      assert Indices(rows, p) == {};
    } else {
      hide Indices;
      var n := |rows| - 1;
      CountIndices(rows[..n], p);
      assert rows == rows[..n] + [rows[n]];
      FilterSnoc(rows[..n], rows[n], p);
      IndicesSnoc(rows[..n], rows[n], p);
    }
  }

  /** The rows reported by a revocation are those it changes. */
  lemma CountsAreChanges(rows: Table, user: string, family: string)
    ensures Count(rows, Active(user)) == |set i | 0 <= i < |rows| && Apply(rows, RevokeAll(user))[i] != rows[i]|
    ensures Count(rows, ActiveInFamily(family)) ==
      |set i | 0 <= i < |rows| && Apply(rows, RevokeFamily(family))[i] != rows[i]|
  {
    CountIndices(rows, Active(user));
    CountIndices(rows, ActiveInFamily(family));
    assert Indices(rows, Active(user))
        == (set i | 0 <= i < |rows| && Apply(rows, RevokeAll(user))[i] != rows[i]);
    assert Indices(rows, ActiveInFamily(family))
        == (set i | 0 <= i < |rows| && Apply(rows, RevokeFamily(family))[i] != rows[i]);
  }

  class RefreshTokenRepository {
    var rows: Table

    constructor ()
      ensures rows == []
    {
      rows := [];
    }

    method FindByTokenHash(tokenHash: string) returns (token: Option<Token>)
      ensures token == Find(rows, tokenHash)
    {
      assert rows[0..] == rows;
      for i := 0 to |rows|
        invariant Find(rows, tokenHash) == Find(rows[i..], tokenHash)
      {
        assert rows[i..][0] == rows[i] && rows[i..][1..] == rows[i + 1..];
        if rows[i].hash == tokenHash {
          return Some(rows[i]);
        }
      }
      return None;
    }

    method Create(id: string, user: string, hash: string, family: string, parent: Option<string>, expiresAt: int)
      modifies this
      ensures rows == old(rows) + [Token(id, user, hash, family, parent, false, None, expiresAt)]
    {
      rows := rows + [Fresh(id, user, hash, family, parent, expiresAt)];
    }

    method RevokeToken(id: string, replacedBy: Option<string>)
      modifies this
      ensures rows == Map(old(rows), RevokedOne(id, replacedBy))
    {
      rows := UpdateRows(rows, RevokedOne(id, replacedBy));
    }

    method RevokeFamily(family: string) returns (count: nat)
      modifies this
      ensures rows == Apply(old(rows), Step.RevokeFamily(family))
      ensures count == Count(old(rows), ActiveInFamily(family))
    {
      count := CountRows(rows, ActiveInFamily(family));
      rows := UpdateRows(rows, RevokedFamily(family));
    }

    method RevokeAllForUser(user: string) returns (count: nat)
      modifies this
      ensures rows == Apply(old(rows), RevokeAll(user))
      ensures count == Count(old(rows), Active(user))
    {
      count := CountRows(rows, Active(user));
      rows := UpdateRows(rows, RevokedUser(user));
    }
  }

  class AuthService {
    const refreshTokenRepo: RefreshTokenRepository
    var users: set<string>

    constructor (refreshTokenRepo: RefreshTokenRepository, users: set<string>)
      ensures this.refreshTokenRepo == refreshTokenRepo && this.users == users
    {
      this.refreshTokenRepo := refreshTokenRepo;
      this.users := users;
    }

    method CreateRefreshSession(user: string, tokenId: string, tokenHash: string, familyId: string, expiresAt: int)
      modifies refreshTokenRepo
      ensures refreshTokenRepo.rows ==
        Apply(old(refreshTokenRepo.rows), CreateSession(user, tokenId, tokenHash, familyId, expiresAt))
    {
      refreshTokenRepo.Create(tokenId, user, tokenHash, familyId, None, expiresAt);
    }

    /** The transaction: an error thrown in it brings the rows back to what they were when it began. */
    method RotateTransaction(tokenHash: string, now: int, newId: string, newHash: string, newExpiresAt: int)
      returns (outcome: Outcome)
      modifies refreshTokenRepo
      ensures outcome == Verdict(old(refreshTokenRepo.rows), users, tokenHash, now, newId)
      ensures refreshTokenRepo.rows ==
        RotateTx(old(refreshTokenRepo.rows), users, tokenHash, now, newId, newHash, newExpiresAt)
    {
      var snapshot := refreshTokenRepo.rows;
      var found := refreshTokenRepo.FindByTokenHash(tokenHash);
      if found.None? {
        return Invalid;
      }
      var existing := found.value;
      if existing.revoked {
        return Reuse(existing.user);
      }
      if existing.expiresAt <= now {
        refreshTokenRepo.RevokeToken(existing.id, existing.replacedBy);
        refreshTokenRepo.rows := snapshot;
        return Expired;
      }
      if existing.user !in users {
        refreshTokenRepo.RevokeToken(existing.id, existing.replacedBy);
        refreshTokenRepo.rows := snapshot;
        return UserMissing;
      }
      refreshTokenRepo.Create(newId, existing.user, newHash, existing.family, Some(existing.id), newExpiresAt);
      refreshTokenRepo.RevokeToken(existing.id, Some(newId));
      return Rotated(existing.id, newId);
    }

    method RotateRefreshToken(tokenHash: string, now: int, newId: string, newHash: string, newExpiresAt: int)
      returns (outcome: Outcome)
      modifies refreshTokenRepo
      ensures outcome == Verdict(old(refreshTokenRepo.rows), users, tokenHash, now, newId)
      ensures refreshTokenRepo.rows ==
        Present(old(refreshTokenRepo.rows), users, tokenHash, now, newId, newHash, newExpiresAt)
      ensures outcome.Reuse? ==> AllRevoked(refreshTokenRepo.rows, outcome.user)
    {
      outcome := RotateTransaction(tokenHash, now, newId, newHash, newExpiresAt);
      if outcome.Reuse? {
        var _ := refreshTokenRepo.RevokeAllForUser(outcome.user);
      }
    }

    method Logout(tokenHash: string)
      modifies refreshTokenRepo
      ensures refreshTokenRepo.rows == match Find(old(refreshTokenRepo.rows), tokenHash)
        case None => old(refreshTokenRepo.rows)
        case Some(t) => Apply(old(refreshTokenRepo.rows), Revoke(t.id))
    {
      var token := refreshTokenRepo.FindByTokenHash(tokenHash);
      if token.Some? {
        refreshTokenRepo.RevokeToken(token.value.id, None);
      }
    }

    method LogoutAll(user: string) returns (count: nat)
      modifies refreshTokenRepo
      ensures refreshTokenRepo.rows == Apply(old(refreshTokenRepo.rows), RevokeAll(user))
      ensures AllRevoked(refreshTokenRepo.rows, user)
      ensures count == Count(old(refreshTokenRepo.rows), Active(user))
    {
      count := refreshTokenRepo.RevokeAllForUser(user);
    }
  }
}
