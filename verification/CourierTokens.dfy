/** The credential operations as they run, row by row. */
module CourierTokens {
  import opened Common
  import opened Tokens

  lemma DropInTurn(t: Tables, a: set<nat>, b: set<nat>)
    ensures WithoutSessions(WithoutSessions(t, a), b) == WithoutSessions(t, a + b)
  {
    assert t.sessions - a - b == t.sessions - (a + b);
  }

  lemma DropNothing(t: Tables)
    ensures WithoutSessions(t, {}) == t
  {
    assert t.sessions - {} == t.sessions;
  }

  class CourierTokens {
    var couriers: map<nat, bool>
    var claims: seq<Claim>
    var tokens: seq<Token>
    var sessions: map<nat, Session>
    var nextSession: nat
    var nextFamily: nat

    constructor (t: Tables)
      ensures Value() == t
    {
      couriers, claims, tokens, sessions := t.couriers, t.claims, t.tokens, t.sessions;
      nextSession, nextFamily := t.nextSession, t.nextFamily;
    }

    function Value(): Tables
      reads this
    {
      Tables(couriers, claims, tokens, sessions, nextSession, nextFamily)
    }

    method FindRow(d: Digest) returns (found: Option<nat>)
      ensures found == FindToken(tokens, d)
    {
      found := None;
      for i := 0 to |tokens|
        invariant found == FindToken(tokens[..i], d)
      {
        assert tokens[..i + 1][..i] == tokens[..i];
        if found.None? && tokens[i].digest == d {
          found := Some(i);
        }
      }
      assert tokens[..|tokens|] == tokens;
    }

    method FindClaimRow(d: Digest) returns (found: Option<nat>)
      ensures found == FindClaim(claims, d)
    {
      found := None;
      for i := 0 to |claims|
        invariant found == FindClaim(claims[..i], d)
      {
        assert claims[..i + 1][..i] == claims[..i];
        if found.None? && claims[i].digest == d {
          found := Some(i);
        }
      }
      assert claims[..|claims|] == claims;
    }

    /** A new claim, and the end of every earlier one of the courier. */
    method IssueLoginClaim(courier: nat, mint: Digest, now: int, ttl: int) returns (issued: Option<nat>)
      modifies this
      ensures Value() == IssueClaim(old(Value()), courier, mint, now, ttl).tables
      ensures issued == IssueClaim(old(Value()), courier, mint, now, ttl).result
    {
      var taken := FindClaimRow(mint);
      if courier !in couriers || !couriers[courier] || taken.Some? {
        return None;
      }
      ghost var before := claims;
      for i := 0 to |claims|
        invariant |claims| == |before|
        invariant forall k | 0 <= k < i :: claims[k] == RevokedClaims(before, courier, now)[k]
        invariant forall k | i <= k < |claims| :: claims[k] == before[k]
        invariant Value() == old(Value()).(claims := claims)
      {
        if Outstanding(claims[i], courier) {
          claims := claims[i := claims[i].(revokedAt := Some(now))];
        }
      }
      assert claims == RevokedClaims(before, courier, now);
      issued := Some(|claims|);
      claims := claims + [Claim(courier, mint, now + ttl, None, None)];
    }

    method ConsumeLoginClaim(d: Digest, now: int) returns (courier: Option<nat>)
      modifies this
      ensures Value() == ConsumeClaim(old(Value()), d, now).tables
      ensures courier == ConsumeClaim(old(Value()), d, now).result
    {
      var candidate := FindClaimRow(d);
      if candidate.None? { return None; }
      var c := claims[candidate.value];
      if c.courier !in couriers || !couriers[c.courier] { return None; }
      if c.consumedAt.Some? || c.revokedAt.Some? || c.expiresAt <= now { return None; }
      claims := claims[candidate.value := c.(consumedAt := Some(now))];
      return Some(c.courier);
    }

    /** Delete an access session; a token that points at it loses the link. */
    method DeleteAccessSession(session: nat)
      modifies this`sessions, this`tokens
      ensures Value() == WithoutSessions(old(Value()), {session})
    {
      sessions := sessions - {session};
      ghost var before := tokens;
      for i := 0 to |tokens|
        invariant |tokens| == |before| && sessions == old(sessions) - {session}
        invariant forall k | 0 <= k < i :: tokens[k] == Unlinked(before[k], {session})
        invariant forall k | i <= k < |tokens| :: tokens[k] == before[k]
      {
        if tokens[i].session == Some(session) {
          tokens := tokens[i := tokens[i].(session := None)];
        }
      }
      assert tokens == WithoutSessions(old(Value()), {session}).tokens;
    }

    method MintSession(courier: nat, mint: Digest, family: nat, accessUntil: int, until: int) returns (issued: Issued)
      modifies this`sessions, this`tokens, this`nextSession, this`nextFamily
      ensures Value() == Minted(old(Value()), courier, mint, family, accessUntil, until)
      ensures issued == Issued(|old(tokens)|, old(nextSession))
    {
      var expires := Min(accessUntil, until);
      sessions := sessions[nextSession := Session(courier, expires)];
      tokens := tokens + [Token(courier, Some(nextSession), mint, family, until, None, None, None)];
      issued := Issued(|tokens| - 1, nextSession);
      nextSession := nextSession + 1;
      if family >= nextFamily {
        nextFamily := family + 1;
      }
    }

    method IssueFirstSession(courier: nat, mint: Digest, now: int, accessTtl: int, refreshTtl: int)
      returns (issued: Option<Issued>)
      modifies this
      ensures Value() == IssueSession(old(Value()), courier, mint, now, accessTtl, refreshTtl).tables
      ensures issued == IssueSession(old(Value()), courier, mint, now, accessTtl, refreshTtl).result
    {
      var taken := FindRow(mint);
      if courier !in couriers || !couriers[courier] || taken.Some? {
        return None;
      }
      var i := MintSession(courier, mint, nextFamily, now + accessTtl, now + refreshTtl);
      return Some(i);
    }

    /** Revoke every token of a family, then delete its sessions one by one. */
    method RevokeWholeFamily(family: nat, at: int)
      modifies this`sessions, this`tokens
      ensures Value() == RevokeFamily(old(Value()), family, at)
    {
      var gone: set<nat> := {};
      for i := 0 to |tokens|
        invariant Value() == old(Value()) && gone == FamilySessions(tokens[..i], family)
      {
        FamilySessionsStep(tokens, i, family);
        if tokens[i].family == family && tokens[i].session.Some? {
          gone := gone + {tokens[i].session.value};
        }
      }
      assert tokens[..|tokens|] == tokens;
      ghost var before := tokens;
      for i := 0 to |tokens|
        invariant |tokens| == |before| && sessions == old(sessions)
        invariant forall k | 0 <= k < i :: tokens[k] == RevokedToken(before[k], family, at)
        invariant forall k | i <= k < |tokens| :: tokens[k] == before[k]
      {
        if tokens[i].family == family && tokens[i].revokedAt.None? {
          tokens := tokens[i := tokens[i].(revokedAt := Some(at))];
        }
      }
      ghost var revoked := Value();
      assert tokens == seq(|before|, i requires 0 <= i < |before| => RevokedToken(before[i], family, at));
      var left := gone;
      DropNothing(revoked);
      assert gone - gone == {};
      while left != {}
        invariant left <= gone && Value() == WithoutSessions(revoked, gone - left)
      {
        var s :| s in left;
        ghost var done := gone - left;
        DropInTurn(revoked, done, {s});
        assert gone - (left - {s}) == done + {s};
        hide WithoutSessions;
        DeleteAccessSession(s);
        left := left - {s};
      }
      assert gone - {} == gone;
    }

    static lemma FamilySessionsStep(tokens: seq<Token>, i: nat, family: nat)
      requires i < |tokens|
      ensures FamilySessions(tokens[..i + 1], family)
           == FamilySessions(tokens[..i], family)
              + if tokens[i].family == family && tokens[i].session.Some? then {tokens[i].session.value} else {}
    {
      var ts, us := tokens[..i + 1], tokens[..i];
      forall x | x in FamilySessions(us, family) ensures x in FamilySessions(ts, family) {
        var k :| 0 <= k < i && us[k].family == family && us[k].session == Some(x);
        assert ts[k] == us[k];
      }
      forall x | x in FamilySessions(ts, family)
        ensures x in FamilySessions(us, family) || (tokens[i].family == family && tokens[i].session == Some(x))
      {
        var k :| 0 <= k < i + 1 && ts[k].family == family && ts[k].session == Some(x);
        if k < i { assert us[k] == ts[k]; }
      }
      assert ts[i] == tokens[i];
    }

    /** Trade a refresh token for its successor and a session; a used one costs its family everything. */
    method RotateRefreshToken(d: Digest, mint: Digest, now: int, later: int, accessTtl: int)
      returns (issued: Option<Issued>)
      modifies this
      ensures Value() == Rotate(old(Value()), d, mint, now, later, accessTtl).tables
      ensures issued == Rotate(old(Value()), d, mint, now, later, accessTtl).result
    {
      hide FindToken, FamilySessions;
      var found := FindRow(d);
      if found.None? { return None; }
      var p := found.value;
      var row := tokens[p];
      if row.usedAt.Some? {
        RevokeWholeFamily(row.family, now);
        return None;
      }
      if row.revokedAt.Some? || row.expiresAt <= now { return None; }
      if row.courier !in couriers || !couriers[row.courier] {
        RevokeWholeFamily(row.family, now);
        return None;
      }
      var taken := FindRow(mint);
      if taken.Some? { return None; }
      issued := Replace(p, row, mint, now, later + accessTtl);
    }

    method Replace(p: nat, row: Token, mint: Digest, now: int, accessUntil: int) returns (issued: Option<Issued>)
      requires p < |tokens| && tokens[p] == row
      modifies this
      ensures var used := old(Value()).(tokens := old(tokens)[p := row.(usedAt := Some(now))]);
        var cleared := WithoutSessions(used, if row.session.Some? then {row.session.value} else {});
        var minted := Minted(cleared, row.courier, mint, row.family, accessUntil, row.expiresAt);
        Value() == minted.(tokens := minted.tokens[p := minted.tokens[p].(replacedBy := Some(|old(tokens)|))])
      ensures issued == Some(Issued(|old(tokens)|, old(nextSession)))
    {
      tokens := tokens[p := row.(usedAt := Some(now))];
      DropNothing(Value());
      if row.session.Some? {
        DeleteAccessSession(row.session.value);
      }
      var i := MintSession(row.courier, mint, row.family, accessUntil, row.expiresAt);
      tokens := tokens[p := tokens[p].(replacedBy := Some(i.token))];
      issued := Some(i);
    }

    method RevokeRefreshToken(d: Digest, now: int)
      modifies this
      ensures Value() == RevokeRefresh(old(Value()), d, now)
    {
      var found := FindRow(d);
      if found.Some? {
        RevokeWholeFamily(tokens[found.value].family, now);
      }
    }

    method RevokeAccessToken(session: nat, now: int)
      modifies this
      ensures Value() == RevokeAccess(old(Value()), session, now)
    {
      if session !in sessions { return; }
      var holder: Option<nat> := None;
      for i := 0 to |tokens|
        invariant holder == HolderOf(tokens[..i], session)
      {
        assert tokens[..i + 1][..i] == tokens[..i];
        if holder.None? && tokens[i].session == Some(session) {
          holder := Some(i);
        }
      }
      assert tokens[..|tokens|] == tokens;
      if holder.Some? {
        RevokeWholeFamily(tokens[holder.value].family, now);
      } else {
        DeleteAccessSession(session);
      }
    }

    /** Revoke every family of a courier, then any session issued before families existed. */
    method RevokeAllForCourier(courier: nat, now: int)
      modifies this
      ensures Value() == RevokeAll(old(Value()), courier, now)
    {
      hide RevokeFamily, WithoutSessions;
      var rows := tokens;
      for n := 0 to |rows|
        invariant Value() == RevokeFamilies(old(Value()), courier, now, n)
      {
        if rows[n].courier == courier {
          RevokeWholeFamily(rows[n].family, now);
        }
      }
      ghost var revoked := Value();
      var legacy := set s | s in sessions && sessions[s].courier == courier;
      var left := legacy;
      DropNothing(revoked);
      assert legacy - legacy == {};
      while left != {}
        invariant left <= legacy && Value() == WithoutSessions(revoked, legacy - left)
      {
        var s :| s in left;
        ghost var done := legacy - left;
        DropInTurn(revoked, done, {s});
        assert legacy - (left - {s}) == done + {s};
        DeleteAccessSession(s);
        left := left - {s};
      }
      assert legacy - {} == legacy;
    }
  }
}
