/** Exactly when each credential operation succeeds, and everything it then leaves. */
module TokenOutcomes {
  import opened Common
  import opened Tokens
  import opened TokenFamilies
  import opened TokenRuns

  // ----- ending families --------------------------------------------------------------------

  /** A row of one of the families holds this session. */
  predicate HeldBy(tokens: seq<Token>, families: set<nat>, s: nat) {
    exists i :: 0 <= i < |tokens| && tokens[i].family in families && tokens[i].session == Some(s)
  }

  /** Every row of the families is revoked, at `at` if it was not before, and has lost its session, which
      is gone; all else stays. */
  ghost predicate Ended(t: Tables, t': Tables, families: set<nat>, at: int) {
    && t' == t.(tokens := t'.tokens, sessions := t'.sessions) && |t'.tokens| == |t.tokens|
    && (forall i | 0 <= i < |t.tokens| ::
          var a := t.tokens[i];
          t'.tokens[i] == if a.family in families
            then a.(session := None, revokedAt := if a.revokedAt.None? then Some(at) else a.revokedAt) else a)
    && (forall s :: s in t'.sessions <==> s in t.sessions && !HeldBy(t.tokens, families, s))
    && (forall s | s in t'.sessions :: t'.sessions[s] == t.sessions[s])
  }

  lemma FamilyEnds(t: Tables, family: nat, at: int)
    requires Inv(t)
    ensures Ended(t, RevokeFamily(t, family, at), {family}, at)
  {
    hide Linked, SessionSound;
    var t' := RevokeFamily(t, family, at);
    var gone := FamilySessions(t.tokens, family);
    forall s: nat ensures s in gone <==> HeldBy(t.tokens, {family}, s) { }
    forall i | 0 <= i < |t.tokens| && t.tokens[i].family != family && t.tokens[i].session.Some?
      ensures t.tokens[i].session.value !in gone
    {
    }
  }

  lemma EndedInTurn(a: Tables, b: Tables, c: Tables, families: set<nat>, family: nat, at: int)
    requires Ended(a, b, families, at) && Ended(b, c, {family}, at)
    ensures Ended(a, c, families + {family}, at)
  {
    forall s: nat ensures HeldBy(a.tokens, families + {family}, s) <==> HeldBy(a.tokens, families, s) || HeldBy(b.tokens, {family}, s) {
      if i :| 0 <= i < |a.tokens| && a.tokens[i].family in families + {family} && a.tokens[i].session == Some(s) {
        if a.tokens[i].family !in families { assert b.tokens[i] == a.tokens[i]; }
      }
      if i :| 0 <= i < |b.tokens| && b.tokens[i].family in {family} && b.tokens[i].session == Some(s) {
        assert a.tokens[i].session == Some(s) && a.tokens[i].family == family;
      }
    }
  }

  // ----- rotation ---------------------------------------------------------------------------

  /** A rotation succeeds exactly on a token that is neither used nor revoked nor expired, of an active
      courier, if the new one is really new; then the token is replaced. A used token, and one of an
      inactive courier, ends its family; any other refusal changes nothing. */
  lemma RotateComes(t: Tables, d: Digest, mint: Digest, now: int, later: int, accessTtl: int, p: nat)
    requires Inv(t) && p < |t.tokens| && t.tokens[p].digest == d
    ensures var r, row := Rotate(t, d, mint, now, later, accessTtl), t.tokens[p];
      var usable := row.usedAt.None? && row.revokedAt.None? && now < row.expiresAt;
      && (r.result.Some? <==> usable && Active(t, row.courier) && forall x | x in t.tokens :: x.digest != mint)
      && (r.result.Some? ==>
            r.result.value == Issued(|t.tokens|, t.nextSession) && Replaced(t, r.tables, p, mint, now, later + accessTtl))
      && (r.result.None? ==>
            if row.usedAt.Some? || (usable && !Active(t, row.courier)) then Ended(t, r.tables, {row.family}, now) else r.tables == t)
  {
    SameToken(t, p, d);
    FreshIs(t.tokens, mint);
    FamilyEnds(t, t.tokens[p].family, now);
    if Rotate(t, d, mint, now, later, accessTtl).result.Some? {
      RotatedRows(t, d, mint, now, later, accessTtl);
    }
    hide FindToken, Inv, RevokeFamily, Ended, Replaced;
  }

  lemma FreshIs(tokens: seq<Token>, mint: Digest)
    ensures FindToken(tokens, mint).None? <==> forall x | x in tokens :: x.digest != mint
  {
    hide FindToken;
    var found := FindToken(tokens, mint);
    if found.Some? { assert tokens[found.value] in tokens; }
  }

  lemma UnknownIsRefused(t: Tables, d: Digest, mint: Digest, now: int, later: int, accessTtl: int)
    requires forall x | x in t.tokens :: x.digest != d
    ensures Rotate(t, d, mint, now, later, accessTtl) == Outcome(t, None) && RevokeRefresh(t, d, now) == t
  {
    FreshIs(t.tokens, d);
    hide FindToken;
  }

  // ----- a first session --------------------------------------------------------------------

  /** An active courier gets a session and a token of a new family, which the session does not outlive. */
  lemma IssueComes(t: Tables, courier: nat, mint: Digest, now: int, accessTtl: int, refreshTtl: int)
    ensures var r := IssueSession(t, courier, mint, now, accessTtl, refreshTtl);
      if courier in t.couriers && t.couriers[courier] && forall x | x in t.tokens :: x.digest != mint then
        && r.result == Some(Issued(|t.tokens|, t.nextSession))
        && r.tables.tokens == t.tokens + [Token(courier, Some(t.nextSession), mint, t.nextFamily, now + refreshTtl, None, None, None)]
        && r.tables.sessions == t.sessions[t.nextSession := Session(courier, now + Min(accessTtl, refreshTtl))]
        && r.tables.nextSession == t.nextSession + 1 && r.tables.nextFamily == t.nextFamily + 1
        && r.tables.couriers == t.couriers && r.tables.claims == t.claims
      else r == Outcome(t, None)
  {
    FreshIs(t.tokens, mint);
    hide FindToken;
  }

  // ----- claims -----------------------------------------------------------------------------

  lemma FreshClaimIs(claims: seq<Claim>, mint: Digest)
    ensures FindClaim(claims, mint).None? <==> forall x | x in claims :: x.digest != mint
  {
    hide FindClaim;
    var found := FindClaim(claims, mint);
    if found.Some? { assert claims[found.value] in claims; }
  }

  /** A new claim for an active courier ends the courier's open ones, touches nobody else's, and expires
      after its time. */
  lemma ClaimComes(t: Tables, courier: nat, mint: Digest, now: int, ttl: int)
    ensures var r, n := IssueClaim(t, courier, mint, now, ttl), |t.claims|;
      if courier in t.couriers && t.couriers[courier] && forall x | x in t.claims :: x.digest != mint then
        && r.result == Some(n) && r.tables == t.(claims := r.tables.claims) && |r.tables.claims| == n + 1
        && r.tables.claims[n] == Claim(courier, mint, now + ttl, None, None)
        && forall i | 0 <= i < n ::
             var c := t.claims[i];
             r.tables.claims[i] == if c.courier == courier && c.consumedAt.None? && c.revokedAt.None? then c.(revokedAt := Some(now)) else c
      else r == Outcome(t, None)
  {
    FreshClaimIs(t.claims, mint);
    hide FindClaim;
  }

  /** A claim logs its courier in exactly while it is open, unexpired, and the courier active; it is then
      used up. */
  lemma ConsumeComes(t: Tables, d: Digest, now: int, p: nat)
    requires ClaimsInv(t.claims) && p < |t.claims| && t.claims[p].digest == d
    ensures var r, c := ConsumeClaim(t, d, now), t.claims[p];
      if Active(t, c.courier) && c.consumedAt.None? && c.revokedAt.None? && now < c.expiresAt then
        r == Outcome(t.(claims := t.claims[p := c.(consumedAt := Some(now))]), Some(c.courier))
      else r == Outcome(t, None)
  {
    hide FindClaim;
    var found := FindClaim(t.claims, d);
    assert found.Some? && found.value == p;
  }

  lemma UnknownClaim(t: Tables, d: Digest, now: int)
    requires forall x | x in t.claims :: x.digest != d
    ensures ConsumeClaim(t, d, now) == Outcome(t, None)
  {
    FreshClaimIs(t.claims, d);
    hide FindClaim;
  }

  // ----- revocation -------------------------------------------------------------------------

  lemma RevokeRefreshComes(t: Tables, d: Digest, now: int, p: nat)
    requires Inv(t) && p < |t.tokens| && t.tokens[p].digest == d
    ensures Ended(t, RevokeRefresh(t, d, now), {t.tokens[p].family}, now)
  {
    SameToken(t, p, d);
    FamilyEnds(t, t.tokens[p].family, now);
    hide Inv, FindToken, RevokeFamily, Ended;
  }

  /** Revoking an access session ends the family that holds it, or just the session where none does. */
  lemma RevokeAccessComes(t: Tables, session: nat, now: int)
    requires Inv(t)
    ensures var r := RevokeAccess(t, session, now);
      && (session !in t.sessions ==> r == t)
      && (forall i | 0 <= i < |t.tokens| && t.tokens[i].session == Some(session) && session in t.sessions ::
            Ended(t, r, {t.tokens[i].family}, now))
      && ((forall i | 0 <= i < |t.tokens| :: t.tokens[i].session != Some(session)) ==> r == t.(sessions := t.sessions - {session}))
  {
    hide HolderOf, Linked, SessionSound;
    var holder := HolderOf(t.tokens, session);
    if holder.Some? {
      FamilyEnds(t, t.tokens[holder.value].family, now);
      forall i | 0 <= i < |t.tokens| && t.tokens[i].session == Some(session) ensures i == holder.value { }
      hide RevokeFamily, Ended, Inv;
    } else if session in t.sessions {
      var r := RevokeAccess(t, session, now);
      assert r.tokens == t.tokens;
    } else {
      assert t.sessions - {session} == t.sessions;
    }
  }

  function FamiliesOf(tokens: seq<Token>, courier: nat, n: nat): set<nat>
    requires n <= |tokens|
  {
    set i | 0 <= i < n && tokens[i].courier == courier :: tokens[i].family
  }

  lemma {:induction false} FamiliesEnd(t: Tables, courier: nat, now: int, n: nat)
    requires Inv(t) && n <= |t.tokens|
    ensures Ended(t, RevokeFamilies(t, courier, now, n), FamiliesOf(t.tokens, courier, n), now)
  {
    hide Inv, Ended, RevokeFamily;
    if n == 0 {
      NoneEnded(t, now);
      assert FamiliesOf(t.tokens, courier, 0) == {};
    } else {
      FamiliesEnd(t, courier, now, n - 1);
      FamiliesOnlyEnd(t, courier, now, n - 1);
      var rest := RevokeFamilies(t, courier, now, n - 1);
      var before := FamiliesOf(t.tokens, courier, n - 1);
      if t.tokens[n - 1].courier == courier {
        var f := t.tokens[n - 1].family;
        FamilyEnds(rest, f, now);
        EndedInTurn(t, rest, RevokeFamily(rest, f, now), before, f, now);
        assert FamiliesOf(t.tokens, courier, n) == before + {f};
      } else {
        assert FamiliesOf(t.tokens, courier, n) == before;
      }
    }
  }

  lemma NoneEnded(t: Tables, now: int)
    ensures Ended(t, t, {}, now)
  {
  }

  /** Resetting a courier's logins revokes all the courier's tokens and leaves none of the courier's
      sessions; another courier's token is left as it is, unless it pointed at such a session. */
  lemma RevokeAllComes(t: Tables, courier: nat, now: int)
    requires Inv(t)
    ensures var r := RevokeAll(t, courier, now);
      && r == t.(tokens := r.tokens, sessions := r.sessions) && |r.tokens| == |t.tokens|
      && (forall i | 0 <= i < |t.tokens| ::
            var a := t.tokens[i];
            r.tokens[i] == if a.courier == courier
              then a.(session := None, revokedAt := if a.revokedAt.None? then Some(now) else a.revokedAt)
              else if a.session.Some? && a.session.value in t.sessions && t.sessions[a.session.value].courier == courier
              then a.(session := None) else a)
      && (forall s :: s in r.sessions <==>
            && s in t.sessions && t.sessions[s].courier != courier
            && forall i | 0 <= i < |t.tokens| && t.tokens[i].courier == courier :: t.tokens[i].session != Some(s))
      && (forall s | s in r.sessions :: r.sessions[s] == t.sessions[s])
  {
    var n := |t.tokens|;
    FamiliesEnd(t, courier, now, n);
    var revoked, fs := RevokeFamilies(t, courier, now, n), FamiliesOf(t.tokens, courier, n);
    forall i | 0 <= i < n ensures t.tokens[i].family in fs <==> t.tokens[i].courier == courier {
      CourierOfFamily(t, courier, i);
    }
    SessionsHeld(t);
    hide RevokeFamilies, Inv;
  }

  lemma CourierOfFamily(t: Tables, courier: nat, i: nat)
    requires Inv(t) && i < |t.tokens|
    ensures t.tokens[i].family in FamiliesOf(t.tokens, courier, |t.tokens|) <==> t.tokens[i].courier == courier
  {
    hide Linked, SessionSound;
    if t.tokens[i].family in FamiliesOf(t.tokens, courier, |t.tokens|) {
      var j :| 0 <= j < |t.tokens| && t.tokens[j].courier == courier && t.tokens[j].family == t.tokens[i].family;
    }
  }

  lemma SessionsHeld(t: Tables)
    requires Inv(t)
    ensures forall i | 0 <= i < |t.tokens| && t.tokens[i].session.Some? :: t.tokens[i].session.value in t.sessions
    ensures forall i, j | 0 <= i < |t.tokens| && 0 <= j < |t.tokens| && i != j && t.tokens[i].session.Some? ::
      t.tokens[i].session != t.tokens[j].session
  {
    forall i | 0 <= i < |t.tokens| ensures SessionSound(t, t.tokens[i]) { }
  }
}
