/** What every reachable credential table satisfies, and what never comes back. */
module TokenFamilies {
  import opened Common
  import opened Tokens

  // ----- the invariant ----------------------------------------------------------------------

  /** A token with an access session is live, and its session does not outlive it. */
  predicate SessionSound(t: Tables, token: Token) {
    token.session.Some? ==>
      (&& token.Live()
       && token.session.value in t.sessions
       && t.sessions[token.session.value].expiresAt <= token.expiresAt)
  }

  /** Token `i` is linked to the next token of its family, or is the family's last and unused. */
  ghost predicate Linked(tokens: seq<Token>, i: nat)
    requires i < |tokens|
  {
    match tokens[i].replacedBy
    case Some(j) =>
      && tokens[i].usedAt.Some?
      && i < j < |tokens|
      && tokens[j].family == tokens[i].family
      && forall k | i < k < j :: tokens[k].family != tokens[i].family
    case None =>
      && tokens[i].usedAt.None?
      && forall k | i < k < |tokens| :: tokens[k].family != tokens[i].family
  }

  ghost predicate Inv(t: Tables) {
    && (forall i | 0 <= i < |t.tokens| :: SessionSound(t, t.tokens[i]))
    && (forall i | 0 <= i < |t.tokens| :: Linked(t.tokens, i))
    && (forall i, j | 0 <= i < j < |t.tokens| ::
          t.tokens[i].session.None? || t.tokens[i].session != t.tokens[j].session)
    && (forall i, j | 0 <= i < j < |t.tokens| && t.tokens[i].family == t.tokens[j].family ::
          t.tokens[i].expiresAt == t.tokens[j].expiresAt && t.tokens[i].courier == t.tokens[j].courier)
    && (forall i, j | 0 <= i < j < |t.tokens| :: t.tokens[i].digest != t.tokens[j].digest)
    && (forall i | 0 <= i < |t.tokens| :: t.tokens[i].family < t.nextFamily)
    && (forall s | s in t.sessions :: s < t.nextSession)
  }

  /** A family has at most one usable token and at most one access session; its tokens share one
      expiry that the session does not outlive; and each used token is replaced by the next one. */
  lemma FamilyIsOneChain(t: Tables, i: nat, j: nat)
    requires Inv(t) && i < j < |t.tokens| && t.tokens[i].family == t.tokens[j].family
    ensures !t.tokens[i].Live() && t.tokens[i].session.None?
    ensures t.tokens[i].expiresAt == t.tokens[j].expiresAt
    ensures t.tokens[j].session.Some? ==> t.sessions[t.tokens[j].session.value].expiresAt <= t.tokens[i].expiresAt
    ensures t.tokens[i].replacedBy.Some? && i < t.tokens[i].replacedBy.value <= j
  {
    assert Linked(t.tokens, i) && SessionSound(t, t.tokens[i]) && SessionSound(t, t.tokens[j]);
  }

  // ----- every operation keeps it -----------------------------------------------------------

  /** Rows may be revoked and lose their sessions; nothing else about them changes. */
  predicate SameButEnded(a: Token, b: Token) {
    && b == a.(session := b.session, revokedAt := b.revokedAt)
    && (b.session == a.session || b.session.None?)
    && (b.revokedAt == a.revokedAt || (a.revokedAt.None? && b.session.None?))
  }

  ghost predicate OnlyEnds(a: Tables, b: Tables) {
    && |b.tokens| == |a.tokens|
    && (forall i | 0 <= i < |a.tokens| :: SameButEnded(a.tokens[i], b.tokens[i]))
    && (forall i | 0 <= i < |b.tokens| && b.tokens[i].session.Some? :: b.tokens[i].session.value in b.sessions)
    && (forall s | s in b.sessions :: s in a.sessions && b.sessions[s] == a.sessions[s])
    && b.nextFamily == a.nextFamily && b.nextSession == a.nextSession
  }

  lemma LinkedStays(a: seq<Token>, b: seq<Token>, i: nat)
    requires |a| == |b| && forall k | 0 <= k < |a| :: SameButEnded(a[k], b[k])
    requires i < |a| && Linked(a, i)
    ensures Linked(b, i)
  {
  }

  lemma EndsKeep(a: Tables, b: Tables)
    requires Inv(a) && OnlyEnds(a, b)
    ensures Inv(b)
  {
    forall i | 0 <= i < |b.tokens| ensures Linked(b.tokens, i) && SessionSound(b, b.tokens[i]) {
      assert Linked(a.tokens, i) && SessionSound(a, a.tokens[i]);
      LinkedStays(a.tokens, b.tokens, i);
    }
    hide Linked;
  }

  lemma EndsInTurn(a: Tables, b: Tables, c: Tables)
    requires OnlyEnds(a, b) && OnlyEnds(b, c)
    ensures OnlyEnds(a, c)
  {
    forall i | 0 <= i < |a.tokens| ensures SameButEnded(a.tokens[i], c.tokens[i]) {
      assert SameButEnded(a.tokens[i], b.tokens[i]) && SameButEnded(b.tokens[i], c.tokens[i]);
    }
  }

  lemma DropOnlyEnds(t: Tables, gone: set<nat>)
    requires Inv(t)
    ensures OnlyEnds(t, WithoutSessions(t, gone))
  {
    var t' := WithoutSessions(t, gone);
    forall i | 0 <= i < |t.tokens| ensures SameButEnded(t.tokens[i], t'.tokens[i])
      ensures t'.tokens[i].session.Some? ==> t'.tokens[i].session.value in t'.sessions
    {
      assert SessionSound(t, t.tokens[i]);
    }
  }

  lemma RevokeOnlyEnds(t: Tables, family: nat, at: int)
    requires Inv(t)
    ensures OnlyEnds(t, RevokeFamily(t, family, at))
  {
    var t' := RevokeFamily(t, family, at);
    forall i | 0 <= i < |t.tokens| ensures SameButEnded(t.tokens[i], t'.tokens[i])
      ensures t'.tokens[i].session.Some? ==> t'.tokens[i].session.value in t'.sessions
    {
      assert SessionSound(t, t.tokens[i]);
      if t.tokens[i].family == family && t.tokens[i].session.Some? {
        assert t.tokens[i].session.value in FamilySessions(t.tokens, family);
      }
    }
  }

  /** A revoked family has no usable token and no access session. */
  ghost predicate Dead(t: Tables, family: nat) {
    family < t.nextFamily
    && forall i | 0 <= i < |t.tokens| && t.tokens[i].family == family ::
         t.tokens[i].revokedAt.Some? && t.tokens[i].session.None?
  }

  lemma RevokedIsDead(t: Tables, family: nat, at: int)
    requires Inv(t) && family < t.nextFamily
    ensures Dead(RevokeFamily(t, family, at), family)
  {
    forall i | 0 <= i < |t.tokens| && t.tokens[i].family == family && t.tokens[i].session.Some?
      ensures t.tokens[i].session.value in FamilySessions(t.tokens, family)
    {
    }
  }

  lemma EndsKeepDead(a: Tables, b: Tables, family: nat)
    requires OnlyEnds(a, b) && Dead(a, family) && Inv(b)
    ensures Dead(b, family)
  {
    forall i | 0 <= i < |b.tokens| && b.tokens[i].family == family
      ensures b.tokens[i].revokedAt.Some? && b.tokens[i].session.None?
    {
      assert SameButEnded(a.tokens[i], b.tokens[i]);
      assert Linked(b.tokens, i);
    }
  }

  lemma {:induction false} FamiliesOnlyEnd(t: Tables, courier: nat, now: int, n: nat)
    requires Inv(t) && n <= |t.tokens|
    ensures OnlyEnds(t, RevokeFamilies(t, courier, now, n)) && Inv(RevokeFamilies(t, courier, now, n))
    ensures forall i | 0 <= i < n && t.tokens[i].courier == courier ::
      Dead(RevokeFamilies(t, courier, now, n), t.tokens[i].family)
  {
    hide Inv, OnlyEnds, Dead, RevokeFamily;
    if n == 0 {
      NothingEnds(t);
    } else {
      FamiliesOnlyEnd(t, courier, now, n - 1);
      var rest := RevokeFamilies(t, courier, now, n - 1);
      var all := RevokeFamilies(t, courier, now, n);
      if t.tokens[n - 1].courier == courier {
        var f := t.tokens[n - 1].family;
        RevokeOnlyEnds(rest, f, now);
        EndsKeep(rest, all);
        EndsInTurn(t, rest, all);
        FamilyKnown(t, rest, n - 1);
        RevokedIsDead(rest, f, now);
        forall i | 0 <= i < n && t.tokens[i].courier == courier ensures Dead(all, t.tokens[i].family) {
          if i < n - 1 { EndsKeepDead(rest, all, t.tokens[i].family); }
        }
      }
    }
  }

  lemma NothingEnds(t: Tables)
    requires Inv(t)
    ensures OnlyEnds(t, t)
  {
    forall i | 0 <= i < |t.tokens| ensures t.tokens[i].session.Some? ==> t.tokens[i].session.value in t.sessions {
      assert SessionSound(t, t.tokens[i]);
    }
  }

  lemma FamilyKnown(t: Tables, rest: Tables, i: nat)
    requires Inv(t) && OnlyEnds(t, rest) && i < |t.tokens|
    ensures t.tokens[i].family < rest.nextFamily
  {
  }

  // ----- minting ----------------------------------------------------------------------------

  lemma MintKeeps(t: Tables, courier: nat, mint: Digest, family: nat, accessUntil: int, until: int)
    requires Inv(t) && family == t.nextFamily && FindToken(t.tokens, mint).None?
    ensures Inv(Minted(t, courier, mint, family, accessUntil, until))
  {
    var t' := Minted(t, courier, mint, family, accessUntil, until);
    var n := |t.tokens|;
    forall i | 0 <= i < n + 1 ensures Linked(t'.tokens, i) && SessionSound(t', t'.tokens[i]) {
      if i < n {
        assert Linked(t.tokens, i) && SessionSound(t, t.tokens[i]);
      }
    }
    forall i | 0 <= i < n ensures t.tokens[i].session != Some(t.nextSession) {
      assert SessionSound(t, t.tokens[i]);
    }
    hide Linked, SessionSound;
  }

  /** The tables after token `p` was replaced by a new one: every other row stays. */
  ghost predicate Replaced(t: Tables, t': Tables, p: nat, mint: Digest, now: int, accessUntil: int) {
    var n := |t.tokens|;
    && p < n && |t'.tokens| == n + 1
    && t'.tokens[p] == t.tokens[p].(usedAt := Some(now), session := None, replacedBy := Some(n))
    && t'.tokens[n] == Token(t.tokens[p].courier, Some(t.nextSession), mint, t.tokens[p].family, t.tokens[p].expiresAt, None, None, None)
    && (forall i | 0 <= i < n && i != p :: t'.tokens[i] == t.tokens[i])
    && t'.sessions == (if t.tokens[p].session.Some? then t.sessions - {t.tokens[p].session.value} else t.sessions)
         [t.nextSession := Session(t.tokens[p].courier, Min(accessUntil, t.tokens[p].expiresAt))]
    && t'.nextSession == t.nextSession + 1 && t'.nextFamily == t.nextFamily
  }

  /** A rotation succeeds only on a usable, unexpired token of an active courier; it uses that token up,
      ends its session, and mints the one token and session that replace it. */
  lemma RotatedRows(t: Tables, d: Digest, mint: Digest, now: int, later: int, accessTtl: int)
    requires Inv(t) && Rotate(t, d, mint, now, later, accessTtl).result.Some?
    ensures FindToken(t.tokens, d).Some?
    ensures var r, p := Rotate(t, d, mint, now, later, accessTtl), FindToken(t.tokens, d).value;
      && r.result == Some(Issued(|t.tokens|, t.nextSession))
      && t.tokens[p].Live() && now < t.tokens[p].expiresAt && Active(t, t.tokens[p].courier)
      && FindToken(t.tokens, mint).None?
      && Replaced(t, r.tables, p, mint, now, later + accessTtl)
  {
    hide FindToken;
    var p := FindToken(t.tokens, d).value;
    forall i | 0 <= i < |t.tokens| && i != p ensures
      t.tokens[p].session.Some? ==> t.tokens[i].session != t.tokens[p].session {
    }
  }

  lemma ReplacedLinked(t: Tables, t': Tables, p: nat, mint: Digest, now: int, accessUntil: int, i: nat)
    requires Replaced(t, t', p, mint, now, accessUntil) && t.tokens[p].usedAt.None?
    requires forall k | 0 <= k < |t.tokens| :: Linked(t.tokens, k)
    requires i <= |t.tokens|
    ensures Linked(t'.tokens, i)
  {
    assert Linked(t.tokens, p);
    if i < |t.tokens| {
      assert Linked(t.tokens, i);
    }
  }

  lemma ReplacedSessions(t: Tables, t': Tables, p: nat, mint: Digest, now: int, accessUntil: int)
    requires Inv(t) && Replaced(t, t', p, mint, now, accessUntil) && t.tokens[p].usedAt.None?
    ensures forall i | 0 <= i < |t'.tokens| :: SessionSound(t', t'.tokens[i])
    ensures forall i, j | 0 <= i < j < |t'.tokens| ::
      t'.tokens[i].session.None? || t'.tokens[i].session != t'.tokens[j].session
    ensures forall s | s in t'.sessions :: s < t'.nextSession
  {
    hide Linked;
    forall i | 0 <= i < |t.tokens| ensures t.tokens[i].session != Some(t.nextSession) {
      assert SessionSound(t, t.tokens[i]);
    }
    forall i | 0 <= i < |t'.tokens| ensures SessionSound(t', t'.tokens[i]) {
      if i < |t.tokens| { assert SessionSound(t, t.tokens[i]); }
    }
  }

  lemma ReplacedFamilies(t: Tables, t': Tables, p: nat, mint: Digest, now: int, accessUntil: int)
    requires Inv(t) && Replaced(t, t', p, mint, now, accessUntil) && FindToken(t.tokens, mint).None?
    ensures forall i, j | 0 <= i < j < |t'.tokens| && t'.tokens[i].family == t'.tokens[j].family ::
      t'.tokens[i].expiresAt == t'.tokens[j].expiresAt && t'.tokens[i].courier == t'.tokens[j].courier
    ensures forall i, j | 0 <= i < j < |t'.tokens| :: t'.tokens[i].digest != t'.tokens[j].digest
    ensures forall i | 0 <= i < |t'.tokens| :: t'.tokens[i].family < t'.nextFamily
  {
    hide Linked, SessionSound, FindToken;
    forall i | 0 <= i < |t.tokens| ensures
      && t'.tokens[i].digest == t.tokens[i].digest && t'.tokens[i].family == t.tokens[i].family
      && t'.tokens[i].expiresAt == t.tokens[i].expiresAt && t'.tokens[i].courier == t.tokens[i].courier
    {
    }
  }

  lemma RotateKeeps(t: Tables, d: Digest, mint: Digest, now: int, later: int, accessTtl: int)
    requires Inv(t) && Rotate(t, d, mint, now, later, accessTtl).result.Some?
    ensures Inv(Rotate(t, d, mint, now, later, accessTtl).tables)
  {
    hide Rotate, FindToken, Linked, SessionSound, Replaced;
    RotatedRows(t, d, mint, now, later, accessTtl);
    var t', p := Rotate(t, d, mint, now, later, accessTtl).tables, FindToken(t.tokens, d).value;
    ReplacedSessions(t, t', p, mint, now, later + accessTtl);
    ReplacedFamilies(t, t', p, mint, now, later + accessTtl);
    assert |t'.tokens| == |t.tokens| + 1 by { ReplacedLength(t, t', p, mint, now, later + accessTtl); }
    forall i | 0 <= i < |t'.tokens| ensures Linked(t'.tokens, i) {
      ReplacedLinked(t, t', p, mint, now, later + accessTtl, i);
    }
  }

  lemma ReplacedLength(t: Tables, t': Tables, p: nat, mint: Digest, now: int, accessUntil: int)
    requires Replaced(t, t', p, mint, now, accessUntil)
    ensures |t'.tokens| == |t.tokens| + 1
  {
  }

  // ----- any operation ----------------------------------------------------------------------

  lemma RefusedRotate(t: Tables, d: Digest, mint: Digest, now: int, later: int, accessTtl: int)
    requires Inv(t) && Rotate(t, d, mint, now, later, accessTtl).result.None?
    ensures OnlyEnds(t, Rotate(t, d, mint, now, later, accessTtl).tables)
  {
    NothingEnds(t);
    var found := FindToken(t.tokens, d);
    if found.Some? {
      RevokeOnlyEnds(t, t.tokens[found.value].family, now);
    }
    hide OnlyEnds, RevokeFamily, Inv, FindToken;
  }

  lemma RevokeAllEnds(t: Tables, courier: nat, now: int)
    requires Inv(t)
    ensures OnlyEnds(t, RevokeAll(t, courier, now))
  {
    FamiliesOnlyEnd(t, courier, now, |t.tokens|);
    var revoked := RevokeFamilies(t, courier, now, |t.tokens|);
    DropOnlyEnds(revoked, SessionsOf(revoked, courier));
    EndsInTurn(t, revoked, RevokeAll(t, courier, now));
    hide OnlyEnds, RevokeFamilies;
  }

  predicate Mints(t: Tables, cmd: Command) {
    || (cmd.DoIssueSession? && IssueSession(t, cmd.courier, cmd.mint, cmd.now, cmd.accessTtl, cmd.refreshTtl).result.Some?)
    || (cmd.DoRotate? && Rotate(t, cmd.digest, cmd.mint, cmd.now, cmd.later, cmd.accessTtl).result.Some?)
  }

  lemma ApplyEnds(t: Tables, cmd: Command)
    requires Inv(t) && !Mints(t, cmd)
    ensures OnlyEnds(t, Apply(t, cmd))
  {
    NothingEnds(t);
    match cmd
    case DoRotate(d, mint, now, later, a) => RefusedRotate(t, d, mint, now, later, a);
    case DoRevokeRefresh(d, now) =>
      if FindToken(t.tokens, d).Some? { RevokeOnlyEnds(t, t.tokens[FindToken(t.tokens, d).value].family, now); }
    case DoRevokeAccess(session, now) =>
      if HolderOf(t.tokens, session).Some? { RevokeOnlyEnds(t, t.tokens[HolderOf(t.tokens, session).value].family, now); }
      DropOnlyEnds(t, {session});
    case DoRevokeAll(courier, now) => RevokeAllEnds(t, courier, now);
    case DoDropSession(session) => DropOnlyEnds(t, {session});
    case DoSetActive(courier, active) => SameTokensEnd(t, Apply(t, cmd));
    case DoIssueClaim(courier, mint, now, ttl) => SameTokensEnd(t, Apply(t, cmd));
    case DoConsumeClaim(d, now) => SameTokensEnd(t, Apply(t, cmd));
    case DoIssueSession(courier, mint, now, a, r) => {}
  }

  lemma SameTokensEnd(a: Tables, b: Tables)
    requires Inv(a) && b == a.(couriers := b.couriers, claims := b.claims)
    ensures OnlyEnds(a, b)
  {
    NothingEnds(a);
  }

  lemma ApplyKeeps(t: Tables, cmd: Command)
    requires Inv(t)
    ensures Inv(Apply(t, cmd))
  {
    hide Inv, OnlyEnds, RevokeFamily, RevokeAll, FindToken;
    if Mints(t, cmd) {
      if cmd.DoRotate? {
        RotateKeeps(t, cmd.digest, cmd.mint, cmd.now, cmd.later, cmd.accessTtl);
      } else {
        MintKeeps(t, cmd.courier, cmd.mint, t.nextFamily, cmd.now + cmd.accessTtl, cmd.now + cmd.refreshTtl);
      }
    } else {
      ApplyEnds(t, cmd);
      EndsKeep(t, Apply(t, cmd));
    }
  }

  /** A dead family stays dead whatever happens. */
  lemma ApplyKeepsDead(t: Tables, cmd: Command, family: nat)
    requires Inv(t) && Dead(t, family)
    ensures Dead(Apply(t, cmd), family)
  {
    ApplyKeeps(t, cmd);
    if Mints(t, cmd) {
      if cmd.DoRotate? {
        RotatedRows(t, cmd.digest, cmd.mint, cmd.now, cmd.later, cmd.accessTtl);
        hide Rotate, Inv, FindToken;
      } else {
        hide Inv, FindToken;
      }
    } else {
      ApplyEnds(t, cmd);
      EndsKeepDead(t, Apply(t, cmd), family);
    }
  }
}
