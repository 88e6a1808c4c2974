/** Credentials over whole runs, with arbitrary clocks. */
module TokenRuns {
  import opened Common
  import opened Tokens
  import opened TokenFamilies

  // ----- claims -----------------------------------------------------------------------------

  /** Claim digests are distinct, and a courier has at most one outstanding claim. */
  ghost predicate ClaimsInv(claims: seq<Claim>) {
    && (forall i, j | 0 <= i < j < |claims| :: claims[i].digest != claims[j].digest)
    && (forall i, j | 0 <= i < j < |claims| && Outstanding(claims[i], claims[i].courier) && Outstanding(claims[j], claims[j].courier) ::
          claims[i].courier != claims[j].courier)
    && (forall i | 0 <= i < |claims| :: claims[i].consumedAt.None? || claims[i].revokedAt.None?)
  }

  /** Claims are only ever appended, consumed or revoked. */
  ghost predicate ClaimsMoveOn(a: seq<Claim>, b: seq<Claim>) {
    && |a| <= |b|
    && forall i | 0 <= i < |a| ::
         && b[i].digest == a[i].digest && b[i].courier == a[i].courier
         && (a[i].consumedAt.Some? || a[i].revokedAt.Some? ==> b[i] == a[i])
  }

  lemma ClaimStep(t: Tables, cmd: Command)
    requires ClaimsInv(t.claims)
    ensures ClaimsInv(Apply(t, cmd).claims) && ClaimsMoveOn(t.claims, Apply(t, cmd).claims)
  {
    match cmd {
      case DoIssueClaim(courier, mint, now, ttl) =>
      case DoConsumeClaim(d, now) =>
      case _ => OtherCommandsLeaveClaims(t, cmd);
    }
    hide FindClaim;
  }

  lemma OtherCommandsLeaveClaims(t: Tables, cmd: Command)
    requires !cmd.DoIssueClaim? && !cmd.DoConsumeClaim?
    ensures Apply(t, cmd).claims == t.claims
  {
    if cmd.DoRevokeAll? {
      FamiliesLeaveClaims(t, cmd.courier, cmd.now, |t.tokens|);
    }
    hide RevokeFamilies;
  }

  lemma {:induction false} FamiliesLeaveClaims(t: Tables, courier: nat, now: int, n: nat)
    requires n <= |t.tokens|
    ensures RevokeFamilies(t, courier, now, n).claims == t.claims
  {
    if n > 0 { FamiliesLeaveClaims(t, courier, now, n - 1); }
  }

  // ----- runs -------------------------------------------------------------------------------

  ghost predicate IsRun(run: seq<Tables>, cmds: seq<Command>) {
    && |run| == |cmds| + 1
    && Inv(run[0]) && ClaimsInv(run[0].claims)
    && forall i | 0 <= i < |cmds| :: run[i + 1] == Apply(run[i], cmds[i])
  }

  lemma NoCredentials(couriers: map<nat, bool>)
    ensures Inv(Tables(couriers, [], [], map[], 0, 0)) && ClaimsInv([])
  {
  }

  lemma {:induction false} RunKeeps(run: seq<Tables>, cmds: seq<Command>, i: nat)
    requires IsRun(run, cmds) && i < |run|
    ensures Inv(run[i]) && ClaimsInv(run[i].claims)
  {
    hide Inv, ClaimsInv, Apply;
    if i > 0 {
      RunKeeps(run, cmds, i - 1);
      ApplyKeeps(run[i - 1], cmds[i - 1]);
      ClaimStep(run[i - 1], cmds[i - 1]);
    }
  }

  /** In every reachable state, of two tokens of one family the earlier is not usable and has no
      session, both share one expiry that no session of the family outlives, and the earlier was
      replaced by a token no later than the other. */
  lemma FamiliesAreChains(run: seq<Tables>, cmds: seq<Command>, k: nat, i: nat, j: nat)
    requires IsRun(run, cmds) && k < |run|
    requires i < j < |run[k].tokens| && run[k].tokens[i].family == run[k].tokens[j].family
    ensures var ts := run[k].tokens;
      && !ts[i].Live() && ts[i].session.None?
      && ts[i].expiresAt == ts[j].expiresAt
      && (ts[j].session.Some? ==>
            (&& ts[j].session.value in run[k].sessions
             && run[k].sessions[ts[j].session.value].expiresAt <= ts[i].expiresAt))
      && ts[i].replacedBy.Some? && i < ts[i].replacedBy.value <= j
      && ts[ts[i].replacedBy.value].family == ts[i].family
  {
    RunKeeps(run, cmds, k);
    FamilyIsOneChain(run[k], i, j);
    assert Linked(run[k].tokens, i) && SessionSound(run[k], run[k].tokens[j]);
    hide IsRun, Inv, Linked;
  }

  // ----- dead families ----------------------------------------------------------------------

  lemma {:induction false} DeadForever(run: seq<Tables>, cmds: seq<Command>, i: nat, j: nat, family: nat)
    requires IsRun(run, cmds) && i <= j < |run| && Dead(run[i], family)
    ensures Dead(run[j], family)
    decreases j
  {
    hide Inv, ClaimsInv, Dead, Apply;
    if i < j {
      DeadForever(run, cmds, i, j - 1, family);
      RunKeeps(run, cmds, j - 1);
      ApplyKeepsDead(run[j - 1], cmds[j - 1], family);
    }
  }

  /** The families a command kills: that of a replayed token or of an inactive courier's token, that of
      a revoked refresh token or access session, and every family of a courier whose logins are reset. */
  predicate Kills(t: Tables, cmd: Command, i: nat)
    requires i < |t.tokens|
  {
    match cmd
    case DoRotate(d, _, now, _, _) =>
      var p := FindToken(t.tokens, d);
      && p.Some? && t.tokens[p.value].family == t.tokens[i].family
      && (|| t.tokens[p.value].usedAt.Some?
          || (t.tokens[p.value].revokedAt.None? && now < t.tokens[p.value].expiresAt && !Active(t, t.tokens[p.value].courier)))
    case DoRevokeRefresh(d, _) =>
      var p := FindToken(t.tokens, d); p.Some? && t.tokens[p.value].family == t.tokens[i].family
    case DoRevokeAccess(session, _) =>
      var p := HolderOf(t.tokens, session); p.Some? && t.tokens[p.value].family == t.tokens[i].family
    case DoRevokeAll(courier, _) => t.tokens[i].courier == courier
    case _ => false
  }

  lemma KillsAtOnce(t: Tables, cmd: Command, i: nat)
    requires Inv(t) && i < |t.tokens| && Kills(t, cmd, i)
    ensures Dead(Apply(t, cmd), t.tokens[i].family)
  {
    var f := t.tokens[i].family;
    assert f < t.nextFamily;
    match cmd
    case DoRevokeAll(courier, now) =>
      FamiliesOnlyEnd(t, courier, now, |t.tokens|);
      var revoked := RevokeFamilies(t, courier, now, |t.tokens|);
      DropOnlyEnds(revoked, SessionsOf(revoked, courier));
      EndsKeep(revoked, Apply(t, cmd));
      EndsKeepDead(revoked, Apply(t, cmd), f);
    case DoRotate(d, mint, now, later, a) => RevokedIsDead(t, f, now);
    case DoRevokeRefresh(d, now) => RevokedIsDead(t, f, now);
    case DoRevokeAccess(session, now) =>
      RevokedIsDead(t, f, now);
      assert SessionSound(t, t.tokens[HolderOf(t.tokens, session).value]);
  }

  /** Once a used token is replayed, or a family is revoked in any other way, the family has no usable
      token and no access session in any later state. */
  lemma KilledForGood(run: seq<Tables>, cmds: seq<Command>, i: nat, j: nat, k: nat)
    requires IsRun(run, cmds) && i < j < |run| && k < |run[i].tokens| && Kills(run[i], cmds[i], k)
    ensures forall x | 0 <= x < |run[j].tokens| && run[j].tokens[x].family == run[i].tokens[k].family ::
      !run[j].tokens[x].Live() && run[j].tokens[x].session.None?
  {
    RunKeeps(run, cmds, i);
    KillsAtOnce(run[i], cmds[i], k);
    assert run[i + 1] == Apply(run[i], cmds[i]);
    DeadForever(run, cmds, i + 1, j, run[i].tokens[k].family);
    hide IsRun, Inv, Kills, Apply;
  }

  // ----- one time ---------------------------------------------------------------------------

  /** Tokens keep their digest and family, and a used one stays used. */
  ghost predicate TokensMoveOn(a: seq<Token>, b: seq<Token>) {
    && |a| <= |b|
    && forall i | 0 <= i < |a| ::
         b[i].digest == a[i].digest && b[i].family == a[i].family && (a[i].usedAt.Some? ==> b[i].usedAt.Some?)
  }

  lemma TokenStep(t: Tables, cmd: Command)
    requires Inv(t)
    ensures TokensMoveOn(t.tokens, Apply(t, cmd).tokens)
  {
    if Mints(t, cmd) {
      if cmd.DoRotate? {
        RotatedRows(t, cmd.digest, cmd.mint, cmd.now, cmd.later, cmd.accessTtl);
        hide Rotate, Inv, FindToken;
      } else {
        hide Inv, FindToken;
      }
    } else {
      ApplyEnds(t, cmd);
      hide Apply, Inv;
      forall i | 0 <= i < |t.tokens| ensures SameButEnded(t.tokens[i], Apply(t, cmd).tokens[i]) {
      }
    }
  }

  lemma {:induction false} TokensOverRun(run: seq<Tables>, cmds: seq<Command>, i: nat, j: nat)
    requires IsRun(run, cmds) && i <= j < |run|
    ensures TokensMoveOn(run[i].tokens, run[j].tokens)
    decreases j
  {
    hide Inv, ClaimsInv, Apply;
    if i < j {
      TokensOverRun(run, cmds, i, j - 1);
      RunKeeps(run, cmds, j - 1);
      TokenStep(run[j - 1], cmds[j - 1]);
    }
  }

  /** A refresh token rotates at most once in any run, and presenting it again kills its family. */
  lemma RefreshTokenIsOneTime(run: seq<Tables>, cmds: seq<Command>, i: nat, j: nat)
    requires IsRun(run, cmds) && i < j < |cmds| && cmds[i].DoRotate? && cmds[j].DoRotate?
    requires cmds[j].digest == cmds[i].digest
    requires Rotate(run[i], cmds[i].digest, cmds[i].mint, cmds[i].now, cmds[i].later, cmds[i].accessTtl).result.Some?
    ensures FindToken(run[i].tokens, cmds[i].digest).Some?
    ensures Rotate(run[j], cmds[j].digest, cmds[j].mint, cmds[j].now, cmds[j].later, cmds[j].accessTtl).result.None?
    ensures Dead(run[j + 1], run[i].tokens[FindToken(run[i].tokens, cmds[i].digest).value].family)
  {
    RunKeeps(run, cmds, i);
    RunKeeps(run, cmds, j);
    RotatedRows(run[i], cmds[i].digest, cmds[i].mint, cmds[i].now, cmds[i].later, cmds[i].accessTtl);
    var p := FindToken(run[i].tokens, cmds[i].digest).value;
    assert run[i + 1] == Apply(run[i], cmds[i]);
    assert run[i + 1].tokens[p].usedAt.Some?;
    TokensOverRun(run, cmds, i, j);
    TokensOverRun(run, cmds, i + 1, j);
    SameToken(run[j], p, cmds[j].digest);
    KillsAtOnce(run[j], cmds[j], p);
    assert run[j + 1] == Apply(run[j], cmds[j]);
    hide IsRun, Inv, RevokeFamily;
  }

  lemma SameToken(t: Tables, p: nat, d: Digest)
    requires Inv(t) && p < |t.tokens| && t.tokens[p].digest == d
    ensures FindToken(t.tokens, d) == Some(p)
  {
    hide FindToken;
    var q := FindToken(t.tokens, d);
    assert q.Some?;
  }

  lemma {:induction false} ClaimsOverRun(run: seq<Tables>, cmds: seq<Command>, i: nat, j: nat)
    requires IsRun(run, cmds) && i <= j < |run|
    ensures ClaimsMoveOn(run[i].claims, run[j].claims)
    decreases j
  {
    hide Inv, ClaimsInv, Apply;
    if i < j {
      ClaimsOverRun(run, cmds, i, j - 1);
      RunKeeps(run, cmds, j - 1);
      ClaimStep(run[j - 1], cmds[j - 1]);
    }
  }

  /** A login claim is consumed at most once in any run, and only before it expires; issuing a new one
      ends the courier's earlier claims for good. */
  lemma ClaimIsOneTime(run: seq<Tables>, cmds: seq<Command>, i: nat, j: nat, d: Digest, now: int)
    requires IsRun(run, cmds) && i < j < |run| && FindClaim(run[i].claims, d).Some?
    requires
      || (cmds[i].DoConsumeClaim? && cmds[i].digest == d && ConsumeClaim(run[i], d, cmds[i].now).result.Some?)
      || (&& cmds[i].DoIssueClaim? && IssueClaim(run[i], cmds[i].courier, cmds[i].mint, cmds[i].now, cmds[i].ttl).result.Some?
          && run[i].claims[FindClaim(run[i].claims, d).value].courier == cmds[i].courier)
    ensures ConsumeClaim(run[j], d, now).result.None?
    ensures cmds[i].DoConsumeClaim? ==> cmds[i].now < run[i].claims[FindClaim(run[i].claims, d).value].expiresAt
  {
    RunKeeps(run, cmds, i);
    RunKeeps(run, cmds, j);
    var p := FindClaim(run[i].claims, d).value;
    assert run[i + 1] == Apply(run[i], cmds[i]);
    hide FindClaim;
    assert run[i + 1].claims[p].consumedAt.Some? || run[i + 1].claims[p].revokedAt.Some?;
    ClaimsOverRun(run, cmds, i, i + 1);
    ClaimsOverRun(run, cmds, i + 1, j);
    hide IsRun, Inv, Apply;
    assert run[j].claims[p] == run[i + 1].claims[p] && run[j].claims[p].digest == d;
    var q := FindClaim(run[j].claims, d);
    assert q == Some(p);
  }
}
