/** What decides the answer to a refresh request, in terms of the rows it read and wrote
    (apps/auth/src/app/session/services/session.service.ts). */
module RefreshOutcome {
  import opened Prelude
  import opened RefreshRotation

  /** The request read its token row at step i and the session row at step j. */
  ghost predicate Reads(run: seq<World>, steps: seq<Step>, c: nat, request: Request, i: nat, j: nat)
    requires |steps| < |run|
  {
    && i < j < |steps| && steps[i] == ReadToken(c) && steps[j] == ReadSession(c)
    && c in run[i].clients && run[i].clients[c] == Client.Arrived(request)
  }

  predicate Live(session: Session, now: int) {
    session.revokedAt == None && now < session.expiresAt
  }

  /** The presented secret is the one of the stored token. */
  predicate RightSecret(tokens: map<nat, Token>, request: Request) {
    request.tokenId in tokens && tokens[request.tokenId].credentialHash == request.credentialHash
  }

  predicate Unconsumed(tokens: map<nat, Token>, tokenId: nat) {
    tokenId in tokens && tokens[tokenId].consumedAt == None
  }

  /** The token was consumed by the last rotation, at most three seconds away from the request. */
  predicate JustConsumed(tokens: map<nat, Token>, session: Session, request: Request) {
    && request.tokenId in tokens && tokens[request.tokenId].consumedAt.Some?
    && session.rotatedAt == tokens[request.tokenId].consumedAt
    && -3000 <= request.now - tokens[request.tokenId].consumedAt.value <= 3000
  }

  predicate Rejects(client: Client) {
    client.MustExpire? || client.Rejected?
  }

  predicate Revokes(client: Client) {
    client.MustRevoke? || client.ReuseRevoked?
  }

  predicate TriesRotation(client: Client) {
    client.MustRotate? || client.Conflicted? || client.Rotated?
  }

  /** The answer that the rows call for. */
  predicate Answers(client: Client, tokens: map<nat, Token>, session: Session, request: Request) {
    && (Rejects(client) <==> !Live(session, request.now))
    && (client.Failed? <==> Live(session, request.now) && !RightSecret(tokens, request))
    && (TriesRotation(client) <==> Live(session, request.now) && RightSecret(tokens, request) && Unconsumed(tokens, request.tokenId))
    && (client.Graced? <==> Live(session, request.now) && RightSecret(tokens, request) && JustConsumed(tokens, session, request))
    && (Revokes(client) <==>
         Live(session, request.now) && RightSecret(tokens, request)
         && !Unconsumed(tokens, request.tokenId) && !JustConsumed(tokens, session, request))
  }

  /** A new session is live until it expires and accepts its one secret only. */
  lemma CreatedAccepts(rootId: nat, rootHash: nat, now: int, expiresAt: int, request: Request)
    ensures var store := CreatedStore(rootId, rootHash, now, expiresAt);
      && (Live(store.session, request.now) <==> request.now < expiresAt)
      && (RightSecret(store.tokens, request) <==> request.tokenId == rootId && request.credentialHash == rootHash)
      && (RightSecret(store.tokens, request) ==> Unconsumed(store.tokens, request.tokenId))
      && store.session.refreshTokenHash == rootHash && store.session.rotatedAt == Some(now)
  {
  }

  /** A request that has decided carries on with what it decided. */
  predicate Decided(client: Client) {
    !client.Arrived? && !client.TokenRead?
  }

  predicate CarriesOn(client: Client, client': Client) {
    && Decided(client')
    && (Rejects(client') <==> Rejects(client)) && (Revokes(client') <==> Revokes(client))
    && (TriesRotation(client') <==> TriesRotation(client))
    && (client'.Failed? <==> client.Failed?) && (client'.Graced? <==> client.Graced?)
  }

  lemma {:induction false} DecisionStays(run: seq<World>, steps: seq<Step>, c: nat, i: nat, n: nat)
    requires IsRun(run, steps) && i <= n < |run| && c in run[i].clients && Decided(run[i].clients[c])
    ensures c in run[n].clients && CarriesOn(run[i].clients[c], run[n].clients[c])
    decreases n
  {
    if i < n {
      DecisionStays(run, steps, c, i, n - 1);
      assert Enabled(run[n - 1], steps[n - 1]) && run[n] == Apply(run[n - 1], steps[n - 1]);
      hide RotateTransaction, FreshCredential, Decide;
    }
  }

  /** The exact answer, over every interleaving: from its session read on, whatever happens, a request is
      rejected, fails, is excused, revokes or goes on to rotate exactly as the rows it read call for. */
  lemma EndsAsRead(run: seq<World>, steps: seq<Step>, c: nat, request: Request, i: nat, j: nat, n: nat)
    requires IsRun(run, steps) && Reads(run, steps, c, request, i, j) && j < n < |run|
    ensures c in run[n].clients
    ensures Answers(run[n].clients[c], run[i].store.tokens, run[j].store.session, request)
  {
    assert run[i + 1] == Apply(run[i], steps[i]);
    ClientMovesOn(run, steps, c, i + 1, j);
    assert Enabled(run[j], steps[j]) && run[j + 1] == Apply(run[j], steps[j]);
    assert run[j].clients[c] == TokenRead(request, FindToken(run[i].store, request.tokenId));
    assert Answers(run[j + 1].clients[c], run[i].store.tokens, run[j].store.session, request);
    DecisionStays(run, steps, c, j + 1, n);
  }

  /** Every request that has decided has read both rows, the token first. */
  lemma {:induction false} DecidedHasRead(run: seq<World>, steps: seq<Step>, c: nat, n: nat) returns (request: Request, i: nat, j: nat)
    requires IsRun(run, steps) && run[0].clients == map[] && n < |run| && c in run[n].clients && Decided(run[n].clients[c])
    ensures Reads(run, steps, c, request, i, j) && j < n
  {
    var last := run[n - 1];
    assert Enabled(last, steps[n - 1]) && run[n] == Apply(last, steps[n - 1]);
    if c in last.clients && Decided(last.clients[c]) {
      request, i, j := DecidedHasRead(run, steps, c, n - 1);
    } else {
      j := n - 1;
      request := last.clients[c].request;
      i := TokenWasRead(run, steps, c, n - 1);
    }
  }

  // ----- the rotation itself -----

  /** The step consumes the presented token for a new one, and does nothing else. */
  predicate Rotates(w: World, w': World, request: Request, nextId: nat, nextHash: nat) {
    && request.tokenId in w.store.tokens
    && w'.store.tokens == w.store.tokens[request.tokenId := Token(request.credentialHash, Some(request.now))][nextId := Token(nextHash, None)]
    && w'.store.session == Session(nextHash, Some(request.now), None, w.store.session.expiresAt)
    && w'.chain == w.chain + [nextId] && w'.log == w.log + [Rotation(request.tokenId, nextId, request.now)]
  }

  /** What a request that is about to rotate knows: the hash it compared is the stored one, and hashes
      of stored tokens never change. */
  ghost predicate Knows(w: World, c: nat, request: Request) {
    && c in w.clients && w.clients[c] == MustRotate(request, request.credentialHash)
    && RightSecret(w.store.tokens, request)
  }

  lemma StepKeepsSecret(w: World, step: Step, request: Request)
    requires Enabled(w, step) && RightSecret(w.store.tokens, request)
    ensures RightSecret(Apply(w, step).store.tokens, request)
  {
  }

  lemma {:induction false} SecretStays(run: seq<World>, steps: seq<Step>, request: Request, i: nat, n: nat)
    requires IsRun(run, steps) && i <= n < |run| && RightSecret(run[i].store.tokens, request)
    ensures RightSecret(run[n].store.tokens, request)
    decreases n
  {
    if i < n {
      SecretStays(run, steps, request, i, n - 1);
      StepKeepsSecret(run[n - 1], steps[n - 1], request);
    }
  }

  lemma AboutToRotate(run: seq<World>, steps: seq<Step>, c: nat, n: nat) returns (request: Request, i: nat, j: nat)
    requires IsRun(run, steps) && run[0].clients == map[] && n < |run| && c in run[n].clients && run[n].clients[c].MustRotate?
    ensures Reads(run, steps, c, request, i, j) && j < n && Knows(run[n], c, request)
  {
    request, i, j := DecidedHasRead(run, steps, c, n);
    EndsAsRead(run, steps, c, request, i, j, n);
    SecretStays(run, steps, request, i, n);
    assert run[i + 1] == Apply(run[i], steps[i]);
    ClientMovesOn(run, steps, c, i + 1, j);
    assert Enabled(run[j], steps[j]) && run[j + 1] == Apply(run[j], steps[j]);
    ClientMovesOn(run, steps, c, j + 1, n);
  }

  /** The rotation step, both ways: it succeeds if and only if the presented token is the current one
      and the session is live; otherwise it ends in a conflict and touches no row. */
  lemma RotationExactly(w: World, c: nat, request: Request, nextId: nat, nextHash: nat)
    requires Chain(w) && Knows(w, c, request) && FreshCredential(w, nextId, nextHash)
    ensures var w' := Apply(w, Rotate(c, nextId, nextHash));
      if request.tokenId == Current(w) && Live(w.store.session, request.now)
      then w'.clients[c] == Rotated && Rotates(w, w', request, nextId, nextHash)
      else w'.clients[c] == Conflicted && w' == w.(clients := w'.clients)
  {
    ExactlyOneUnconsumed(w, request.tokenId);
    hide Chain;
  }

  /** Where a request rotated. */
  lemma {:induction false} RotationStep(run: seq<World>, steps: seq<Step>, c: nat, n: nat) returns (m: nat)
    requires IsRun(run, steps) && run[0].clients == map[] && n < |run| && c in run[n].clients && run[n].clients[c] == Rotated
    ensures m < n && steps[m].Rotate? && steps[m].client == c && c in run[m + 1].clients && run[m + 1].clients[c] == Rotated
  {
    var last := run[n - 1];
    assert Enabled(last, steps[n - 1]) && run[n] == Apply(last, steps[n - 1]);
    if c in last.clients && last.clients[c] == Rotated {
      m := RotationStep(run, steps, c, n - 1);
    } else {
      hide Decide, RotateTransaction;
      m := n - 1;
    }
  }

  /** Only the right secret rotates.  A request that ended rotated presented the secret of the current
      token, unconsumed when it was read; the session was live when it was read and when it rotated. */
  lemma RotatedHadSecret(run: seq<World>, steps: seq<Step>, c: nat, n: nat) returns (request: Request, i: nat, j: nat, m: nat)
    requires IsRun(run, steps) && Chain(run[0]) && run[0].clients == map[] && n < |run|
    requires c in run[n].clients && run[n].clients[c] == Rotated
    ensures Reads(run, steps, c, request, i, j) && j < m < n && steps[m].Rotate? && steps[m].client == c
    ensures run[i].chain != [] && request.tokenId == Current(run[i])
    ensures RightSecret(run[i].store.tokens, request) && Unconsumed(run[i].store.tokens, request.tokenId)
    ensures Live(run[j].store.session, request.now) && Live(run[m].store.session, request.now)
    ensures run[m].chain != [] && request.tokenId == Current(run[m])
    ensures request.credentialHash == run[m].store.session.refreshTokenHash
    ensures Rotates(run[m], run[m + 1], request, steps[m].nextId, steps[m].nextHash)
  {
    m := RotationStep(run, steps, c, n);
    assert Enabled(run[m], steps[m]) && run[m + 1] == Apply(run[m], steps[m]);
    request, i, j := AboutToRotate(run, steps, c, m);
    RunsKeepChain(run, steps, i);
    RunsKeepChain(run, steps, m);
    RotationExactly(run[m], c, request, steps[m].nextId, steps[m].nextHash);
    EndsAsRead(run, steps, c, request, i, j, m);
    hide IsRun, Apply, Enabled, FreshCredential, Reads, Rotates;
    ExactlyOneUnconsumed(run[i], request.tokenId);
    ExactlyOneUnconsumed(run[m], request.tokenId);
  }

  /** A client that presents the current secret of a live session, undisturbed, rotates it. */
  lemma HonestRefreshRotates(w: World, c: nat, request: Request, nextId: nat, nextHash: nat)
    requires Chain(w) && c !in w.clients && FreshCredential(w, nextId, nextHash)
    requires request.tokenId == Current(w) && request.credentialHash == w.store.session.refreshTokenHash
    requires Live(w.store.session, request.now)
    ensures var arrived := Apply(w, Arrive(c, request));
      && Enabled(arrived, ReadToken(c)) && Enabled(Apply(arrived, ReadToken(c)), ReadSession(c))
      && var ready := Apply(Apply(arrived, ReadToken(c)), ReadSession(c));
        && Enabled(ready, Rotate(c, nextId, nextHash))
        && Rotates(w, Apply(ready, Rotate(c, nextId, nextHash)), request, nextId, nextHash)
        && Apply(ready, Rotate(c, nextId, nextHash)).clients == w.clients[c := Rotated]
  {
    ExactlyOneUnconsumed(w, request.tokenId) by { assert Current(w) in w.store.tokens; }
    hide Chain;
  }

  /** Every step of a request brings it closer to its end. */
  lemma StepsAdvance(w: World, step: Step)
    requires Enabled(w, step) && !step.Logout?
    ensures step.client in Apply(w, step).clients
    ensures step.Arrive? ==> Apply(w, step) == w.(clients := w.clients[step.client := Client.Arrived(step.request)])
    ensures !step.Arrive? ==> Phase(Apply(w, step).clients[step.client]) > Phase(w.clients[step.client])
    ensures forall c :: c in w.clients && c != step.client ==> c in Apply(w, step).clients && Apply(w, step).clients[c] == w.clients[c]
  {
  }

  // ----- revocation -----

  /** What a step writes to a session that it revokes: a logout, a request that found the session
      expired and a request that detected reuse write the time they were given; reuse never overwrites
      an earlier time; no other step revokes, and no step ever revives. */
  lemma RevocationExactly(w: World, step: Step)
    requires Enabled(w, step)
    ensures var (session, session') := (w.store.session, Apply(w, step).store.session);
      && session'.expiresAt == session.expiresAt
      && match step
         case Logout(at) => session'.revokedAt == Some(at)
         case WriteExpiry(c) => w.clients[c].MustExpire? && session'.revokedAt == Some(w.clients[c].request.now)
         case WriteReuse(c) =>
           w.clients[c].MustRevoke?
           && session'.revokedAt == if session.revokedAt == None then Some(w.clients[c].request.now) else session.revokedAt
         case _ => session'.revokedAt == session.revokedAt
  {
  }

  /** A request that ended rejected or with detected reuse leaves the session revoked for good. */
  lemma {:induction false} EndedMeansRevoked(run: seq<World>, steps: seq<Step>, c: nat, n: nat)
    requires IsRun(run, steps) && run[0].clients == map[] && n < |run| && c in run[n].clients
    requires run[n].clients[c] == Rejected || run[n].clients[c] == ReuseRevoked
    ensures run[n].store.session.revokedAt != None
  {
    var last := run[n - 1];
    assert Enabled(last, steps[n - 1]) && run[n] == Apply(last, steps[n - 1]);
    if c in last.clients && last.clients[c] == run[n].clients[c] {
      EndedMeansRevoked(run, steps, c, n - 1);
      RevocationExactly(last, steps[n - 1]);
    } else {
      hide RotateTransaction;
    }
  }

  /** The guards of the rotation on any rows: the session still names the hash, is not revoked and not
      expired, and the presented token has that hash and is unconsumed. */
  lemma GuardsExactly(store: Store, request: Request, hash: nat, nextId: nat, nextHash: nat)
    ensures RotateTransaction(store, request, hash, nextId, nextHash).Some? <==>
      && store.session.refreshTokenHash == hash && Live(store.session, request.now)
      && Unconsumed(store.tokens, request.tokenId) && store.tokens[request.tokenId].credentialHash == hash
  {
  }
}
