/** Refresh-token rotation of the auth service
    (apps/auth/src/app/session/services/session.service.ts).

    The model follows one session.  A token row of another session is treated as absent: the code
    fails both in the same way.  A credential is represented by the hash it verifies against, so
    hashing is injective.  Every database call is one atomic step; the calls of different requests
    interleave freely. */
module RefreshRotation {
  import opened Prelude

  const REFRESH_REUSE_GRACE_MS := 3000

  datatype Session = Session(refreshTokenHash: nat, rotatedAt: Option<int>, revokedAt: Option<int>, expiresAt: int)

  datatype Token = Token(credentialHash: nat, consumedAt: Option<int>)

  datatype Store = Store(session: Session, tokens: map<nat, Token>)

  /** A refresh request: the presented token and the clock read when the request arrived. */
  datatype Request = Request(tokenId: nat, credentialHash: nat, now: int)

  /** Where a request stands between its database calls, and how it ended. */
  datatype Client =
    | Arrived(request: Request)
    | TokenRead(request: Request, token: Option<Token>)
    | MustExpire(request: Request)
    | MustRevoke(request: Request)
    | MustRotate(request: Request, credentialHash: nat)
    | Rejected
    | Failed
    | Graced
    | ReuseRevoked
    | Conflicted
    | Rotated

  predicate Finished(c: Client) {
    c.Rejected? || c.Failed? || c.Graced? || c.ReuseRevoked? || c.Conflicted? || c.Rotated?
  }

  function Distance(a: int, b: int): int {
    if a < b then b - a else a - b
  }

  /** What the service decides from the two rows it read. */
  function Decide(request: Request, token: Option<Token>, session: Session): Client {
    if session.revokedAt.Some? then Rejected
    else if session.expiresAt <= request.now then MustExpire(request)
    else if token.None? || token.value.credentialHash != request.credentialHash then Failed
    else
      match token.value.consumedAt
      case None => MustRotate(request, token.value.credentialHash)
      case Some(consumedAt) =>
        if session.rotatedAt == Some(consumedAt) && Distance(request.now, consumedAt) <= REFRESH_REUSE_GRACE_MS
        then Graced
        else MustRevoke(request)
  }

  function FindToken(store: Store, tokenId: nat): Option<Token> {
    if tokenId in store.tokens then Some(store.tokens[tokenId]) else None
  }

  function Revoke(store: Store, at: int): Store {
    store.(session := store.session.(revokedAt := Some(at)))
  }

  function RevokeIfLive(store: Store, at: int): Store {
    if store.session.revokedAt.None? then Revoke(store, at) else store
  }

  /** The rotation transaction: two guarded updates and an insert, or nothing at all. */
  function RotateTransaction(store: Store, request: Request, credentialHash: nat, nextId: nat, nextHash: nat): Option<Store> {
    if && store.session.refreshTokenHash == credentialHash
       && store.session.revokedAt.None?
       && store.session.expiresAt > request.now
       && FindToken(store, request.tokenId) == Some(Token(credentialHash, None))
    then
      Some(Store(
        store.session.(refreshTokenHash := nextHash, rotatedAt := Some(request.now)),
        store.tokens[request.tokenId := Token(credentialHash, Some(request.now))][nextId := Token(nextHash, None)]))
    else None
  }

  function CreatedStore(rootId: nat, rootHash: nat, now: int, expiresAt: int): Store {
    Store(Session(rootHash, Some(now), None, expiresAt), map[rootId := Token(rootHash, None)])
  }

  /** The session and token tables, changed in place. */
  class SessionStore {
    var session: Session
    var tokens: map<nat, Token>

    constructor (rootId: nat, rootHash: nat, now: int, expiresAt: int)
      ensures Contents() == CreatedStore(rootId, rootHash, now, expiresAt)
    {
      session := Session(rootHash, Some(now), None, expiresAt);
      tokens := map[rootId := Token(rootHash, None)];
    }

    function Contents(): Store
      reads this
    {
      Store(session, tokens)
    }

    /** Revokes after reuse; answers whether this call revoked the session. */
    method RevokeOnReuse(now: int) returns (revoked: bool)
      modifies this
      ensures Contents() == RevokeIfLive(old(Contents()), now)
      ensures revoked <==> old(session).revokedAt.None?
    {
      revoked := session.revokedAt.None?;
      if revoked {
        session := session.(revokedAt := Some(now));
      }
    }

    /** A failed guard leaves both tables as they were before the transaction. */
    method RotateAtomically(request: Request, credentialHash: nat, nextId: nat, nextHash: nat) returns (rotated: bool)
      requires nextId !in tokens
      modifies this
      ensures var after := RotateTransaction(old(Contents()), request, credentialHash, nextId, nextHash);
        rotated == after.Some? && Contents() == if rotated then after.value else old(Contents())
    {
      var before := session;
      if session.refreshTokenHash != credentialHash || session.revokedAt.Some? || session.expiresAt <= request.now {
        return false;
      }
      session := session.(refreshTokenHash := nextHash, rotatedAt := Some(request.now));
      if request.tokenId !in tokens || tokens[request.tokenId] != Token(credentialHash, None) {
        session := before;
        return false;
      }
      tokens := tokens[request.tokenId := Token(credentialHash, Some(request.now))];
      tokens := tokens[nextId := Token(nextHash, None)];
      return true;
    }
  }

  // ----- the interleaved runs -----

  datatype Rotation = Rotation(from: nat, to: nat, at: int)

  /** The tables, every token issued so far in order, the rotations so far and all requests. */
  datatype World = World(store: Store, chain: seq<nat>, log: seq<Rotation>, clients: map<nat, Client>)

  datatype Step =
    | Arrive(client: nat, request: Request)
    | ReadToken(client: nat)
    | ReadSession(client: nat)
    | WriteExpiry(client: nat)
    | WriteReuse(client: nat)
    | Rotate(client: nat, nextId: nat, nextHash: nat)
    | Logout(at: int)

  predicate FreshCredential(w: World, nextId: nat, nextHash: nat) {
    nextId !in w.store.tokens && forall id :: id in w.store.tokens ==> w.store.tokens[id].credentialHash != nextHash
  }

  predicate Enabled(w: World, step: Step) {
    match step
    case Arrive(c, request) => c !in w.clients
    case ReadToken(c) => c in w.clients && w.clients[c].Arrived?
    case ReadSession(c) => c in w.clients && w.clients[c].TokenRead?
    case WriteExpiry(c) => c in w.clients && w.clients[c].MustExpire?
    case WriteReuse(c) => c in w.clients && w.clients[c].MustRevoke?
    case Rotate(c, nextId, nextHash) => c in w.clients && w.clients[c].MustRotate? && FreshCredential(w, nextId, nextHash)
    case Logout(at) => true
  }

  function Apply(w: World, step: Step): World
    requires Enabled(w, step)
  {
    match step
    case Arrive(c, request) => w.(clients := w.clients[c := Client.Arrived(request)])
    case ReadToken(c) =>
      var request := w.clients[c].request;
      w.(clients := w.clients[c := TokenRead(request, FindToken(w.store, request.tokenId))])
    case ReadSession(c) =>
      w.(clients := w.clients[c := Decide(w.clients[c].request, w.clients[c].token, w.store.session)])
    case WriteExpiry(c) =>
      w.(store := Revoke(w.store, w.clients[c].request.now), clients := w.clients[c := Rejected])
    case WriteReuse(c) =>
      w.(store := RevokeIfLive(w.store, w.clients[c].request.now), clients := w.clients[c := ReuseRevoked])
    case Rotate(c, nextId, nextHash) =>
      var request := w.clients[c].request;
      (match RotateTransaction(w.store, request, w.clients[c].credentialHash, nextId, nextHash)
       case None => w.(clients := w.clients[c := Conflicted])
       case Some(store) =>
         World(store, w.chain + [nextId], w.log + [Rotation(request.tokenId, nextId, request.now)], w.clients[c := Rotated]))
    case Logout(at) => w.(store := Revoke(w.store, at))
  }

  ghost predicate IsRun(run: seq<World>, steps: seq<Step>) {
    |run| == |steps| + 1
    && forall i :: 0 <= i < |steps| ==> Enabled(run[i], steps[i]) && run[i + 1] == Apply(run[i], steps[i])
  }

  // ----- the token chain -----

  /** The chain lists every token exactly once. */
  ghost predicate Lists(chain: seq<nat>, tokens: map<nat, Token>) {
    && (forall i :: 0 <= i < |chain| ==> chain[i] in tokens)
    && (forall id :: id in tokens ==> id in chain)
    && (forall i, j :: 0 <= i < j < |chain| ==> chain[i] != chain[j])
  }

  ghost predicate DistinctHashes(tokens: map<nat, Token>) {
    forall a, b :: a in tokens && b in tokens && tokens[a].credentialHash == tokens[b].credentialHash ==> a == b
  }

  /** Rotation i consumed the token at place i and issued the one behind it. */
  ghost predicate Linked(chain: seq<nat>, log: seq<Rotation>, tokens: map<nat, Token>) {
    && |chain| == |log| + 1
    && forall i :: 0 <= i < |log| ==>
      && log[i].from == chain[i]
      && log[i].to == chain[i + 1]
      && chain[i] in tokens
      && tokens[chain[i]].consumedAt == Some(log[i].at)
  }

  /** The tables spell out one chain: only the last token issued is unconsumed, and it is the one
      the session row knows. */
  ghost predicate Chain(w: World) {
    var tokens := w.store.tokens;
    var n := |w.log|;
    && Lists(w.chain, tokens)
    && DistinctHashes(tokens)
    && Linked(w.chain, w.log, tokens)
    && tokens[w.chain[n]] == Token(w.store.session.refreshTokenHash, None)
    && (n > 0 ==> w.store.session.rotatedAt == Some(w.log[n - 1].at))
  }

  /** The token that a well-behaved client holds. */
  function Current(w: World): nat
    requires w.chain != []
  {
    w.chain[|w.chain| - 1]
  }

  lemma CreationStartsChain(rootId: nat, rootHash: nat, now: int, expiresAt: int)
    ensures Chain(World(CreatedStore(rootId, rootHash, now, expiresAt), [rootId], [], map[]))
  {
  }

  lemma ExtendedHashesDistinct(tokens: map<nat, Token>, id: nat, token: Token, nextId: nat, next: Token)
    requires DistinctHashes(tokens) && id in tokens && tokens[id].credentialHash == token.credentialHash
    requires nextId !in tokens && forall a :: a in tokens ==> tokens[a].credentialHash != next.credentialHash
    ensures DistinctHashes(tokens[id := token][nextId := next])
  {
    var tokens' := tokens[id := token][nextId := next];
    forall a, b | a in tokens' && b in tokens' && tokens'[a].credentialHash == tokens'[b].credentialHash
      ensures a == b
    {
      assert a != nextId ==> tokens'[a].credentialHash == tokens[a].credentialHash;
      assert b != nextId ==> tokens'[b].credentialHash == tokens[b].credentialHash;
    }
  }

  lemma ExtendedListing(chain: seq<nat>, tokens: map<nat, Token>, id: nat, token: Token, nextId: nat, next: Token)
    requires Lists(chain, tokens) && id in tokens && nextId !in tokens
    ensures Lists(chain + [nextId], tokens[id := token][nextId := next])
  {
  }

  lemma ExtendedLinks(chain: seq<nat>, log: seq<Rotation>, tokens: map<nat, Token>, hash: nat, at: int, nextId: nat, next: Token)
    requires Lists(chain, tokens) && Linked(chain, log, tokens) && nextId !in tokens
    ensures var id := chain[|log|];
      Linked(chain + [nextId], log + [Rotation(id, nextId, at)], tokens[id := Token(hash, Some(at))][nextId := next])
  {
    var id := chain[|log|];
    var tokens' := tokens[id := Token(hash, Some(at))][nextId := next];
    forall i | 0 <= i < |log|
      ensures tokens'[chain[i]] == tokens[chain[i]]
    {
      assert chain[i] != id && chain[i] in tokens;
    }
  }

  /** A rotation succeeds only with the current token. */
  lemma RotationConsumesCurrent(w: World, request: Request, hash: nat, nextId: nat, nextHash: nat)
    requires Chain(w) && RotateTransaction(w.store, request, hash, nextId, nextHash).Some?
    ensures request.tokenId == Current(w)
  {
    var tokens := w.store.tokens;
    assert request.tokenId in tokens && tokens[request.tokenId].credentialHash == tokens[Current(w)].credentialHash;
  }

  /** And it appends one token to the chain. */
  lemma RotationExtendsChain(w: World, request: Request, hash: nat, nextId: nat, nextHash: nat)
    requires Chain(w) && FreshCredential(w, nextId, nextHash)
    requires RotateTransaction(w.store, request, hash, nextId, nextHash).Some?
    ensures var store := RotateTransaction(w.store, request, hash, nextId, nextHash).value;
      Chain(World(store, w.chain + [nextId], w.log + [Rotation(request.tokenId, nextId, request.now)], w.clients))
  {
    RotationConsumesCurrent(w, request, hash, nextId, nextHash);
    var tokens, id := w.store.tokens, request.tokenId;
    assert tokens[id].credentialHash == hash;
    hide DistinctHashes, Lists, Linked;
    ExtendedHashesDistinct(tokens, id, Token(hash, Some(request.now)), nextId, Token(nextHash, None));
    ExtendedListing(w.chain, tokens, id, Token(hash, Some(request.now)), nextId, Token(nextHash, None));
    ExtendedLinks(w.chain, w.log, tokens, hash, request.now, nextId, Token(nextHash, None));
  }

  /** Everything the chain is about is the same; revocations do not count. */
  predicate SameChain(w: World, w': World) {
    && w'.chain == w.chain && w'.log == w.log && w'.store.tokens == w.store.tokens
    && w'.store.session.refreshTokenHash == w.store.session.refreshTokenHash
    && w'.store.session.rotatedAt == w.store.session.rotatedAt
  }

  lemma SameChainIsChain(w: World, w': World)
    requires Chain(w) && SameChain(w, w')
    ensures Chain(w')
  {
    hide DistinctHashes, Lists;
  }

  lemma StepKeepsChain(w: World, step: Step)
    requires Chain(w) && Enabled(w, step)
    ensures Chain(Apply(w, step))
  {
    hide Chain, Decide, FreshCredential;
    if SameChain(w, Apply(w, step)) {
      SameChainIsChain(w, Apply(w, step));
    } else {
      var client := w.clients[step.client];
      RotationExtendsChain(w, client.request, client.credentialHash, step.nextId, step.nextHash);
      SameChainIsChain(Apply(w, step).(clients := w.clients), Apply(w, step));
    }
  }

  /** Over every run that starts with a freshly created session. */
  lemma {:induction false} RunsKeepChain(run: seq<World>, steps: seq<Step>, i: nat)
    requires IsRun(run, steps) && Chain(run[0]) && i < |run|
    ensures Chain(run[i])
  {
    if i > 0 {
      RunsKeepChain(run, steps, i - 1);
      StepKeepsChain(run[i - 1], steps[i - 1]);
    }
  }

  /** In every state of a chain exactly one token is unconsumed, and it is the one the session
      row names. */
  lemma ExactlyOneUnconsumed(w: World, id: nat)
    requires Chain(w) && id in w.store.tokens
    ensures w.store.tokens[id].consumedAt.None? <==> id == Current(w)
    ensures w.store.tokens[id].credentialHash == w.store.session.refreshTokenHash <==> id == Current(w)
  {
    var i :| 0 <= i <= |w.log| && w.chain[i] == id;
  }

  lemma RotatedAtMostOnce(w: World, i: nat, j: nat)
    requires Chain(w) && i < j < |w.log|
    ensures w.log[i].from != w.log[j].from
  {
    assert w.chain[i] != w.chain[j];
  }

  /** A revoked session stays revoked and never rotates again, whatever requests are in flight. */
  lemma {:induction false} NoRotationAfterRevocation(run: seq<World>, steps: seq<Step>)
    requires IsRun(run, steps) && run[0].store.session.revokedAt.Some?
    ensures run[|steps|].store.session.revokedAt.Some? && run[|steps|].log == run[0].log
    ensures run[|steps|].store.tokens == run[0].store.tokens
    decreases |steps|
  {
    if steps != [] {
      NoRotationAfterRevocation(run[..|steps|], steps[..|steps| - 1]);
      assert run[|steps|] == Apply(run[|steps| - 1], steps[|steps| - 1]);
    }
  }

  // ----- parallel refreshes of one token -----

  predicate Presents(w: World, request: Request)
    requires w.chain != []
  {
    && request.tokenId == Current(w)
    && request.credentialHash == w.store.session.refreshTokenHash
    && request.now < w.store.session.expiresAt
  }

  /** Any number of requests present the current token of a live session, with clocks within the
      grace period of each other. */
  ghost predicate ParallelStart(w: World, requests: map<nat, Request>) {
    && Chain(w)
    && w.store.session.revokedAt.None?
    && w.clients == (map c | c in requests :: Client.Arrived(requests[c]))
    && (forall c :: c in requests ==> Presents(w, requests[c]))
    && (forall c, d :: c in requests && d in requests ==> Distance(requests[c].now, requests[d].now) <= REFRESH_REUSE_GRACE_MS)
  }

  /** Only these requests act: nobody logs out and no further request arrives. */
  ghost predicate ParallelRun(run: seq<World>, steps: seq<Step>, requests: map<nat, Request>) {
    && IsRun(run, steps)
    && ParallelStart(run[0], requests)
    && forall i :: 0 <= i < |steps| ==> !steps[i].Logout? && !steps[i].Arrive?
  }

  /** Nothing has rotated yet: the request is still on its way to rotate. */
  predicate Before(client: Client, request: Request, hash: nat) {
    || client == Client.Arrived(request)
    || client == TokenRead(request, Some(Token(hash, None)))
    || client == MustRotate(request, hash)
  }

  /** Another request rotated at `at`: this one heads for a conflict or the grace answer. */
  predicate After(client: Client, request: Request, hash: nat, at: int) {
    || Before(client, request, hash)
    || client == TokenRead(request, Some(Token(hash, Some(at))))
    || client == Conflicted
    || client == Graced
  }

  ghost predicate Racing(start: World, w: World, requests: map<nat, Request>) {
    && w.clients.Keys == requests.Keys
    && w.store == start.store
    && w.log == start.log
    && forall c :: c in requests ==> Before(w.clients[c], requests[c], start.store.session.refreshTokenHash)
  }

  ghost predicate Settled(start: World, w: World, requests: map<nat, Request>, winner: nat)
    requires start.chain != []
  {
    var hash := start.store.session.refreshTokenHash;
    && winner in requests
    && w.clients.Keys == requests.Keys
    && w.clients[winner] == Rotated
    && |w.log| == |start.log| + 1
    && w.store.session.revokedAt.None?
    && w.store.session.expiresAt == start.store.session.expiresAt
    && w.store.session.rotatedAt == Some(requests[winner].now)
    && w.store.session.refreshTokenHash != hash
    && FindToken(w.store, Current(start)) == Some(Token(hash, Some(requests[winner].now)))
    && forall c :: c in requests && c != winner ==> After(w.clients[c], requests[c], hash, requests[winner].now)
  }

  lemma FirstRotation(start: World, w: World, requests: map<nat, Request>, step: Step)
    requires ParallelStart(start, requests) && Racing(start, w, requests)
    requires Enabled(w, step) && step.Rotate?
    ensures Settled(start, Apply(w, step), requests, step.client)
  {
    assert Before(w.clients[step.client], requests[step.client], start.store.session.refreshTokenHash);
    assert Presents(start, requests[step.client]);
    assert Current(start) in start.store.tokens;
    hide Chain, DistinctHashes, Lists, Linked, Distance, Decide;
  }

  lemma RacingStep(start: World, w: World, requests: map<nat, Request>, step: Step)
    requires ParallelStart(start, requests) && Racing(start, w, requests)
    requires Enabled(w, step) && !step.Logout? && !step.Arrive?
    ensures Racing(start, Apply(w, step), requests) || Settled(start, Apply(w, step), requests, step.client)
  {
    assert Before(w.clients[step.client], requests[step.client], start.store.session.refreshTokenHash);
    assert Current(start) in start.store.tokens;
    hide Chain, DistinctHashes, Lists, Linked, Distance;
    if step.Rotate? {
      FirstRotation(start, w, requests, step);
    } else {
      hide RotateTransaction, FreshCredential;
    }
  }

  /** After the first rotation no request changes a table any more. */
  lemma LateStep(start: World, w: World, requests: map<nat, Request>, winner: nat, step: Step)
    requires ParallelStart(start, requests) && Settled(start, w, requests, winner)
    requires Enabled(w, step) && !step.Logout? && !step.Arrive?
    ensures step.client in requests && step.client != winner
    ensures var w' := Apply(w, step);
      && w'.store == w.store && w'.log == w.log
      && w'.clients == w.clients[step.client := w'.clients[step.client]]
      && After(w'.clients[step.client], requests[step.client], start.store.session.refreshTokenHash, requests[winner].now)
  {
    assert Presents(start, requests[step.client]);
    assert After(w.clients[step.client], requests[step.client], start.store.session.refreshTokenHash, requests[winner].now);
    assert Distance(requests[step.client].now, requests[winner].now) <= REFRESH_REUSE_GRACE_MS;
    hide ParallelStart, Distance, FreshCredential;
    if step.Rotate? {
      hide Decide;
    } else {
      hide RotateTransaction;
    }
  }

  lemma SettledStep(start: World, w: World, requests: map<nat, Request>, winner: nat, step: Step)
    requires ParallelStart(start, requests) && Settled(start, w, requests, winner)
    requires Enabled(w, step) && !step.Logout? && !step.Arrive?
    ensures Settled(start, Apply(w, step), requests, winner)
  {
    LateStep(start, w, requests, winner, step);
    hide ParallelStart, Apply, After;
  }

  lemma {:induction false} ParallelInvariant(run: seq<World>, steps: seq<Step>, requests: map<nat, Request>)
    requires ParallelRun(run, steps, requests)
    ensures Racing(run[0], run[|steps|], requests) || exists winner :: Settled(run[0], run[|steps|], requests, winner)
    decreases |steps|
  {
    if steps != [] {
      var n := |steps| - 1;
      ParallelInvariant(run[..n + 1], steps[..n], requests);
      if Racing(run[0], run[n], requests) {
        RacingStep(run[0], run[n], requests, steps[n]);
      } else {
        var winner :| Settled(run[0], run[n], requests, winner);
        SettledStep(run[0], run[n], requests, winner, steps[n]);
      }
    }
  }

  ghost predicate OneWinner(w: World, winner: nat) {
    && winner in w.clients
    && w.clients[winner] == Rotated
    && forall c :: c in w.clients && c != winner ==> w.clients[c] == Conflicted || w.clients[c] == Graced
  }

  lemma RacingIsUnfinished(start: World, w: World, requests: map<nat, Request>, c: nat)
    requires Racing(start, w, requests) && c in requests
    ensures c in w.clients && !Finished(w.clients[c])
  {
    assert Before(w.clients[c], requests[c], start.store.session.refreshTokenHash);
  }

  lemma SettledHasWinner(start: World, w: World, requests: map<nat, Request>, winner: nat)
    requires start.chain != [] && Settled(start, w, requests, winner)
    requires forall c :: c in w.clients ==> Finished(w.clients[c])
    ensures OneWinner(w, winner)
  {
    forall c | c in w.clients && c != winner
      ensures w.clients[c] == Conflicted || w.clients[c] == Graced
    {
      assert After(w.clients[c], requests[c], start.store.session.refreshTokenHash, requests[winner].now);
      assert Finished(w.clients[c]);
    }
  }

  /** Parallel refreshes: nobody ever revokes the session, at most one rotation happens, and once
      all requests have ended exactly one of them rotated. */
  lemma ParallelRefresh(run: seq<World>, steps: seq<Step>, requests: map<nat, Request>)
    requires ParallelRun(run, steps, requests) && requests.Keys != {}
    ensures var last := run[|steps|];
      && last.store.session.revokedAt.None?
      && |last.log| <= |run[0].log| + 1
      && ((forall c :: c in last.clients ==> Finished(last.clients[c])) ==>
        |last.log| == |run[0].log| + 1 && exists winner :: OneWinner(last, winner))
  {
    ParallelInvariant(run, steps, requests);
    var last := run[|steps|];
    if Racing(run[0], last, requests) {
      var c :| c in requests;
      RacingIsUnfinished(run[0], last, requests, c);
    } else {
      var winner :| Settled(run[0], last, requests, winner);
      if forall c :: c in last.clients ==> Finished(last.clients[c]) {
        SettledHasWinner(run[0], last, requests, winner);
      }
    }
  }

  /** The read order carries the theorem.  Had a request read the session row before a parallel
      rotation and its token row after it, it would revoke a session that nobody misused; in the
      order the code uses it takes the grace answer. */
  lemma SessionReadFirstWouldRevoke(w: World, winner: Request, loser: Request, nextId: nat, nextHash: nat)
    requires Chain(w) && w.store.session.revokedAt.None?
    requires Presents(w, winner) && Presents(w, loser)
    requires FreshCredential(w, nextId, nextHash)
    requires w.store.session.rotatedAt != Some(winner.now)
    requires Distance(loser.now, winner.now) <= REFRESH_REUSE_GRACE_MS
    ensures var rotated := RotateTransaction(w.store, winner, w.store.session.refreshTokenHash, nextId, nextHash);
      && rotated.Some?
      && Decide(loser, FindToken(rotated.value, loser.tokenId), w.store.session) == MustRevoke(loser)
      && Decide(loser, FindToken(rotated.value, loser.tokenId), rotated.value.session) == Graced
  {
    assert Current(w) in w.store.tokens;
  }

  // ----- reuse is detected -----

  /** How far a request is. */
  function Phase(client: Client): nat {
    match client
    case Arrived(_) => 0
    case TokenRead(_, _) => 1
    case MustExpire(_) => 2
    case MustRevoke(_) => 2
    case MustRotate(_, _) => 2
    case _ => 3
  }

  /** A request only moves on, and a step that does not move it leaves it alone. */
  lemma StepMovesClient(w: World, step: Step, c: nat)
    requires Enabled(w, step) && c in w.clients
    ensures c in Apply(w, step).clients
    ensures var (client, client') := (w.clients[c], Apply(w, step).clients[c]);
      client' == client || Phase(client') > Phase(client)
  {
  }

  lemma {:induction false} ClientMovesOn(run: seq<World>, steps: seq<Step>, c: nat, i: nat, j: nat)
    requires IsRun(run, steps) && i <= j < |run| && c in run[i].clients
    ensures c in run[j].clients
    ensures run[j].clients[c] == run[i].clients[c] || Phase(run[j].clients[c]) > Phase(run[i].clients[c])
    decreases j
  {
    if i < j {
      ClientMovesOn(run, steps, c, i, j - 1);
      StepMovesClient(run[j - 1], steps[j - 1], c);
    }
  }

  /** The request presents a consumed token with its credential, and the live session shows that the
      token is not the previous one or was consumed too long ago. */
  predicate IsReuse(request: Request, token: Option<Token>, session: Session) {
    && session.revokedAt.None? && session.expiresAt > request.now
    && token.Some? && token.value.credentialHash == request.credentialHash && token.value.consumedAt.Some?
    && (session.rotatedAt != token.value.consumedAt
        || Distance(request.now, token.value.consumedAt.value) > REFRESH_REUSE_GRACE_MS)
  }

  /** At step i the request read its token, at step j the session, and together they show reuse. */
  ghost predicate ReadsReuse(run: seq<World>, steps: seq<Step>, c: nat, request: Request, i: nat, j: nat)
    requires |steps| < |run|
  {
    && i < j < |steps| && steps[i] == ReadToken(c) && steps[j] == ReadSession(c)
    && c in run[i].clients && run[i].clients[c] == Client.Arrived(request)
    && IsReuse(request, FindToken(run[i].store, request.tokenId), run[j].store.session)
  }

  /** Every state in which the request has detected reuse: about to revoke, or done with the session
      revoked. */
  predicate Detects(w: World, c: nat, request: Request) {
    && c in w.clients
    && (w.clients[c] == MustRevoke(request) || (w.clients[c] == ReuseRevoked && w.store.session.revokedAt.Some?))
  }

  lemma {:induction false} DetectionStays(run: seq<World>, steps: seq<Step>, c: nat, request: Request, i: nat, n: nat)
    requires IsRun(run, steps) && i <= n < |run| && Detects(run[i], c, request)
    ensures Detects(run[n], c, request)
    decreases n
  {
    if i < n {
      DetectionStays(run, steps, c, request, i, n - 1);
      assert Enabled(run[n - 1], steps[n - 1]) && run[n] == Apply(run[n - 1], steps[n - 1]);
    }
  }

  /** Reuse is detected: from the session read on the request is bound to revoke, and when it has ended
      it was answered as reuse and the session is revoked, whatever else happens meanwhile. */
  lemma ReuseIsDetected(run: seq<World>, steps: seq<Step>, c: nat, request: Request, i: nat, j: nat, n: nat)
    requires IsRun(run, steps) && ReadsReuse(run, steps, c, request, i, j) && j < n < |run|
    ensures Detects(run[n], c, request)
    ensures Finished(run[n].clients[c]) ==> run[n].clients[c] == ReuseRevoked && run[n].store.session.revokedAt.Some?
  {
    assert run[i + 1] == Apply(run[i], steps[i]);
    ClientMovesOn(run, steps, c, i + 1, j);
    assert Enabled(run[j], steps[j]) && run[j + 1] == Apply(run[j], steps[j]);
    assert run[j].clients[c] == TokenRead(request, FindToken(run[i].store, request.tokenId));
    DetectionStays(run, steps, c, request, j + 1, n);
  }

  /** Where a request that has read its token did so. */
  lemma {:induction false} TokenWasRead(run: seq<World>, steps: seq<Step>, c: nat, n: nat) returns (i: nat)
    requires IsRun(run, steps) && run[0].clients == map[] && n < |run|
    requires c in run[n].clients && run[n].clients[c].TokenRead?
    ensures i < n && steps[i] == ReadToken(c) && c in run[i].clients
    ensures var TokenRead(request, token) := run[n].clients[c];
      run[i].clients[c] == Client.Arrived(request) && token == FindToken(run[i].store, request.tokenId)
  {
    var last := run[n - 1];
    assert Enabled(last, steps[n - 1]) && run[n] == Apply(last, steps[n - 1]);
    if c in last.clients && last.clients[c] == run[n].clients[c] {
      i := TokenWasRead(run, steps, c, n - 1);
    } else {
      i := n - 1;
    }
  }

  lemma {:induction false} DetectionHasCause(run: seq<World>, steps: seq<Step>, c: nat, n: nat) returns (request: Request, i: nat, j: nat)
    requires IsRun(run, steps) && run[0].clients == map[] && n < |run|
    requires c in run[n].clients && (run[n].clients[c].MustRevoke? || run[n].clients[c] == ReuseRevoked)
    ensures ReadsReuse(run, steps, c, request, i, j) && j < n
  {
    var last := run[n - 1];
    assert Enabled(last, steps[n - 1]) && run[n] == Apply(last, steps[n - 1]);
    if c in last.clients && (last.clients[c].MustRevoke? || last.clients[c] == ReuseRevoked) {
      request, i, j := DetectionHasCause(run, steps, c, n - 1);
    } else {
      j := n - 1;
      request := last.clients[c].request;
      i := TokenWasRead(run, steps, c, n - 1);
    }
  }

  /** The reuse rule, both ways, over every interleaving: a request that has ended was answered as reuse
      if and only if it read a consumed token and then a live session that shows reuse. */
  lemma ReuseExactly(run: seq<World>, steps: seq<Step>, c: nat, n: nat)
    requires IsRun(run, steps) && run[0].clients == map[] && n < |run|
    requires c in run[n].clients && Finished(run[n].clients[c])
    ensures run[n].clients[c] == ReuseRevoked <==>
      exists request, i: nat, j: nat :: j < n && ReadsReuse(run, steps, c, request, i, j)
    ensures run[n].clients[c] == ReuseRevoked ==> run[n].store.session.revokedAt.Some?
  {
    if run[n].clients[c] == ReuseRevoked {
      var request, i, j := DetectionHasCause(run, steps, c, n);
      ReuseIsDetected(run, steps, c, request, i, j, n);
    }
    if request, i: nat, j: nat :| j < n && ReadsReuse(run, steps, c, request, i, j) {
      ReuseIsDetected(run, steps, c, request, i, j, n);
    }
  }
}
