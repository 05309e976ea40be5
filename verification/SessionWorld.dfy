/** All sessions of the service together: who may authorize whom. The history
    variables number every generated token and record what became of it;
    `approved` are the users for whom polkit ever said yes. */
module SessionWorld {
  import opened Common
  import opened Session

  datatype World = World(
    sessions: map<nat, SessionView>,
    requests: map<nat, nat>,            // outstanding polkit requests, with their session
    cancelled: set<nat>,
    asked: nat,
    approved: set<nat>,
    ledger: map<(nat, string), nat>,    // serial of each token a session holds
    generated: nat,
    redeemed: seq<nat>,
    withdrawn: set<nat>)

  datatype Step =
    | Open(sid: nat, uid: nat)
    | Ask(sid: nat)
    | Answer(id: nat, authorized: bool)
    | Present(sid: nat, peer: nat, token: string, now: Option<int>)
    | Generate(sid: nat, drawn: Option<string>, duration: nat, now: Option<int>)
    | Withdraw(sid: nat, token: string)
    | Revoke(sid: nat)

  const Initial := World(map[], map[], {}, 0, {}, map[], 0, [], {})

  predicate Enabled(w: World, step: Step) {
    match step
    case Open(sid, _) => sid !in w.sessions
    case Answer(id, _) => id in w.requests && w.requests[id] in w.sessions
    case Ask(sid) => sid in w.sessions
    case Present(sid, _, _, _) => sid in w.sessions
    case Generate(sid, _, _, _) => sid in w.sessions
    case Withdraw(sid, _) => sid in w.sessions
    case Revoke(sid) => sid in w.sessions
  }

  function Held(w: World, sid: nat, token: string): set<nat> {
    if (sid, token) in w.ledger then {w.ledger[(sid, token)]} else {}
  }

  function Without(s: SessionView, token: string): SessionView { s.(tokens := s.tokens - {token}) }

  predicate Redeems(w: World, sid: nat, peer: nat, token: string, now: Option<int>) {
    && sid in w.sessions && peer in w.sessions && w.sessions[sid].state == Init
    && Honours(w.sessions[peer], w.sessions[sid].uid, token, now)
  }

  function Redeemed(w: World, sid: nat, peer: nat, token: string): World
    requires sid in w.sessions && peer in w.sessions
  {
    w.(sessions := w.sessions[peer := Without(w.sessions[peer], token)][sid := GrantedAuthorization(w.sessions[sid])],
       redeemed := if (peer, token) in w.ledger then w.redeemed + [w.ledger[(peer, token)]] else w.redeemed,
       ledger := w.ledger - {(peer, token)})
  }

  /** A token drawn a second time replaces the first. */
  function Issued(w: World, sid: nat, token: string, s: SessionView): World {
    w.(sessions := w.sessions[sid := s],
       withdrawn := w.withdrawn + Held(w, sid, token),
       ledger := (w.ledger - {(sid, token)})[(sid, token) := w.generated], generated := w.generated + 1)
  }

  function Apply(w: World, step: Step): World
    requires Enabled(w, step)
  {
    match step
    case Open(sid, uid) => w.(sessions := w.sessions[sid := NewSession(uid)])
    case Ask(sid) =>
      if w.sessions[sid].state != Init then w
      else w.(sessions := w.sessions[sid := Asked(w.sessions[sid], w.asked)],
              requests := w.requests[w.asked := sid], asked := w.asked + 1)
    case Answer(id, authorized) =>
      var sid := w.requests[id];
      w.(sessions := w.sessions[sid := Answered(w.sessions[sid], authorized)],
         requests := w.requests - {id},
         approved := w.approved + if authorized then {w.sessions[sid].uid} else {})
    case Present(sid, peer, token, now) =>
      if Redeems(w, sid, peer, token, now) then Redeemed(w, sid, peer, token) else w
    case Generate(sid, drawn, duration, now) =>
      var s := Generated(w.sessions[sid], drawn, duration, now);
      if s.None? then w
      else Issued(w, sid, drawn.value, s.value)
    case Withdraw(sid, token) =>
      w.(sessions := w.sessions[sid := Without(w.sessions[sid], token)],
         withdrawn := w.withdrawn + Held(w, sid, token), ledger := w.ledger - {(sid, token)})
    case Revoke(sid) =>
      var s := w.sessions[sid];
      w.(sessions := w.sessions[sid := RevokedAuthorization(s)],
         cancelled := w.cancelled + if s.uid != 0 && s.state == Pending && s.request.Some?
           then {s.request.value} else {})
  }

  function Run(w: World, steps: seq<Step>): Option<World>
    decreases |steps|
  {
    if steps == [] then Some(w)
    else if Enabled(w, steps[0]) then Run(Apply(w, steps[0]), steps[1..])
    else None
  }

  // ---- Signals ---------------------------------------------------------------

  /** What a listener makes of a signal; None where no transition emits it. */
  function Heard(before: State, c: Change): Option<State> {
    match c
    case Authorized => if before != Auth then Some(Auth) else None
    case BecamePending => if before == Init then Some(Pending) else None
    case NotAuthorized => if before == Auth then Some(Init) else None
    case RequestFailed => if before == Pending then Some(Init) else None
  }

  function Replay(start: State, signals: seq<Change>): Option<State> {
    if signals == [] then Some(start)
    else
      var before := Replay(start, signals[..|signals| - 1]);
      if before.None? then None else Heard(before.value, signals[|signals| - 1])
  }

  /** Signals and transitions determine each other. */
  lemma HeardInvertsAnnouncement(before: State, after: State, c: Change)
    ensures Announcement(before, after) == Some(c) <==> Heard(before, c) == Some(after)
  {
  }

  ghost predicate Followed(s: SessionView) {
    Replay(NewSession(s.uid).state, s.signals) == Some(s.state)
  }

  lemma ChangeFollowed(s: SessionView, after: State)
    requires Followed(s) && (s.state == Auth ==> after != Pending)
    ensures Followed(Changed(s, after)) && Changed(s, after).state == after
    ensures s.state != after ==>
      exists c :: Announcement(s.state, after) == Some(c) && Changed(s, after).signals == s.signals + [c]
  {
    if s.state != after {
      var c := Announcement(s.state, after).value;
      HeardInvertsAnnouncement(s.state, after, c);
      assert (s.signals + [c])[..|s.signals|] == s.signals;
      assert Announcement(s.state, after) == Some(c);
    }
  }

  // ---- The invariant -----------------------------------------------------------

  ghost predicate SessionSound(w: World, sid: nat)
    requires sid in w.sessions
  {
    var s := w.sessions[sid];
    && Followed(s)
    && (s.uid == 0 ==> s.state == Auth && s.signals == [])
    && (s.state == Auth ==> s.uid == 0 || s.uid in w.approved)
    && (s.state == Pending ==> s.request.Some? && s.request.value in w.requests && w.requests[s.request.value] == sid)
  }

  ghost predicate SessionsSound(w: World) {
    && (forall sid :: sid in w.sessions ==> SessionSound(w, sid))
    && (forall id :: id in w.requests ==>
          id < w.asked && w.requests[id] in w.sessions && w.sessions[w.requests[id]].uid != 0)
  }

  ghost predicate LedgerMatches(sessions: map<nat, SessionView>, ledger: map<(nat, string), nat>) {
    forall sid, token :: (sid, token) in ledger <==> sid in sessions && token in sessions[sid].tokens
  }

  /** A serial is outstanding, redeemed once, withdrawn or not yet used. */
  ghost predicate SerialsSound(ledger: map<(nat, string), nat>, generated: nat, redeemed: seq<nat>,
      withdrawn: set<nat>) {
    && (forall k :: k in ledger ==> ledger[k] < generated && ledger[k] !in redeemed && ledger[k] !in withdrawn)
    && (forall k, l :: k in ledger && l in ledger && ledger[k] == ledger[l] ==> k == l)
    && (forall n :: n in redeemed ==> n < generated && n !in withdrawn)
    && (forall n :: n in withdrawn ==> n < generated)
    && NoDuplicates(redeemed)
  }

  lemma LedgerSize(ledger: map<(nat, string), nat>, k: (nat, string))
    ensures |ledger - {k}| == if k in ledger then |ledger| - 1 else |ledger|
  {
    assert (ledger - {k}).Keys == ledger.Keys - {k};
  }

  ghost predicate TokensSound(w: World) {
    LedgerMatches(w.sessions, w.ledger) && SerialsSound(w.ledger, w.generated, w.redeemed, w.withdrawn)
  }

  predicate Counted(w: World) { |w.redeemed| + |w.withdrawn| + |w.ledger| == w.generated }

  ghost predicate Inv(w: World) { SessionsSound(w) && TokensSound(w) && Counted(w) }

  /** One session changes; the requests that change are its own. */
  lemma ReplaceSession(w: World, w': World, sid: nat, s: SessionView)
    requires SessionsSound(w) && sid in w.sessions && w'.sessions == w.sessions[sid := s]
    requires s.uid == w.sessions[sid].uid && w.approved <= w'.approved && w.asked <= w'.asked
    requires forall id :: id in w.requests && w.requests[id] != sid ==>
      id in w'.requests && w'.requests[id] == w.requests[id]
    requires forall id :: id in w'.requests ==>
      if id in w.requests then w'.requests[id] == w.requests[id]
        else id < w'.asked && w'.requests[id] == sid && s.uid != 0
    requires SessionSound(w', sid)
    ensures SessionsSound(w')
  {
    forall other | other in w'.sessions && other != sid ensures SessionSound(w', other) {
      assert SessionSound(w, other);
    }
  }

  lemma AskKeeps(w: World, sid: nat)
    requires SessionsSound(w) && sid in w.sessions && w.sessions[sid].state == Init
    ensures SessionsSound(Apply(w, Ask(sid)))
  {
    var s := w.sessions[sid];
    assert SessionSound(w, sid);
    ChangeFollowed(s.(request := Some(w.asked)), Pending);
    ReplaceSession(w, Apply(w, Ask(sid)), sid, Asked(s, w.asked));
  }

  lemma AnswerKeeps(w: World, id: nat, authorized: bool)
    requires SessionsSound(w) && id in w.requests && w.requests[id] in w.sessions
    ensures SessionsSound(Apply(w, Answer(id, authorized)))
  {
    var sid := w.requests[id];
    var s := w.sessions[sid];
    assert SessionSound(w, sid);
    ChangeFollowed(s, if authorized then Auth else Init);
    ReplaceSession(w, Apply(w, Answer(id, authorized)), sid, Answered(s, authorized));
  }

  lemma RevokeKeeps(w: World, sid: nat)
    requires SessionsSound(w) && sid in w.sessions
    ensures SessionsSound(Apply(w, Revoke(sid)))
  {
    var s := w.sessions[sid];
    assert SessionSound(w, sid);
    ChangeFollowed(s, Init);
    ReplaceSession(w, Apply(w, Revoke(sid)), sid, RevokedAuthorization(s));
  }

  /** A session's tokens play no part in what its state may be. */
  lemma RetokenKeeps(w: World, w': World, sid: nat, tokens: map<string, int>)
    requires SessionsSound(w) && sid in w.sessions
    requires w'.sessions == w.sessions[sid := w.sessions[sid].(tokens := tokens)]
    requires w'.requests == w.requests && w'.approved == w.approved && w'.asked == w.asked
    ensures SessionsSound(w')
  {
    assert SessionSound(w, sid);
    ReplaceSession(w, w', sid, w.sessions[sid].(tokens := tokens));
  }

  lemma RedeemKeeps(w: World, sid: nat, peer: nat, token: string, now: Option<int>)
    requires SessionsSound(w) && Redeems(w, sid, peer, token, now)
    ensures SessionsSound(Redeemed(w, sid, peer, token))
  {
    var s := w.sessions[sid];
    assert SessionSound(w, sid) && SessionSound(w, peer);
    var left := w.(sessions := w.sessions[peer := Without(w.sessions[peer], token)]);
    RetokenKeeps(w, left, peer, w.sessions[peer].tokens - {token});
    ChangeFollowed(s, Auth);
    ReplaceSession(left, Redeemed(w, sid, peer, token), sid, GrantedAuthorization(s));
  }

  lemma SessionsKept(w: World, step: Step)
    requires SessionsSound(w) && Enabled(w, step)
    ensures SessionsSound(Apply(w, step))
  {
    var w' := Apply(w, step);
    match step
    case Open(sid, uid) =>
      forall other | other in w'.sessions ensures SessionSound(w', other) {
        assert other != sid ==> SessionSound(w, other);
      }
    case Ask(sid) => if w.sessions[sid].state == Init { AskKeeps(w, sid); }
    case Answer(id, authorized) => AnswerKeeps(w, id, authorized);
    case Present(sid, peer, token, now) =>
      if Redeems(w, sid, peer, token, now) { RedeemKeeps(w, sid, peer, token, now); }
    case Generate(sid, drawn, duration, now) =>
      var s := Generated(w.sessions[sid], drawn, duration, now);
      if s.Some? { RetokenKeeps(w, w', sid, s.value.tokens); }
    case Withdraw(sid, token) => RetokenKeeps(w, w', sid, w.sessions[sid].tokens - {token});
    case Revoke(sid) => RevokeKeeps(w, sid);
  }

  /** The ledger without the entry of one token. */
  lemma TokenRemoved(sessions: map<nat, SessionView>, ledger: map<(nat, string), nat>, sid: nat, token: string)
    requires LedgerMatches(sessions, ledger) && sid in sessions
    ensures LedgerMatches(sessions[sid := Without(sessions[sid], token)], ledger - {(sid, token)})
  {
  }

  lemma TokenAdded(sessions: map<nat, SessionView>, ledger: map<(nat, string), nat>, sid: nat, token: string,
      expiry: int, n: nat)
    requires LedgerMatches(sessions, ledger) && sid in sessions
    ensures LedgerMatches(
      sessions[sid := sessions[sid].(tokens := sessions[sid].tokens[token := expiry])],
      (ledger - {(sid, token)})[(sid, token) := n])
  {
  }

  lemma TokensUntouched(sessions: map<nat, SessionView>, ledger: map<(nat, string), nat>, sid: nat, s: SessionView)
    requires LedgerMatches(sessions, ledger)
    requires s.tokens == if sid in sessions then sessions[sid].tokens else map[]
    ensures LedgerMatches(sessions[sid := s], ledger)
  {
  }

  lemma SerialRedeemed(w: World, k: (nat, string))
    requires SerialsSound(w.ledger, w.generated, w.redeemed, w.withdrawn) && k in w.ledger
    ensures SerialsSound(w.ledger - {k}, w.generated, w.redeemed + [w.ledger[k]], w.withdrawn)
  {
  }

  lemma SerialWithdrawn(w: World, sid: nat, token: string)
    requires SerialsSound(w.ledger, w.generated, w.redeemed, w.withdrawn)
    ensures SerialsSound(w.ledger - {(sid, token)}, w.generated, w.redeemed, w.withdrawn + Held(w, sid, token))
  {
  }

  lemma SerialAdded(ledger: map<(nat, string), nat>, k: (nat, string), generated: nat, redeemed: seq<nat>,
      withdrawn: set<nat>)
    requires SerialsSound(ledger, generated, redeemed, withdrawn) && k !in ledger
    ensures SerialsSound(ledger[k := generated], generated + 1, redeemed, withdrawn)
  {
  }

  lemma RedeemKeepsTokens(w: World, sid: nat, peer: nat, token: string, now: Option<int>)
    requires TokensSound(w) && Redeems(w, sid, peer, token, now)
    ensures (peer, token) in w.ledger && TokensSound(Redeemed(w, sid, peer, token))
  {
    TokenRemoved(w.sessions, w.ledger, peer, token);
    TokensUntouched(w.sessions[peer := Without(w.sessions[peer], token)], w.ledger - {(peer, token)}, sid,
      GrantedAuthorization(w.sessions[sid]));
    SerialRedeemed(w, (peer, token));
  }

  lemma SerialReissued(w: World, sid: nat, token: string)
    requires SerialsSound(w.ledger, w.generated, w.redeemed, w.withdrawn)
    ensures SerialsSound(
      (w.ledger - {(sid, token)})[(sid, token) := w.generated],
      w.generated + 1, w.redeemed, w.withdrawn + Held(w, sid, token))
  {
    var k := (sid, token);
    SerialWithdrawn(w, sid, token);
    SerialAdded(w.ledger - {k}, k, w.generated, w.redeemed, w.withdrawn + Held(w, sid, token));
  }

  lemma IssueKeepsTokens(w: World, sid: nat, token: string, expiry: int)
    requires TokensSound(w) && sid in w.sessions
    ensures TokensSound(Issued(w, sid, token, w.sessions[sid].(tokens := w.sessions[sid].tokens[token := expiry])))
  {
    TokenAdded(w.sessions, w.ledger, sid, token, expiry, w.generated);
    SerialReissued(w, sid, token);
  }

  lemma WithdrawKeepsTokens(w: World, sid: nat, token: string)
    requires TokensSound(w) && sid in w.sessions
    ensures TokensSound(Apply(w, Withdraw(sid, token)))
  {
    TokenRemoved(w.sessions, w.ledger, sid, token);
    SerialWithdrawn(w, sid, token);
  }

  /** A step that concerns no token. */
  lemma OtherStepKeepsTokens(w: World, w': World, sid: nat, s: SessionView)
    requires TokensSound(w) && w'.sessions == w.sessions[sid := s]
    requires s.tokens == if sid in w.sessions then w.sessions[sid].tokens else map[]
    requires w'.ledger == w.ledger && w'.generated == w.generated
    requires w'.redeemed == w.redeemed && w'.withdrawn == w.withdrawn
    ensures TokensSound(w')
  {
    TokensUntouched(w.sessions, w.ledger, sid, s);
  }

  lemma PresentKeepsTokens(w: World, sid: nat, peer: nat, token: string, now: Option<int>)
    requires TokensSound(w) && sid in w.sessions
    ensures TokensSound(Apply(w, Present(sid, peer, token, now)))
  {
    if Redeems(w, sid, peer, token, now) { RedeemKeepsTokens(w, sid, peer, token, now); }
  }

  lemma GenerateKeepsTokens(w: World, sid: nat, drawn: Option<string>, duration: nat, now: Option<int>)
    requires TokensSound(w) && sid in w.sessions
    ensures TokensSound(Apply(w, Generate(sid, drawn, duration, now)))
  {
    if Generated(w.sessions[sid], drawn, duration, now).Some? {
      IssueKeepsTokens(w, sid, drawn.value, Expiry(now.value, duration));
    }
  }

  lemma TokensKept(w: World, step: Step)
    requires TokensSound(w) && Enabled(w, step)
    ensures TokensSound(Apply(w, step))
  {
    var w' := Apply(w, step);
    match step
    case Present(sid, peer, token, now) => PresentKeepsTokens(w, sid, peer, token, now);
    case Generate(sid, drawn, duration, now) => GenerateKeepsTokens(w, sid, drawn, duration, now);
    case Withdraw(sid, token) => WithdrawKeepsTokens(w, sid, token);
    case Open(sid, uid) => OtherStepKeepsTokens(w, w', sid, NewSession(uid));
    case Ask(sid) =>
      if w.sessions[sid].state == Init { OtherStepKeepsTokens(w, w', sid, Asked(w.sessions[sid], w.asked)); }
    case Answer(id, authorized) =>
      OtherStepKeepsTokens(w, w', w.requests[id], Answered(w.sessions[w.requests[id]], authorized));
    case Revoke(sid) => OtherStepKeepsTokens(w, w', sid, RevokedAuthorization(w.sessions[sid]));
  }

  lemma HeldCounted(w: World, sid: nat, token: string)
    requires TokensSound(w)
    ensures |w.withdrawn + Held(w, sid, token)| + |w.ledger - {(sid, token)}| == |w.withdrawn| + |w.ledger|
    ensures |(w.ledger - {(sid, token)})[(sid, token) := w.generated]| == |w.ledger - {(sid, token)}| + 1
  {
    LedgerSize(w.ledger, (sid, token));
    var left := w.ledger - {(sid, token)};
    assert left[(sid, token) := w.generated].Keys == left.Keys + {(sid, token)};
  }

  lemma CountKept(w: World, step: Step)
    requires TokensSound(w) && Counted(w) && Enabled(w, step)
    ensures Counted(Apply(w, step))
  {
    match step
    case Present(sid, peer, token, now) => LedgerSize(w.ledger, (peer, token));
    case Generate(sid, drawn, _, _) => if drawn.Some? { HeldCounted(w, sid, drawn.value); }
    case Withdraw(sid, token) => HeldCounted(w, sid, token);
    case _ =>
  }

  lemma {:induction false} RunKeeps(w: World, steps: seq<Step>)
    requires Inv(w) && Run(w, steps).Some?
    ensures Inv(Run(w, steps).value)
    decreases |steps|
  {
    if steps != [] {
      SessionsKept(w, steps[0]);
      TokensKept(w, steps[0]);
      CountKept(w, steps[0]);
      RunKeeps(Apply(w, steps[0]), steps[1..]);
    }
  }

  // ---- Main results --------------------------------------------------------------

  lemma ReachableInv(steps: seq<Step>)
    requires Run(Initial, steps).Some?
    ensures Inv(Run(Initial, steps).value)
  {
    RunKeeps(Initial, steps);
  }

  ghost predicate Approves(w: World, step: Step, uid: nat) {
    step.Answer? && step.authorized && step.id in w.requests && w.requests[step.id] in w.sessions
    && w.sessions[w.requests[step.id]].uid == uid
  }

  /** Polkit says yes for the user at some point of the run. */
  ghost predicate ApprovedIn(w: World, steps: seq<Step>, uid: nat)
    decreases |steps|
  {
    steps != [] && Enabled(w, steps[0])
    && (Approves(w, steps[0], uid) || ApprovedIn(Apply(w, steps[0]), steps[1..], uid))
  }

  lemma {:induction false} ApprovalsRecorded(w: World, steps: seq<Step>, uid: nat)
    requires Run(w, steps).Some?
    ensures uid in Run(w, steps).value.approved <==> uid in w.approved || ApprovedIn(w, steps, uid)
    decreases |steps|
  {
    if steps != [] {
      ApprovalsRecorded(Apply(w, steps[0]), steps[1..], uid);
    }
  }

  /** Whatever chain of tokens it came by, an authorized session of an
      ordinary user goes back to polkit's yes for that same user. */
  lemma AuthorizationHasRoot(steps: seq<Step>, sid: nat)
    requires Run(Initial, steps).Some?
    requires var w := Run(Initial, steps).value;
      sid in w.sessions && w.sessions[sid].state == Auth && w.sessions[sid].uid != 0
    ensures ApprovedIn(Initial, steps, Run(Initial, steps).value.sessions[sid].uid)
  {
    ReachableInv(steps);
    var w := Run(Initial, steps).value;
    assert SessionSound(w, sid);
    ApprovalsRecorded(Initial, steps, w.sessions[sid].uid);
  }

  /** Signals tell the whole story of every session, and root's sessions are
      authorized and silent. */
  lemma SignalsTellState(steps: seq<Step>, sid: nat)
    requires Run(Initial, steps).Some? && sid in Run(Initial, steps).value.sessions
    ensures var s := Run(Initial, steps).value.sessions[sid];
      && Replay(NewSession(s.uid).state, s.signals) == Some(s.state)
      && (s.uid == 0 ==> s.state == Auth && s.signals == [])
  {
    ReachableInv(steps);
    assert SessionSound(Run(Initial, steps).value, sid);
  }

  ghost predicate Announced(before: SessionView, after: SessionView) {
    if before.state == after.state then after.signals == before.signals
    else
      && Announcement(before.state, after.state).Some?
      && after.signals == before.signals + [Announcement(before.state, after.state).value]
  }

  lemma ChangeAnnounced(s: SessionView, after: State)
    requires s.state == Auth ==> after != Pending
    ensures Announced(s, Changed(s, after))
  {
  }

  /** The transition reported as a bug never occurs: whatever the step, a
      session that changes state adds exactly the signal of that transition. */
  lemma StepAnnounced(w: World, step: Step, sid: nat)
    requires Enabled(w, step) && sid in w.sessions
    ensures Announced(w.sessions[sid], Apply(w, step).sessions[sid])
  {
    var s := w.sessions[sid];
    match step
    case Open(_, _) =>
    case Ask(_) => if s.state == Init { ChangeAnnounced(s.(request := Some(w.asked)), Pending); }
    case Answer(_, authorized) => ChangeAnnounced(s, if authorized then Auth else Init);
    case Present(to, peer, token, now) =>
      if Redeems(w, to, peer, token, now) { ChangeAnnounced(s, Auth); }
    case Generate(_, _, _, _) =>
    case Withdraw(_, _) =>
    case Revoke(_) => ChangeAnnounced(s, Init);
  }

  /** A pending session always has a request outstanding, and its answer
      decides the session. */
  lemma PendingIsDecided(steps: seq<Step>, sid: nat, authorized: bool)
    requires Run(Initial, steps).Some?
    requires var w := Run(Initial, steps).value; sid in w.sessions && w.sessions[sid].state == Pending
    ensures var w := Run(Initial, steps).value;
      exists id :: Enabled(w, Answer(id, authorized))
        && Apply(w, Answer(id, authorized)).sessions[sid].state == if authorized then Auth else Init
  {
    ReachableInv(steps);
    var w := Run(Initial, steps).value;
    assert SessionSound(w, sid);
    var id := w.sessions[sid].request.value;
    assert Enabled(w, Answer(id, authorized));
    ChangeFollowed(w.sessions[sid], if authorized then Auth else Init);
  }

  /** A token authorizes at most one session: no serial is redeemed twice,
      none is redeemed after being withdrawn, and grants, withdrawals and
      outstanding tokens together are the tokens generated. */
  lemma TokensAreConserved(steps: seq<Step>)
    requires Run(Initial, steps).Some?
    ensures var w := Run(Initial, steps).value;
      && NoDuplicates(w.redeemed)
      && (forall n :: n in w.redeemed ==> n !in w.withdrawn)
      && |w.redeemed| + |w.withdrawn| + |w.ledger| == w.generated
      && LedgerMatches(w.sessions, w.ledger)
  {
    ReachableInv(steps);
    var w := Run(Initial, steps).value;
  }

  lemma RedeemedTokenGone(w: World, sid: nat, peer: nat, token: string, now: Option<int>, other: nat,
      later: Option<int>)
    requires TokensSound(w) && Redeems(w, sid, peer, token, now)
    ensures !Redeems(Redeemed(w, sid, peer, token), other, peer, token, later)
  {
    assert token !in Redeemed(w, sid, peer, token).sessions[peer].tokens;
  }

  /** A granting presentation uses up one token of an authorized session of
      the same user, which nobody can present again. */
  lemma RedeemedOnce(steps: seq<Step>, sid: nat, peer: nat, token: string, now: Option<int>)
    requires Run(Initial, steps).Some?
    requires Redeems(Run(Initial, steps).value, sid, peer, token, now)
    ensures var w := Run(Initial, steps).value;
      var w' := Apply(w, Present(sid, peer, token, now));
      && w'.sessions[sid].state == Auth && |w'.redeemed| == |w.redeemed| + 1
      && w.sessions[peer].state == Auth && w.sessions[peer].uid == w.sessions[sid].uid
      && forall other, later :: !Redeems(w', other, peer, token, later)
  {
    ReachableInv(steps);
    var w := Run(Initial, steps).value;
    assert (peer, token) in w.ledger;
    forall other, later ensures !Redeems(Redeemed(w, sid, peer, token), other, peer, token, later) {
      RedeemedTokenGone(w, sid, peer, token, now, other, later);
    }
  }

  /** Session sid draws this token again. */
  predicate Redraws(step: Step, sid: nat, token: string) {
    step.Generate? && step.sid == sid && step.drawn == Some(token)
  }

  /** Until it is drawn again a token keeps its expiry for as long as it is held. */
  lemma {:induction false} ExpiryKept(w: World, steps: seq<Step>, sid: nat, token: string, expiry: int)
    requires Run(w, steps).Some? && sid in w.sessions
    requires token in w.sessions[sid].tokens ==> w.sessions[sid].tokens[token] == expiry
    requires forall step :: step in steps ==> !Redraws(step, sid, token)
    ensures var w' := Run(w, steps).value;
      sid in w'.sessions && (token in w'.sessions[sid].tokens ==> w'.sessions[sid].tokens[token] == expiry)
    decreases |steps|
  {
    if steps != [] {
      assert !Redraws(steps[0], sid, token);
      StepKeepsExpiry(w, steps[0], sid, token);
      ExpiryKept(Apply(w, steps[0]), steps[1..], sid, token, expiry);
    }
  }

  lemma StepKeepsExpiry(w: World, step: Step, sid: nat, token: string)
    requires Enabled(w, step) && sid in w.sessions && !Redraws(step, sid, token)
    ensures var w' := Apply(w, step);
      && sid in w'.sessions
      && (token in w'.sessions[sid].tokens ==>
            token in w.sessions[sid].tokens && w'.sessions[sid].tokens[token] == w.sessions[sid].tokens[token])
  {
  }

  /** A token is generated, some steps follow, and then it is presented. Behind the
      end of its life that changes nothing. Until then it authorizes a session of
      the same user that has no authorization, if the token is still held by an
      authorized session and its end fits into 31 bits; otherwise nothing changes. */
  lemma PresentedInTime(w: World, steps: seq<Step>, sid: nat, token: string, duration: nat, now: nat, other: nat,
      later: nat)
    requires sid in w.sessions && w.sessions[sid].state == Auth && duration < 0x1_0000_0000 && now <= later
    requires forall step :: step in steps ==> !Redraws(step, sid, token)
    requires var made := Apply(w, Generate(sid, Some(token), duration, Some(now)));
      Run(made, steps).Some? && other in Run(made, steps).value.sessions
    ensures var w' := Run(Apply(w, Generate(sid, Some(token), duration, Some(now))), steps).value;
      var end := now + (if duration == 0 then 5 else duration);
      var after := Apply(w', Present(other, sid, token, Some(later)));
      && sid in w'.sessions && (later > end ==> after == w')
      && if && later <= end < 0x8000_0000 && w'.sessions[other].state == Init
            && w'.sessions[sid].state == Auth && w'.sessions[sid].uid == w'.sessions[other].uid
            && token in w'.sessions[sid].tokens
         then after.sessions[other].state == Auth && token !in after.sessions[sid].tokens
         else after == w'
  {
    var made := Apply(w, Generate(sid, Some(token), duration, Some(now)));
    var end := now + (if duration == 0 then 5 else duration);
    assert made.sessions[sid].tokens[token] == end;
    ExpiryKept(made, steps, sid, token, end);
  }

  /** The replies to the requests of a session without authorization: without
      parameters one goes to polkit; with both of them it is granted exactly if
      presenting the token authorizes the session; with one of them it fails. */
  lemma RepliesMatch(w: World, sid: nat, peer: nat, token: string, now: Option<int>)
    requires sid in w.sessions && w.sessions[sid].state == Init
    ensures var s := w.sessions[sid];
      var other := if peer in w.sessions then Some(w.sessions[peer]) else None;
      && ReplyTo(s, false, None, other, now) == Accepted
      && ReplyTo(s, true, None, other, now) == ReplyTo(s, false, Some(token), other, now) == Failed
      && ReplyTo(s, true, Some(token), other, now) ==
           (if Apply(w, Present(sid, peer, token, now)).sessions[sid].state == Auth then Granted else Failed)
      && Apply(w, Ask(sid)).sessions[sid].state == Pending
      && Apply(w, Ask(sid)).requests == w.requests[w.asked := sid]
  {
  }

  /** Revoking cancels the request of a pending session, and no other. */
  lemma RevokeCancelsPending(steps: seq<Step>, sid: nat)
    requires Run(Initial, steps).Some? && sid in Run(Initial, steps).value.sessions
    ensures var w := Run(Initial, steps).value;
      var s, w' := w.sessions[sid], Apply(w, Revoke(sid));
      && (s.state == Pending ==> s.request.Some? && w'.cancelled == w.cancelled + {s.request.value})
      && (s.state != Pending ==> w'.cancelled == w.cancelled)
      && (s.uid != 0 ==> w'.sessions[sid].state == Init) && (s.uid == 0 ==> w' == w)
  {
    ReachableInv(steps);
    RevokeEffect(Run(Initial, steps).value, sid);
  }

  lemma RevokeEffect(w: World, sid: nat)
    requires sid in w.sessions && SessionSound(w, sid)
    ensures var s, w' := w.sessions[sid], Apply(w, Revoke(sid));
      && (s.state == Pending ==> s.request.Some? && w'.cancelled == w.cancelled + {s.request.value})
      && (s.state != Pending ==> w'.cancelled == w.cancelled)
      && (s.uid != 0 ==> w'.sessions[sid].state == Init) && (s.uid == 0 ==> w' == w)
  {
  }

  /** An answer decides the session its request belongs to, whatever happened
      to the session since. */
  lemma LateAnswerDecides(steps: seq<Step>, id: nat, authorized: bool)
    requires Run(Initial, steps).Some? && Enabled(Run(Initial, steps).value, Answer(id, authorized))
    ensures var w := Run(Initial, steps).value;
      Apply(w, Answer(id, authorized)).sessions[w.requests[id]].state == Auth <==> authorized
  {
    var w := Run(Initial, steps).value;
    ReachableInv(steps);
    assert SessionSound(w, w.requests[id]);
    ChangeFollowed(w.sessions[w.requests[id]], if authorized then Auth else Init);
  }

  /** Some answer polkit may still give would take the authorization away. */
  ghost predicate AtRisk(w: World, sid: nat)
    requires sid in w.sessions
  {
    exists id, authorized ::
      && Enabled(w, Answer(id, authorized))
      && Apply(w, Answer(id, authorized)).sessions[sid].state != Auth
  }

  /** An authorized session can lose its authorization to an answer exactly
      while a request of its own is outstanding, cancelled or not. */
  lemma AuthorizationAtRisk(steps: seq<Step>, sid: nat)
    requires Run(Initial, steps).Some?
    requires var w := Run(Initial, steps).value; sid in w.sessions && w.sessions[sid].state == Auth
    ensures var w := Run(Initial, steps).value;
      AtRisk(w, sid) <==> exists id :: id in w.requests && w.requests[id] == sid
  {
    var w := Run(Initial, steps).value;
    ReachableInv(steps);
    if id :| id in w.requests && w.requests[id] == sid {
      LateAnswerDecides(steps, id, false);
      assert Enabled(w, Answer(id, false)) && Apply(w, Answer(id, false)).sessions[sid].state != Auth;
    }
  }

  /** Such a run: a request is cancelled, a second one is granted, and the
      first is still to be answered. */
  const REASKED := [Open(1, 7), Ask(1), Revoke(1), Ask(1), Answer(1, true)]

  lemma CancelledRequestOutlivesGrant()
    ensures Run(Initial, REASKED).Some?
    ensures var w := Run(Initial, REASKED).value;
      && 1 in w.sessions && w.sessions[1].state == Auth && 0 in w.cancelled && AtRisk(w, 1)
      && Enabled(w, Answer(0, false)) && Apply(w, Answer(0, false)).sessions[1].state == Init
  {
    var w1 := Apply(Initial, REASKED[0]);
    var w2 := Apply(w1, REASKED[1]);
    var w3 := Apply(w2, REASKED[2]);
    var w4 := Apply(w3, REASKED[3]);
    var w5 := Apply(w4, REASKED[4]);
    assert w5.requests == map[0 := 1] && w5.sessions[1].state == Auth;
    RunThen(w4, REASKED[4], [], w5);
    RunThen(w3, REASKED[3], [REASKED[4]], w5);
    RunThen(w2, REASKED[2], [REASKED[3], REASKED[4]], w5);
    RunThen(w1, REASKED[1], REASKED[2..], w5);
    RunThen(Initial, REASKED[0], REASKED[1..], w5);
    assert Enabled(w5, Answer(0, false)) && Apply(w5, Answer(0, false)).sessions[1].state != Auth;
  }

  lemma RunThen(w: World, step: Step, rest: seq<Step>, end: World)
    requires Enabled(w, step) && Run(Apply(w, step), rest) == Some(end)
    ensures Run(w, [step] + rest) == Some(end)
  {
    assert ([step] + rest)[1..] == rest;
  }
}
