/** Problems2 sessions: authorization by polkit or by a token of an authorized
    session of the same user. First what each request does, on values; then the
    sessions as objects. */
module Session {
  import opened Common

  datatype State = Init | Pending | Auth

  /** The payload of the authorization-changed signal. */
  datatype Change = Authorized | BecamePending | NotAuthorized | RequestFailed

  /** `request` is the latest polkit request, by number. */
  datatype SessionView = SessionView(
    uid: nat, state: State, tokens: map<string, int>, request: Option<nat>, signals: seq<Change>)

  datatype Reply = Failed | Granted | Accepted | AlreadyPending

  function NewSession(uid: nat): SessionView {
    SessionView(uid, if uid == 0 then Auth else Init, map[], None, [])
  }

  /** The signal of a transition; the remaining pairs are reported as a bug. */
  function Announcement(before: State, after: State): Option<Change> {
    if before == Init && after == Pending then Some(BecamePending)
    else if before == Init && after == Auth then Some(Authorized)
    else if before == Pending && after == Auth then Some(Authorized)
    else if before == Auth && after == Init then Some(NotAuthorized)
    else if before == Pending && after == Init then Some(RequestFailed)
    else None
  }

  function Changed(s: SessionView, after: State): (r: SessionView) {
    if s.state == after then s
    else
      s.(state := after,
         signals := s.signals + match Announcement(s.state, after) case Some(c) => [c] case None => [])
  }

  /** Polkit's answer arrives for some request of the session. */
  function Answered(s: SessionView, authorized: bool): SessionView {
    Changed(s, if authorized then Auth else Init).(request := None)
  }

  /** A polkit request with this number is sent. */
  function Asked(s: SessionView, id: nat): SessionView {
    Changed(s.(request := Some(id)), Pending)
  }

  function RevokedAuthorization(s: SessionView): SessionView {
    if s.uid == 0 then s else Changed(s, Init)
  }

  function GrantedAuthorization(s: SessionView): SessionView { Changed(s, Auth) }

  /** Expiry is stored as time plus duration and read back as a 32-bit integer. */
  function Int32(x: int): int { (x + 0x8000_0000) % 0x1_0000_0000 - 0x8000_0000 }

  function Expiry(now: int, duration: nat): int { now + if duration == 0 then 5 else duration }

  /** `token` is the random string drawn, `now` the clock; both may fail. */
  function Generated(s: SessionView, token: Option<string>, duration: nat, now: Option<int>): (r: Option<SessionView>) {
    if s.state != Auth || token.None? || now.None? then None
    else Some(s.(tokens := s.tokens[token.value := Expiry(now.value, duration)]))
  }

  /** The conditions under which an authorized session passes its
      authorization on; a stored zero counts as no token. */
  predicate Honours(s: SessionView, peerUid: nat, token: string, now: Option<int>) {
    && s.state == Auth
    && s.uid == peerUid
    && token in s.tokens && s.tokens[token] != 0
    && now.Some? && now.value <= Int32(s.tokens[token])
  }

  /** A token is honoured by peers of the same user up to the end of its life,
      and not a second longer, if that end fits into 31 bits and is not zero, which
      stands for no token. Otherwise it is never honoured: from 2038 on tokens are
      refused at once. */
  lemma TokenLife(s: SessionView, peerUid: nat, token: string, duration: nat, now: int, later: int)
    requires s.state == Auth && -0x8000_0000 <= now <= later && duration < 0x1_0000_0000
    ensures var end := now + (if duration == 0 then 5 else duration);
      var s' := Generated(s, Some(token), duration, Some(now));
      s'.Some? && (Honours(s'.value, peerUid, token, Some(later)) <==>
        peerUid == s.uid && later <= end && end < 0x8000_0000 && end != 0)
  {
  }

  /** Without an authorization, randomness and a clock there is no token, and a
      new token does not touch the others. */
  lemma GeneratedExactly(s: SessionView, token: Option<string>, duration: nat, now: Option<int>, other: string)
    ensures var r := Generated(s, token, duration, now);
      && (r.Some? <==> s.state == Auth && token.Some? && now.Some?)
      && (r.Some? ==>
            && r.value.(tokens := s.tokens) == s && token.value in r.value.tokens
            && (other != token.value ==>
                  && (other in r.value.tokens <==> other in s.tokens)
                  && (other in s.tokens ==> r.value.tokens[other] == s.tokens[other])))
  {
  }

  /** What a session says when it changes state: the last signal names where it
      came to and, if that is no authorization, where it came from. */
  lemma LastSignalNames(s: SessionView, after: State)
    requires s.state != after && !(s.state == Auth && after == Pending)
    ensures var s' := Changed(s, after);
      && s'.state == after && |s'.signals| == |s.signals| + 1
      && var last := s'.signals[|s.signals|];
         && (last == Authorized <==> after == Auth) && (last == BecamePending <==> after == Pending)
         && (last == NotAuthorized <==> s.state == Auth) && (last == RequestFailed ==> s.state == Pending)
  {
  }

  /** Taking an authorization away leaves every session but root's where it can
      ask again; tokens and identity stay. */
  lemma RevokedFallsBack(s: SessionView)
    ensures var r := RevokedAuthorization(s);
      && r.state == (if s.uid == 0 then s.state else Init)
      && r.uid == s.uid && r.tokens == s.tokens && r.request == s.request
  {
  }

  /** Polkit's answer decides a session and takes the request off it, whichever
      request it was. */
  lemma AnsweredExactly(s: SessionView, authorized: bool)
    ensures var r := Answered(s, authorized);
      && (r.state == Auth <==> authorized) && (r.state == Init <==> !authorized)
      && r.request.None? && r.uid == s.uid && r.tokens == s.tokens
  {
  }

  /** The reply tells the state in which the session is left. */
  lemma ReplyTellsState(s: SessionView, bus: bool, token: Option<string>, peer: Option<SessionView>, now: Option<int>,
      id: nat)
    ensures var reply := ReplyTo(s, bus, token, peer, now);
      var after := if s.state == Init && !bus && token.None? then Asked(s, id)
                   else if reply == Granted then GrantedAuthorization(s) else s;
      && (reply == Granted <==> after.state == Auth)
      && (reply == Failed <==> after.state == Init)
      && (reply == Accepted <==> s.state == Init && after.state == Pending && after.request == Some(id))
      && (reply == AlreadyPending <==> s.state == Pending)
      && after.uid == s.uid && after.tokens == s.tokens
  {
  }

  // ---- The objects -----------------------------------------------------------

  class AuthRequest {
    const id: nat
    var cancelled: bool

    constructor (id: nat)
      ensures this.id == id && !cancelled
    {
      this.id := id;
      cancelled := false;
    }
  }

  class Session {
    const uid: nat
    var state: State
    var tokens: map<string, int>
    var authRq: AuthRequest?
    var signals: seq<Change>

    ghost function View(): SessionView
      reads this
    {
      SessionView(uid, state, tokens, if authRq == null then None else Some(authRq.id), signals)
    }

    /** A pending session has a request that can be cancelled. */
    ghost predicate Valid()
      reads this
    {
      state == Pending ==> authRq != null
    }

    constructor (uid: nat)
      ensures Valid() && View() == NewSession(uid)
    {
      this.uid := uid;
      state := if uid == 0 then Auth else Init;
      tokens, authRq, signals := map[], null, [];
    }

    method ChangeState(after: State)
      modifies this`state, this`signals
      ensures View() == Changed(old(View()), after)
    {
      if state == after { return; }
      var before := state;
      state := after;
      var value := Announcement(before, after);
      if value.Some? {
        signals := signals + [value.value];
      }
    }

    method CheckAuthorizationCallback(authorized: bool)
      modifies this
      ensures Valid() && View() == Answered(old(View()), authorized)
    {
      ChangeState(if authorized then Auth else Init);
      authRq := null;
    }

    method InitializeRequest(id: nat)
      modifies this
      ensures Valid() && View() == Asked(old(View()), id)
      ensures authRq != null && fresh(authRq)
    {
      authRq := new AuthRequest(id);
      ChangeState(Pending);
    }

    method GenerateToken(token: Option<string>, duration: nat, now: Option<int>) returns (ok: bool)
      requires Valid()
      modifies this`tokens
      ensures Valid() && ok == Generated(old(View()), token, duration, now).Some?
      ensures View() == if ok then Generated(old(View()), token, duration, now).value else old(View())
    {
      if state != Auth || token.None? || now.None? { return false; }
      tokens := tokens[token.value := now.value + if duration == 0 then 5 else duration];
      ok := true;
    }

    method RevokeToken(token: string) returns (found: bool)
      requires Valid()
      modifies this`tokens
      ensures Valid() && found == (token in old(tokens))
      ensures View() == old(View()).(tokens := old(tokens) - {token})
    {
      found := token in tokens;
      tokens := tokens - {token};
    }

    method AuthorizePeerWithToken(peer: Session, token: string, now: Option<int>) returns (ret: Reply)
      requires Valid() && peer.Valid() && peer != this
      modifies this`tokens, peer`state, peer`signals, peer.authRq
      ensures Valid() && peer.Valid()
      ensures if Honours(old(View()), peer.uid, token, now) then
                && ret == Granted
                && View() == old(View()).(tokens := old(tokens) - {token})
                && peer.View() == GrantedAuthorization(old(peer.View()))
              else
                ret == Failed && View() == old(View()) && peer.View() == old(peer.View())
    {
      if state != Auth || uid != peer.uid { return Failed; }
      if token !in tokens || tokens[token] == 0 { return Failed; }
      if now.None? { return Failed; }
      if now.value > Int32(tokens[token]) { return Failed; }
      tokens := tokens - {token};
      ret := peer.GrantAuthorization();
    }

    method RevokeAuthorization()
      requires Valid()
      modifies this`state, this`signals, authRq
      ensures Valid() && View() == RevokedAuthorization(old(View()))
      ensures old(state) == Pending && uid != 0 ==> authRq.cancelled
    {
      if uid == 0 { return; }
      match state
      case Auth => ChangeState(Init);
      case Pending =>
        authRq.cancelled := true;
        ChangeState(Init);
      case Init =>
    }

    method GrantAuthorization() returns (ret: Reply)
      requires Valid()
      modifies this`state, this`signals, authRq
      ensures Valid() && ret == Granted && View() == GrantedAuthorization(old(View()))
      ensures old(state) == Pending ==> authRq.cancelled
    {
      match state {
        case Auth =>
        case Pending =>
          authRq.cancelled := true;
          ChangeState(Auth);
        case Init => ChangeState(Auth);
      }
      ret := Granted;
    }

    /** `peer` is the session on the named bus, or null when there is none, and
        `named` tells which of bus and token were given. */
    method Authorize(bus: bool, token: Option<string>, peer: Session?, id: nat, now: Option<int>) returns (ret: Reply)
      requires Valid() && (peer != null ==> peer.Valid())
      modifies this, authRq, peer
      ensures Valid() && (peer != null ==> peer.Valid())
      ensures ret == ReplyTo(old(View()), bus, token, if peer == null then None else Some(old(peer.View())), now)
      ensures View() == if old(state) == Init && !bus && token.None? then Asked(old(View()), id)
                        else if ret == Granted then GrantedAuthorization(old(View())) else old(View())
      ensures peer != null && peer != this ==>
                peer.View() == if old(state) == Init && ret == Granted
                               then old(peer.View()).(tokens := old(peer.tokens) - {token.value})
                               else old(peer.View())
    {
      match state
      case Pending => ret := AlreadyPending;
      case Auth => ret := Granted;
      case Init =>
        if !bus && token.None? {
          InitializeRequest(id);
          ret := Accepted;
        } else if bus && token.Some? && peer != null && peer != this {
          ret := peer.AuthorizePeerWithToken(this, token.value, now);
        } else {
          // incomplete parameters, no such session, or itself not authorized
          ret := Failed;
        }
    }
  }

  /** The answer to an authorization request; `peer` is the session presented
      with a token. */
  function ReplyTo(s: SessionView, bus: bool, token: Option<string>, peer: Option<SessionView>,
      now: Option<int>): Reply {
    match s.state
    case Pending => AlreadyPending
    case Auth => Granted
    case Init =>
      if !bus && token.None? then Accepted
      else if bus && token.Some? && peer.Some? && Honours(peer.value, s.uid, token.value, now) then Granted
      else Failed
  }
}
