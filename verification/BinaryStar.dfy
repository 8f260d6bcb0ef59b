/** The expiry service's pair of redundant servers: two state machines that tell each other their states. */
module BinaryStar {

  datatype State = Primary | Backup | Active | Passive

  // A peer's state, or a request from a client.
  datatype Event = Peer(state: State) | ClientRequest

  const HEARTBEAT := 1000000

  // The state after an event; `expired` says whether the peer has been silent for too long.
  function NextState(s: State, e: Event, expired: bool): State {
    match s
    case Primary => if e == Peer(Backup) then Active else if e == Peer(Active) then Passive else s
    case Backup => if e == Peer(Active) then Passive else s
    case Active => s
    case Passive =>
      if e == Peer(Primary) || e == Peer(Backup) || (e == ClientRequest && expired) then Active else s
  }

  // Whether the event was good; a server stops after a bad one.
  predicate EventOk(s: State, e: Event, expired: bool) {
    match s
    case Primary => true
    case Backup => e != ClientRequest
    case Active => e != Peer(Active)
    case Passive => e != Peer(Passive) && (e == ClientRequest ==> expired)
  }

  class Fsm {
    var state: State
    var peerExpiry: int

    constructor (init: State)
      ensures state == init
    {
      state := init;
    }

    method HandleEvent(e: Event, now: int) returns (ok: bool)
      modifies this
      ensures state == NextState(old(state), e, now >= old(peerExpiry))
      ensures ok == EventOk(old(state), e, now >= old(peerExpiry))
      ensures peerExpiry == if ok && e != ClientRequest then now + 2 * HEARTBEAT else old(peerExpiry)
      ensures (old(state) == Primary || old(state) == Backup) && e == Peer(Active) ==> ok && state == Passive
      ensures old(state) == Primary && e == Peer(Backup) ==> ok && state == Active
      ensures old(state) == Passive && (e == Peer(Primary) || e == Peer(Backup)) ==> ok && state == Active
      ensures old(state) == Passive && (e == Peer(Active) || e == Peer(Passive)) ==>
        state == Passive && (ok <==> e == Peer(Active))
      ensures old(state) == Active ==> state == Active && (ok <==> e != Peer(Active))
      ensures old(state) == Passive && e == ClientRequest ==>
        (ok <==> now >= old(peerExpiry)) && state == if ok then Active else Passive
      ensures e == ClientRequest && (old(state) == Primary || old(state) == Backup) ==>
        state == old(state) && (ok <==> state == Primary)
    {
      ok := true;
      if state == Primary {
        if e == Peer(Backup) {
          state := Active;
        } else if e == Peer(Active) {
          state := Passive;
        }
      } else if state == Backup {
        if e == Peer(Active) {
          state := Passive;
        } else if e == ClientRequest {
          ok := false;
        }
      } else if state == Active {
        if e == Peer(Active) {
          ok := false;
        }
      } else {
        if e == Peer(Primary) {
          state := Active;
        } else if e == Peer(Backup) {
          state := Active;
        } else if e == Peer(Passive) {
          ok := false;
        } else if e == ClientRequest {
          if now >= peerExpiry {
            state := Active;
          } else {
            ok := false;
          }
        }
      }
      if ok && e != ClientRequest {
        peerExpiry := now + 2 * HEARTBEAT;
      }
    }
  }

  /* ---- the two servers ---- */

  datatype Server = Down | Up(state: State)

  // `pb` holds the heartbeats on their way from the primary to the backup, oldest first; `bp` the other way.
  datatype Pair = Pair(p: Server, b: Server, pb: seq<State>, bp: seq<State>)

  datatype Side = PrimarySide | BackupSide

  function Role(side: Side): State {
    if side == PrimarySide then Primary else Backup
  }

  function At(s: Pair, side: Side): Server {
    if side == PrimarySide then s.p else s.b
  }

  function Other(side: Side): Side {
    if side == PrimarySide then BackupSide else PrimarySide
  }

  function Inbox(s: Pair, side: Side): seq<State> {
    if side == PrimarySide then s.bp else s.pb
  }

  function Put(s: Pair, side: Side, server: Server): Pair {
    if side == PrimarySide then s.(p := server) else s.(b := server)
  }

  function PutInbox(s: Pair, side: Side, inbox: seq<State>): Pair {
    if side == PrimarySide then s.(bp := inbox) else s.(pb := inbox)
  }

  // A server that stops, by a crash or after a bad event, takes both connections down with it.
  function Stopped(s: Pair, side: Side): Pair {
    Put(s, side, Down).(pb := [], bp := [])
  }

  function After(s: Pair, side: Side, e: Event, expired: bool): Pair
    requires At(s, side).Up?
  {
    var st := At(s, side).state;
    if EventOk(st, e, expired) then Put(s, side, Up(NextState(st, e, expired))) else Stopped(s, side)
  }

  datatype Action =
    | Publish(side: Side)
    | Receive(side: Side)
    | Lose(side: Side, i: nat)
    | Client(side: Side, expired: bool)
    | Crash(side: Side)
    | Restart(side: Side)

  predicate CanDo(s: Pair, a: Action) {
    match a
    case Publish(side) => At(s, side).Up?
    case Receive(side) => At(s, side).Up? && Inbox(s, side) != []
    case Lose(side, i) => i < |Inbox(s, side)|
    case Client(side, _) => At(s, side).Up?
    case Crash(side) => At(s, side).Up?
    case Restart(side) => At(s, side).Down?
  }

  function Do(s: Pair, a: Action): Pair
    requires CanDo(s, a)
  {
    match a
    case Publish(side) => PutInbox(s, Other(side), Inbox(s, Other(side)) + [At(s, side).state])
    case Receive(side) =>
      After(PutInbox(s, side, Inbox(s, side)[1..]), side, Peer(Inbox(s, side)[0]), false)
    case Lose(side, i) => PutInbox(s, side, Inbox(s, side)[..i] + Inbox(s, side)[i + 1..])
    case Client(side, expired) => After(s, side, ClientRequest, expired)
    case Crash(side) => Stopped(s, side)
    case Restart(side) => Put(s, side, Up(Role(side)))
  }

  function Start(): Pair {
    Pair(Up(Primary), Up(Backup), [], [])
  }

  // A passive server takes over on a client's request.
  predicate Failover(s: Pair, a: Action) {
    a.Client? && a.expired && At(s, a.side) == Up(Passive)
  }

  // What the environment must never do: let the silence timer of a server run out while its peer is the master.
  predicate SplitBrain(s: Pair, a: Action) {
    Failover(s, a) && At(s, Other(a.side)) == Up(Active)
  }

  predicate BothActive(s: Pair) {
    s.p == Up(Active) && s.b == Up(Active)
  }

  predicate BothPassive(s: Pair) {
    s.p == Up(Passive) && s.b == Up(Passive)
  }

  // The receiver calls the heartbeat a fatal error: both servers claim to be masters, or both to be slaves.
  predicate FatalReceive(s: Pair, a: Action)
    requires CanDo(s, a)
  {
    a.Receive? && !EventOk(At(s, a.side).state, Peer(Inbox(s, a.side)[0]), false)
  }

  /* ---- the invariant ---- */

  // In the order of sending, nothing but `Active` follows an `Active`.
  ghost predicate Settled(ch: seq<State>) {
    forall i, j :: 0 <= i < j < |ch| && ch[i] == Active ==> ch[j] == Active
  }

  // What the heartbeats from `from` to `to` say about the two servers; `role` is the state `from` starts in.
  ghost predicate ChannelInv(from: Server, to: Server, ch: seq<State>, role: State) {
    && Settled(ch)
    && (forall m <- ch :: m == role || m == Active || m == Passive)
    && (from.Down? ==> ch == [])
    && (Active in ch ==> from == Up(Active))
    && (Passive in ch ==> from == Up(Passive) || from == Up(Active))
    && (to == Up(Passive) ==> Passive !in ch)
    && (role in ch && from == Up(Passive) ==> to == Up(Active))
    && (role in ch && from == Up(Active) ==> to != Up(Passive))
    && (from == Up(Passive) ==> to != Up(Passive))
  }

  ghost predicate Inv(s: Pair) {
    && (s.p.Up? ==> s.p.state != Backup) && (s.b.Up? ==> s.b.state != Primary)
    && !BothActive(s)
    && ChannelInv(s.p, s.b, s.pb, Primary)
    && ChannelInv(s.b, s.p, s.bp, Backup)
    && (s.b == Up(Active) ==> Backup !in s.bp)
  }

  lemma SettledDrop(ch: seq<State>, i: nat)
    requires Settled(ch) && i < |ch|
    ensures Settled(ch[..i] + ch[i + 1..]) && forall m <- ch[..i] + ch[i + 1..] :: m in ch
  {
    var rest := ch[..i] + ch[i + 1..];
    assert forall k :: 0 <= k < |rest| ==> rest[k] == ch[if k < i then k else k + 1];
  }

  // What holds of a channel holds of part of it.
  lemma ChannelInvPart(from: Server, to: Server, ch: seq<State>, part: seq<State>, role: State)
    requires ChannelInv(from, to, ch, role) && Settled(part) && forall m <- part :: m in ch
    ensures ChannelInv(from, to, part, role)
  {
    hide Settled;
    if part != [] {
      assert part[0] in ch;
    }
  }

  lemma InvPart(s: Pair, side: Side, part: seq<State>)
    requires Inv(s) && Settled(part) && forall m <- part :: m in Inbox(s, side)
    ensures Inv(PutInbox(s, side, part))
  {
    hide ChannelInv, Settled;
    if side == PrimarySide {
      ChannelInvPart(s.b, s.p, s.bp, part, Backup);
    } else {
      ChannelInvPart(s.p, s.b, s.pb, part, Primary);
    }
  }

  lemma ChannelSettled(s: Pair, side: Side)
    requires Inv(s)
    ensures Settled(Inbox(s, side))
  {
  }

  lemma InvDrop(s: Pair, side: Side, i: nat)
    requires Inv(s) && i < |Inbox(s, side)|
    ensures Inv(PutInbox(s, side, Inbox(s, side)[..i] + Inbox(s, side)[i + 1..]))
  {
    hide Inv, Settled;
    ChannelSettled(s, side);
    SettledDrop(Inbox(s, side), i);
    InvPart(s, side, Inbox(s, side)[..i] + Inbox(s, side)[i + 1..]);
  }

  lemma InvPublish(s: Pair, side: Side)
    requires Inv(s) && At(s, side).Up?
    ensures Inv(Do(s, Publish(side)))
  {
  }

  // Taking the oldest heartbeat off keeps the invariant.
  lemma InvTaken(s: Pair, side: Side)
    requires Inv(s) && Inbox(s, side) != []
    ensures Inv(PutInbox(s, side, Inbox(s, side)[1..]))
    ensures Settled(Inbox(s, side))
  {
    hide Inv, Settled;
    ChannelSettled(s, side);
    InvDrop(s, side, 0);
    assert Inbox(s, side)[..0] + Inbox(s, side)[1..] == Inbox(s, side)[1..];
  }

  lemma InvReceive(s: Pair, side: Side)
    requires Inv(s) && CanDo(s, Receive(side))
    ensures Inv(Do(s, Receive(side)))
    ensures !FatalReceive(s, Receive(side))
  {
    var ch := Inbox(s, side);
    InvTaken(s, side);
    assert ch[0] in ch;
    assert forall m <- ch[1..] :: m in ch;
    assert ch[0] == Active ==> forall m <- ch[1..] :: m == Active;
    hide Settled;
  }

  lemma InvStopped(s: Pair, side: Side)
    requires Inv(s)
    ensures Inv(Stopped(s, side))
  {
  }

  lemma InvRestart(s: Pair, side: Side)
    requires Inv(s) && CanDo(s, Restart(side))
    ensures Inv(Do(s, Restart(side)))
  {
  }

  lemma InvClient(s: Pair, side: Side, expired: bool)
    requires Inv(s) && CanDo(s, Client(side, expired))
    ensures Inv(Do(s, Client(side, expired))) <==> !SplitBrain(s, Client(side, expired))
  {
    InvStopped(s, side);
  }

  // Every step but one keeps the invariant, and that one makes two masters.
  lemma StepKeeps(s: Pair, a: Action)
    requires Inv(s) && CanDo(s, a)
    ensures Inv(Do(s, a)) <==> !SplitBrain(s, a)
    ensures BothActive(Do(s, a)) <==> SplitBrain(s, a)
    ensures !FatalReceive(s, a)
  {
    match a
    case Publish(side) => InvPublish(s, side);
    case Receive(side) => InvReceive(s, side);
    case Lose(side, i) => InvDrop(s, side, i);
    case Client(side, expired) => InvClient(s, side, expired);
    case Crash(side) => InvStopped(s, side);
    case Restart(side) => InvRestart(s, side);
  }

  /* ---- runs ---- */

  predicate Legal(s: Pair, run: seq<Action>)
    decreases |run|
  {
    run == [] || (CanDo(s, run[0]) && Legal(Do(s, run[0]), run[1..]))
  }

  function StateAfter(s: Pair, run: seq<Action>): Pair
    requires Legal(s, run)
    decreases |run|
  {
    if run == [] then s else StateAfter(Do(s, run[0]), run[1..])
  }

  // Two masters in some state the run passes through.
  predicate MeetsBothActive(s: Pair, run: seq<Action>)
    requires Legal(s, run)
    decreases |run|
  {
    BothActive(s) || (run != [] && MeetsBothActive(Do(s, run[0]), run[1..]))
  }

  predicate MeetsSplitBrain(s: Pair, run: seq<Action>)
    requires Legal(s, run)
    decreases |run|
  {
    run != [] && (SplitBrain(s, run[0]) || MeetsSplitBrain(Do(s, run[0]), run[1..]))
  }

  predicate MeetsFatal(s: Pair, run: seq<Action>)
    requires Legal(s, run)
    decreases |run|
  {
    run != [] && (FatalReceive(s, run[0]) || MeetsFatal(Do(s, run[0]), run[1..]))
  }

  lemma {:induction false} RunKeeps(s: Pair, run: seq<Action>)
    requires Inv(s) && Legal(s, run)
    ensures MeetsBothActive(s, run) <==> MeetsSplitBrain(s, run)
    ensures !MeetsSplitBrain(s, run) ==> Inv(StateAfter(s, run)) && !MeetsFatal(s, run)
    decreases |run|
  {
    if run != [] {
      StepKeeps(s, run[0]);
      if !SplitBrain(s, run[0]) {
        RunKeeps(Do(s, run[0]), run[1..]);
      }
    }
  }

  // Over every run of lossy heartbeats, crashes, restarts and client requests: the servers are at some moment both
  // masters exactly when a silence timer ran out on a live master; otherwise they are never both slaves either,
  // and no heartbeat is ever a fatal error.
  lemma MutualExclusion(run: seq<Action>)
    requires Legal(Start(), run)
    ensures MeetsBothActive(Start(), run) <==> MeetsSplitBrain(Start(), run)
    ensures !MeetsSplitBrain(Start(), run) ==> !BothPassive(StateAfter(Start(), run)) && !MeetsFatal(Start(), run)
  {
    RunKeeps(Start(), run);
  }

  predicate FailsOverOnlyWhenDown(s: Pair, run: seq<Action>)
    requires Legal(s, run)
    decreases |run|
  {
    run == [] ||
    ((Failover(s, run[0]) ==> At(s, Other(run[0].side)).Down?) && FailsOverOnlyWhenDown(Do(s, run[0]), run[1..]))
  }

  lemma {:induction false} DownIsNoSplitBrain(s: Pair, run: seq<Action>)
    requires Legal(s, run) && FailsOverOnlyWhenDown(s, run)
    ensures !MeetsSplitBrain(s, run)
    decreases |run|
  {
    if run != [] {
      DownIsNoSplitBrain(Do(s, run[0]), run[1..]);
    }
  }

  // With failover only when the peer is down there is never more than one master.
  lemma OneMaster(run: seq<Action>)
    requires Legal(Start(), run) && FailsOverOnlyWhenDown(Start(), run)
    ensures !MeetsBothActive(Start(), run) && !MeetsFatal(Start(), run)
    ensures !BothActive(StateAfter(Start(), run)) && !BothPassive(StateAfter(Start(), run))
  {
    DownIsNoSplitBrain(Start(), run);
    RunKeeps(Start(), run);
  }

  lemma RunFrom(s: Pair, a: Action, t: Pair, run: seq<Action>)
    requires CanDo(s, a) && t == Do(s, a) && Legal(t, run)
    ensures Legal(s, [a] + run) && StateAfter(s, [a] + run) == StateAfter(t, run)
  {
    assert ([a] + run)[1..] == run;
  }

  // Losing a heartbeat of a live master is enough to break it: from where the primary is the master, the heartbeat is
  // lost, the timer runs out, and a client's request comes.
  lemma SplitFromMaster(s: Pair) returns (run: seq<Action>)
    requires s == Pair(Up(Active), Up(Passive), [], [])
    ensures (forall a <- run :: !a.Crash?) && Lose(BackupSide, 0) in run && Client(BackupSide, true) in run
    ensures Legal(s, run) && BothActive(StateAfter(s, run))
  {
    hide Legal, StateAfter;
    EndOfSplit(s);
    var sent := s.(pb := [Active]);
    assert Do(sent, Lose(BackupSide, 0)) == s;
    RunFrom(sent, Lose(BackupSide, 0), s, [Client(BackupSide, true)]);
    RunFrom(s, Publish(PrimarySide), sent, [Lose(BackupSide, 0)] + [Client(BackupSide, true)]);
    run := [Publish(PrimarySide)] + ([Lose(BackupSide, 0)] + [Client(BackupSide, true)]);
    assert run[1] == Lose(BackupSide, 0) && run[2] == Client(BackupSide, true);
  }

  // How the primary becomes the master and the backup its slave.
  function OpeningMoves(rest: seq<Action>): seq<Action> {
    [Publish(BackupSide)] + ([Receive(PrimarySide)] + ([Publish(PrimarySide)] + ([Receive(BackupSide)] + rest)))
  }

  lemma OpeningMovesHave(rest: seq<Action>)
    ensures forall a <- rest :: a in OpeningMoves(rest)
    ensures forall a <- OpeningMoves(rest) :: a.Crash? ==> a in rest
  {
    var run := OpeningMoves(rest);
    assert run == [Publish(BackupSide), Receive(PrimarySide), Publish(PrimarySide), Receive(BackupSide)] + rest;
  }

  lemma MasterFromStart(rest: seq<Action>)
    requires Legal(Pair(Up(Active), Up(Passive), [], []), rest)
    ensures var run := OpeningMoves(rest);
      Legal(Start(), run) && StateAfter(Start(), run) == StateAfter(Pair(Up(Active), Up(Passive), [], []), rest)
  {
    hide Legal, StateAfter;
    var s2 := Pair(Up(Active), Up(Backup), [], []);
    RunFrom(s2.(pb := [Active]), Receive(BackupSide), Pair(Up(Active), Up(Passive), [], []), rest);
    var r3 := [Receive(BackupSide)] + rest;
    RunFrom(s2, Publish(PrimarySide), s2.(pb := [Active]), r3);
    var r2 := [Publish(PrimarySide)] + r3;
    RunFrom(Start().(bp := [Backup]), Receive(PrimarySide), s2, r2);
    RunFrom(Start(), Publish(BackupSide), Start().(bp := [Backup]), [Receive(PrimarySide)] + r2);
  }

  // A run without any crash that ends with two masters.
  lemma LostHeartbeatsSplit()
    ensures exists run: seq<Action> ::
      && Legal(Start(), run) && BothActive(StateAfter(Start(), run))
      && (forall a <- run :: !a.Crash?)
      && Lose(BackupSide, 0) in run && Client(BackupSide, true) in run
  {
    var rest := SplitFromMaster(Pair(Up(Active), Up(Passive), [], []));
    hide Legal, StateAfter, BothActive, OpeningMoves;
    MasterFromStart(rest);
    OpeningMovesHave(rest);
    var run := OpeningMoves(rest);
    assert Legal(Start(), run);
  }

  lemma EndOfSplit(s: Pair)
    requires s.p == Up(Active) && s.b == Up(Passive)
    ensures Legal(s, [Client(BackupSide, true)]) && BothActive(StateAfter(s, [Client(BackupSide, true)]))
  {
    assert [Client(BackupSide, true)][1..] == [];
  }

  /* ---- who serves clients ---- */

  // A client's request to a server that is up is answered; otherwise the server stops.
  predicate Answers(s: Pair, side: Side, expired: bool) {
    At(s, side).Up? && CanDo(s, Client(side, expired)) && At(Do(s, Client(side, expired)), side).Up?
  }

  // A server that hears a master while it is in its starting role becomes its slave, and refuses clients until its
  // silence timer runs out.
  lemma StarterFollowsMaster(s: Pair, side: Side)
    requires CanDo(s, Receive(side)) && At(s, side) == Up(Role(side)) && Inbox(s, side)[0] == Active
    ensures var after := Do(s, Receive(side));
      At(after, side) == Up(Passive) && !Answers(after, side, false) && Answers(after, side, true)
      && At(after, Other(side)) == At(s, Other(side))
  {
  }

  // A slave stays one, and refuses clients whose requests come in time, as long as it hears nothing but masters.
  lemma {:induction false} SlaveRefuses(s: Pair, side: Side, run: seq<Action>)
    requires Legal(s, run) && At(s, side) == Up(Passive) && HearsOnlyMasters(s, side, run)
    ensures At(StateAfter(s, run), side) == Up(Passive) && !Answers(StateAfter(s, run), side, false)
    decreases |run|
  {
    if run != [] {
      SlaveRefuses(Do(s, run[0]), side, run[1..]);
    }
  }

  // In the run the server itself neither crashes nor is asked, and takes only heartbeats of a master.
  predicate HearsOnlyMasters(s: Pair, side: Side, run: seq<Action>)
    requires Legal(s, run)
    decreases |run|
  {
    run == [] ||
    (var a := run[0];
     && !(a.side == side && (a.Crash? || a.Client?))
     && (a.side == side && a.Receive? ==> Inbox(s, side)[0] == Active)
     && HearsOnlyMasters(Do(s, a), side, run[1..]))
  }

  /* ---- the pair settles ---- */

  predicate BothUp(s: Pair) {
    s.p.Up? && s.b.Up?
  }

  predicate OneOfEach(s: Pair) {
    (s.p == Up(Active) && s.b == Up(Passive)) || (s.p == Up(Passive) && s.b == Up(Active))
  }

  // Nothing happens but heartbeats: they are sent, arrive or get lost.
  predicate Quiet(run: seq<Action>) {
    forall a <- run :: a.Publish? || a.Receive? || a.Lose?
  }

  lemma QuietStepKeepsUp(s: Pair, a: Action)
    requires Inv(s) && BothUp(s) && CanDo(s, a) && (a.Publish? || a.Receive? || a.Lose?)
    ensures Inv(Do(s, a)) && BothUp(Do(s, a))
    ensures OneOfEach(s) ==> Do(s, a).p == s.p && Do(s, a).b == s.b
  {
    StepKeeps(s, a);
    if a.Receive? {
      var ch := Inbox(s, a.side);
      assert ch[0] in ch;
    }
  }

  // Heartbeats alone stop no server, and once there is a master and a slave they stay so.
  lemma {:induction false} QuietKeepsUp(s: Pair, run: seq<Action>)
    requires Inv(s) && BothUp(s) && Legal(s, run) && Quiet(run)
    ensures Inv(StateAfter(s, run)) && BothUp(StateAfter(s, run))
    ensures OneOfEach(s) ==> StateAfter(s, run).p == s.p && StateAfter(s, run).b == s.b
    decreases |run|
  {
    if run != [] {
      hide Inv, Do;
      assert run[0] in run && forall a <- run[1..] :: a in run;
      QuietStepKeepsUp(s, run[0]);
      QuietKeepsUp(Do(s, run[0]), run[1..]);
    }
  }

  // A heartbeat each way, the primary's first, delivered at once.
  function Exchange(): seq<Action> {
    [Publish(PrimarySide), Receive(BackupSide), Publish(BackupSide), Receive(PrimarySide)]
  }

  // One heartbeat from a server reaches the other, with nothing else under way.
  function Beat(s: Pair, side: Side): Pair
    requires BothUp(s) && s.pb == [] && s.bp == []
  {
    After(s, Other(side), Peer(At(s, side).state), false)
  }

  lemma BeatIs(s: Pair, side: Side)
    requires BothUp(s) && s.pb == [] && s.bp == []
    ensures CanDo(s, Publish(side)) && CanDo(Do(s, Publish(side)), Receive(Other(side)))
    ensures Do(Do(s, Publish(side)), Receive(Other(side))) == Beat(s, side)
  {
    assert PutInbox(PutInbox(s, Other(side), [At(s, side).state]), Other(side), []) == s;
  }

  lemma BeatKeeps(s: Pair, side: Side)
    requires Inv(s) && BothUp(s) && s.pb == [] && s.bp == []
    ensures Inv(Beat(s, side)) && BothUp(Beat(s, side)) && Beat(s, side).pb == [] && Beat(s, side).bp == []
  {
    BeatIs(s, side);
    hide Inv;
    StepKeeps(s, Publish(side));
    StepKeeps(Do(s, Publish(side)), Receive(Other(side)));
  }

  lemma ExchangeIs(s: Pair)
    requires Inv(s) && BothUp(s) && s.pb == [] && s.bp == []
    ensures var t := Beat(s, PrimarySide);
      && BothUp(t) && t.pb == [] && t.bp == []
      && Legal(s, Exchange()) && StateAfter(s, Exchange()) == Beat(t, BackupSide)
  {
    var t := Beat(s, PrimarySide);
    BeatKeeps(s, PrimarySide);
    BeatIs(s, PrimarySide);
    BeatIs(t, BackupSide);
    hide Inv, Do, Beat, Legal, StateAfter;
    var u := Do(t, Publish(BackupSide));
    NoRun(Do(u, Receive(PrimarySide)));
    RunFrom(u, Receive(PrimarySide), Do(u, Receive(PrimarySide)), []);
    RunFrom(t, Publish(BackupSide), u, [Receive(PrimarySide)] + []);
    RunFrom(Do(s, Publish(PrimarySide)), Receive(BackupSide), t, [Publish(BackupSide)] + ([Receive(PrimarySide)] + []));
    RunFrom(s, Publish(PrimarySide), Do(s, Publish(PrimarySide)),
            [Receive(BackupSide)] + ([Publish(BackupSide)] + ([Receive(PrimarySide)] + [])));
    assert Exchange() ==
      [Publish(PrimarySide)] + ([Receive(BackupSide)] + ([Publish(BackupSide)] + ([Receive(PrimarySide)] + [])));
  }

  lemma NoRun(s: Pair)
    ensures Legal(s, []) && StateAfter(s, []) == s
  {
  }

  // Two exchanges make a master and a slave of any two servers that are up.
  lemma TwoExchanges(s: Pair)
    requires Inv(s) && BothUp(s) && s.pb == [] && s.bp == []
    ensures Legal(s, Exchange()) && Inv(StateAfter(s, Exchange()))
    ensures var t := StateAfter(s, Exchange());
      BothUp(t) && t.pb == [] && t.bp == [] && Legal(t, Exchange()) && OneOfEach(StateAfter(t, Exchange()))
  {
    ExchangeIs(s);
    BeatKeeps(s, PrimarySide);
    BeatKeeps(Beat(s, PrimarySide), BackupSide);
    var t := StateAfter(s, Exchange());
    ExchangeIs(t);
    SettledStates(s);
  }

  lemma SettledStates(s: Pair)
    requires Inv(s) && BothUp(s) && s.pb == [] && s.bp == []
    ensures var t := Beat(s, PrimarySide);
      && BothUp(t) && t.pb == [] && t.bp == []
      && var u := Beat(t, BackupSide);
      && BothUp(u) && u.pb == [] && u.bp == []
      && var v := Beat(u, PrimarySide);
      && BothUp(v) && v.pb == [] && v.bp == [] && OneOfEach(Beat(v, BackupSide))
  {
  }

  /* From every state that is reached without a split, with both servers up: whatever heartbeats are still under way
     arrive or get lost, two more each way leave exactly one master and one slave, and heartbeats never change that. */
  lemma PairSettles(run: seq<Action>, quiet: seq<Action>, later: seq<Action>)
    requires Legal(Start(), run) && !MeetsSplitBrain(Start(), run) && BothUp(StateAfter(Start(), run))
    requires Legal(StateAfter(Start(), run), quiet) && Quiet(quiet)
    requires var s := StateAfter(StateAfter(Start(), run), quiet); s.pb == [] && s.bp == []
    ensures var s := StateAfter(StateAfter(Start(), run), quiet);
      && Legal(s, Exchange()) && Legal(StateAfter(s, Exchange()), Exchange())
      && var t := StateAfter(StateAfter(s, Exchange()), Exchange());
      && OneOfEach(t)
      && (Legal(t, later) && Quiet(later) ==> StateAfter(t, later).p == t.p && StateAfter(t, later).b == t.b)
  {
    hide Inv, Legal, StateAfter, Exchange, MeetsSplitBrain;
    StartIsFine();
    RunKeeps(Start(), run);
    QuietKeepsUp(StateAfter(Start(), run), quiet);
    var s := StateAfter(StateAfter(Start(), run), quiet);
    TwoExchanges(s);
    var t := StateAfter(StateAfter(s, Exchange()), Exchange());
    SettledKeeps(StateAfter(s, Exchange()));
    if Legal(t, later) && Quiet(later) {
      QuietKeepsUp(t, later);
    }
  }

  lemma StartIsFine()
    ensures Inv(Start())
  {
  }

  lemma SettledKeeps(s: Pair)
    requires Inv(s) && BothUp(s) && Legal(s, Exchange())
    ensures Inv(StateAfter(s, Exchange())) && BothUp(StateAfter(s, Exchange()))
  {
    QuietKeepsUp(s, Exchange());
  }
}
