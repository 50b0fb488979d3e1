/** `CameraConnection`: the supervisor of the websocket control channel.
    A loop thread connects, polls the connection once a second while it is
    up, reconnects after a fixed back-off and gives up after a bounded
    number of consecutive failures; every successful connect (re)starts a
    heartbeat thread that sends a liveness message every 30 seconds while
    the channel stays open.

    The threads are run one at a time: `ConnectLoop` and `SendHeartbeat`
    are driven by scripts that say what the other threads and the network
    do while they sleep. */
module CameraConn {
  import opened Common

  /** The initial values the constructor gives the tuning fields. */
  const DefaultProtocolVersion: int := 3
  const ReconnectIntervalSeconds: nat := 5
  const MaxReconnectAttempts: nat := 10
  const HeartbeatIntervalSeconds: nat := 30
  /** The sleep of the loop while the connection is up. */
  const PollSeconds: nat := 1

  /** A `WebsocketProtocol` object; `channelOpen` is its `IsAudioChannelOpened()`. */
  datatype Session = Session(channelOpen: bool)

  /** How one `Connect` attempt ends: `OpenAudioChannel` succeeds (and its
      opened callback has set `is_connected_`), returns false, or something
      inside the `try` throws. */
  datatype ConnectOutcome = Opened | OpenFailed | Threw

  /** What the connection threads do, in order. */
  datatype Act =
    | Polled              // sleep_for(1 s) while connected
    | Dialed(outcome: ConnectOutcome)
    | BackedOff           // sleep_for(reconnect_interval_seconds_)
    | HeartbeatJoined
    | HeartbeatSpawned
    | ChannelClosed       // CloseAudioChannel() in Stop

  /** The fields the connection threads read and write: `should_connect_`,
      `is_connected_`, `websocket_protocol_`, `current_reconnect_attempts_`
      and whether `heartbeat_thread_` is joinable. */
  datatype Link = Link(shouldConnect: bool, isConnected: bool, protocol: Option<Session>,
                       attempts: nat, heartbeat: bool)

  /** `IsConnected()`: the flag, a protocol object and an open channel. */
  predicate Connected(l: Link)
  {
    l.isConnected && l.protocol.Some? && l.protocol.value.channelOpen
  }

  // ---------------------------------------------------------------------
  // What other threads and the network do

  /** `Stop` on another thread clears both flags before it joins; the
      closed callback of the protocol clears `is_connected_`. */
  datatype Interrupt = Calm | StopRequested | ChannelDropped

  function Interrupted(l: Link, e: Interrupt): Link
  {
    match e
    case Calm => l
    case StopRequested => l.(shouldConnect := false, isConnected := false)
    case ChannelDropped =>
      l.(isConnected := false, protocol := if l.protocol.Some? then Some(Session(false)) else None)
  }

  /** `Connect()`: a fresh protocol object replaces the old one; it is
      kept only when the channel opens. */
  function ConnectResult(l: Link, o: ConnectOutcome): (r: Link)
    ensures r.protocol.Some? <==> o == Opened
    ensures o == Opened ==> Connected(r)
    ensures r.shouldConnect == l.shouldConnect && r.attempts == l.attempts && r.heartbeat == l.heartbeat
    ensures o != Opened ==> r.isConnected == l.isConnected
  {
    if o == Opened then l.(protocol := Some(Session(true)), isConnected := true)
    else l.(protocol := None)
  }

  // ---------------------------------------------------------------------
  // ConnectLoop

  /** One turn of the loop: what happens while it sleeps, and how the
      `Connect` of that turn ends if it makes one. */
  datatype Round = Round(event: Interrupt, outcome: ConnectOutcome)

  /** Why the loop ended: `should_connect_` was false, the maximum number
      of attempts was reached, or the script ran out. */
  datatype Exit = Stopped | GaveUp | ScriptEnded

  datatype Pass = Pass(link: Link, acts: seq<Act>, exit: Option<Exit>)
  datatype Run = Run(link: Link, acts: seq<Act>, exit: Exit)

  /** One iteration of `while (should_connect_)`. */
  function Iteration(l: Link, r: Round): Pass
  {
    var m := Interrupted(l, r.event);
    if !m.shouldConnect then Pass(m, [], Some(Stopped))
    else if Connected(m) then Pass(m, [Polled], None)
    else Dial(m, r.outcome)
  }

  /** A `Connect` call of the loop and what follows it: on success the
      counter is reset and the heartbeat thread restarted, on failure the
      counter goes up and the loop either gives up or backs off. */
  function Dial(m: Link, o: ConnectOutcome): Pass
  {
    var c := ConnectResult(m, o);
    if o == Opened then
      Pass(c.(attempts := 0, heartbeat := true),
           [Dialed(Opened)] + (if c.heartbeat then [HeartbeatJoined] else []) + [HeartbeatSpawned],
           None)
    else if c.attempts + 1 >= MaxReconnectAttempts then
      Pass(c.(attempts := c.attempts + 1), [Dialed(o)], Some(GaveUp))
    else
      Pass(c.(attempts := c.attempts + 1), [Dialed(o), BackedOff], None)
  }

  /** The whole loop over a script of rounds. */
  function Loop(l: Link, rounds: seq<Round>): Run
  {
    LoopFrom(l, rounds, 0)
  }

  /** The loop from round `i` on. */
  function LoopFrom(l: Link, rounds: seq<Round>, i: nat): Run
    requires i <= |rounds|
    decreases |rounds| - i
  {
    if i == |rounds| then Run(l, [], ScriptEnded)
    else
      var p := Iteration(l, rounds[i]);
      if p.exit.Some? then Run(p.link, p.acts, p.exit.value)
      else Prefix(p.acts, LoopFrom(p.link, rounds, i + 1))
  }

  function Prefix(acts: seq<Act>, r: Run): Run
  {
    Run(r.link, acts + r.acts, r.exit)
  }

  /** One more round of a loop run so far from `l0`: `done` are the acts
      of the rounds before `i` and `l` is the link they left. */
  lemma LoopAdvance(l0: Link, rounds: seq<Round>, done: seq<Act>, l: Link, i: nat)
    requires i < |rounds|
    requires Loop(l0, rounds) == Prefix(done, LoopFrom(l, rounds, i))
    ensures var p := Iteration(l, rounds[i]);
      && (p.exit.Some? ==> Loop(l0, rounds) == Run(p.link, done + p.acts, p.exit.value))
      && (p.exit.None? ==> Loop(l0, rounds) == Prefix(done + p.acts, LoopFrom(p.link, rounds, i + 1)))
  {
    var p := Iteration(l, rounds[i]);
    var rest := LoopFrom(p.link, rounds, i + 1);
    assert done + (p.acts + rest.acts) == (done + p.acts) + rest.acts;
  }

  // Views of the act log, independent of the loop that writes it.

  function Failures(acts: seq<Act>): nat
  {
    if acts == [] then 0
    else (if acts[0].Dialed? && acts[0].outcome != Opened then 1 else 0) + Failures(acts[1..])
  }

  function Successes(acts: seq<Act>): nat
  {
    if acts == [] then 0
    else (if acts[0] == Dialed(Opened) then 1 else 0) + Successes(acts[1..])
  }

  function Backoffs(acts: seq<Act>): nat
  {
    if acts == [] then 0 else (if acts[0] == BackedOff then 1 else 0) + Backoffs(acts[1..])
  }

  /** The number of failed connects since the last successful one, counted
      on from `a` when the log holds no success. */
  function Streak(a: nat, acts: seq<Act>): nat
    decreases |acts|
  {
    if acts == [] then a
    else if acts[0] == Dialed(Opened) then Streak(0, acts[1..])
    else if acts[0].Dialed? then Streak(a + 1, acts[1..])
    else Streak(a, acts[1..])
  }

  /** Whether the heartbeat thread handle is joinable after `acts`, from
      `h`; `None` when a thread would be assigned to a joinable handle
      (which terminates the program) or a handle not joinable is joined. */
  function HeartbeatAfter(h: bool, acts: seq<Act>): Option<bool>
    decreases |acts|
  {
    if acts == [] then Some(h)
    else if acts[0] == HeartbeatSpawned then (if h then None else HeartbeatAfter(true, acts[1..]))
    else if acts[0] == HeartbeatJoined then (if h then HeartbeatAfter(false, acts[1..]) else None)
    else HeartbeatAfter(h, acts[1..])
  }

  lemma {:induction false} ViewsAppend(a: seq<Act>, b: seq<Act>)
    ensures Failures(a + b) == Failures(a) + Failures(b)
    ensures Successes(a + b) == Successes(a) + Successes(b)
    ensures Backoffs(a + b) == Backoffs(a) + Backoffs(b)
    ensures forall n: nat :: Streak(n, a + b) == Streak(Streak(n, a), b)
    ensures forall h: bool :: HeartbeatAfter(h, a + b)
              == (if HeartbeatAfter(h, a).Some? then HeartbeatAfter(HeartbeatAfter(h, a).value, b) else None)
  {
    if a != [] {
      assert (a + b)[1..] == a[1..] + b;
      ViewsAppend(a[1..], b);
    } else {
      assert a + b == b;
    }
  }

  predicate FailedDial(x: Act)
  {
    x.Dialed? && x.outcome != Opened
  }

  /** Every failed connect in `acts` is followed straight away by a
      back-off, except a failed connect that ends the log of a loop that
      gave up. */
  predicate BacksOffAfterFailures(acts: seq<Act>, gaveUp: bool)
  {
    && (forall j :: 0 <= j < |acts| - 1 && FailedDial(acts[j]) ==> acts[j + 1] == BackedOff)
    && (|acts| > 0 && FailedDial(acts[|acts| - 1]) ==> gaveUp)
  }

  lemma BacksOffAppend(a: seq<Act>, b: seq<Act>, gaveUp: bool)
    requires BacksOffAfterFailures(a, false) && BacksOffAfterFailures(b, gaveUp)
    ensures BacksOffAfterFailures(a + b, gaveUp)
  {
    var c := a + b;
    forall j | 0 <= j < |c| - 1 && FailedDial(c[j])
      ensures c[j + 1] == BackedOff
    {
      if j < |a| {
        assert a[j] == c[j];
        assert c[j + 1] == a[j + 1];
      } else {
        assert b[j - |a|] == c[j] && c[j + 1] == b[j + 1 - |a|];
      }
    }
    if b == [] {
      assert c == a;
    } else {
      assert c[|c| - 1] == b[|b| - 1];
    }
  }

  lemma ViewsOne(x: Act)
    ensures Failures([x]) == (if x.Dialed? && x.outcome != Opened then 1 else 0)
    ensures Successes([x]) == (if x == Dialed(Opened) then 1 else 0)
    ensures Backoffs([x]) == (if x == BackedOff then 1 else 0)
    ensures forall n: nat :: Streak(n, [x])
              == (if x == Dialed(Opened) then 0 else if x.Dialed? then n + 1 else n)
    ensures forall h: bool :: HeartbeatAfter(h, [x])
              == (if x == HeartbeatSpawned then (if h then None else Some(true))
                  else if x == HeartbeatJoined then (if h then Some(false) else None)
                  else Some(h))
  {
    assert [x][1..] == [];
  }

  /** The acts of a successful connect. */
  lemma SuccessActs(a: nat, h: bool)
    ensures var acts := [Dialed(Opened)] + (if h then [HeartbeatJoined] else []) + [HeartbeatSpawned];
      && Streak(a, acts) == 0 && Failures(acts) == 0 && Backoffs(acts) == 0
      && HeartbeatAfter(h, acts) == Some(true)
  {
    ViewsOne(Dialed(Opened));
    ViewsOne(HeartbeatSpawned);
    if h {
      ViewsOne(HeartbeatJoined);
      ViewsAppend([Dialed(Opened)], [HeartbeatJoined]);
      ViewsAppend([Dialed(Opened)] + [HeartbeatJoined], [HeartbeatSpawned]);
    } else {
      assert [Dialed(Opened)] + [] == [Dialed(Opened)];
      ViewsAppend([Dialed(Opened)], [HeartbeatSpawned]);
    }
  }

  /** The acts of a failed connect followed by a back-off. */
  lemma RetryActs(o: ConnectOutcome, a: nat, h: bool)
    requires o != Opened
    ensures var acts := [Dialed(o), BackedOff];
      && Streak(a, acts) == a + 1 && Failures(acts) == 1 && Backoffs(acts) == 1
      && HeartbeatAfter(h, acts) == Some(h)
  {
    ViewsOne(Dialed(o));
    ViewsOne(BackedOff);
    ViewsAppend([Dialed(o)], [BackedOff]);
    assert [Dialed(o)] + [BackedOff] == [Dialed(o), BackedOff];
  }

  /** The acts of one iteration, from a counter below the maximum. */
  lemma IterationFacts(l: Link, r: Round)
    requires l.attempts < MaxReconnectAttempts
    ensures var p := Iteration(l, r);
      && Streak(l.attempts, p.acts) == p.link.attempts
      && (p.exit == Some(GaveUp) <==> p.link.attempts == MaxReconnectAttempts)
      && p.link.attempts <= MaxReconnectAttempts
      && Backoffs(p.acts) + (if p.exit == Some(GaveUp) then 1 else 0) == Failures(p.acts)
      && HeartbeatAfter(l.heartbeat, p.acts) == Some(p.link.heartbeat)
      && (p.exit == Some(GaveUp) ==> p.acts == [Dialed(r.outcome)] && r.outcome != Opened)
      && BacksOffAfterFailures(p.acts, p.exit == Some(GaveUp))
  {
    var m := Interrupted(l, r.event);
    if !m.shouldConnect {
    } else if Connected(m) {
      ViewsOne(Polled);
    } else if r.outcome == Opened {
      SuccessActs(m.attempts, m.heartbeat);
    } else if m.attempts + 1 >= MaxReconnectAttempts {
      ViewsOne(Dialed(r.outcome));
    } else {
      RetryActs(r.outcome, m.attempts, m.heartbeat);
    }
  }

  /** The loop's counter is the number of failed connects since the last
      success, never goes above the maximum, and reaches it exactly when
      the loop gives up; every failure but the one that gives up is
      followed straight away by a back-off, and there is one back-off
      fewer than failures exactly when the loop gives up; no heartbeat thread is started while one is
      joinable; and the loop gives up only straight after a failed
      connect. */
  lemma {:induction false} LoopFacts(l: Link, rounds: seq<Round>, i: nat)
    requires i <= |rounds| && l.attempts < MaxReconnectAttempts
    decreases |rounds| - i
    ensures var r := LoopFrom(l, rounds, i);
      && r.link.attempts == Streak(l.attempts, r.acts)
      && r.link.attempts <= MaxReconnectAttempts
      && (r.exit == GaveUp <==> r.link.attempts == MaxReconnectAttempts)
      && Backoffs(r.acts) + (if r.exit == GaveUp then 1 else 0) == Failures(r.acts)
      && HeartbeatAfter(l.heartbeat, r.acts) == Some(r.link.heartbeat)
      && (r.exit == GaveUp ==> |r.acts| > 0 && r.acts[|r.acts| - 1].Dialed?
                                && r.acts[|r.acts| - 1].outcome != Opened)
      && BacksOffAfterFailures(r.acts, r.exit == GaveUp)
  {
    if i < |rounds| {
      var p := Iteration(l, rounds[i]);
      IterationFacts(l, rounds[i]);
      if p.exit.None? {
        var rest := LoopFrom(p.link, rounds, i + 1);
        LoopFacts(p.link, rounds, i + 1);
        ViewsAppend(p.acts, rest.acts);
        BacksOffAppend(p.acts, rest.acts, rest.exit == GaveUp);
        if rest.exit == GaveUp {
          assert (p.acts + rest.acts)[|p.acts + rest.acts| - 1] == rest.acts[|rest.acts| - 1];
        }
      }
    }
  }

  lemma {:induction false} StreakWithoutSuccess(a: nat, acts: seq<Act>)
    requires Successes(acts) == 0
    decreases |acts|
    ensures Streak(a, acts) == a + Failures(acts)
  {
    if acts != [] {
      StreakWithoutSuccess(if acts[0].Dialed? then a + 1 else a, acts[1..]);
    }
  }

  /** From a fresh start (counter 0) a loop that never connects gives up
      after exactly `MaxReconnectAttempts` failed connects with one back-off
      fewer, and a loop that gives up has made that many failed connects
      in a row since its last success. */
  lemma GiveUpAfterMaxFailures(l: Link, rounds: seq<Round>)
    requires l.attempts == 0
    ensures var r := Loop(l, rounds);
      && (r.exit == GaveUp ==> Streak(0, r.acts) == MaxReconnectAttempts)
      && (r.exit == GaveUp && Successes(r.acts) == 0 ==>
            Failures(r.acts) == MaxReconnectAttempts && Backoffs(r.acts) == MaxReconnectAttempts - 1)
  {
    var r := Loop(l, rounds);
    LoopFacts(l, rounds, 0);
    if Successes(r.acts) == 0 {
      StreakWithoutSuccess(0, r.acts);
    }
  }

  // ---------------------------------------------------------------------
  // SendHeartbeat

  /** What happens around one heartbeat: during its 30-second sleep, or
      after the connection check while the message is built and sent. */
  datatype BeatEvent = Quiet | StopInSleep | DropInSleep | DropBeforeSend

  /** One turn of the heartbeat loop; `json` is what `cJSON_Print` returns
      (null when it fails). */
  datatype Beat = Beat(event: BeatEvent, json: Option<string>)

  datatype Beats = Beats(link: Link, sent: seq<string>)

  function SleepEvent(e: BeatEvent): Interrupt
  {
    match e
    case StopInSleep => StopRequested
    case DropInSleep => ChannelDropped
    case _ => Calm
  }

  function SendEvent(e: BeatEvent): Interrupt
  {
    if e == DropBeforeSend then ChannelDropped else Calm
  }

  /** What one turn of the heartbeat loop leaves, sends and whether the
      loop goes on. */
  datatype BeatStep = BeatStep(link: Link, sent: seq<string>, more: bool)

  /** The sleep, `if (!IsConnected()) break;`, and the send of the
      printed message. */
  function BeatTurn(l: Link, b: Beat): BeatStep
  {
    var m := Interrupted(l, SleepEvent(b.event));
    if !Connected(m) then BeatStep(m, [], false)
    else
      var n := Interrupted(m, SendEvent(b.event));
      BeatStep(n, if b.json.Some? && Connected(n) then [b.json.value] else [], true)
  }

  /** `while (should_connect_ && IsConnected())` over a script of beats;
      `sent` are the messages the protocol was given. */
  function Heartbeat(l: Link, beats: seq<Beat>): Beats
  {
    HeartbeatFrom(l, beats, 0)
  }

  /** The heartbeat loop from beat `i` on. */
  function HeartbeatFrom(l: Link, beats: seq<Beat>, i: nat): Beats
    requires i <= |beats|
    decreases |beats| - i
  {
    if !(l.shouldConnect && Connected(l)) || i == |beats| then Beats(l, [])
    else
      var s := BeatTurn(l, beats[i]);
      if !s.more then Beats(s.link, s.sent)
      else Then(s.sent, HeartbeatFrom(s.link, beats, i + 1))
  }

  function Then(sent: seq<string>, r: Beats): Beats
  {
    Beats(r.link, sent + r.sent)
  }

  /** One more beat of a heartbeat loop run so far from `l0`. */
  lemma HeartbeatAdvance(l0: Link, beats: seq<Beat>, done: seq<string>, l: Link, i: nat)
    requires i < |beats| && l.shouldConnect && Connected(l)
    requires Heartbeat(l0, beats) == Then(done, HeartbeatFrom(l, beats, i))
    ensures var s := BeatTurn(l, beats[i]);
      && (!s.more ==> Heartbeat(l0, beats) == Beats(s.link, done + s.sent))
      && (s.more ==> Heartbeat(l0, beats) == Then(done + s.sent, HeartbeatFrom(s.link, beats, i + 1)))
  {
    var s := BeatTurn(l, beats[i]);
    var rest := HeartbeatFrom(s.link, beats, i + 1);
    assert done + (s.sent + rest.sent) == (done + s.sent) + rest.sent;
  }

  /** The index of the first beat from `i` on that is not quiet. */
  function FirstTrouble(beats: seq<Beat>, i: nat): (k: nat)
    requires i <= |beats|
    decreases |beats| - i
    ensures i <= k <= |beats|
    ensures forall j :: i <= j < k ==> beats[j].event == Quiet
    ensures k < |beats| ==> beats[k].event != Quiet
  {
    if i == |beats| || beats[i].event != Quiet then i else FirstTrouble(beats, i + 1)
  }

  /** The messages `cJSON_Print` produced. */
  function Printed(beats: seq<Beat>): seq<string>
  {
    if beats == [] then []
    else (if beats[0].json.Some? then [beats[0].json.value] else []) + Printed(beats[1..])
  }

  lemma {:induction false} HeartbeatFromSends(l: Link, beats: seq<Beat>, i: nat)
    requires i <= |beats|
    decreases |beats| - i
    ensures var r := HeartbeatFrom(l, beats, i);
      && (!(l.shouldConnect && Connected(l)) ==> r.sent == [] && r.link == l)
      && (l.shouldConnect && Connected(l) ==> r.sent == Printed(beats[i..FirstTrouble(beats, i)]))
      && r.link.attempts == l.attempts && r.link.heartbeat == l.heartbeat
      && r.link.protocol.Some? == l.protocol.Some?
      && (FirstTrouble(beats, i) == |beats| ==> r.link == l)
  {
    if l.shouldConnect && Connected(l) && i < |beats| {
      var b := beats[i];
      var s := BeatTurn(l, b);
      HeartbeatFromSends(s.link, beats, i + 1);
      var k := FirstTrouble(beats, i);
      if b.event == Quiet {
        assert beats[i..k][0] == b && beats[i..k][1..] == beats[i + 1..k];
      } else {
        assert beats[i..k] == [];
      }
    }
  }

  /** The heartbeat sends nothing unless the connection is wanted and up
      when it starts; then it sends, in order, every message printed up to
      the first stop or drop and nothing after it. It changes no connection
      field itself: the counter, the protocol object's presence and the
      heartbeat handle stay as they were, and without a stop or drop the
      whole link does. */
  lemma HeartbeatSends(l: Link, beats: seq<Beat>)
    ensures var r := Heartbeat(l, beats);
      && (!(l.shouldConnect && Connected(l)) ==> r.sent == [] && r.link == l)
      && (l.shouldConnect && Connected(l) ==> r.sent == Printed(beats[..FirstTrouble(beats, 0)]))
      && r.link.attempts == l.attempts && r.link.heartbeat == l.heartbeat
      && r.link.protocol.Some? == l.protocol.Some?
      && (FirstTrouble(beats, 0) == |beats| ==> r.link == l)
  {
    HeartbeatFromSends(l, beats, 0);
    assert beats[0..FirstTrouble(beats, 0)] == beats[..FirstTrouble(beats, 0)];
  }

  // ---------------------------------------------------------------------
  // The object

  class CameraConnection {
    var shouldConnect: bool
    var isConnected: bool
    var protocol: Option<Session>
    var protocolVersion: int
    var currentReconnectAttempts: nat
    var serverUrl: string
    var deviceToken: string
    /** Whether `connection_thread_` and `heartbeat_thread_` are joinable. */
    var connectionThread: bool
    var heartbeatThread: bool
    /** The messages handed to `WebsocketProtocol::SendMcpMessage`. */
    var messages: seq<string>
    var acts: seq<Act>

    function Snapshot(): Link
      reads this
    {
      Link(shouldConnect, isConnected, protocol, currentReconnectAttempts, heartbeatThread)
    }

    /** The state `Stop` leaves. */
    predicate IsStopped()
      reads this
    {
      !shouldConnect && !isConnected && !connectionThread && !heartbeatThread && protocol.None?
    }

    constructor ()
      ensures !shouldConnect && !isConnected && protocol.None?
      ensures protocolVersion == DefaultProtocolVersion && currentReconnectAttempts == 0
      ensures !connectionThread && !heartbeatThread
      ensures serverUrl == [] && deviceToken == [] && messages == [] && acts == []
    {
      shouldConnect := false;
      isConnected := false;
      protocol := None;
      protocolVersion := DefaultProtocolVersion;
      currentReconnectAttempts := 0;
      serverUrl := [];
      deviceToken := [];
      connectionThread := false;
      heartbeatThread := false;
      messages := [];
      acts := [];
    }

    /** `Start`, given what the "websocket" settings hold. Re-assigning a
        joinable `std::thread` terminates, so a second start needs the
        earlier loop thread joined. */
    method Start(url: string, token: string, storedVersion: int)
      requires url != [] ==> !connectionThread
      modifies this`serverUrl, this`deviceToken, this`protocolVersion, this`shouldConnect,
               this`currentReconnectAttempts, this`connectionThread
      ensures serverUrl == url && deviceToken == token
      ensures protocolVersion == (if storedVersion != 0 then storedVersion else old(protocolVersion))
      ensures url == [] ==>
                shouldConnect == old(shouldConnect) && connectionThread == old(connectionThread)
                && currentReconnectAttempts == old(currentReconnectAttempts)
      ensures url != [] ==> shouldConnect && currentReconnectAttempts == 0 && connectionThread
    {
      serverUrl := url;
      deviceToken := token;
      if storedVersion != 0 {
        protocolVersion := storedVersion;
      }
      if serverUrl == [] {
        return;
      }
      shouldConnect := true;
      currentReconnectAttempts := 0;
      connectionThread := true;
    }

    /** `Stop` (and the destructor, which calls it): both flags cleared,
        both threads joined, the channel closed and the protocol released.
        Stopping a stopped connection changes nothing. */
    method Stop()
      modifies this`shouldConnect, this`isConnected, this`connectionThread, this`heartbeatThread,
               this`protocol, this`acts
      ensures IsStopped()
      ensures acts == old(acts) + (if old(protocol).Some? then [ChannelClosed] else [])
      ensures old(IsStopped()) ==> acts == old(acts)
    {
      shouldConnect := false;
      isConnected := false;
      if connectionThread {
        connectionThread := false;
      }
      if heartbeatThread {
        heartbeatThread := false;
      }
      if protocol.Some? {
        acts := acts + [ChannelClosed];
        protocol := None;
      }
    }

    method IsConnected() returns (b: bool)
      ensures b <==> isConnected && protocol.Some? && protocol.value.channelOpen
    {
      b := isConnected && protocol.Some? && protocol.value.channelOpen;
    }

    /** `SendMcpMessage`: the message reaches the protocol exactly when the
        connection is up; a refused send changes nothing. Once `IsConnected`
        held, the second check of the protocol reference under the mutex
        cannot fail here, because nothing runs in between. */
    method SendMcpMessage(message: string) returns (ok: bool)
      modifies this`messages
      ensures ok == Connected(Snapshot())
      ensures messages == old(messages) + (if ok then [message] else [])
    {
      var up := IsConnected();
      if !up {
        return false;
      }
      messages := messages + [message];
      ok := true;
    }

    /** `Connect`: `true` exactly when the channel opened; on a failure,
        whether `OpenAudioChannel` returned false or something threw, no
        protocol object is left. */
    method Connect(outcome: ConnectOutcome) returns (ok: bool)
      modifies this`protocol, this`isConnected
      ensures ok == (outcome == Opened)
      ensures Snapshot() == ConnectResult(old(Snapshot()), outcome)
      ensures !ok ==> protocol.None?
    {
      protocol := Some(Session(false));
      if outcome == Threw {
        protocol := None;
        return false;
      }
      if outcome == OpenFailed {
        protocol := None;
        return false;
      }
      protocol := Some(Session(true));
      isConnected := true;
      ok := true;
    }

    /** What another thread or the network does to the shared fields. */
    method Interrupt(e: Interrupt)
      modifies this`shouldConnect, this`isConnected, this`protocol
      ensures Snapshot() == Interrupted(old(Snapshot()), e)
    {
      match e
      case Calm =>
      case StopRequested =>
        shouldConnect := false;
        isConnected := false;
      case ChannelDropped =>
        isConnected := false;
        if protocol.Some? {
          protocol := Some(Session(false));
        }
    }

    /** One iteration of the loop in `ConnectLoop`. */
    method Turn(r: Round) returns (exit: Option<Exit>)
      modifies this`shouldConnect, this`isConnected, this`protocol, this`currentReconnectAttempts,
               this`heartbeatThread, this`acts
      ensures var p := Iteration(old(Snapshot()), r);
        Snapshot() == p.link && acts == old(acts) + p.acts && exit == p.exit
    {
      Interrupt(r.event);
      if !shouldConnect {
        return Some(Stopped);
      }
      var up := IsConnected();
      if up {
        acts := acts + [Polled];
        return None;
      }
      exit := DialAndWait(r.outcome);
    }

    /** The `Connect` of one iteration and what the loop does after it. */
    method DialAndWait(o: ConnectOutcome) returns (exit: Option<Exit>)
      modifies this`isConnected, this`protocol, this`currentReconnectAttempts,
               this`heartbeatThread, this`acts
      ensures var p := Dial(old(Snapshot()), o);
        Snapshot() == p.link && acts == old(acts) + p.acts && exit == p.exit
    {
      var ok := Connect(o);
      if ok {
        currentReconnectAttempts := 0;
        acts := acts + [Dialed(Opened)];
        if heartbeatThread {
          acts := acts + [HeartbeatJoined];
          heartbeatThread := false;
        }
        heartbeatThread := true;
        acts := acts + [HeartbeatSpawned];
        return None;
      }
      currentReconnectAttempts := currentReconnectAttempts + 1;
      acts := acts + [Dialed(o)];
      if currentReconnectAttempts >= MaxReconnectAttempts {
        return Some(GaveUp);
      }
      acts := acts + [BackedOff];
      exit := None;
    }

    /** One round of `ConnectLoop`, from round `i` of a loop that started
        in `l0` and has done `done` so far. */
    method Advance(rounds: seq<Round>, i: nat, ghost l0: Link, ghost acts0: seq<Act>, ghost done: seq<Act>)
      returns (e: Option<Exit>, ghost done': seq<Act>)
      requires i < |rounds| && acts == acts0 + done
      requires Loop(l0, rounds) == Prefix(done, LoopFrom(Snapshot(), rounds, i))
      modifies this`shouldConnect, this`isConnected, this`protocol, this`currentReconnectAttempts,
               this`heartbeatThread, this`acts
      ensures acts == acts0 + done'
      ensures e.Some? ==> Loop(l0, rounds) == Run(Snapshot(), done', e.value)
      ensures e.None? ==> Loop(l0, rounds) == Prefix(done', LoopFrom(Snapshot(), rounds, i + 1))
    {
      ghost var cur := Snapshot();
      LoopAdvance(l0, rounds, done, cur, i);
      e := Turn(rounds[i]);
      ghost var p := Iteration(cur, rounds[i]);
      done' := done + p.acts;
    }

    /** `ConnectLoop` over a script of rounds. */
    method ConnectLoop(rounds: seq<Round>) returns (exit: Exit)
      modifies this`shouldConnect, this`isConnected, this`protocol, this`currentReconnectAttempts,
               this`heartbeatThread, this`acts
      ensures var r := Loop(old(Snapshot()), rounds);
        Snapshot() == r.link && acts == old(acts) + r.acts && exit == r.exit
    {
      ghost var l0 := Snapshot();
      ghost var done: seq<Act> := [];
      var i := 0;
      while i < |rounds|
        invariant i <= |rounds|
        invariant acts == old(acts) + done
        invariant Loop(l0, rounds) == Prefix(done, LoopFrom(Snapshot(), rounds, i))
        decreases |rounds| - i
      {
        var e;
        e, done := Advance(rounds, i, l0, old(acts), done);
        if e.Some? {
          return e.value;
        }
        i := i + 1;
      }
      exit := ScriptEnded;
    }

    /** One turn of the heartbeat loop; `false` when the loop ends. */
    method Beat1(b: Beat) returns (more: bool)
      modifies this`shouldConnect, this`isConnected, this`protocol, this`messages
      ensures var s := BeatTurn(old(Snapshot()), b);
        Snapshot() == s.link && messages == old(messages) + s.sent && more == s.more
    {
      Interrupt(SleepEvent(b.event));
      var up := IsConnected();
      if !up {
        return false;
      }
      more := true;
      Interrupt(SendEvent(b.event));
      if b.json.Some? {
        var ok := SendMcpMessage(b.json.value);
      }
    }

    /** Beat `i` of a heartbeat loop that started in `l0` and has sent
        `done` so far. */
    method NextBeat(beats: seq<Beat>, i: nat, ghost l0: Link, ghost sent0: seq<string>, ghost done: seq<string>)
      returns (more: bool, ghost done': seq<string>)
      requires i < |beats| && shouldConnect && Connected(Snapshot()) && messages == sent0 + done
      requires Heartbeat(l0, beats) == Then(done, HeartbeatFrom(Snapshot(), beats, i))
      modifies this`shouldConnect, this`isConnected, this`protocol, this`messages
      ensures messages == sent0 + done'
      ensures !more ==> Heartbeat(l0, beats) == Beats(Snapshot(), done')
      ensures more ==> Heartbeat(l0, beats) == Then(done', HeartbeatFrom(Snapshot(), beats, i + 1))
    {
      ghost var cur := Snapshot();
      HeartbeatAdvance(l0, beats, done, cur, i);
      more := Beat1(beats[i]);
      done' := done + BeatTurn(cur, beats[i]).sent;
    }

    /** `SendHeartbeat` over a script of beats. */
    method SendHeartbeat(beats: seq<Beat>)
      modifies this`shouldConnect, this`isConnected, this`protocol, this`messages
      ensures var r := Heartbeat(old(Snapshot()), beats);
        Snapshot() == r.link && messages == old(messages) + r.sent
    {
      ghost var l0 := Snapshot();
      ghost var done: seq<string> := [];
      var i := 0;
      while i < |beats|
        invariant i <= |beats|
        invariant messages == old(messages) + done
        invariant Heartbeat(l0, beats) == Then(done, HeartbeatFrom(Snapshot(), beats, i))
        decreases |beats| - i
      {
        var up := IsConnected();
        if !(shouldConnect && up) {
          return;
        }
        var more;
        more, done := NextBeat(beats, i, l0, old(messages), done);
        if !more {
          return;
        }
        i := i + 1;
      }
    }
  }
}
