/** The tunneler's loop: admitting, driving and reaping forwarders, of which only the states matter here. */
module Tunneler {
  import opened ForwarderState

  function Count(s: seq<State>, x: State): nat {
    if s == [] then 0 else (if s[0] == x then 1 else 0) + Count(s[1..], x)
  }

  /** The forwarders that occupy a client slot. */
  function Busy(s: seq<State>): nat { Count(s, CONNECTED) + Count(s, CONNECTING) }

  lemma {:induction false} CountConcat(s: seq<State>, t: seq<State>, x: State)
    ensures Count(s + t, x) == Count(s, x) + Count(t, x)
  {
    if s == [] {
      assert s + t == t;
    } else {
      assert (s + t)[1..] == s[1..] + t;
      CountConcat(s[1..], t, x);
    }
  }

  lemma {:induction false} CountZero(s: seq<State>, x: State)
    ensures Count(s, x) == 0 <==> x !in s
  {
    if s != [] {
      CountZero(s[1..], x);
    }
  }

  lemma CountStep(s: seq<State>, i: nat, x: State)
    requires i < |s|
    ensures Count(s[..i + 1], x) == Count(s[..i], x) + if s[i] == x then 1 else 0
  {
    assert s[..i + 1] == s[..i] + [s[i]];
    CountConcat(s[..i], [s[i]], x);
  }

  function Filter(s: seq<State>, check: State -> bool): seq<State> {
    if s == [] then [] else (if check(s[0]) then [] else [s[0]]) + Filter(s[1..], check)
  }

  lemma {:induction false} FilterConcat(s: seq<State>, t: seq<State>, check: State -> bool)
    ensures Filter(s + t, check) == Filter(s, check) + Filter(t, check)
  {
    if s == [] {
      assert s + t == t;
    } else {
      assert (s + t)[1..] == s[1..] + t;
      FilterConcat(s[1..], t, check);
    }
  }

  /** Removing some forwarders leaves the others, and so their counts, alone. */
  lemma {:induction false} FilterKeeps(s: seq<State>, check: State -> bool, x: State)
    ensures Count(Filter(s, check), x) == if check(x) then 0 else Count(s, x)
  {
    if s != [] {
      FilterKeeps(s[1..], check, x);
      CountConcat(if check(s[0]) then [] else [s[0]], Filter(s[1..], check), x);
    }
  }

  /** Each forwarder has moved along its own life by any number of steps, or stayed. */
  predicate AllMove(s: seq<State>, t: seq<State>) {
    |s| == |t| && forall i :: 0 <= i < |s| ==> Reaches(s[i], t[i])
  }

  /** Once past READY no forwarder starts connecting, and client slots are only given up. */
  lemma {:induction false} MovesFreeSlots(s: seq<State>, t: seq<State>)
    requires AllMove(s, t) && READY !in s
    ensures READY !in t
    ensures Count(t, CONNECTING) <= Count(s, CONNECTING) && Busy(t) <= Busy(s)
  {
    if s != [] {
      assert s[0] in s && (forall x :: x in s[1..] ==> x in s);
      assert AllMove(s[1..], t[1..]);
      MovesFreeSlots(s[1..], t[1..]);
      assert t == [t[0]] + t[1..];
    }
  }

  function Aborted(s: seq<State>): seq<State> {
    seq(|s|, i requires 0 <= i < |s| => if s[i] == CONNECTED then DISCONNECTED else s[i])
  }

  class PortForwarders {
    var items: seq<State>

    constructor ()
      ensures items == []
    {
      items := [];
    }

    method DeleteHavingState(check: State -> bool) returns (count: nat)
      modifies this
      ensures items == Filter(old(items), check) && count == |old(items)| - |items|
    {
      count := 0;
      var it := 0;
      ghost var done := 0;
      while it < |items|
        invariant 0 <= it <= |items| && done <= |old(items)|
        invariant items[..it] == Filter(old(items)[..done], check) && items[it..] == old(items)[done..]
        invariant count == |old(items)| - |items|
        decreases |old(items)| - done
      {
        assert old(items)[..done + 1] == old(items)[..done] + [old(items)[done]];
        FilterConcat(old(items)[..done], [old(items)[done]], check);
        assert items[it..][1..] == old(items)[done..][1..];
        if check(items[it]) {
          items := items[..it] + items[it + 1..];
          count := count + 1;
        } else {
          it := it + 1;
        }
        done := done + 1;
      }
      assert old(items)[..done] == old(items) && items[..it] == items;
    }

    method AbortAll() returns (counter: nat)
      modifies this
      ensures items == Aborted(old(items)) && counter == Count(old(items), CONNECTED)
    {
      counter := 0;
      var i := 0;
      while i < |items|
        invariant 0 <= i <= |items| == |old(items)|
        invariant forall j :: 0 <= j < |items| ==> items[j] == if j < i then Aborted(old(items))[j] else old(items)[j]
        invariant counter == Count(old(items)[..i], CONNECTED)
      {
        CountStep(old(items), i, CONNECTED);
        if items[i] == CONNECTED {
          items := items[i := DISCONNECTED];
          counter := counter + 1;
        }
        i := i + 1;
      }
      assert old(items)[..i] == old(items);
    }

    method HasConnectingForwarders() returns (found: bool)
      ensures found <==> CONNECTING in items
    {
      var i := 0;
      while i < |items|
        invariant 0 <= i <= |items| && CONNECTING !in items[..i]
      {
        if items[i] == CONNECTING {
          return true;
        }
        i := i + 1;
      }
      return false;
    }

    method ConnectedCount() returns (counter: nat)
      ensures counter == Count(items, CONNECTED)
    {
      counter := 0;
      var i := 0;
      while i < |items|
        invariant 0 <= i <= |items| && counter == Count(items[..i], CONNECTED)
      {
        CountStep(items, i, CONNECTED);
        if items[i] == CONNECTED {
          counter := counter + 1;
        }
        i := i + 1;
      }
      assert items[..i] == items;
    }
  }

  datatype TunnelState = Ready | Connecting | Running | Closing | Disconnecting | Stopped

  function Rank(s: TunnelState): nat {
    match s
    case Ready => 0
    case Connecting => 1
    case Running => 2
    case Closing => 3
    case Disconnecting => 4
    case Stopped => 5
  }

  /**
   * What one turn of the loop meets: sockets, the PPP interface, timers and requests from outside. The fields of
   * type seq<State> say where callbacks and rounds take the forwarders at five places of the turn.
   */
  datatype Env = Env(
    if4UpEarly: bool, selected: int, tunnelWritable: bool, tunnelReadable: bool, listenerReadable: bool,
    sendOk: bool, recvOk: bool, connectOk: bool, connectFailsLater: bool,
    abortFires: bool, disconnectFires: bool, terminateRequest: bool, if4UpLate: bool, dead: bool,
    onReceive: seq<State>, onServe: seq<State>, onForward: seq<State>, onTimers: seq<State>, onClose: seq<State>)
  {
    /** The tunnel socket cannot be written to although it has to be. */
    predicate SendFails() { selected > 0 && tunnelWritable && !sendOk }

    predicate Receives() { selected > 0 && !SendFails() && tunnelReadable }

    predicate TunnelFails() { SendFails() || (Receives() && !recvOk) }
  }

  /** Each forwarder moves along its own life; a list that says otherwise moves none. */
  function Moved(items: seq<State>, next: seq<State>): (t: seq<State>)
    ensures AllMove(items, t)
  {
    if AllMove(items, next) then next else items
  }

  /** The tunneler between two turns. */
  datatype Loop = Loop(
    state: TunnelState, terminate: bool, tunnelConnected: bool, connecting: bool, abortTimer: bool,
    abortTimeout: bool, disconnectTimeout: bool, clientsCount: nat, items: seq<State>)

  /** A connection is accepted and the forwarder for it started. */
  predicate Accepts(env: Env, f: Loop, maxClients: nat) {
    && f.tunnelConnected && env.selected > 0 && env.listenerReadable && env.connectOk
    && env.if4UpEarly && !f.connecting && Count(f.items, CONNECTED) < maxClients
  }

  /** The forwarders behind the part of the turn that serves the sockets. */
  function Served(env: Env, f: Loop, maxClients: nat): seq<State> {
    if !f.tunnelConnected || env.selected <= 0 then f.items
    else
      var received := if env.Receives() then Moved(f.items, env.onReceive) else f.items;
      var admitted := if Accepts(env, f, maxClients) then [if env.connectFailsLater then FAILED else CONNECTING] else [];
      Moved(received + admitted, env.onServe)
  }

  predicate HasFailed(x: State) { x == FAILED }

  predicate IsDisconnected(x: State) { x == DISCONNECTED }

  predicate Alive(x: State) { !HasFailed(x) && !IsDisconnected(x) }

  function Reaped(s: seq<State>): seq<State> { Filter(Filter(s, HasFailed), IsDisconnected) }

  /** The forwarders that are left when the tunnel state is looked at. */
  function Left(env: Env, f: Loop, maxClients: nat): seq<State> {
    Reaped(Moved(Moved(Served(env, f, maxClients), env.onForward), env.onTimers))
  }

  /** What one turn does, piece by piece. */
  predicate TurnDone(env: Env, f: Loop, g: Loop, maxClients: nat, stop: bool) {
    var fails := f.tunnelConnected && env.TunnelFails();
    var left := Left(env, f, maxClients);
    var connecting := f.connecting || Accepts(env, f, maxClients);
    var aborts := f.state == Running && g.terminate;
    var closes := f.state == Closing && g.state == Disconnecting;
    && g.terminate == (f.terminate || env.terminateRequest || fails || (f.tunnelConnected && env.selected < 0))
    && g.tunnelConnected == (f.tunnelConnected && !fails)
    && g.state == (match f.state
                   case Connecting => if g.terminate then Closing else if env.if4UpLate then Running else Connecting
                   case Running => if g.terminate then Closing else Running
                   case Closing => if left == [] || g.abortTimeout then Disconnecting else Closing
                   case _ => f.state)
    && g.items == (if aborts then Aborted(left) else if closes then Moved(left, env.onClose) else left)
    && g.connecting == (if f.state == Running && !aborts then connecting && CONNECTING in left else connecting)
    && g.abortTimer == (f.abortTimer || (aborts && CONNECTED in left))
    && g.abortTimeout == (!aborts && (f.abortTimeout || (env.abortFires && f.abortTimer)))
    && g.disconnectTimeout == (!closes && (f.disconnectTimeout || (env.disconnectFires && f.state == Disconnecting)))
    && g.clientsCount == Count(g.items, CONNECTED)
    && (stop <==> f.state == Disconnecting && (env.dead || g.disconnectTimeout))
  }

  class Tunneler {
    const maxClients: nat
    var state: TunnelState
    var terminate: bool
    var tunnelConnected: bool
    var connecting: bool
    var abortTimer: bool
    var abortTimeout: bool
    var disconnectTimeout: bool
    var clientsCount: nat
    const forwarders: PortForwarders

    /** The admission bound, and what the connecting flag promises. */
    ghost predicate Valid()
      reads this, forwarders
    {
      && READY !in forwarders.items
      && Count(forwarders.items, CONNECTING) <= 1
      && (!connecting ==> CONNECTING !in forwarders.items)
      && Busy(forwarders.items) <= maxClients
      && (abortTimeout ==> abortTimer)
    }

    ghost function View(): Loop
      reads this, forwarders
    {
      Loop(state, terminate, tunnelConnected, connecting, abortTimer, abortTimeout, disconnectTimeout, clientsCount,
           forwarders.items)
    }

    constructor (clients: nat)
      ensures Valid() && state == Ready && maxClients == clients && fresh(forwarders)
      ensures View() == Loop(Ready, false, true, false, false, false, false, 0, [])
    {
      maxClients := clients;
      state := Ready;
      terminate, tunnelConnected, connecting := false, true, false;
      abortTimer, abortTimeout, disconnectTimeout := false, false, false;
      clientsCount := 0;
      forwarders := new PortForwarders();
    }

    /** Callbacks and the rounds over the forwarders: each forwarder moves along its life, as far as it likes. */
    method Events(next: seq<State>)
      requires Valid()
      modifies forwarders
      ensures Valid() && forwarders.items == Moved(old(forwarders.items), next)
      ensures Busy(forwarders.items) <= old(Busy(forwarders.items))
    {
      ghost var items := forwarders.items;
      if |next| == |forwarders.items| && forall i | 0 <= i < |next| :: Reaches(forwarders.items[i], next[i]) {
        MovesFreeSlots(forwarders.items, next);
        forwarders.items := next;
      }
      CountZero(items, CONNECTING);
      CountZero(forwarders.items, CONNECTING);
    }

    /** Admits one forwarder, if the connection to it can be started. */
    method Accept(ok: bool, failsLater: bool)
      requires Valid() && !connecting && Busy(forwarders.items) < maxClients
      modifies this`connecting, forwarders
      ensures Valid() && connecting == ok
      ensures forwarders.items == old(forwarders.items) + if ok then [if failsLater then FAILED else CONNECTING] else []
    {
      CountZero(forwarders.items, CONNECTING);
      if ok {
        connecting := true;
        var pf := if failsLater then FAILED else CONNECTING;
        CountConcat(forwarders.items, [pf], CONNECTING);
        CountConcat(forwarders.items, [pf], CONNECTED);
        forwarders.items := forwarders.items + [pf];
      }
    }

    method ShutdownTunnel()
      modifies this`tunnelConnected
      ensures !tunnelConnected && (old(Valid()) ==> Valid())
    {
      tunnelConnected := false;
    }

    method Terminate()
      modifies this`terminate
      ensures terminate && (old(Valid()) ==> Valid())
    {
      terminate := true;
    }

    /** sys_check_timeouts: the callbacks of the TCP stack, and the two timers of the loop. */
    method CheckTimeouts(env: Env)
      requires Valid()
      modifies this`abortTimeout, this`disconnectTimeout, forwarders
      ensures Valid() && forwarders.items == Moved(old(forwarders.items), env.onTimers)
      ensures abortTimeout == (old(abortTimeout) || (env.abortFires && abortTimer))
      ensures disconnectTimeout == (old(disconnectTimeout) || (env.disconnectFires && state == Disconnecting))
    {
      Events(env.onTimers);
      if env.abortFires && abortTimer {
        abortTimeout := true;
      }
      if env.disconnectFires && state == Disconnecting {
        disconnectTimeout := true;
      }
    }

    method CountClients()
      requires Valid()
      modifies this`clientsCount
      ensures Valid() && clientsCount == Count(forwarders.items, CONNECTED) <= maxClients
    {
      clientsCount := forwarders.ConnectedCount();
      AllBusyConnected(forwarders.items);
    }

    /** The tunnel socket is written to and read from, as long as it works. */
    method ServeTunnelSocket(env: Env)
      requires Valid() && tunnelConnected && env.selected > 0
      modifies this`tunnelConnected, this`terminate, forwarders
      ensures Valid() && tunnelConnected == !env.TunnelFails()
      ensures terminate == (old(terminate) || env.TunnelFails())
      ensures forwarders.items ==
        if env.Receives() then Moved(old(forwarders.items), env.onReceive) else old(forwarders.items)
      ensures Busy(forwarders.items) <= old(Busy(forwarders.items))
    {
      hide Valid, Count, Busy, AllMove, Moved;
      if env.tunnelWritable {
        if !env.sendOk {
          ShutdownTunnel();
          Terminate();
        }
      }
      if tunnelConnected && env.tunnelReadable {
        Events(env.onReceive);
        if !env.recvOk {
          ShutdownTunnel();
          Terminate();
        }
      }
    }

    /** Whether the listener is watched. */
    method MayAccept(env: Env) returns (may: bool)
      requires Valid()
      ensures may == (env.if4UpEarly && !connecting && Count(forwarders.items, CONNECTED) < maxClients)
      ensures may ==> Busy(forwarders.items) < maxClients
    {
      var connected := forwarders.ConnectedCount();
      may := env.if4UpEarly && !connecting && connected < maxClients;
      AllBusyConnected(forwarders.items);
    }

    /** The part of the turn that waits for the sockets and serves them. */
    method ServeSockets(env: Env)
      requires Valid() && tunnelConnected
      modifies this`tunnelConnected, this`terminate, this`connecting, forwarders
      ensures Valid() && forwarders.items == Served(env, old(View()), maxClients)
      ensures tunnelConnected == !env.TunnelFails()
      ensures terminate == (old(terminate) || env.TunnelFails() || env.selected < 0)
      ensures connecting == (old(connecting) || Accepts(env, old(View()), maxClients))
    {
      hide Valid, Count, Busy, AllMove, Moved;
      var mayAccept := MayAccept(env);
      if env.selected > 0 {
        ServeTunnelSocket(env);
        ghost var received := forwarders.items;
        assert received + [] == received;
        if mayAccept && env.listenerReadable {
          Accept(env.connectOk, env.connectFailsLater);
        }
        Events(env.onServe);
      } else if env.selected < 0 {
        Terminate();
      }
    }

    /** Failed and disconnected forwarders leave the list. */
    method Reap()
      requires Valid()
      modifies forwarders
      ensures Valid() && forall s :: s in forwarders.items ==> Alive(s)
      ensures forwarders.items == Reaped(old(forwarders.items))
    {
      ghost var before := forwarders.items;
      var _ := forwarders.DeleteHavingState(HasFailed);
      FilterCounts(before, HasFailed);
      ghost var between := forwarders.items;
      var _ := forwarders.DeleteHavingState(IsDisconnected);
      FilterCounts(between, IsDisconnected);
    }

    /** The switch over the tunnel state. Closing the PPP interface may call the forwarders back. */
    method SwitchState(env: Env) returns (stop: bool)
      requires Valid()
      modifies this, forwarders
      ensures Valid() && terminate == old(terminate) && tunnelConnected == old(tunnelConnected)
      ensures state == match old(state)
        case Connecting => if terminate then Closing else if env.if4UpLate then Running else Connecting
        case Running => if terminate then Closing else Running
        case Closing => if old(forwarders.items) == [] || old(abortTimeout) then Disconnecting else Closing
        case _ => old(state)
      ensures stop <==> old(state) == Disconnecting && (env.dead || old(disconnectTimeout))
      ensures old(state) == Running && terminate ==>
        forwarders.items == Aborted(old(forwarders.items)) && connecting == old(connecting) && !abortTimeout
      ensures old(state) == Running && terminate ==> abortTimer == (old(abortTimer) || CONNECTED in old(forwarders.items))
      ensures !(old(state) == Running && terminate) ==>
        abortTimer == old(abortTimer) && abortTimeout == old(abortTimeout)
      ensures old(state) == Closing && state == Disconnecting ==>
        forwarders.items == Moved(old(forwarders.items), env.onClose) && !disconnectTimeout
      ensures !(old(state) == Closing && state == Disconnecting) ==> disconnectTimeout == old(disconnectTimeout)
      ensures !(old(state) == Running && terminate) && !(old(state) == Closing && state == Disconnecting) ==>
        forwarders.items == old(forwarders.items)
      ensures connecting == (old(connecting) && (old(state) == Running && !terminate ==> CONNECTING in forwarders.items))
    {
      hide Count, Busy, Aborted;
      stop := false;
      match state
      case Connecting =>
        if terminate {
          state := Closing;
        } else if env.if4UpLate {
          state := Running;
        }
      case Running =>
        if terminate {
          state := Closing;
          abortTimeout := false;
          ghost var before := forwarders.items;
          var count := forwarders.AbortAll();
          AbortFrees(before);
          CountZero(before, CONNECTED);
          if count > 0 {
            abortTimer := true;
          }
        } else {
          if connecting {
            connecting := forwarders.HasConnectingForwarders();
          }
        }
      case Closing =>
        if forwarders.items == [] || abortTimeout {
          state := Disconnecting;
          Events(env.onClose);
          disconnectTimeout := false;
        }
      case Disconnecting =>
        if env.dead || disconnectTimeout {
          stop := true;
        }
      case _ =>
    }

    /** One turn of the loop up to the switch. */
    method ServeAndReap(env: Env)
      requires Valid()
      modifies this`terminate, this`tunnelConnected, this`connecting, this`abortTimeout, this`disconnectTimeout, forwarders
      ensures Valid() && forwarders.items == Left(env, old(View()), maxClients)
      ensures terminate ==
        (old(terminate) || env.terminateRequest || (old(tunnelConnected) && (env.TunnelFails() || env.selected < 0)))
      ensures tunnelConnected == (old(tunnelConnected) && !env.TunnelFails())
      ensures connecting == (old(connecting) || Accepts(env, old(View()), maxClients))
      ensures abortTimeout == (old(abortTimeout) || (env.abortFires && abortTimer))
      ensures disconnectTimeout == (old(disconnectTimeout) || (env.disconnectFires && state == Disconnecting))
    {
      hide Valid, Count, Busy, Aborted, AllMove, Moved, Served, Accepts, Reaped, Alive;
      ghost var before := View();
      if env.terminateRequest {
        Terminate();
      }
      RequestAside(env, before, maxClients);
      if tunnelConnected {
        ServeSockets(env);
      }
      Events(env.onForward);
      CheckTimeouts(env);
      Reap();
    }

    /** One turn of the loop. */
    method Turn(env: Env) returns (stop: bool)
      requires Valid()
      modifies this, forwarders
      ensures Valid() && TurnDone(env, old(View()), View(), maxClients, stop)
      ensures clientsCount <= maxClients
      ensures Busy(forwarders.items) <= maxClients && Count(forwarders.items, CONNECTING) <= 1
    {
      hide Valid, Count, Busy, Aborted, Moved, Left, Accepts;
      ServeAndReap(env);
      stop := SwitchState(env);
      CountClients();
      Bound();
    }

    lemma Bound()
      requires Valid()
      ensures Busy(forwarders.items) <= maxClients && Count(forwarders.items, CONNECTING) <= 1
    {
    }

    /**
     * The loop over any sequence of events: every turn does what it should, the admission bound holds behind
     * each, and the tunnel state never goes back.
     */
    method Run(opens: bool, turns: seq<Env>) returns (ghost trace: seq<Loop>, done: nat, stopped: bool)
      requires Valid() && state == Ready
      modifies this, forwarders
      ensures Valid() && trace != [] && trace[0] == old(View()).(state := Connecting)
      ensures opens ==> done <= |turns| && |trace| == done + 1 && (done == |turns| || stopped)
      ensures !opens ==> done == 0 && |trace| == 1 && stopped
      ensures opens && stopped ==> done > 0
      ensures forall k :: 0 <= k < done ==>
        TurnKeeps(turns[k], trace[k], trace[k + 1], maxClients, opens && stopped && k == done - 1)
      ensures forall i, j :: 0 <= i < j < |trace| ==> Rank(trace[i].state) <= Rank(trace[j].state)
      ensures state == if stopped then Stopped else trace[done].state
      ensures stopped && opens ==> !tunnelConnected
    {
      hide TurnDone, TurnKeeps, Count;
      state := Connecting;
      trace := [View()];
      done, stopped := 0, false;
      if !opens {
        state := Stopped;
        stopped := true;
        return;
      }
      while done < |turns| && !stopped
        invariant 0 <= done <= |turns| && Valid() && |trace| == done + 1 && trace[done] == View() && (stopped ==> done > 0)
        invariant trace[0] == old(View()).(state := Connecting)
        invariant forall k :: 0 <= k < done ==>
          TurnKeeps(turns[k], trace[k], trace[k + 1], maxClients, stopped && k == done - 1)
        invariant forall i, j :: 0 <= i < j < |trace| ==> Rank(trace[i].state) <= Rank(trace[j].state)
      {
        ghost var before := View();
        stopped := Turn(turns[done]);
        TurnHolds(turns[done], before, View(), maxClients, stopped);
        done := done + 1;
        trace := trace + [View()];
      }
      if stopped {
        ShutdownTunnel();
        state := Stopped;
      }
    }
  }

  /** What holds of every turn of a run. */
  predicate TurnKeeps(env: Env, f: Loop, g: Loop, maxClients: nat, stop: bool) {
    && TurnDone(env, f, g, maxClients, stop) && Tidy(f, g) && Ends(env, f, g)
    && Busy(g.items) <= maxClients && Count(g.items, CONNECTING) <= 1
  }

  lemma TurnHolds(env: Env, f: Loop, g: Loop, maxClients: nat, stop: bool)
    requires TurnDone(env, f, g, maxClients, stop) && Busy(g.items) <= maxClients && Count(g.items, CONNECTING) <= 1
    ensures TurnKeeps(env, f, g, maxClients, stop) && Rank(f.state) <= Rank(g.state)
  {
    StateGoesOn(env, f, g, maxClients, stop);
    TurnReaps(env, f, g, maxClients, stop);
    ClosingEnds(env, f, g, maxClients, stop);
    hide TurnDone, Tidy, Ends, Busy, Count;
  }

  /** At most one step forward, or from CONNECTING straight to CLOSING. */
  lemma StateGoesOn(env: Env, f: Loop, g: Loop, maxClients: nat, stop: bool)
    requires TurnDone(env, f, g, maxClients, stop)
    ensures g.state == f.state || Rank(g.state) == Rank(f.state) + 1 || (f.state == Connecting && g.state == Closing)
    ensures Rank(f.state) <= Rank(g.state)
  {
    hide Left, Aborted, Moved, Accepts, Count;
  }

  /** A request to terminate makes no difference to the forwarders of the turn. */
  lemma RequestAside(env: Env, f: Loop, maxClients: nat)
    ensures var g := f.(terminate := true);
      && Served(env, g, maxClients) == Served(env, f, maxClients)
      && Accepts(env, g, maxClients) == Accepts(env, f, maxClients)
    ensures !f.tunnelConnected ==> Served(env, f, maxClients) == f.items && !Accepts(env, f, maxClients)
  {
  }

  lemma LeftAreAlive(env: Env, f: Loop, maxClients: nat)
    ensures forall x :: x in Left(env, f, maxClients) ==> Alive(x)
  {
    hide Served, Moved;
    var s := Moved(Moved(Served(env, f, maxClients), env.onForward), env.onTimers);
    FilterMembers(s, HasFailed);
    FilterMembers(Filter(s, HasFailed), IsDisconnected);
  }

  predicate Tidy(f: Loop, g: Loop) { f.state == g.state ==> forall x :: x in g.items ==> Alive(x) }

  /**
   * Behind a turn that leaves the tunnel running, or closing, no forwarder is in the list whose life is over;
   * and closing goes on only while there are forwarders and the abort timer has not run out.
   */
  lemma TurnReaps(env: Env, f: Loop, g: Loop, maxClients: nat, stop: bool)
    requires TurnDone(env, f, g, maxClients, stop)
    ensures Tidy(f, g)
    ensures f.state == Closing == g.state ==> g.items != [] && !g.abortTimeout
  {
    hide Left, Aborted, Moved, Accepts, Count;
    LeftAreAlive(env, f, maxClients);
  }

  /** All forwarders have ended and no new one can come, or the abort timer has run out. */
  predicate NothingToWaitFor(env: Env, f: Loop) {
    || ((forall x :: x in f.items ==> !Alive(x)) && !(f.tunnelConnected && env.listenerReadable))
    || (env.abortFires && f.abortTimer) || f.abortTimeout
  }

  predicate Ends(env: Env, f: Loop, g: Loop) {
    f.state == Closing && NothingToWaitFor(env, f) ==> g.state == Disconnecting
  }

  /** A turn in CLOSING leads to DISCONNECTING when all forwarders have ended, or when the abort timer runs out. */
  lemma ClosingEnds(env: Env, f: Loop, g: Loop, maxClients: nat, stop: bool)
    requires TurnDone(env, f, g, maxClients, stop)
    ensures Ends(env, f, g)
  {
    hide Aborted, Count;
    if (forall x :: x in f.items ==> !Alive(x)) && !(f.tunnelConnected && env.listenerReadable) {
      var received := if env.Receives() then Moved(f.items, env.onReceive) else f.items;
      EndedStay(f.items, Moved(f.items, env.onReceive));
      assert received + [] == received;
      EndedStay(received, Moved(received, env.onServe));
      var served := Served(env, f, maxClients);
      assert !Accepts(env, f, maxClients);
      assert served == f.items || served == Moved(received, env.onServe);
      EndedStay(served, Moved(served, env.onForward));
      var s := Moved(Moved(served, env.onForward), env.onTimers);
      EndedStay(Moved(served, env.onForward), s);
      FilterMembers(s, HasFailed);
      FilterMembers(Filter(s, HasFailed), IsDisconnected);
      SomeOrNone(Left(env, f, maxClients));
    }
  }

  lemma SomeOrNone<T>(s: seq<T>)
    ensures s == [] || exists x :: x in s
  {
    if s != [] {
      assert s[0] in s;
    }
  }

  lemma EndedStay(s: seq<State>, t: seq<State>)
    requires AllMove(s, t) && forall x :: x in s ==> !Alive(x)
    ensures forall x :: x in t ==> !Alive(x)
  {
    forall i | 0 <= i < |t|
      ensures !Alive(t[i])
    {
      assert s[i] in s && Reaches(s[i], t[i]);
    }
  }

  lemma AllBusyConnected(s: seq<State>)
    ensures Count(s, CONNECTED) <= Busy(s)
    ensures CONNECTING !in s ==> Count(s, CONNECTED) == Busy(s)
  {
    CountZero(s, CONNECTING);
  }

  lemma FilterCounts(s: seq<State>, check: State -> bool)
    ensures Busy(Filter(s, check)) <= Busy(s) && Count(Filter(s, check), CONNECTING) <= Count(s, CONNECTING)
    ensures forall x :: x in Filter(s, check) ==> x in s && !check(x)
  {
    FilterKeeps(s, check, CONNECTING);
    FilterKeeps(s, check, CONNECTED);
    FilterMembers(s, check);
  }

  lemma {:induction false} FilterMembers(s: seq<State>, check: State -> bool)
    ensures forall x :: x in Filter(s, check) ==> x in s && !check(x)
  {
    if s != [] {
      FilterMembers(s[1..], check);
    }
  }

  lemma {:induction false} AbortFrees(s: seq<State>)
    ensures Busy(Aborted(s)) <= Busy(s) && Count(Aborted(s), CONNECTING) == Count(s, CONNECTING)
    ensures forall x :: x in Aborted(s) && x != DISCONNECTED ==> x in s
  {
    if s != [] {
      AbortFrees(s[1..]);
      assert Aborted(s)[1..] == Aborted(s[1..]);
    }
  }
}
