/** The page's connection toggle. The `connected` flag mirrors the transport's
    own events; the toggle only asks the transport to connect or disconnect and
    leaves the flag to those events. */
module Connection {

  /** What the page asks of the collaboration transport. */
  datatype TransportCall = Connect | Disconnect

  /** What the transport reports back (its `onConnect` and `onDisconnect` callbacks). */
  datatype TransportEvent = Connected | Disconnected

  /** `toggleConnection`: disconnect when connected, otherwise connect. */
  function ToggleCall(connected: bool): (c: TransportCall)
    ensures c == Disconnect <==> connected
    ensures c == Connect <==> !connected
  {
    if connected then Disconnect else Connect
  }

  /** The flag after one transport event. */
  function OnEvent(connected: bool, e: TransportEvent): (r: bool)
    ensures r <==> e == Connected
  {
    match e
    case Connected => true
    case Disconnected => false
  }

  /** The flag after a run of transport events, in order. */
  function Mirror(connected: bool, events: seq<TransportEvent>): bool
    decreases |events|
  {
    if events == [] then connected else Mirror(OnEvent(connected, events[0]), events[1..])
  }

  /** The event by which the transport confirms a call that succeeds. */
  function Confirmation(c: TransportCall): TransportEvent
  {
    match c
    case Connect => Connected
    case Disconnect => Disconnected
  }

  /** The flag is whatever the last event said, and the starting value when there
      has been no event. */
  lemma {:induction false} MirrorFollowsLastEvent(connected: bool, events: seq<TransportEvent>)
    ensures events == [] ==> Mirror(connected, events) == connected
    ensures events != [] ==> (Mirror(connected, events) <==> events[|events| - 1] == Connected)
    decreases |events|
  {
    if events != [] {
      MirrorFollowsLastEvent(OnEvent(connected, events[0]), events[1..]);
    }
  }

  /** Events that arrive in two batches act as one run. */
  lemma {:induction false} MirrorAppend(connected: bool, a: seq<TransportEvent>, b: seq<TransportEvent>)
    ensures Mirror(connected, a + b) == Mirror(Mirror(connected, a), b)
    decreases |a|
  {
    if a == [] {
      assert a + b == b;
    } else {
      assert (a + b)[0] == a[0];
      assert (a + b)[1..] == a[1..] + b;
      MirrorAppend(OnEvent(connected, a[0]), a[1..], b);
    }
  }

  /** A toggle whose call the transport confirms flips the flag, whatever events came before. */
  lemma ToggleThenConfirmFlips(start: bool, before: seq<TransportEvent>)
    ensures
      var c := Mirror(start, before);
      Mirror(start, before + [Confirmation(ToggleCall(c))]) == !c
  {
    var c := Mirror(start, before);
    MirrorAppend(start, before, [Confirmation(ToggleCall(c))]);
  }

  /** The page's connection state: the flag starts false, as the transport is
      created without connecting. */
  class ConnectionState {
    var connected: bool

    constructor()
      ensures !connected
    {
      connected := false;
    }

    /** `toggleConnection`: returns the call made on the transport and changes nothing. */
    method ToggleConnection() returns (call: TransportCall)
      ensures call == ToggleCall(connected)
    {
      if connected {
        return Disconnect;
      }
      call := Connect;
    }

    /** `onConnect`. */
    method OnConnect()
      modifies this
      ensures connected == OnEvent(old(connected), Connected)
    {
      connected := true;
    }

    /** `onDisconnect`. */
    method OnDisconnect()
      modifies this
      ensures connected == OnEvent(old(connected), Disconnected)
    {
      connected := false;
    }
  }
}
