/** The life of a port forwarder. */
module ForwarderState {
  datatype State = READY | FAILED | CONNECTING | CONNECTED | DISCONNECTING | DISCONNECTED

  /** Where one event can take a forwarder. */
  predicate Moves(a: State, b: State) {
    a == b ||
    match a
    case READY => b == FAILED || b == CONNECTING
    case CONNECTING => b == FAILED || b == CONNECTED || b == DISCONNECTED
    case CONNECTED => b == DISCONNECTING || b == DISCONNECTED
    case DISCONNECTING => b == DISCONNECTED
    case FAILED => false
    case DISCONNECTED => false
  }

  /** Where any number of events can take a forwarder. */
  predicate Reaches(a: State, b: State) {
    a == b ||
    match a
    case READY => true
    case CONNECTING => b != READY
    case CONNECTED => b == DISCONNECTING || b == DISCONNECTED
    case DISCONNECTING => b == DISCONNECTED
    case FAILED => false
    case DISCONNECTED => false
  }

  predicate IsPath(path: seq<State>, a: State, b: State) {
    && path != [] && path[0] == a && path[|path| - 1] == b
    && forall i :: 0 <= i < |path| - 1 ==> Moves(path[i], path[i + 1])
  }

  lemma {:induction false} PathsReach(path: seq<State>, a: State, b: State)
    requires IsPath(path, a, b)
    ensures Reaches(a, b)
  {
    if |path| > 1 {
      var rest := path[1..];
      forall i | 0 <= i < |rest| - 1
        ensures Moves(rest[i], rest[i + 1])
      {
        assert Moves(path[i + 1], path[i + 2]);
      }
      assert Moves(path[0], path[1]);
      PathsReach(rest, rest[0], b);
    }
  }

  /** One state reaches another exactly when some sequence of single events leads there. */
  lemma ReachesIsClosure(a: State, b: State)
    ensures Reaches(a, b) <==> exists path :: IsPath(path, a, b)
  {
    if Reaches(a, b) {
      var path :=
        if Moves(a, b) then [a, b]
        else if a == CONNECTING then [a, CONNECTED, b]
        else if Moves(CONNECTING, b) then [a, CONNECTING, b]
        else [a, CONNECTING, CONNECTED, b];
      assert IsPath(path, a, b);
    }
    if path :| IsPath(path, a, b) {
      PathsReach(path, a, b);
    }
  }
}
