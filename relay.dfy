/**
 * `MITMProxyServer.relay_data`: the two-way copy between the client and the
 * upstream socket. Each `select` round is one event of a trace; a readable
 * socket's `recv` result and the fate of the `sendall` that forwards it are
 * part of the event. An exceptional socket, an empty read, or a `recv` or
 * `sendall` error ends the relay; a round in which nothing is readable (the
 * 10-second timeout) does not.
 */
module Relay {
  import opened Base

  datatype Side = Client | Upstream

  /** One readable socket in a round. */
  datatype Read =
    | Received(from: Side, data: seq<Byte>, sendOk: bool) // `recv` returned `data`; the forward succeeded iff `sendOk`
    | RecvFailed(from: Side)                              // `recv` raised

  /** One `select` round. */
  datatype Round =
    | Exceptional             // some socket reported an exceptional condition
    | Idle                    // the timeout expired with nothing readable
    | Readable(ready: seq<Read>)

  /** The bytes delivered so far in each direction, and whether the relay has returned. */
  datatype RelayState = RelayState(toUpstream: seq<Byte>, toClient: seq<Byte>, ended: bool)

  const Start := RelayState([], [], false)

  /** One readable socket: forward its data to the other side, or end. */
  function ReadStep(s: RelayState, r: Read): (t: RelayState)
    requires !s.ended
    ensures !t.ended ==> r.Received? && r.data != [] && r.sendOk
    ensures t.ended ==> t.toUpstream == s.toUpstream && t.toClient == s.toClient
  {
    match r
    case RecvFailed(_) => s.(ended := true)
    case Received(from, data, sendOk) =>
      if data == [] || !sendOk then s.(ended := true)
      else if from == Client then s.(toUpstream := s.toUpstream + data)
      else s.(toClient := s.toClient + data)
  }

  /** The readable sockets of one round, in the order `select` lists them. */
  function ReadyStep(s: RelayState, ready: seq<Read>): (t: RelayState)
    decreases |ready|
  {
    if s.ended || ready == [] then s else ReadyStep(ReadStep(s, ready[0]), ready[1..])
  }

  /** One round. */
  function RoundStep(s: RelayState, round: Round): (t: RelayState)
    ensures s.ended ==> t == s
  {
    if s.ended then s
    else
      match round
      case Exceptional => s.(ended := true)
      case Idle => s
      case Readable(ready) => ReadyStep(s, ready)
  }

  /** The relay after the rounds of `trace`. */
  function Run(trace: seq<Round>): RelayState
  {
    if trace == [] then Start else RoundStep(Run(trace[..|trace| - 1]), trace[|trace| - 1])
  }

  /** `relay_data`; `ended` is false when the trace stops while the relay is still running. */
  method RelayData(trace: seq<Round>) returns (toUpstream: seq<Byte>, toClient: seq<Byte>, ended: bool)
    ensures RelayState(toUpstream, toClient, ended) == Run(trace)
  {
    toUpstream, toClient, ended := [], [], false;
    var i := 0;
    while i < |trace|
      invariant 0 <= i <= |trace|
      invariant RelayState(toUpstream, toClient, false) == Run(trace[..i])
      decreases |trace| - i
    {
      assert trace[..i + 1][..i] == trace[..i];
      match trace[i] {
        case Exceptional =>
          ended := true;
          EndedStaysEnded(trace[..i + 1], trace[i + 1..]);
          assert trace[..i + 1] + trace[i + 1..] == trace;
          return;
        case Idle =>
        case Readable(ready) =>
          var j := 0;
          while j < |ready|
            invariant 0 <= j <= |ready|
            invariant ReadyStep(RelayState(toUpstream, toClient, false), ready[j..]) == Run(trace[..i + 1])
          {
            assert ready[j..][1..] == ready[j + 1..];
            match ready[j] {
              case RecvFailed(_) =>
                ended := true;
                EndedStaysEnded(trace[..i + 1], trace[i + 1..]);
                assert trace[..i + 1] + trace[i + 1..] == trace;
                return;
              case Received(from, data, sendOk) =>
                if data == [] || !sendOk {
                  ended := true;
                  EndedStaysEnded(trace[..i + 1], trace[i + 1..]);
                  assert trace[..i + 1] + trace[i + 1..] == trace;
                  return;
                }
                if from == Client {
                  toUpstream := toUpstream + data;
                } else {
                  toClient := toClient + data;
                }
            }
            j := j + 1;
          }
      }
      i := i + 1;
    }
    assert trace[..i] == trace;
  }

  /** Running one more round. */
  lemma RunAppend(trace: seq<Round>, round: Round)
    ensures Run(trace + [round]) == RoundStep(Run(trace), round)
  {
    assert (trace + [round])[..|trace|] == trace;
  }

  /** A round with a single readable socket. */
  lemma ReadyOne(s: RelayState, r: Read)
    requires !s.ended
    ensures ReadyStep(s, [r]) == ReadStep(s, r)
  {
    assert [r][1..] == [];
  }

  /** Once the relay has returned, later rounds change nothing. */
  lemma {:induction false} EndedStaysEnded(t: seq<Round>, u: seq<Round>)
    requires Run(t).ended
    ensures Run(t + u) == Run(t)
    decreases |u|
  {
    if u == [] {
      assert t + u == t;
    } else {
      var v := u[..|u| - 1];
      assert t + u == (t + v) + [u[|u| - 1]];
      RunAppend(t + v, u[|u| - 1]);
      EndedStaysEnded(t, v);
    }
  }

  /** The trace without its idle rounds. */
  function DropIdle(trace: seq<Round>): (r: seq<Round>)
    ensures |r| <= |trace|
    ensures forall i :: 0 <= i < |r| ==> r[i] != Idle
  {
    if trace == [] then []
    else if trace[|trace| - 1] == Idle then DropIdle(trace[..|trace| - 1])
    else DropIdle(trace[..|trace| - 1]) + [trace[|trace| - 1]]
  }

  /** Idle rounds have no effect at all: the relay never stops for inactivity. */
  lemma {:induction false} IdleIrrelevant(trace: seq<Round>)
    ensures Run(DropIdle(trace)) == Run(trace)
  {
    if trace != [] {
      var init := trace[..|trace| - 1];
      IdleIrrelevant(init);
      if trace[|trace| - 1] != Idle {
        var d := DropIdle(init) + [trace[|trace| - 1]];
        assert d[..|d| - 1] == DropIdle(init);
      }
    }
  }

  /** Data read from one side reaches the other side unchanged and after what came before. */
  lemma ForwardsUnchanged(trace: seq<Round>, from: Side, data: seq<Byte>)
    requires !Run(trace).ended && data != []
    ensures var s := Run(trace + [Readable([Received(from, data, true)])]);
      !s.ended
      && s.toUpstream == Run(trace).toUpstream + (if from == Client then data else [])
      && s.toClient == Run(trace).toClient + (if from == Upstream then data else [])
  {
    RunAppend(trace, Readable([Received(from, data, true)]));
    ReadyOne(Run(trace), Received(from, data, true));
  }

  /** An exceptional socket, an empty read, or a failed `recv` or `sendall` ends the relay. */
  lemma EndingRounds(trace: seq<Round>, from: Side, data: seq<Byte>)
    requires !Run(trace).ended
    ensures Run(trace + [Exceptional]).ended
    ensures Run(trace + [Readable([Received(from, [], true)])]).ended
    ensures Run(trace + [Readable([Received(from, data, false)])]).ended
    ensures Run(trace + [Readable([RecvFailed(from)])]).ended
    ensures Run(trace + [Idle]) == Run(trace)
  {
    var s := Run(trace);
    RunAppend(trace, Exceptional);
    RunAppend(trace, Readable([Received(from, [], true)]));
    ReadyOne(s, Received(from, [], true));
    RunAppend(trace, Readable([Received(from, data, false)]));
    ReadyOne(s, Received(from, data, false));
    RunAppend(trace, Readable([RecvFailed(from)]));
    ReadyOne(s, RecvFailed(from));
    RunAppend(trace, Idle);
  }
}
