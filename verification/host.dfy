/** The brokered variant's hotel process: a single register holding the
    ledger, which answers every request with the ledger after the request. */
module Host {
  import opened Rooms

  const GetPacket: int := 1
  const SetPacket: int := 2

  /** A request: its packet id and a ledger payload (only read for SET). */
  datatype Message = Message(packetId: int, data: Ledger)

  /** The host's state after one request, and the ledger it writes back. */
  datatype Step = Step(state: Ledger, reply: Ledger)

  predicate IsSet(m: Message)
  {
    m.packetId == SetPacket
  }

  /** One turn of the request loop: a SET replaces the whole ledger with its
      payload, with no version check; any other packet id reads only. */
  function HostStep(state: Ledger, m: Message): (r: Step)
    ensures r.reply == r.state
    ensures IsSet(m) ==> r.state == m.data
    ensures !IsSet(m) ==> r.state == state
  {
    var next := if m.packetId == SetPacket then m.data else state;
    Step(next, next)
  }

  /** The request loop mirrored with its element-wise copy loops. */
  method HostLoopStep(state: Ledger, m: Message) returns (next: Ledger, reply: Ledger)
    requires state.Valid() && m.data.Valid()
    ensures HostStep(state, m) == Step(next, reply)
  {
    var singles := state.singles;
    var doubles := state.doubles;
    if m.packetId == 2 {
      var i := 0;
      while i < SingleCount
        invariant 0 <= i <= SingleCount && |singles| == SingleCount
        invariant singles[..i] == m.data.singles[..i]
      {
        singles := singles[i := m.data.singles[i]];
        i := i + 1;
      }
      var j := 0;
      while j < DoubleCount
        invariant 0 <= j <= DoubleCount && |doubles| == DoubleCount
        invariant doubles[..j] == m.data.doubles[..j]
      {
        doubles := doubles[j := m.data.doubles[j]];
        j := j + 1;
      }
      assert singles == singles[..SingleCount];
      assert doubles == doubles[..DoubleCount];
    }
    next := Ledger(singles, doubles);
    reply := next;
  }

  /** The host's ledger after serving a whole sequence of requests: the
      host never makes up a ledger, it holds either its starting ledger or
      the payload of one of the SETs it served. */
  function Serve(state: Ledger, ms: seq<Message>): (r: Ledger)
    ensures r == state || exists k :: 0 <= k < |ms| && IsSet(ms[k]) && r == ms[k].data
    decreases |ms|
  {
    if |ms| == 0 then state
    else Serve(HostStep(state, ms[0]).state, ms[1..])
  }

  /** The replies the host writes back: one per request, the last of them
      being the ledger the host ends up holding. */
  function Replies(state: Ledger, ms: seq<Message>): (rs: seq<Ledger>)
    ensures |rs| == |ms|
    ensures |ms| > 0 ==> rs[|ms| - 1] == Serve(state, ms)
    decreases |ms|
  {
    if |ms| == 0 then []
    else
      var s := HostStep(state, ms[0]);
      [s.reply] + Replies(s.state, ms[1..])
  }

  /** The reply to the k-th request is the ledger after the first k+1
      requests. */
  lemma {:induction false} ReplyIsStateSoFar(state: Ledger, ms: seq<Message>, k: nat)
    requires k < |ms|
    ensures Replies(state, ms)[k] == Serve(state, ms[..k + 1])
    decreases |ms|
  {
    var s := HostStep(state, ms[0]);
    if k > 0 {
      ReplyIsStateSoFar(s.state, ms[1..], k - 1);
      assert ms[..k + 1][1..] == ms[1..][..k];
    }
  }

  /** Requests that are not SETs never change the ledger. */
  lemma {:induction false} ReadsLeaveStateAlone(state: Ledger, ms: seq<Message>)
    requires forall k :: 0 <= k < |ms| ==> !IsSet(ms[k])
    ensures Serve(state, ms) == state
    decreases |ms|
  {
    if |ms| > 0 {
      ReadsLeaveStateAlone(state, ms[1..]);
    }
  }

  /** Last write wins: after any sequence of requests, the ledger is the
      payload of the last SET, whatever came before it. */
  lemma {:induction false} LastSetWins(state: Ledger, ms: seq<Message>, k: nat)
    requires k < |ms| && IsSet(ms[k])
    requires forall j :: k < j < |ms| ==> !IsSet(ms[j])
    ensures Serve(state, ms) == ms[k].data
    decreases |ms|
  {
    var s := HostStep(state, ms[0]);
    if k == 0 {
      ReadsLeaveStateAlone(s.state, ms[1..]);
    } else {
      LastSetWins(s.state, ms[1..], k - 1);
    }
  }

  /** Serving two batches in turn is serving their concatenation. */
  lemma {:induction false} ServeConcat(state: Ledger, a: seq<Message>, b: seq<Message>)
    ensures Serve(state, a + b) == Serve(Serve(state, a), b)
    decreases |a|
  {
    if |a| == 0 {
      assert a + b == b;
    } else {
      assert (a + b)[0] == a[0];
      assert (a + b)[1..] == a[1..] + b;
      ServeConcat(HostStep(state, a[0]).state, a[1..], b);
    }
  }

  /** SET is idempotent, the second of two SETs wins, and a GET after a SET
      replies with the payload that was set. */
  lemma SetLaws(state: Ledger, x: Ledger, y: Ledger, junk: Ledger)
    ensures HostStep(HostStep(state, Message(SetPacket, x)).state, Message(SetPacket, x))
            == HostStep(state, Message(SetPacket, x))
    ensures HostStep(HostStep(state, Message(SetPacket, x)).state, Message(SetPacket, y))
            == HostStep(state, Message(SetPacket, y))
    ensures HostStep(HostStep(state, Message(SetPacket, x)).state, Message(GetPacket, junk)).reply == x
  {
  }

  /** Sending back a snapshot just read is a no-op on the host. */
  lemma SetOfSnapshotIsNoOp(state: Ledger, junk: Ledger)
    ensures HostStep(state, Message(SetPacket, HostStep(state, Message(GetPacket, junk)).reply)).state == state
  {
  }
}
