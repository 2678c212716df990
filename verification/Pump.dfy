/** The reader over a background pump: bytes flow through a pipe, and the end of
    the pipe counts as the end of the data only once the pump's own result is
    known.  A pump that failed never looks like a clean end of file. */
module Pump {
  import opened Schema

  type Bytes = seq<int>

  datatype PumpResult = Succeeded | FailedWith(code: int) | Panicked

  datatype Status = Running | Ended(result: PumpResult)

  /** What the pump and its pipe have come to.  `holding` says whether the reader
      still holds the pump's handle. */
  datatype State = State(written: Bytes, delivered: nat, closed: bool, status: Status, holding: bool)

  datatype Poll = Pending | Data(bytes: Bytes) | Empty | Failed(result: PumpResult)

  function Least(a: int, b: int): int {
    if a <= b then a else b
  }

  // ----- the reader -----

  class Pipe {
    var written: Bytes
    var delivered: nat
    var closed: bool
    var status: Status

    constructor ()
      ensures written == [] && delivered == 0 && !closed && status == Running
    {
      written, delivered, closed, status := [], 0, false, Running;
    }

    ghost predicate Valid()
      reads this
    {
      delivered <= |written|
    }

    /** One poll of the pipe: as much as fits of what is there; nothing when the
        writer is gone, or when the buffer has no room. */
    method PollRead(room: nat) returns (r: Option<Bytes>)
      requires Valid()
      modifies this`delivered
      ensures Valid()
      ensures r.None? <==> old(delivered) == |written| && !closed
      ensures r.None? ==> delivered == old(delivered)
      ensures r.Some? ==>
                && |r.value| == Least(room, |written| - old(delivered)) && delivered == old(delivered) + |r.value|
                && r.value == written[old(delivered)..delivered]
    {
      if delivered < |written| {
        var n := Least(room, |written| - delivered);
        r := Some(written[delivered..delivered + n]);
        delivered := delivered + n;
      } else if closed {
        r := Some([]);
      } else {
        r := None;
      }
    }
  }

  class PumpReader {
    const pipe: Pipe
    var holding: bool

    constructor (pipe: Pipe)
      ensures this.pipe == pipe && holding
    {
      this.pipe := pipe;
      holding := true;
    }

    ghost function Model(): State
      reads this, pipe
    {
      State(pipe.written, pipe.delivered, pipe.closed, pipe.status, holding)
    }

    method PollRead(room: nat) returns (r: Poll)
      requires pipe.Valid()
      modifies this, pipe`delivered
      ensures pipe.Valid()
      ensures PollStep(old(Model()), Model(), room, r)
    {
      var got := pipe.PollRead(room);
      if got.None? {
        return Pending;
      }
      if got.value != [] {
        return Data(got.value);
      }
      if !holding {
        return Empty;
      }
      match pipe.status
      case Running =>
        return Pending;
      case Ended(Succeeded) =>
        holding := false;
        return Empty;
      case Ended(result) =>
        holding := false;
        return Failed(result);
    }
  }

  // ----- steps -----

  /** A read of the pipe that gives no byte: at the end, or for want of room. */
  predicate IsBare(s: State, room: nat) {
    (s.delivered == |s.written| && s.closed) || (s.delivered < |s.written| && room == 0)
  }

  /** A poll with `room` bytes of room. */
  ghost predicate PollStep(s: State, s': State, room: nat, r: Poll) {
    match r
    case Pending =>
      && s' == s && (s.delivered < |s.written| ==> room == 0)
      && (IsBare(s, room) ==> s.holding && s.status == Running)
    case Data(bytes) =>
      && bytes != [] && |bytes| == Least(room, |s.written| - s.delivered)
      && bytes == s.written[s.delivered..s.delivered + |bytes|]
      && s' == s.(delivered := s.delivered + |bytes|)
    case Empty =>
      IsBare(s, room) && s' == s.(holding := false) && (s.holding ==> s.status == Ended(Succeeded))
    case Failed(result) =>
      && IsBare(s, room)
      && s.holding && s' == s.(holding := false) && result != Succeeded && s.status == Ended(result)
  }

  datatype Event = Wrote(bytes: Bytes) | Closed | Finished(result: PumpResult) | Polled(room: nat, r: Poll)

  /** The pump writes and closes while it runs; when it ends, its writer is gone. */
  ghost predicate Step(s: State, e: Event, s': State) {
    match e
    case Wrote(bytes) => s.status == Running && !s.closed && s' == s.(written := s.written + bytes)
    case Closed => s.status == Running && s' == s.(closed := true)
    case Finished(result) => s.status == Running && s' == s.(closed := true, status := Ended(result))
    case Polled(room, r) => PollStep(s, s', room, r)
  }

  ghost predicate Init(s: State) {
    s == State([], 0, false, Running, true)
  }

  /** A run: the states between its events. */
  ghost predicate IsRun(states: seq<State>, events: seq<Event>) {
    && |states| == |events| + 1 && Init(states[0])
    && forall i, j {:trigger states[i], states[j]} :: 0 <= i < |events| && j == i + 1 ==>
         Step(states[i], events[i], states[j])
  }

  // ----- what a run shows -----

  /** All that the polls have delivered. */
  function Received(events: seq<Event>): Bytes {
    if events == [] then []
    else
      var last := events[|events| - 1];
      Received(events[..|events| - 1]) + if last.Polled? && last.r.Data? then last.r.bytes else []
  }

  ghost predicate SawFailure(events: seq<Event>) {
    exists e :: e in events && e.Polled? && e.r.Failed?
  }

  /** An empty read into a buffer with room: what a consumer takes for the end. */
  predicate IsEof(e: Event) {
    e.Polled? && e.r.Empty? && e.room > 0
  }

  ghost predicate Inv(s: State, events: seq<Event>) {
    && s.delivered <= |s.written| && Received(events) == s.written[..s.delivered]
    && (s.status.Ended? ==> s.closed)
    && (!s.holding ==> s.status.Ended?)
    && (!s.holding && s.status != Ended(Succeeded) ==> SawFailure(events))
    && (SawFailure(events) ==> s.status.Ended? && s.status != Ended(Succeeded))
  }

  lemma FailureStays(events: seq<Event>, e: Event)
    ensures SawFailure(events + [e]) <==> SawFailure(events) || (e.Polled? && e.r.Failed?)
  {
    if SawFailure(events) {
      var f :| f in events && f.Polled? && f.r.Failed?;
      assert f in events + [e];
    }
    assert e in events + [e];
  }

  lemma StepKeepsInv(s: State, events: seq<Event>, e: Event, s': State)
    requires Inv(s, events) && Step(s, e, s')
    ensures Inv(s', events + [e])
  {
    assert (events + [e])[..|events|] == events;
    FailureStays(events, e);
    if e.Polled? && e.r.Data? {
      assert s.written[..s.delivered] + e.r.bytes == s.written[..s'.delivered];
    }
  }

  lemma RunBefore(states: seq<State>, events: seq<Event>)
    requires IsRun(states, events) && events != []
    ensures IsRun(states[..|events|], events[..|events| - 1])
    ensures Step(states[|events| - 1], events[|events| - 1], states[|events|])
  {
    var n := |events|;
    forall i, j | 0 <= i < n - 1 && j == i + 1
      ensures Step(states[..n][i], events[..n - 1][i], states[..n][j])
    {
      assert Step(states[i], events[i], states[j]);
    }
  }

  lemma {:induction false} RunKeepsInv(states: seq<State>, events: seq<Event>)
    requires IsRun(states, events)
    ensures Inv(states[|events|], events)
    decreases |events|
  {
    if events == [] {
      assert states[0].written[..0] == [];
    } else {
      var n := |events|;
      RunBefore(states, events);
      RunKeepsInv(states[..n], events[..n - 1]);
      StepKeepsInv(states[n - 1], events[..n - 1], events[n - 1], states[n]);
      assert events[..n - 1] + [events[n - 1]] == events;
    }
  }

  /** At every point of every run, what was received is a beginning of what the
      pump wrote. */
  lemma DeliveredIsPrefix(states: seq<State>, events: seq<Event>)
    requires IsRun(states, events)
    ensures Received(events) <= states[|events|].written
  {
    RunKeepsInv(states, events);
  }

  /** In every interleaving, a read that looks like the end of the data comes only
      after the pump succeeded and all it wrote was received, or after an error
      was reported. */
  lemma EofIsSound(states: seq<State>, events: seq<Event>)
    requires IsRun(states, events) && events != [] && IsEof(events[|events| - 1])
    ensures var s := states[|events|];
            || (s.status == Ended(Succeeded) && Received(events) == s.written)
            || SawFailure(events[..|events| - 1])
  {
    var n := |events|;
    RunBefore(states, events);
    RunKeepsInv(states[..n], events[..n - 1]);
    RunKeepsInv(states, events);
    var s := states[n];
    if s.status == Ended(Succeeded) {
      assert s.written[..|s.written|] == s.written;
    }
  }

  /** So the reads of a pump that failed never end cleanly before its error is reported. */
  lemma FailedPumpReportsFirst(states: seq<State>, events: seq<Event>, k: nat)
    requires IsRun(states, events) && k < |events| && IsEof(events[k])
    requires states[|events|].status.Ended? && states[|events|].status != Ended(Succeeded)
    ensures SawFailure(events[..k])
  {
    PrefixRun(states, events, k + 1);
    EofIsSound(states[..k + 2], events[..k + 1]);
    assert events[..k + 1][..k] == events[..k];
    if states[k + 1].status.Ended? {
      StatusStays(states, events, k + 1, |events|);
    }
  }

  lemma {:induction false} PrefixRun(states: seq<State>, events: seq<Event>, k: nat)
    requires IsRun(states, events) && k <= |events|
    ensures IsRun(states[..k + 1], events[..k])
    decreases |events|
  {
    var n := |events|;
    if k == n {
      assert states[..k + 1] == states && events[..k] == events;
    } else {
      RunBefore(states, events);
      PrefixRun(states[..n], events[..n - 1], k);
      assert states[..n][..k + 1] == states[..k + 1] && events[..n - 1][..k] == events[..k];
    }
  }

  lemma {:induction false} StatusStays(states: seq<State>, events: seq<Event>, i: nat, j: nat)
    requires IsRun(states, events) && i <= j <= |events| && states[i].status.Ended?
    ensures states[j].status == states[i].status
    decreases j
  {
    if i < j {
      StatusStays(states, events, i, j - 1);
      assert Step(states[j - 1], events[j - 1], states[j]);
    }
  }

  // ----- what a poll must report -----

  /** Bytes that are there are given, as many as there is room for. */
  lemma BytesAreGiven(states: seq<State>, events: seq<Event>, k: nat)
    requires IsRun(states, events) && k < |events| && events[k].Polled? && events[k].room > 0
    requires |Received(events[..k])| < |states[k].written|
    ensures var r, room := events[k].r, events[k].room;
            && r.Data? && |r.bytes| == Least(room, |states[k].written| - |Received(events[..k])|)
            && Received(events[..k + 1]) == Received(events[..k]) + r.bytes
  {
    PrefixRun(states, events, k);
    RunKeepsInv(states[..k + 1], events[..k]);
    assert Step(states[k], events[k], states[k + 1]);
    assert events[..k + 1][..k] == events[..k];
  }

  /** Once the pump has ended and all it wrote was received, a poll says so at
      once: with the error if it failed and this was not reported before, else
      as the end of the data. */
  lemma EndIsReported(states: seq<State>, events: seq<Event>, k: nat)
    requires IsRun(states, events) && k < |events| && events[k].Polled?
    requires states[k].status.Ended? && Received(events[..k]) == states[k].written
    ensures var result := states[k].status.result;
            events[k].r == if result != Succeeded && !SawFailure(events[..k]) then Failed(result) else Empty
  {
    PrefixRun(states, events, k);
    RunKeepsInv(states[..k + 1], events[..k]);
    assert Step(states[k], events[k], states[k + 1]);
    if states[k].holding {
      HeldUntilReported(states, events, k);
    }
  }

  /** The handle is held until the end of a pump that succeeded, or its failure, was reported. */
  lemma {:induction false} HeldUntilReported(states: seq<State>, events: seq<Event>, k: nat)
    requires IsRun(states, events) && k <= |events| && states[k].holding
    ensures !SawFailure(events[..k])
    decreases k
  {
    if k > 0 {
      assert Step(states[k - 1], events[k - 1], states[k]);
      HeldUntilReported(states, events, k - 1);
      assert events[..k] == events[..k - 1] + [events[k - 1]];
      FailureStays(events[..k - 1], events[k - 1]);
    }
  }
}
