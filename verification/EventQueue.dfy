/** The queue between the ConPTY reader threads and the window thread. It is bounded in frames and
    in bytes. A data event is refused when there is no room; an exit event evicts older events
    instead, because the end of a terminal must stay observable. */
module EventQueue {

  const MAX_FRAMES: nat := 256
  const MAX_BYTES: nat := 2 * 1024 * 1024

  datatype Kind = Data | Exit
  datatype Event = Event(kind: Kind, sessionId: string, data: string, exitCode: int)

  /** Two counters travel with the strings: a 4-byte exit code and a 1-byte kind. */
  function EventBytes(e: Event): nat {
    |e.sessionId| + |e.data| + 4 + 1
  }

  function Bytes(q: seq<Event>): nat {
    if q == [] then 0 else EventBytes(q[0]) + Bytes(q[1..])
  }

  predicate Room(q: seq<Event>, e: Event) {
    |q| < MAX_FRAMES && Bytes(q) + EventBytes(e) <= MAX_BYTES
  }

  predicate Bounded(q: seq<Event>) {
    |q| <= MAX_FRAMES && Bytes(q) <= MAX_BYTES
  }

  lemma {:induction false} BytesAppend(q: seq<Event>, e: Event)
    ensures Bytes(q + [e]) == Bytes(q) + EventBytes(e)
  {
    if q == [] {
      assert [] + [e] == [e];
    } else {
      assert (q + [e])[1..] == q[1..] + [e];
      BytesAppend(q[1..], e);
    }
  }

  // ---------------------------------------------------------------------------
  // What one step does to the queue
  // ---------------------------------------------------------------------------

  /** `k` is the length of the shortest prefix whose removal makes room for `e`. */
  ghost predicate ShortestEviction(q: seq<Event>, e: Event, k: nat) {
    && k <= |q| && Room(q[k..], e)
    && forall j :: 0 <= j < k ==> !Room(q[j..], e)
  }

  function Evictions(q: seq<Event>, e: Event): (k: nat)
    ensures k <= |q|
    ensures EventBytes(e) <= MAX_BYTES ==> ShortestEviction(q, e, k)
  {
    if q == [] || Room(q, e) then 0
    else
      var k := 1 + Evictions(q[1..], e);
      assert q[k..] == q[1..][k - 1..];
      assert forall j :: 0 < j < k ==> q[j..] == q[1..][j - 1..];
      k
  }

  /** `window`: a live window is set; `sink`: a test sink is set; `posts`: PostMessage succeeds;
      `channel`: a method channel is set. */
  datatype Op = Queue(e: Event, window: bool, sink: bool, posts: bool) | Drain(channel: bool) | Clear

  function Evicted(q: seq<Event>, op: Op): seq<Event> {
    if op.Queue? && op.window && op.e.kind == Exit && EventBytes(op.e) <= MAX_BYTES
    then q[..Evictions(q, op.e)] else []
  }

  predicate Accepted(q: seq<Event>, op: Op) {
    && op.Queue? && op.window && op.posts
    && EventBytes(op.e) <= MAX_BYTES
    && (op.e.kind == Exit || Room(q, op.e))
  }

  function After(q: seq<Event>, op: Op): seq<Event> {
    if !op.Queue? then []
    else q[|Evicted(q, op)|..] + if Accepted(q, op) then [op.e] else []
  }

  // ---------------------------------------------------------------------------
  // The manager's fields
  // ---------------------------------------------------------------------------

  class Manager {
    var pendingEvents: seq<Event>
    var pendingBytes: nat

    /** The counter is the sum of the queued sizes, and both bounds hold. */
    ghost predicate Valid()
      reads this
    {
      pendingBytes == Bytes(pendingEvents) && Bounded(pendingEvents)
    }

    constructor ()
      ensures Valid() && pendingEvents == []
    {
      pendingEvents, pendingBytes := [], 0;
    }

    method QueuePlatformEvent(e: Event, window: bool, sink: bool, posts: bool) returns (ok: bool)
      requires Valid()
      modifies this
      ensures Valid()
      ensures pendingEvents == After(old(pendingEvents), Queue(e, window, sink, posts))
      ensures ok == if window then Accepted(old(pendingEvents), Queue(e, window, sink, posts)) else sink
    {
      hide Bytes;
      var deliveredToSink := sink;
      if !window { return deliveredToSink; }

      var eventBytes := EventBytes(e);
      if eventBytes > MAX_BYTES { return false; }

      ghost var evicted := 0;
      if e.kind == Exit {
        while pendingEvents != [] && (|pendingEvents| >= MAX_FRAMES || pendingBytes > MAX_BYTES - eventBytes)
          invariant Valid()
          invariant evicted <= |old(pendingEvents)| && pendingEvents == old(pendingEvents)[evicted..]
          invariant evicted + Evictions(pendingEvents, e) == Evictions(old(pendingEvents), e)
          decreases |pendingEvents|
        {
          BytesOfFront(pendingEvents);
          pendingBytes := pendingBytes - EventBytes(pendingEvents[0]);
          pendingEvents := pendingEvents[1..];
          evicted := evicted + 1;
        }
        BytesOfNone();
      } else if |pendingEvents| >= MAX_FRAMES || pendingBytes > MAX_BYTES - eventBytes {
        return false;
      }

      BytesAppend(pendingEvents, e);
      pendingBytes := pendingBytes + eventBytes;
      pendingEvents := pendingEvents + [e];

      if !posts {
        var last := |pendingEvents| - 1;
        pendingBytes := pendingBytes - EventBytes(pendingEvents[last]);
        pendingEvents := pendingEvents[..last];
        return false;
      }
      return true;
    }

    /** `invoked` are the events handed to the channel; without one the drained events are lost. */
    method DrainPlatformEvents(channel: bool) returns (invoked: seq<Event>)
      requires Valid()
      modifies this
      ensures Valid()
      ensures invoked == if channel then old(pendingEvents) else []
      ensures pendingEvents == After(old(pendingEvents), Drain(channel))
    {
      var events := pendingEvents;
      pendingEvents := [];
      pendingBytes := 0;
      invoked := [];
      if !channel { return; }
      for i := 0 to |events|
        invariant invoked == events[..i]
      {
        invoked := invoked + [events[i]];
      }
    }

    /** SetPlatformWindow(nullptr). */
    method ClearPlatformWindow()
      requires Valid()
      modifies this
      ensures Valid()
      ensures pendingEvents == After(old(pendingEvents), Clear)
    {
      pendingEvents := [];
      pendingBytes := 0;
    }
  }

  lemma BytesOfFront(q: seq<Event>)
    requires q != []
    ensures Bytes(q) == EventBytes(q[0]) + Bytes(q[1..])
  {
  }

  lemma BytesOfNone()
    ensures Bytes([]) == 0
  {
  }

  // ---------------------------------------------------------------------------
  // Every run
  // ---------------------------------------------------------------------------

  /** A run, seen from outside: what is queued, and what was accepted, evicted and delivered since
      the last time the queue was emptied; `delivered` and `dropped` are over the whole run. */
  datatype Run = Run(pending: seq<Event>, accepted: seq<Event>, evicted: seq<Event>,
                     delivered: seq<Event>, dropped: seq<Event>, everAccepted: seq<Event>)

  function Next(r: Run, op: Op): Run {
    match op
    case Drain(channel) =>
      if channel then Run([], [], [], r.delivered + r.pending, r.dropped, r.everAccepted)
      else Run([], [], [], r.delivered, r.dropped + r.pending, r.everAccepted)
    case Clear => Run([], [], [], r.delivered, r.dropped + r.pending, r.everAccepted)
    case Queue(e, _, _, _) =>
      var gone := Evicted(r.pending, op);
      var added := if Accepted(r.pending, op) then [e] else [];
      Run(After(r.pending, op), r.accepted + added, r.evicted + gone,
          r.delivered, r.dropped + gone, r.everAccepted + added)
  }

  function Exec(ops: seq<Op>): Run {
    if ops == [] then Run([], [], [], [], [], [])
    else Next(Exec(ops[..|ops| - 1]), ops[|ops| - 1])
  }

  lemma {:induction false} BytesOfSuffix(q: seq<Event>, k: nat)
    requires k <= |q|
    ensures Bytes(q[k..]) <= Bytes(q)
  {
    if k > 0 {
      BytesOfSuffix(q[1..], k - 1);
      assert q[1..][k - 1..] == q[k..];
    }
  }

  lemma StepStaysBounded(q: seq<Event>, op: Op)
    requires Bounded(q)
    ensures Bounded(After(q, op))
  {
    if op.Queue? {
      var kept := q[|Evicted(q, op)|..];
      BytesOfSuffix(q, |Evicted(q, op)|);
      BytesAppend(kept, op.e);
      if Accepted(q, op) {
        assert op.e.kind == Data ==> kept == q;
      } else {
        assert After(q, op) == kept;
      }
    }
  }

  ghost predicate Conserved(r: Run) {
    multiset(r.everAccepted) == multiset(r.delivered) + multiset(r.dropped) + multiset(r.pending)
  }

  lemma StepConserves(r: Run, op: Op)
    requires Conserved(r)
    ensures Conserved(Next(r, op))
  {
    if op.Queue? {
      hide Accepted, Evictions;
      var gone := Evicted(r.pending, op);
      assert gone + r.pending[|gone|..] == r.pending;
      assert multiset(gone) + multiset(r.pending[|gone|..]) == multiset(r.pending);
    }
  }

  lemma StepSplitsAccepted(r: Run, op: Op)
    requires r.evicted + r.pending == r.accepted
    ensures Next(r, op).evicted + Next(r, op).pending == Next(r, op).accepted
  {
    if op.Queue? {
      hide Accepted, Evictions;
      var gone := Evicted(r.pending, op);
      var added := if Accepted(r.pending, op) then [op.e] else [];
      var kept := r.pending[|gone|..];
      assert gone + kept == r.pending;
      Reassociate(r.evicted, gone, kept, added);
    }
  }

  lemma Reassociate(a: seq<Event>, b: seq<Event>, c: seq<Event>, d: seq<Event>)
    ensures (a + b) + (c + d) == (a + (b + c)) + d
  {
  }

  /** After any run: the queue is within its bounds; it is what remains of the events accepted
      since it was last emptied once the oldest of them were evicted; and no event was lost or made
      up: what was ever accepted has been delivered, was dropped, or is queued. */
  lemma {:induction false} RunKeeps(ops: seq<Op>)
    ensures Bounded(Exec(ops).pending)
    ensures Exec(ops).evicted + Exec(ops).pending == Exec(ops).accepted
    ensures Conserved(Exec(ops))
  {
    hide Next, Bounded;
    if ops == [] {
      NothingQueued();
    } else {
      var r, op := Exec(ops[..|ops| - 1]), ops[|ops| - 1];
      RunKeeps(ops[..|ops| - 1]);
      StepStaysBounded(r.pending, op);
      NextPending(r, op);
      StepSplitsAccepted(r, op);
      StepConserves(r, op);
    }
  }

  lemma NothingQueued()
    ensures Bounded([]) && Conserved(Run([], [], [], [], [], []))
  {
  }

  lemma NextPending(r: Run, op: Op)
    ensures Next(r, op).pending == After(r.pending, op)
  {
  }

  /** The operations since the queue was last emptied. */
  function SinceEmptied(ops: seq<Op>): (since: seq<Op>)
    ensures forall i :: 0 <= i < |since| ==> since[i].Queue?
  {
    if ops == [] || !ops[|ops| - 1].Queue? then []
    else SinceEmptied(ops[..|ops| - 1]) + [ops[|ops| - 1]]
  }

  /** Data events never evict: without an exit event since the queue was last emptied, everything
      accepted since then is still queued. */
  lemma {:induction false} DataNeverEvicts(ops: seq<Op>)
    requires forall i :: 0 <= i < |SinceEmptied(ops)| ==> SinceEmptied(ops)[i].e.kind == Data
    ensures Exec(ops).evicted == [] && Exec(ops).pending == Exec(ops).accepted
  {
    RunKeeps(ops);
    if ops != [] && ops[|ops| - 1].Queue? {
      var front, op := ops[..|ops| - 1], ops[|ops| - 1];
      assert forall i :: 0 <= i < |SinceEmptied(front)| ==> SinceEmptied(front)[i] == SinceEmptied(ops)[i];
      assert SinceEmptied(ops)[|SinceEmptied(front)|] == op;
      DataNeverEvicts(front);
    }
  }

  // ---------------------------------------------------------------------------
  // The newest exit event
  // ---------------------------------------------------------------------------

  lemma ExecSnoc(ops: seq<Op>, op: Op)
    ensures Exec(ops + [op]) == Next(Exec(ops), op)
  {
    assert (ops + [op])[..|ops|] == ops;
  }

  /** Data events, accepted or not, leave what is queued where it is. */
  lemma {:induction false} DataOnlyAppends(ops: seq<Op>, more: seq<Op>)
    requires forall i :: 0 <= i < |more| ==> more[i].Queue? && more[i].e.kind == Data
    ensures Exec(ops).pending <= Exec(ops + more).pending
    ensures Exec(ops + more).delivered == Exec(ops).delivered
  {
    hide Exec, Next;
    if more == [] {
      assert ops + [] == ops;
    } else {
      var n := |more| - 1;
      DataOnlyAppends(ops, more[..n]);
      assert ops + more == (ops + more[..n]) + [more[n]];
      ExecSnoc(ops + more[..n], more[n]);
      DataAppends(Exec(ops + more[..n]), more[n]);
    }
  }

  lemma DataAppends(r: Run, op: Op)
    requires op.Queue? && op.e.kind == Data
    ensures r.pending <= Next(r, op).pending && Next(r, op).delivered == r.delivered
  {
  }

  /** Whatever happened before, an exit event that fits and is posted reaches the next drain: it is
      queued behind the longest suffix of the queue that leaves it room, no later data event can
      push it out, and the drain delivers it right behind that suffix. */
  lemma ExitIsObservable(ops: seq<Op>, e: Event, sink: bool, more: seq<Op>)
    requires e.kind == Exit && EventBytes(e) <= MAX_BYTES
    requires forall i :: 0 <= i < |more| ==> more[i].Queue? && more[i].e.kind == Data
    ensures exists gone: nat ::
      && ShortestEviction(Exec(ops).pending, e, gone)
      && Exec(ops).delivered + Exec(ops).pending[gone..] + [e]
         <= Exec(ops + [Queue(e, true, sink, true)] + more + [Drain(true)]).delivered
  {
    hide Exec, Next, Room, EventBytes;
    var r, op := Exec(ops), Queue(e, true, sink, true);
    var gone := Evictions(r.pending, e);
    var queued := ops + [op];
    ExecSnoc(ops, op);
    ExitQueued(r, e, sink, true, gone);
    DataOnlyAppends(queued, more);
    ExecSnoc(queued + more, Drain(true));
    DrainDelivers(Exec(queued + more));
    PrefixBehind(r.delivered, r.pending[gone..], e, Exec(queued + more).pending);
  }

  lemma PrefixBehind(a: seq<Event>, b: seq<Event>, e: Event, c: seq<Event>)
    requires b + [e] <= c
    ensures a + b + [e] <= a + c
  {
    assert a + b + [e] == a + (b + [e]);
  }

  lemma DrainDelivers(r: Run)
    ensures Next(r, Drain(true)).delivered == r.delivered + r.pending
  {
  }

  /** What an exit event that fits makes of the queue. */
  lemma ExitQueued(r: Run, e: Event, sink: bool, posts: bool, gone: nat)
    requires e.kind == Exit && EventBytes(e) <= MAX_BYTES && ShortestEviction(r.pending, e, gone)
    ensures var t := Next(r, Queue(e, true, sink, posts));
      && t.pending == r.pending[gone..] + (if posts then [e] else [])
      && t.dropped == r.dropped + r.pending[..gone] && t.delivered == r.delivered
  {
    OneShortest(r.pending, e, gone);
  }

  lemma OneShortest(q: seq<Event>, e: Event, k: nat)
    requires EventBytes(e) <= MAX_BYTES && ShortestEviction(q, e, k)
    ensures k == Evictions(q, e)
  {
  }

  // ---------------------------------------------------------------------------
  // The bounds, in bytes of text
  // ---------------------------------------------------------------------------

  /** The text that is queued, with the 5 bytes that travel with each event. */
  function TextBytes(q: seq<Event>): nat {
    if q == [] then 0
    else
      var last := q[|q| - 1];
      TextBytes(q[..|q| - 1]) + |last.sessionId| + |last.data| + 5
  }

  lemma {:induction false} BytesAreText(q: seq<Event>)
    ensures Bytes(q) == TextBytes(q)
  {
    if q != [] {
      var n := |q| - 1;
      BytesAreText(q[..n]);
      BytesAppend(q[..n], q[n]);
      assert q == q[..n] + [q[n]];
    }
  }

  /** Never more than 256 events and 2 MiB are queued. */
  lemma QueueIsBounded(ops: seq<Op>)
    ensures |Exec(ops).pending| <= 256 && TextBytes(Exec(ops).pending) <= 2_097_152
  {
    hide Exec, Bytes, TextBytes;
    RunKeeps(ops);
    BytesAreText(Exec(ops).pending);
  }

  lemma RoomIsText(q: seq<Event>, e: Event)
    ensures Room(q, e) <==> |q| < 256 && TextBytes(q + [e]) <= 2_097_152
  {
    hide Bytes, TextBytes;
    BytesAppend(q, e);
    BytesAreText(q + [e]);
  }

  /** In every run, a data event is queued if and only if there is a live window, the post succeeds,
      fewer than 256 events are queued, and at most 2 MiB with it; otherwise nothing changes. */
  lemma DataAcceptedExactly(ops: seq<Op>, e: Event, window: bool, sink: bool, posts: bool)
    requires e.kind == Data
    ensures var q, t := Exec(ops).pending, Exec(ops + [Queue(e, window, sink, posts)]).pending;
      t == if window && posts && |q| < 256 && TextBytes(q + [e]) <= 2_097_152 then q + [e] else q
  {
    hide Exec, Bytes, TextBytes;
    var r, op := Exec(ops), Queue(e, window, sink, posts);
    ExecSnoc(ops, op);
    RoomIsText(r.pending, e);
    RunKeeps(ops);
    RoomFits(r.pending, e);
    assert r.pending[0..] == r.pending;
  }

  lemma RoomFits(q: seq<Event>, e: Event)
    ensures Room(q, e) ==> EventBytes(e) <= MAX_BYTES
  {
  }

  /** Without a live window nothing is queued or evicted. */
  lemma NoWindowNoChange(ops: seq<Op>, e: Event, sink: bool, posts: bool)
    ensures Exec(ops + [Queue(e, false, sink, posts)]).pending == Exec(ops).pending
  {
    ExecSnoc(ops, Queue(e, false, sink, posts));
    assert Exec(ops).pending[0..] == Exec(ops).pending;
  }

  /** In every run, an exit event that is posted to a live window is queued if and only if it has at
      most 2 MiB itself, and it evicts the oldest events one by one only while there is no room. */
  lemma ExitAcceptedExactly(ops: seq<Op>, e: Event, sink: bool)
    requires e.kind == Exit
    ensures var q, t := Exec(ops).pending, Exec(ops + [Queue(e, true, sink, true)]).pending;
      if |e.sessionId| + |e.data| + 5 > 2_097_152 then t == q
      else exists gone: nat ::
        && gone <= |q| && t == q[gone..] + [e]
        && forall k :: 0 <= k < gone ==> |q| - k >= 256 || TextBytes(q[k..] + [e]) > 2_097_152
  {
    hide Exec, Bytes, TextBytes;
    var r, op := Exec(ops), Queue(e, true, sink, true);
    ExecSnoc(ops, op);
    if EventBytes(e) <= MAX_BYTES {
      var gone := Evictions(r.pending, e);
      ExitQueued(r, e, sink, true, gone);
      forall k | 0 <= k < gone ensures |r.pending| - k >= 256 || TextBytes(r.pending[k..] + [e]) > 2_097_152 {
        RoomIsText(r.pending[k..], e);
      }
    } else {
      assert Evicted(r.pending, op) == [];
    }
  }

  /** A post that fails takes back its own event only. The queue is as it was before, in every run,
      if and only if nothing had to be evicted; otherwise the evicted events are lost although
      nothing took their place. */
  lemma {:induction false} FailedPostIsUndone(ops: seq<Op>, e: Event, window: bool, sink: bool)
    ensures var r, t := Exec(ops), Exec(ops + [Queue(e, window, sink, false)]);
      && t.everAccepted == r.everAccepted && t.dropped + t.pending == r.dropped + r.pending
      && (t.pending == r.pending <==>
            !window || e.kind == Data || EventBytes(e) > MAX_BYTES || Room(r.pending, e))
  {
    hide Exec, Bytes;
    var r, op := Exec(ops), Queue(e, window, sink, false);
    ExecSnoc(ops, op);
    if window && e.kind == Exit && EventBytes(e) <= MAX_BYTES {
      var gone := Evictions(r.pending, e);
      ExitQueued(r, e, sink, false, gone);
      assert gone == 0 <==> Room(r.pending, e);
      assert r.pending[..gone] + r.pending[gone..] == r.pending;
    } else {
      assert Evicted(r.pending, op) == [];
    }
  }

  const LINE: Event := Event(Data, "s", "", 0)
  const END: Event := Event(Exit, "s", "", 1)

  function Flood(n: nat): seq<Op> {
    seq(n, _ => Queue(LINE, true, false, true))
  }

  lemma {:induction false} FloodFills(n: nat)
    requires n <= MAX_FRAMES
    ensures var r := Exec(Flood(n));
      && |r.pending| == n && Bytes(r.pending) == 6 * n && r.dropped == []
      && forall i :: 0 <= i < n ==> r.pending[i] == LINE
  {
    hide Next;
    if n > 0 {
      hide Exec, Bytes;
      FloodFills(n - 1);
      var op := Queue(LINE, true, false, true);
      assert Flood(n) == Flood(n - 1) + [op];
      ExecSnoc(Flood(n - 1), op);
      LineFits(Exec(Flood(n - 1)));
    }
  }

  lemma LineFits(r: Run)
    requires Room(r.pending, LINE)
    ensures var t := Next(r, Queue(LINE, true, false, true));
      && t.pending == r.pending + [LINE] && t.dropped == r.dropped
      && Bytes(t.pending) == Bytes(r.pending) + 6
  {
    BytesAppend(r.pending, LINE);
  }

  /** A terminal fills the queue, its exit cannot be posted: one event fewer is queued, no exit is. */
  lemma FailedPostLoses()
    ensures var full, t := Exec(Flood(MAX_FRAMES)), Exec(Flood(MAX_FRAMES) + [Queue(END, true, false, false)]);
      && |full.pending| == MAX_FRAMES && full.dropped == []
      && t.pending == full.pending[1..] && END !in t.pending && t.dropped == [LINE]
  {
    hide Exec, Next;
    var full, op := Exec(Flood(MAX_FRAMES)), Queue(END, true, false, false);
    FloodFills(MAX_FRAMES);
    ExecSnoc(Flood(MAX_FRAMES), op);
    BytesOfFront(full.pending);
    assert !Room(full.pending, END) && Room(full.pending[1..], END);
    ExitQueued(full, END, false, false, 1);
    assert full.pending[..1] == [LINE];
  }
}
