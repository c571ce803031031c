/** The supervisor reads the health block of the shell from shared memory while the shell may be
    updating it. The block carries a sequence number that the writer keeps odd during an update
    and even otherwise; the reader copies the block twice and accepts the second copy when both
    sequence numbers are the same even one.

    The writer is not part of the repository; the protocol it follows is an assumption and is
    given here as a step relation. Every interleaving of the two is covered: the memory is a
    history, and each field of a copy is read at some moment of it, fields in ascending order. */
module HealthSnapshot {

  const FIELDS: nat := 18
  const MAGIC_FIELD: nat := 0
  const SCHEMA_FIELD: nat := 1
  const SIZE_FIELD: nat := 2
  const SEQUENCE: nat := 8
  const ATTEMPTS: nat := 8

  const HEALTH_MAGIC: nat := 0x39484F43
  const HEALTH_SCHEMA: nat := 9
  const HEALTH_SIZE: nat := 96

  /** The fields of the block in the order of their addresses. */
  type Block = b: seq<nat> | |b| == FIELDS witness seq(FIELDS, _ => 0)

  // ---------------------------------------------------------------------------
  // The writer
  // ---------------------------------------------------------------------------

  /** `updates` are the completed updates, the initial contents first; `next` is the update in
      progress and `written` the fields of it that are already in memory. */
  datatype Writer = Writer(memory: Block, updates: seq<Block>, next: Block, written: set<nat>)

  predicate Busy(w: Writer) {
    w.memory[SEQUENCE] % 2 == 1
  }

  ghost predicate Start(w: Writer) {
    w.memory[SEQUENCE] == 0 && w.updates == [w.memory]
  }

  ghost predicate Begin(w: Writer, w': Writer) {
    && !Busy(w)
    && w'.memory == w.memory[SEQUENCE := w.memory[SEQUENCE] + 1]
    && w'.updates == w.updates && w'.written == {}
  }

  ghost predicate Write(w: Writer, w': Writer, i: nat) {
    && Busy(w) && i < FIELDS && i != SEQUENCE
    && w'.memory == w.memory[i := w.next[i]]
    && w'.updates == w.updates && w'.next == w.next && w'.written == w.written + {i}
  }

  ghost predicate Finish(w: Writer, w': Writer) {
    && Busy(w) && (forall i :: 0 <= i < FIELDS && i != SEQUENCE ==> i in w.written)
    && w'.memory == w.memory[SEQUENCE := w.memory[SEQUENCE] + 1]
    && w'.updates == w.updates + [w'.memory] && w'.next == w.next && w'.written == w.written
  }

  ghost predicate Step(w: Writer, w': Writer) {
    w == w' || Begin(w, w') || (exists i :: Write(w, w', i)) || Finish(w, w')
  }

  ghost predicate History(h: seq<Writer>) {
    && h != [] && Start(h[0])
    && forall t :: 0 <= t < |h| - 1 ==> Step(h[t], h[t + 1])
  }

  ghost predicate WriterInv(w: Writer) {
    && w.updates != []
    && (forall k :: 0 <= k < |w.updates| ==> w.updates[k][SEQUENCE] == 2 * k)
    && var done := |w.updates| - 1;
       if Busy(w) then
         && w.memory[SEQUENCE] == 2 * done + 1
         && forall i :: 0 <= i < FIELDS && i != SEQUENCE ==>
              w.memory[i] == if i in w.written then w.next[i] else w.updates[done][i]
       else w.memory == w.updates[done]
  }

  lemma StepKeepsInv(w: Writer, w': Writer)
    requires WriterInv(w) && Step(w, w')
    ensures WriterInv(w')
    ensures w.updates <= w'.updates && w.memory[SEQUENCE] <= w'.memory[SEQUENCE]
  {
  }

  /** At every moment the invariant holds, and what was published before is still published. */
  lemma {:induction false} HistoryInv(h: seq<Writer>, s: nat, t: nat)
    requires History(h) && s <= t < |h|
    ensures WriterInv(h[s]) && WriterInv(h[t])
    ensures h[s].updates <= h[t].updates
    ensures h[s].memory[SEQUENCE] <= h[t].memory[SEQUENCE]
    decreases t, t - s
  {
    hide WriterInv;
    if t == 0 {
      StartInv(h[0]);
    } else if s == t {
      HistoryInv(h, t - 1, t - 1);
      StepKeepsInv(h[t - 1], h[t]);
    } else {
      HistoryInv(h, s, t - 1);
      StepKeepsInv(h[t - 1], h[t]);
    }
  }

  lemma StartInv(w: Writer)
    requires Start(w)
    ensures WriterInv(w)
  {
  }

  // ---------------------------------------------------------------------------
  // The reader
  // ---------------------------------------------------------------------------

  /** The moments at which the fields of one copy are read. */
  predicate CopyTimes(h: seq<Writer>, times: seq<nat>) {
    && |times| == FIELDS
    && (forall i :: 0 <= i < FIELDS ==> times[i] < |h|)
    && (forall i, j :: 0 <= i <= j < FIELDS ==> times[i] <= times[j])
  }

  function Copy(h: seq<Writer>, times: seq<nat>): (b: Block)
    requires |times| == FIELDS && forall i :: 0 <= i < FIELDS ==> times[i] < |h|
    ensures forall i :: 0 <= i < FIELDS ==> b[i] == h[times[i]].memory[i]
  {
    seq(FIELDS, i requires 0 <= i < FIELDS => h[times[i]].memory[i])
  }

  datatype Attempt = Attempt(first: seq<nat>, second: seq<nat>)

  predicate AttemptTimes(h: seq<Writer>, a: Attempt) {
    && CopyTimes(h, a.first) && CopyTimes(h, a.second)
    && a.first[FIELDS - 1] <= a.second[0]
  }

  predicate Accepts(copies: (Block, Block)) {
    var second := copies.1;
    && Settled(copies)
    && second[MAGIC_FIELD] == HEALTH_MAGIC
    && second[SCHEMA_FIELD] == HEALTH_SCHEMA
    && second[SIZE_FIELD] == HEALTH_SIZE
  }

  /** What an accepted copy is worth: the fields up to the sequence number are those of one
      completed update `u`, and each later field comes from the newest update that was complete
      when it was read, or from the one in progress then - never from one older than `u`. */
  ghost predicate Consistent(h: seq<Writer>, times: seq<nat>, b: Block, u: nat)
    requires CopyTimes(h, times) && h != []
  {
    && u < |h[|h| - 1].updates|
    && (forall i :: 0 <= i <= SEQUENCE ==> b[i] == h[|h| - 1].updates[u][i])
    && (forall i :: SEQUENCE < i < FIELDS ==>
          var w := h[times[i]];
          && u < |w.updates|
          && (b[i] == w.updates[|w.updates| - 1][i] || (Busy(w) && b[i] == w.next[i])))
  }

  /** The reader's loop over the moments at which the fields of its copies are read. */
  method ReadHealthSnapshot(h: seq<Writer>, times: seq<Attempt>) returns (valid: bool, snapshot: Block)
    requires History(h) && |times| == 8
    requires forall k :: 0 <= k < ATTEMPTS ==> AttemptTimes(h, times[k])
    ensures valid ==>
      exists k :: 0 <= k < ATTEMPTS && FirstSettled(h, times, k) && Accepted(h, times[k], snapshot)
    ensures !valid ==>
      forall k :: 0 <= k < ATTEMPTS && FirstSettled(h, times, k) ==> !Accepts(Copies(h, times[k]))
  {
    snapshot := seq(FIELDS, _ => 0);
    valid := false;
    for attempt := 0 to ATTEMPTS
      invariant !valid
      invariant forall j :: 0 <= j < attempt ==> !Settled(Copies(h, times[j]))
    {
      var (first, second) := Copies(h, times[attempt]);
      if first[SEQUENCE] % 2 != 0 { continue; }
      if first[SEQUENCE] != second[SEQUENCE] || second[SEQUENCE] % 2 != 0 { continue; }
      assert FirstSettled(h, times, attempt);
      if second[MAGIC_FIELD] != HEALTH_MAGIC
        || second[SCHEMA_FIELD] != HEALTH_SCHEMA
        || second[SIZE_FIELD] != HEALTH_SIZE
      {
        break;
      }
      AcceptedIsConsistent(h, times[attempt]);
      return true, second;
    }
  }

  function Copies(h: seq<Writer>, a: Attempt): (Block, Block)
    requires AttemptTimes(h, a)
  {
    (Copy(h, a.first), Copy(h, a.second))
  }

  ghost predicate FirstSettled(h: seq<Writer>, times: seq<Attempt>, k: nat)
    requires k < |times| && forall j :: 0 <= j < |times| ==> AttemptTimes(h, times[j])
  {
    && Settled(Copies(h, times[k]))
    && forall j :: 0 <= j < k ==> !Settled(Copies(h, times[j]))
  }

  ghost predicate Accepted(h: seq<Writer>, a: Attempt, snapshot: Block)
    requires h != [] && AttemptTimes(h, a)
  {
    && Accepts(Copies(h, a)) && snapshot == Copies(h, a).1
    && Consistent(h, a.second, snapshot, snapshot[SEQUENCE] / 2)
  }

  /** An attempt that is not repeated: both copies carry the same even sequence number. */
  predicate Settled(attempt: (Block, Block)) {
    attempt.0[SEQUENCE] % 2 == 0 && attempt.0[SEQUENCE] == attempt.1[SEQUENCE]
  }

  /** What the reader compares: the ninth fields of both copies, and the first three of the second. */
  lemma AcceptsExactly(copies: (Block, Block))
    ensures Settled(copies) <==> copies.0[8] % 2 == 0 && copies.1[8] == copies.0[8]
    ensures Accepts(copies) <==>
      && copies.0[8] % 2 == 0 && copies.1[8] == copies.0[8]
      && copies.1[0] == 0x3948_4F43 && copies.1[1] == 9 && copies.1[2] == 96
  {
  }

  /** Between two moments with the same even sequence number nothing was written. */
  lemma QuietBetween(h: seq<Writer>, r: nat, s: nat, t: nat)
    requires History(h) && r <= s <= t < |h|
    requires h[r].memory[SEQUENCE] == h[t].memory[SEQUENCE] && !Busy(h[r])
    ensures h[s].memory == h[t].memory
    ensures h[s].memory[SEQUENCE] / 2 < |h[|h| - 1].updates|
    ensures h[s].memory == h[|h| - 1].updates[h[s].memory[SEQUENCE] / 2]
  {
    HistoryInv(h, r, s);
    HistoryInv(h, s, t);
    HistoryInv(h, s, |h| - 1);
    HistoryInv(h, t, |h| - 1);
  }

  lemma AcceptedIsConsistent(h: seq<Writer>, a: Attempt)
    requires History(h) && AttemptTimes(h, a)
    requires Settled(Copies(h, a))
    ensures Consistent(h, a.second, Copy(h, a.second), Copy(h, a.second)[SEQUENCE] / 2)
  {
    var b := Copy(h, a.second);
    var u := b[SEQUENCE] / 2;
    var r, t := a.first[SEQUENCE], a.second[SEQUENCE];
    forall i | 0 <= i <= SEQUENCE
      ensures u < |h[|h| - 1].updates| && b[i] == h[|h| - 1].updates[u][i]
    {
      assert r <= a.first[FIELDS - 1] <= a.second[0] <= a.second[i] <= t;
      QuietBetween(h, r, a.second[i], t);
    }
    forall i | SEQUENCE < i < FIELDS
      ensures var w := h[a.second[i]];
        && w.updates != [] && u < |w.updates|
        && (b[i] == w.updates[|w.updates| - 1][i] || (Busy(w) && b[i] == w.next[i]))
    {
      assert t <= a.second[i];
      HistoryInv(h, t, a.second[i]);
    }
  }

  /** The fields behind the sequence number still hold, when each is copied, what they held when
      the sequence number was. */
  ghost predicate TailUnchanged(h: seq<Writer>, times: seq<nat>)
    requires CopyTimes(h, times)
  {
    forall i :: SEQUENCE < i < FIELDS ==> h[times[i]].memory[i] == h[times[SEQUENCE]].memory[i]
  }

  /** Exactly when an accepted copy is one published update: when no field behind the sequence
      number has changed since that was read. */
  lemma AtomicIffUnchanged(h: seq<Writer>, a: Attempt)
    requires History(h) && AttemptTimes(h, a)
    requires Settled(Copies(h, a))
    ensures Copy(h, a.second) in h[|h| - 1].updates <==> TailUnchanged(h, a.second)
  {
    hide History;
    var b, updates := Copy(h, a.second), h[|h| - 1].updates;
    var r, t := a.first[SEQUENCE], a.second[SEQUENCE];
    assert r <= a.first[FIELDS - 1] <= a.second[0] <= t;
    QuietBetween(h, r, t, t);
    var u := b[SEQUENCE] / 2;
    assert h[t].memory == updates[u];
    AcceptedIsConsistent(h, a);
    if TailUnchanged(h, a.second) {
      assert b == updates[u];
    }
    if b in updates {
      var k :| 0 <= k < |updates| && updates[k] == b;
      NumberedByTwos(h, k);
      assert k == u;
    }
  }

  lemma NumberedByTwos(h: seq<Writer>, k: nat)
    requires History(h) && k < |h[|h| - 1].updates|
    ensures h[|h| - 1].updates[k][SEQUENCE] == 2 * k
  {
    HistoryInv(h, |h| - 1, |h| - 1);
  }

  /** In particular it is one if the writer is still quiet when the last field is copied. */
  lemma AtomicIfQuiet(h: seq<Writer>, a: Attempt)
    requires History(h) && AttemptTimes(h, a)
    requires Settled(Copies(h, a))
    requires h[a.second[FIELDS - 1]].memory[SEQUENCE] == Copy(h, a.second)[SEQUENCE]
    ensures Copy(h, a.second) in h[|h| - 1].updates
  {
    hide History;
    var t, last := a.second[SEQUENCE], a.second[FIELDS - 1];
    forall i | SEQUENCE < i < FIELDS ensures h[a.second[i]].memory[i] == h[t].memory[i] {
      QuietBetween(h, t, a.second[i], last);
      QuietBetween(h, t, t, last);
    }
    AtomicIffUnchanged(h, a);
  }

  /** A copy may be accepted that no update ever published: here the field
      after the sequence number is already of the next update, which is never finished. */
  lemma AcceptedMayBeTorn() returns (h: seq<Writer>, a: Attempt)
    ensures History(h) && AttemptTimes(h, a)
    ensures Accepts(Copies(h, a))
    ensures Copy(h, a.second) !in h[|h| - 1].updates
  {
    var m0: Block := seq(FIELDS, i requires 0 <= i => if i == 0 then HEALTH_MAGIC else if i == 1 then HEALTH_SCHEMA
                                         else if i == 2 then HEALTH_SIZE else 0);
    var next: Block := m0[SEQUENCE + 1 := 7];
    var m1: Block := m0[SEQUENCE := 1];
    var m2: Block := m1[SEQUENCE + 1 := 7];
    var w0 := Writer(m0, [m0], next, {});
    var w1 := Writer(m1, [m0], next, {});
    var w2 := Writer(m2, [m0], next, {SEQUENCE + 1});
    assert Begin(w0, w1);
    assert Write(w1, w2, SEQUENCE + 1);
    h := [w0, w1, w2];
    var early := seq(FIELDS, _ => 0);
    var late := seq(FIELDS, i => if i <= SEQUENCE then 0 else 2);
    a := Attempt(early, late);
    assert Copy(h, late)[SEQUENCE + 1] == 7 && m0[SEQUENCE + 1] == 0;
    assert Copy(h, early)[SEQUENCE] == 0 && Copy(h, late)[SEQUENCE] == 0;
  }
}
