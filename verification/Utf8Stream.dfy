/** The ConPTY reader cuts the byte stream of a terminal at UTF-8 boundaries: a read may end
    in the middle of a character, and the incomplete tail is kept for the next read. */
module Utf8Stream {
  import opened Common

  // ---------------------------------------------------------------------------
  // Valid UTF-8: the syntax of section 4 of RFC 3629
  // ---------------------------------------------------------------------------

  predicate Tail(b: Byte) {
    0x80 <= b <= 0xBF
  }

  /** The length of the UTF8-char that `s` starts with, 0 if it starts with none. */
  function CharLength(s: Bytes): (n: nat)
    ensures n <= 4 && n <= |s|
  {
    if |s| >= 1 && s[0] <= 0x7F then 1
    else if |s| >= 2 && 0xC2 <= s[0] <= 0xDF && Tail(s[1]) then 2
    else if |s| >= 3 && Tail(s[2])
         && ((s[0] == 0xE0 && 0xA0 <= s[1] <= 0xBF)
          || (0xE1 <= s[0] <= 0xEC && Tail(s[1]))
          || (s[0] == 0xED && 0x80 <= s[1] <= 0x9F)
          || (0xEE <= s[0] <= 0xEF && Tail(s[1]))) then 3
    else if |s| >= 4 && Tail(s[2]) && Tail(s[3])
         && ((s[0] == 0xF0 && 0x90 <= s[1] <= 0xBF)
          || (0xF1 <= s[0] <= 0xF3 && Tail(s[1]))
          || (s[0] == 0xF4 && 0x80 <= s[1] <= 0x8F)) then 4
    else 0
  }

  predicate Valid(s: Bytes) {
    s == [] || (CharLength(s) > 0 && Valid(s[CharLength(s)..]))
  }

  /** `s` is what has arrived so far of some valid stream. */
  ghost predicate Extendable(s: Bytes) {
    exists more :: Valid(s + more)
  }

  /** `n` is the length of the longest valid prefix of `s`. */
  ghost predicate LongestValid(s: Bytes, n: nat) {
    && n <= |s|
    && Valid(s[..n])
    && forall k :: n < k <= |s| ==> !Valid(s[..k])
  }

  // ---------------------------------------------------------------------------
  // The cut
  // ---------------------------------------------------------------------------

  // The masks of the source select the leading bits of a byte; on numbers that is a division
  // by the weight of the lowest selected bit.

  predicate Bits0(b: Byte) { b / 0x80 == 0x0 }         // 0xxxxxxx:  b & 0x80 == 0x00
  predicate Bits10(b: Byte) { b / 0x40 == 0x2 }        // 10xxxxxx:  b & 0xC0 == 0x80
  predicate Bits110(b: Byte) { b / 0x20 == 0x6 }       // 110xxxxx:  b & 0xE0 == 0xC0
  predicate Bits1110(b: Byte) { b / 0x10 == 0xE }      // 1110xxxx:  b & 0xF0 == 0xE0
  predicate Bits11110(b: Byte) { b / 0x08 == 0x1E }    // 11110xxx:  b & 0xF8 == 0xF0

  predicate Continuation(b: Byte) {
    Bits10(b)
  }

  /** The number of bytes that the bit pattern of a first byte announces, 0 for none. */
  function Announced(b: Byte): nat {
    if Bits0(b) then 1
    else if Bits110(b) then 2
    else if Bits1110(b) then 3
    else if Bits11110(b) then 4
    else 0
  }

  /** The last `k` bytes are a character that has not arrived completely: a first byte that
      announces more, or nothing but at most three continuation bytes. */
  predicate Incomplete(data: Bytes, k: nat) {
    && 0 < k <= |data| && k <= 3
    && (forall i :: |data| - k < i < |data| ==> Continuation(data[i]))
    && (Announced(data[|data| - k]) > k || (k == |data| && Continuation(data[0])))
  }

  /** What is held back of any bytes, in numbers: after a first byte C0..DF nothing, after E0..EF at most
      one and after F0..F7 at most two of the bytes 80..BF; or one to three of these and nothing else. */
  lemma IncompleteExactly(data: Bytes, k: nat)
    ensures Incomplete(data, k) <==>
      && 1 <= k <= 3 && k <= |data|
      && (forall i :: |data| - k < i < |data| ==> 0x80 <= data[i] <= 0xBF)
      && var lead := data[|data| - k];
         || (0xC0 <= lead <= 0xDF && k < 2) || (0xE0 <= lead <= 0xEF && k < 3) || 0xF0 <= lead <= 0xF7
         || (k == |data| && 0x80 <= lead <= 0xBF)
  {
  }

  method CompleteUtf8PrefixLength(data: Bytes) returns (n: nat)
    ensures n <= |data| <= n + 3
    ensures n < |data| ==> Incomplete(data, |data| - n)
    ensures n == |data| ==> forall k :: !Incomplete(data, k)
    ensures Extendable(data) ==> LongestValid(data, n)
  {
    n := Cut(data);
    if Extendable(data) {
      CutIsLongest(data, n);
    }
  }

  /** The scan from the end of the buffer. */
  method Cut(data: Bytes) returns (n: nat)
    ensures n <= |data| <= n + 3
    ensures n < |data| ==> Incomplete(data, |data| - n)
    ensures n == |data| ==> forall k :: !Incomplete(data, k)
  {
    if data == [] { return 0; }
    var index := |data|;
    var continuationCount := 0;
    while index > 0 && Continuation(data[index - 1]) && continuationCount < 3
      invariant 0 <= index <= |data|
      invariant continuationCount == |data| - index <= 3
      invariant forall i :: index <= i < |data| ==> Continuation(data[i])
    {
      index := index - 1;
      continuationCount := continuationCount + 1;
    }
    if index == |data| {
      var last := data[|data| - 1];
      assert forall k :: 1 < k && Incomplete(data, k) ==> Continuation(last);
      if Bits0(last) { return |data|; }
      if Bits110(last) || Bits1110(last) || Bits11110(last) {
        return |data| - 1;
      }
      return |data|;
    }
    if index == 0 {
      return 0;
    }

    var leadIndex := index - 1;
    var lead := data[leadIndex];
    assert forall k :: continuationCount + 1 < k && Incomplete(data, k) ==> Continuation(lead);
    ContinuationAnnouncesNothing(data, continuationCount);
    var expected := 1;
    if Bits110(lead) { expected := 2; }
    else if Bits1110(lead) { expected := 3; }
    else if Bits11110(lead) { expected := 4; }
    else { return |data|; }

    n := if continuationCount + 1 < expected then leadIndex else |data|;
  }

  lemma ContinuationAnnouncesNothing(data: Bytes, count: nat)
    requires count < |data|
    requires forall i :: |data| - count <= i < |data| ==> Continuation(data[i])
    ensures forall k :: 0 <= k <= count ==> !Incomplete(data, k)
  {
  }

  // ---------------------------------------------------------------------------
  // Properties of valid UTF-8
  // ---------------------------------------------------------------------------

  lemma {:induction false} CharLengthIsAnnounced(s: Bytes)
    requires CharLength(s) > 0
    ensures Announced(s[0]) == CharLength(s)
    ensures !Continuation(s[0])
    ensures forall i :: 0 < i < CharLength(s) ==> Continuation(s[i])
  {
    var n := CharLength(s);
    forall i | 0 < i < n ensures Continuation(s[i]) {
      assert Tail(s[i]);
      TailIsContinuation(s[i]);
    }
  }

  lemma TailIsContinuation(b: Byte)
    ensures Tail(b) <==> Continuation(b)
  {
  }

  /** Whether a character is complete does not depend on what follows it. */
  lemma CharLengthOfPrefix(s: Bytes, more: Bytes)
    ensures CharLength(s) > 0 ==> CharLength(s + more) == CharLength(s)
    ensures 0 < CharLength(s + more) <= |s| ==> CharLength(s) == CharLength(s + more)
  {
    var t := s + more;
    assert forall i :: 0 <= i < |s| ==> t[i] == s[i];
  }

  lemma {:induction false} ValidAppend(a: Bytes, b: Bytes)
    requires Valid(a)
    ensures Valid(a + b) <==> Valid(b)
    decreases |a|
  {
    if a == [] {
      assert a + b == b;
    } else {
      var n := CharLength(a);
      CharLengthOfPrefix(a, b);
      assert (a + b)[n..] == a[n..] + b;
      ValidAppend(a[n..], b);
    }
  }

  /** A valid string ends with a complete character. */
  lemma {:induction false} LastCharacter(s: Bytes) returns (p: nat)
    requires Valid(s) && s != []
    ensures p < |s| && CharLength(s[p..]) == |s| - p
    decreases |s|
  {
    var n := CharLength(s);
    if n == |s| {
      assert s[0..] == s;
      return 0;
    }
    var q := LastCharacter(s[n..]);
    p := n + q;
    assert s[n..][q..] == s[p..];
  }

  /** What has arrived of a valid stream is complete characters, then at most one incomplete. */
  lemma {:induction false} SplitExtendable(s: Bytes, more: Bytes) returns (n: nat)
    requires Valid(s + more)
    ensures n <= |s| && Valid(s[..n])
    ensures n == |s| || Incomplete(s, |s| - n)
    ensures n < |s| ==> !Continuation(s[n]) && Announced(s[n]) > |s| - n
    decreases |s|
  {
    hide CharLength, Announced, Bits10;
    if s == [] { return 0; }
    var t := s + more;
    var c := CharLength(t);
    CharLengthIsAnnounced(t);
    if c > |s| {
      n := 0;
      forall i | 0 < i < |s| ensures Continuation(s[i]) { assert t[i] == s[i]; }
      assert t[0] == s[0];
    } else {
      CharLengthOfPrefix(s, more);
      assert t[c..] == s[c..] + more;
      var m := SplitExtendable(s[c..], more);
      n := c + m;
      CharLengthOfPrefix(s[..n], s[n..]);
      assert s[..n] + s[n..] == s;
      assert s[..n][c..] == s[c..][..m];
      if m < |s[c..]| {
        assert s[c..][m] == s[n];
        forall i | n < i < |s| ensures Continuation(s[i]) { assert s[i] == s[c..][i - c]; }
      }
    }
  }

  lemma IncompleteUnique(s: Bytes, j: nat, k: nat)
    requires Incomplete(s, j) && Incomplete(s, k)
    ensures j == k
  {
  }

  /** A valid string has no incomplete tail. */
  lemma ValidNotIncomplete(s: Bytes, k: nat)
    requires Valid(s)
    ensures !Incomplete(s, k)
  {
    if Incomplete(s, k) {
      var p := LastCharacter(s);
      var t := s[p..];
      assert t[0] == s[p];
      assert |s| - p > k ==> t[|s| - k - p] == s[|s| - k];
      CharLengthIsAnnounced(t);
      assert false;
    }
  }

  /** A valid prefix that leaves an incomplete character is the longest one. */
  lemma LongestBeforeIncomplete(s: Bytes, n: nat)
    requires n <= |s| && Valid(s[..n])
    requires n < |s| ==> Incomplete(s, |s| - n) && Announced(s[n]) > |s| - n
    ensures LongestValid(s, n)
  {
    forall k | n < k <= |s| ensures !Valid(s[..k]) {
      if Valid(s[..k]) {
        var tail := s[n..k];
        assert s[..k] == s[..n] + tail;
        ValidAppend(s[..n], tail);
        assert tail[0] == s[n];
        CharLengthIsAnnounced(tail);
        assert false;
      }
    }
  }

  lemma CutIsLongest(data: Bytes, n: nat)
    requires Extendable(data)
    requires n <= |data|
    requires n < |data| ==> Incomplete(data, |data| - n)
    requires n == |data| ==> forall k :: !Incomplete(data, k)
    ensures LongestValid(data, n)
  {
    var more :| Valid(data + more);
    var m := SplitExtendable(data, more);
    if m == |data| {
      assert data[..m] == data;
      if n < |data| {
        ValidNotIncomplete(data, |data| - n);
      }
    } else if n < |data| {
      IncompleteUnique(data, |data| - n, |data| - m);
    }
    LongestBeforeIncomplete(data, m);
  }

  // ---------------------------------------------------------------------------
  // The reader loop
  // ---------------------------------------------------------------------------

  function Flatten(chunks: seq<Bytes>): Bytes {
    if chunks == [] then [] else Flatten(chunks[..|chunks| - 1]) + chunks[|chunks| - 1]
  }

  lemma FlattenSnoc(chunks: seq<Bytes>, last: Bytes)
    ensures Flatten(chunks + [last]) == Flatten(chunks) + last
  {
    assert (chunks + [last])[..|chunks|] == chunks;
  }

  lemma FlattenNext(chunks: seq<Bytes>, i: nat)
    requires i < |chunks|
    ensures Flatten(chunks[..i + 1]) == Flatten(chunks[..i]) + chunks[i]
  {
    hide Flatten;
    assert chunks[..i + 1] == chunks[..i] + [chunks[i]];
    FlattenSnoc(chunks[..i], chunks[i]);
  }

  /** What arrived before a point of a valid stream is extendable. */
  lemma ExtendablePrefix(s: Bytes, more: Bytes)
    requires Extendable(s + more)
    ensures Extendable(s)
  {
    var rest :| Valid(s + more + rest);
    assert s + more + rest == s + (more + rest);
  }

  lemma ExtendableSuffix(s: Bytes, t: Bytes)
    requires Valid(s) && Extendable(s + t)
    ensures Extendable(t)
  {
    var more :| Valid(s + t + more);
    assert s + t + more == s + (t + more);
    ValidAppend(s, t + more);
  }

  lemma LongestAfterValid(s: Bytes, t: Bytes, n: nat)
    requires Valid(s) && LongestValid(t, n)
    ensures LongestValid(s + t, |s| + n)
  {
    assert (s + t)[..|s| + n] == s + t[..n];
    ValidAppend(s, t[..n]);
    forall k | |s| + n < k <= |s + t| ensures !Valid((s + t)[..k]) {
      assert (s + t)[..k] == s + t[..k - |s|];
      ValidAppend(s, t[..k - |s|]);
    }
  }

  /** The boundary of a valid stream after `received` bytes is the last one validity allows. */
  ghost predicate AtBoundary(received: Bytes, emitted: seq<Bytes>) {
    && |Flatten(emitted)| <= |received|
    && Valid(Flatten(emitted))
    && LongestValid(received, |Flatten(emitted)|)
    && forall i :: 0 <= i < |emitted| ==> Valid(emitted[i])
  }

  function Emit(emitted: seq<Bytes>, chunk: Bytes): seq<Bytes> {
    if chunk == [] then emitted else emitted + [chunk]
  }

  lemma FlattenEmit(emitted: seq<Bytes>, data: Bytes, n: nat)
    requires n <= |data|
    ensures Flatten(Emit(emitted, data[..n])) == Flatten(emitted) + data[..n]
    ensures Flatten(Emit(emitted, data[..n])) + data[n..] == Flatten(emitted) + data
  {
    hide Flatten;
    FlattenSnoc(emitted, data[..n]);
    assert data[..n] + data[n..] == data;
    assert Flatten(emitted) + data[..n] + data[n..] == Flatten(emitted) + (data[..n] + data[n..]);
    if n == 0 { assert Flatten(emitted) + data[..n] == Flatten(emitted); }
  }

  /** One read keeps the boundary where validity puts it. */
  lemma ReadStep(received: Bytes, emitted: seq<Bytes>, pending: Bytes, read: Bytes, n: nat)
    requires Flatten(emitted) + pending == received
    requires Extendable(received + read)
    requires Extendable(received) ==> AtBoundary(received, emitted)
    requires var data := pending + read;
      n <= |data| && (Extendable(data) ==> LongestValid(data, n))
    ensures AtBoundary(received + read, Emit(emitted, (pending + read)[..n]))
  {
    hide Valid;
    var data := pending + read;
    var e := Flatten(emitted);
    assert received + read == e + data;
    FlattenEmit(emitted, data, n);
    ExtendablePrefix(received, read);
    ExtendableSuffix(e, data);
    LongestAfterValid(e, data, n);
    ValidAppend(e, data[..n]);
  }

  /** Once `i + 1` reads are processed, `cut` bytes have been handed over: all but at most three,
      whatever the bytes are, and as many as validity allows when the stream is valid. */
  ghost predicate GoodCut(chunks: seq<Bytes>, i: nat, cut: nat)
    requires i < |chunks|
  {
    var received := Flatten(chunks[..i + 1]);
    && cut <= |received| <= cut + 3
    && (Extendable(received) ==> LongestValid(received, cut))
  }

  ghost predicate LoopState(received: Bytes, emitted: seq<Bytes>, pending: Bytes) {
    && Flatten(emitted) + pending == received
    && |pending| <= 3
    && (Extendable(received) ==> AtBoundary(received, emitted))
  }

  lemma NothingReceived(chunks: seq<Bytes>)
    ensures LoopState(Flatten(chunks[..0]), [], [])
  {
  }

  lemma IterationKeepsState(received: Bytes, emitted: seq<Bytes>, pending: Bytes, read: Bytes, n: nat)
    requires LoopState(received, emitted, pending)
    requires var data := pending + read;
      n <= |data| <= n + 3 && (Extendable(data) ==> LongestValid(data, n))
    ensures LoopState(received + read, Emit(emitted, (pending + read)[..n]), (pending + read)[n..])
  {
    hide Valid, LongestValid, Flatten, Extendable, AtBoundary;
    FlattenEmit(emitted, pending + read, n);
    Associative(Flatten(emitted), pending, read);
    if Extendable(received + read) {
      ReadStep(received, emitted, pending, read, n);
    }
  }

  lemma RefusedKeepsBytes(received: Bytes, emitted: seq<Bytes>, pending: Bytes, read: Bytes)
    requires LoopState(received, emitted, pending)
    ensures Flatten(emitted) + (pending + read) == received + read
    ensures Extendable(received + read) ==> forall j :: 0 <= j < |emitted| ==> Valid(emitted[j])
  {
    hide Valid, LongestValid, Flatten, Extendable;
    Associative(Flatten(emitted), pending, read);
    if Extendable(received + read) {
      ExtendablePrefix(received, read);
    }
  }

  lemma Associative(a: Bytes, b: Bytes, c: Bytes)
    ensures a + b + c == a + (b + c)
  {
  }

  lemma StateGivesCut(chunks: seq<Bytes>, i: nat, emitted: seq<Bytes>, pending: Bytes)
    requires i < |chunks| && LoopState(Flatten(chunks[..i + 1]), emitted, pending)
    ensures |pending| <= |Flatten(chunks[..i + 1])|
    ensures GoodCut(chunks, i, |Flatten(chunks[..i + 1])| - |pending|)
  {
    hide LongestValid, Extendable, Flatten, Valid;
    var received := Flatten(chunks[..i + 1]);
    assert |received| == |Flatten(emitted)| + |pending|;
  }

  /** The first `n` notifications were accepted. */
  ghost predicate AllAccepted(delivers: nat -> bool, n: nat) {
    forall k :: 0 <= k < n ==> delivers(k)
  }

  lemma OneMoreAccepted(delivers: nat -> bool, n: nat)
    requires AllAccepted(delivers, n) && delivers(n)
    ensures AllAccepted(delivers, n + 1)
  {
  }

  /** The reading phase. `chunks` are the results of ReadFile up to the end of the pipe,
      `closing(k)` is the closing flag at its k-th test and `delivers(k)` whether the k-th
      notification is accepted. `cuts[i]` is how many bytes had been handed over once the i-th
      read was processed. */
  method ReadToEnd(chunks: seq<Bytes>, closing: nat -> bool, delivers: nat -> bool)
    returns (emitted: seq<Bytes>, pending: Bytes, cuts: seq<nat>, consumed: nat, failed: bool)
    ensures consumed <= |chunks|
    ensures Flatten(emitted) + pending == Flatten(chunks[..consumed])
    ensures AllAccepted(delivers, |emitted|)
    ensures failed ==> pending != [] && !delivers(|emitted|) && consumed == |cuts| + 1
    ensures failed && Extendable(Flatten(chunks[..consumed])) ==>
      forall i :: 0 <= i < |emitted| ==> Valid(emitted[i])
    ensures !failed ==> LoopState(Flatten(chunks[..consumed]), emitted, pending) && consumed == |cuts|
    ensures !failed ==> consumed == |chunks| || closing(consumed)
    ensures |cuts| <= |chunks| && forall i :: 0 <= i < |cuts| ==> GoodCut(chunks, i, cuts[i])
  {
    hide Valid, LongestValid, CharLength, Flatten, Extendable, Incomplete;
    emitted, pending, cuts, consumed, failed := [], [], [], 0, false;
    NothingReceived(chunks);
    while consumed < |chunks| && !closing(consumed)
      invariant consumed <= |chunks| && |cuts| == consumed
      invariant LoopState(Flatten(chunks[..consumed]), emitted, pending)
      invariant AllAccepted(delivers, |emitted|)
      invariant forall i :: 0 <= i < |cuts| ==> GoodCut(chunks, i, cuts[i])
    {
      var data := pending + chunks[consumed];
      var n := CompleteUtf8PrefixLength(data);
      FlattenNext(chunks, consumed);
      IterationKeepsState(Flatten(chunks[..consumed]), emitted, pending, chunks[consumed], n);
      RefusedKeepsBytes(Flatten(chunks[..consumed]), emitted, pending, chunks[consumed]);
      consumed := consumed + 1;
      pending := data;
      if n > 0 {
        if !delivers(|emitted|) {
          failed := true;
          return;
        }
        OneMoreAccepted(delivers, |emitted|);
        emitted := emitted + [data[..n]];
        pending := data[n..];
      }
      StateGivesCut(chunks, consumed - 1, emitted, pending);
      cuts := cuts + [|Flatten(chunks[..consumed])| - |pending|];
    }
  }

  /** The reading phase, then the flush of what is still pending. */
  method ReaderLoop(chunks: seq<Bytes>, closing: nat -> bool, delivers: nat -> bool)
    returns (emitted: seq<Bytes>, pending: Bytes, cuts: seq<nat>, consumed: nat, failed: bool)
    ensures consumed <= |chunks|
    // nothing is lost, repeated or reordered, and nothing is held back at the end of the pipe
    ensures Flatten(emitted) + pending == Flatten(chunks[..consumed])
    ensures !failed && !closing(consumed + 1) ==> pending == []
    ensures !failed ==> consumed == |chunks| || closing(consumed)
    // a refused notification is the only failure, and the last thing that happens
    ensures AllAccepted(delivers, |emitted|)
    ensures failed ==> pending != [] && !delivers(|emitted|)
    // every processed read hands over as much as it can
    ensures |cuts| <= |chunks| && (|cuts| == consumed || (failed && |cuts| == consumed - 1))
    ensures forall i :: 0 <= i < |cuts| ==> GoodCut(chunks, i, cuts[i])
    // and on a valid stream every chunk is valid on its own, wherever the reader stops, but for
    // the rest of an unfinished character that is flushed last
    ensures Extendable(Flatten(chunks[..consumed])) ==>
      forall i :: 0 <= i < |emitted| - 1 ==> Valid(emitted[i])
    ensures Extendable(Flatten(chunks[..consumed])) && (failed || closing(consumed + 1)) ==>
      forall i :: 0 <= i < |emitted| ==> Valid(emitted[i])
    ensures Valid(Flatten(chunks[..consumed])) ==> forall i :: 0 <= i < |emitted| ==> Valid(emitted[i])
  {
    hide Valid, LongestValid, CharLength, GoodCut;
    emitted, pending, cuts, consumed, failed := ReadToEnd(chunks, closing, delivers);
    ExtendableWhenValid(Flatten(chunks[..consumed]));
    if failed { return; }
    ValidLeavesNothing(Flatten(chunks[..consumed]), emitted, pending);
    if pending != [] && !closing(consumed + 1) {
      if delivers(|emitted|) {
        FlattenSnoc(emitted, pending);
        OneMoreAccepted(delivers, |emitted|);
        emitted := emitted + [pending];
        pending := [];
      } else {
        failed := true;
      }
    }
  }

  lemma ExtendableWhenValid(s: Bytes)
    ensures Valid(s) ==> Extendable(s)
  {
    assert s + [] == s;
  }

  /** A valid stream that has ended leaves nothing to flush. */
  lemma ValidLeavesNothing(received: Bytes, emitted: seq<Bytes>, pending: Bytes)
    requires LoopState(received, emitted, pending)
    ensures Valid(received) ==> pending == []
  {
    ExtendableWhenValid(received);
    assert received[..|received|] == received;
  }
}
