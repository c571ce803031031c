/** The protected channel between the desktop and the WSL core: length-prefixed frames that carry a
    sequence number and an AEAD-protected envelope.

    AES-GCM and the JSON serializer are parameters. The theorems assume of them only the laws that
    are written out below; the sequencing, the nonces, the associated data and the framing are the
    repository's own. */
module SecureChannel {
  import opened Common
  import opened ByteOrder
  import opened Framing

  const TAG: nat := 16
  const SEQUENCE_BYTES: nat := 8
  const MAX_FRAME: nat := 0x10_0000
  const MAX_SEQUENCE: nat := 0xFFFF_FFFF_FFFF_FFFF
  const VERSION: int := 2

  datatype Envelope = Envelope(version: int, kind: Option<string>, id: Option<string>, ok: Option<bool>,
                               payload: Option<string>, error: Option<(string, string)>)

  // ---------------------------------------------------------------------------
  // The parameters and their laws
  // ---------------------------------------------------------------------------

  /** AES-GCM under one key: nonce, associated data and plaintext give the ciphertext followed by
      the tag; nonce, associated data and that give the plaintext, or fail. */
  datatype Aead = Aead(seal: (Bytes, Bytes, Bytes) -> Bytes, open: (Bytes, Bytes, Bytes) -> Option<Bytes>)

  /** The tag is as long as the channel takes it to be. */
  ghost predicate AddsTag(aead: Aead) {
    forall n, a, p :: |aead.seal(n, a, p)| == |p| + TAG
  }

  ghost predicate OpensWhatItSealed(aead: Aead) {
    && AddsTag(aead)
    && (forall n, a, p :: aead.open(n, a, aead.seal(n, a, p)) == Some(p))
  }

  datatype Sealed = Sealed(nonce: Bytes, aad: Bytes, plaintext: Bytes)

  datatype Codec = Codec(encode: Envelope -> Bytes, decode: Bytes -> Option<Envelope>)

  ghost predicate DecodesWhatItEncoded(codec: Codec) {
    forall e :: codec.decode(codec.encode(e)) == Some(e)
  }

  // ---------------------------------------------------------------------------
  // Building and checking one frame
  // ---------------------------------------------------------------------------

  function DecodeEnvelope(codec: Codec, body: Bytes): Result<Envelope> {
    match codec.decode(body)
    case None => Err(FrameInvalid)
    case Some(e) =>
      if e.version != VERSION then Err(ProtocolVersion)
      else if Blank(e.kind) then Err(FrameInvalid)
      else Ok(e)
  }

  /** What the protocol asks of every envelope. */
  ghost predicate WellFormed(e: Envelope) {
    && e.version == 2
    && e.kind.Some? && exists i :: 0 <= i < |e.kind.value| && !WhiteSpace(e.kind.value[i])
  }

  datatype Label = C2S | S2C

  function LabelBytes(way: Label): Bytes {
    match way
    case C2S => [0x63, 0x32, 0x73]
    case S2C => [0x73, 0x32, 0x63]
  }

  /** The text "cloudos-core/v2/secure/". */
  const AAD_PREFIX: Bytes := [0x63, 0x6C, 0x6F, 0x75, 0x64, 0x6F, 0x73, 0x2D, 0x63, 0x6F, 0x72, 0x65, 0x2F,
                              0x76, 0x32, 0x2F, 0x73, 0x65, 0x63, 0x75, 0x72, 0x65, 0x2F]

  function MakeNonce(prefix: Bytes, sequence: nat): Bytes {
    prefix + BigEndian(sequence, 8)
  }

  function MakeAad(way: Label, sequence: nat): Bytes {
    AAD_PREFIX + LabelBytes(way) + [0] + BigEndian(sequence, 8)
  }

  /** The associated data names the direction and the position, and nothing else does. */
  lemma AadInjective(way: Label, sequence: nat, way': Label, sequence': nat)
    requires sequence <= MAX_SEQUENCE && sequence' <= MAX_SEQUENCE
    requires MakeAad(way, sequence) == MakeAad(way', sequence')
    ensures way == way' && sequence == sequence'
  {
    hide BigEndian;
    var n := |AAD_PREFIX|;
    assert LabelBytes(way)[0] == MakeAad(way, sequence)[n];
    assert LabelBytes(way')[0] == MakeAad(way', sequence')[n];
    assert MakeAad(way, sequence)[n + 4..] == BigEndian(sequence, 8);
    assert MakeAad(way', sequence')[n + 4..] == BigEndian(sequence', 8);
    Widths();
    BigEndianInjective(sequence, sequence', 8);
  }

  /** The text that the associated data starts with. */
  function Greeting(way: Label): string {
    if way == C2S then "cloudos-core/v2/secure/c2s" else "cloudos-core/v2/secure/s2c"
  }

  /** From `at` on there are the eight digits of the number, the most significant first. */
  ghost predicate NumberAt(s: Bytes, at: nat, number: nat) {
    at + 8 <= |s| && forall i :: at <= i < at + 8 ==> s[i] == number / Power256(at + 7 - i) % 0x100
  }

  lemma NumberIsAt(front: Bytes, number: nat)
    ensures NumberAt(front + BigEndian(number, 8), |front|, number)
  {
    hide BigEndian, Power256;
    var s := front + BigEndian(number, 8);
    forall i | |front| <= i < |front| + 8 ensures s[i] == number / Power256(|front| + 7 - i) % 0x100 {
      BigEndianDigit(number, 8, i - |front|);
    }
  }

  /** Both are laid out as the peer expects them: the prefix, or the greeting and a NUL, then the
      sequence number, most significant byte first. */
  lemma Layouts(prefix: Bytes, way: Label, sequence: nat)
    ensures var nonce, aad, text := MakeNonce(prefix, sequence), MakeAad(way, sequence), Greeting(way);
      && |nonce| == |prefix| + 8 && nonce[..|prefix|] == prefix && NumberAt(nonce, |prefix|, sequence)
      && |aad| == 35 && (forall i :: 0 <= i < 26 ==> aad[i] == text[i] as int) && aad[26] == 0
      && NumberAt(aad, 27, sequence)
  {
    hide BigEndian, NumberAt;
    NumberIsAt(prefix, sequence);
    NumberIsAt(AAD_PREFIX + LabelBytes(way) + [0], sequence);
  }

  lemma NonceInjective(prefix: Bytes, sequence: nat, sequence': nat)
    requires sequence <= MAX_SEQUENCE && sequence' <= MAX_SEQUENCE
    requires MakeNonce(prefix, sequence) == MakeNonce(prefix, sequence')
    ensures sequence == sequence'
  {
    hide BigEndian;
    assert MakeNonce(prefix, sequence)[|prefix|..] == BigEndian(sequence, 8);
    assert MakeNonce(prefix, sequence')[|prefix|..] == BigEndian(sequence', 8);
    Widths();
    BigEndianInjective(sequence, sequence', 8);
  }

  /** One direction as one end sees it. */
  datatype Direction = Direction(aead: Aead, prefix: Bytes, way: Label)

  datatype Material = Material(c2s: Aead, s2c: Aead, c2sPrefix: Bytes, s2cPrefix: Bytes)

  datatype Ends = Ends(reading: Direction, writing: Direction)

  function Create(material: Material, serverSide: bool): Ends {
    var c2s := Direction(material.c2s, material.c2sPrefix, C2S);
    var s2c := Direction(material.s2c, material.s2cPrefix, S2C);
    if serverSide then Ends(c2s, s2c) else Ends(s2c, c2s)
  }

  /** The client writes as "c2s" and the server as "s2c", each under the key and prefix of that way. */
  lemma WhoWritesWhat(material: Material, serverSide: bool)
    ensures var ends := Create(material, serverSide);
      var (mine, theirs) := if serverSide then ("s2c", "c2s") else ("c2s", "s2c");
      && Greeting(ends.writing.way) == "cloudos-core/v2/secure/" + mine
      && Greeting(ends.reading.way) == "cloudos-core/v2/secure/" + theirs
      && ends.writing.aead == (if serverSide then material.s2c else material.c2s)
      && ends.writing.prefix == (if serverSide then material.s2cPrefix else material.c2sPrefix)
      && ends.reading.aead == (if serverSide then material.c2s else material.s2c)
      && ends.reading.prefix == (if serverSide then material.c2sPrefix else material.s2cPrefix)
  {
  }

  function ProtectedBody(d: Direction, sequence: nat, body: Bytes): Bytes {
    BigEndian(sequence, 8) + d.aead.seal(MakeNonce(d.prefix, sequence), MakeAad(d.way, sequence), body)
  }

  /** What a receiver that has accepted `accepted` envelopes makes of a frame. */
  function Unprotect(d: Direction, codec: Codec, accepted: nat, protectedBody: Bytes): Result<Envelope> {
    if |protectedBody| < SEQUENCE_BYTES + TAG then Err(FrameIntegrity)
    else
      var sequence := FromBigEndian(protectedBody[..SEQUENCE_BYTES]);
      if accepted == MAX_SEQUENCE || sequence != accepted + 1 then Err(FrameSequence)
      else
        match d.aead.open(MakeNonce(d.prefix, sequence), MakeAad(d.way, sequence), protectedBody[SEQUENCE_BYTES..])
        case None => Err(FrameIntegrity)
        case Some(plaintext) => DecodeEnvelope(codec, plaintext)
  }

  /** One call of ReadAsync on the bytes that the network offers. */
  function Receive(d: Direction, codec: Codec, accepted: nat, data: Bytes): (Result<Envelope>, Bytes) {
    var (body, rest) := ReadFrame(data, MAX_FRAME + SEQUENCE_BYTES + TAG);
    match body
    case Err(error) => (Err(error), rest)
    case Ok(protectedBody) => (Unprotect(d, codec, accepted, protectedBody), rest)
  }

  // ---------------------------------------------------------------------------
  // The channel
  // ---------------------------------------------------------------------------

  class Channel {
    const ends: Ends
    const codec: Codec
    const input: Stream
    const output: Stream
    var readSequence: nat
    var writeSequence: nat
    var disposed: bool

    constructor (ends: Ends, codec: Codec, input: Stream, output: Stream)
      ensures this.ends == ends && this.codec == codec && this.input == input && this.output == output
      ensures readSequence == 0 && writeSequence == 0 && !disposed
    {
      this.ends, this.codec, this.input, this.output := ends, codec, input, output;
      readSequence, writeSequence, disposed := 0, 0, false;
    }

    /** A write that completes takes the next sequence number. One that is refused changes nothing;
        one whose stream throws leaves a part of its frame behind and does not advance. */
    method WriteAsync(e: Envelope, cut: Option<nat>) returns (r: Result<()>)
      requires input != output && writeSequence <= MAX_SEQUENCE
      requires AddsTag(ends.writing.aead)
      modifies this`writeSequence, output
      ensures var fit :=
          !disposed && old(writeSequence) < 0xFFFF_FFFF_FFFF_FFFF && 0 < |codec.encode(e)| <= 1_048_576;
        var frame := Frame(ProtectedBody(ends.writing, old(writeSequence) + 1, codec.encode(e)));
        && (r.Ok? <==> fit && cut.None?)
        && (r == Err(Interrupted) <==> fit && cut.Some?)
        && output.data == old(output.data) + if fit then Sent(frame, cut) else []
      ensures writeSequence == old(writeSequence) + if r.Ok? then 1 else 0
    {
      if disposed { return Err(Disposed); }
      if writeSequence == MAX_SEQUENCE { return Err(FrameSequence); }
      var sequence := writeSequence + 1;
      var body := codec.encode(e);
      if |body| <= 0 || |body| > MAX_FRAME { return Err(FrameLimit); }
      var nonce := MakeNonce(ends.writing.prefix, sequence);
      var aad := MakeAad(ends.writing.way, sequence);
      var sealed := ends.writing.aead.seal(nonce, aad, body);
      var ok := WriteLengthPrefixed(output, BigEndian(sequence, 8) + sealed, cut);
      if !ok { return Err(Interrupted); }
      writeSequence := sequence;
      r := Ok(());
    }

    /** An accepted frame advances the sequence by one; a rejected one leaves it unchanged. */
    method ReadAsync() returns (r: Result<Envelope>)
      requires input != output && readSequence <= MAX_SEQUENCE
      modifies this`readSequence, input
      ensures disposed ==> r == Err(Disposed) && input.data == old(input.data)
      ensures !disposed ==> (r, input.data) == Receive(ends.reading, codec, old(readSequence), old(input.data))
      ensures readSequence == old(readSequence) + if r.Ok? then 1 else 0
      ensures readSequence <= MAX_SEQUENCE
      // what is accepted speaks version 2 and has a type
      ensures r.Ok? ==> WellFormed(r.value)
    {
      if disposed { return Err(Disposed); }
      var d := ends.reading;
      var frame := ReadLengthPrefixed(input, MAX_FRAME + SEQUENCE_BYTES + TAG);
      if frame.Err? { return Err(frame.error); }
      var body := frame.value;
      if |body| < SEQUENCE_BYTES + TAG { return Err(FrameIntegrity); }
      var sequence := FromBigEndian(body[..SEQUENCE_BYTES]);
      if readSequence == MAX_SEQUENCE || sequence != readSequence + 1 { return Err(FrameSequence); }
      var plaintext := d.aead.open(MakeNonce(d.prefix, sequence), MakeAad(d.way, sequence), body[SEQUENCE_BYTES..]);
      if plaintext.None? { return Err(FrameIntegrity); }
      r := DecodeEnvelope(codec, plaintext.value);
      if r.Ok? {
        readSequence := sequence;
      }
    }
  }

  // ---------------------------------------------------------------------------
  // What a writer seals
  // ---------------------------------------------------------------------------

  /** One call of WriteAsync, and after how many bytes of its frame the stream throws, if it does. */
  datatype Attempt = Attempt(e: Envelope, cut: Option<nat>)

  predicate Fits(codec: Codec, a: Attempt) {
    0 < |codec.encode(a.e)| <= MAX_FRAME
  }

  /** How many of the writes complete, which is what the sequence counts. */
  function Completed(codec: Codec, attempts: seq<Attempt>): (n: nat)
    ensures n <= |attempts| && n <= MAX_SEQUENCE
  {
    if attempts == [] then 0
    else
      var n, a := Completed(codec, attempts[..|attempts| - 1]), attempts[|attempts| - 1];
      if n < MAX_SEQUENCE && Fits(codec, a) && a.cut.None? then n + 1 else n
  }

  /** The i-th write gets as far as sealing its envelope. */
  predicate Reaches(codec: Codec, attempts: seq<Attempt>, i: nat)
    requires i < |attempts|
  {
    Completed(codec, attempts[..i]) < MAX_SEQUENCE && Fits(codec, attempts[i])
  }

  /** An envelope and the sequence number it was sealed under. */
  datatype Seal = Seal(number: nat, e: Envelope)

  function Seals(codec: Codec, attempts: seq<Attempt>): seq<Seal> {
    if attempts == [] then []
    else
      var n := |attempts| - 1;
      Seals(codec, attempts[..n]) +
      if Reaches(codec, attempts, n) then [Seal(Completed(codec, attempts[..n]) + 1, attempts[n].e)] else []
  }

  /** The bytes that the writes leave on the stream. */
  function Transmitted(d: Direction, codec: Codec, attempts: seq<Attempt>): Bytes {
    if attempts == [] then []
    else
      var n := |attempts| - 1;
      var body := codec.encode(attempts[n].e);
      Transmitted(d, codec, attempts[..n]) +
      if !Reaches(codec, attempts, n) then []
      else Sent(Frame(ProtectedBody(d, Completed(codec, attempts[..n]) + 1, body)), attempts[n].cut)
  }

  /** The i-th write seals its envelope, and the stream throws before it completes. */
  predicate Interrupts(codec: Codec, attempts: seq<Attempt>, i: nat)
    requires i < |attempts|
  {
    Reaches(codec, attempts, i) && attempts[i].cut.Some?
  }

  /** Some write that seals follows one that was interrupted. */
  ghost predicate Retries(codec: Codec, attempts: seq<Attempt>) {
    exists i, j :: 0 <= i < j < |attempts| && Interrupts(codec, attempts, i) && Reaches(codec, attempts, j)
  }

  ghost predicate AnyInterrupts(codec: Codec, attempts: seq<Attempt>) {
    exists i :: 0 <= i < |attempts| && Interrupts(codec, attempts, i)
  }

  ghost predicate DistinctNumbers(seals: seq<Seal>) {
    forall i, j :: 0 <= i < j < |seals| ==> seals[i].number != seals[j].number
  }

  ghost predicate Numbered(seals: seq<Seal>) {
    forall i :: 0 <= i < |seals| ==> seals[i].number == i + 1
  }

  lemma ReachesInFront(codec: Codec, attempts: seq<Attempt>, n: nat, i: nat)
    requires i < n <= |attempts|
    ensures Reaches(codec, attempts[..n], i) == Reaches(codec, attempts, i)
    ensures Interrupts(codec, attempts[..n], i) == Interrupts(codec, attempts, i)
  {
    assert attempts[..n][..i] == attempts[..i];
  }

  /** What one more write does to the question whether there was an interruption, or a retry. */
  lemma OneMoreAttempt(codec: Codec, attempts: seq<Attempt>)
    requires attempts != []
    ensures var n := |attempts| - 1;
      var front := attempts[..n];
      && (AnyInterrupts(codec, attempts) <==> AnyInterrupts(codec, front) || Interrupts(codec, attempts, n))
      && (Retries(codec, attempts) <==>
            Retries(codec, front) || (AnyInterrupts(codec, front) && Reaches(codec, attempts, n)))
  {
    hide Reaches, Interrupts;
    var n := |attempts| - 1;
    var front := attempts[..n];
    forall i | 0 <= i < n
      ensures Reaches(codec, front, i) == Reaches(codec, attempts, i)
      ensures Interrupts(codec, front, i) == Interrupts(codec, attempts, i)
    {
      ReachesInFront(codec, attempts, n, i);
    }
    if Retries(codec, front) {
      var i, j :| 0 <= i < j < n && Interrupts(codec, front, i) && Reaches(codec, front, j);
      assert Interrupts(codec, attempts, i) && Reaches(codec, attempts, j);
    }
    if AnyInterrupts(codec, front) {
      var i :| 0 <= i < n && Interrupts(codec, front, i);
      assert Interrupts(codec, attempts, i);
    }
    if Retries(codec, attempts) {
      var i, j :| 0 <= i < j < |attempts| && Interrupts(codec, attempts, i) && Reaches(codec, attempts, j);
      assert Interrupts(codec, front, i);
      if j < n {
        assert Reaches(codec, front, j);
      }
    }
    if AnyInterrupts(codec, attempts) {
      var i :| 0 <= i < |attempts| && Interrupts(codec, attempts, i);
      if i < n {
        assert Interrupts(codec, front, i);
      }
    }
  }

  /** Without a retry the seals are numbered 1, 2, ..., and there is one for every completed write and
      one more if a write was interrupted. */
  lemma {:induction false} SealsNumbered(codec: Codec, attempts: seq<Attempt>)
    requires !Retries(codec, attempts)
    ensures Numbered(Seals(codec, attempts))
    ensures |Seals(codec, attempts)|
         == Completed(codec, attempts) + if AnyInterrupts(codec, attempts) then 1 else 0
  {
    if attempts != [] {
      hide Retries, AnyInterrupts;
      OneMoreAttempt(codec, attempts);
      SealsNumbered(codec, attempts[..|attempts| - 1]);
    }
  }

  /** Exactly when no sequence number, and so no nonce, is used for two envelopes. */
  lemma {:induction false} SealedOnceUnlessRetried(codec: Codec, attempts: seq<Attempt>)
    ensures DistinctNumbers(Seals(codec, attempts)) <==> !Retries(codec, attempts)
  {
    if !Retries(codec, attempts) {
      SealsNumbered(codec, attempts);
    } else {
      hide Retries, AnyInterrupts, Reaches;
      var n := |attempts| - 1;
      var front := attempts[..n];
      OneMoreAttempt(codec, attempts);
      SealedOnceUnlessRetried(codec, front);
      var earlier := Seals(codec, front);
      assert earlier <= Seals(codec, attempts);
      if Retries(codec, front) {
        var i, j :| 0 <= i < j < |earlier| && earlier[i].number == earlier[j].number;
        assert Seals(codec, attempts)[i].number == Seals(codec, attempts)[j].number;
      } else {
        SealsNumbered(codec, front);
        assert Seals(codec, attempts)[|earlier| - 1].number == Seals(codec, attempts)[|earlier|].number;
      }
    }
  }

  /** A write is interrupted before its first byte; the next one uses its number. */
  lemma RetryTakesSameNumber(codec: Codec, e: Envelope, next: Envelope)
    requires Fits(codec, Attempt(e, Some(0))) && Fits(codec, Attempt(next, None))
    ensures Seals(codec, [Attempt(e, Some(0)), Attempt(next, None)]) == [Seal(1, e), Seal(1, next)]
  {
    var first, second := Attempt(e, Some(0)), Attempt(next, None);
    assert [first][..0] == [] && [first, second][..1] == [first];
    assert Completed(codec, [first]) == 0;
    assert Reaches(codec, [first], 0) && Reaches(codec, [first, second], 1);
    assert Seals(codec, [first]) == [Seal(1, e)];
  }

  lemma {:induction false} SealNumbersBounded(codec: Codec, attempts: seq<Attempt>)
    ensures forall s :: s in Seals(codec, attempts) ==> s.number <= MAX_SEQUENCE
  {
    if attempts != [] {
      SealNumbersBounded(codec, attempts[..|attempts| - 1]);
    }
  }

  // ---------------------------------------------------------------------------
  // Any network: what is accepted was sealed for its place
  // ---------------------------------------------------------------------------

  /** What the calls of ReadAsync return in a row: `n` calls on the bytes `data`, with the envelopes
      that were accepted and what is left. The caller may go on after an error. */
  function ReceiveMany(d: Direction, codec: Codec, data: Bytes, n: nat): (seq<Envelope>, Bytes) {
    if n == 0 then ([], data)
    else
      var (accepted, rest) := ReceiveMany(d, codec, data, n - 1);
      var (r, rest') := Receive(d, codec, |accepted|, rest);
      (if r.Ok? then accepted + [r.value] else accepted, rest')
  }

  /** What AES-GCM got to seal for these seals of one direction. */
  function SealedBy(d: Direction, codec: Codec, seals: seq<Seal>): set<Sealed> {
    set s | s in seals :: Sealed(MakeNonce(d.prefix, s.number), MakeAad(d.way, s.number), codec.encode(s.e))
  }

  /** No part of the bytes that the network offers is a forgery: what opens under a nonce and the
      associated data of this direction was sealed by somebody who holds the key. */
  ghost predicate NoForgery(d: Direction, sealed: set<Sealed>, data: Bytes) {
    forall q: nat, i, j :: 0 <= i <= j <= |data| ==> Genuine(d, sealed, q, data[i..j])
  }

  ghost predicate Genuine(d: Direction, sealed: set<Sealed>, q: nat, part: Bytes) {
    var n, a := MakeNonce(d.prefix, q), MakeAad(d.way, q);
    d.aead.open(n, a, part).Some? ==> Sealed(n, a, d.aead.open(n, a, part).value) in sealed
  }

  const BODY: Bytes := [1]
  const MARK: Bytes := [1, 1, 1, 1, 1, 1, 1, 1, 1, 1, 1, 1, 1, 1, 1, 1]
  const BLANK: Bytes := [0, 0, 0, 0, 0, 0, 0, 0, 0, 0, 0, 0, 0, 0, 0, 0]

  function ToyTag(it: Sealed, n: Bytes, a: Bytes, p: Bytes): Bytes {
    if Sealed(n, a, p) == it then MARK else BLANK
  }

  function ToyOpen(it: Sealed, n: Bytes, a: Bytes, c: Bytes): Option<Bytes> {
    if |c| >= TAG && c[|c| - TAG..] == ToyTag(it, n, a, c[..|c| - TAG]) then Some(c[..|c| - TAG]) else None
  }

  /** A toy AEAD that gives one message a tag of its own. */
  function Toy(it: Sealed): Aead {
    Aead((n, a, p) => p + ToyTag(it, n, a, p), (n, a, c) => ToyOpen(it, n, a, c))
  }

  lemma ToyOpens(it: Sealed)
    ensures OpensWhatItSealed(Toy(it))
  {
    forall n, a, p
      ensures |p + ToyTag(it, n, a, p)| == |p| + TAG
      ensures ToyOpen(it, n, a, p + ToyTag(it, n, a, p)) == Some(p)
    {
      var c := p + ToyTag(it, n, a, p);
      assert c[..|c| - TAG] == p;
    }
  }

  lemma ToyNeedsMark(it: Sealed, n: Bytes, a: Bytes, c: Bytes)
    requires |c| >= TAG ==> c[|c| - 1] == 1
    ensures ToyOpen(it, n, a, c).Some? ==> Sealed(n, a, ToyOpen(it, n, a, c).value) == it
  {
    if |c| >= TAG {
      assert c[|c| - TAG..][TAG - 1] == 1 != BLANK[TAG - 1];
    }
  }

  lemma ToyIsGenuine(d: Direction, it: Sealed, head: Bytes, q: nat, i: nat, j: nat)
    requires d.aead == Toy(it) && |head| < TAG && i <= j <= |head + MARK|
    ensures Genuine(d, {it}, q, (head + MARK)[i..j])
  {
    hide MakeAad, MakeNonce, ToyOpen, ToyTag;
    var part := (head + MARK)[i..j];
    if |part| >= TAG {
      assert part[|part| - 1] == MARK[j - 1 - |head|] == 1;
    }
    ToyNeedsMark(it, MakeNonce(d.prefix, q), MakeAad(d.way, q), part);
  }

  /** The laws can hold together: of an AEAD that opens what it sealed, and of bytes that carry a
      frame it sealed. */
  lemma LawsAgree(prefix: Bytes, way: Label) returns (d: Direction)
    ensures d.prefix == prefix && d.way == way && OpensWhatItSealed(d.aead)
    ensures NoForgery(d, {Sealed(MakeNonce(prefix, 1), MakeAad(way, 1), BODY)}, Frame(ProtectedBody(d, 1, BODY)))
  {
    hide MakeAad, MakeNonce, BigEndian, OpensWhatItSealed, Genuine;
    var it := Sealed(MakeNonce(prefix, 1), MakeAad(way, 1), BODY);
    d := Direction(Toy(it), prefix, way);
    ToyOpens(it);
    var data := Frame(ProtectedBody(d, 1, BODY));
    var head := data[..13];
    assert data == head + MARK;
    forall q: nat, i, j | 0 <= i <= j <= |data| ensures Genuine(d, {it}, q, data[i..j]) {
      ToyIsGenuine(d, it, head, q, i, j);
    }
  }

  /** A call reads a part of what is offered and leaves a suffix. */
  lemma ReadsPart(data: Bytes, max: nat) returns (i: nat, j: nat)
    ensures i <= j <= |data| && ReadFrame(data, max).1 == data[j..]
    ensures ReadFrame(data, max).0.Ok? ==> ReadFrame(data, max).0.value == data[i..j]
  {
    hide FromBigEndian;
    var body, rest := ReadFrame(data, max).0, ReadFrame(data, max).1;
    j := |data| - |rest|;
    i := if body.Ok? then j - |body.value| else j;
  }

  lemma {:induction false} LeavesSuffix(d: Direction, codec: Codec, data: Bytes, n: nat) returns (k: nat)
    ensures k <= |data| && ReceiveMany(d, codec, data, n).1 == data[k..]
  {
    hide Unprotect, ReadFrame;
    if n == 0 {
      k := 0;
    } else {
      var before := LeavesSuffix(d, codec, data, n - 1);
      var i, j := ReadsPart(data[before..], MAX_FRAME + SEQUENCE_BYTES + TAG);
      k := before + j;
      assert data[before..][j..] == data[k..];
    }
  }

  lemma AcceptedHasSeal(d: Direction, back: Direction, codec: Codec, seals: seq<Seal>, own: seq<Seal>,
                        accepted: nat, data: Bytes, k: nat)
    requires DecodesWhatItEncoded(codec) && d.way != back.way
    requires forall s :: s in seals + own ==> s.number <= MAX_SEQUENCE
    requires NoForgery(d, SealedBy(d, codec, seals) + SealedBy(back, codec, own), data)
    requires k <= |data| && accepted <= MAX_SEQUENCE && Receive(d, codec, accepted, data[k..]).0.Ok?
    ensures Seal(accepted + 1, Receive(d, codec, accepted, data[k..]).0.value) in seals
  {
    hide MakeAad, MakeNonce, BigEndian, FromBigEndian, ReadFrame;
    var i, j := ReadsPart(data[k..], MAX_FRAME + SEQUENCE_BYTES + TAG);
    var body := ReadFrame(data[k..], MAX_FRAME + SEQUENCE_BYTES + TAG).0.value;
    var q, part := accepted + 1, body[SEQUENCE_BYTES..];
    assert part == data[k + i + SEQUENCE_BYTES..k + j];
    var sealed := SealedBy(d, codec, seals) + SealedBy(back, codec, own);
    assert Genuine(d, sealed, q, data[k + i + SEQUENCE_BYTES..k + j]);
    var n, a := MakeNonce(d.prefix, q), MakeAad(d.way, q);
    var it := Sealed(n, a, d.aead.open(n, a, part).value);
    assert it in sealed;
    if it in SealedBy(back, codec, own) {
      var s :| s in own
            && it == Sealed(MakeNonce(back.prefix, s.number), MakeAad(back.way, s.number), codec.encode(s.e));
      AadInjective(d.way, q, back.way, s.number);
      assert false;
    }
    var s :| s in seals && it == Sealed(MakeNonce(d.prefix, s.number), MakeAad(d.way, s.number), codec.encode(s.e));
    AadInjective(d.way, q, d.way, s.number);
  }

  /** The k-th envelope that was accepted is one that the peer has sealed under the number k. */
  ghost predicate EachSealed(accepted: seq<Envelope>, seals: seq<Seal>) {
    forall k :: 0 <= k < |accepted| ==> Seal(k + 1, accepted[k]) in seals
  }

  /** For every byte stream that a network may offer - with frames dropped, repeated, reordered,
      altered, made up, or reflected from the other direction even if both directions shared one
      key - each accepted envelope was sealed by the peer for the very place where it is accepted. */
  lemma {:induction false} AcceptedWasSealed(d: Direction, back: Direction, codec: Codec,
                                             seals: seq<Seal>, own: seq<Seal>, data: Bytes, n: nat)
    requires DecodesWhatItEncoded(codec) && d.way != back.way
    requires forall s :: s in seals + own ==> s.number <= MAX_SEQUENCE
    requires NoForgery(d, SealedBy(d, codec, seals) + SealedBy(back, codec, own), data)
    ensures EachSealed(ReceiveMany(d, codec, data, n).0, seals)
  {
    hide Receive, ReceiveMany, SealedBy, NoForgery, DecodesWhatItEncoded;
    if n == 0 {
      ReceiveNone(d, codec, data);
    } else {
      hide EachSealed;
      AcceptedWasSealed(d, back, codec, seals, own, data, n - 1);
      ReceiveOneMore(d, codec, data, n - 1);
      var k := LeavesSuffix(d, codec, data, n - 1);
      var (accepted, rest) := ReceiveMany(d, codec, data, n - 1);
      if Receive(d, codec, |accepted|, rest).0.Ok? {
        AcceptedFits(seals + own, seals, accepted);
        AcceptedHasSeal(d, back, codec, seals, own, |accepted|, data, k);
        OneMoreSealed(accepted, Receive(d, codec, |accepted|, rest).0.value, seals);
      }
    }
  }

  lemma OneMoreSealed(accepted: seq<Envelope>, e: Envelope, seals: seq<Seal>)
    requires EachSealed(accepted, seals) && Seal(|accepted| + 1, e) in seals
    ensures EachSealed(accepted + [e], seals)
  {
  }

  lemma AcceptedFits(all: seq<Seal>, seals: seq<Seal>, accepted: seq<Envelope>)
    requires (forall s :: s in all ==> s.number <= MAX_SEQUENCE) && (forall s :: s in seals ==> s in all)
    requires EachSealed(accepted, seals)
    ensures |accepted| <= MAX_SEQUENCE
  {
    if accepted != [] {
      assert Seal(|accepted|, accepted[|accepted| - 1]) in seals;
    }
  }

  function Envelopes(seals: seq<Seal>): (es: seq<Envelope>)
    ensures |es| == |seals| && forall i :: 0 <= i < |es| ==> es[i] == seals[i].e
  {
    seq(|seals|, i requires 0 <= i < |seals| => seals[i].e)
  }

  /** And unless the peer went on writing after an interruption, they are a prefix, in order, of what
      it wrote: its completed writes and, last, the interrupted one. */
  lemma AcceptedIsPrefix(d: Direction, back: Direction, codec: Codec, attempts: seq<Attempt>, own: seq<Attempt>,
                         data: Bytes, n: nat)
    requires DecodesWhatItEncoded(codec) && d.way != back.way
    requires NoForgery(d, SealedBy(d, codec, Seals(codec, attempts)) + SealedBy(back, codec, Seals(codec, own)), data)
    ensures EachSealed(ReceiveMany(d, codec, data, n).0, Seals(codec, attempts))
    ensures !Retries(codec, attempts) ==>
      ReceiveMany(d, codec, data, n).0 <= Envelopes(Seals(codec, attempts))
  {
    hide Receive, ReceiveMany, SealedBy, NoForgery, DecodesWhatItEncoded, Seals, Retries;
    SealNumbersBounded(codec, attempts);
    SealNumbersBounded(codec, own);
    AcceptedWasSealed(d, back, codec, Seals(codec, attempts), Seals(codec, own), data, n);
    if !Retries(codec, attempts) {
      SealsNumbered(codec, attempts);
      SealedInOrder(ReceiveMany(d, codec, data, n).0, Seals(codec, attempts));
    }
  }

  lemma SealedInOrder(accepted: seq<Envelope>, seals: seq<Seal>)
    requires EachSealed(accepted, seals) && Numbered(seals)
    ensures accepted <= Envelopes(seals)
  {
    forall k | 0 <= k < |accepted| ensures k < |seals| && seals[k].e == accepted[k] {
      assert Seal(k + 1, accepted[k]) in seals;
      var i :| 0 <= i < |seals| && seals[i] == Seal(k + 1, accepted[k]);
    }
    var last := |accepted| - 1;
    assert accepted != [] ==> last < |seals| && seals[last].e == accepted[last];
  }

  // ---------------------------------------------------------------------------
  // An honest network: everything arrives
  // ---------------------------------------------------------------------------

  predicate Sendable(codec: Codec, e: Envelope) {
    e.version == VERSION && !Blank(e.kind) && 0 < |codec.encode(e)| <= MAX_FRAME
  }

  /** The bytes of the completed writes of `es`, which carry the sequence numbers 1, 2, ... */
  function Wire(d: Direction, codec: Codec, es: seq<Envelope>): Bytes {
    if es == [] then []
    else Wire(d, codec, es[..|es| - 1]) + Frame(ProtectedBody(d, |es|, codec.encode(es[|es| - 1])))
  }

  lemma UnprotectProtected(d: Direction, codec: Codec, accepted: nat, e: Envelope)
    requires OpensWhatItSealed(d.aead) && DecodesWhatItEncoded(codec)
    requires accepted < MAX_SEQUENCE && Sendable(codec, e)
    ensures var body := ProtectedBody(d, accepted + 1, codec.encode(e));
      && |body| == SEQUENCE_BYTES + |codec.encode(e)| + TAG
      && Unprotect(d, codec, accepted, body) == Ok(e)
  {
    hide MakeAad, MakeNonce, BigEndian, FromBigEndian, Blank;
    var sequence := accepted + 1;
    var body := ProtectedBody(d, sequence, codec.encode(e));
    Widths();
    BigEndianRoundTrip(sequence, 8);
    assert body[..SEQUENCE_BYTES] == BigEndian(sequence, 8);
    assert body[SEQUENCE_BYTES..]
        == d.aead.seal(MakeNonce(d.prefix, sequence), MakeAad(d.way, sequence), codec.encode(e));
  }

  lemma ReceiveWritten(d: Direction, codec: Codec, accepted: nat, e: Envelope, rest: Bytes)
    requires OpensWhatItSealed(d.aead) && DecodesWhatItEncoded(codec)
    requires accepted < MAX_SEQUENCE && Sendable(codec, e)
    ensures Receive(d, codec, accepted, Frame(ProtectedBody(d, accepted + 1, codec.encode(e))) + rest) == (Ok(e), rest)
  {
    hide Unprotect, ProtectedBody, Frame, ReadFrame, Sendable, OpensWhatItSealed, DecodesWhatItEncoded;
    SendableSize(codec, e);
    UnprotectProtected(d, codec, accepted, e);
    ReadFrameOfFrame(ProtectedBody(d, accepted + 1, codec.encode(e)), rest, MAX_FRAME + SEQUENCE_BYTES + TAG);
  }

  /** What the receiver makes of the next frame that its peer has sealed, whatever is in it: it accepts
      exactly a well-formed envelope, and says what is wrong with any other. */
  lemma GenuineFrameOutcome(d: Direction, codec: Codec, accepted: nat, plaintext: Bytes, rest: Bytes)
    requires OpensWhatItSealed(d.aead) && accepted < 0xFFFF_FFFF_FFFF_FFFF && |plaintext| <= 1_048_576
    ensures var (r, left) := Receive(d, codec, accepted, Frame(ProtectedBody(d, accepted + 1, plaintext)) + rest);
      && left == rest
      && match codec.decode(plaintext)
         case None => r == Err(FrameInvalid)
         case Some(e) =>
           r == if WellFormed(e) then Ok(e) else Err(if e.version != 2 then ProtocolVersion else FrameInvalid)
  {
    hide MakeAad, MakeNonce, BigEndian, FromBigEndian, ReadFrame, Frame;
    var sequence := accepted + 1;
    var body := ProtectedBody(d, sequence, plaintext);
    Widths();
    BigEndianRoundTrip(sequence, 8);
    assert body[..SEQUENCE_BYTES] == BigEndian(sequence, 8);
    assert body[SEQUENCE_BYTES..] == d.aead.seal(MakeNonce(d.prefix, sequence), MakeAad(d.way, sequence), plaintext);
    ReadFrameOfFrame(body, rest, MAX_FRAME + SEQUENCE_BYTES + TAG);
  }

  /** Which frames the receiver refuses before it looks into them: those too short for a number and a
      tag, those that do not carry the next number, and those that do not open. */
  lemma RefusedExactly(d: Direction, codec: Codec, accepted: nat, body: Bytes, rest: Bytes)
    requires 0 < |body| <= 1_048_600
    ensures var (r, left) := Receive(d, codec, accepted, Frame(body) + rest);
      && left == rest
      && if |body| < 24 then r == Err(FrameIntegrity)
         else if accepted == 0xFFFF_FFFF_FFFF_FFFF || FromBigEndian(body[..8]) != accepted + 1 then
           r == Err(FrameSequence)
         else
           d.aead.open(MakeNonce(d.prefix, accepted + 1), MakeAad(d.way, accepted + 1), body[8..]).None? ==>
             r == Err(FrameIntegrity)
  {
    hide MakeAad, MakeNonce, BigEndian, FromBigEndian, ReadFrame, Frame;
    ReadFrameOfFrame(body, rest, MAX_FRAME + SEQUENCE_BYTES + TAG);
  }

  lemma SendableSize(codec: Codec, e: Envelope)
    requires Sendable(codec, e)
    ensures 0 < |codec.encode(e)| <= MAX_FRAME
  {
  }

  /** Every list of well-formed envelopes is received as it was written, whatever follows it. */
  lemma {:induction false} RoundTrip(d: Direction, codec: Codec, es: seq<Envelope>, rest: Bytes)
    requires OpensWhatItSealed(d.aead) && DecodesWhatItEncoded(codec)
    requires |es| <= MAX_SEQUENCE && forall i :: 0 <= i < |es| ==> Sendable(codec, es[i])
    ensures ReceiveMany(d, codec, Wire(d, codec, es) + rest, |es|) == (es, rest)
  {
    hide Receive, ReceiveMany, Wire, Frame, ProtectedBody, Sendable, OpensWhatItSealed, DecodesWhatItEncoded;
    if es == [] {
      NothingWritten(d, codec, rest);
    } else {
      var n := |es| - 1;
      var frame := Frame(ProtectedBody(d, n + 1, codec.encode(es[n])));
      WireSnoc(d, codec, es, rest);
      RoundTrip(d, codec, es[..n], frame + rest);
      ReceiveWritten(d, codec, n, es[n], rest);
      ReceiveOneMore(d, codec, Wire(d, codec, es) + rest, n);
      assert es == es[..n] + [es[n]];
    }
  }

  function Written(attempts: seq<Attempt>): (es: seq<Envelope>)
    ensures |es| == |attempts| && forall i :: 0 <= i < |es| ==> es[i] == attempts[i].e
  {
    seq(|attempts|, i requires 0 <= i < |attempts| => attempts[i].e)
  }

  /** Writes that are not interrupted leave just those bytes on the stream. */
  lemma {:induction false} TransmittedWhole(d: Direction, codec: Codec, attempts: seq<Attempt>)
    requires |attempts| <= MAX_SEQUENCE
    requires forall i :: 0 <= i < |attempts| ==> Fits(codec, attempts[i]) && attempts[i].cut.None?
    ensures Completed(codec, attempts) == |attempts|
    ensures Transmitted(d, codec, attempts) == Wire(d, codec, Written(attempts))
  {
    if attempts != [] {
      hide Frame, ProtectedBody;
      var n := |attempts| - 1;
      TransmittedWhole(d, codec, attempts[..n]);
      assert Written(attempts)[..n] == Written(attempts[..n]);
    }
  }

  /** So, over an honest network, what WriteAll writes is what ReadMany reads. */
  lemma WholeWritesArrive(d: Direction, codec: Codec, attempts: seq<Attempt>, rest: Bytes)
    requires OpensWhatItSealed(d.aead) && DecodesWhatItEncoded(codec) && |attempts| <= MAX_SEQUENCE
    requires forall i :: 0 <= i < |attempts| ==> Sendable(codec, attempts[i].e) && attempts[i].cut.None?
    ensures ReceiveMany(d, codec, Transmitted(d, codec, attempts) + rest, |attempts|) == (Written(attempts), rest)
  {
    hide OpensWhatItSealed, DecodesWhatItEncoded, Transmitted, Completed, Wire, ReceiveMany;
    TransmittedWhole(d, codec, attempts);
    RoundTrip(d, codec, Written(attempts), rest);
  }

  lemma NothingWritten(d: Direction, codec: Codec, rest: Bytes)
    ensures ReceiveMany(d, codec, Wire(d, codec, []) + rest, 0) == ([], rest)
  {
    assert [] + rest == rest;
  }

  lemma WireSnoc(d: Direction, codec: Codec, es: seq<Envelope>, rest: Bytes)
    requires es != []
    ensures var n := |es| - 1;
      Wire(d, codec, es) + rest
      == Wire(d, codec, es[..n]) + (Frame(ProtectedBody(d, n + 1, codec.encode(es[n]))) + rest)
  {
    hide Frame, ProtectedBody;
    var n := |es| - 1;
    var front, frame := Wire(d, codec, es[..n]), Frame(ProtectedBody(d, n + 1, codec.encode(es[n])));
    assert front + frame + rest == front + (frame + rest);
  }

  lemma ReceiveNone(d: Direction, codec: Codec, data: Bytes)
    ensures ReceiveMany(d, codec, data, 0) == ([], data)
  {
  }

  lemma ReceiveOneMore(d: Direction, codec: Codec, data: Bytes, n: nat)
    ensures var (accepted, rest) := ReceiveMany(d, codec, data, n);
      var (r, rest') := Receive(d, codec, |accepted|, rest);
      ReceiveMany(d, codec, data, n + 1) == (if r.Ok? then accepted + [r.value] else accepted, rest')
  {
  }

  /** What a client sends under the keys of a session, the server of that session receives, and
      the other way round: the two ends agree on keys, prefixes and labels. */
  lemma SessionRoundTrip(material: Material, codec: Codec, fromServer: bool, es: seq<Envelope>)
    requires OpensWhatItSealed(material.c2s) && OpensWhatItSealed(material.s2c) && DecodesWhatItEncoded(codec)
    requires |es| <= MAX_SEQUENCE && forall i :: 0 <= i < |es| ==> Sendable(codec, es[i])
    ensures var wire := Wire(Create(material, fromServer).writing, codec, es);
      ReceiveMany(Create(material, !fromServer).reading, codec, wire, |es|) == (es, [])
  {
    hide OpensWhatItSealed, DecodesWhatItEncoded, Sendable;
    var d := Create(material, fromServer).writing;
    RoundTrip(d, codec, es, []);
    assert Wire(d, codec, es) + [] == Wire(d, codec, es);
  }

  /** Reads of one end, going on after every error: however the stream cuts its bytes into pieces,
      the envelopes are those of `ReceiveMany`, and the sequence counts them. */
  method ReadMany(channel: Channel, n: nat) returns (accepted: seq<Envelope>)
    requires channel.input != channel.output && channel.readSequence == 0 && !channel.disposed
    modifies channel`readSequence, channel.input
    ensures (accepted, channel.input.data)
         == ReceiveMany(channel.ends.reading, channel.codec, old(channel.input.data), n)
    ensures channel.readSequence == |accepted|
    ensures forall i :: 0 <= i < |accepted| ==> WellFormed(accepted[i])
  {
    hide Receive;
    accepted := [];
    var d := channel.ends.reading;
    for i := 0 to n
      invariant !channel.disposed && channel.readSequence == |accepted| <= MAX_SEQUENCE
      invariant (accepted, channel.input.data) == ReceiveMany(d, channel.codec, old(channel.input.data), i)
      invariant forall k :: 0 <= k < |accepted| ==> WellFormed(accepted[k])
    {
      ReceiveOneMore(d, channel.codec, old(channel.input.data), i);
      var r := channel.ReadAsync();
      if r.Ok? {
        accepted := accepted + [r.value];
      }
    }
  }

  /** Writes of one end, going on after failures. */
  method WriteAll(channel: Channel, attempts: seq<Attempt>) returns (results: seq<Result<()>>, seals: seq<Seal>)
    requires channel.input != channel.output && channel.writeSequence == 0 && !channel.disposed
    requires AddsTag(channel.ends.writing.aead)
    modifies channel`writeSequence, channel.output
    ensures seals == Seals(channel.codec, attempts)
    ensures channel.output.data
         == old(channel.output.data) + Transmitted(channel.ends.writing, channel.codec, attempts)
    // a write completes exactly if it seals and is not interrupted, and those that do carry 1, 2, ...
    ensures |results| == |attempts| && channel.writeSequence == Completed(channel.codec, attempts)
    ensures forall i :: 0 <= i < |attempts| ==>
      (results[i].Ok? <==> Reaches(channel.codec, attempts, i) && attempts[i].cut.None?)
    // no nonce is used twice exactly if no write follows an interrupted one
    ensures (forall i, j :: 0 <= i < j < |seals| ==>
               MakeNonce(channel.ends.writing.prefix, seals[i].number)
               != MakeNonce(channel.ends.writing.prefix, seals[j].number))
      <==> !Retries(channel.codec, attempts)
  {
    hide AddsTag, Frame, ProtectedBody, MakeNonce, Retries, Seals, Transmitted, Completed;
    results, seals := [], [];
    var codec, d := channel.codec, channel.ends.writing;
    NoAttempts(d, codec, attempts);
    for i := 0 to |attempts|
      invariant !channel.disposed && |results| == i
      invariant channel.writeSequence == Completed(codec, attempts[..i])
      invariant seals == Seals(codec, attempts[..i])
      invariant channel.output.data == old(channel.output.data) + Transmitted(d, codec, attempts[..i])
      invariant forall k :: 0 <= k < i ==>
        (results[k].Ok? <==> Reaches(codec, attempts, k) && attempts[k].cut.None?)
    {
      AttemptsNext(d, codec, attempts, i);
      var number := channel.writeSequence + 1;
      var r := channel.WriteAsync(attempts[i].e, attempts[i].cut);
      if r.Ok? || r.error.Interrupted? {
        seals := seals + [Seal(number, attempts[i].e)];
      }
      results := results + [r];
    }
    assert attempts[..|attempts|] == attempts;
    SealedOnceUnlessRetried(codec, attempts);
    SealNumbersBounded(codec, attempts);
    DistinctNonces(d.prefix, seals);
  }

  lemma NoAttempts(d: Direction, codec: Codec, attempts: seq<Attempt>)
    ensures Completed(codec, attempts[..0]) == 0
    ensures Seals(codec, attempts[..0]) == [] && Transmitted(d, codec, attempts[..0]) == []
  {
  }

  lemma AttemptsNext(d: Direction, codec: Codec, attempts: seq<Attempt>, i: nat)
    requires i < |attempts|
    ensures var front, n := attempts[..i], Completed(codec, attempts[..i]);
      var frame := Frame(ProtectedBody(d, n + 1, codec.encode(attempts[i].e)));
      var reaches := Reaches(codec, attempts, i);
      && Completed(codec, attempts[..i + 1]) == n + (if reaches && attempts[i].cut.None? then 1 else 0)
      && Seals(codec, attempts[..i + 1]) == Seals(codec, front) + (if reaches then [Seal(n + 1, attempts[i].e)] else [])
      && Transmitted(d, codec, attempts[..i + 1])
         == Transmitted(d, codec, front) + if reaches then Sent(frame, attempts[i].cut) else []
  {
    hide Frame, ProtectedBody;
    assert attempts[..i + 1][..i] == attempts[..i];
  }

  /** Different numbers are different nonces, and the other way round. */
  lemma DistinctNonces(prefix: Bytes, seals: seq<Seal>)
    requires forall s :: s in seals ==> s.number <= MAX_SEQUENCE
    ensures DistinctNumbers(seals) <==>
      forall i, j :: 0 <= i < j < |seals| ==> MakeNonce(prefix, seals[i].number) != MakeNonce(prefix, seals[j].number)
  {
    hide MakeNonce;
    if DistinctNumbers(seals) {
      forall i, j | 0 <= i < j < |seals|
        ensures MakeNonce(prefix, seals[i].number) != MakeNonce(prefix, seals[j].number)
      {
        if MakeNonce(prefix, seals[i].number) == MakeNonce(prefix, seals[j].number) {
          NonceInjective(prefix, seals[i].number, seals[j].number);
        }
      }
    }
  }

  /** From one end to the other over any network: `offered` is what the network makes of the bytes
      written so far by both ends, of which `own` are the receiver's writes. */
  method Transfer(sender: Channel, attempts: seq<Attempt>, offered: Bytes, receiver: Channel, n: nat,
                  ghost own: seq<Attempt>)
    returns (accepted: seq<Envelope>)
    requires sender != receiver && sender.output != receiver.input
    requires sender.input != sender.output && sender.writeSequence == 0 && !sender.disposed
    requires receiver.input != receiver.output && receiver.readSequence == 0 && !receiver.disposed
    requires exists material, server ::
      sender.ends == Create(material, server) && receiver.ends == Create(material, !server)
    requires sender.codec == receiver.codec && DecodesWhatItEncoded(sender.codec)
    requires AddsTag(sender.ends.writing.aead)
    requires NoForgery(receiver.ends.reading,
      SealedBy(sender.ends.writing, sender.codec, Seals(sender.codec, attempts))
      + SealedBy(receiver.ends.writing, sender.codec, Seals(sender.codec, own)), offered)
    modifies sender`writeSequence, sender.output, receiver`readSequence, receiver.input
    ensures EachSealed(accepted, Seals(sender.codec, attempts)) && receiver.readSequence == |accepted|
    ensures !Retries(sender.codec, attempts) ==> accepted <= Envelopes(Seals(sender.codec, attempts))
  {
    hide NoForgery, SealedBy, DecodesWhatItEncoded, AddsTag, Retries, ReceiveMany, Seals;
    var results, seals := WriteAll(sender, attempts);
    receiver.input.Offer(offered);
    accepted := ReadMany(receiver, n);
    AcceptedIsPrefix(receiver.ends.reading, receiver.ends.writing, sender.codec, attempts, own, offered, n);
  }
}
