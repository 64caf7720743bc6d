/** What whole runs of the SHA256 object guarantee: laws that relate several calls. */
module HasherRuns {
  import opened Words
  import opened Fips180
  import opened HasherModel
  import Hex

  datatype Call = Update(data: seq<byte>) | Finalize | CalculateHex(input: seq<byte>)

  datatype Reply = Nothing | Hash(hash: seq<byte>) | Text(text: string)

  function Step(h: Hasher, c: Call): (h': Hasher)
    requires h.Valid()
    ensures h'.Valid()
  {
    match c
    case Update(data) => HasherModel.Update(h, data)
    case Finalize => HasherModel.Finalize(h)
    case CalculateHex(input) => AfterHex(h, input)
  }

  function ReplyTo(h: Hasher, c: Call): Reply
    requires h.Valid()
  {
    match c
    case Update(_) => Nothing
    case Finalize => Hash(Output(h))
    case CalculateHex(input) => Text(HexOutput(h, input))
  }

  /** The object after a sequence of calls. */
  function After(h: Hasher, calls: seq<Call>): (h': Hasher)
    requires h.Valid()
    ensures h'.Valid()
  {
    if calls == [] then h else Step(After(h, calls[..|calls| - 1]), calls[|calls| - 1])
  }

  function Replies(h: Hasher, calls: seq<Call>): (r: seq<Reply>)
    requires h.Valid()
    ensures |r| == |calls|
  {
    seq(|calls|, i requires 0 <= i < |calls| => ReplyTo(After(h, calls[..i]), calls[i]))
  }

  // ---------------------------------------------------------------- what a run should return

  /** Whether the message so far has been finalized: its last call was not an update. */
  function Closed(calls: seq<Call>): bool {
    calls != [] && !calls[|calls| - 1].Update?
  }

  /**
   The bytes absorbed since the current message began: at construction, at the first update after a
   finalization, or at a `CalculateHex`.
   */
  function CurrentMessage(calls: seq<Call>): seq<byte> {
    if calls == [] then []
    else
      var before := calls[..|calls| - 1];
      match calls[|calls| - 1]
      case Update(data) => if Closed(before) then data else CurrentMessage(before) + data
      case Finalize => CurrentMessage(before)
      case CalculateHex(input) => input
  }

  function SpecReply(calls: seq<Call>, c: Call): Reply {
    match c
    case Update(_) => Nothing
    case Finalize => Hash(Digest(CurrentMessage(calls)))
    case CalculateHex(input) => Text(Hex.Encode(Digest(input)))
  }

  lemma UpdateRepresents(h: Hasher, m: seq<byte>, data: seq<byte>)
    requires Represents(h, m)
    ensures !HasherModel.Update(h, data).finalized
    ensures Represents(HasherModel.Update(h, data), if h.finalized then data else m + data)
  {
    hide Represents, Absorb;
    if h.finalized {
      FreshRepresentsEmpty();
      AbsorbRepresents(Fresh(), [], data);
      assert [] + data == data;
    } else {
      AbsorbRepresents(h, m, data);
    }
  }

  /** After any calls the object holds the hash of the current message, finalized or not. */
  lemma {:induction false} RunRepresents(calls: seq<Call>)
    ensures Represents(After(Fresh(), calls), CurrentMessage(calls))
    ensures After(Fresh(), calls).finalized == Closed(calls)
  {
    hide Represents, HasherModel.Update, HasherModel.Finalize;
    FreshRepresentsEmpty();
    if calls == [] {
      assert After(Fresh(), calls) == Fresh() && CurrentMessage(calls) == [];
    } else {
      var before := calls[..|calls| - 1];
      var h := After(Fresh(), before);
      RunRepresents(before);
      match calls[|calls| - 1]
      case Update(data) => UpdateRepresents(h, CurrentMessage(before), data);
      case Finalize => FinalizeRepresents(h, CurrentMessage(before));
      case CalculateHex(input) =>
        UpdateRepresents(Fresh(), [], input);
        assert [] + input == input;
        FinalizeRepresents(HasherModel.Update(Fresh(), input), input);
    }
  }

  lemma FreshHash(m: seq<byte>)
    ensures Represents(HasherModel.Update(Fresh(), m), m)
    ensures Output(HasherModel.Update(Fresh(), m)) == Digest(m)
  {
    hide Represents, HasherModel.Update, Output, Digest;
    FreshRepresentsEmpty();
    UpdateRepresents(Fresh(), [], m);
    assert [] + m == m;
    FinalizeRepresents(HasherModel.Update(Fresh(), m), m);
  }

  /** After any calls, the reply to one more is the one FIPS 180-4 prescribes. */
  lemma ReplyIsSpecified(calls: seq<Call>, c: Call)
    ensures ReplyTo(After(Fresh(), calls), c) == SpecReply(calls, c)
  {
    hide Represents, After, CurrentMessage, HasherModel.Update, Output, Digest, Fresh, Hex.Encode;
    match c
    case Update(_) =>
    case Finalize =>
      RunRepresents(calls);
      FinalizeRepresents(After(Fresh(), calls), CurrentMessage(calls));
    case CalculateHex(input) =>
      FreshHash(input);
  }

  /** So every reply of every run is the prescribed one for the message current at that call. */
  lemma TraceRefinement(calls: seq<Call>)
    ensures forall i :: 0 <= i < |calls| ==> Replies(Fresh(), calls)[i] == SpecReply(calls[..i], calls[i])
  {
    hide After, ReplyTo, SpecReply, Fresh;
    forall i | 0 <= i < |calls|
      ensures Replies(Fresh(), calls)[i] == SpecReply(calls[..i], calls[i])
    {
      ReplyIsSpecified(calls[..i], calls[i]);
    }
  }

  /**
   The two counters are functions of the message's length: while it is open the bits of its whole blocks
   are counted, and once it is closed all its bits.
   */
  lemma CountersOfRun(calls: seq<Call>)
    ensures After(Fresh(), calls).bufferSize == if Closed(calls) then 0 else |CurrentMessage(calls)| % 64
    ensures After(Fresh(), calls).bitLength
         == Mod64(if Closed(calls) then 8 * |CurrentMessage(calls)| else 512 * (|CurrentMessage(calls)| / 64))
  {
    hide HashBlocks, Mod64;
    RunRepresents(calls);
    hide After, CurrentMessage;
    var n := |CurrentMessage(calls)|;
    assert 8 * WholeBlocks(n) == 512 * (n / 64);
  }

  /** A digest prints as 64 lower-case hexadecimal digits that decode to it. */
  lemma PrintedDigest(m: seq<byte>)
    ensures |Hex.Encode(Digest(m))| == 64
    ensures forall c :: c in Hex.Encode(Digest(m)) ==> Hex.IsDigit(c)
    ensures Hex.Decode(Hex.Encode(Digest(m))) == Digest(m)
  {
    Hex.EncodeThenDecode(Digest(m));
  }

  // ---------------------------------------------------------------- chunks

  lemma {:induction false} AbsorbTwice(h: Hasher, a: seq<byte>, b: seq<byte>)
    requires h.Valid()
    ensures Absorb(Absorb(h, a), b) == Absorb(h, a + b)
  {
    hide AbsorbByte;
    if b == [] {
      assert a + b == a;
    } else {
      var b', ab := b[..|b| - 1], a + b;
      AbsorbTwice(h, a, b');
      assert ab[..|ab| - 1] == a + b' && ab[|ab| - 1] == b[|b| - 1];
    }
  }

  lemma {:induction false} AbsorbKeepsOpen(h: Hasher, a: seq<byte>)
    requires h.Valid() && !h.finalized
    ensures !Absorb(h, a).finalized
  {
    hide Compress;
    if a == [] {
      assert Absorb(h, a) == h;
    } else {
      AbsorbKeepsOpen(h, a[..|a| - 1]);
    }
  }

  /**
   Two updates leave every field, stale buffer bytes included, as one update with both pieces of
   data does, finalized or not and whether or not a piece is empty.
   */
  lemma UpdateTwice(h: Hasher, a: seq<byte>, b: seq<byte>)
    requires h.Valid()
    ensures HasherModel.Update(HasherModel.Update(h, a), b) == HasherModel.Update(h, a + b)
  {
    hide Absorb;
    var start := if h.finalized then Fresh() else h;
    AbsorbKeepsOpen(start, a);
    AbsorbTwice(start, a, b);
  }

  function Flatten(chunks: seq<seq<byte>>): seq<byte> {
    if chunks == [] then [] else Flatten(chunks[..|chunks| - 1]) + chunks[|chunks| - 1]
  }

  function UpdateEach(h: Hasher, chunks: seq<seq<byte>>): (h': Hasher)
    requires h.Valid()
    ensures h'.Valid()
  {
    if chunks == [] then h
    else HasherModel.Update(UpdateEach(h, chunks[..|chunks| - 1]), chunks[|chunks| - 1])
  }

  lemma UpdateNothing(h: Hasher)
    requires h.Valid()
    ensures HasherModel.Update(h, []) == if h.finalized then Fresh() else h
  {
  }

  /**
   However a message is cut into updates, the object ends up in the same state. Only no update at all is
   not the update with no data, if the object is finalized: that one starts a new message ...
   */
  lemma {:induction false} ChunksDoNotMatter(h: Hasher, chunks: seq<seq<byte>>)
    requires h.Valid()
    ensures UpdateEach(h, chunks)
         == if chunks == [] && h.finalized then h else HasherModel.Update(h, Flatten(chunks))
  {
    hide HasherModel.Update;
    if chunks == [] {
      UpdateNothing(h);
    } else {
      var before, last := chunks[..|chunks| - 1], chunks[|chunks| - 1];
      ChunksDoNotMatter(h, before);
      if before == [] {
        assert Flatten(chunks) == last;
      } else {
        UpdateTwice(h, Flatten(before), last);
      }
    }
  }

  /** ... and returns the digest of the whole message. */
  lemma ChunksHashWhole(chunks: seq<seq<byte>>)
    ensures Output(UpdateEach(Fresh(), chunks)) == Digest(Flatten(chunks))
  {
    hide Represents, HasherModel.Update, Output, Digest;
    ChunksDoNotMatter(Fresh(), chunks);
    FreshHash(Flatten(chunks));
  }

  // ---------------------------------------------------------------- stale buffer bytes

  /** The same object but for buffer bytes that no call has yet written for this block. */
  ghost predicate SameButStale(g: Hasher, h: Hasher)
    ensures SameButStale(g, h) ==> g.Valid() && h.Valid()
  {
    && g.Valid() && h.Valid()
    && g.(buffer := h.buffer) == h
    && g.buffer[..g.bufferSize] == h.buffer[..h.bufferSize]
  }

  lemma AbsorbByteIgnoresStale(g: Hasher, h: Hasher, b: byte)
    requires SameButStale(g, h)
    ensures SameButStale(AbsorbByte(g, b), AbsorbByte(h, b))
  {
    hide Compress, Mod64;
    var n := g.bufferSize;
    var p, q := g.buffer[n := b], h.buffer[n := b];
    assert p[..n + 1] == g.buffer[..n] + [b] == q[..n + 1];
    if n + 1 == 64 {
      assert p == p[..64] && q == q[..64];
    }
  }

  lemma {:induction false} AbsorbIgnoresStale(g: Hasher, h: Hasher, data: seq<byte>)
    requires SameButStale(g, h)
    ensures SameButStale(Absorb(g, data), Absorb(h, data))
  {
    hide AbsorbByte;
    if data == [] {
      assert Absorb(g, data) == g && Absorb(h, data) == h;
    } else {
      AbsorbIgnoresStale(g, h, data[..|data| - 1]);
      AbsorbByteIgnoresStale(Absorb(g, data[..|data| - 1]), Absorb(h, data[..|data| - 1]), data[|data| - 1]);
    }
  }

  lemma StepIgnoresStale(g: Hasher, h: Hasher, c: Call)
    requires SameButStale(g, h)
    ensures SameButStale(Step(g, c), Step(h, c))
    ensures ReplyTo(g, c) == ReplyTo(h, c)
  {
    hide Absorb, Compress, Mod64, CompressAll, StoreWords, Hex.Encode;
    match c
    case Update(data) =>
      AbsorbIgnoresStale(if g.finalized then Fresh() else g, if h.finalized then Fresh() else h, data);
    case Finalize => assert PadBlocks(g) == PadBlocks(h);
    case CalculateHex(_) =>
  }

  /** No run depends on stale buffer bytes. */
  lemma {:induction false} RunIgnoresStale(g: Hasher, h: Hasher, calls: seq<Call>)
    requires SameButStale(g, h)
    ensures SameButStale(After(g, calls), After(h, calls))
    ensures Replies(g, calls) == Replies(h, calls)
  {
    hide SameButStale, Step, ReplyTo;
    if calls == [] {
      assert Replies(g, calls) == [] == Replies(h, calls);
    } else {
      var n := |calls| - 1;
      var before := calls[..n];
      RunIgnoresStale(g, h, before);
      StepIgnoresStale(After(g, before), After(h, before), calls[n]);
      forall i | 0 <= i < n
        ensures Replies(g, calls)[i] == Replies(h, calls)[i]
      {
        assert before[..i] == calls[..i];
        assert Replies(g, before)[i] == Replies(h, before)[i];
      }
    }
  }

  /** `CalculateHex` does the same, and leaves the same object, whatever came before. */
  lemma CalculateHexForgets(g: Hasher, h: Hasher, input: seq<byte>)
    requires g.Valid() && h.Valid()
    ensures Step(g, CalculateHex(input)) == Step(h, CalculateHex(input))
    ensures ReplyTo(g, CalculateHex(input)) == Text(Hex.Encode(Digest(input)))
    ensures ReplyTo(Step(g, CalculateHex(input)), Finalize) == Hash(Digest(input))
  {
    hide Represents, HasherModel.Update, HasherModel.Finalize, Digest, StoreWords, Hex.Encode;
    FreshHash(input);
    var u := HasherModel.Update(Fresh(), input);
    FinalizeRepresents(u, input);
    FinalizeRepresents(HasherModel.Finalize(u), input);
  }
}
