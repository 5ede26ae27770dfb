/** The native input stream: Node appends to a fixed buffer, one event-loop thread reads and seeks.

`Stream` is the value of the locked fields. `Seek`, `Accept` and their properties are the
sequential meaning; `InputStreamImpl` is the in-place implementation proved against them;
`Next` splits a read into its unlocked accesses and interleaves them with appends.
*/
module InputStream {
  import opened Runs
  import opened Machine

  const CAPACITY: nat := 16 * 1024

  datatype Basis = Begin | End | Unknown

  datatype Outcome = Success | InvalidSeekPosition | InvalidArgument

  datatype Stream = Stream(buffer: seq<byte>, bytesRead: nat, eos: bool) {
    ghost predicate Valid() { |buffer| <= CAPACITY && bytesRead < TWO_64 }
  }

  // ---------------------------------------------------------------- seek and append

  /** The buffer offset that a seek asks for, with every intermediate value as wide as in the source. */
  function SeekTarget(s: Stream, offset: int, basis: Basis): (r: (Outcome, nat))
    requires IsInt64(offset)
    // the two bounds the source asserts after computing the offset
    ensures s.Valid() && r.0.Success? ==> r.1 <= |s.buffer| && r.1 < TWO_64
  {
    match basis
    case Begin =>
      var total := Wrap(s.bytesRead + |s.buffer|);
      if offset < 0 || offset > total || offset < s.bytesRead then
        (InvalidSeekPosition, 0)
      else
        (Success, offset - s.bytesRead)
    case End =>
      if offset > 0 || offset == -TWO_63 || -offset > |s.buffer| then
        (InvalidSeekPosition, 0)
      else
        (Success, |s.buffer| + offset)
    case Unknown => (InvalidArgument, 0)
  }

  function Seek(s: Stream, offset: int, basis: Basis): (r: (Stream, Outcome))
    requires s.Valid() && IsInt64(offset)
    ensures r.0.Valid()
  {
    var (outcome, at) := SeekTarget(s, offset, basis);
    if !outcome.Success? then (s, outcome) else (Dropped(s, at), Success)
  }

  /** The buffer without its first `at` bytes. */
  function Dropped(s: Stream, at: nat): Stream
    requires at <= |s.buffer|
  {
    if at == |s.buffer| then s.(buffer := [], bytesRead := Wrap(s.bytesRead + |s.buffer|))
    else if at > 0 then s.(buffer := s.buffer[at..])
    else s
  }

  /** Exactly which seeks are accepted, and which bytes each accepted one keeps. */
  lemma SeekMeaning(s: Stream, offset: int, basis: Basis)
    requires s.Valid() && IsInt64(offset)
    ensures var (t, outcome) := Seek(s, offset, basis);
            && (outcome.Success? <==>
                  match basis
                  case Begin => s.bytesRead <= offset <= s.bytesRead + |s.buffer|
                  case End => -|s.buffer| <= offset <= 0
                  case Unknown => false)
            && (outcome.Success? && basis.Begin? ==> t.buffer == s.buffer[offset - s.bytesRead..])
            && (outcome.Success? && basis.End? ==> t.buffer == s.buffer[|s.buffer| + offset..])
            && (!outcome.Success? ==> t == s)
            && t.eos == s.eos
            // only a seek to the end moves the position
            && t.bytesRead == (if t.buffer == [] then Wrap(s.bytesRead + |s.buffer|) else s.bytesRead)
  {
    var (outcome, at) := SeekTarget(s, offset, basis);
    if outcome.Success? {
      assert s.buffer[|s.buffer|..] == [];
      assert s.buffer[0..] == s.buffer;
    }
  }

  /** The position follows an accepted seek exactly when it moves nowhere or to the very end: dropping
      part of the buffer leaves `bytesRead` as it was. */
  lemma PositionFollowsSeekIff(s: Stream, offset: int)
    requires s.Valid() && IsInt64(offset)
    requires Seek(s, offset, Begin).1.Success?
    ensures Seek(s, offset, Begin).0.bytesRead == offset <==>
              offset == s.bytesRead || offset == s.bytesRead + |s.buffer|
  {
    SeekMeaning(s, offset, Begin);
  }

  predicate Fits(s: Stream, data: seq<byte>) { |s.buffer| + |data| <= CAPACITY }

  /** An append that does not fit is dropped whole, and its failure is not reported. */
  function Accept(s: Stream, data: seq<byte>): (r: Stream)
    ensures s.Valid() ==> r.Valid()
  {
    if Fits(s, data) then s.(buffer := s.buffer + data) else s
  }

  // ---------------------------------------------------------------- the in-place implementation

  class InputStreamImpl {
    var data: array<byte>
    var len: nat
    var bytesRead: nat
    var eos: bool

    ghost predicate Valid()
      reads this
    {
      data.Length == CAPACITY && len <= CAPACITY && bytesRead < TWO_64
    }

    ghost function Value(): (s: Stream)
      requires Valid()
      reads this, data
      ensures s.Valid()
    {
      Stream(data[..len], bytesRead, eos)
    }

    constructor ()
      ensures Valid() && fresh(data) && data.Length == 16384
      ensures Value() == Stream([], 0, false)
    {
      data := new byte[CAPACITY];
      len, bytesRead, eos := 0, 0, false;
    }

    /** memmove of `count` bytes from `from` to the front of the buffer. */
    method MoveToFront(from: nat, count: nat)
      requires from + count <= data.Length
      modifies data
      ensures data[..count] == old(data[from..from + count])
    {
      var i := 0;
      while i < count
        invariant 0 <= i <= count
        invariant forall k :: 0 <= k < i ==> data[k] == old(data[from + k])
        invariant forall k :: i <= k < data.Length ==> data[k] == old(data[k])
      {
        data[i] := data[from + i];
        i := i + 1;
      }
    }

    /** The offset in the buffer that a seek asks for. */
    method FindTarget(offset: int, basis: Basis) returns (outcome: Outcome, at: nat)
      requires Valid() && IsInt64(offset)
      ensures (outcome, at) == SeekTarget(Value(), offset, basis)
    {
      match basis {
        case Begin =>
          var total := Wrap(bytesRead + len);
          if offset < 0 || offset > total || offset < bytesRead {
            return InvalidSeekPosition, 0;
          }
          return Success, offset - bytesRead;
        case End =>
          if offset > 0 || offset == -TWO_63 || -offset > len {
            return InvalidSeekPosition, 0;
          }
          return Success, len + offset;
        case Unknown =>
          return InvalidArgument, 0;
      }
    }

    /** Moves what is left to the front of the buffer. */
    method DropFront(at: nat)
      requires Valid() && at <= len
      modifies this`len, this`bytesRead, data
      ensures Valid() && data == old(data)
      ensures Value() == Dropped(old(Value()), at)
    {
      if at == len {
        bytesRead := Wrap(bytesRead + len);
        len := 0;
      } else if at > 0 {
        var kept := len - at;
        MoveToFront(at, kept);
        len := kept;
        assert data[..len] == old(data[..len])[at..];
      }
    }

    method SeekTo(offset: int, basis: Basis) returns (outcome: Outcome)
      requires Valid() && IsInt64(offset)
      modifies this`len, this`bytesRead, data
      ensures Valid() && data == old(data)
      ensures (Value(), outcome) == Seek(old(Value()), offset, basis)
    {
      var at;
      outcome, at := FindTarget(offset, basis);
      if outcome.Success? {
        DropFront(at);
      }
    }

    /** One Node append: null marks the end of the stream. */
    method Append(chunk: Option<seq<byte>>)
      requires Valid()
      modifies this`len, this`eos, data
      ensures Valid() && data == old(data)
      ensures Value() == match chunk
                         case None => old(Value()).(eos := true)
                         case Some(bytes) => Accept(old(Value()), bytes)
      // data is taken exactly when it fits the 16 KiB
      ensures chunk.Some? ==> len == old(len) + if old(len) + |chunk.value| <= 16384 then |chunk.value| else 0
    {
      match chunk {
        case None =>
          eos := true;
        case Some(bytes) =>
          if |bytes| <= data.Length - len {
            var i := 0;
            while i < |bytes|
              modifies data
              invariant 0 <= i <= |bytes|
              invariant data[..len] == old(data[..len])
              invariant data[len..len + i] == bytes[..i]
            {
              data[len + i] := bytes[i];
              i := i + 1;
            }
            assert data[..len + |bytes|] == data[..len] + data[len..len + |bytes|];
            len := len + |bytes|;
          }
      }
    }

    /** A read into a destination with `space` free bytes that no append interrupts. */
    method Read(space: nat) returns (delivered: seq<byte>)
      requires Valid() && space < TWO_64
      modifies this`len, this`bytesRead, data
      ensures Valid() && data == old(data)
      ensures |delivered| == if space < old(len) then space else old(len)
      ensures delivered <= old(Value().buffer)
      // the read as a run of its steps: see ReadRuns
      ensures Value() == Seek(old(Value()), ToInt64(Wrap(old(bytesRead) + |delivered|)), Begin).0
      // consumed exactly when the new position still fits the signed offset, else not at all
      ensures delivered + Value().buffer == old(Value().buffer) <==> old(bytesRead) + |delivered| < TWO_63 || delivered == []
      ensures old(bytesRead) + |delivered| >= TWO_63 ==> Value() == old(Value())
    {
      var count := if space > len then len else space;
      delivered := data[..count];
      ghost var before := Value();
      assert delivered == before.buffer[..count];
      CommitConsumesExactlyIff(before, delivered);
      var _ := SeekTo(ToInt64(Wrap(bytesRead + count)), Begin);
    }
  }

  // ---------------------------------------------------------------- interleaved reads and appends

  /** Where the reading thread stands. `space` is the free room of the destination, `seen` the
      first sample of the buffer length, `count` what will be copied, `copied` what has been. */
  datatype Reader =
    | Idle
    | Asked(space: nat)
    | Shrinking(space: nat, seen: nat)
    | Chosen(space: nat, count: nat)
    | Copying(count: nat, copied: seq<byte>)
    | Committing(copied: seq<byte>, offset: int)

  /** The stream, its reader, and the history: every byte ever accepted, every byte handed to a
      destination, every byte removed from the front. `skipped` is set once a seek of its own
      (not the one inside a read) drops bytes. */
  datatype System = System(stream: Stream, reader: Reader,
                           accepted: seq<byte>, delivered: seq<byte>, consumed: seq<byte>, skipped: bool)

  datatype Event =
    | Append(data: seq<byte>)
    | EndOfStream
    | BeginRead(space: nat)
    | CompareLength      // bytes_to_read > impl->buffer.len
    | SampleLength       // bytes_to_read = impl->buffer.len
    | CheckSpace         // the destination refuses what does not fit
    | CopyByte
    | SampleBytesRead    // the copy is complete; the offset of the seek is computed
    | LockedSeek
    | OwnSeek(offset: int, basis: Basis)

  function Init(): System { System(Stream([], 0, false), Idle, [], [], [], false) }

  /** The effect of a seek on the stream and on what has left it. */
  function Sought(s: System, offset: int, basis: Basis): System
    requires s.stream.Valid() && IsInt64(offset)
  {
    var t := Seek(s.stream, offset, basis).0;
    if |t.buffer| <= |s.stream.buffer| then
      s.(stream := t, consumed := s.consumed + s.stream.buffer[..|s.stream.buffer| - |t.buffer|])
    else
      s.(stream := t)
  }

  function Next(s: System, e: Event): Option<System> {
    if !(|s.stream.buffer| <= CAPACITY && s.stream.bytesRead < TWO_64) then None else
    match (e, s.reader)
    case (Append(data), _) =>
      Some(s.(stream := Accept(s.stream, data),
              accepted := if Fits(s.stream, data) then s.accepted + data else s.accepted))
    case (EndOfStream, _) => Some(s.(stream := s.stream.(eos := true)))
    case (BeginRead(space), Idle) =>
      if space < TWO_64 then Some(s.(reader := Asked(space))) else None
    case (CompareLength, Asked(space)) =>
      Some(s.(reader := if space > |s.stream.buffer| then Shrinking(space, |s.stream.buffer|) else Chosen(space, space)))
    case (SampleLength, Shrinking(space, _)) => Some(s.(reader := Chosen(space, |s.stream.buffer|)))
    case (CheckSpace, Chosen(space, count)) =>
      Some(s.(reader := if count > space then Idle else Copying(count, [])))
    case (CopyByte, Copying(count, copied)) =>
      if |copied| < count && |copied| < |s.stream.buffer| then
        Some(s.(reader := Copying(count, copied + [s.stream.buffer[|copied|]])))
      else
        None
    case (SampleBytesRead, Copying(count, copied)) =>
      if |copied| == count then
        Some(s.(reader := Committing(copied, ToInt64(Wrap(s.stream.bytesRead + count))),
                delivered := s.delivered + copied))
      else
        None
    case (LockedSeek, Committing(_, offset)) =>
      if IsInt64(offset) then Some(Sought(s, offset, Begin).(reader := Idle)) else None
    case (OwnSeek(offset, basis), Idle) =>
      if IsInt64(offset) then
        var t := Sought(s, offset, basis);
        Some(t.(skipped := s.skipped || t.stream.buffer != s.stream.buffer))
      else
        None
    case _ => None
  }

  // ---------------------------------------------------------------- an uninterrupted read as a run

  function Least(a: nat, b: nat): nat { if a < b then a else b }

  /** The steps of a read that finds `len` bytes. */
  function ReadEvents(space: nat, len: nat): seq<Event> {
    ChooseEvents(space, len) + (Copies(Least(space, len)) + [SampleBytesRead, LockedSeek])
  }

  function ChooseEvents(space: nat, len: nat): seq<Event> {
    [BeginRead(space), CompareLength] + if space > len then [SampleLength, CheckSpace] else [CheckSpace]
  }

  function Copies(n: nat): seq<Event> { seq(n, i => CopyByte) }

  lemma {:induction false} CopyRuns(s: System, n: nat)
    requires s.stream.Valid() && s.reader.Copying? && |s.reader.copied| + n == s.reader.count <= |s.stream.buffer|
    requires s.reader.copied == s.stream.buffer[..|s.reader.copied|]
    ensures Run(Next, s, Copies(n)) == Some(s.(reader := Copying(s.reader.count, s.stream.buffer[..s.reader.count])))
    decreases n
  {
    if n > 0 {
      assert Copies(n)[1..] == Copies(n - 1);
      CopyRuns(Next(s, CopyByte).value, n - 1);
    }
  }

  lemma ChooseRuns(s: System, space: nat)
    requires s.stream.Valid() && s.reader.Idle? && space < TWO_64
    ensures Run(Next, s, ChooseEvents(space, |s.stream.buffer|)) ==
            Some(s.(reader := Copying(Least(space, |s.stream.buffer|), [])))
  {
    var len := |s.stream.buffer|;
    var t := s.(reader := if space > len then Shrinking(space, len) else Chosen(space, space));
    RunOfTwo(Next, s, BeginRead(space), CompareLength);
    RunAppend(Next, s, [BeginRead(space), CompareLength], if space > len then [SampleLength, CheckSpace] else [CheckSpace]);
    if space > len {
      RunOfTwo(Next, t, SampleLength, CheckSpace);
    } else {
      assert [CheckSpace][1..] == [];
      assert Run(Next, t, [CheckSpace]) == Next(t, CheckSpace);
    }
  }

  lemma SeekIgnoresReader(s: System, reader: Reader, offset: int, basis: Basis)
    requires s.stream.Valid() && IsInt64(offset)
    ensures Sought(s.(reader := reader), offset, basis) == Sought(s, offset, basis).(reader := reader)
  {
  }

  /** The bytes are handed over and the stream is sought past them. */
  function AfterRead(s: System, bytes: seq<byte>): System
    requires s.stream.Valid()
  {
    Sought(s.(delivered := s.delivered + bytes, reader := Idle), ToInt64(Wrap(s.stream.bytesRead + |bytes|)), Begin)
  }

  lemma CommitRuns(s: System)
    requires s.stream.Valid() && s.reader.Copying? && |s.reader.copied| == s.reader.count
    ensures Run(Next, s, [SampleBytesRead, LockedSeek]) == Some(AfterRead(s, s.reader.copied))
  {
    var offset := ToInt64(Wrap(s.stream.bytesRead + s.reader.count));
    var t := s.(delivered := s.delivered + s.reader.copied, reader := Committing(s.reader.copied, offset));
    assert Next(s, SampleBytesRead) == Some(t);
    SeekIgnoresReader(t, Idle, offset, Begin);
    RunOfTwo(Next, s, SampleBytesRead, LockedSeek);
  }

  lemma AfterReadIgnoresReader(s: System, reader: Reader, bytes: seq<byte>)
    requires s.stream.Valid()
    ensures AfterRead(s.(reader := reader), bytes) == AfterRead(s, bytes)
  {
    var t := s.(reader := reader);
    assert t.(delivered := t.delivered + bytes, reader := Idle) == s.(delivered := s.delivered + bytes, reader := Idle);
  }

  lemma CopyAndCommitRuns(s: System, count: nat)
    requires s.stream.Valid() && s.reader == Copying(count, []) && count <= |s.stream.buffer|
    ensures Run(Next, s, Copies(count) + [SampleBytesRead, LockedSeek]) == Some(AfterRead(s, s.stream.buffer[..count]))
  {
    var bytes := s.stream.buffer[..count];
    CopyRuns(s, count);
    RunAppend(Next, s, Copies(count), [SampleBytesRead, LockedSeek]);
    CommitRuns(s.(reader := Copying(count, bytes)));
    AfterReadIgnoresReader(s, Copying(count, bytes), bytes);
  }

  /** A read that no append interrupts delivers what fits and seeks past it. */
  lemma ReadRuns(s: System, space: nat)
    requires s.stream.Valid() && s.reader.Idle? && space < TWO_64
    ensures Run(Next, s, ReadEvents(space, |s.stream.buffer|)) ==
            Some(AfterRead(s, s.stream.buffer[..Least(space, |s.stream.buffer|)]))
  {
    var count := Least(space, |s.stream.buffer|);
    var t := s.(reader := Copying(count, []));
    ChooseRuns(s, space);
    RunAppend(Next, s, ChooseEvents(space, |s.stream.buffer|), Copies(count) + [SampleBytesRead, LockedSeek]);
    CopyAndCommitRuns(t, count);
    AfterReadIgnoresReader(s, Copying(count, []), s.stream.buffer[..count]);
  }

  // ---------------------------------------------------------------- conservation

  /** What the reader has already handed over but not yet removed. */
  function InHand(r: Reader): seq<byte> { if r.Committing? then r.copied else [] }

  ghost predicate ReaderInv(s: System) {
    match s.reader
    case Idle => true
    case Asked(space) => true
    case Shrinking(space, seen) => seen < space && seen <= |s.stream.buffer|
    case Chosen(space, count) => count <= |s.stream.buffer|
    case Copying(count, copied) => |copied| <= count <= |s.stream.buffer| && copied <= s.stream.buffer
    case Committing(copied, offset) =>
      copied <= s.stream.buffer && offset == ToInt64(Wrap(s.stream.bytesRead + |copied|))
  }

  /** Bytes only ever leave from the front; while fewer than 2^63 have been accepted, a read removes
      exactly what it delivers. */
  ghost predicate Inv(s: System) {
    && s.stream.Valid()
    && ReaderInv(s)
    && s.consumed + s.stream.buffer == s.accepted
    && (|s.accepted| < TWO_63 ==>
          && s.stream.bytesRead <= |s.consumed|
          && (!s.skipped ==> s.delivered == s.consumed + InHand(s.reader)))
  }

  /** A seek removes a prefix of the buffer. */
  lemma SeekDropsPrefix(s: Stream, offset: int, basis: Basis)
    requires s.Valid() && IsInt64(offset)
    ensures var t := Seek(s, offset, basis).0;
            && |t.buffer| <= |s.buffer|
            && t.buffer == s.buffer[|s.buffer| - |t.buffer|..]
            && s.buffer[..|s.buffer| - |t.buffer|] + t.buffer == s.buffer
  {
    SeekMeaning(s, offset, basis);
  }

  /** A seek never advances the position past what was removed. */
  lemma SoughtKeepsInv(s: System, offset: int, basis: Basis)
    requires s.stream.Valid() && IsInt64(offset) && s.consumed + s.stream.buffer == s.accepted
    ensures var t := Sought(s, offset, basis);
            && t.stream.Valid()
            && t.consumed + t.stream.buffer == t.accepted == s.accepted
            && (|s.accepted| < TWO_63 && s.stream.bytesRead <= |s.consumed| ==> t.stream.bytesRead <= |t.consumed|)
            && t.stream.buffer == s.stream.buffer[|t.consumed| - |s.consumed|..]
            && s.consumed <= t.consumed
  {
    SeekDropsPrefix(s.stream, offset, basis);
    SeekMeaning(s.stream, offset, basis);
    var t := Seek(s.stream, offset, basis).0;
    var dropped := s.stream.buffer[..|s.stream.buffer| - |t.buffer|];
    assert (s.consumed + dropped) + t.buffer == s.consumed + (dropped + t.buffer);
  }

  /** The seek inside a read removes exactly the bytes just delivered if and only if the new
      position is below 2^63 or nothing was read; otherwise it is refused and removes nothing. */
  lemma CommitConsumesExactlyIff(s: Stream, copied: seq<byte>)
    requires s.Valid() && copied <= s.buffer
    ensures var t := Seek(s, ToInt64(Wrap(s.bytesRead + |copied|)), Begin).0;
            && (copied + t.buffer == s.buffer <==> s.bytesRead + |copied| < TWO_63 || copied == [])
            && (s.bytesRead + |copied| >= TWO_63 ==> t == s)
  {
    var offset := ToInt64(Wrap(s.bytesRead + |copied|));
    SeekMeaning(s, offset, Begin);
    assert copied + s.buffer[|copied|..] == s.buffer;
    assert s.bytesRead + |copied| >= TWO_63 ==> offset < s.bytesRead;
  }

  lemma CommitKeepsInv(s: System)
    requires Inv(s) && s.reader.Committing?
    ensures Inv(Sought(s, s.reader.offset, Begin).(reader := Idle))
  {
    var copied := s.reader.copied;
    var offset := s.reader.offset;
    SoughtKeepsInv(s, offset, Begin);
    if |s.accepted| < TWO_63 {
      CommitConsumesExactlyIff(s.stream, copied);
      var t := Sought(s, offset, Begin);
      assert copied + t.stream.buffer == s.stream.buffer;
      assert t.consumed == s.consumed + copied;
    }
  }

  /** The stream is marked as ended after a run exactly when the run appended null. */
  lemma {:induction false} EndIsMarkedIff(s: System, events: seq<Event>)
    requires Run(Next, s, events).Some?
    ensures Run(Next, s, events).value.stream.eos <==> s.stream.eos || EndOfStream in events
    decreases |events|
  {
    if events != [] {
      EndStep(s, events[0]);
      EndIsMarkedIff(Next(s, events[0]).value, events[1..]);
      assert EndOfStream in events <==> events[0] == EndOfStream || EndOfStream in events[1..];
    }
  }

  lemma EndStep(s: System, e: Event)
    requires Next(s, e).Some?
    ensures Next(s, e).value.stream.eos <==> s.stream.eos || e.EndOfStream?
  {
  }

  /** Wherever the reader stands, data is taken whole exactly when it fits the 16 KiB, and otherwise
      dropped whole; the reader does not notice. */
  lemma AppendTakesDataIff(s: System, data: seq<byte>)
    requires s.stream.Valid()
    ensures Next(s, Append(data)).Some?
    ensures var t := Next(s, Append(data)).value;
            && t.stream.buffer == s.stream.buffer + (if |s.stream.buffer| + |data| <= 16384 then data else [])
            && t.accepted == s.accepted + (if |s.stream.buffer| + |data| <= 16384 then data else [])
            && t.reader == s.reader && t.stream.bytesRead == s.stream.bytesRead && t.stream.eos == s.stream.eos
            && t.delivered == s.delivered && t.consumed == s.consumed
  {
    assert s.stream.buffer + [] == s.stream.buffer && s.accepted + [] == s.accepted;
  }

  lemma AppendKeepsInv(s: System, data: seq<byte>)
    requires Inv(s) && Fits(s.stream, data)
    ensures Inv(Next(s, Append(data)).value)
  {
    assert s.consumed + (s.stream.buffer + data) == (s.consumed + s.stream.buffer) + data;
    assert s.stream.buffer <= s.stream.buffer + data;
  }

  lemma OwnSeekKeepsInv(s: System, offset: int, basis: Basis)
    requires Inv(s) && s.reader.Idle? && IsInt64(offset)
    ensures Inv(Next(s, OwnSeek(offset, basis)).value)
  {
    SoughtKeepsInv(s, offset, basis);
  }

  /** The unlocked steps of a read touch only the reader and what it hands over. */
  lemma ReaderStepKeepsInv(s: System, e: Event)
    requires Inv(s) && Next(s, e).Some?
    requires e.BeginRead? || e.CompareLength? || e.SampleLength? || e.CheckSpace? || e.CopyByte? || e.SampleBytesRead?
    ensures Inv(Next(s, e).value)
  {
  }

  lemma StepKeepsInv(s: System, e: Event)
    requires Inv(s) && Next(s, e).Some?
    ensures Inv(Next(s, e).value)
  {
    match e
    case LockedSeek => CommitKeepsInv(s);
    case OwnSeek(offset, basis) => OwnSeekKeepsInv(s, offset, basis);
    case Append(data) =>
      if Fits(s.stream, data) {
        AppendKeepsInv(s, data);
      }
    case EndOfStream =>
    case _ => ReaderStepKeepsInv(s, e);
  }

  lemma RunsKeepInv(events: seq<Event>)
    ensures Run(Next, Init(), events).Some? ==> Inv(Run(Next, Init(), events).value)
  {
    forall a, e | Inv(a) && Next(a, e).Some? ensures Inv(Next(a, e).value) {
      StepKeepsInv(a, e);
    }
    InvariantOfRuns(Next, Inv, Init(), events);
  }

  /** Byte conservation over every interleaving: what left the stream followed by what is buffered
      is what was accepted. Without seeks of the caller's own, what left is what was delivered, while
      fewer than 2^63 bytes have been accepted. */
  lemma BytesAreConserved(events: seq<Event>)
    ensures var r := Run(Next, Init(), events);
            r.Some? ==>
              var s := r.value;
              && s.consumed + s.stream.buffer == s.accepted
              && (|s.accepted| < TWO_63 && !s.skipped ==>
                    && s.delivered <= s.accepted
                    && (!s.reader.Committing? ==> s.delivered + s.stream.buffer == s.accepted))
  {
    RunsKeepInv(events);
    var r := Run(Next, Init(), events);
    if r.Some? {
      var s := r.value;
      assert Inv(s);
      if |s.accepted| < TWO_63 && s.reader.Committing? && !s.skipped {
        assert s.consumed + s.reader.copied <= s.consumed + s.stream.buffer;
      }
    }
  }

  /** A read fails exactly when its count exceeds the room left, which needs an append between its
      two samples of the length; it delivers and consumes nothing. */
  lemma FailedReadConsumesNothing(s: System, grown: seq<Event>)
    requires Inv(s) && s.reader.Shrinking?
    requires forall i :: 0 <= i < |grown| ==> grown[i].Append? || grown[i].EndOfStream?
    ensures var r := Run(Next, s, grown + [SampleLength, CheckSpace]);
            && r.Some?
            && (r.value.reader.Idle? <==> |r.value.stream.buffer| > s.reader.space)
            && (r.value.reader.Idle? ==> |r.value.stream.buffer| > s.reader.seen)
            && r.value.delivered == s.delivered && r.value.consumed == s.consumed
            && s.stream.buffer <= r.value.stream.buffer
    decreases |grown|
  {
    if grown == [] {
      assert grown + [SampleLength, CheckSpace] == [SampleLength, CheckSpace];
      var t := Next(s, SampleLength).value;
      assert [SampleLength, CheckSpace][1..] == [CheckSpace];
      assert Run(Next, t, [CheckSpace]) == Next(t, CheckSpace) by {
        assert [CheckSpace][1..] == [];
      }
    } else {
      var t := Next(s, grown[0]).value;
      StepKeepsInv(s, grown[0]);
      assert (grown + [SampleLength, CheckSpace])[1..] == grown[1..] + [SampleLength, CheckSpace];
      FailedReadConsumesNothing(t, grown[1..]);
    }
  }

  // ---------------------------------------------------------------- absolute positions

  /** The position counts every byte that has left. */
  ghost predicate Exact(s: System) { s.stream.bytesRead == |s.consumed| }

  /** A seek to an absolute offset keeps the bytes from that offset on, counted from the very first
      byte accepted, exactly when the position counts every byte that has left. */
  lemma AbsoluteSeekIsExactIff(s: System, offset: int)
    requires Inv(s) && s.reader.Idle? && |s.accepted| < TWO_63
    requires IsInt64(offset) && Seek(s.stream, offset, Begin).1.Success?
    ensures 0 <= offset <= |s.accepted|
    ensures Next(s, OwnSeek(offset, Begin)).Some?
    ensures Next(s, OwnSeek(offset, Begin)).value.stream.buffer == s.accepted[offset..] <==> Exact(s)
  {
    SeekMeaning(s.stream, offset, Begin);
    var kept := Seek(s.stream, offset, Begin).0.buffer;
    assert |kept| == s.stream.bytesRead + |s.stream.buffer| - offset;
    if Exact(s) {
      assert (s.consumed + s.stream.buffer)[offset..] == s.stream.buffer[offset - |s.consumed|..];
    }
  }

  /** Bytes were removed and others stayed. */
  predicate IsPartial(s: System, t: System) { t.consumed != s.consumed && t.stream.buffer != [] }

  /** A seek that drops part of the buffer leaves the position behind by as much as it drops. */
  lemma SoughtMovesPosition(s: System, offset: int, basis: Basis)
    requires Inv(s) && IsInt64(offset) && |s.accepted| < TWO_63
    ensures var t := Sought(s, offset, basis);
            && |s.consumed| <= |t.consumed|
            && |t.consumed| - t.stream.bytesRead ==
               |s.consumed| - s.stream.bytesRead + (if IsPartial(s, t) then |t.consumed| - |s.consumed| else 0)
  {
    SeekMeaning(s.stream, offset, basis);
    SoughtKeepsInv(s, offset, basis);
  }

  lemma StepMovesPosition(s: System, e: Event)
    requires Inv(s) && Next(s, e).Some? && |Next(s, e).value.accepted| < TWO_63
    ensures var t := Next(s, e).value;
            && |s.accepted| <= |t.accepted| && |s.consumed| <= |t.consumed|
            && |t.consumed| - t.stream.bytesRead ==
               |s.consumed| - s.stream.bytesRead + (if IsPartial(s, t) then |t.consumed| - |s.consumed| else 0)
  {
    if e.LockedSeek? {
      SoughtMovesPosition(s, s.reader.offset, Begin);
    } else if e.OwnSeek? {
      SoughtMovesPosition(s, e.offset, e.basis);
    }
  }

  /** No step of the run removes part of what is buffered. */
  ghost predicate NeverPartial(s: System, events: seq<Event>)
    requires Run(Next, s, events).Some?
    decreases |events|
  {
    events == [] ||
    (!IsPartial(s, Next(s, events[0]).value) && NeverPartial(Next(s, events[0]).value, events[1..]))
  }

  lemma {:induction false} AcceptedGrows(s: System, events: seq<Event>)
    requires Run(Next, s, events).Some?
    ensures |s.accepted| <= |Run(Next, s, events).value.accepted|
    decreases |events|
  {
    if events != [] {
      AcceptedGrows(Next(s, events[0]).value, events[1..]);
    }
  }

  lemma {:induction false} PositionStaysExactIff(s: System, events: seq<Event>)
    requires Inv(s) && Run(Next, s, events).Some? && |Run(Next, s, events).value.accepted| < TWO_63
    ensures Exact(Run(Next, s, events).value) <==> Exact(s) && NeverPartial(s, events)
    decreases |events|
  {
    if events != [] {
      var t := Next(s, events[0]).value;
      AcceptedGrows(t, events[1..]);
      StepMovesPosition(s, events[0]);
      StepKeepsInv(s, events[0]);
      PositionStaysExactIff(t, events[1..]);
    }
  }

  /** Absolute positions are right after a run exactly when every read and seek of it removed either
      nothing or everything that was buffered. */
  lemma PositionIsExactIff(events: seq<Event>)
    requires Run(Next, Init(), events).Some? && |Run(Next, Init(), events).value.accepted| < TWO_63
    ensures Exact(Run(Next, Init(), events).value) <==> NeverPartial(Init(), events)
  {
    PositionStaysExactIff(Init(), events);
  }

  const TWO_BYTES: System := System(Stream([1, 2], 0, false), Idle, [1, 2], [], [], false)
  const ONE_READ: System := System(Stream([2], 0, false), Idle, [1, 2], [1], [1], false)

  lemma OneByteIsRead()
    ensures AfterRead(TWO_BYTES, [1]) == ONE_READ
  {
    SeekMeaning(TWO_BYTES.stream, 1, Begin);
    assert [1, 2][1..] == [2] && [1, 2][..1] == [1] && [] + [1] == [1];
  }

  /** After one of two bytes has been read, a seek to offset zero succeeds and keeps the second one. */
  lemma SeekToZeroKeepsTheSecondByte()
    ensures Run(Next, Init(), [Append([1, 2])] + ReadEvents(1, 2)) == Some(ONE_READ)
    ensures Seek(ONE_READ.stream, 0, Begin) == (ONE_READ.stream, Success)
  {
    assert [] + [1, 2] == [1, 2];
    assert Run(Next, Init(), [Append([1, 2])]) == Some(TWO_BYTES) by { assert [Append([1, 2])][1..] == []; }
    RunAppend(Next, Init(), [Append([1, 2])], ReadEvents(1, 2));
    assert TWO_BYTES.stream.buffer[..1] == [1];
    ReadRuns(TWO_BYTES, 1);
    OneByteIsRead();
  }
}
