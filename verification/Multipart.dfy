/** Multipart form data: one format, two encoders. Text is its bytes. */
module Multipart {
  import opened Bits

  type Bytes = seq<Byte>

  const CR: Byte := 13
  const LF: Byte := 10
  const DASH: Byte := 45
  const COLON: Byte := 58
  const SPACE: Byte := 32
  const CRLF: Bytes := [CR, LF]
  const DASHES: Bytes := [DASH, DASH]

  datatype Header = Header(name: Bytes, value: Bytes)
  datatype Part = Part(headers: seq<Header>, body: Bytes)

  // ---------- The format ----------

  datatype BoundaryType = InitialBoundary | Encapsulated | FinalBoundary

  function BoundaryData(t: BoundaryType, boundary: Bytes): Bytes {
    match t
    case InitialBoundary => DASHES + boundary + CRLF
    case Encapsulated => CRLF + DASHES + boundary + CRLF
    case FinalBoundary => CRLF + DASHES + boundary + DASHES + CRLF
  }

  function HeaderLine(h: Header): Bytes {
    h.name + [COLON, SPACE] + h.value + CRLF
  }

  function HeaderLines(headers: seq<Header>): Bytes {
    if headers == [] then [] else HeaderLine(headers[0]) + HeaderLines(headers[1..])
  }

  function HeaderData(headers: seq<Header>): Bytes {
    HeaderLines(headers) + CRLF
  }

  /** One part as its boundary flags say. */
  function PartData(boundary: Bytes, p: Part, initial: bool, final: bool): Bytes {
    BoundaryData(if initial then InitialBoundary else Encapsulated, boundary)
    + HeaderData(p.headers) + p.body
    + (if final then BoundaryData(FinalBoundary, boundary) else [])
  }

  /** The parts from number `i` on. */
  function PartsData(boundary: Bytes, parts: seq<Part>, i: nat): Bytes
    requires i <= |parts|
    decreases |parts| - i
  {
    if i == |parts| then []
    else PartData(boundary, parts[i], i == 0, i == |parts| - 1) + PartsData(boundary, parts, i + 1)
  }

  function Encoded(boundary: Bytes, parts: seq<Part>): Bytes {
    PartsData(boundary, parts, 0)
  }

  // ---------- What a call encodes ----------

  /** A part as a call finds it: with what is left of its body, and its boundary flags. */
  datatype Entry = Entry(part: Part, initial: bool, final: bool)

  function EntriesData(boundary: Bytes, entries: seq<Entry>): Bytes {
    if entries == [] then []
    else PartData(boundary, entries[0].part, entries[0].initial, entries[0].final) + EntriesData(boundary, entries[1..])
  }

  /** A call flags the first part and the last, and clears no flag. */
  function Marked(entries: seq<Entry>): (r: seq<Entry>)
    ensures |r| == |entries|
  {
    seq(|entries|, i requires 0 <= i < |entries| =>
      Entry(entries[i].part, entries[i].initial || i == 0, entries[i].final || i == |entries| - 1))
  }

  /** Parts that no call has flagged or read. */
  function Unencoded(parts: seq<Part>): (r: seq<Entry>)
    ensures |r| == |parts|
  {
    seq(|parts|, i requires 0 <= i < |parts| => Entry(parts[i], false, false))
  }

  function Emptied(e: Entry): Entry {
    Entry(Part(e.part.headers, []), e.initial, e.final)
  }

  /** What a call leaves: the flags, and bodies read to their ends. */
  function Drained(entries: seq<Entry>): (r: seq<Entry>)
    ensures |r| == |entries|
  {
    seq(|entries|, i requires 0 <= i < |entries| => Emptied(entries[i]))
  }

  function Bodiless(parts: seq<Part>): (r: seq<Part>)
    ensures |r| == |parts|
  {
    seq(|parts|, i requires 0 <= i < |parts| => Part(parts[i].headers, []))
  }

  lemma {:induction false} MarkedData(boundary: Bytes, parts: seq<Part>, i: nat)
    requires i <= |parts|
    ensures EntriesData(boundary, Marked(Unencoded(parts))[i..]) == PartsData(boundary, parts, i)
    decreases |parts| - i
  {
    hide PartData;
    var entries := Marked(Unencoded(parts));
    if i < |parts| {
      assert entries[i..][0] == Entry(parts[i], i == 0, i == |parts| - 1) && entries[i..][1..] == entries[i + 1..];
      MarkedData(boundary, parts, i + 1);
    }
  }

  /** A first call encodes the format of the parts. */
  lemma FirstCall(boundary: Bytes, parts: seq<Part>)
    ensures EntriesData(boundary, Marked(Unencoded(parts))) == Encoded(boundary, parts)
  {
    hide EntriesData, PartsData;
    MarkedData(boundary, parts, 0);
    assert Marked(Unencoded(parts))[0..] == Marked(Unencoded(parts));
  }

  /** A second call encodes the parts without their bodies. */
  lemma SecondCall(boundary: Bytes, parts: seq<Part>)
    ensures EntriesData(boundary, Marked(Drained(Marked(Unencoded(parts))))) == Encoded(boundary, Bodiless(parts))
  {
    hide EntriesData, PartsData;
    FirstCall(boundary, Bodiless(parts));
    assert Marked(Drained(Marked(Unencoded(parts)))) == Marked(Unencoded(Bodiless(parts)));
  }

  /** A part appended after a call goes behind the closing boundary that the call gave to the
      last part before it: no flag is cleared. */
  lemma AppendedAfterACall(boundary: Bytes, parts: seq<Part>, late: Part)
    requires parts != []
    ensures
      var found := Drained(Marked(Unencoded(parts))) + [Entry(late, false, false)];
      EntriesData(boundary, Marked(found)) == Encoded(boundary, Bodiless(parts)) + PartData(boundary, late, false, true)
  {
    hide EntriesData, PartsData, PartData;
    var found := Drained(Marked(Unencoded(parts))) + [Entry(late, false, false)];
    FirstCall(boundary, Bodiless(parts));
    assert Marked(found) == Marked(Unencoded(Bodiless(parts))) + [Entry(late, false, true)];
    EntriesCat(boundary, Marked(Unencoded(Bodiless(parts))), Entry(late, false, true));
  }

  lemma {:induction false} EntriesCat(boundary: Bytes, a: seq<Entry>, e: Entry)
    ensures EntriesData(boundary, a + [e])
         == EntriesData(boundary, a) + PartData(boundary, e.part, e.initial, e.final)
  {
    hide PartData;
    if a == [] {
      assert a + [e] == [e] && [e][1..] == [];
      assert EntriesData(boundary, [e]) == PartData(boundary, e.part, e.initial, e.final) + EntriesData(boundary, []);
    } else {
      assert (a + [e])[0] == a[0] && (a + [e])[1..] == a[1..] + [e];
      EntriesCat(boundary, a[1..], e);
    }
  }

  lemma {:induction false} PartsLength(boundary: Bytes, parts: seq<Part>, i: nat)
    requires i <= |parts|
    ensures |PartsData(boundary, Bodiless(parts), i)| <= |PartsData(boundary, parts, i)|
    ensures |PartsData(boundary, Bodiless(parts), i)| == |PartsData(boundary, parts, i)|
       <==> forall k | i <= k < |parts| :: parts[k].body == []
    decreases |parts| - i
  {
    hide BoundaryData, HeaderData;
    if i < |parts| { PartsLength(boundary, parts, i + 1); }
  }

  /** So the second result is the first exactly when all bodies are empty. */
  lemma SecondCallAgrees(boundary: Bytes, parts: seq<Part>)
    ensures EntriesData(boundary, Marked(Drained(Marked(Unencoded(parts))))) == Encoded(boundary, parts)
       <==> forall k | 0 <= k < |parts| :: parts[k].body == []
  {
    hide EntriesData, PartsData;
    SecondCall(boundary, parts);
    PartsLength(boundary, parts, 0);
    if forall k | 0 <= k < |parts| :: parts[k].body == [] {
      assert Bodiless(parts) == parts;
    }
  }

  // ---------- Streams ----------

  /** A stream of bytes that arrive in pieces: each read yields between one byte and as
      many as asked for, as `pace` says, until the end, or fails, as `failing` says. It is
      opened once; closed, it yields nothing. */
  class InputStream {
    const content: Bytes
    const pace: nat -> nat
    const failing: nat -> bool
    var position: nat
    var readCount: nat
    var closed: bool
    var streamError: bool

    ghost predicate Valid()
      reads this
    {
      position <= |content|
    }

    /** What can still be read. */
    ghost function Left(): Bytes
      requires Valid()
      reads this
    {
      if closed then [] else content[position..]
    }

    constructor (data: Bytes, schedule: nat -> nat, failures: nat -> bool)
      ensures Valid() && Left() == data && !streamError
    {
      content, pace, failing := data, schedule, failures;
      position, readCount, closed, streamError := 0, 0, false, false;
    }

    method Close()
      requires Valid()
      modifies this
      ensures Valid() && Left() == [] && streamError == old(streamError)
    {
      closed := true;
    }

    /** Zero bytes mean the end, if the stream has no error. An error stays. */
    method Read(maxLength: nat) returns (data: Bytes)
      requires Valid() && maxLength > 0
      modifies this
      ensures Valid() && |data| <= maxLength && old(Left()) == data + Left()
      ensures old(streamError) ==> streamError
      ensures !streamError ==> (data == [] <==> old(Left()) == [])
    {
      streamError := streamError || failing(readCount);
      readCount := readCount + 1;
      if streamError {
        return [];
      }
      var left := if closed then 0 else |content| - position;
      var n := pace(readCount);
      n := if n == 0 then 1 else n;
      n := if n > maxLength then maxLength else n;
      n := if n > left then left else n;
      data := content[position..position + n];
      position := position + n;
    }
  }

  /** A stream that takes at least one byte of what it is offered, as `pace` says, or fails,
      as `failing` says. It has no space when `full` says so; `refusals` counts how often it
      answered that. */
  class OutputStream {
    var written: Bytes
    const pace: nat -> nat
    const failing: nat -> bool
    const full: nat -> bool
    var writeCount: nat
    var refusals: nat
    var streamError: bool

    constructor (schedule: nat -> nat, failures: nat -> bool, fullness: nat -> bool)
      ensures written == [] && refusals == 0 && !streamError
    {
      written, pace, failing, full := [], schedule, failures, fullness;
      writeCount, refusals, streamError := 0, 0, false;
    }

    method HasSpaceAvailable() returns (space: bool)
      modifies this
      ensures written == old(written) && streamError == old(streamError)
      ensures refusals == old(refusals) + (if space then 0 else 1)
    {
      space := !full(writeCount + refusals);
      if !space {
        refusals := refusals + 1;
      }
    }

    method Write(buffer: Bytes, maxLength: nat) returns (count: nat)
      requires 0 < maxLength <= |buffer|
      modifies this
      ensures refusals == old(refusals) && (old(streamError) ==> streamError)
      ensures count <= maxLength && (!streamError ==> count > 0)
      ensures written == old(written) + buffer[..count]
    {
      streamError := streamError || failing(writeCount);
      writeCount := writeCount + 1;
      if streamError {
        return 0;
      }
      count := pace(writeCount);
      count := if count == 0 then 1 else if count > maxLength then maxLength else count;
      written := written + buffer[..count];
    }
  }

  const STREAM_BUFFER_SIZE: nat := 1024

  // ---------- The two encoders ----------

  class BodyPart {
    const headers: seq<Header>
    const bodyStream: InputStream
    var hasInitialBoundary: bool
    var hasFinalBoundary: bool

    constructor (h: seq<Header>, s: InputStream)
      ensures headers == h && bodyStream == s && !hasInitialBoundary && !hasFinalBoundary
    {
      headers, bodyStream, hasInitialBoundary, hasFinalBoundary := h, s, false, false;
    }

    ghost function Value(): Entry
      requires bodyStream.Valid()
      reads this, bodyStream
    {
      Entry(Part(headers, bodyStream.Left()), hasInitialBoundary, hasFinalBoundary)
    }
  }

  /** No two parts are the same object; their streams may be. */
  predicate Separate(parts: seq<BodyPart>) {
    forall i, j | 0 <= i < j < |parts| :: parts[i] != parts[j]
  }

  /** An earlier part has the same stream, and leaves nothing in it. */
  predicate Shared(parts: seq<BodyPart>, k: nat)
    requires k < |parts|
  {
    exists j | 0 <= j < k :: parts[j].bodyStream == parts[k].bodyStream
  }

  ghost function ValueAt(parts: seq<BodyPart>, k: nat): Entry
    requires k < |parts| && parts[k].bodyStream.Valid()
    reads parts[k], parts[k].bodyStream
  {
    if Shared(parts, k) then Emptied(parts[k].Value()) else parts[k].Value()
  }

  function Streams(parts: seq<BodyPart>): (r: set<InputStream>)
    ensures forall k | 0 <= k < |parts| :: parts[k].bodyStream in r
  {
    set p | p in parts :: p.bodyStream
  }

  ghost predicate Streaming(parts: seq<BodyPart>)
    reads Streams(parts)
  {
    forall i | 0 <= i < |parts| :: parts[i].bodyStream.Valid()
  }

  ghost function Values(parts: seq<BodyPart>): (r: seq<Entry>)
    requires Streaming(parts)
    reads parts, Streams(parts)
    ensures |r| == |parts| && forall k | 0 <= k < |r| :: r[k] == ValueAt(parts, k)
  {
    seq(|parts|, i
      requires 0 <= i < |parts| && parts[i].bodyStream.Valid()
      reads if 0 <= i < |parts| then {parts[i] as object, parts[i].bodyStream} else {}
    => ValueAt(parts, i))
  }

  lemma AppendedValue(parts: seq<BodyPart>, p: BodyPart)
    requires Streaming(parts) && p.bodyStream.Valid()
    ensures Streaming(parts + [p])
    ensures var shared := exists q | q in parts :: q.bodyStream == p.bodyStream;
      Values(parts + [p]) == Values(parts) + [if shared then Emptied(p.Value()) else p.Value()]
  {
    forall k | 0 <= k < |parts| ensures ValueAt(parts + [p], k) == ValueAt(parts, k) {
      assert forall j | 0 <= j <= k :: (parts + [p])[j] == parts[j];
    }
    forall j | 0 <= j < |parts| ensures (parts + [p])[j] == parts[j] && parts[j] in parts {
    }
    if Shared(parts + [p], |parts|) {
      var j :| 0 <= j < |parts| && (parts + [p])[j].bodyStream == p.bodyStream;
      assert parts[j] in parts;
    }
  }

  /** The entries describe the parts, but for what is left in their streams. */
  ghost predicate Describe(parts: seq<BodyPart>, entries: seq<Entry>)
    reads parts
  {
    && |entries| == |parts|
    && forall k | 0 <= k < |parts| ::
      && entries[k] == Entry(Part(parts[k].headers, entries[k].part.body), parts[k].hasInitialBoundary, parts[k].hasFinalBoundary)
      && (Shared(parts, k) ==> entries[k].part.body == [])
  }

  /** What is left in the stream of each part. */
  ghost function Lefts(parts: seq<BodyPart>): (r: seq<Bytes>)
    requires Streaming(parts)
    reads Streams(parts)
    ensures |r| == |parts| && forall k | 0 <= k < |r| :: r[k] == parts[k].bodyStream.Left()
  {
    seq(|parts|, i
      requires 0 <= i < |parts| && parts[i].bodyStream.Valid()
      reads if 0 <= i < |parts| then {parts[i].bodyStream} else {}
    => parts[i].bodyStream.Left())
  }

  /** The streams of the parts before number `i` have been read, those of the others have not. */
  predicate ReadBefore(parts: seq<BodyPart>, entries: seq<Entry>, lefts: seq<Bytes>, i: nat) {
    && |lefts| == |entries| == |parts|
    && (forall k | 0 <= k < i && k < |parts| :: lefts[k] == [])
    && (forall k | i <= k < |parts| && !Shared(parts, k) :: lefts[k] == entries[k].part.body)
  }

  lemma NoneRead(parts: seq<BodyPart>)
    requires Streaming(parts)
    ensures Describe(parts, Values(parts)) && ReadBefore(parts, Values(parts), Lefts(parts), 0)
  {
  }

  lemma OneRead(parts: seq<BodyPart>, entries: seq<Entry>, before: seq<Bytes>, after: seq<Bytes>, i: nat)
    requires i < |parts| && ReadBefore(parts, entries, before, i) && |after| == |parts|
    requires forall k | 0 <= k < |parts| ::
      after[k] == if parts[k].bodyStream == parts[i].bodyStream then [] else before[k]
    ensures ReadBefore(parts, entries, after, i + 1)
  {
  }

  /** Part number `i` is as its entry says when it is due. */
  lemma Due(parts: seq<BodyPart>, entries: seq<Entry>, i: nat)
    requires i < |parts| && Describe(parts, entries) && Streaming(parts)
    requires ReadBefore(parts, entries, Lefts(parts), i)
    ensures parts[i].Value() == entries[i]
  {
  }

  lemma AllRead(parts: seq<BodyPart>, entries: seq<Entry>)
    requires Describe(parts, entries) && Streaming(parts) && ReadBefore(parts, entries, Lefts(parts), |parts|)
    ensures Values(parts) == Drained(entries)
  {
    assert forall k | 0 <= k < |parts| :: parts[k].bodyStream.Left() == Lefts(parts)[k] == [];
  }

  class MultipartFormData {
    const boundary: Bytes
    var bodyParts: seq<BodyPart>

    constructor (b: Bytes)
      ensures boundary == b && bodyParts == [] && Valid()
    {
      boundary, bodyParts := b, [];
    }

    ghost predicate Valid()
      reads this, Streams(bodyParts)
    {
      Separate(bodyParts) && Streaming(bodyParts)
    }

    /** A new part without flags, behind the others. */
    method Append(stream: InputStream, headers: seq<Header>)
      requires Valid() && stream.Valid()
      modifies this
      ensures Valid() && |bodyParts| == old(|bodyParts|) + 1 && bodyParts[..old(|bodyParts|)] == old(bodyParts)
      ensures var shared := exists p | p in old(bodyParts) :: p.bodyStream == stream;
        Values(bodyParts)
        == old(Values(bodyParts)) + [Entry(Part(headers, if shared then [] else stream.Left()), false, false)]
    {
      var part := new BodyPart(headers, stream);
      ghost var n := |bodyParts|;
      bodyParts := bodyParts + [part];
      AppendedValue(bodyParts[..n], part);
      assert bodyParts[..n] == old(bodyParts);
    }

    /** Flags the first part and the last. */
    method MarkBoundaries()
      requires Valid()
      modifies bodyParts
      ensures Valid() && Values(bodyParts) == Marked(old(Values(bodyParts)))
    {
      if bodyParts != [] {
        bodyParts[0].hasInitialBoundary := true;
        bodyParts[|bodyParts| - 1].hasFinalBoundary := true;
      }
    }

    /** Everything in memory; fails exactly when a stream does. */
    method Encode() returns (ok: bool, encoded: Bytes)
      requires Valid()
      modifies bodyParts, Streams(bodyParts)
      ensures Valid() && (ok <==> forall i | 0 <= i < |bodyParts| :: !bodyParts[i].bodyStream.streamError)
      ensures ok ==> encoded == EntriesData(boundary, Marked(old(Values(bodyParts))))
      ensures ok ==> Values(bodyParts) == Drained(Marked(old(Values(bodyParts))))
    {
      hide EntriesData, Marked, Drained, Values;
      MarkBoundaries();
      ok, encoded := EncodeParts();
    }

    /** The parts as they are flagged. */
    method EncodeParts() returns (ok: bool, encoded: Bytes)
      requires Valid()
      modifies Streams(bodyParts)
      ensures Valid() && (ok <==> forall i | 0 <= i < |bodyParts| :: !bodyParts[i].bodyStream.streamError)
      ensures ok ==> encoded == EntriesData(boundary, old(Values(bodyParts)))
      ensures ok ==> Values(bodyParts) == Drained(old(Values(bodyParts)))
    {
      hide EntriesData, PartData, Drained, Values, UpTo, Describe, ReadBefore, Lefts, Separate, Streams;
      var parts := bodyParts;
      ghost var entries := Values(parts);
      NoneRead(parts);
      encoded := [];
      UpToStart(boundary, entries);
      for i := 0 to |parts|
        invariant |entries| == |parts| && Describe(parts, entries)
        invariant Streaming(parts) && ReadBefore(parts, entries, Lefts(parts), i)
        invariant forall k | 0 <= k < i :: !parts[k].bodyStream.streamError
        invariant UpTo(boundary, entries, i, encoded)
      {
        UpToNext(boundary, entries, i, encoded);
        Due(parts, entries, i);
        ghost var lefts := Lefts(parts);
        ghost var e := entries[i];
        var p := parts[i];
        assert p in parts && p.Value() == e;
        var data;
        ok, data := EncodePart(p);
        if !ok {
          return false, [];
        }
        assert data == PartData(boundary, e.part, e.initial, e.final);
        forall k | 0 <= k <= i ensures !parts[k].bodyStream.streamError {
          assert parts[k].bodyStream != p.bodyStream ==> k < i;
        }
        OneRead(parts, entries, lefts, Lefts(parts), i);
        encoded := encoded + data;
      }
      UpToEnd(boundary, entries, encoded);
      AllRead(parts, entries);
      ok := true;
    }

    method EncodePart(p: BodyPart) returns (ok: bool, encoded: Bytes)
      requires p.bodyStream.Valid()
      modifies p.bodyStream
      ensures p.bodyStream.Valid() && p.bodyStream.Left() == [] && (ok <==> !p.bodyStream.streamError)
      ensures ok ==> var e := old(p.Value()); encoded == PartData(boundary, e.part, e.initial, e.final)
    {
      encoded := BoundaryData(if p.hasInitialBoundary then InitialBoundary else Encapsulated, boundary);
      encoded := encoded + HeaderData(p.headers);
      var body;
      ok, body := EncodeBodyStream(p.bodyStream);
      if !ok {
        return false, [];
      }
      encoded := encoded + body;
      if p.hasFinalBoundary {
        encoded := encoded + BoundaryData(FinalBoundary, boundary);
      }
    }

    /** All that is left in the stream; fails exactly when the stream does. */
    method EncodeBodyStream(s: InputStream) returns (ok: bool, encoded: Bytes)
      requires s.Valid()
      modifies s
      ensures s.Valid() && s.Left() == [] && (ok <==> !s.streamError)
      ensures ok ==> encoded == old(s.Left())
    {
      encoded := [];
      ghost var body := s.Left();
      assert body == [] + s.Left();
      while true
        invariant s.Valid() && body == encoded + s.Left()
        decreases |s.Left()|
      {
        var buffer := s.Read(STREAM_BUFFER_SIZE);
        if s.streamError {
          s.Close();
          return false, [];
        }
        CatAssociates(encoded, buffer, s.Left());
        if |buffer| > 0 {
          encoded := encoded + buffer;
        } else {
          assert encoded + [] == encoded;
          break;
        }
      }
      s.Close();
      ok := true;
    }

    /** Piece by piece to an output stream. It fails when a stream does; else the output is
        complete exactly when the output stream never answered that it has no space. */
    method WriteEncodedData(out: OutputStream) returns (ok: bool)
      requires Valid() && out.written == []
      modifies bodyParts, Streams(bodyParts), out
      ensures Valid()
      ensures !ok ==> out.streamError || exists i | 0 <= i < |bodyParts| :: bodyParts[i].bodyStream.streamError
      ensures ok ==> Values(bodyParts) == Drained(Marked(old(Values(bodyParts))))
      ensures ok ==> Wrote([], old(out.refusals), EntriesData(boundary, Marked(old(Values(bodyParts)))), out.written, out.refusals)
    {
      hide EntriesData, Marked, Drained, Values, Wrote;
      MarkBoundaries();
      ok := WriteParts(out);
    }

    /** The parts as they are flagged. */
    method WriteParts(out: OutputStream) returns (ok: bool)
      requires Valid() && out.written == []
      modifies Streams(bodyParts), out
      ensures Valid()
      ensures !ok ==> out.streamError || exists i | 0 <= i < |bodyParts| :: bodyParts[i].bodyStream.streamError
      ensures ok ==> Values(bodyParts) == Drained(old(Values(bodyParts)))
      ensures ok ==> Wrote([], old(out.refusals), EntriesData(boundary, old(Values(bodyParts))), out.written, out.refusals)
    {
      hide EntriesData, PartData, Drained, Values, UpTo, Wrote, Describe, ReadBefore, Lefts, Streams;
      var parts := bodyParts;
      ghost var entries := Values(parts);
      NoneRead(parts);
      WroteNothing([], out.refusals);
      ghost var before := out.refusals;
      ghost var done: Bytes := [];
      UpToStart(boundary, entries);
      for i := 0 to |parts|
        invariant |entries| == |parts| && Describe(parts, entries)
        invariant Streaming(parts) && ReadBefore(parts, entries, Lefts(parts), i)
        invariant UpTo(boundary, entries, i, done)
        invariant Wrote([], before, done, out.written, out.refusals)
      {
        UpToNext(boundary, entries, i, done);
        Due(parts, entries, i);
        ghost var lefts := Lefts(parts);
        ghost var e := entries[i];
        ghost var data := PartData(boundary, e.part, e.initial, e.final);
        ghost var w, n := out.written, out.refusals;
        var p := parts[i];
        assert p in parts && p.Value() == e;
        ok := WritePart(p, out);
        if !ok {
          return false;
        }
        OneRead(parts, entries, lefts, Lefts(parts), i);
        WroteBoth([], before, done, w, n, data, out.written, out.refusals);
        done := done + data;
      }
      UpToEnd(boundary, entries, done);
      AllRead(parts, entries);
      ok := true;
    }

    method WritePart(p: BodyPart, out: OutputStream) returns (ok: bool)
      requires p.bodyStream.Valid()
      modifies p.bodyStream, out
      ensures p.bodyStream.Valid()
      ensures !ok ==> p.bodyStream.streamError || out.streamError
      ensures ok ==> p.bodyStream.Left() == []
      ensures ok ==> var e := old(p.Value());
        Wrote(old(out.written), old(out.refusals), PartData(boundary, e.part, e.initial, e.final), out.written, out.refusals)
    {
      hide BoundaryData, HeaderData, Wrote;
      ghost var w0, n0 := out.written, out.refusals;
      ghost var opening := BoundaryData(if p.hasInitialBoundary then InitialBoundary else Encapsulated, boundary);
      ghost var body := p.bodyStream.Left();
      ok := WriteBuffer(BoundaryData(if p.hasInitialBoundary then InitialBoundary else Encapsulated, boundary), out);
      if !ok {
        return false;
      }
      ghost var w1, n1 := out.written, out.refusals;
      ok := WriteBuffer(HeaderData(p.headers), out);
      if !ok {
        return false;
      }
      WroteBoth(w0, n0, opening, w1, n1, HeaderData(p.headers), out.written, out.refusals);
      ghost var w2, n2 := out.written, out.refusals;
      ok := WriteBodyStream(p.bodyStream, out);
      if !ok {
        return false;
      }
      WroteBoth(w0, n0, opening + HeaderData(p.headers), w2, n2, body, out.written, out.refusals);
      ghost var w3, n3 := out.written, out.refusals;
      if p.hasFinalBoundary {
        ok := WriteBuffer(BoundaryData(FinalBoundary, boundary), out);
        if !ok {
          return false;
        }
        WroteBoth(w0, n0, opening + HeaderData(p.headers) + body, w3, n3,
          BoundaryData(FinalBoundary, boundary), out.written, out.refusals);
      } else {
        assert opening + HeaderData(p.headers) + body + [] == opening + HeaderData(p.headers) + body;
      }
    }

    method WriteBodyStream(s: InputStream, out: OutputStream) returns (ok: bool)
      requires s.Valid()
      modifies s, out
      ensures s.Valid() && s.Left() == []
      ensures !ok ==> s.streamError || out.streamError
      ensures ok ==> !s.streamError
      ensures ok ==> Wrote(old(out.written), old(out.refusals), old(s.Left()), out.written, out.refusals)
    {
      hide Wrote;
      ghost var w0, n0 := out.written, out.refusals;
      ghost var body := s.Left();
      ghost var done: Bytes := [];
      assert body == [] + s.Left();
      WroteNothing(w0, n0);
      while true
        invariant s.Valid() && body == done + s.Left()
        invariant Wrote(w0, n0, done, out.written, out.refusals)
        decreases |s.Left()|
      {
        ghost var w, n := out.written, out.refusals;
        var buffer := s.Read(STREAM_BUFFER_SIZE);
        if s.streamError {
          s.Close();
          return false;
        }
        CatAssociates(done, buffer, s.Left());
        if |buffer| > 0 {
          ok := WriteBuffer(buffer, out);
          if !ok {
            s.Close();
            return false;
          }
          WroteBoth(w0, n0, done, w, n, buffer, out.written, out.refusals);
          done := done + buffer;
        } else {
          assert done + [] == done;
          break;
        }
      }
      s.Close();
      ok := true;
    }

    /** Offers the rest until all is taken, or the stream has no space: then the rest is
        dropped, and that is no failure. */
    method WriteBuffer(data: Bytes, out: OutputStream) returns (ok: bool)
      modifies out
      ensures !ok ==> out.streamError
      ensures ok ==> Wrote(old(out.written), old(out.refusals), data, out.written, out.refusals)
    {
      hide Wrote;
      var buffer := data;
      var bytesToWrite := |buffer|;
      ghost var taken: Bytes := [];
      assert out.written == out.written + taken && data == taken + data;
      while bytesToWrite > 0
        invariant bytesToWrite > 0 ==> bytesToWrite == |buffer|
        invariant out.refusals == old(out.refusals) && out.written == old(out.written) + taken
        invariant data == taken + (if bytesToWrite > 0 then buffer else [])
      {
        var space := out.HasSpaceAvailable();
        if !space {
          break;
        }
        var bytesWritten := out.Write(buffer, bytesToWrite);
        if out.streamError {
          return false;
        }
        taken := taken + buffer[..bytesWritten];
        bytesToWrite := bytesToWrite - bytesWritten;
        if bytesToWrite > 0 {
          buffer := buffer[bytesWritten..];
        }
      }
      WrotePiece(old(out.written), old(out.refusals), data, taken, out.refusals);
      ok := true;
    }
  }

  // ---------- What reaches the output ----------

  /** A piece of data that was offered, and as much of it as was taken. */
  datatype Piece = Piece(offered: Bytes, taken: Bytes)

  function Offered(pieces: seq<Piece>): Bytes {
    if pieces == [] then [] else pieces[0].offered + Offered(pieces[1..])
  }

  function Taken(pieces: seq<Piece>): Bytes {
    if pieces == [] then [] else pieces[0].taken + Taken(pieces[1..])
  }

  /** How many pieces were cut short. */
  function Cuts(pieces: seq<Piece>): nat {
    if pieces == [] then 0 else (if pieces[0].taken == pieces[0].offered then 0 else 1) + Cuts(pieces[1..])
  }

  predicate Prefixes(pieces: seq<Piece>) {
    forall i | 0 <= i < |pieces| :: pieces[i].taken <= pieces[i].offered
  }

  /** `data` was written behind `before` while the refusals went from `m` to `n`: piece by
      piece, and each refusal dropped the rest of one piece. */
  ghost predicate Wrote(before: Bytes, m: nat, data: Bytes, after: Bytes, n: nat) {
    exists pieces: seq<Piece> | Prefixes(pieces) ::
      Offered(pieces) == data && after == before + Taken(pieces) && n == m + Cuts(pieces)
  }

  lemma {:induction false} CutsShorten(pieces: seq<Piece>)
    requires Prefixes(pieces)
    ensures if Cuts(pieces) == 0 then Taken(pieces) == Offered(pieces) else |Taken(pieces)| < |Offered(pieces)|
  {
    if pieces != [] {
      assert pieces[0].taken <= pieces[0].offered;
      assert Prefixes(pieces[1..]) by { assert forall i | 0 <= i < |pieces| - 1 :: pieces[1..][i] == pieces[i + 1]; }
      CutsShorten(pieces[1..]);
    }
  }

  /** The data is complete exactly when there were no refusals, and shorter otherwise. */
  lemma WroteExactly(before: Bytes, m: nat, data: Bytes, after: Bytes, n: nat)
    requires Wrote(before, m, data, after, n)
    ensures m <= n && before <= after
    ensures if m == n then after == before + data else |after| < |before + data|
  {
    var pieces: seq<Piece> :| Prefixes(pieces) && Offered(pieces) == data
      && after == before + Taken(pieces) && n == m + Cuts(pieces);
    CutsShorten(pieces);
  }

  lemma WroteNothing(before: Bytes, m: nat)
    ensures Wrote(before, m, [], before, m)
  {
    assert before + [] == before;
    assert Prefixes([]) && Offered([]) == [] && Taken([]) == [] && Cuts([]) == 0;
  }

  /** One piece was offered, and `taken` of it was. */
  lemma WrotePiece(before: Bytes, m: nat, data: Bytes, taken: Bytes, n: nat)
    requires taken <= data && n == m + (if taken == data then 0 else 1)
    ensures Wrote(before, m, data, before + taken, n)
  {
    var pieces := [Piece(data, taken)];
    assert pieces[1..] == [] && Prefixes(pieces);
    assert Offered([]) == [] && Taken([]) == [] && Cuts([]) == 0;
    assert data + [] == data && taken + [] == taken;
    assert Offered(pieces) == data && Taken(pieces) == taken && Cuts(pieces) == n - m;
  }

  lemma {:induction false} PiecesCat(a: seq<Piece>, b: seq<Piece>)
    ensures Offered(a + b) == Offered(a) + Offered(b)
    ensures Taken(a + b) == Taken(a) + Taken(b)
    ensures Cuts(a + b) == Cuts(a) + Cuts(b)
  {
    if a == [] {
      assert a + b == b;
    } else {
      var rest := a[1..];
      PiecesCat(rest, b);
      AddFirst(a[0], rest + b);
      AddFirst(a[0], rest);
      assert [a[0]] + (rest + b) == a + b && [a[0]] + rest == a;
      CatAssociates(a[0].offered, Offered(rest), Offered(b));
      CatAssociates(a[0].taken, Taken(rest), Taken(b));
    }
  }

  lemma AddFirst(p: Piece, rest: seq<Piece>)
    ensures Offered([p] + rest) == p.offered + Offered(rest)
    ensures Taken([p] + rest) == p.taken + Taken(rest)
    ensures Cuts([p] + rest) == (if p.taken == p.offered then 0 else 1) + Cuts(rest)
  {
    assert ([p] + rest)[1..] == rest;
  }

  lemma CatAssociates(a: Bytes, b: Bytes, c: Bytes)
    ensures a + (b + c) == a + b + c
  {
  }

  lemma WroteBoth(a: Bytes, k: nat, data: Bytes, b: Bytes, m: nat, more: Bytes, c: Bytes, n: nat)
    requires Wrote(a, k, data, b, m) && Wrote(b, m, more, c, n)
    ensures Wrote(a, k, data + more, c, n)
  {
    hide Offered, Taken, Cuts;
    var p: seq<Piece> :| Prefixes(p) && Offered(p) == data && b == a + Taken(p) && m == k + Cuts(p);
    var q: seq<Piece> :| Prefixes(q) && Offered(q) == more && c == b + Taken(q) && n == m + Cuts(q);
    PiecesCat(p, q);
    CatAssociates(a, Taken(p), Taken(q));
    assert Offered(p + q) == data + more;
  }

  /** `done` is the data of the entries before number `i`. */
  predicate UpTo(boundary: Bytes, entries: seq<Entry>, i: nat, done: Bytes)
    requires i <= |entries|
  {
    EntriesData(boundary, entries) == done + EntriesData(boundary, entries[i..])
  }

  lemma UpToStart(boundary: Bytes, entries: seq<Entry>)
    ensures UpTo(boundary, entries, 0, [])
  {
    assert entries[0..] == entries;
  }

  lemma UpToEnd(boundary: Bytes, entries: seq<Entry>, done: Bytes)
    requires UpTo(boundary, entries, |entries|, done)
    ensures done == EntriesData(boundary, entries)
  {
    assert entries[|entries|..] == [];
    assert done + [] == done;
  }

  lemma UpToNext(boundary: Bytes, entries: seq<Entry>, i: nat, done: Bytes)
    requires i < |entries| && UpTo(boundary, entries, i, done)
    ensures UpTo(boundary, entries, i + 1, done + PartData(boundary, entries[i].part, entries[i].initial, entries[i].final))
  {
    hide PartData;
    assert entries[i..][0] == entries[i] && entries[i..][1..] == entries[i + 1..];
  }

  lemma PartsNext(boundary: Bytes, parts: seq<Part>, i: nat)
    requires i <= |parts|
    ensures i == |parts| ==> PartsData(boundary, parts, i) == []
    ensures i < |parts| ==>
      PartsData(boundary, parts, i)
      == PartData(boundary, parts[i], i == 0, i == |parts| - 1) + PartsData(boundary, parts, i + 1)
  {
    hide PartData;
  }
}
