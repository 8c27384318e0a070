/** internal/docker: Docker's framed output streams, and the two decoders that read them. */
module DockerStream {
  import opened Text
  import opened Wrappers

  type Byte = b: int | 0 <= b < 256

  const STDERR: Byte := 2
  const MAX_EXEC_STDERR := 16 * 1024
  const COPY_BUFFER := 32 * 1024
  const UINT32_LIMIT := 0x1_0000_0000

  // ----- the frame format -----

  datatype Frame = Frame(stream: Byte, payload: seq<Byte>)

  function BigEndian(n: int): (r: seq<Byte>)
    requires 0 <= n < UINT32_LIMIT
    ensures |r| == 4 && Uint32(r) == n
  {
    [n / 256 / 256 / 256, n / 256 / 256 % 256, n / 256 % 256, n % 256]
  }

  function Uint32(b: seq<Byte>): (n: int)
    requires |b| == 4
    ensures 0 <= n < UINT32_LIMIT
  {
    var (b0: int, b1: int, b2: int, b3: int) := (b[0], b[1], b[2], b[3]);
    ((b0 * 256 + b1) * 256 + b2) * 256 + b3
  }

  /** The most significant byte comes first. */
  lemma BytesArePlaces(b: seq<Byte>)
    requires |b| == 4
    ensures Uint32(b) == b[0] as int * 0x100_0000 + b[1] as int * 0x1_0000 + b[2] as int * 0x100 + b[3] as int
  {
  }

  /** The stream, three zero bytes, and the payload's size. */
  function Header(f: Frame): (h: seq<Byte>)
    requires |f.payload| < UINT32_LIMIT
    ensures |h| == 8 && h[0] == f.stream && h[1] == h[2] == h[3] == 0 && Uint32(h[4..8]) == |f.payload|
  {
    [f.stream, 0, 0, 0] + BigEndian(|f.payload|)
  }

  predicate Encodable(frames: seq<Frame>) {
    forall i | 0 <= i < |frames| :: |frames[i].payload| < UINT32_LIMIT
  }

  function Encode(frames: seq<Frame>): seq<Byte>
    requires Encodable(frames)
  {
    if frames == [] then [] else Header(frames[0]) + frames[0].payload + Encode(frames[1..])
  }

  // ----- what a byte sequence means -----

  /** The frames found in a byte sequence, the last of which may be cut short, and the bytes
      of a header that is not complete. */
  datatype Parsed = Parsed(frames: seq<Frame>, leftover: seq<Byte>)

  function Size(raw: seq<Byte>): int
    requires |raw| >= 8
  {
    Uint32(raw[4..8])
  }

  function Payload(raw: seq<Byte>): seq<Byte>
    requires |raw| >= 8
  {
    if Size(raw) <= |raw| - 8 then raw[8..8 + Size(raw)] else raw[8..]
  }

  function Rest(raw: seq<Byte>): (r: seq<Byte>)
    requires |raw| >= 8
    ensures |r| < |raw|
  {
    if Size(raw) <= |raw| - 8 then raw[8 + Size(raw)..] else []
  }

  function Parse(raw: seq<Byte>): (p: Parsed)
    ensures |p.leftover| < 8
    decreases |raw|
  {
    if |raw| < 8 then Parsed([], raw)
    else
      var later := Parse(Rest(raw));
      Parsed([Frame(raw[0], Payload(raw))] + later.frames, later.leftover)
  }

  function Stdout(frames: seq<Frame>): seq<Byte> {
    if frames == [] then []
    else (if frames[0].stream != STDERR then frames[0].payload else []) + Stdout(frames[1..])
  }

  function Truncate(payload: seq<Byte>): seq<Byte> {
    if |payload| <= MAX_EXEC_STDERR then payload else payload[..MAX_EXEC_STDERR]
  }

  /** Each error frame contributes at most its first 16 KiB. */
  function Stderr(frames: seq<Frame>): seq<Byte> {
    if frames == [] then []
    else (if frames[0].stream == STDERR then Truncate(frames[0].payload) else []) + Stderr(frames[1..])
  }

  function Payloads(frames: seq<Frame>): seq<Byte> {
    if frames == [] then [] else frames[0].payload + Payloads(frames[1..])
  }

  predicate Tame(frames: seq<Frame>) {
    forall i | 0 <= i < |frames| :: frames[i].stream == STDERR ==> |frames[i].payload| <= MAX_EXEC_STDERR
  }

  // ----- reading and writing -----

  datatype ReadError = Eof | UnexpectedEof | Broken

  datatype StreamError = TransportFailed | ShortWrite

  /** A connection: the bytes still to come, and whether they end in EOF or in a failure. */
  class Reader {
    var rest: seq<Byte>
    const breaks: bool

    constructor (data: seq<Byte>, breaks: bool)
      ensures rest == data && this.breaks == breaks
    {
      rest := data;
      this.breaks := breaks;
    }

    /** io.ReadFull. */
    method ReadFull(n: nat) returns (buffer: seq<Byte>, err: Option<ReadError>)
      requires n > 0
      modifies this
      ensures |old(rest)| >= n ==> err == None && buffer == old(rest)[..n] && rest == old(rest)[n..]
      ensures |old(rest)| < n ==>
                rest == [] && err == Some(if breaks then Broken else if old(rest) == [] then Eof else UnexpectedEof)
    {
      if |rest| >= n {
        buffer, err := rest[..n], None;
        rest := rest[n..];
      } else {
        buffer, err := rest, Some(if breaks then Broken else if rest == [] then Eof else UnexpectedEof);
        rest := [];
      }
    }

    /** One Read into a buffer: any number of bytes from 1 to what fits and is there. */
    method Read(limit: nat) returns (chunk: seq<Byte>)
      requires limit > 0
      modifies this
      ensures old(rest) == chunk + rest && |chunk| <= limit
      ensures chunk == [] <==> old(rest) == []
    {
      if rest == [] {
        return [];
      }
      var n :| 1 <= n <= limit && n <= |rest|;
      chunk := rest[..n];
      rest := rest[n..];
    }
  }

  /** Where decoded bytes go: `remaining` is None for a plain writer, and what a boundedWriter
      will still pass on otherwise. */
  class Sink {
    var written: seq<Byte>
    var remaining: Option<int>

    constructor ()
      ensures written == [] && remaining == None
    {
      written, remaining := [], None;
    }

    /** boundedWriter.Write past the limit discards and reports success, but a chunk that crosses
        the limit is reported with its shortened length. */
    method Write(p: seq<Byte>) returns (n: nat)
      modifies this
      ensures remaining.Some? <==> old(remaining).Some?
      ensures old(remaining).None? ==> n == |p| && written == old(written) + p
      ensures old(remaining).Some? ==>
                var room := old(remaining).value;
                if room <= 0 then n == |p| && written == old(written) && remaining == old(remaining)
                else if |p| <= room then n == |p| && written == old(written) + p && remaining == Some(room - |p|)
                else n == room && written == old(written) + p[..room] && remaining == Some(0)
    {
      if remaining.Some? && remaining.value <= 0 {
        return |p|;
      }
      var kept := if remaining.Some? && |p| > remaining.value then p[..remaining.value] else p;
      written := written + kept;
      if remaining.Some? {
        remaining := Some(remaining.value - |kept|);
      }
      return |kept|;
    }
  }

  datatype CopyResult = Copied | EndedEarly | CopyFailed(error: StreamError)

  lemma ReadMore(input: seq<Byte>, copied: nat, chunk: seq<Byte>, rest: seq<Byte>)
    requires copied <= |input| && input[copied..] == chunk + rest
    ensures copied + |chunk| <= |input|
    ensures rest == input[copied + |chunk|..]
    ensures input[..copied + |chunk|] == input[..copied] + chunk
  {
    var tail := input[copied..];
    assert |tail| == |chunk| + |rest|;
    assert rest == tail[|chunk|..];
    assert chunk == tail[..|chunk|];
  }

  function Kept(bounded: bool, payload: seq<Byte>): seq<Byte> {
    if bounded then Truncate(payload) else payload
  }

  lemma KeptMore(bounded: bool, input: seq<Byte>, copied: nat, chunk: seq<Byte>)
    requires copied + |chunk| <= |input| && input[..copied + |chunk|] == input[..copied] + chunk
    ensures !bounded || copied + |chunk| <= MAX_EXEC_STDERR ==>
              Kept(bounded, input[..copied + |chunk|]) == Kept(bounded, input[..copied]) + chunk
    ensures bounded && MAX_EXEC_STDERR <= copied ==>
              Kept(bounded, input[..copied + |chunk|]) == Kept(bounded, input[..copied])
    ensures bounded && copied < MAX_EXEC_STDERR < copied + |chunk| ==>
              input[..MAX_EXEC_STDERR] == Kept(bounded, input[..copied]) + chunk[..MAX_EXEC_STDERR - copied]
  {
    var now := input[..copied + |chunk|];
    if bounded && copied + |chunk| > MAX_EXEC_STDERR {
      assert Truncate(now) == now[..MAX_EXEC_STDERR] == input[..MAX_EXEC_STDERR];
    }
  }

  /** What copying `size` bytes of `input` does: `rest` and `added` are what remains to be read and
      what reached the writer. */
  ghost predicate CopyOutcome(size: nat, input: seq<Byte>, breaks: bool, bounded: bool,
                              rest: seq<Byte>, added: seq<Byte>, result: CopyResult)
  {
    var available := if size <= |input| then size else |input|;
    var payload := input[..available];
    if result == CopyFailed(ShortWrite) then
      bounded && |payload| > MAX_EXEC_STDERR && added == Truncate(payload)
    else
      && added == Kept(bounded, payload)
      && rest == input[available..]
      && result == if available == size then Copied
                   else if breaks then CopyFailed(TransportFailed) else EndedEarly
  }

  lemma CopyCutShort(size: nat, input: seq<Byte>, breaks: bool, copied: nat, rest: seq<Byte>, added: seq<Byte>)
    requires MAX_EXEC_STDERR < copied <= size && copied <= |input| && added == input[..MAX_EXEC_STDERR]
    ensures CopyOutcome(size, input, breaks, true, rest, added, CopyFailed(ShortWrite))
  {
    var payload := input[..if size <= |input| then size else |input|];
    assert payload[..MAX_EXEC_STDERR] == input[..MAX_EXEC_STDERR];
  }

  /** io.CopyN through a 32 KiB buffer, whatever sizes the individual reads return. */
  method CopyN(target: Sink, r: Reader, size: nat) returns (result: CopyResult)
    requires size > 0
    requires target.remaining.Some? ==> target.remaining.value == MAX_EXEC_STDERR
    modifies target, r
    ensures target.remaining.Some? <==> old(target.remaining).Some?
    ensures old(target.written) <= target.written
    ensures CopyOutcome(size, old(r.rest), r.breaks, old(target.remaining).Some?,
                        r.rest, target.written[|old(target.written)|..], result)
  {
    ghost var input, before, bounded := r.rest, target.written, target.remaining.Some?;
    var copied := 0;
    while copied < size
      invariant copied <= size && copied <= |input| && r.rest == input[copied..]
      invariant target.remaining.Some? <==> bounded
      invariant target.written == before + Kept(bounded, input[..copied])
      invariant bounded ==>
                  target.remaining.value == if copied <= MAX_EXEC_STDERR then MAX_EXEC_STDERR - copied else 0
    {
      var want := if size - copied < COPY_BUFFER then size - copied else COPY_BUFFER;
      var chunk := r.Read(want);
      if chunk == [] {
        assert input[..copied] == input && input[copied..] == [];
        return if r.breaks then CopyFailed(TransportFailed) else EndedEarly;
      }
      ReadMore(input, copied, chunk, r.rest);
      KeptMore(bounded, input, copied, chunk);
      ghost var written := Kept(bounded, input[..copied]);
      var n := target.Write(chunk);
      if n != |chunk| {
        assert target.written == before + (written + chunk[..MAX_EXEC_STDERR - copied]);
        CopyCutShort(size, input, r.breaks, copied + |chunk|, r.rest, target.written[|before|..]);
        return CopyFailed(ShortWrite);
      }
      assert target.written == before + (written + chunk) || target.written == before + written;
      copied := copied + |chunk|;
    }
    return Copied;
  }

  datatype Status = More | Finished(err: Option<StreamError>)

  /** One turn of the demultiplexing loop. */
  method CopyFrame(r: Reader, stdout: Sink, stderr: Sink) returns (status: Status)
    requires stdout != stderr && stdout.remaining == None
    modifies r, stdout, stderr
    ensures stdout.remaining == None
    ensures |old(r.rest)| < 8 ==>
              && stdout.written == old(stdout.written) && stderr.written == old(stderr.written)
              && status == Finished(if r.breaks then Some(TransportFailed) else None)
    ensures |old(r.rest)| >= 8 ==>
              var raw := old(r.rest);
              var payload := Payload(raw);
              && stdout.written == old(stdout.written) + (if raw[0] != STDERR then payload else [])
              && stderr.written == old(stderr.written) + (if raw[0] == STDERR then Truncate(payload) else [])
              && (status == More ==> r.rest == Rest(raw))
              && (status == Finished(Some(ShortWrite)) ==> raw[0] == STDERR && |payload| > MAX_EXEC_STDERR)
              && (status.Finished? && status.err != Some(ShortWrite) ==>
                    Rest(raw) == [] && status.err == if r.breaks then Some(TransportFailed) else None)
  {
    ghost var raw := r.rest;
    var header, err := r.ReadFull(8);
    if err.Some? {
      return Finished(if err.value == Broken then Some(TransportFailed) else None);
    }
    assert header[4..8] == raw[4..8] && header[0] == raw[0];
    var size := Uint32(header[4..8]);
    if size == 0 {
      return More;
    }
    BodyOfFrame(raw, size);
    var result;
    if header[0] == STDERR {
      stderr.remaining := Some(MAX_EXEC_STDERR);
      result := CopyN(stderr, r, size);
    } else {
      result := CopyN(stdout, r, size);
    }
    match result {
      case Copied => return More;
      case EndedEarly => return Finished(None);
      case CopyFailed(e) => return Finished(Some(e));
    }
  }

  lemma BodyOfFrame(raw: seq<Byte>, size: int)
    requires |raw| >= 8 && size == Size(raw)
    ensures var body := raw[8..];
            var available := if size <= |body| then size else |body|;
            && Payload(raw) == body[..available] && Rest(raw) == body[available..]
  {
  }

  lemma ParseStep(raw: seq<Byte>)
    requires |raw| >= 8
    ensures Parse(raw).frames == [Frame(raw[0], Payload(raw))] + Parse(Rest(raw)).frames
    ensures Parse(raw).leftover == Parse(Rest(raw)).leftover
  {
  }

  lemma OutputsCons(f: Frame, rest: seq<Frame>)
    ensures Stdout([f] + rest) == (if f.stream != STDERR then f.payload else []) + Stdout(rest)
    ensures Stderr([f] + rest) == (if f.stream == STDERR then Truncate(f.payload) else []) + Stderr(rest)
    ensures Payloads([f] + rest) == f.payload + Payloads(rest)
  {
    assert ([f] + rest)[1..] == rest;
  }

  /** What the loop has written so far, and what the frames still to come will add. */
  ghost predicate Balanced(frames: seq<Frame>, out: seq<Byte>, errors: seq<Byte>, allOut: seq<Byte>,
                           allErrors: seq<Byte>)
  {
    out + Stdout(frames) == allOut && errors + Stderr(frames) == allErrors
  }

  lemma BalancedStep(f: Frame, rest: seq<Frame>, out: seq<Byte>, errors: seq<Byte>, allOut: seq<Byte>,
                     allErrors: seq<Byte>)
    requires Balanced([f] + rest, out, errors, allOut, allErrors)
    ensures Balanced(rest, out + (if f.stream != STDERR then f.payload else []),
                     errors + (if f.stream == STDERR then Truncate(f.payload) else []), allOut, allErrors)
  {
    OutputsCons(f, rest);
    Reassociate(out, if f.stream != STDERR then f.payload else [], Stdout(rest));
    Reassociate(errors, if f.stream == STDERR then Truncate(f.payload) else [], Stderr(rest));
  }

  lemma BalancedEnd(frames: seq<Frame>, out: seq<Byte>, errors: seq<Byte>, allOut: seq<Byte>, allErrors: seq<Byte>)
    requires Balanced(frames, out, errors, allOut, allErrors)
    ensures out <= allOut && errors <= allErrors
    ensures frames == [] ==> out == allOut && errors == allErrors
  {
  }

  /** Splits the frames into the two streams. Unless a single error frame exceeds 16 KiB, the
      outcome does not depend on how the reads are cut. */
  method Demultiplex(r: Reader, stdout: Sink, stderr: Sink) returns (err: Option<StreamError>)
    requires stdout != stderr && stdout.remaining == None
    modifies r, stdout, stderr
    ensures var frames := Parse(old(r.rest)).frames;
            if err == Some(ShortWrite) then
              !Tame(frames) && stdout.written <= old(stdout.written) + Stdout(frames)
              && stderr.written <= old(stderr.written) + Stderr(frames)
            else
              && stdout.written == old(stdout.written) + Stdout(frames)
              && stderr.written == old(stderr.written) + Stderr(frames)
              && err == if r.breaks then Some(TransportFailed) else None
  {
    ghost var input := r.rest;
    ghost var frames := Parse(input).frames;
    ghost var allOut, allErrors := stdout.written + Stdout(frames), stderr.written + Stderr(frames);
    while true
      invariant stdout.remaining == None
      invariant Balanced(Parse(r.rest).frames, stdout.written, stderr.written, allOut, allErrors)
      invariant Tame(Parse(input).frames) ==> Tame(Parse(r.rest).frames)
      decreases |r.rest|
    {
      ghost var raw, out, errors := r.rest, stdout.written, stderr.written;
      var status := CopyFrame(r, stdout, stderr);
      if |raw| < 8 {
        BalancedEnd(Parse(raw).frames, out, errors, allOut, allErrors);
      } else {
        ParseStep(raw);
        ghost var later := Parse(Rest(raw)).frames;
        BalancedStep(Frame(raw[0], Payload(raw)), later, out, errors, allOut, allErrors);
        BalancedEnd(later, stdout.written, stderr.written, allOut, allErrors);
        TameStep(raw);
      }
      if status.Finished? {
        return status.err;
      }
    }
  }

  lemma TameStep(raw: seq<Byte>)
    requires |raw| >= 8
    ensures Tame(Parse(raw).frames) <==>
            Tame(Parse(Rest(raw)).frames) && (raw[0] == STDERR ==> |Payload(raw)| <= MAX_EXEC_STDERR)
  {
    ParseStep(raw);
    TameOfCons(Frame(raw[0], Payload(raw)), Parse(Rest(raw)).frames, Parse(raw).frames);
  }

  lemma TameOfCons(f: Frame, rest: seq<Frame>, frames: seq<Frame>)
    requires frames == [f] + rest
    ensures Tame(frames) <==> Tame(rest) && (f.stream == STDERR ==> |f.payload| <= MAX_EXEC_STDERR)
  {
    assert forall i | 0 <= i < |rest| :: frames[i + 1] == rest[i];
    assert frames[0] == f;
  }

  // ----- the helper's decoder -----

  predicate PlainHeader(raw: seq<Byte>)
    requires |raw| >= 8
  {
    raw[1] == 0 && raw[2] == 0 && raw[3] == 0
  }

  /** What follows the first position where a header should be but the padding is not zero. */
  function FirstBad(raw: seq<Byte>): Option<seq<Byte>>
    decreases |raw|
  {
    if |raw| < 8 then None
    else if !PlainHeader(raw) then Some(raw)
    else FirstBad(Rest(raw))
  }

  method StripHeaders(input: seq<Byte>) returns (result: seq<Byte>)
    ensures result == match FirstBad(input)
                      case Some(unframed) => unframed
                      case None => Payloads(Parse(input).frames) + Parse(input).leftover
  {
    var raw, out := input, [];
    while |raw| >= 8
      invariant Stripped(input, raw, out)
      decreases |raw|
    {
      StrippedStep(input, raw, out);
      if raw[1] != 0 || raw[2] != 0 || raw[3] != 0 {
        return raw;
      }
      var size := Uint32(raw[4..8]);
      BodyOfFrame(raw, size);
      raw := raw[8..];
      if size > |raw| {
        size := |raw|;
      }
      out := out + raw[..size];
      raw := raw[size..];
    }
    return out + raw;
  }

  ghost predicate Stripped(input: seq<Byte>, raw: seq<Byte>, out: seq<Byte>) {
    && FirstBad(raw) == FirstBad(input)
    && Parse(raw).leftover == Parse(input).leftover
    && out + Payloads(Parse(raw).frames) == Payloads(Parse(input).frames)
  }

  lemma StrippedStep(input: seq<Byte>, raw: seq<Byte>, out: seq<Byte>)
    requires |raw| >= 8 && Stripped(input, raw, out)
    ensures if PlainHeader(raw) then Stripped(input, Rest(raw), out + Payload(raw)) else FirstBad(input) == Some(raw)
  {
    ParseStep(raw);
    Reassociate(out, Payload(raw), Payloads(Parse(Rest(raw)).frames));
    OutputsCons(Frame(raw[0], Payload(raw)), Parse(Rest(raw)).frames);
  }

  // ----- round trips -----

  /** Frames that were written first are read first, whatever follows them. */
  lemma {:induction false} ParseOfEncode(frames: seq<Frame>, tail: seq<Byte>)
    requires Encodable(frames)
    ensures Parse(Encode(frames) + tail) == Parsed(frames + Parse(tail).frames, Parse(tail).leftover)
    ensures FirstBad(Encode(frames) + tail) == FirstBad(tail)
  {
    if frames == [] {
      assert Encode(frames) + tail == tail;
    } else {
      var f, rest := frames[0], Encode(frames[1..]) + tail;
      ParseOfEncode(frames[1..], tail);
      ParseFirstOfEncode(frames, tail, rest);
      Reassociate([f], frames[1..], Parse(tail).frames);
      assert frames == [f] + frames[1..];
    }
  }

  lemma ParseFirstOfEncode(frames: seq<Frame>, tail: seq<Byte>, rest: seq<Byte>)
    requires Encodable(frames) && frames != [] && rest == Encode(frames[1..]) + tail
    ensures Parse(Encode(frames) + tail) == Parsed([frames[0]] + Parse(rest).frames, Parse(rest).leftover)
    ensures FirstBad(Encode(frames) + tail) == FirstBad(rest)
  {
    EncodeStep(frames, tail);
    ParseOneFrame(frames[0], rest);
  }

  lemma EncodeStep(frames: seq<Frame>, tail: seq<Byte>)
    requires Encodable(frames) && frames != []
    ensures Encode(frames) + tail == Header(frames[0]) + frames[0].payload + (Encode(frames[1..]) + tail)
  {
    Reassociate(Header(frames[0]) + frames[0].payload, Encode(frames[1..]), tail);
  }

  lemma ParseOneFrame(f: Frame, rest: seq<Byte>)
    requires |f.payload| < UINT32_LIMIT
    ensures var raw := Header(f) + f.payload + rest;
            && Parse(raw) == Parsed([f] + Parse(rest).frames, Parse(rest).leftover)
            && FirstBad(raw) == FirstBad(rest)
  {
    OneFrame(f, rest);
    ParseStep(Header(f) + f.payload + rest);
  }

  lemma OneFrame(f: Frame, rest: seq<Byte>)
    requires |f.payload| < UINT32_LIMIT
    ensures var raw := Header(f) + f.payload + rest;
            |raw| >= 8 && raw[0] == f.stream && PlainHeader(raw) && Payload(raw) == f.payload && Rest(raw) == rest
  {
    var raw := Header(f) + f.payload + rest;
    assert raw[4..8] == BigEndian(|f.payload|);
  }

  /** Demultiplexing undoes the framing, and so does stripping headers: the first splits by
      stream, the second keeps everything in order. */
  lemma DecodersUndoFraming(frames: seq<Frame>)
    requires Encodable(frames)
    ensures Parse(Encode(frames)) == Parsed(frames, [])
    ensures FirstBad(Encode(frames)) == None
  {
    ParseOfEncode(frames, []);
    assert Encode(frames) + [] == Encode(frames) && frames + [] == frames;
  }

  ghost predicate OutputsArePrefixes(f: seq<Frame>, g: seq<Frame>) {
    Stdout(f) <= Stdout(g) && Stderr(f) <= Stderr(g) && Payloads(f) <= Payloads(g)
  }

  /** A stream that stops early yields a prefix of each output, and stays within the limit. */
  lemma {:induction false} CutYieldsPrefixes(cut: seq<Byte>, whole: seq<Byte>)
    requires cut <= whole
    ensures OutputsArePrefixes(Parse(cut).frames, Parse(whole).frames)
    ensures Tame(Parse(whole).frames) ==> Tame(Parse(cut).frames)
    decreases |cut|
  {
    if |cut| >= 8 {
      CutFrame(cut, whole);
      var f, g := Parse(Rest(cut)).frames, Parse(Rest(whole)).frames;
      if f != [] {
        CutYieldsPrefixes(Rest(cut), Rest(whole));
      }
      PrefixesCons(Frame(cut[0], Payload(cut)), f, Frame(whole[0], Payload(whole)), g);
      ParseStep(cut);
      ParseStep(whole);
      TameStep(cut);
      TameStep(whole);
    }
  }

  lemma PrefixesCons(c: Frame, f: seq<Frame>, w: Frame, g: seq<Frame>)
    requires c.stream == w.stream && c.payload <= w.payload
    requires f == [] || (c == w && OutputsArePrefixes(f, g))
    ensures OutputsArePrefixes([c] + f, [w] + g)
  {
    OutputsCons(c, f);
    OutputsCons(w, g);
    TruncateMonotone(c.payload, w.payload);
  }

  lemma TruncateMonotone(a: seq<Byte>, b: seq<Byte>)
    requires a <= b
    ensures Truncate(a) <= Truncate(b)
  {
  }

  lemma CutFrame(cut: seq<Byte>, whole: seq<Byte>)
    requires cut <= whole && |cut| >= 8
    ensures cut[0] == whole[0] && Payload(cut) <= Payload(whole)
    ensures (Payload(cut) == Payload(whole) && Rest(cut) <= Rest(whole)) || Parse(Rest(cut)).frames == []
  {
    assert cut[4..8] == whole[4..8];
  }

  /** `whole` is `a` and `b` merged, each in its own order. */
  predicate Interleaves(whole: seq<Byte>, a: seq<Byte>, b: seq<Byte>) {
    if whole == [] then a == [] && b == []
    else
      || (a != [] && a[0] == whole[0] && Interleaves(whole[1..], a[1..], b))
      || (b != [] && b[0] == whole[0] && Interleaves(whole[1..], a, b[1..]))
  }

  lemma {:induction false} InterleavesLength(whole: seq<Byte>, a: seq<Byte>, b: seq<Byte>)
    requires Interleaves(whole, a, b)
    ensures |whole| == |a| + |b|
  {
    if whole != [] {
      if a != [] && a[0] == whole[0] && Interleaves(whole[1..], a[1..], b) {
        InterleavesLength(whole[1..], a[1..], b);
      } else {
        InterleavesLength(whole[1..], a, b[1..]);
      }
    }
  }

  lemma {:induction false} InterleavesMore(x: seq<Byte>, whole: seq<Byte>, a: seq<Byte>, b: seq<Byte>)
    requires Interleaves(whole, a, b)
    ensures Interleaves(x + whole, x + a, b) && Interleaves(x + whole, a, x + b)
  {
    if x == [] {
      assert x + whole == whole && x + a == a && x + b == b;
    } else {
      InterleavesMore(x[1..], whole, a, b);
      assert (x + whole)[1..] == x[1..] + whole && (x + a)[1..] == x[1..] + a && (x + b)[1..] == x[1..] + b;
    }
  }

  /** The two decoders account for the same bytes if and only if no error frame exceeds its limit:
      then what the one keeps together is the two streams of the other merged, each in order. */
  lemma {:induction false} DecodersAccountForSameBytes(frames: seq<Frame>)
    ensures Interleaves(Payloads(frames), Stdout(frames), Stderr(frames)) <==> Tame(frames)
    ensures |Stdout(frames)| + |Stderr(frames)| == |Payloads(frames)| <==> Tame(frames)
    ensures |Stdout(frames)| + |Stderr(frames)| <= |Payloads(frames)|
  {
    if frames != [] {
      var f, rest := frames[0], frames[1..];
      DecodersAccountForSameBytes(rest);
      TameOfCons(f, rest, frames);
      if Tame(frames) {
        InterleavesMore(f.payload, Payloads(rest), Stdout(rest), Stderr(rest));
        assert [] + Stdout(rest) == Stdout(rest) && [] + Stderr(rest) == Stderr(rest);
      }
    }
    if Interleaves(Payloads(frames), Stdout(frames), Stderr(frames)) {
      InterleavesLength(Payloads(frames), Stdout(frames), Stderr(frames));
    }
  }

  /** With one stream only, everything goes to its writer: standard error has stream byte 2, and any
      other byte stands for standard output. */
  lemma {:induction false} OneStreamOnly(frames: seq<Frame>)
    ensures (forall f | f in frames :: f.stream != 2) ==> Stdout(frames) == Payloads(frames) && Stderr(frames) == []
    ensures Tame(frames) && (forall f | f in frames :: f.stream == 2) ==>
              Stderr(frames) == Payloads(frames) && Stdout(frames) == []
  {
    if frames != [] {
      OneStreamOnly(frames[1..]);
      TameOfCons(frames[0], frames[1..], frames);
      assert frames[0] in frames && forall f | f in frames[1..] :: f in frames;
    }
  }

  /** A header with non-zero padding after well-formed frames makes the helper's decoder return
      only what follows: the output of the earlier frames is dropped, not mangled. */
  lemma BadHeaderDropsEarlierOutput(frames: seq<Frame>, tail: seq<Byte>)
    requires Encodable(frames) && |tail| >= 8 && (tail[1] != 0 || tail[2] != 0 || tail[3] != 0)
    ensures FirstBad(Encode(frames) + tail) == Some(tail)
  {
    ParseOfEncode(frames, tail);
  }

  function Total(frames: seq<Frame>): nat {
    if frames == [] then 0 else |frames[0].payload| + Total(frames[1..])
  }

  /** No byte is lost between the frames: headers, payloads and what is left over make up the input. */
  lemma {:induction false} ParseConservesBytes(raw: seq<Byte>)
    ensures 8 * |Parse(raw).frames| + Total(Parse(raw).frames) + |Parse(raw).leftover| == |raw|
    ensures |Parse(raw).leftover| < 8 && |Payloads(Parse(raw).frames)| == Total(Parse(raw).frames)
    decreases |raw|
  {
    if |raw| >= 8 {
      ParseConservesBytes(Rest(raw));
      ParseStep(raw);
      var later := Parse(Rest(raw)).frames;
      assert Parse(raw).frames[1..] == later;
      OutputsCons(Frame(raw[0], Payload(raw)), later);
    }
  }

  /** Payloads of different streams keep their order, and each goes where its stream byte says. */
  lemma {:induction false} OutputsConcat(a: seq<Frame>, b: seq<Frame>)
    ensures Stdout(a + b) == Stdout(a) + Stdout(b)
    ensures Stderr(a + b) == Stderr(a) + Stderr(b)
    ensures Payloads(a + b) == Payloads(a) + Payloads(b)
  {
    if a == [] {
      assert a + b == b;
    } else {
      OutputsConcat(a[1..], b);
      assert a + b == [a[0]] + (a[1..] + b) && a == [a[0]] + a[1..];
      OutputsCons(a[0], a[1..] + b);
      OutputsCons(a[0], a[1..]);
      Reassociate(if a[0].stream != STDERR then a[0].payload else [], Stdout(a[1..]), Stdout(b));
      Reassociate(if a[0].stream == STDERR then Truncate(a[0].payload) else [], Stderr(a[1..]), Stderr(b));
      Reassociate(a[0].payload, Payloads(a[1..]), Payloads(b));
    }
  }
}
