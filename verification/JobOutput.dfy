/**
 The job output pipeline of internal/web/job_output.go and job_output_fsuid_linux.go: a bounded
 read from the end of a file in chunks of any size, repaired and cut to whole characters, sent from
 a child process to its parent behind one framing byte; and the bounded buffer of
 internal/slurm/runner.go.
 */
module JobOutput {
  import opened Wrappers
  import opened Utf8
  import opened Lists

  const MAX_OUTPUT := 256 * 1024
  const BUFFER_SIZE := 32 * 1024

  datatype Error = Cancelled | ReadFailed | Unavailable | OutputLimit | InvalidLimit | CommandFailed

  // ---------------------------------------------------------------------------------------
  // Reading.

  datatype ReadEnd = More | Eof | Fault

  /** A file open for reading; `plan` stands for the environment, which decides how many bytes each
      read yields and which reads fail. */
  class OutputFile {
    const content: seq<byte>
    var pos: nat
    var plan: seq<int>
    var faulted: bool

    constructor (content: seq<byte>, plan: seq<int>)
      ensures this.content == content && pos == 0 && !faulted
    {
      this.content, this.plan := content, plan;
      pos, faulted := 0, false;
    }

    method Seek(offset: nat)
      modifies this`pos
      ensures pos == offset
    {
      pos := offset;
    }

    /** A read of a regular file: at least one byte unless at its end. */
    method Read(limit: nat) returns (data: seq<byte>, end: ReadEnd)
      requires limit > 0
      modifies this
      ensures |data| <= limit && pos == old(pos) + |data|
      ensures data == if old(pos) < |content| && pos <= |content| then content[old(pos)..pos] else []
      ensures end.More? ==> |data| > 0
      ensures end.Eof? ==> old(pos) >= |content| && data == []
      ensures faulted == (old(faulted) || end.Fault?)
    {
      var want := if plan == [] then limit else plan[0];
      plan := if plan == [] then [] else plan[1..];
      if want < 0 {
        faulted := true;
        return [], Fault;
      }
      if pos >= |content| {
        return [], Eof;
      }
      var left := |content| - pos;
      var n := if want == 0 then 1 else want;
      n := if n > limit then limit else n;
      n := if n > left then left else n;
      data := content[pos..pos + n];
      pos := pos + n;
      return data, More;
    }
  }

  /** At most `n` bytes of `content` from `offset`. */
  function Window(content: seq<byte>, offset: nat, n: nat): seq<byte> {
    if offset >= |content| then []
    else if offset + n >= |content| then content[offset..]
    else content[offset..offset + n]
  }

  /** `done(i)` says whether the context is over before the i-th read. */
  method ReadBoundedOutput(file: OutputFile, done: nat -> bool) returns (r: Result<seq<byte>, Error>)
    requires !file.faulted
    modifies file
    ensures r.Ok? ==> r.value == Window(file.content, old(file.pos), MAX_OUTPUT)
    ensures r.Err? ==> (r.error == Cancelled && exists i :: done(i)) || (r.error == ReadFailed && file.faulted)
  {
    var result: seq<byte> := [];
    var size := BUFFER_SIZE;
    var round := 0;
    ghost var start := file.pos;
    while |result| < MAX_OUTPUT
      invariant |result| <= MAX_OUTPUT && !file.faulted && 0 < size <= BUFFER_SIZE
      invariant file.pos == start + |result|
      invariant result == Window(file.content, start, |result|)
      invariant result != [] ==> file.pos <= |file.content|
      decreases MAX_OUTPUT - |result|
    {
      if done(round) {
        return Err(Cancelled);
      }
      round := round + 1;
      var remaining := MAX_OUTPUT - |result|;
      if remaining < size {
        size := remaining;
      }
      ghost var before := result;
      var data, end := file.Read(size);
      result := result + data;
      if end.Fault? {
        return Err(ReadFailed);
      }
      if end.Eof? {
        break;
      }
    }
    return Ok(result);
  }

  // ---------------------------------------------------------------------------------------
  // Cutting.

  method CutToLimit(content: seq<byte>) returns (start: nat)
    requires ValidUtf8(content) && |content| > MAX_OUTPUT
    ensures IsCut(content, start)
  {
    start := |content| - MAX_OUTPUT;
    var q := BoundaryNearby(content, start);
    while start < |content| && !RuneStart(content[start])
      invariant |content| - MAX_OUTPUT <= start <= q
      invariant forall p | |content| - MAX_OUTPUT <= p < start :: !RuneStart(content[p])
    {
      start := start + 1;
    }
    SuffixAtBoundary(content, start);
    forall p: nat | |content| - MAX_OUTPUT <= p < start ensures !ValidUtf8(content[p..]) {
      SuffixAtBoundary(content, p);
    }
  }

  /** Cutting at `start` leaves the longest well-formed suffix that fits, at most three bytes short
      of the limit. */
  ghost predicate IsCut(content: seq<byte>, start: nat) {
    && start <= |content| && |content| - MAX_OUTPUT <= start <= |content| - MAX_OUTPUT + 3
    && ValidUtf8(content[start..])
    && forall p: nat | |content| - MAX_OUTPUT <= p < start :: !ValidUtf8(content[p..])
  }

  /** The bytes read of a file that had `size` bytes when it was opened and holds `content` while
      it is read. */
  function Raw(size: nat, content: seq<byte>): seq<byte> {
    Window(content, if size > MAX_OUTPUT then size - MAX_OUTPUT else 0, MAX_OUTPUT)
  }

  /** What a reader sends for those bytes. */
  ghost predicate SentFor(raw: seq<byte>, long: bool, text: seq<byte>, truncated: bool) {
    var repaired := ToValidUtf8(raw);
    if |repaired| <= MAX_OUTPUT then text == repaired && truncated == long
    else truncated && exists start: nat :: IsCut(repaired, start) && text == repaired[start..]
  }

  ghost predicate Sent(size: nat, content: seq<byte>, text: seq<byte>, truncated: bool) {
    SentFor(Raw(size, content), size > MAX_OUTPUT, text, truncated)
  }

  method ReadJobOutput(file: OutputFile, size: nat, done: nat -> bool) returns (r: Result<(seq<byte>, bool), Error>)
    requires !file.faulted
    modifies file
    ensures r.Ok? ==> Sent(size, file.content, r.value.0, r.value.1)
    ensures r.Err? ==> (r.error == Cancelled && exists i :: done(i)) || (r.error == ReadFailed && file.faulted)
  {
    var offset := size - MAX_OUTPUT;
    var truncated := offset > 0;
    if offset < 0 {
      offset := 0;
    }
    file.Seek(offset);
    var raw := ReadBoundedOutput(file, done);
    if raw.Err? {
      return Err(raw.error);
    }
    var text := ToValidUtf8(raw.value);
    if |text| > MAX_OUTPUT {
      RepairIsValid(raw.value, false);
      var start := CutToLimit(text);
      return Ok((text[start..], true));
    }
    return Ok((text, truncated));
  }

  /** What is sent is well-formed and within the limit; nothing is lost or altered unless the file
      is too long or malformed; and only one text can be sent. */
  lemma SentIsSound(size: nat, content: seq<byte>, text: seq<byte>, truncated: bool)
    requires Sent(size, content, text, truncated)
    ensures ValidUtf8(text) && |text| <= MAX_OUTPUT
    ensures size == |content| <= MAX_OUTPUT && ValidUtf8(content) ==> text == content && !truncated
    ensures size == |content| && !truncated ==> text == ToValidUtf8(content)
    ensures size > MAX_OUTPUT ==> truncated
  {
    SentForIsSound(Raw(size, content), size > MAX_OUTPUT, text, truncated);
    if size == |content| <= MAX_OUTPUT {
      assert Raw(size, content) == content;
      if ValidUtf8(content) { RepairKeepsValid(content); }
    }
  }

  /** Of a long file its end is sent: the last 256 KiB of what it had when it was opened, unless repairing
      them makes them longer, and then the end of that, at most three bytes short of the limit. */
  lemma EndIsSent(size: nat, content: seq<byte>, text: seq<byte>, truncated: bool)
    requires Sent(size, content, text, truncated) && MAX_OUTPUT < size <= |content|
    ensures var end := content[size - MAX_OUTPUT..size];
      var repaired := ToValidUtf8(end);
      && |text| <= |repaired| && text == repaired[|repaired| - |text|..]
      && (|repaired| <= MAX_OUTPUT ==> text == repaired)
      && (|repaired| > MAX_OUTPUT ==> MAX_OUTPUT - 3 <= |text|)
      && (ValidUtf8(end) ==> text == end)
  {
    var end := content[size - MAX_OUTPUT..size];
    assert Raw(size, content) == end;
    if ValidUtf8(end) { RepairKeepsValid(end); }
    hide Repair, ValidUtf8;
  }

  lemma SentForIsSound(raw: seq<byte>, long: bool, text: seq<byte>, truncated: bool)
    requires SentFor(raw, long, text, truncated)
    ensures ValidUtf8(text) && |text| <= MAX_OUTPUT
    ensures long ==> truncated
    ensures !truncated ==> text == ToValidUtf8(raw)
  {
    RepairIsValid(raw, false);
    hide Repair, ValidUtf8;
  }

  lemma SentIsUnique(size: nat, content: seq<byte>, text: seq<byte>, t: bool, other: seq<byte>, o: bool)
    requires Sent(size, content, text, t) && Sent(size, content, other, o)
    ensures text == other && t == o
  {
  }

  // ---------------------------------------------------------------------------------------
  // Bounded writers.

  function Take(s: seq<byte>, n: nat): seq<byte> {
    if |s| <= n then s else s[..n]
  }

  /** The parent's end of the pipe. */
  class BoundedResponse {
    const limit: nat
    var buffer: seq<byte>
    var exceeded: bool
    ghost var received: seq<byte>

    ghost predicate Valid()
      reads this
    {
      buffer == Take(received, limit) && (exceeded <==> |received| > limit)
    }

    constructor (limit: nat)
      ensures Valid() && received == [] && this.limit == limit
    {
      this.limit := limit;
      buffer, exceeded, received := [], false, [];
    }

    method Write(content: seq<byte>) returns (n: nat)
      requires Valid()
      modifies this
      ensures Valid() && received == old(received) + content && n == |content|
    {
      var kept := content;
      if |content| > limit - |buffer| {
        exceeded := true;
        kept := content[..limit - |buffer|];
      }
      buffer := buffer + kept;
      received := received + content;
      return |content|;
    }
  }

  /** The output buffer of a Slurm command, which cancels the command when it overflows. */
  class LimitedBuffer {
    const limit: nat
    var buffer: seq<byte>
    var exceeded: bool
    var cancelled: bool
    ghost var received: seq<byte>

    ghost predicate Valid()
      reads this
    {
      buffer == Take(received, limit) && (exceeded <==> |received| > limit) && cancelled == exceeded
    }

    constructor (limit: nat)
      ensures Valid() && received == [] && this.limit == limit
    {
      this.limit := limit;
      buffer, exceeded, cancelled, received := [], false, false, [];
    }

    method Write(value: seq<byte>) returns (n: nat)
      requires Valid()
      modifies this
      ensures Valid() && received == old(received) + value && n == |value|
    {
      var remaining := limit - |buffer|;
      if remaining > 0 {
        var writeLength := |value|;
        if writeLength > remaining {
          writeLength := remaining;
        }
        buffer := buffer + value[..writeLength];
      }
      if |value| > remaining {
        exceeded := true;
        cancelled := true;
      }
      received := received + value;
      return |value|;
    }
  }

  /** `CommandRunner.Run`, for a command that writes `chunks`; `over` says that the caller's context is
      over when the command ends, and `fails` that the command ends with an error. */
  method RunCommand(chunks: seq<seq<byte>>, limit: int, over: bool, fails: bool) returns (r: Result<seq<byte>, Error>)
    ensures r == if limit <= 0 then Err(InvalidLimit)
                 else if |Flat(chunks)| > limit then Err(OutputLimit)
                 else if over then Err(Cancelled)
                 else if fails then Err(CommandFailed)
                 else Ok(Flat(chunks))
  {
    if limit <= 0 {
      return Err(InvalidLimit);
    }
    var output := new LimitedBuffer(limit);
    for i := 0 to |chunks|
      invariant fresh(output) && output.Valid() && output.limit == limit && output.received == Flat(chunks[..i])
    {
      var _ := output.Write(chunks[i]);
      assert chunks[..i + 1][..i] == chunks[..i];
    }
    assert chunks[..|chunks|] == chunks;
    if output.exceeded {
      return Err(OutputLimit);
    }
    if over {
      return Err(Cancelled);
    }
    if fails {
      return Err(CommandFailed);
    }
    return Ok(output.buffer);
  }

  // ---------------------------------------------------------------------------------------
  // Framing.

  function Encode(text: seq<byte>, truncated: bool): seq<byte> {
    [if truncated then 1 else 0] + text
  }

  function Decode(frame: seq<byte>): Result<(seq<byte>, bool), Error> {
    if |frame| > MAX_OUTPUT + 1 || frame == []
      || frame[0] > 1 then Err(Unavailable) else Ok((frame[1..], frame[0] == 1))
  }

  /** The parent's side, for a child whose output arrives in `chunks`; `fails` says that the child does not
      start or ends with an error, and `over` that the context is over by then. */
  method ReceiveJobOutput(chunks: seq<seq<byte>>, over: bool, fails: bool) returns (r: Result<(seq<byte>, bool), Error>)
    ensures r == if !fails then Decode(Flat(chunks)) else if over then Err(Cancelled) else Err(CommandFailed)
  {
    var output := new BoundedResponse(MAX_OUTPUT + 1);
    for i := 0 to |chunks|
      invariant fresh(output) && output.Valid() && output.limit == MAX_OUTPUT + 1
        && output.received == Flat(chunks[..i])
    {
      var _ := output.Write(chunks[i]);
      assert chunks[..i + 1][..i] == chunks[..i];
    }
    assert chunks[..|chunks|] == chunks;
    if fails {
      return Err(if over then Cancelled else CommandFailed);
    }
    if output.exceeded || |output.buffer| == 0 {
      return Err(Unavailable);
    }
    var encoded := output.buffer;
    var truncated := encoded[0] == 1;
    if encoded[0] != 0 && !truncated {
      return Err(Unavailable);
    }
    return Ok((encoded[1..], truncated));
  }

  /** However the pipe cuts the child's output, the parent gets exactly what the child read. */
  lemma FrameArrivesWhole(size: nat, content: seq<byte>, text: seq<byte>, truncated: bool, chunks: seq<seq<byte>>)
    requires Sent(size, content, text, truncated)
    requires Flat(chunks) == Encode(text, truncated)
    ensures Decode(Flat(chunks)) == Ok((text, truncated))
  {
  }

  /** A frame is accepted exactly when it is the encoding of a text within the limit. */
  lemma DecodesExactly(frame: seq<byte>, text: seq<byte>, truncated: bool)
    ensures Decode(frame) == Ok((text, truncated)) <==> frame == Encode(text, truncated) && |text| <= MAX_OUTPUT
  {
  }
}
