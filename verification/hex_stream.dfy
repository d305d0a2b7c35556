/** The hex line encoder: every chunk of bytes from the inner stream becomes
    its lowercase base16 text (the encoding of section 8 of RFC 4648, with the
    lowercase alphabet), and every chunk after the first successful one gets
    the configured line ending appended after its hex digits. Pending polls,
    end-of-stream and errors pass through; there is no closing token. */
module Hex {
  import opened Streams
  import opened StreamError

  newtype byte = x: int | 0 <= x < 256

  predicate IsLineBreak(c: char)
  {
    c == '\r' || c == '\n'
  }

  predicate IsLowerHexDigit(c: char)
  {
    ('0' <= c <= '9') || ('a' <= c <= 'f')
  }

  datatype LineEnding = CrLf | Lf {

    /** The text appended after a chunk: only line-break characters, ending in `\n`. */
    function Value(): (s: string)
      ensures |s| >= 1 && s[|s| - 1] == '\n'
      ensures forall i | 0 <= i < |s| :: IsLineBreak(s[i])
    {
      match this
      case CrLf => "\r\n"
      case Lf => "\n"
    }

    /** The name the line ending has when it is (de)serialised. */
    function Name(): string
    {
      match this
      case CrLf => "crlf"
      case Lf => "lf"
    }
  }

  function DefaultLineEnding(): LineEnding
  {
    CrLf
  }

  /** The line ending a serialised name stands for, if any. */
  function ParseLineEnding(s: string): (r: Option<LineEnding>)
  {
    if s == "crlf" then Some(CrLf)
    else if s == "lf" then Some(Lf)
    else None
  }

  /** `CrLf` is `\r\n` and the default; `Lf` is `\n`. */
  lemma LineEndingValues()
    ensures CrLf.Value() == "\r\n" && Lf.Value() == "\n"
    ensures DefaultLineEnding() == CrLf
  {
  }

  /** Names and line endings are in one-to-one correspondence. */
  lemma LineEndingNames(le: LineEnding, s: string)
    ensures ParseLineEnding(le.Name()) == Some(le)
    ensures ParseLineEnding(s).Some? ==> ParseLineEnding(s).value.Name() == s
  {
  }

  /** The lowercase hex digit of `n`. */
  function HexDigit(n: int): (c: char)
    requires 0 <= n < 16
    ensures IsLowerHexDigit(c)
  {
    if n < 10 then ('0' as int + n) as char else ('a' as int + n - 10) as char
  }

  /** The value of a hex digit of either case. */
  function DigitValue(c: char): (r: Option<int>)
    ensures r.Some? ==> 0 <= r.value < 16
  {
    if '0' <= c <= '9' then Some(c as int - '0' as int)
    else if 'a' <= c <= 'f' then Some(c as int - 'a' as int + 10)
    else if 'A' <= c <= 'F' then Some(c as int - 'A' as int + 10)
    else None
  }

  function HexByte(b: byte): string
  {
    [HexDigit(b as int / 16), HexDigit(b as int % 16)]
  }

  /** The lowercase hex text of `bytes`: two digits per byte, high nibble first. */
  function HexEncode(bytes: seq<byte>): (s: string)
    ensures |s| == 2 * |bytes|
    ensures forall i | 0 <= i < |s| :: IsLowerHexDigit(s[i])
  {
    if bytes == [] then "" else HexByte(bytes[0]) + HexEncode(bytes[1..])
  }

  /** A standard hex decoder: pairs of digits of either case, high nibble first;
      an odd length or a non-digit is refused. */
  function HexDecode(s: string): Option<seq<byte>>
  {
    if |s| == 0 then Some([])
    else if |s| == 1 then None
    else
      match (DigitValue(s[0]), DigitValue(s[1]), HexDecode(s[2..]))
      case (Some(hi), Some(lo), Some(rest)) => Some([(hi * 16 + lo) as byte] + rest)
      case _ => None
  }

  lemma {:induction false} HexRoundTrip(bytes: seq<byte>)
    ensures HexDecode(HexEncode(bytes)) == Some(bytes)
  {
    if bytes != [] {
      var s := HexEncode(bytes);
      var b := bytes[0] as int;
      assert s[2..] == HexEncode(bytes[1..]);
      assert DigitValue(s[0]) == Some(b / 16);
      assert DigitValue(s[1]) == Some(b % 16);
      HexRoundTrip(bytes[1..]);
      assert [(b / 16 * 16 + b % 16) as byte] + bytes[1..] == bytes;
    }
  }

  lemma {:induction false} HexEncodeAppend(a: seq<byte>, b: seq<byte>)
    ensures HexEncode(a + b) == HexEncode(a) + HexEncode(b)
  {
    if a != [] {
      assert (a + b)[1..] == a[1..] + b;
      HexEncodeAppend(a[1..], b);
    } else {
      assert a + b == b;
    }
  }

  /** `s` with every `\r` and `\n` removed. */
  function StripLineBreaks(s: string): (r: string)
    ensures forall i | 0 <= i < |r| :: !IsLineBreak(r[i])
  {
    if s == [] then ""
    else (if IsLineBreak(s[0]) then "" else [s[0]]) + StripLineBreaks(s[1..])
  }

  lemma {:induction false} StripAppend(a: string, b: string)
    ensures StripLineBreaks(a + b) == StripLineBreaks(a) + StripLineBreaks(b)
  {
    if a != [] {
      assert (a + b)[1..] == a[1..] + b;
      StripAppend(a[1..], b);
    } else {
      assert a + b == b;
    }
  }

  lemma {:induction false} StripKeeps(s: string)
    requires forall i | 0 <= i < |s| :: !IsLineBreak(s[i])
    ensures StripLineBreaks(s) == s
  {
    if s != [] {
      StripKeeps(s[1..]);
    }
  }

  lemma {:induction false} StripDrops(s: string)
    requires forall i | 0 <= i < |s| :: IsLineBreak(s[i])
    ensures StripLineBreaks(s) == ""
  {
    if s != [] {
      StripDrops(s[1..]);
    }
  }

  /** An answer of the inner stream of byte chunks. */
  type Answer<E> = Poll<Option<Result<seq<byte>, E>>>

  /** An output poll of the hex encoder. */
  type Output<E> = Poll<Option<Result<string, SerializedStreamError<E>>>>

  /** One poll: the new `isFirst` and the output. */
  datatype HexStep<E> = HexStep(isFirst: bool, out: Output<E>)

  function HexPoll<E>(isFirst: bool, le: LineEnding, next: Answer<E>): HexStep<E>
  {
    match next
    case Pending => HexStep(isFirst, Pending)
    case Ready(Some(Ok(bytes))) =>
      HexStep(false, Ready(Some(Ok(if isFirst then HexEncode(bytes) else HexEncode(bytes) + le.Value()))))
    case Ready(Some(Err(e))) => HexStep(isFirst, Ready(Some(Err(SourceError(e)))))
    case Ready(None) => HexStep(isFirst, Ready(None))
  }

  class HexStream<E> {
    var isFirst: bool
    const lineEnding: LineEnding
    const stream: Script<Answer<E>>

    constructor From(stream: Script<Answer<E>>, lineEnding: LineEnding)
      ensures isFirst && this.lineEnding == lineEnding && this.stream == stream
    {
      isFirst := true;
      this.lineEnding := lineEnding;
      this.stream := stream;
    }

    /** One poll. Every poll polls the inner stream once (also after it has
        ended); the new `isFirst` and the output are those of `HexPoll`. */
    method PollNext() returns (out: Output<E>)
      modifies this, stream
      ensures stream.polls == old(stream.polls) + 1
      ensures HexStep(isFirst, out) == HexPoll(old(isFirst), lineEnding, old(stream.Upcoming()))
    {
      var p := stream.Next();
      match p
      case Pending =>
        out := Pending;
      case Ready(Some(Ok(bytes))) =>
        var hexBytes := HexEncode(bytes);
        if isFirst {
          isFirst := false;
        } else {
          hexBytes := hexBytes + lineEnding.Value();
        }
        out := Ready(Some(Ok(hexBytes)));
      case Ready(Some(Err(e))) =>
        out := Ready(Some(Err(SourceError(e))));
      case Ready(None) =>
        out := Ready(None);
    }
  }

  /** The outputs of an encoder with `isFirst` polled once per inner answer. */
  function HexRun<E>(isFirst: bool, le: LineEnding, answers: seq<Answer<E>>): (outs: seq<Output<E>>)
    ensures |outs| == |answers|
  {
    if answers == [] then []
    else
      var st := HexPoll(isFirst, le, answers[0]);
      [st.out] + HexRun(st.isFirst, le, answers[1..])
  }

  /** One more poll of a run: the outputs so far plus the step's output,
      followed by the run over the remaining answers, are still the whole run. */
  lemma HexRunOnePoll<E>(outs: seq<Output<E>>, first: bool, le: LineEnding, rest: seq<Answer<E>>, whole: seq<Output<E>>)
    requires rest != []
    requires outs + HexRun(first, le, rest) == whole
    ensures var st := HexPoll(first, le, rest[0]);
      (outs + [st.out]) + HexRun(st.isFirst, le, rest[1..]) == whole
  {
    var st := HexPoll(first, le, rest[0]);
    var later := HexRun(st.isFirst, le, rest[1..]);
    assert HexRun(first, le, rest) == [st.out] + later;
    assert outs + ([st.out] + later) == (outs + [st.out]) + later;
  }

  /** Polls a new encoder once per answer of an inner stream that answers
      `answers`; the outputs are those of the run. */
  method CollectPolls<E>(answers: seq<Answer<E>>, le: LineEnding) returns (outs: seq<Output<E>>)
    ensures outs == HexRun(true, le, answers)
  {
    var inner := new Script<Answer<E>>(answers, Ready(None));
    var s := new HexStream<E>.From(inner, le);
    outs := [];
    var i := 0;
    while i < |answers|
      invariant i <= |answers|
      invariant s.stream == inner && s.lineEnding == le && inner.answers == answers && inner.polls == i
      invariant outs + HexRun(s.isFirst, le, answers[i..]) == HexRun(true, le, answers)
    {
      HexRunOnePoll(outs, s.isFirst, le, answers[i..], HexRun(true, le, answers));
      assert answers[i..][0] == answers[i] && answers[i..][1..] == answers[i + 1..];
      var out := s.PollNext();
      outs := outs + [out];
      i := i + 1;
    }
  }

  /** Every output poll mirrors its inner answer: pending stays pending, the
      end stays the end (with no closing token), a source error is wrapped as
      `SourceError`, a chunk gives text; the encoder never reports `HexError`. */
  lemma {:induction false} HexPassThrough<E>(first: bool, le: LineEnding, answers: seq<Answer<E>>)
    ensures var outs := HexRun(first, le, answers);
      forall i | 0 <= i < |answers| ::
        && (outs[i].Pending? <==> answers[i].Pending?)
        && (outs[i].Ready? && outs[i].value.None? <==> answers[i].Ready? && answers[i].value.None?)
        && (answers[i].Ready? && answers[i].value.Some? && answers[i].value.value.Err? ==>
              outs[i] == Ready(Some(Err(SourceError(answers[i].value.value.error)))))
        && (answers[i].Ready? && answers[i].value.Some? && answers[i].value.value.Ok? ==>
              outs[i].Ready? && outs[i].value.Some? && outs[i].value.value.Ok?)
        && !(outs[i].Ready? && outs[i].value.Some? && outs[i].value.value.Err? && outs[i].value.value.error.HexError?)
  {
    if answers != [] {
      var outs := HexRun(first, le, answers);
      var st := HexPoll(first, le, answers[0]);
      assert outs[1..] == HexRun(st.isFirst, le, answers[1..]);
      HexPassThrough(st.isFirst, le, answers[1..]);
    }
  }

  /** Every error the hex encoder answers is the inner stream's own error at
      that position, wrapped as `SourceError`; its status, response and text
      are therefore those of the wrapped error. */
  lemma HexErrorsTraceBack<E>(first: bool, le: LineEnding, answers: seq<Answer<E>>, src: SourceBehaviour<E>)
    ensures forall i | 0 <= i < |answers| && HexRun(first, le, answers)[i].Ready?
                       && HexRun(first, le, answers)[i].value.Some? && HexRun(first, le, answers)[i].value.value.Err? ::
      var err := HexRun(first, le, answers)[i].value.value.error;
      && err.SourceError?
      && answers[i] == Ready(Some(Err(err.source)))
      && StatusCode(err, src) == src.statusCode(err.source)
      && ErrorResponse(err, src) == src.errorResponse(err.source)
      && Display(err, src) == src.display(err.source) && Debug(err, src) == src.debug(err.source)
  {
    HexPassThrough(first, le, answers);
  }

  /** `isFirst` is cleared by a successful chunk and by nothing else: a pending
      poll, a source error and the end leave it as it was. */
  lemma HexIsFirstOnlyOnSuccess<E>(first: bool, le: LineEnding, a: Answer<E>)
    ensures HexPoll(first, le, a).isFirst == (first && !(a.Ready? && a.value.Some? && a.value.value.Ok?))
  {
  }

  /** A source error before the first chunk does not use up the first-chunk
      exemption: the chunk after it still comes without a line ending. */
  lemma ErrorThenChunk<E>(le: LineEnding, e: E, bytes: seq<byte>)
    ensures HexRun(true, le, [Ready(Some(Err(e))), Ready(Some(Ok(bytes)))])
         == [Ready(Some(Err(SourceError(e)))), Ready(Some(Ok(HexEncode(bytes))))]
  {
    var answers: seq<Answer<E>> := [Ready(Some(Err(e))), Ready(Some(Ok(bytes)))];
    assert answers[1..] == [Ready(Some(Ok(bytes)))];
    assert answers[1..][1..] == [];
  }

  /** The chunks of the successful inner answers, in order. */
  function OkChunks<E>(answers: seq<Answer<E>>): (r: seq<seq<byte>>)
    ensures |r| <= |answers|
  {
    if answers == [] then []
    else if answers[0].Ready? && answers[0].value.Some? && answers[0].value.value.Ok? then
      [answers[0].value.value.value] + OkChunks(answers[1..])
    else OkChunks(answers[1..])
  }

  /** The hex text of each chunk followed by the line ending. */
  function HexLines(chunks: seq<seq<byte>>, le: LineEnding): string
  {
    if chunks == [] then "" else HexEncode(chunks[0]) + le.Value() + HexLines(chunks[1..], le)
  }

  /** The text of any run: the hex of every chunk the inner stream delivered,
      each followed by the line ending, except the very first chunk of a fresh
      encoder, which has none (so it runs straight into the second one). */
  lemma {:induction false} HexRunText<E>(first: bool, le: LineEnding, answers: seq<Answer<E>>)
    ensures var chunks := OkChunks(answers);
      OkText(HexRun(first, le, answers))
        == if first && chunks != [] then HexEncode(chunks[0]) + HexLines(chunks[1..], le) else HexLines(chunks, le)
  {
    if answers != [] {
      var outs := HexRun(first, le, answers);
      var st := HexPoll(first, le, answers[0]);
      var rest := HexRun(st.isFirst, le, answers[1..]);
      assert outs[0] == st.out && outs[1..] == rest;
      assert OkText(outs) == ChunkText(st.out) + OkText(rest);
      HexRunText(st.isFirst, le, answers[1..]);
      var chunks := OkChunks(answers);
      var tail := OkChunks(answers[1..]);
      match answers[0]
      case Ready(Some(Ok(bytes))) =>
        assert chunks == [bytes] + tail;
        assert chunks[1..] == tail;
        if !first {
          assert HexLines(chunks, le) == HexEncode(bytes) + le.Value() + HexLines(tail, le);
        }
      case _ =>
        assert chunks == tail;
    }
  }

  /** The inner answers of a stream that yields `chunks`. */
  function ChunkAnswers<E>(chunks: seq<seq<byte>>): (r: seq<Answer<E>>)
    ensures |r| == |chunks|
    ensures forall i | 0 <= i < |chunks| :: r[i] == Ready(Some(Ok(chunks[i])))
  {
    if chunks == [] then [] else [Ready(Some(Ok(chunks[0])))] + ChunkAnswers(chunks[1..])
  }

  /** Over chunks that all arrive, chunk `i` becomes its hex text, with the line
      ending appended after it unless it is the very first. */
  lemma {:induction false} HexCleanRun<E>(first: bool, le: LineEnding, chunks: seq<seq<byte>>)
    ensures var outs := HexRun(first, le, ChunkAnswers<E>(chunks));
      forall i | 0 <= i < |chunks| ::
        outs[i] == Ready(Some(Ok(if first && i == 0 then HexEncode(chunks[i]) else HexEncode(chunks[i]) + le.Value())))
  {
    if chunks != [] {
      var answers := ChunkAnswers<E>(chunks);
      var outs := HexRun(first, le, answers);
      var tail := ChunkAnswers<E>(chunks[1..]);
      assert answers[0] == Ready(Some(Ok(chunks[0])));
      assert answers[1..] == tail;
      var rest := HexRun(false, le, tail);
      assert outs[1..] == rest;
      HexCleanRun<E>(false, le, chunks[1..]);
      forall i | 1 <= i < |chunks|
        ensures outs[i] == Ready(Some(Ok(HexEncode(chunks[i]) + le.Value())))
      {
        assert outs[i] == rest[i - 1];
        assert chunks[1..][i - 1] == chunks[i];
      }
    }
  }

  /** The bytes of the successful inner answers, in order, concatenated. */
  function OkBytes<E>(answers: seq<Answer<E>>): seq<byte>
  {
    if answers == [] then [] else ChunkBytes(answers[0]) + OkBytes(answers[1..])
  }

  /** The bytes of one inner answer: its chunk if it is a success, else nothing. */
  function ChunkBytes<E>(a: Answer<E>): seq<byte>
  {
    match a
    case Ready(Some(Ok(bytes))) => bytes
    case _ => []
  }

  /** One poll: its text, with the line breaks taken out, is the hex of the
      answer's bytes. */
  lemma PollStripped<E>(first: bool, le: LineEnding, a: Answer<E>)
    ensures StripLineBreaks(ChunkText(HexPoll(first, le, a).out)) == HexEncode(ChunkBytes(a))
  {
    match a
    case Ready(Some(Ok(bytes))) =>
      StripKeeps(HexEncode(bytes));
      if !first {
        StripAppend(HexEncode(bytes), le.Value());
        StripDrops(le.Value());
      }
    case _ =>
  }

  /** With the line breaks taken out, the text of any run is the hex text of
      all bytes the inner stream delivered, in order. */
  lemma {:induction false} HexRunStripped<E>(first: bool, le: LineEnding, answers: seq<Answer<E>>)
    ensures StripLineBreaks(OkText(HexRun(first, le, answers))) == HexEncode(OkBytes(answers))
  {
    if answers != [] {
      var outs := HexRun(first, le, answers);
      var st := HexPoll(first, le, answers[0]);
      var rest := HexRun(st.isFirst, le, answers[1..]);
      assert outs[0] == st.out && outs[1..] == rest;
      HexRunStripped(st.isFirst, le, answers[1..]);
      StripAppend(ChunkText(st.out), OkText(rest));
      PollStripped(first, le, answers[0]);
      HexEncodeAppend(ChunkBytes(answers[0]), OkBytes(answers[1..]));
    }
  }

  /** Decoding the text of any run, with the line breaks taken out, gives back
      exactly the bytes the inner stream delivered. */
  lemma HexRunRoundTrip<E>(first: bool, le: LineEnding, answers: seq<Answer<E>>)
    ensures HexDecode(StripLineBreaks(OkText(HexRun(first, le, answers)))) == Some(OkBytes(answers))
  {
    HexRunStripped(first, le, answers);
    HexRoundTrip(OkBytes(answers));
  }

  /** The chunks `[0x00]` and `[0xFF]` with `CrLf` give `"00"` and then `"ff\r\n"`. */
  lemma TwoChunksCrLf<E>()
    ensures HexRun<E>(true, CrLf, [Ready(Some(Ok([0 as byte]))), Ready(Some(Ok([255 as byte])))])
         == [Ready(Some(Ok("00"))), Ready(Some(Ok("ff\r\n")))]
  {
    var chunks: seq<seq<byte>> := [[0 as byte], [255 as byte]];
    assert ChunkAnswers<E>(chunks) == [Ready(Some(Ok([0 as byte]))), Ready(Some(Ok([255 as byte])))];
    HexCleanRun<E>(true, CrLf, chunks);
    assert HexEncode([0 as byte]) == "00";
    assert HexEncode([255 as byte]) == "ff";
    var outs := HexRun<E>(true, CrLf, ChunkAnswers<E>(chunks));
    assert HexEncode([255 as byte]) + CrLf.Value() == "ff\r\n";
  }
}
