/** The JSON array framer: `[\n    `, each serialised item (all but the first
    successful one preceded by `,\n    `), then `\n]` on the poll that sees the
    inner stream end, then end-of-stream for good. With the items JSON values,
    a clean run is a JSON array in the sense of section 5 of RFC 8259: the
    newlines and spaces around the brackets and commas are the grammar's
    insignificant whitespace. */
module JsonArray {
  import opened Streams
  import opened StreamError
  import opened Framing

  const Open: string := "[\n    "
  const Close: string := "\n]"

  /** An answer of the inner stream of `Result<T, E>` items. */
  type Answer<T, E> = Poll<Option<Result<T, E>>>

  /** One item of the inner stream, serialised: a source error is wrapped as
      `SourceError`, a serialisation failure as `SerdeError`. */
  function EncodeValue<T, E>(res: Result<T, E>, ser: T -> Result<string, Failure>): (r: Chunk<E>)
    ensures r.Ok? <==> res.Ok? && ser(res.value).Ok?
    ensures r.Ok? ==> r.value == ser(res.value).value
    ensures res.Err? ==> r == Err(SourceError(res.error))
    ensures res.Ok? && ser(res.value).Err? ==> r == Err(SerdeError(ser(res.value).error))
  {
    match res
    case Ok(value) =>
      (match ser(value)
       case Ok(s) => Ok(s)
       case Err(f) => Err(SerdeError(f)))
    case Err(e) => Err(SourceError(e))
  }

  /** An inner answer with its item serialised; pending and end pass unchanged. */
  function EncodeAnswer<T, E>(p: Answer<T, E>, ser: T -> Result<string, Failure>): Event<E>
  {
    match p
    case Pending => Pending
    case Ready(None) => Ready(None)
    case Ready(Some(res)) => Ready(Some(EncodeValue(res, ser)))
  }

  function EncodeAnswers<T, E>(ps: seq<Answer<T, E>>, ser: T -> Result<string, Failure>): (r: seq<Event<E>>)
    ensures |r| == |ps|
    ensures forall i | 0 <= i < |ps| :: r[i] == EncodeAnswer(ps[i], ser)
  {
    if ps == [] then [] else [EncodeAnswer(ps[0], ser)] + EncodeAnswers(ps[1..], ser)
  }

  /** The inner answers of a stream that yields `items` and then ends. */
  function ItemAnswers<T, E>(items: seq<T>): (r: seq<Answer<T, E>>)
    ensures |r| == |items|
    ensures forall i | 0 <= i < |items| :: r[i] == Ready(Some(Ok(items[i])))
  {
    if items == [] then [] else [Ready(Some(Ok(items[0])))] + ItemAnswers(items[1..])
  }

  /** The serialisations of `items`, all of which serialise. */
  function Serialized<T>(items: seq<T>, ser: T -> Result<string, Failure>): (r: seq<string>)
    requires forall i | 0 <= i < |items| :: ser(items[i]).Ok?
    ensures |r| == |items|
    ensures forall i | 0 <= i < |items| :: r[i] == ser(items[i]).value
  {
    if items == [] then [] else [ser(items[0]).value] + Serialized(items[1..], ser)
  }

  class JsonArrayStream<T, E> {
    var openingEmitted: bool
    var closingEmitted: bool
    var isFirst: bool
    const stream: Script<Answer<T, E>>

    function State(): Flags
      reads this
    {
      Flags(openingEmitted, closingEmitted, isFirst)
    }

    /** The flags are reachable from a new framer: no closing token before the
        opening one, and no item before the opening token. */
    predicate Valid()
      reads this
    {
      Reachable(State())
    }

    constructor From(stream: Script<Answer<T, E>>)
      ensures State() == Start && this.stream == stream
      ensures Valid()
    {
      openingEmitted := false;
      closingEmitted := false;
      isFirst := true;
      this.stream := stream;
    }

    /** One poll. The new flags, the output and whether the inner stream was
        polled are those of `FrameStep` on the inner stream's next answer,
        serialised. */
    method PollNext(ser: T -> Result<string, Failure>) returns (out: Event<E>)
      requires Valid()
      modifies this, stream
      ensures Valid()
      ensures var st := FrameStep(old(State()), EncodeAnswer(old(stream.Upcoming()), ser), Open, Close);
        && State() == st.flags && out == st.out
        && stream.polls == old(stream.polls) + (if st.pulled then 1 else 0)
    {
      if !openingEmitted {
        openingEmitted := true;
        out := Ready(Some(Ok(Open)));
      } else if closingEmitted {
        out := Ready(None);
      } else {
        var p := stream.Next();
        match p
        case Pending =>
          out := Pending;
        case Ready(Some(res)) =>
          var newRes := EncodeValue(res, ser);
          if newRes.Ok? {
            var valueStr := newRes.value;
            if isFirst {
              isFirst := false;
            } else {
              valueStr := Separator + valueStr;
            }
            newRes := Ok(valueStr);
          }
          out := Ready(Some(newRes));
        case Ready(None) =>
          closingEmitted := true;
          out := Ready(Some(Ok(Close)));
      }
    }
  }

  /** The outputs of `n` polls of a new array framer whose inner stream answers
      `answers` and then ends. */
  function ArrayRun<T, E>(answers: seq<Answer<T, E>>, ser: T -> Result<string, Failure>, n: nat): (outs: seq<Event<E>>)
    ensures |outs| == n
  {
    FrameRun(Start, EncodeAnswers(answers, ser), Open, Close, n)
  }

  /** The inner stream's next answer, serialised, is the head of what is left
      of `answers` after `polls` polls, serialised; polling it leaves the rest. */
  lemma UpcomingEncoded<T, E>(answers: seq<Answer<T, E>>, ser: T -> Result<string, Failure>, polls: nat)
    ensures Head(EncodeAnswers(Drop(answers, polls), ser))
         == EncodeAnswer(if polls < |answers| then answers[polls] else Ready(None), ser)
    ensures Rest(EncodeAnswers(Drop(answers, polls), ser)) == EncodeAnswers(Drop(answers, polls + 1), ser)
  {
    DropNext(answers, polls);
    var ev := EncodeAnswers(Drop(answers, polls), ser);
    if polls < |answers| {
      assert ev[1..] == EncodeAnswers(Drop(answers, polls + 1), ser);
    }
  }

  /** One more poll of a run part-way through `answers`: the outputs so far
      plus the step's output, followed by the run from the new flags over what
      is left once the step has (or has not) polled the inner stream, are
      still the whole run. */
  lemma RunOnePoll<T, E>(outs: seq<Event<E>>, f: Flags, answers: seq<Answer<T, E>>, ser: T -> Result<string, Failure>,
                         polls: nat, m: nat, whole: seq<Event<E>>)
    requires m > 0
    requires outs + FrameRun(f, EncodeAnswers(Drop(answers, polls), ser), Open, Close, m) == whole
    ensures var st := FrameStep(f, EncodeAnswer(if polls < |answers| then answers[polls] else Ready(None), ser), Open, Close);
      (outs + [st.out]) + FrameRun(st.flags, EncodeAnswers(Drop(answers, polls + (if st.pulled then 1 else 0)), ser), Open, Close, m - 1)
        == whole
  {
    UpcomingEncoded(answers, ser, polls);
    FrameRunOnePoll(outs, f, EncodeAnswers(Drop(answers, polls), ser), Open, Close, m, whole);
  }

  /** Polls a new array framer `n` times over an inner stream that answers
      `answers` and then ends; the outputs are those of the run. */
  method CollectPolls<T, E>(answers: seq<Answer<T, E>>, ser: T -> Result<string, Failure>, n: nat)
    returns (outs: seq<Event<E>>)
    ensures outs == ArrayRun(answers, ser, n)
  {
    var inner := new Script<Answer<T, E>>(answers, Ready(None));
    var s := new JsonArrayStream<T, E>.From(inner);
    assert Drop(answers, 0) == answers;
    outs := [];
    var i := 0;
    while i < n
      invariant i <= n
      invariant s.stream == inner && inner.answers == answers && inner.afterwards == Ready(None)
      invariant s.Valid()
      invariant outs + FrameRun(s.State(), EncodeAnswers(Drop(answers, inner.polls), ser), Open, Close, n - i)
             == ArrayRun(answers, ser, n)
    {
      RunOnePoll(outs, s.State(), answers, ser, inner.polls, n - i, ArrayRun(answers, ser, n));
      var out := s.PollNext(ser);
      outs := outs + [out];
      i := i + 1;
    }
  }

  /** A clean run over `n` items that all serialise: `n + 2` successful chunks
      (the opening token, the items with `,\n    ` in front of all but the
      first, the closing token) and then end-of-stream on every later poll.
      Together they spell `[\n    ` + the items joined by `,\n    ` + `\n]`. */
  lemma ArrayCleanRun<T, E>(items: seq<T>, ser: T -> Result<string, Failure>, k: nat)
    requires forall i | 0 <= i < |items| :: ser(items[i]).Ok?
    ensures var outs := ArrayRun(ItemAnswers<T, E>(items), ser, |items| + 2 + k);
      && outs[0] == Ready(Some(Ok(Open)))
      && (forall i | 0 <= i < |items| ::
            outs[1 + i] == Ready(Some(Ok(if i == 0 then ser(items[i]).value else Separator + ser(items[i]).value))))
      && outs[|items| + 1] == Ready(Some(Ok(Close)))
      && (forall i | |items| + 2 <= i < |outs| :: outs[i] == Ready(None))
      && CountOk(outs) == |items| + 2
      && OkText(outs) == "[\n    " + Join(Serialized(items, ser), ",\n    ") + "\n]"
  {
    var strs := Serialized(items, ser);
    assert EncodeAnswers(ItemAnswers<T, E>(items), ser) == OkEvents<E>(strs);
    assert ArrayRun(ItemAnswers<T, E>(items), ser, |items| + 2 + k) == FrameRun(Start, OkEvents<E>(strs), Open, Close, |strs| + 2 + k);
    CleanRunShape<E>(strs, Open, Close, k);
    CleanRunText<E>(strs, Open, Close, k);
  }

  /** An inner stream that ends at once gives `[\n    \n]`. */
  lemma EmptyArray<T, E>(ser: T -> Result<string, Failure>)
    ensures OkText(ArrayRun<T, E>([], ser, 2)) == "[\n    \n]"
    ensures ArrayRun<T, E>([], ser, 3)[2] == Ready(None)
  {
    ArrayCleanRun<T, E>([], ser, 0);
    ArrayCleanRun<T, E>([], ser, 1);
  }

  /** Any run, whatever errors and pending polls it meets, spells a prefix of
      `[\n    ` + the items that serialised, joined by `,\n    ` + `\n]`, and
      all of it once the run has polled past the inner stream's end: an item
      that fails leaves no stray separator. */
  lemma ArrayRunText<T, E>(answers: seq<Answer<T, E>>, ser: T -> Result<string, Failure>, n: nat)
    ensures OkText(ArrayRun(answers, ser, n)) <= Open + Join(Successes(EncodeAnswers(answers, ser)), Separator) + Close
    ensures n > Horizon(EncodeAnswers(answers, ser)) ==>
      OkText(ArrayRun(answers, ser, n)) == Open + Join(Successes(EncodeAnswers(answers, ser)), Separator) + Close
  {
    FrameRunText(EncodeAnswers(answers, ser), Open, Close, n);
  }

  /** Every error the array framer answers keeps its variant end to end: a
      `SourceError` carries an error the inner stream answered, a `SerdeError`
      the failure of an item that did not serialise, and `HexError` never
      appears. Its status, response and text are therefore those of the
      wrapped error. */
  lemma ArrayErrorsTraceBack<T, E>(answers: seq<Answer<T, E>>, ser: T -> Result<string, Failure>, n: nat,
                                   src: SourceBehaviour<E>)
    ensures forall i | 0 <= i < n && IsErr(ArrayRun(answers, ser, n)[i]) ::
      var err := ArrayRun(answers, ser, n)[i].value.value.error;
      && !err.HexError?
      && (err.SourceError? ==>
            (exists j | 0 <= j < |answers| :: answers[j] == Ready(Some(Err(err.source))))
            && StatusCode(err, src) == src.statusCode(err.source)
            && ErrorResponse(err, src) == src.errorResponse(err.source)
            && Display(err, src) == src.display(err.source) && Debug(err, src) == src.debug(err.source))
      && (err.SerdeError? ==>
            (exists j | 0 <= j < |answers| ::
               answers[j].Ready? && answers[j].value.Some? && answers[j].value.value.Ok?
               && ser(answers[j].value.value.value) == Err(err.serde))
            && StatusCode(err, src) == InternalServerError
            && ErrorResponse(err, src) == JsonInternalServerErrorResponse()
            && Display(err, src) == err.serde.display && Debug(err, src) == err.serde.debug)
  {
    var ev := EncodeAnswers(answers, ser);
    var outs := ArrayRun(answers, ser, n);
    FrameRunErrors(Start, ev, Open, Close, n);
    forall i | 0 <= i < n && IsErr(outs[i])
      ensures outs[i].value.value.error.SourceError? ==>
        exists j | 0 <= j < |answers| :: answers[j] == Ready(Some(Err(outs[i].value.value.error.source)))
      ensures outs[i].value.value.error.SerdeError? ==>
        exists j | 0 <= j < |answers| ::
          answers[j].Ready? && answers[j].value.Some? && answers[j].value.value.Ok?
          && ser(answers[j].value.value.value) == Err(outs[i].value.value.error.serde)
      ensures !outs[i].value.value.error.HexError?
    {
      var k :| 0 <= k < |ev| && ev[k] == outs[i];
      assert ev[k] == EncodeAnswer(answers[k], ser);
    }
  }

  /** An inner stream that yields `a`, then an error, then ends: the opening
      token, `a`, the wrapped error, and still the closing token on the poll
      that sees the end. */
  lemma ErrorAfterFirstItem<T, E>(a: T, e: E, s: string, ser: T -> Result<string, Failure>)
    requires ser(a) == Ok(s)
    ensures ArrayRun<T, E>([Ready(Some(Ok(a))), Ready(Some(Err(e)))], ser, 5)
         == [Ready(Some(Ok("[\n    "))), Ready(Some(Ok(s))), Ready(Some(Err(SourceError(e)))),
             Ready(Some(Ok("\n]"))), Ready(None)]
  {
  }

  /** An error before the first item does not use up the first position: the
      item after it still comes without a separator. */
  lemma ErrorBeforeFirstItem<T, E>(a: T, e: E, s: string, ser: T -> Result<string, Failure>)
    requires ser(a) == Ok(s)
    ensures ArrayRun<T, E>([Ready(Some(Err(e))), Ready(Some(Ok(a)))], ser, 4)
         == [Ready(Some(Ok("[\n    "))), Ready(Some(Err(SourceError(e)))), Ready(Some(Ok(s))), Ready(Some(Ok("\n]")))]
  {
  }
}
