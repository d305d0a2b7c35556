/** The JSON object framer: the same flag machine as the array framer over a
    stream of `(key, value)` pairs: `{\n    `, then each member
    `key: value` (all but the first successful one preceded by `,\n    `),
    then `\n}` on the poll that sees the inner stream end. With serialised
    keys JSON strings and serialised values JSON values, a clean run is a
    JSON object in the sense of section 4 of RFC 8259. It frames one flat
    object from one source. */
module JsonMap {
  import opened Streams
  import opened StreamError
  import opened Framing

  const Open: string := "{\n    "
  const Close: string := "\n}"

  /** An answer of the inner stream of `Result<(key, value), E>` items. */
  type Answer<T, E> = Poll<Option<Result<(string, T), E>>>

  /** The member text of one item: the serialised key, `": "`, the serialised
      value. A source error is wrapped as `SourceError`; a key that fails to
      serialise is reported before the value is looked at; a value that fails
      is reported after a key that serialised. */
  function EncodeMember<T, E>(res: Result<(string, T), E>,
                             serKey: string -> Result<string, Failure>,
                             serValue: T -> Result<string, Failure>): (r: Chunk<E>)
    ensures res.Err? ==> r == Err(SourceError(res.error))
    ensures res.Ok? && serKey(res.value.0).Err? ==> r == Err(SerdeError(serKey(res.value.0).error))
    ensures res.Ok? && serKey(res.value.0).Ok? && serValue(res.value.1).Err? ==>
      r == Err(SerdeError(serValue(res.value.1).error))
    ensures r.Ok? <==> res.Ok? && serKey(res.value.0).Ok? && serValue(res.value.1).Ok?
    ensures r.Ok? ==> r.value == serKey(res.value.0).value + ": " + serValue(res.value.1).value
  {
    match res
    case Err(e) => Err(SourceError(e))
    case Ok((key, value)) =>
      match serKey(key)
      case Err(f) => Err(SerdeError(f))
      case Ok(k) =>
        match serValue(value)
        case Err(f) => Err(SerdeError(f))
        case Ok(v) => Ok(k + ": " + v)
  }

  /** An inner answer with its member serialised; pending and end pass unchanged. */
  function EncodeAnswer<T, E>(p: Answer<T, E>,
                             serKey: string -> Result<string, Failure>,
                             serValue: T -> Result<string, Failure>): Event<E>
  {
    match p
    case Pending => Pending
    case Ready(None) => Ready(None)
    case Ready(Some(res)) => Ready(Some(EncodeMember(res, serKey, serValue)))
  }

  function EncodeAnswers<T, E>(ps: seq<Answer<T, E>>,
                              serKey: string -> Result<string, Failure>,
                              serValue: T -> Result<string, Failure>): (r: seq<Event<E>>)
    ensures |r| == |ps|
    ensures forall i | 0 <= i < |ps| :: r[i] == EncodeAnswer(ps[i], serKey, serValue)
  {
    if ps == [] then [] else [EncodeAnswer(ps[0], serKey, serValue)] + EncodeAnswers(ps[1..], serKey, serValue)
  }

  /** The inner answers of a stream that yields `entries` and then ends. */
  function EntryAnswers<T, E>(entries: seq<(string, T)>): (r: seq<Answer<T, E>>)
    ensures |r| == |entries|
    ensures forall i | 0 <= i < |entries| :: r[i] == Ready(Some(Ok(entries[i])))
  {
    if entries == [] then [] else [Ready(Some(Ok(entries[0])))] + EntryAnswers(entries[1..])
  }

  /** The member texts of `entries`, all of which serialise. */
  function Members<T>(entries: seq<(string, T)>,
                      serKey: string -> Result<string, Failure>,
                      serValue: T -> Result<string, Failure>): (r: seq<string>)
    requires forall i | 0 <= i < |entries| :: serKey(entries[i].0).Ok? && serValue(entries[i].1).Ok?
    ensures |r| == |entries|
    ensures forall i | 0 <= i < |entries| ::
      r[i] == serKey(entries[i].0).value + ": " + serValue(entries[i].1).value
  {
    if entries == [] then []
    else [serKey(entries[0].0).value + ": " + serValue(entries[0].1).value]
         + Members(entries[1..], serKey, serValue)
  }

  class JsonMapStream<T, E> {
    var openingEmitted: bool
    var closingEmitted: bool
    var isFirst: bool
    const stream: Script<Answer<T, E>>

    function State(): Flags
      reads this
    {
      Flags(openingEmitted, closingEmitted, isFirst)
    }

    /** The flags are reachable from a new framer: no closing token before the
        opening one, and no member before the opening token. */
    predicate Valid()
      reads this
    {
      Reachable(State())
    }

    constructor From(stream: Script<Answer<T, E>>)
      ensures State() == Start && this.stream == stream
      ensures Valid()
    {
      openingEmitted := false;
      closingEmitted := false;
      isFirst := true;
      this.stream := stream;
    }

    /** One poll. The new flags, the output and whether the inner stream was
        polled are those of `FrameStep` on the inner stream's next answer with
        its member serialised. */
    method PollNext(serKey: string -> Result<string, Failure>, serValue: T -> Result<string, Failure>)
      returns (out: Event<E>)
      requires Valid()
      modifies this, stream
      ensures Valid()
      ensures var st := FrameStep(old(State()), EncodeAnswer(old(stream.Upcoming()), serKey, serValue), Open, Close);
        && State() == st.flags && out == st.out
        && stream.polls == old(stream.polls) + (if st.pulled then 1 else 0)
    {
      if !openingEmitted {
        openingEmitted := true;
        out := Ready(Some(Ok(Open)));
      } else if closingEmitted {
        out := Ready(None);
      } else {
        var p := stream.Next();
        match p
        case Pending =>
          out := Pending;
        case Ready(Some(res)) =>
          var lineRes := EncodeMember(res, serKey, serValue);
          if lineRes.Ok? {
            var line := lineRes.value;
            if isFirst {
              isFirst := false;
            } else {
              line := Separator + line;
            }
            lineRes := Ok(line);
          }
          out := Ready(Some(lineRes));
        case Ready(None) =>
          closingEmitted := true;
          out := Ready(Some(Ok(Close)));
      }
    }
  }

  /** The outputs of `n` polls of a new object framer whose inner stream
      answers `answers` and then ends. */
  function MapRun<T, E>(answers: seq<Answer<T, E>>,
                        serKey: string -> Result<string, Failure>,
                        serValue: T -> Result<string, Failure>, n: nat): (outs: seq<Event<E>>)
    ensures |outs| == n
  {
    FrameRun(Start, EncodeAnswers(answers, serKey, serValue), Open, Close, n)
  }

  /** The inner stream's next answer, with its member serialised, is the head
      of what is left of `answers` after `polls` polls, serialised; polling it
      leaves the rest. */
  lemma UpcomingEncoded<T, E>(answers: seq<Answer<T, E>>,
                              serKey: string -> Result<string, Failure>,
                              serValue: T -> Result<string, Failure>, polls: nat)
    ensures Head(EncodeAnswers(Drop(answers, polls), serKey, serValue))
         == EncodeAnswer(if polls < |answers| then answers[polls] else Ready(None), serKey, serValue)
    ensures Rest(EncodeAnswers(Drop(answers, polls), serKey, serValue))
         == EncodeAnswers(Drop(answers, polls + 1), serKey, serValue)
  {
    DropNext(answers, polls);
    var ev := EncodeAnswers(Drop(answers, polls), serKey, serValue);
    if polls < |answers| {
      assert ev[1..] == EncodeAnswers(Drop(answers, polls + 1), serKey, serValue);
    }
  }

  /** One more poll of a run part-way through `answers`: the outputs so far
      plus the step's output, followed by the run from the new flags over what
      is left, are still the whole run. */
  lemma RunOnePoll<T, E>(outs: seq<Event<E>>, f: Flags, answers: seq<Answer<T, E>>,
                         serKey: string -> Result<string, Failure>,
                         serValue: T -> Result<string, Failure>,
                         polls: nat, m: nat, whole: seq<Event<E>>)
    requires m > 0
    requires outs + FrameRun(f, EncodeAnswers(Drop(answers, polls), serKey, serValue), Open, Close, m) == whole
    ensures var st := FrameStep(f, EncodeAnswer(if polls < |answers| then answers[polls] else Ready(None), serKey, serValue),
                                Open, Close);
      (outs + [st.out])
        + FrameRun(st.flags, EncodeAnswers(Drop(answers, polls + (if st.pulled then 1 else 0)), serKey, serValue), Open, Close, m - 1)
        == whole
  {
    UpcomingEncoded(answers, serKey, serValue, polls);
    FrameRunOnePoll(outs, f, EncodeAnswers(Drop(answers, polls), serKey, serValue), Open, Close, m, whole);
  }

  /** Polls a new object framer `n` times over an inner stream that answers
      `answers` and then ends; the outputs are those of the run. */
  method CollectPolls<T, E>(answers: seq<Answer<T, E>>,
                            serKey: string -> Result<string, Failure>,
                            serValue: T -> Result<string, Failure>, n: nat)
    returns (outs: seq<Event<E>>)
    ensures outs == MapRun(answers, serKey, serValue, n)
  {
    var inner := new Script<Answer<T, E>>(answers, Ready(None));
    var s := new JsonMapStream<T, E>.From(inner);
    assert Drop(answers, 0) == answers;
    outs := [];
    var i := 0;
    while i < n
      invariant i <= n
      invariant s.stream == inner && inner.answers == answers && inner.afterwards == Ready(None)
      invariant s.Valid()
      invariant outs + FrameRun(s.State(), EncodeAnswers(Drop(answers, inner.polls), serKey, serValue), Open, Close, n - i)
             == MapRun(answers, serKey, serValue, n)
    {
      RunOnePoll(outs, s.State(), answers, serKey, serValue, inner.polls, n - i, MapRun(answers, serKey, serValue, n));
      var out := s.PollNext(serKey, serValue);
      outs := outs + [out];
      i := i + 1;
    }
  }

  lemma CleanAnswers<T, E>(entries: seq<(string, T)>,
                           serKey: string -> Result<string, Failure>,
                           serValue: T -> Result<string, Failure>)
    requires forall i | 0 <= i < |entries| :: serKey(entries[i].0).Ok? && serValue(entries[i].1).Ok?
    ensures EncodeAnswers(EntryAnswers<T, E>(entries), serKey, serValue) == OkEvents<E>(Members(entries, serKey, serValue))
  {
  }

  /** A clean run over `n` entries that all serialise: `n + 2` successful
      chunks (the opening token, the members with `,\n    ` in front of all but
      the first, the closing token) and then end-of-stream on every later poll.
      Together they spell `{\n    ` + the members joined by `,\n    ` + `\n}`. */
  lemma MapCleanRun<T, E>(entries: seq<(string, T)>,
                          serKey: string -> Result<string, Failure>,
                          serValue: T -> Result<string, Failure>, k: nat)
    requires forall i | 0 <= i < |entries| :: serKey(entries[i].0).Ok? && serValue(entries[i].1).Ok?
    ensures var outs := MapRun(EntryAnswers<T, E>(entries), serKey, serValue, |entries| + 2 + k);
      var members := Members(entries, serKey, serValue);
      && outs[0] == Ready(Some(Ok(Open)))
      && (forall i | 0 <= i < |entries| ::
            outs[1 + i] == Ready(Some(Ok(if i == 0 then members[i] else Separator + members[i]))))
      && outs[|entries| + 1] == Ready(Some(Ok(Close)))
      && (forall i | |entries| + 2 <= i < |outs| :: outs[i] == Ready(None))
      && CountOk(outs) == |entries| + 2
      && OkText(outs) == "{\n    " + Join(members, ",\n    ") + "\n}"
  {
    var members := Members(entries, serKey, serValue);
    CleanAnswers<T, E>(entries, serKey, serValue);
    assert MapRun(EntryAnswers<T, E>(entries), serKey, serValue, |entries| + 2 + k)
        == FrameRun(Start, OkEvents<E>(members), Open, Close, |members| + 2 + k);
    CleanRunShape<E>(members, Open, Close, k);
    CleanRunText<E>(members, Open, Close, k);
  }

  /** Every error the object framer answers keeps its variant end to end: a
      `SourceError` carries an error the inner stream answered, a `SerdeError`
      the failure of a key that did not serialise, or of the value of an entry
      whose key did, and `HexError` never appears. Its status, response and
      text are therefore those of the wrapped error. */
  lemma MapErrorsTraceBack<T, E>(answers: seq<Answer<T, E>>,
                                 serKey: string -> Result<string, Failure>,
                                 serValue: T -> Result<string, Failure>, n: nat,
                                 src: SourceBehaviour<E>)
    ensures forall i | 0 <= i < n && IsErr(MapRun(answers, serKey, serValue, n)[i]) ::
      var err := MapRun(answers, serKey, serValue, n)[i].value.value.error;
      && !err.HexError?
      && (err.SourceError? ==>
            (exists j | 0 <= j < |answers| :: answers[j] == Ready(Some(Err(err.source))))
            && StatusCode(err, src) == src.statusCode(err.source)
            && ErrorResponse(err, src) == src.errorResponse(err.source)
            && Display(err, src) == src.display(err.source) && Debug(err, src) == src.debug(err.source))
      && (err.SerdeError? ==>
            (exists j | 0 <= j < |answers| ::
               answers[j].Ready? && answers[j].value.Some? && answers[j].value.value.Ok?
               && (serKey(answers[j].value.value.value.0) == Err(err.serde)
                   || (serKey(answers[j].value.value.value.0).Ok?
                       && serValue(answers[j].value.value.value.1) == Err(err.serde))))
            && StatusCode(err, src) == InternalServerError
            && ErrorResponse(err, src) == JsonInternalServerErrorResponse()
            && Display(err, src) == err.serde.display && Debug(err, src) == err.serde.debug)
  {
    var ev := EncodeAnswers(answers, serKey, serValue);
    var outs := MapRun(answers, serKey, serValue, n);
    FrameRunErrors(Start, ev, Open, Close, n);
    forall i | 0 <= i < n && IsErr(outs[i])
      ensures outs[i].value.value.error.SourceError? ==>
        exists j | 0 <= j < |answers| :: answers[j] == Ready(Some(Err(outs[i].value.value.error.source)))
      ensures outs[i].value.value.error.SerdeError? ==>
        exists j | 0 <= j < |answers| ::
          answers[j].Ready? && answers[j].value.Some? && answers[j].value.value.Ok?
          && (serKey(answers[j].value.value.value.0) == Err(outs[i].value.value.error.serde)
              || (serKey(answers[j].value.value.value.0).Ok?
                  && serValue(answers[j].value.value.value.1) == Err(outs[i].value.value.error.serde)))
      ensures !outs[i].value.value.error.HexError?
    {
      var k :| 0 <= k < |ev| && ev[k] == outs[i];
      assert ev[k] == EncodeAnswer(answers[k], serKey, serValue);
    }
  }

  /** Any run, whatever errors and pending polls it meets, spells a prefix of
      `{\n    ` + the members that serialised, joined by `,\n    ` + `\n}`, and
      all of it once the run has polled past the inner stream's end. */
  lemma MapRunText<T, E>(answers: seq<Answer<T, E>>,
                         serKey: string -> Result<string, Failure>,
                         serValue: T -> Result<string, Failure>, n: nat)
    ensures var members := Successes(EncodeAnswers(answers, serKey, serValue));
      OkText(MapRun(answers, serKey, serValue, n)) <= Open + Join(members, Separator) + Close
    ensures var members := Successes(EncodeAnswers(answers, serKey, serValue));
      n > Horizon(EncodeAnswers(answers, serKey, serValue)) ==>
        OkText(MapRun(answers, serKey, serValue, n)) == Open + Join(members, Separator) + Close
  {
    FrameRunText(EncodeAnswers(answers, serKey, serValue), Open, Close, n);
  }
}
