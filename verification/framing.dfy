/** The framing state machine shared by the JSON array and JSON object
    encoders: an opening token on the first poll, then one encoded item per
    inner item with a separator in front of every successful one but the
    first, then a closing token on the poll that sees the inner stream end,
    then end-of-stream for good.

    The step works on the inner answer with its item already encoded
    (`Chunk`): how an item is encoded does not depend on the flags, and each
    encoder applies its own encoding before the step. */
module Framing {
  import opened Streams
  import opened StreamError

  /** The separator put in front of every successful item but the first. */
  const Separator: string := ",\n    "

  /** An encoded item, or the error that replaced it. */
  type Chunk<E> = Result<string, SerializedStreamError<E>>

  /** An answer of the inner stream with its item encoded, or an output poll. */
  type Event<E> = Poll<Option<Chunk<E>>>

  /** The three flags of a framer. */
  datatype Flags = Flags(openingEmitted: bool, closingEmitted: bool, isFirst: bool)

  /** The flags of a newly constructed framer. */
  const Start: Flags := Flags(false, false, true)

  /** The flags a framer can actually reach from `Start`. */
  predicate Reachable(f: Flags)
  {
    (f.closingEmitted ==> f.openingEmitted) && (!f.openingEmitted ==> f.isFirst)
  }

  /** One poll: the new flags, the output, and whether the inner stream was polled. */
  datatype Step<E> = Step(flags: Flags, out: Event<E>, pulled: bool)

  function FrameStep<E>(f: Flags, next: Event<E>, open: string, close: string): Step<E>
  {
    if !f.openingEmitted then
      Step(f.(openingEmitted := true), Ready(Some(Ok(open))), false)
    else if f.closingEmitted then
      Step(f, Ready(None), false)
    else
      match next
      case Pending => Step(f, Pending, true)
      case Ready(Some(Ok(s))) =>
        Step(f.(isFirst := false), Ready(Some(Ok(if f.isFirst then s else Separator + s))), true)
      case Ready(Some(Err(e))) => Step(f, Ready(Some(Err(e))), true)
      case Ready(None) => Step(f.(closingEmitted := true), Ready(Some(Ok(close))), true)
  }

  /** The first poll answers the opening token and leaves the inner stream alone. */
  lemma OpeningStep<E>(f: Flags, next: Event<E>, open: string, close: string)
    requires !f.openingEmitted
    ensures var st := FrameStep(f, next, open, close);
      st.out == Ready(Some(Ok(open))) && !st.pulled
      && st.flags == Flags(true, f.closingEmitted, f.isFirst)
  {
  }

  /** Once the closing token is out, every poll answers end-of-stream, changes
      nothing and does not poll the inner stream. */
  lemma TerminalStep<E>(f: Flags, next: Event<E>, open: string, close: string)
    requires f.openingEmitted && f.closingEmitted
    ensures FrameStep(f, next, open, close) == Step(f, Ready(None), false)
  {
  }

  /** While streaming: a pending inner poll passes through with the flags
      unchanged, an error passes through with the flags unchanged, a successful
      item gets the separator unless it is the first and clears `isFirst`, and
      the end of the inner stream answers the closing token on the same poll. */
  lemma StreamingStep<E>(f: Flags, next: Event<E>, open: string, close: string)
    requires f.openingEmitted && !f.closingEmitted
    ensures var st := FrameStep(f, next, open, close);
      && st.pulled
      && (next.Pending? ==> st.out == Pending && st.flags == f)
      && (next.Ready? && next.value.Some? && next.value.value.Err? ==> st.out == next && st.flags == f)
      && (next.Ready? && next.value.Some? && next.value.value.Ok? ==>
            st.out == Ready(Some(Ok((if f.isFirst then "" else Separator) + next.value.value.value)))
            && st.flags == Flags(true, false, false))
      && (next == Ready(None) ==> st.out == Ready(Some(Ok(close))) && st.flags == Flags(true, true, f.isFirst))
  {
    if next.Ready? && next.value.Some? && next.value.value.Ok? && f.isFirst {
      assert "" + next.value.value.value == next.value.value.value;
    }
  }

  /** `isFirst` is cleared exactly by a poll that answers a successful item;
      errors, pending polls and framing tokens leave it as it was. */
  lemma IsFirstOnlyOnSuccess<E>(f: Flags, next: Event<E>, open: string, close: string)
    ensures var st := FrameStep(f, next, open, close);
      st.flags.isFirst ==
        (f.isFirst && !(f.openingEmitted && !f.closingEmitted && next.Ready? && next.value.Some? && next.value.value.Ok?))
  {
  }

  lemma StepKeepsReachable<E>(f: Flags, next: Event<E>, open: string, close: string)
    requires Reachable(f)
    ensures Reachable(FrameStep(f, next, open, close).flags)
  {
  }

  /** What the inner stream answers next, when `events` are its remaining
      answers; an inner stream whose answers are used up has ended. */
  function Head<E>(events: seq<Event<E>>): Event<E>
  {
    if events == [] then Ready(None) else events[0]
  }

  function Rest<E>(events: seq<Event<E>>): seq<Event<E>>
  {
    if events == [] then [] else events[1..]
  }

  /** The outputs of `n` polls of a framer with flags `f` whose inner stream
      has `events` left to answer. */
  function FrameRun<E>(f: Flags, events: seq<Event<E>>, open: string, close: string, n: nat): (outs: seq<Event<E>>)
    ensures |outs| == n
    decreases n
  {
    if n == 0 then []
    else
      var st := FrameStep(f, Head(events), open, close);
      [st.out] + FrameRun(st.flags, if st.pulled then Rest(events) else events, open, close, n - 1)
  }

  /** One more poll of a run: the outputs so far plus the step's output,
      followed by the run from the new flags over what the step left, are
      still the whole run. */
  lemma FrameRunOnePoll<E>(outs: seq<Event<E>>, f: Flags, events: seq<Event<E>>, open: string, close: string,
                           m: nat, whole: seq<Event<E>>)
    requires m > 0
    requires outs + FrameRun(f, events, open, close, m) == whole
    ensures var st := FrameStep(f, Head(events), open, close);
      (outs + [st.out]) + FrameRun(st.flags, if st.pulled then Rest(events) else events, open, close, m - 1) == whole
  {
    var st := FrameStep(f, Head(events), open, close);
    var later := FrameRun(st.flags, if st.pulled then Rest(events) else events, open, close, m - 1);
    assert FrameRun(f, events, open, close, m) == [st.out] + later;
    assert outs + ([st.out] + later) == (outs + [st.out]) + later;
  }

  /** The encoded items of the successful inner answers, in order, up to the
      inner stream's end. */
  function Successes<E>(events: seq<Event<E>>): seq<string>
  {
    if events == [] then []
    else match events[0]
      case Ready(None) => []
      case Ready(Some(Ok(s))) => [s] + Successes(events[1..])
      case _ => Successes(events[1..])
  }

  /** The number of inner polls up to and including the one that reports the
      end of the inner stream. */
  function Horizon<E>(events: seq<Event<E>>): (h: nat)
    ensures h >= 1
  {
    if events == [] || (events[0].Ready? && events[0].value.None?) then 1 else 1 + Horizon(events[1..])
  }

  function Join(strs: seq<string>, sep: string): string
  {
    if strs == [] then ""
    else if |strs| == 1 then strs[0]
    else strs[0] + sep + Join(strs[1..], sep)
  }

  /** The items framed from a given `isFirst`: each but a leading first one
      carries the separator. */
  function Body(strs: seq<string>, first: bool): string
  {
    if strs == [] then ""
    else (if first then strs[0] else Separator + strs[0]) + Body(strs[1..], false)
  }

  lemma {:induction false} BodyIsJoin(strs: seq<string>)
    ensures Body(strs, true) == Join(strs, Separator)
    ensures strs != [] ==> Body(strs, false) == Separator + Join(strs, Separator)
  {
    if strs != [] {
      BodyIsJoin(strs[1..]);
      if |strs| == 1 {
        assert strs[1..] == [];
      }
    }
  }

  /** A closed framer answers end-of-stream on every poll. */
  lemma {:induction false} ClosedRun<E>(b: bool, events: seq<Event<E>>, open: string, close: string, n: nat)
    ensures FrameRun(Flags(true, true, b), events, open, close, n) == Ends(n)
  {
    if n > 0 {
      ClosedRun(b, events, open, close, n - 1);
    }
  }

  /** An output poll that reports an error. */
  predicate IsErr<E>(e: Event<E>)
  {
    e.Ready? && e.value.Some? && e.value.value.Err?
  }

  /** Every error a framer answers is one of the inner stream's encoded answers,
      passed on unchanged: the framer itself never makes up an error. */
  lemma {:induction false} FrameRunErrors<E>(f: Flags, events: seq<Event<E>>, open: string, close: string, n: nat)
    ensures forall i | 0 <= i < n && IsErr(FrameRun(f, events, open, close, n)[i]) ::
      FrameRun(f, events, open, close, n)[i] in events
    decreases n
  {
    if n > 0 {
      var st := FrameStep(f, Head(events), open, close);
      var next := if st.pulled then Rest(events) else events;
      var outs := FrameRun(f, events, open, close, n);
      var rest := FrameRun(st.flags, next, open, close, n - 1);
      assert outs[0] == st.out && outs[1..] == rest;
      FrameRunErrors(st.flags, next, open, close, n - 1);
      forall i | 0 <= i < n && IsErr(outs[i])
        ensures outs[i] in events
      {
        if i == 0 {
          assert events != [] && outs[0] == events[0];
        } else {
          assert outs[i] == rest[i - 1];
          assert rest[i - 1] in next;
          if st.pulled && events != [] {
            var k :| 0 <= k < |next| && next[k] == rest[i - 1];
            assert events[k + 1] == rest[i - 1];
          }
        }
      }
    }
  }

  /** The text a streaming framer emits for one inner answer that is not the end. */
  function Lead<E>(e: Event<E>, first: bool): string
  {
    match e
    case Ready(Some(Ok(s))) => if first then s else Separator + s
    case _ => ""
  }

  /** `isFirst` after one inner answer that is not the end. */
  function StillFirst<E>(e: Event<E>, first: bool): bool
  {
    first && !(e.Ready? && e.value.Some? && e.value.value.Ok?)
  }

  lemma EndReachedText<E>(b: bool, events: seq<Event<E>>, open: string, close: string, n: nat)
    requires n > 0
    requires events == [] || (events[0].Ready? && events[0].value.None?)
    ensures OkText(FrameRun(Flags(true, false, b), events, open, close, n)) == close
    ensures Successes(events) == [] && Horizon(events) == 1
  {
    var outs := FrameRun(Flags(true, false, b), events, open, close, n);
    assert outs[1..] == FrameRun(Flags(true, true, b), Rest(events), open, close, n - 1);
    ClosedRun(b, Rest(events), open, close, n - 1);
    EndsCarryNoText<SerializedStreamError<E>>(n - 1);
  }

  lemma StreamingUnfold<E>(b: bool, events: seq<Event<E>>, open: string, close: string, n: nat)
    requires n > 0 && events != [] && !(events[0].Ready? && events[0].value.None?)
    ensures OkText(FrameRun(Flags(true, false, b), events, open, close, n))
         == Lead(events[0], b) + OkText(FrameRun(Flags(true, false, StillFirst(events[0], b)), events[1..], open, close, n - 1))
    ensures Body(Successes(events), b) == Lead(events[0], b) + Body(Successes(events[1..]), StillFirst(events[0], b))
    ensures Horizon(events) == 1 + Horizon(events[1..])
  {
    var outs := FrameRun(Flags(true, false, b), events, open, close, n);
    assert outs[1..] == FrameRun(Flags(true, false, StillFirst(events[0], b)), events[1..], open, close, n - 1);
  }

  /** From the streaming state, the text of any run is a prefix of the framed
      successful items followed by the closing token, and all of it once the
      run reaches the inner stream's end: errors and pending polls drop out
      without leaving a separator behind. */
  lemma {:induction false} StreamingRunText<E>(b: bool, events: seq<Event<E>>, open: string, close: string, n: nat)
    ensures OkText(FrameRun(Flags(true, false, b), events, open, close, n)) <= Body(Successes(events), b) + close
    ensures n >= Horizon(events) ==>
      OkText(FrameRun(Flags(true, false, b), events, open, close, n)) == Body(Successes(events), b) + close
  {
    if n > 0 {
      if events == [] || (events[0].Ready? && events[0].value.None?) {
        EndReachedText(b, events, open, close, n);
      } else {
        var b' := StillFirst(events[0], b);
        StreamingRunText(b', events[1..], open, close, n - 1);
        StreamingUnfold(b, events, open, close, n);
        ConsPrefix(Lead(events[0], b),
          OkText(FrameRun(Flags(true, false, b'), events[1..], open, close, n - 1)),
          Body(Successes(events[1..]), b'), close);
      }
    }
  }

  /** Putting the same text in front keeps a prefix a prefix and an equal
      text equal. */
  lemma ConsPrefix(lead: string, text: string, body: string, close: string)
    requires text <= body + close
    ensures lead + text <= lead + body + close
    ensures text == body + close ==> lead + text == lead + body + close
  {
    assert lead + body + close == lead + (body + close);
    assert (lead + (body + close))[..|lead + text|] == lead + text;
  }

  /** The text of any run of a new framer is a prefix of the opening token, the
      successful items joined by the separator and the closing token; it is all
      of that once the run has had one poll more than the inner stream needs to
      report its end. */
  lemma FrameRunText<E>(events: seq<Event<E>>, open: string, close: string, n: nat)
    ensures OkText(FrameRun(Start, events, open, close, n)) <= open + Join(Successes(events), Separator) + close
    ensures n > Horizon(events) ==>
      OkText(FrameRun(Start, events, open, close, n)) == open + Join(Successes(events), Separator) + close
  {
    if n > 0 {
      var outs := FrameRun(Start, events, open, close, n);
      assert outs[1..] == FrameRun(Flags(true, false, true), events, open, close, n - 1);
      StreamingRunText(true, events, open, close, n - 1);
      BodyIsJoin(Successes(events));
      assert OkText(outs) == open + OkText(outs[1..]);
    }
  }

  /** The inner answers of a run in which every item encodes: one successful
      item per answer. */
  function OkEvents<E>(strs: seq<string>): (events: seq<Event<E>>)
    ensures |events| == |strs|
    ensures forall i | 0 <= i < |strs| :: events[i] == Ready(Some(Ok(strs[i])))
  {
    if strs == [] then [] else [Ready(Some(Ok(strs[0])))] + OkEvents(strs[1..])
  }

  /** The item chunks framed from a given `isFirst`. */
  function ItemChunks<E>(strs: seq<string>, first: bool): (chunks: seq<Event<E>>)
    ensures |chunks| == |strs|
    ensures forall i | 0 <= i < |strs| ::
      chunks[i] == Ready(Some(Ok(if first && i == 0 then strs[i] else Separator + strs[i])))
  {
    if strs == [] then []
    else [Ready(Some(Ok(if first then strs[0] else Separator + strs[0])))] + ItemChunks(strs[1..], false)
  }

  lemma {:induction false} ItemChunksCount<E>(strs: seq<string>, first: bool)
    ensures CountOk(ItemChunks<E>(strs, first)) == |strs|
  {
    if strs != [] {
      var c := ItemChunks<E>(strs, first);
      assert c[1..] == ItemChunks<E>(strs[1..], false);
      ItemChunksCount<E>(strs[1..], false);
    }
  }

  lemma {:induction false} OkEventsFacts<E>(strs: seq<string>)
    ensures Successes(OkEvents<E>(strs)) == strs
    ensures Horizon(OkEvents<E>(strs)) == |strs| + 1
  {
    if strs != [] {
      var ev := OkEvents<E>(strs);
      assert ev[1..] == OkEvents<E>(strs[1..]);
      OkEventsFacts<E>(strs[1..]);
    }
  }

  lemma {:induction false} StreamingCleanRun<E>(b: bool, strs: seq<string>, open: string, close: string, k: nat)
    ensures FrameRun(Flags(true, false, b), OkEvents<E>(strs), open, close, |strs| + 1 + k)
         == ItemChunks<E>(strs, b) + [Ready(Some(Ok(close)))] + Ends(k)
  {
    var ev := OkEvents<E>(strs);
    var last: seq<Event<E>> := [Ready(Some(Ok(close)))];
    if strs == [] {
      ClosedRun(b, ev, open, close, k);
      assert ItemChunks<E>(strs, b) == [];
    } else {
      var head: Event<E> := Ready(Some(Ok(if b then strs[0] else Separator + strs[0])));
      var rest := FrameRun(Flags(true, false, false), OkEvents<E>(strs[1..]), open, close, |strs[1..]| + 1 + k);
      assert Head(ev) == Ready(Some(Ok(strs[0])));
      assert Rest(ev) == OkEvents<E>(strs[1..]);
      assert FrameStep(Flags(true, false, b), Head(ev), open, close) == Step(Flags(true, false, false), head, true);
      assert FrameRun(Flags(true, false, b), ev, open, close, |strs| + 1 + k) == [head] + rest;
      StreamingCleanRun<E>(false, strs[1..], open, close, k);
      ConsAssoc(FrameRun(Flags(true, false, b), ev, open, close, |strs| + 1 + k), head, rest,
        ItemChunks<E>(strs[1..], false), ItemChunks<E>(strs, b), last, Ends(k));
    }
  }

  /** Moving the head of a sequence past two appended parts. */
  lemma ConsAssoc<T>(whole: seq<T>, head: T, rest: seq<T>, tail: seq<T>, chunks: seq<T>, a: seq<T>, b: seq<T>)
    requires whole == [head] + rest && rest == tail + a + b && chunks == [head] + tail
    ensures whole == chunks + a + b
  {
    assert [head] + (tail + a + b) == [head] + tail + a + b;
  }

  /** A run over `n` inner items that all encode: the opening token, the `n`
      items with separators in front of all but the first, the closing token,
      then end-of-stream on every later poll. */
  lemma CleanRun<E>(strs: seq<string>, open: string, close: string, k: nat)
    ensures FrameRun(Start, OkEvents<E>(strs), open, close, |strs| + 2 + k)
         == [Ready(Some(Ok(open)))] + ItemChunks<E>(strs, true) + [Ready(Some(Ok(close)))] + Ends(k)
  {
    StreamingCleanRun<E>(true, strs, open, close, k);
  }

  /** The chunks of a clean run one by one: the opening token first, item `i`
      next with the separator unless it is the first, then the closing token,
      then end-of-stream. */
  lemma CleanRunShape<E>(strs: seq<string>, open: string, close: string, k: nat)
    ensures var outs := FrameRun(Start, OkEvents<E>(strs), open, close, |strs| + 2 + k);
      && outs[0] == Ready(Some(Ok(open)))
      && (forall i | 0 <= i < |strs| ::
            outs[1 + i] == Ready(Some(Ok(if i == 0 then strs[i] else Separator + strs[i]))))
      && outs[|strs| + 1] == Ready(Some(Ok(close)))
      && (forall i | |strs| + 2 <= i < |outs| :: outs[i] == Ready(None))
  {
    CleanRun<E>(strs, open, close, k);
    var outs := FrameRun(Start, OkEvents<E>(strs), open, close, |strs| + 2 + k);
    var chunks := ItemChunks<E>(strs, true);
    forall i | 0 <= i < |strs|
      ensures outs[1 + i] == Ready(Some(Ok(if i == 0 then strs[i] else Separator + strs[i])))
    {
      assert outs[1 + i] == chunks[i];
    }
  }

  /** A clean run over `n` items has `n + 2` successful chunks, which spell the
      opening token, the items joined by the separator and the closing token. */
  lemma CleanRunText<E>(strs: seq<string>, open: string, close: string, k: nat)
    ensures var outs := FrameRun(Start, OkEvents<E>(strs), open, close, |strs| + 2 + k);
      && CountOk(outs) == |strs| + 2
      && OkText(outs) == open + Join(strs, Separator) + close
  {
    CleanRun<E>(strs, open, close, k);
    var head: seq<Event<E>> := [Ready(Some(Ok(open)))];
    var tail: seq<Event<E>> := [Ready(Some(Ok(close)))];
    var chunks := ItemChunks<E>(strs, true);
    ItemChunksCount<E>(strs, true);
    EndsCarryNoText<SerializedStreamError<E>>(k);
    OkTextAppend(head, chunks);
    OkTextAppend(head + chunks, tail);
    OkTextAppend(head + chunks + tail, Ends<Chunk<E>>(k));
    OkEventsFacts<E>(strs);
    FrameRunText(OkEvents<E>(strs), open, close, |strs| + 2 + k);
  }
}
