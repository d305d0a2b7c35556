/** A stream made from a future: it yields the future's output as its only
    item once the future completes, and ends on every poll after that without
    polling the future again. */
module Pseudo {
  import opened Streams

  /** One poll: the new `emitted`, the output, and whether the future was polled. */
  datatype PseudoStep<V> = PseudoStep(emitted: bool, out: Poll<Option<V>>, pulled: bool)

  function PseudoPoll<V>(emitted: bool, next: Poll<V>): PseudoStep<V>
  {
    if emitted then PseudoStep(true, Ready(None), false)
    else
      match next
      case Pending => PseudoStep(false, Pending, true)
      case Ready(v) => PseudoStep(true, Ready(Some(v)), true)
  }

  /** `V` is the future's output type (a `Result` of the item and the error). */
  class PseudoStream<V> {
    var emitted: bool
    const future: Script<Poll<V>>

    constructor From(future: Script<Poll<V>>)
      ensures !emitted && this.future == future
    {
      emitted := false;
      this.future := future;
    }

    /** One poll. The new `emitted`, the output and whether the future was
        polled are those of `PseudoPoll` on the future's next answer. */
    method PollNext() returns (out: Poll<Option<V>>)
      modifies this, future
      ensures var st := PseudoPoll(old(emitted), old(future.Upcoming()));
        && emitted == st.emitted && out == st.out
        && future.polls == old(future.polls) + (if st.pulled then 1 else 0)
    {
      if emitted {
        out := Ready(None);
      } else {
        var p := future.Next();
        match p
        case Pending =>
          out := Pending;
        case Ready(value) =>
          emitted := true;
          out := Ready(Some(value));
      }
    }
  }

  /** The outputs of `n` polls of a pseudo stream whose future answers
      `answers` and is pending on every poll after them. */
  function PseudoRun<V>(emitted: bool, answers: seq<Poll<V>>, n: nat): (outs: seq<Poll<Option<V>>>)
    ensures |outs| == n
    decreases n
  {
    if n == 0 then []
    else
      var st := PseudoPoll(emitted, if answers == [] then Pending else answers[0]);
      [st.out] + PseudoRun(st.emitted, if st.pulled && answers != [] then answers[1..] else answers, n - 1)
  }

  /** One more poll of a run part-way through `answers`: the outputs so far
      plus the step's output, followed by the run over what is left once the
      step has (or has not) polled the future, are still the whole run. */
  lemma PseudoRunOnePoll<V>(outs: seq<Poll<Option<V>>>, emitted: bool, answers: seq<Poll<V>>, polls: nat, m: nat,
                            whole: seq<Poll<Option<V>>>)
    requires m > 0
    requires outs + PseudoRun(emitted, Drop(answers, polls), m) == whole
    ensures var st := PseudoPoll(emitted, if polls < |answers| then answers[polls] else Pending);
      (outs + [st.out]) + PseudoRun(st.emitted, Drop(answers, polls + (if st.pulled then 1 else 0)), m - 1) == whole
  {
    DropNext(answers, polls);
    var st := PseudoPoll(emitted, if polls < |answers| then answers[polls] else Pending);
    var later := PseudoRun(st.emitted, Drop(answers, polls + (if st.pulled then 1 else 0)), m - 1);
    assert PseudoRun(emitted, Drop(answers, polls), m) == [st.out] + later;
    assert outs + ([st.out] + later) == (outs + [st.out]) + later;
  }

  /** Polls a new pseudo stream `n` times over a future that answers `answers`
      and is pending after them; the outputs are those of the run. */
  method CollectPolls<V>(answers: seq<Poll<V>>, n: nat) returns (outs: seq<Poll<Option<V>>>)
    ensures outs == PseudoRun(false, answers, n)
  {
    var inner := new Script<Poll<V>>(answers, Pending);
    var s := new PseudoStream<V>.From(inner);
    assert Drop(answers, 0) == answers;
    outs := [];
    var i := 0;
    while i < n
      invariant i <= n
      invariant s.future == inner && inner.answers == answers && inner.afterwards == Pending
      invariant outs + PseudoRun(s.emitted, Drop(answers, inner.polls), n - i) == PseudoRun(false, answers, n)
    {
      PseudoRunOnePoll(outs, s.emitted, answers, inner.polls, n - i, PseudoRun(false, answers, n));
      var out := s.PollNext();
      outs := outs + [out];
      i := i + 1;
    }
  }

  /** The index of the future's first completed poll, or `|answers|` when it
      does not complete within them. */
  function FirstReady<V>(answers: seq<Poll<V>>): (k: nat)
    ensures k <= |answers|
    ensures forall i | 0 <= i < k :: answers[i].Pending?
    ensures k < |answers| ==> answers[k].Ready?
  {
    if answers == [] || answers[0].Ready? then 0 else 1 + FirstReady(answers[1..])
  }

  lemma {:induction false} EmittedRun<V>(answers: seq<Poll<V>>, n: nat)
    ensures PseudoRun(true, answers, n) == Ends(n)
  {
    if n > 0 {
      EmittedRun(answers, n - 1);
    }
  }

  lemma {:induction false} NeverReadyRun<V>(n: nat)
    ensures forall i | 0 <= i < n :: PseudoRun<V>(false, [], n)[i] == Pending
  {
    if n > 0 {
      NeverReadyRun<V>(n - 1);
      var outs := PseudoRun<V>(false, [], n);
      assert outs[1..] == PseudoRun<V>(false, [], n - 1);
    }
  }

  /** What poll `i` of a new pseudo stream answers: pending until the future
      completes, its output on the poll where it does, end-of-stream after. */
  function Expected<V>(answers: seq<Poll<V>>, i: nat): Poll<Option<V>>
  {
    var k := FirstReady(answers);
    if i < k || k == |answers| then Pending
    else if i == k then Ready(Some(answers[k].value))
    else Ready(None)
  }

  /** Every run of a new pseudo stream follows `Expected`. */
  lemma {:induction false} PseudoRunShape<V>(answers: seq<Poll<V>>, n: nat)
    ensures forall i | 0 <= i < n :: PseudoRun(false, answers, n)[i] == Expected(answers, i)
  {
    if n > 0 {
      var outs := PseudoRun(false, answers, n);
      if answers == [] {
        NeverReadyRun<V>(n);
      } else if answers[0].Ready? {
        assert outs[1..] == PseudoRun(true, answers[1..], n - 1);
        EmittedRun(answers[1..], n - 1);
      } else {
        var tail := answers[1..];
        var rest := PseudoRun(false, tail, n - 1);
        assert outs[1..] == rest;
        PseudoRunShape(tail, n - 1);
        assert FirstReady(answers) == 1 + FirstReady(tail);
        forall i | 0 <= i < n
          ensures outs[i] == Expected(answers, i)
        {
          if i > 0 {
            assert outs[i] == rest[i - 1] == Expected(tail, i - 1);
          }
        }
      }
    }
  }

  /** Over any run the stream yields at most one item, and an item it yields is
      the output the future completed with on that very poll. */
  lemma AtMostOneItem<V>(answers: seq<Poll<V>>, n: nat)
    ensures var outs := PseudoRun(false, answers, n);
      && (forall i, j | 0 <= i < j < n :: !(outs[i].Ready? && outs[i].value.Some? && outs[j].Ready? && outs[j].value.Some?))
      && (forall i | 0 <= i < n && outs[i].Ready? && outs[i].value.Some? ::
            i < |answers| && answers[i] == Ready(outs[i].value.value))
  {
    PseudoRunShape(answers, n);
  }
}
