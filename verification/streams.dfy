/** Values shared by every adapter: the result of one poll of a pull-based
    stream, and a scripted inner stream whose answers are consumed one per poll. */
module Streams {

  datatype Option<+T> = None | Some(value: T)

  datatype Result<+T, +E> = Ok(value: T) | Err(error: E)

  /** The outcome of one poll: not ready yet, or ready with a value.
      A stream's poll is ready with `Some(item)` or with `None` (end of stream). */
  datatype Poll<+T> = Pending | Ready(value: T)

  /** `k` end-of-stream answers in a row. */
  function Ends<T>(k: nat): (r: seq<Poll<Option<T>>>)
    ensures |r| == k
    ensures forall i | 0 <= i < k :: r[i] == Ready(None)
  {
    if k == 0 then [] else [Ready(None)] + Ends(k - 1)
  }

  /** The text carried by the successful chunks of a run of output polls, in order;
      pending polls, errors and end-of-stream answers contribute nothing. */
  function OkText<X>(outs: seq<Poll<Option<Result<string, X>>>>): string
  {
    if outs == [] then "" else ChunkText(outs[0]) + OkText(outs[1..])
  }

  /** The text of one output poll: its chunk if it is a success, else nothing. */
  function ChunkText<X>(p: Poll<Option<Result<string, X>>>): string
  {
    match p
    case Ready(Some(Ok(s))) => s
    case _ => ""
  }

  /** The number of successful chunks in a run of output polls. */
  function CountOk<X>(outs: seq<Poll<Option<Result<string, X>>>>): nat
  {
    if outs == [] then 0
    else (if outs[0].Ready? && outs[0].value.Some? && outs[0].value.value.Ok? then 1 else 0) + CountOk(outs[1..])
  }

  lemma {:induction false} OkTextAppend<X>(a: seq<Poll<Option<Result<string, X>>>>, b: seq<Poll<Option<Result<string, X>>>>)
    ensures OkText(a + b) == OkText(a) + OkText(b)
    ensures CountOk(a + b) == CountOk(a) + CountOk(b)
  {
    if a != [] {
      assert (a + b)[1..] == a[1..] + b;
      OkTextAppend(a[1..], b);
    } else {
      assert a + b == b;
    }
  }

  lemma {:induction false} EndsCarryNoText<X>(k: nat)
    ensures OkText(Ends<Result<string, X>>(k)) == ""
    ensures CountOk(Ends<Result<string, X>>(k)) == 0
  {
    if k > 0 {
      var e := Ends<Result<string, X>>(k);
      assert e[1..] == Ends<Result<string, X>>(k - 1);
      EndsCarryNoText<X>(k - 1);
    }
  }

  /** The answers of `s` from position `k` on; none once `k` is past its end. */
  function Drop<A>(s: seq<A>, k: nat): (r: seq<A>)
    ensures |r| == if k < |s| then |s| - k else 0
  {
    if k < |s| then s[k..] else []
  }

  /** Taking one more answer off the front of what is left. */
  lemma DropNext<A>(s: seq<A>, k: nat)
    ensures k < |s| ==> Drop(s, k)[0] == s[k] && Drop(s, k)[1..] == Drop(s, k + 1)
    ensures k >= |s| ==> Drop(s, k) == [] && Drop(s, k + 1) == []
  {
  }

  /** The inner stream (or future) an adapter polls: it answers its scripted
      `answers` one per poll, in order, and `afterwards` on every poll once they
      are used up. `polls` counts how often it has been polled. */
  class Script<A> {
    const answers: seq<A>
    const afterwards: A
    var polls: nat

    constructor (answers: seq<A>, afterwards: A)
      ensures this.answers == answers && this.afterwards == afterwards
      ensures polls == 0
    {
      this.answers := answers;
      this.afterwards := afterwards;
      polls := 0;
    }

    /** What the next poll will answer. */
    function Upcoming(): A
      reads this
    {
      if polls < |answers| then answers[polls] else afterwards
    }

    method Next() returns (a: A)
      modifies this
      ensures a == old(Upcoming())
      ensures polls == old(polls) + 1
    {
      a := Upcoming();
      polls := polls + 1;
    }
  }
}
