/** Element-wise mapping of the items of a stream of `Result`s or of
    `Option`s: the inner value of each item goes through the given function,
    and pending polls and the end of the stream pass through. The adapters
    keep no state of their own, so a run of polls is the element-wise image of
    the inner stream's run. */
module InnerMap {
  import opened Streams

  /** The kind of one poll answer of a stream of `Result`s. */
  datatype ResKind = NotReady | OkItem | ErrItem | Ended

  function ResKindOf<T, E>(p: Poll<Option<Result<T, E>>>): ResKind
  {
    match p
    case Pending => NotReady
    case Ready(Some(Ok(_))) => OkItem
    case Ready(Some(Err(_))) => ErrItem
    case Ready(None) => Ended
  }

  /** One poll of `MapRes`: `onOk` on a success, `onErr` on an error; pending
      and the end pass through. */
  function MapResPoll<T, E, U, F>(p: Poll<Option<Result<T, E>>>, onOk: T -> U, onErr: E -> F): (q: Poll<Option<Result<U, F>>>)
    ensures ResKindOf(q) == ResKindOf(p)
    ensures ResKindOf(p) == OkItem ==> q.value.value.value == onOk(p.value.value.value)
    ensures ResKindOf(p) == ErrItem ==> q.value.value.error == onErr(p.value.value.error)
  {
    match p
    case Pending => Pending
    case Ready(Some(Ok(value))) => Ready(Some(Ok(onOk(value))))
    case Ready(Some(Err(err))) => Ready(Some(Err(onErr(err))))
    case Ready(None) => Ready(None)
  }

  /** The run of a stream wrapped by `inner_res_map(onOk, onErr)`, given the run
      of the stream it wraps: the same length, and poll by poll the image of
      the wrapped stream's answer. */
  function InnerResMap<T, E, U, F>(run: seq<Poll<Option<Result<T, E>>>>, onOk: T -> U, onErr: E -> F)
    : (mapped: seq<Poll<Option<Result<U, F>>>>)
    ensures |mapped| == |run|
    ensures forall i | 0 <= i < |run| :: mapped[i] == MapResPoll(run[i], onOk, onErr)
  {
    if run == [] then [] else [MapResPoll(run[0], onOk, onErr)] + InnerResMap(run[1..], onOk, onErr)
  }

  /** Pending polls, errors, successes and the end sit at the same positions
      before and after mapping. */
  lemma InnerResMapKeepsShape<T, E, U, F>(run: seq<Poll<Option<Result<T, E>>>>, onOk: T -> U, onErr: E -> F)
    ensures forall i | 0 <= i < |run| :: ResKindOf(InnerResMap(run, onOk, onErr)[i]) == ResKindOf(run[i])
  {
  }

  /** Mapping with the identity functions changes nothing. */
  lemma InnerResMapIdentity<T, E>(run: seq<Poll<Option<Result<T, E>>>>)
    ensures InnerResMap(run, (v: T) => v, (e: E) => e) == run
  {
    var mapped := InnerResMap(run, (v: T) => v, (e: E) => e);
    forall i | 0 <= i < |run|
      ensures mapped[i] == run[i]
    {
      match run[i]
      case Pending =>
      case Ready(None) =>
      case Ready(Some(Ok(v))) =>
      case Ready(Some(Err(e))) =>
    }
  }

  /** Mapping twice is mapping once with the composed functions. */
  lemma InnerResMapCompose<T, E, U, F, U2, F2>(run: seq<Poll<Option<Result<T, E>>>>,
                                               onOk: T -> U, onErr: E -> F, onOk2: U -> U2, onErr2: F -> F2)
    ensures InnerResMap(InnerResMap(run, onOk, onErr), onOk2, onErr2)
         == InnerResMap(run, (v: T) => onOk2(onOk(v)), (e: E) => onErr2(onErr(e)))
  {
    var twice := InnerResMap(InnerResMap(run, onOk, onErr), onOk2, onErr2);
    var once := InnerResMap(run, (v: T) => onOk2(onOk(v)), (e: E) => onErr2(onErr(e)));
    forall i | 0 <= i < |run|
      ensures twice[i] == once[i]
    {
      match run[i]
      case Pending =>
      case Ready(None) =>
      case Ready(Some(Ok(v))) =>
      case Ready(Some(Err(e))) =>
    }
  }

  /** The kind of one poll answer of a stream of `Option`s. */
  datatype OptionKind = OptNotReady | SomeItem | NoneItem | OptEnded

  function OptionKindOf<T>(p: Poll<Option<Option<T>>>): OptionKind
  {
    match p
    case Pending => OptNotReady
    case Ready(Some(Some(_))) => SomeItem
    case Ready(Some(None)) => NoneItem
    case Ready(None) => OptEnded
  }

  /** One poll of `MapOption`: `onSome` on a present value; an absent value
      stays absent; pending and the end pass through. */
  function MapOptionPoll<T, U>(p: Poll<Option<Option<T>>>, onSome: T -> U): (q: Poll<Option<Option<U>>>)
    ensures OptionKindOf(q) == OptionKindOf(p)
    ensures OptionKindOf(p) == SomeItem ==> q.value.value.value == onSome(p.value.value.value)
  {
    match p
    case Pending => Pending
    case Ready(Some(Some(value))) => Ready(Some(Some(onSome(value))))
    case Ready(Some(None)) => Ready(Some(None))
    case Ready(None) => Ready(None)
  }

  /** The run of a stream wrapped by `inner_option_map(onSome)`, given the run
      of the stream it wraps. */
  function InnerOptionMap<T, U>(run: seq<Poll<Option<Option<T>>>>, onSome: T -> U): (mapped: seq<Poll<Option<Option<U>>>>)
    ensures |mapped| == |run|
    ensures forall i | 0 <= i < |run| :: mapped[i] == MapOptionPoll(run[i], onSome)
  {
    if run == [] then [] else [MapOptionPoll(run[0], onSome)] + InnerOptionMap(run[1..], onSome)
  }

  lemma InnerOptionMapKeepsShape<T, U>(run: seq<Poll<Option<Option<T>>>>, onSome: T -> U)
    ensures forall i | 0 <= i < |run| :: OptionKindOf(InnerOptionMap(run, onSome)[i]) == OptionKindOf(run[i])
  {
  }

  lemma InnerOptionMapIdentity<T>(run: seq<Poll<Option<Option<T>>>>)
    ensures InnerOptionMap(run, (v: T) => v) == run
  {
    var mapped := InnerOptionMap(run, (v: T) => v);
    forall i | 0 <= i < |run|
      ensures mapped[i] == run[i]
    {
      match run[i]
      case Pending =>
      case Ready(None) =>
      case Ready(Some(None)) =>
      case Ready(Some(Some(v))) =>
    }
  }

  lemma InnerOptionMapCompose<T, U, U2>(run: seq<Poll<Option<Option<T>>>>, onSome: T -> U, onSome2: U -> U2)
    ensures InnerOptionMap(InnerOptionMap(run, onSome), onSome2) == InnerOptionMap(run, (v: T) => onSome2(onSome(v)))
  {
    var twice := InnerOptionMap(InnerOptionMap(run, onSome), onSome2);
    var once := InnerOptionMap(run, (v: T) => onSome2(onSome(v)));
    forall i | 0 <= i < |run|
      ensures twice[i] == once[i]
    {
      match run[i]
      case Pending =>
      case Ready(None) =>
      case Ready(Some(None)) =>
      case Ready(Some(Some(v))) =>
    }
  }
}
