/** The Go runtime notions that the engine is built from: the untyped memo
    values that travel between gadgets, buffered channels (as values), the
    "Lost %T: %v" lines written to standard output, and the iteration order
    of a Go map. */
module Runtime {

  datatype Option<T> = None | Some(value: T)

  /** A Go `interface{}` value sent between gadgets (flow.Memo, the older
      flow.Message). Only the dynamic types that the engine, its tests and
      its gadgets send are modelled; a timestamp is an opaque instant. */
  datatype Memo =
    | Str(s: string)
    | Int(n: int)
    | Tag(tag: string, val: Memo)
    | Time(instant: int)

  /** The dynamic type name that the %T verb prints. */
  function TypeName(m: Memo): string {
    match m
    case Str(_) => "string"
    case Int(_) => "int"
    case Tag(_, _) => "flow.Tag"
    case Time(_) => "time.Time"
  }

  /** One line "Lost %T: %v" written for a memo that nobody consumes. */
  datatype Report = Lost(typeName: string, value: Memo)

  function LostReport(m: Memo): Report {
    Lost(TypeName(m), m)
  }

  /** The lines written for a sequence of lost memos. */
  function LostReports(ms: seq<Memo>): seq<Report> {
    if ms == [] then [] else [LostReport(ms[0])] + LostReports(ms[1..])
  }

  /** One line per memo, in order, carrying the memo and its type name. */
  lemma {:induction false} LostReportsPointwise(ms: seq<Memo>)
    ensures |LostReports(ms)| == |ms|
    ensures forall i :: 0 <= i < |ms| ==> LostReports(ms)[i] == Lost(TypeName(ms[i]), ms[i])
  {
    if ms != [] {
      LostReportsPointwise(ms[1..]);
    }
  }

  /** The lines for a concatenation are the lines for each part. */
  lemma {:induction false} LostReportsAppend(xs: seq<Memo>, ys: seq<Memo>)
    ensures LostReports(xs + ys) == LostReports(xs) + LostReports(ys)
  {
    if xs != [] {
      LostReportsAppend(xs[1..], ys);
      calc {
        LostReports(xs + ys);
        { assert (xs + ys)[0] == xs[0] && (xs + ys)[1..] == xs[1..] + ys; }
        [LostReport(xs[0])] + LostReports(xs[1..] + ys);
        [LostReport(xs[0])] + (LostReports(xs[1..]) + LostReports(ys));
        ([LostReport(xs[0])] + LostReports(xs[1..])) + LostReports(ys);
      }
    } else {
      assert xs + ys == ys;
    }
  }

  /** Standard output, as the sequence of "Lost" lines written so far. */
  class Console {
    var lines: seq<Report>

    constructor ()
      ensures lines == []
    {
      lines := [];
    }
  }

  /** A Go channel of memos: the buffer size it was made with, the memos
      sent and not yet received (in send order), and whether it is closed.
      A nil channel is `None` where a channel may be missing. */
  datatype Chan = Chan(capacity: nat, queue: seq<Memo>, closed: bool)

  /** make(chan Memo, capacity) */
  function MakeChan(capacity: nat): Chan {
    Chan(capacity, [], false)
  }

  /** `ch <- v`: the memo joins the back of the queue. Sending on a closed
      channel is a Go panic, so callers must not do it. Blocking on a full
      buffer is a scheduling matter that the model leaves to the receiver. */
  function SendOn(ch: Chan, v: Memo): Chan
    requires !ch.closed
  {
    ch.(queue := ch.queue + [v])
  }

  /** `ch <- v` when nothing receives yet: it must find a free slot in the
      buffer, or the sender blocks for good. */
  function SendBuffered(ch: Chan, v: Memo): (ch': Chan)
    requires !ch.closed && |ch.queue| < ch.capacity
    ensures |ch'.queue| <= ch'.capacity
  {
    SendOn(ch, v)
  }

  /** Several sends in a row. */
  function SendAll(ch: Chan, vs: seq<Memo>): Chan
    requires !ch.closed
  {
    ch.(queue := ch.queue + vs)
  }

  /** close(ch); closing twice is a Go panic. */
  function CloseChan(ch: Chan): Chan
    requires !ch.closed
  {
    ch.(closed := true)
  }

  /** A prefix one element longer. */
  lemma TakeOneMore<T>(s: seq<T>, j: nat)
    requires j < |s|
    ensures s[..j + 1] == s[..j] + [s[j]]
  {
  }

  /** `order` is one possible iteration order of a Go map whose key set is
      `keys`: every key exactly once. */
  ghost predicate Enumerates<K>(order: seq<K>, keys: set<K>) {
    && (forall i, j :: 0 <= i < j < |order| ==> order[i] != order[j])
    && (forall i :: 0 <= i < |order| ==> order[i] in keys)
    && (forall k :: k in keys ==> k in order)
  }
}
