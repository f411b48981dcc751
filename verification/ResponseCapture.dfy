/** gin's response writer and the capturing writer wrapped around it (internal/middlewares/idempotency.go:91-104). */
module ResponseCapture {
  import opened Wrappers
  import opened IdempotencyStore

  /**
   * A response under construction. `committed` is the content type as it stood when the head was sent, which the first
   * body write does; changing the header afterwards reaches the header map but not the client.
   */
  datatype Writer = Writer(status: int, contentType: string, committed: Option<string>, sent: Bytes)

  const UNTOUCHED := Writer(200, "", None, [])

  /** What a handler may do to its writer; `accepted` is how many bytes the connection takes. */
  datatype Op =
    | WriteHeader(code: int)
    | SetContentType(value: string)
    | WriteHeaderNow
    | Write(data: Bytes, accepted: nat)
    | WriteString(data: Bytes, accepted: nat)

  function Commit(w: Writer): Writer {
    if w.committed.Some? then w else w.(committed := Some(w.contentType))
  }

  function Taken(data: Bytes, accepted: nat): Bytes {
    if accepted < |data| then data[..accepted] else data
  }

  function Apply(w: Writer, op: Op): Writer {
    match op
    case WriteHeader(code) => if code > 0 && w.committed.None? then w.(status := code) else w
    case SetContentType(value) => w.(contentType := value)
    case WriteHeaderNow => Commit(w)
    case Write(data, accepted) => Commit(w).(sent := w.sent + Taken(data, accepted))
    case WriteString(data, accepted) => Commit(w).(sent := w.sent + Taken(data, accepted))
  }

  function ApplyAll(ops: seq<Op>): Writer {
    if ops == [] then UNTOUCHED else Apply(ApplyAll(ops[..|ops| - 1]), ops[|ops| - 1])
  }

  function DataOf(op: Op): Bytes {
    if op.Write? || op.WriteString? then op.data else []
  }

  /** Everything the handler tried to write. */
  function Body(ops: seq<Op>): Bytes {
    if ops == [] then [] else Body(ops[..|ops| - 1]) + DataOf(ops[|ops| - 1])
  }

  predicate TakenInFull(op: Op) {
    op.Write? || op.WriteString? ==> op.accepted >= |op.data|
  }

  ghost predicate AllTakenInFull(ops: seq<Op>) {
    forall i | 0 <= i < |ops| :: TakenInFull(ops[i])
  }

  /** One call sends a prefix of its data, all of it exactly when it is taken in full, and commits the head if any. */
  lemma SentByOne(w: Writer, op: Op) returns (part: Bytes)
    ensures Apply(w, op).sent == w.sent + part
    ensures |part| <= |DataOf(op)| && (|part| == |DataOf(op)| <==> TakenInFull(op))
    ensures TakenInFull(op) ==> part == DataOf(op)
    ensures Apply(w, op).committed.None? ==> w.committed.None? && DataOf(op) == []
  {
    part := if op.Write? || op.WriteString? then Taken(op.data, op.accepted) else [];
  }

  lemma {:induction false} SentAgainstBody(ops: seq<Op>)
    ensures |ApplyAll(ops).sent| <= |Body(ops)|
    ensures |ApplyAll(ops).sent| == |Body(ops)| <==> AllTakenInFull(ops)
    ensures AllTakenInFull(ops) ==> ApplyAll(ops).sent == Body(ops)
    ensures ApplyAll(ops).committed.None? ==> ApplyAll(ops).sent == Body(ops) == []
  {
    if ops != [] {
      var front, last := ops[..|ops| - 1], ops[|ops| - 1];
      hide Apply;
      SentAgainstBody(front);
      var part := SentByOne(ApplyAll(front), last);
      assert AllTakenInFull(ops) <==> AllTakenInFull(front) && TakenInFull(last) by {
        assert forall i | 0 <= i < |front| :: ops[i] == front[i];
        assert ops == front + [last];
      }
    }
  }

  /** The captured bytes are the sent bytes exactly when the connection took every write in full. */
  lemma CaptureIsFaithfulExactly(ops: seq<Op>)
    ensures Body(ops) == ApplyAll(ops).sent <==> AllTakenInFull(ops)
  {
    SentAgainstBody(ops);
  }

  /** The head is sent by the first body write, or explicitly. */
  ghost predicate SendsHead(op: Op) {
    op.WriteHeaderNow? || op.Write? || op.WriteString?
  }

  /** Operation `k` is the first that sends the head, or there is none and `k` counts them all. */
  ghost predicate HeadSentAt(ops: seq<Op>, k: nat) {
    k <= |ops| && (forall i | 0 <= i < k :: !SendsHead(ops[i])) && (k < |ops| ==> SendsHead(ops[k]))
  }

  /** Looking back from operation `k`: the last status set, or 200. */
  ghost function LastStatus(ops: seq<Op>, k: nat): int
    requires k <= |ops|
  {
    if k == 0 then 200
    else if ops[k - 1].WriteHeader? && ops[k - 1].code > 0 then ops[k - 1].code
    else LastStatus(ops, k - 1)
  }

  /** Looking back from operation `k`: the last content type set, or none. */
  ghost function LastType(ops: seq<Op>, k: nat): string
    requires k <= |ops|
  {
    if k == 0 then ""
    else if ops[k - 1].SetContentType? then ops[k - 1].value
    else LastType(ops, k - 1)
  }

  lemma {:induction false} LastOfPrefix(ops: seq<Op>, n: nat, k: nat)
    requires k <= n <= |ops|
    ensures LastStatus(ops[..n], k) == LastStatus(ops, k) && LastType(ops[..n], k) == LastType(ops, k)
  {
    if k > 0 {
      LastOfPrefix(ops, n, k - 1);
    }
  }

  /**
   * What the client sees of the head is the status and the content type that stood when it was sent; whatever is set
   * later does not reach it.
   */
  lemma {:induction false} HeadExactly(ops: seq<Op>, k: nat)
    requires HeadSentAt(ops, k)
    ensures ApplyAll(ops).status == LastStatus(ops, k) && ApplyAll(ops).contentType == LastType(ops, |ops|)
    ensures ApplyAll(ops).committed == if k < |ops| then Some(LastType(ops, k)) else None
  {
    if ops != [] {
      var n := |ops| - 1;
      HeadExactly(ops[..n], if k < n then k else n);
      LastOfPrefix(ops, n, n);
      if k < n {
        LastOfPrefix(ops, n, k);
      }
    }
  }

  /** gin's writer. */
  class GinWriter {
    var status: int
    var contentType: string
    var committed: Option<string>
    var sent: Bytes

    constructor ()
      ensures View() == UNTOUCHED
    {
      status, contentType, committed, sent := 200, "", None, [];
    }

    function View(): Writer
      reads this
    {
      Writer(status, contentType, committed, sent)
    }

    method WriteHead(code: int)
      modifies this
      ensures status == if code > 0 && old(committed) == None then code else old(status)
      ensures View() == Apply(old(View()), WriteHeader(code))
    {
      if code > 0 && committed.None? {
        status := code;
      }
    }

    method SetType(value: string)
      modifies this
      ensures contentType == value
      ensures View() == Apply(old(View()), SetContentType(value))
    {
      contentType := value;
    }

    method SendHead()
      modifies this
      ensures committed == if old(committed) == None then Some(old(contentType)) else old(committed)
      ensures View() == Commit(old(View()))
    {
      if committed.None? {
        committed := Some(contentType);
      }
    }

    method Send(data: Bytes, accepted: nat) returns (n: nat)
      modifies this
      ensures n == (if accepted < |data| then accepted else |data|) && sent == old(sent) + data[..n]
      ensures committed.Some?
      ensures View() == Apply(old(View()), Write(data, accepted)) == Apply(old(View()), WriteString(data, accepted))
    {
      SendHead();
      sent := sent + Taken(data, accepted);
      n := if accepted < |data| then accepted else |data|;
    }
  }

  /** Forwards everything to the real writer and keeps a copy of what was written. */
  class BodyCaptureWriter {
    const inner: GinWriter
    var buf: Bytes

    constructor (inner: GinWriter)
      ensures this.inner == inner && buf == []
    {
      this.inner := inner;
      buf := [];
    }

    method WriteBytes(b: Bytes, accepted: nat) returns (n: nat)
      modifies this, inner
      ensures buf == old(buf) + b && inner.sent == old(inner.sent) + b[..if accepted < |b| then accepted else |b|]
      ensures inner.View() == Apply(old(inner.View()), Write(b, accepted))
    {
      buf := buf + b;
      n := inner.Send(b, accepted);
    }

    method WriteText(s: Bytes, accepted: nat) returns (n: nat)
      modifies this, inner
      ensures buf == old(buf) + s && inner.sent == old(inner.sent) + s[..if accepted < |s| then accepted else |s|]
      ensures inner.View() == Apply(old(inner.View()), WriteString(s, accepted))
    {
      buf := buf + s;
      n := inner.Send(s, accepted);
    }

    /** A handler's whole use of the writer. */
    method Perform(ops: seq<Op>)
      requires buf == [] && inner.View() == UNTOUCHED
      modifies this, inner
      ensures buf == Body(ops) && inner.View() == ApplyAll(ops)
    {
      for i := 0 to |ops|
        invariant buf == Body(ops[..i]) && inner.View() == ApplyAll(ops[..i])
      {
        assert ops[..i + 1][..i] == ops[..i];
        match ops[i]
        case WriteHeader(code) => inner.WriteHead(code);
        case SetContentType(value) => inner.SetType(value);
        case WriteHeaderNow => inner.SendHead();
        case Write(data, accepted) => var _ := WriteBytes(data, accepted);
        case WriteString(data, accepted) => var _ := WriteText(data, accepted);
      }
      assert ops[..|ops|] == ops;
    }
  }
}
