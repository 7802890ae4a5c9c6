/** The one-shot body contract of a request: the body can be taken once as
    a fount (a single-use stream), and the whole body can be collected as
    bytes, which are then cached. The body source is modelled as bytes that
    are already available; `sourceReads` counts how often it is handed out. */
module Message {
  import opened Results
  import opened Ascii

  /** A single-use stream over the body; draining it yields `data`. */
  datatype Fount = Fount(data: Bytes)

  datatype BodyError = FountAlreadyAccessed

  datatype BodyState = Fresh | FountTaken | BytesCached(cached: Bytes)

  datatype BodyMachine = BodyMachine(state: BodyState, sourceReads: nat)

  const Initial := BodyMachine(Fresh, 0)

  /** `bodyAsFount()`: hands out the body source on a fresh request and
      fails in every other state. */
  function TakeFount(m: BodyMachine, body: Bytes): (r: (BodyMachine, Result<Fount, BodyError>))
    ensures m.state == Fresh ==> r.1 == Ok(Fount(body)) && r.0 == BodyMachine(FountTaken, m.sourceReads + 1)
    ensures m.state != Fresh ==> r.1 == Err(FountAlreadyAccessed) && r.0 == m
  {
    if m.state == Fresh then (BodyMachine(FountTaken, m.sourceReads + 1), Ok(Fount(body)))
    else (m, Err(FountAlreadyAccessed))
  }

  /** `bodyAsBytes()`: answers from the cache once there is one; otherwise
      takes the fount (under the same one-shot rule), drains it and caches
      what it yielded. */
  function CollectBytes(m: BodyMachine, body: Bytes): (r: (BodyMachine, Result<Bytes, BodyError>))
    ensures m.state.BytesCached? ==> r == (m, Ok(m.state.cached))
    ensures m.state == FountTaken ==> r == (m, Err(FountAlreadyAccessed))
    ensures m.state == Fresh ==> r == (BodyMachine(BytesCached(body), m.sourceReads + 1), Ok(body))
  {
    match m.state
    case BytesCached(cached) => (m, Ok(cached))
    case _ =>
      var (taken, fount) := TakeFount(m, body);
      match fount
      case Err(e) => (taken, Err(e))
      case Ok(f) => (BodyMachine(BytesCached(f.data), taken.sourceReads), Ok(f.data))
  }

  datatype BodyCall = AsFount | AsBytes

  datatype BodyReply = FountReply(fount: Result<Fount, BodyError>) | BytesReply(bytes: Result<Bytes, BodyError>)

  function Perform(m: BodyMachine, body: Bytes, call: BodyCall): (BodyMachine, BodyReply) {
    match call
    case AsFount => var (m', r) := TakeFount(m, body); (m', FountReply(r))
    case AsBytes => var (m', r) := CollectBytes(m, body); (m', BytesReply(r))
  }

  /** The state after a sequence of body calls, and the replies in order. */
  function Run(m: BodyMachine, body: Bytes, calls: seq<BodyCall>): (r: (BodyMachine, seq<BodyReply>))
    ensures |r.1| == |calls|
    decreases |calls|
  {
    if calls == [] then (m, [])
    else
      var (next, reply) := Perform(m, body, calls[0]);
      var (last, replies) := Run(next, body, calls[1..]);
      (last, [reply] + replies)
  }

  /** How many replies handed out a fount. */
  function FountsIssued(replies: seq<BodyReply>): nat {
    if replies == [] then 0
    else (if replies[0].FountReply? && replies[0].fount.Ok? then 1 else 0) + FountsIssued(replies[1..])
  }

  /** What every reachable machine satisfies: the source has been handed
      out exactly when the state is no longer fresh, and at most once, and
      a cache holds the whole body. */
  predicate Consistent(m: BodyMachine, body: Bytes) {
    && (m.state == Fresh <==> m.sourceReads == 0)
    && m.sourceReads <= 1
    && (m.state.BytesCached? ==> m.state.cached == body)
  }

  /** Over any sequence of calls on a consistent machine: the machine stays
      consistent, never returns to fresh, hands out the source and a fount
      at most once between them, and every bytes reply that succeeds is the
      whole body. */
  lemma {:induction false} RunKeepsOneShot(m: BodyMachine, body: Bytes, calls: seq<BodyCall>)
    requires Consistent(m, body)
    ensures var (last, replies) := Run(m, body, calls);
      && Consistent(last, body)
      && (m.state != Fresh ==> last.state != Fresh && last.sourceReads == m.sourceReads)
      && FountsIssued(replies) <= 1 - m.sourceReads
      && forall i :: 0 <= i < |replies| && replies[i].BytesReply? && replies[i].bytes.Ok? ==>
           replies[i].bytes.value == body
    decreases |calls|
  {
    if calls != [] {
      var (next, reply) := Perform(m, body, calls[0]);
      RunKeepsOneShot(next, body, calls[1..]);
      var (last, replies) := Run(next, body, calls[1..]);
      assert Run(m, body, calls).1 == [reply] + replies;
      assert ([reply] + replies)[1..] == replies;
      assert reply.FountReply? && reply.fount.Ok? ==> m.state == Fresh && next.sourceReads == 1;
    }
  }

  /** From a fresh request: the source is read at most once and at most one
      fount is ever issued, whatever the caller does. */
  lemma OneShotFromFresh(body: Bytes, calls: seq<BodyCall>)
    ensures Run(Initial, body, calls).0.sourceReads <= 1
    ensures FountsIssued(Run(Initial, body, calls).1) <= 1
  {
    RunKeepsOneShot(Initial, body, calls);
  }

  /** Once the body has been taken in either form, no later call can take
      a fount. */
  lemma {:induction false} NoFountAfterTaken(m: BodyMachine, body: Bytes, calls: seq<BodyCall>)
    requires m.state != Fresh
    ensures FountsIssued(Run(m, body, calls).1) == 0
    decreases |calls|
  {
    if calls != [] {
      var (next, reply) := Perform(m, body, calls[0]);
      NoFountAfterTaken(next, body, calls[1..]);
      assert ([reply] + Run(next, body, calls[1..]).1)[1..] == Run(next, body, calls[1..]).1;
    }
  }
}
