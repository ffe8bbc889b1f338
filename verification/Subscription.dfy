/**
  A realtime subscription: a bounded queue that may drop hints only under cover of a
  resync, and the acknowledgement loop that admits a subscription.
 */
module Subscription {
  type Payload = string

  const RESYNC: Payload := "{\"event\":\"resync\",\"data\":{\"version\":1}}"
  const CAPACITY := 32

  /** What the queue holds; a published hint may well have the bytes of a resync. */
  datatype Item = Hint(payload: Payload) | End

  /** What a `__anext__` call comes to. */
  datatype Answer = Value(payload: Payload) | Stop

  // ---------------------------------------------------------------------------
  // What the consumer has seen
  // ---------------------------------------------------------------------------

  /**
    One delivery to the consumer: the resync that the subscription itself queued, taken
    when `seen` hints had arrived, or the hint that arrived as number `index`.
   */
  datatype Delivery = Resync(seen: nat) | Arrival(index: nat)

  /** The first arrival that the deliveries do not account for. */
  function Next(ds: seq<Delivery>): nat {
    if ds == [] then 0
    else match ds[|ds| - 1]
      case Resync(seen) => seen
      case Arrival(index) => index + 1
  }

  /** A delivery continues where the others end, or is a resync that covers an overflow. */
  predicate Continues(d: Delivery, ds: seq<Delivery>) {
    match d
    case Resync(seen) => ds == [] || Next(ds) + CAPACITY < seen
    case Arrival(index) => ds != [] && index == Next(ds)
  }

  ghost predicate Follows(ds: seq<Delivery>) {
    forall k | 0 <= k < |ds| :: Continues(ds[k], ds[..k])
  }

  ghost predicate DeliveredIn(ds: seq<Delivery>, i: nat) {
    exists k :: 0 <= k < |ds| && ds[k] == Arrival(i)
  }

  /** A resync was taken after hint `i` had arrived. */
  ghost predicate CoveredIn(ds: seq<Delivery>, i: nat) {
    exists k :: 0 <= k < |ds| && ds[k].Resync? && i < ds[k].seen
  }

  lemma FollowsPrefix(ds: seq<Delivery>, k: nat)
    requires Follows(ds) && k <= |ds|
    ensures Follows(ds[..k])
  {
    forall j | 0 <= j < k ensures Continues(ds[..k][j], ds[..k][..j]) {
      assert ds[..k][j] == ds[j] && ds[..k][..j] == ds[..j];
    }
  }

  lemma FollowsAppend(ds: seq<Delivery>, d: Delivery)
    requires Follows(ds) && Continues(d, ds)
    ensures Follows(ds + [d])
    ensures Next(ds + [d]) == if d.Resync? then d.seen else d.index + 1
  {
    forall k | 0 <= k < |ds| + 1 ensures Continues((ds + [d])[k], (ds + [d])[..k]) {
      assert (ds + [d])[..k] == ds[..k];
      assert ds[..|ds|] == ds;
    }
  }

  lemma {:induction false} NextGrows(ds: seq<Delivery>, k: nat)
    requires Follows(ds) && k <= |ds|
    ensures Next(ds[..k]) <= Next(ds)
    decreases |ds|
  {
    if k == |ds| {
      assert ds[..k] == ds;
    } else {
      var n := |ds| - 1;
      FollowsPrefix(ds, n);
      NextGrows(ds[..n], k);
      assert ds[..n][..k] == ds[..k];
      assert Continues(ds[n], ds[..n]);
      assert n == 0 ==> ds[..n] == [];
    }
  }

  lemma NextIsOrdered(ds: seq<Delivery>, j: nat, k: nat)
    requires Follows(ds) && j < k < |ds|
    ensures Next(ds[..j + 1]) <= Next(ds[..k])
  {
    FollowsPrefix(ds, k);
    NextGrows(ds[..k], j + 1);
    assert ds[..k][..j + 1] == ds[..j + 1];
  }

  /** Hints come in the order they arrived in, and none comes twice. */
  lemma HintsAreInOrder(ds: seq<Delivery>, j: nat, k: nat)
    requires Follows(ds) && j < k < |ds| && ds[j].Arrival? && ds[k].Arrival?
    ensures ds[j].index < ds[k].index
  {
    NextIsOrdered(ds, j, k);
    assert ds[..j + 1][j] == ds[j];
    assert Continues(ds[k], ds[..k]);
  }

  /** The resync at `k` stands for hint `i`: it is neither before the resync's gap nor behind it. */
  ghost predicate InGap(ds: seq<Delivery>, k: nat, i: nat) {
    k < |ds| && ds[k].Resync? && Next(ds[..k]) <= i < ds[k].seen
  }

  lemma {:induction false} DeliveredOrInGap(ds: seq<Delivery>, i: nat)
    requires Follows(ds) && i < Next(ds)
    ensures DeliveredIn(ds, i) || exists k: nat :: InGap(ds, k, i)
    decreases |ds|
  {
    var n := |ds| - 1;
    assert Continues(ds[n], ds[..n]);
    if i < Next(ds[..n]) {
      FollowsPrefix(ds, n);
      DeliveredOrInGap(ds[..n], i);
      if k: nat :| InGap(ds[..n], k, i) {
        assert ds[..n][..k] == ds[..k];
        assert InGap(ds, k, i);
      } else {
        var k :| 0 <= k < n && ds[..n][k] == Arrival(i);
        assert ds[k] == Arrival(i);
      }
    } else {
      assert ds[n] == Arrival(i) || InGap(ds, n, i);
    }
  }

  lemma GapIsSkipped(ds: seq<Delivery>, k: nat, i: nat)
    requires Follows(ds) && InGap(ds, k, i)
    ensures !DeliveredIn(ds, i)
  {
    forall m | 0 <= m < |ds| && ds[m].Arrival? ensures ds[m].index != i {
      if m < k {
        NextIsOrdered(ds, m, k);
        assert ds[..m + 1][m] == ds[m];
      } else if k < m {
        NextIsOrdered(ds, k, m);
        assert ds[..k + 1][k] == ds[k] && Continues(ds[m], ds[..m]);
      }
    }
  }

  /**
    A hint before the next one due was dropped exactly if it is in the gap of a resync.
    The first gap is what came before the subscription was read; every other one holds
    more hints than the queue, so nothing is dropped before the queue has overflowed.
   */
  lemma DroppedInOverflows(ds: seq<Delivery>, i: nat)
    requires Follows(ds) && i < Next(ds)
    ensures !DeliveredIn(ds, i) <==> exists k: nat :: InGap(ds, k, i)
    ensures forall k: nat | InGap(ds, k, i) && k > 0 :: CAPACITY < ds[k].seen - Next(ds[..k])
    ensures forall k: nat | InGap(ds, k, i) ::
              forall other: nat | Next(ds[..k]) <= other < ds[k].seen :: !DeliveredIn(ds, other)
  {
    DeliveredOrInGap(ds, i);
    forall k: nat, other: nat | InGap(ds, k, i) && InGap(ds, k, other) ensures !DeliveredIn(ds, other) {
      GapIsSkipped(ds, k, other);
    }
    forall k: nat | InGap(ds, k, i) && k > 0 ensures CAPACITY < ds[k].seen - Next(ds[..k]) {
      assert Continues(ds[k], ds[..k]);
    }
  }

  /** Every arrival before `Next` reached the consumer or is covered by a later resync. */
  lemma EveryArrivalIsExplained(ds: seq<Delivery>, i: nat)
    requires Follows(ds) && i < Next(ds)
    ensures DeliveredIn(ds, i) || CoveredIn(ds, i)
  {
    DeliveredOrInGap(ds, i);
    if k: nat :| InGap(ds, k, i) {
      assert ds[k].Resync? && i < ds[k].seen;
    }
  }

  /** Between two resyncs the consumer gets a contiguous block of what arrived. */
  lemma {:induction false} BlocksAreContiguous(ds: seq<Delivery>, j: nat, k: nat)
    requires Follows(ds) && j < k < |ds| && ds[j].Resync?
    requires forall i | j < i <= k :: ds[i].Arrival?
    ensures ds[k] == Arrival(ds[j].seen + (k - j - 1))
    decreases k
  {
    assert Continues(ds[k], ds[..k]);
    assert ds[..k][k - 1] == ds[k - 1];
    if j + 1 < k {
      BlocksAreContiguous(ds, j, k - 1);
    }
  }

  // ---------------------------------------------------------------------------
  // The subscription
  // ---------------------------------------------------------------------------

  class Queue {
    var queue: seq<Item>
    var resyncPending: bool
    var closed: bool
    /** How many `__anext__` calls are past their check of `closed` and wait for the queue. */
    var waits: nat

    /** The payloads handed to `Put` before the close, and what the consumer took. */
    ghost var arrivals: seq<Payload>
    ghost var deliveries: seq<Delivery>
    /** A wait has ended since the close. */
    ghost var woken: bool

    /** While a resync is pending the queue is just that; otherwise it ends the arrivals. */
    ghost predicate Coherent()
      reads this
    {
      if resyncPending then
        && queue == [Hint(RESYNC)]
        && (deliveries != [] ==> Next(deliveries) + CAPACITY < |arrivals|)
      else
        && deliveries != []
        && Next(deliveries) + |queue| == |arrivals|
        && forall k | 0 <= k < |queue| :: queue[k] == Hint(arrivals[|arrivals| - |queue| + k])
    }

    ghost predicate Valid()
      reads this
    {
      && |queue| <= CAPACITY
      && Follows(deliveries)
      && Next(deliveries) <= |arrivals|
      && (!closed ==> Coherent())
      && (woken ==> closed)
      && (closed && !woken ==> queue != [] && (queue[0] == End || (queue == [Hint(RESYNC)] && resyncPending)))
    }

    constructor ()
      ensures Valid() && !closed && waits == 0 && resyncPending
      ensures arrivals == [] && deliveries == []
    {
      queue := [Hint(RESYNC)];
      resyncPending := true;
      closed, waits, woken := false, 0, false;
      arrivals, deliveries := [], [];
    }

    /** `_drain`: take items until none is left. */
    method Drain()
      modifies this`queue
      ensures queue == []
    {
      while queue != []
        decreases |queue|
      {
        queue := queue[1..];
      }
    }

    /** `_put`: a hint that finds the queue full replaces it by one resync. */
    method Put(payload: Payload)
      requires Valid()
      modifies this`queue, this`resyncPending, this`arrivals
      ensures Valid()
      ensures arrivals == if closed then old(arrivals) else old(arrivals) + [payload]
      ensures resyncPending <==> old(resyncPending) || |old(queue)| == CAPACITY
      ensures queue == if old(resyncPending) then old(queue)
                       else if |old(queue)| == CAPACITY then [Hint(RESYNC)]
                       else old(queue) + [Hint(payload)]
    {
      arrivals := if closed then arrivals else arrivals + [payload];
      if resyncPending {
        return;
      }
      if |queue| == CAPACITY {
        Drain();
        queue := queue + [Hint(RESYNC)];
        resyncPending := true;
      } else {
        queue := queue + [Hint(payload)];
      }
    }

    /** `__anext__` up to the wait: after a close it stops at once. */
    method Enter() returns (stop: bool)
      requires Valid()
      modifies this`waits
      ensures Valid()
      ensures stop == closed && waits == old(waits) + if closed then 0 else 1
    {
      stop := closed;
      if !closed {
        waits := waits + 1;
      }
    }

    /** Cancelling a wait changes nothing else. */
    method Cancel()
      requires Valid() && waits > 0
      modifies this`waits
      ensures Valid() && waits == old(waits) - 1
    {
      waits := waits - 1;
    }

    /**
      `__anext__` once the queue holds something. The first wait to end after a close gets
      the end or a resync, and no later wait begins.
     */
    method Take() returns (r: Answer)
      requires Valid() && waits > 0 && queue != []
      modifies this`queue, this`resyncPending, this`waits, this`deliveries, this`woken
      ensures Valid() && waits == old(waits) - 1 && woken == closed
      ensures queue == old(queue)[1..]
      ensures r == if old(queue)[0] == End then Stop else Value(old(queue)[0].payload)
      ensures !closed && old(resyncPending) ==>
                r == Value(RESYNC) && deliveries == old(deliveries) + [Resync(|arrivals|)]
      ensures !closed && !old(resyncPending) ==>
                var next := Next(old(deliveries));
                && next < |arrivals| && r == Value(arrivals[next])
                && deliveries == old(deliveries) + [Arrival(next)]
      ensures closed ==> deliveries == old(deliveries) && (!old(woken) ==> r in {Stop, Value(RESYNC)})
      ensures resyncPending <==> old(resyncPending) && r != Value(RESYNC)
    {
      hide Follows, Next;
      var item := queue[0];
      ghost var d := if resyncPending then Resync(|arrivals|) else Arrival(Next(deliveries));
      if !closed {
        FollowsAppend(deliveries, d);
        deliveries := deliveries + [d];
      }
      queue, waits, woken := queue[1..], waits - 1, closed;
      if item == End {
        return Stop;
      }
      if item.payload == RESYNC {
        resyncPending := false;
      }
      r := Value(item.payload);
    }

    /** `_begin_close`: what is still queued gives way to the end; a second call does nothing. */
    method BeginClose()
      requires Valid()
      modifies this`queue, this`closed
      ensures Valid() && closed
      ensures queue == if old(closed) then old(queue) else [End]
    {
      if !closed {
        closed := true;
        Drain();
        queue := queue + [End];
      }
    }

    /** The pump, for one message; anything unexpected closes the subscription. */
    method Pump(message: Message, channels: set<string>, valid: Payload -> bool)
      requires Valid()
      modifies this`queue, this`resyncPending, this`arrivals, this`closed
      ensures Valid()
      ensures message == Nothing ==> closed == old(closed) && queue == old(queue) && arrivals == old(arrivals)
      ensures message != Nothing ==>
                var data := message.kind == Data && message.channel in channels && valid(message.payload);
                && (data ==> closed == old(closed))
                && (data && !closed ==> arrivals == old(arrivals) + [message.payload])
                && (!data ==> closed && arrivals == old(arrivals))
    {
      if message == Nothing {
        return;
      }
      if message.kind != Data || message.channel !in channels || !valid(message.payload) {
        BeginClose();
      } else {
        Put(message.payload);
      }
    }

    /** Every hint that arrived was delivered, is queued, or has a resync taken after it. */
    lemma NothingIsLost(i: nat)
      requires Valid() && !closed && i < |arrivals|
      ensures || DeliveredIn(deliveries, i)
              || CoveredIn(deliveries, i)
              || resyncPending
              || (Next(deliveries) <= i && queue[i - Next(deliveries)] == Hint(arrivals[i]))
    {
      if i < Next(deliveries) {
        EveryArrivalIsExplained(deliveries, i);
      }
    }
  }

  // ---------------------------------------------------------------------------
  // What a close leaves to the waits
  // ---------------------------------------------------------------------------

  function Answered(item: Item): Answer {
    if item == End then Stop else Value(item.payload)
  }

  function HintsOf(payloads: seq<Payload>): seq<Item> {
    seq(|payloads|, k requires 0 <= k < |payloads| => Hint(payloads[k]))
  }

  /** What is queued after a close and these late hints; `pending` says whether a resync was due. */
  function QueuedAfterClose(pending: bool, late: seq<Payload>): seq<Item> {
    if pending then [End]
    else if |late| < CAPACITY then [End] + HintsOf(late)
    else [Hint(RESYNC)]
  }

  /** The pump is not stopped at once: hints may still be put after the close. */
  method CloseAndPut(q: Queue, late: seq<Payload>)
    requires q.Valid() && !q.closed
    modifies q`queue, q`resyncPending, q`arrivals, q`closed
    ensures q.Valid() && q.closed && q.queue == QueuedAfterClose(old(q.resyncPending), late)
  {
    q.BeginClose();
    assert HintsOf(late[..0]) == [] && [End] + [] == [End];
    for k := 0 to |late|
      invariant q.Valid() && q.closed
      invariant q.queue == QueuedAfterClose(old(q.resyncPending), late[..k])
      invariant q.resyncPending <==> old(q.resyncPending) || k >= CAPACITY
    {
      OneMoreLate(old(q.resyncPending), late, k);
      q.Put(late[k]);
    }
    assert late[..|late|] == late;
  }

  lemma OneMoreLate(pending: bool, late: seq<Payload>, k: nat)
    requires k < |late|
    ensures var queue, more := QueuedAfterClose(pending, late[..k]), QueuedAfterClose(pending, late[..k + 1]);
            more == if pending || k >= CAPACITY then queue
                    else if |queue| == CAPACITY then [Hint(RESYNC)]
                    else queue + [Hint(late[k])]
  {
    assert HintsOf(late[..k + 1]) == HintsOf(late[..k]) + [Hint(late[k])];
    assert [End] + (HintsOf(late[..k]) + [Hint(late[k])]) == [End] + HintsOf(late[..k]) + [Hint(late[k])];
  }

  /**
    A close of an open subscription with some calls waiting, late hints, and then every
    wait that can end. The first one gets the end, unless a resync covers it: exactly if
    none was due and the late hints overflow the queue. The close alone ends one wait:
    the others are left with an empty queue.
   */
  method CloseAndTake(q: Queue, late: seq<Payload>) returns (answers: seq<Answer>)
    requires q.Valid() && !q.closed
    modifies q
    ensures q.Valid() && q.closed && q.waits == old(q.waits) - |answers|
    ensures var queued := QueuedAfterClose(old(q.resyncPending), late);
            && |answers| == (if old(q.waits) <= |queued| then old(q.waits) else |queued|)
            && q.queue == queued[|answers|..]
            && forall k | 0 <= k < |answers| :: answers[k] == Answered(queued[k])
    ensures answers != [] ==> answers[0] in {Stop, Value(RESYNC)}
    ensures answers != [] ==> (answers[0] == Stop <==> old(q.resyncPending) || |late| < CAPACITY)
    ensures late == [] ==> (q.waits == 0 <==> old(q.waits) <= 1)
  {
    CloseAndPut(q, late);
    ghost var queued := q.queue;
    answers := [];
    while q.queue != [] && q.waits > 0
      invariant q.Valid() && q.closed
      invariant |answers| <= |queued| && q.queue == queued[|answers|..]
      invariant |answers| <= old(q.waits) && q.waits == old(q.waits) - |answers|
      invariant forall k | 0 <= k < |answers| :: answers[k] == Answered(queued[k])
      decreases q.waits
    {
      var answer := q.Take();
      answers := answers + [answer];
    }
  }

  // ---------------------------------------------------------------------------
  // Acknowledgements
  // ---------------------------------------------------------------------------

  datatype Kind = Subscribe | Data | Other

  /** `count` is the data of an acknowledgement, when that is an integer. */
  datatype Message = Nothing | Message(kind: Kind, channel: string, payload: Payload, count: int)

  function Acknowledged(ms: seq<Message>): set<string> {
    set i | 0 <= i < |ms| && ms[i] != Nothing && ms[i].kind == Subscribe :: ms[i].channel
  }

  /** A message that may arrive once these channels are acknowledged. */
  predicate Proper(m: Message, acknowledged: set<string>, expected: set<string>) {
    m == Nothing
    || (m.channel in expected
        && (m.kind == Data
            || (m.kind == Subscribe && m.channel !in acknowledged && m.count == |acknowledged| + 1)))
  }

  ghost predicate ProperAt(ms: seq<Message>, i: nat, expected: set<string>)
    requires i < |ms|
  {
    Proper(ms[i], Acknowledged(ms[..i]), expected)
  }

  /** The first `n` messages are proper. */
  ghost predicate ProperRun(ms: seq<Message>, n: nat, expected: set<string>)
    requires n <= |ms|
  {
    forall i: nat | i < n :: ProperAt(ms, i, expected)
  }

  ghost predicate Complete(ms: seq<Message>, n: nat, expected: set<string>)
    requires n <= |ms|
  {
    Acknowledged(ms[..n]) == expected
  }

  ghost predicate NotComplete(ms: seq<Message>, n: nat, expected: set<string>)
    requires n <= |ms|
  {
    forall i: nat | i < n :: !Complete(ms, i, expected)
  }

  /** What setting up comes to; `n` counts the messages read. `Waiting` ends in the time limit. */
  datatype Setup = Ready(n: nat) | Refused(n: nat) | Waiting

  lemma AcknowledgedGrows(ms: seq<Message>, m: Message)
    ensures Acknowledged(ms + [m]) ==
            Acknowledged(ms) + (if m != Nothing && m.kind == Subscribe then {m.channel} else {})
  {
    var more := ms + [m];
    forall c | c in Acknowledged(ms) ensures c in Acknowledged(more) {
      var i :| 0 <= i < |ms| && ms[i] != Nothing && ms[i].kind == Subscribe && ms[i].channel == c;
      assert more[i] == ms[i];
    }
    assert more[|ms|] == m;
  }

  lemma NothingRead(ms: seq<Message>, expected: set<string>)
    ensures Acknowledged(ms[..0]) == {} && ProperRun(ms, 0, expected) && NotComplete(ms, 0, expected)
  {
  }

  lemma OneMoreRead(ms: seq<Message>, n: nat, expected: set<string>)
    requires n < |ms| && ProperRun(ms, n, expected) && NotComplete(ms, n, expected) && !Complete(ms, n, expected)
    ensures NotComplete(ms, n + 1, expected)
    ensures ProperAt(ms, n, expected) ==> ProperRun(ms, n + 1, expected)
    ensures Acknowledged(ms[..n + 1]) ==
            Acknowledged(ms[..n]) + (if ms[n] != Nothing && ms[n].kind == Subscribe then {ms[n].channel} else {})
  {
    hide Complete, ProperAt;
    AcknowledgedGrows(ms[..n], ms[n]);
    assert ms[..n + 1] == ms[..n] + [ms[n]];
  }

  /** Reads one message: whether it is proper, and the channels acknowledged with it. */
  method Admit(m: Message, acknowledged: set<string>, expected: set<string>) returns (ok: bool, more: set<string>)
    ensures ok <==> Proper(m, acknowledged, expected)
    ensures ok ==> more == acknowledged + (if m != Nothing && m.kind == Subscribe then {m.channel} else {})
  {
    more := acknowledged;
    if m == Nothing {
      return true, more;
    }
    if m.channel !in expected {
      return false, more;
    }
    if m.kind == Subscribe {
      if m.channel in acknowledged || m.count != |acknowledged| + 1 {
        return false, more;
      }
      more := acknowledged + {m.channel};
    } else if m.kind != Data {
      return false, more;
    }
    ok := true;
  }

  /**
    The acknowledgement loop: it is ready at the first moment every channel is
    acknowledged, provided every message up to then is proper.
   */
  method Acknowledge(ms: seq<Message>, expected: set<string>) returns (r: Setup)
    ensures r.Ready? ==>
              && r.n <= |ms| && ProperRun(ms, r.n, expected)
              && Complete(ms, r.n, expected) && NotComplete(ms, r.n, expected)
    ensures r.Refused? ==>
              && r.n < |ms| && ProperRun(ms, r.n, expected)
              && !ProperAt(ms, r.n, expected) && NotComplete(ms, r.n + 1, expected)
    ensures r == Waiting ==> ProperRun(ms, |ms|, expected) && NotComplete(ms, |ms|, expected) && !Complete(ms, |ms|, expected)
  {
    hide Acknowledged, Proper, ProperRun, NotComplete;
    var acknowledged: set<string> := {};
    var n := 0;
    NothingRead(ms, expected);
    while acknowledged != expected
      invariant n <= |ms| && acknowledged == Acknowledged(ms[..n])
      invariant ProperRun(ms, n, expected) && NotComplete(ms, n, expected)
      decreases |ms| - n
    {
      if n == |ms| {
        return Waiting;
      }
      var ok, more := Admit(ms[n], acknowledged, expected);
      OneMoreRead(ms, n, expected);
      if !ok {
        return Refused(n);
      }
      acknowledged, n := more, n + 1;
    }
    r := Ready(n);
  }

  /** The acknowledgements of a channel among the messages. */
  function Acknowledgements(ms: seq<Message>, channel: string): nat {
    if ms == [] then 0
    else
      var m := ms[|ms| - 1];
      Acknowledgements(ms[..|ms| - 1], channel)
      + if m != Nothing && m.kind == Subscribe && m.channel == channel then 1 else 0
  }

  /** A ready subscription has one acknowledgement of every channel and of no other. */
  lemma {:induction false} EachChannelOnce(ms: seq<Message>, n: nat, expected: set<string>, channel: string)
    requires n <= |ms| && ProperRun(ms, n, expected)
    ensures Acknowledgements(ms[..n], channel) == if channel in Acknowledged(ms[..n]) then 1 else 0
    ensures Acknowledged(ms[..n]) <= expected
  {
    if n > 0 {
      EachChannelOnce(ms, n - 1, expected, channel);
      AcknowledgedGrows(ms[..n - 1], ms[n - 1]);
      assert ms[..n] == ms[..n - 1] + [ms[n - 1]];
      assert ms[..n][..n - 1] == ms[..n - 1];
      assert ProperAt(ms, n - 1, expected);
    }
  }
}
