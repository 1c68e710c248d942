/**
 The request/response queue to the orderflow bot (core/src/flowProcess.ts): one line out for each context
 written in, matched by position alone. Requests, replies, timeouts, failed writes and the bot's death
 come in any order.
 */
module FlowQueue {
  const STDERR_LIMIT: nat := 20000

  /// How a request's promise was settled. A reply is known by its position in the bot's output.
  datatype Outcome = Answered(line: nat) | TimedOut | WriteFailed

  /// Requests are numbered as their resolvers are queued. `written` are those that reached the bot, in
  /// order; `lines` is how many lines it has put out.
  datatype Queue = Queue(
    pending: seq<nat>, alive: bool, killed: bool, queued: nat, written: seq<nat>, lines: nat,
    settled: map<nat, Outcome>)

  datatype Event =
    | Request(writeThrows: bool)
    | Line
    | Timeout(request: nat)
    | Death
    | Close

  const FRESH: Queue := Queue([], true, false, 0, [], 0, map[])

  /// A promise keeps the first settlement it gets.
  function Settle(settled: map<nat, Outcome>, request: nat, how: Outcome): map<nat, Outcome> {
    if request in settled then settled else settled[request := how]
  }

  /// The bot answers each context written to it once and in order; a timer runs only for a written one.
  predicate Possible(q: Queue, e: Event) {
    match e
    case Line => q.lines < |q.written|
    case Timeout(request) => request in q.written
    case _ => true
  }

  function Next(q: Queue, e: Event): Queue
    requires Possible(q, e)
  {
    match e
    case Request(writeThrows) =>
      if !q.alive || q.killed then q
      else
        var q' := q.(pending := q.pending + [q.queued], queued := q.queued + 1);
        if writeThrows then q'.(settled := Settle(q.settled, q.queued, WriteFailed))
        else q'.(written := q.written + [q.queued])
    case Line =>
      var q' := q.(lines := q.lines + 1);
      if q.pending == [] then q'
      else q'.(pending := q.pending[1..], settled := Settle(q.settled, q.pending[0], Answered(q.lines)))
    case Timeout(request) => q.(settled := Settle(q.settled, request, TimedOut))
    case Death => q.(alive := false)
    case Close => q.(killed := true)
  }

  // ---------------------------------------------------------------- what every run keeps

  ghost predicate Rising(s: seq<nat>) { forall i, j :: 0 <= i < j < |s| ==> s[i] < s[j] }

  /// The queue holds the requests from the first unanswered position on, whatever became of them.
  ghost predicate QueueInv(q: Queue) {
    q.lines <= |q.written| <= q.queued &&
    |q.pending| == q.queued - q.lines && (forall i :: 0 <= i < |q.pending| ==> q.pending[i] == q.lines + i) &&
    Rising(q.written) && (forall i :: 0 <= i < |q.written| ==> q.written[i] < q.queued) &&
    (forall r <- q.settled :: r < q.queued) &&
    (forall r <- q.settled :: q.settled[r].Answered? ==> q.settled[r].line == r < q.lines) &&
    (forall r: nat :: r < q.lines ==> r in q.settled)
  }

  lemma FreshHolds()
    ensures QueueInv(FRESH)
  {}

  lemma NextKeeps(q: Queue, e: Event)
    requires QueueInv(q) && Possible(q, e)
    ensures QueueInv(Next(q, e))
  {}

  function Run(q: Queue, events: seq<Event>): Queue
    decreases |events|
  {
    if events == [] then q else Run(if Possible(q, events[0]) then Next(q, events[0]) else q, events[1..])
  }

  lemma {:induction false} RunKeeps(q: Queue, events: seq<Event>)
    requires QueueInv(q)
    ensures QueueInv(Run(q, events))
    decreases |events|
  {
    hide Next, QueueInv;
    if events != [] {
      if Possible(q, events[0]) { NextKeeps(q, events[0]); }
      RunKeeps(if Possible(q, events[0]) then Next(q, events[0]) else q, events[1..]);
    }
  }

  // ---------------------------------------------------------------- what settles a request, and what does not

  /// A line answers the request at the head of the queue, unless that was settled before.
  lemma LineAnswersTheHead(q: Queue)
    requires QueueInv(q) && Possible(q, Line) && q.pending != []
    ensures var q', head := Next(q, Line), q.pending[0];
            head == q.lines && q'.pending == q.pending[1..] && head in q'.settled &&
            q'.settled[head] == (if head in q.settled then q.settled[head] else Answered(q.lines)) &&
            forall r: nat :: r != head ==> (r in q'.settled <==> r in q.settled) &&
                                           (r in q.settled ==> q'.settled[r] == q.settled[r])
  {}

  /// A timeout settles its own request, unless that was settled before, and leaves it in the queue.
  lemma TimeoutSettlesItsOwn(q: Queue, request: nat)
    requires Possible(q, Timeout(request))
    ensures var q' := Next(q, Timeout(request));
            q'.pending == q.pending && request in q'.settled &&
            q'.settled[request] == (if request in q.settled then q.settled[request] else TimedOut) &&
            forall r: nat :: r != request ==> (r in q'.settled <==> r in q.settled) &&
                                              (r in q.settled ==> q'.settled[r] == q.settled[r])
  {}

  /// A settlement is for good.
  lemma {:induction false} SettledForGood(q: Queue, events: seq<Event>, request: nat)
    requires request in q.settled
    ensures var q' := Run(q, events); request in q'.settled && q'.settled[request] == q.settled[request]
    decreases |events|
  {
    if events != [] {
      SettledForGood(if Possible(q, events[0]) then Next(q, events[0]) else q, events[1..], request);
    }
  }

  /// Once the bot is dead or closed no request is accepted any more.
  lemma {:induction false} NothingAcceptedAfterTheEnd(q: Queue, events: seq<Event>)
    requires !q.alive || q.killed
    ensures Run(q, events).queued == q.queued && Run(q, events).written == q.written
    decreases |events|
  {
    if events != [] {
      NothingAcceptedAfterTheEnd(if Possible(q, events[0]) then Next(q, events[0]) else q, events[1..]);
    }
  }

  /// Death and closing are the end, and nothing else is.
  lemma OnlyDeathAndClosingEnd(q: Queue, e: Event)
    requires Possible(q, e)
    ensures var q' := Next(q, e);
            (!q'.alive || q'.killed) <==> !q.alive || q.killed || e.Death? || e.Close?
  {}

  /// Before that every request is queued, and written unless its write throws.
  lemma LiveBotIsAsked(q: Queue, writeThrows: bool)
    requires q.alive && !q.killed
    ensures var q' := Next(q, Request(writeThrows));
            q'.pending == q.pending + [q.queued] && q'.queued == q.queued + 1 &&
            q'.written == (if writeThrows then q.written else q.written + [q.queued])
  {}

  // ---------------------------------------------------------------- correlation

  /// Every line put out so far answers the very request whose resolver it was handed to.
  ghost predicate Correlated(q: Queue) {
    q.lines <= |q.written| && forall k :: 0 <= k < q.lines ==> q.written[k] == k
  }

  ghost predicate WriteDidFail(q: Queue, r: nat) { r in q.settled && q.settled[r] == WriteFailed }

  /// The requests that did not reach the bot are those whose write failed.
  ghost predicate FailuresKnown(q: Queue) {
    (forall r <- q.written :: r < q.queued && !WriteDidFail(q, r)) &&
    (forall r: nat :: r < q.queued && r !in q.written ==> WriteDidFail(q, r))
  }

  lemma FreshKnowsFailures()
    ensures FailuresKnown(FRESH)
  {}

  lemma NextKnowsFailures(q: Queue, e: Event)
    requires QueueInv(q) && FailuresKnown(q) && Possible(q, e)
    ensures FailuresKnown(Next(q, e))
  {}

  lemma {:induction false} RunKnowsFailures(q: Queue, events: seq<Event>)
    requires QueueInv(q) && FailuresKnown(q)
    ensures FailuresKnown(Run(q, events))
    decreases |events|
  {
    hide Next, QueueInv, FailuresKnown;
    if events != [] {
      if Possible(q, events[0]) {
        NextKeeps(q, events[0]);
        NextKnowsFailures(q, events[0]);
      }
      RunKnowsFailures(if Possible(q, events[0]) then Next(q, events[0]) else q, events[1..]);
    }
  }

  /// No request whose reply is out was accepted after one whose write failed.
  ghost predicate NoneAcceptedAfterFailedWrite(q: Queue) {
    q.lines <= |q.written| &&
    forall k: nat, failed: nat :: k < q.lines && failed < q.written[k] ==> !WriteDidFail(q, failed)
  }

  /// Whether the write threw, for each request accepted.
  function Writes(q: Queue, events: seq<Event>): seq<bool>
    decreases |events|
  {
    if events == [] then []
    else
      var q' := if Possible(q, events[0]) then Next(q, events[0]) else q;
      (if events[0].Request? && q'.queued > q.queued then [events[0].writeThrows] else []) + Writes(q', events[1..])
  }

  lemma NextWrites(q: Queue, e: Event)
    requires QueueInv(q) && FailuresKnown(q) && Possible(q, e)
    ensures var q' := Next(q, e);
            q'.queued == q.queued + (if e.Request? && q'.queued > q.queued then 1 else 0) &&
            (forall r: nat :: r < q.queued ==> WriteDidFail(q', r) == WriteDidFail(q, r)) &&
            (e.Request? && q'.queued > q.queued ==> WriteDidFail(q', q.queued) == e.writeThrows)
  {}

  /// The record of the writes tells which of the requests failed.
  lemma {:induction false} WritesTell(q: Queue, events: seq<Event>)
    requires QueueInv(q) && FailuresKnown(q)
    ensures var q', writes := Run(q, events), Writes(q, events);
            q'.queued == q.queued + |writes| &&
            (forall r: nat :: r < q.queued ==> WriteDidFail(q', r) == WriteDidFail(q, r)) &&
            (forall i: nat :: i < |writes| ==> WriteDidFail(q', q.queued + i) == writes[i])
    decreases |events|
  {
    hide Next, QueueInv, FailuresKnown, WriteDidFail;
    if events != [] {
      var e := events[0];
      var q1 := if Possible(q, e) then Next(q, e) else q;
      if Possible(q, e) {
        NextWrites(q, e);
        NextKeeps(q, e);
        NextKnowsFailures(q, e);
      }
      WritesTell(q1, events[1..]);
      var q', rest, writes := Run(q, events), Writes(q1, events[1..]), Writes(q, events);
      var first := if e.Request? && q1.queued > q.queued then [e.writeThrows] else [];
      assert writes == first + rest;
      forall i: nat | i < |writes| ensures WriteDidFail(q', q.queued + i) == writes[i] {
        if i >= |first| { assert writes[i] == rest[i - |first|]; }
      }
    }
  }

  lemma {:induction false} RisingIsAtLeast(s: seq<nat>, k: nat)
    requires Rising(s) && k < |s|
    ensures s[k] >= k
  {
    if k > 0 { RisingIsAtLeast(s, k - 1); }
  }

  lemma {:induction false} WrittenWithoutGaps(q: Queue, k: nat)
    requires QueueInv(q) && FailuresKnown(q) && NoneAcceptedAfterFailedWrite(q) && k < q.lines
    ensures q.written[k] == k
  {
    RisingIsAtLeast(q.written, k);
    if k > 0 { WrittenWithoutGaps(q, k - 1); }
    if q.written[k] > k {
      assert q.written[k] in q.written && !WriteDidFail(q, k);
      assert k in q.written;
      var j :| 0 <= j < |q.written| && q.written[j] == k;
      assert false;
    }
  }

  lemma GapFreeIsCorrelated(q: Queue)
    requires QueueInv(q) && FailuresKnown(q)
    ensures NoneAcceptedAfterFailedWrite(q) ==> Correlated(q)
  {
    hide QueueInv, NoneAcceptedAfterFailedWrite, FailuresKnown;
    if NoneAcceptedAfterFailedWrite(q) {
      WrittenReachesLines(q);
      forall k | 0 <= k < q.lines ensures q.written[k] == k { WrittenWithoutGaps(q, k); }
    }
  }

  lemma WrittenReachesLines(q: Queue)
    requires QueueInv(q)
    ensures q.lines <= |q.written| <= q.queued
  {}

  lemma CorrelatedIsGapFree(q: Queue)
    requires FailuresKnown(q) && Correlated(q)
    ensures NoneAcceptedAfterFailedWrite(q)
  {
    forall k: nat, failed: nat | k < q.lines && failed < q.written[k] ensures !WriteDidFail(q, failed) {
      assert q.written[failed] == failed;
      assert failed in q.written;
    }
  }

  /**
   Over every interleaving, replies are matched to requests exactly as long as no request was accepted
   after a failed write: the resolver of one whose write threw stays in the queue, and from then on each
   reply goes to the request before its own.
   */
  lemma CorrelatedIffNoneAcceptedAfterFailedWrite(events: seq<Event>)
    ensures Correlated(Run(FRESH, events)) <==> NoneAcceptedAfterFailedWrite(Run(FRESH, events))
  {
    hide QueueInv, FailuresKnown, Correlated, NoneAcceptedAfterFailedWrite, Run;
    FreshHolds();
    FreshKnowsFailures();
    RunKeeps(FRESH, events);
    RunKnowsFailures(FRESH, events);
    var q := Run(FRESH, events);
    GapFreeIsCorrelated(q);
    if Correlated(q) { CorrelatedIsGapFree(q); }
  }

  /// The same on the events: with `n` lines out, the writes of the first `n` accepted requests all succeeded.
  lemma CorrelatedIffFirstWritesSucceeded(events: seq<Event>)
    ensures var q := Run(FRESH, events);
            q.lines <= |Writes(FRESH, events)| &&
            (Correlated(q) <==> forall r: nat :: r < q.lines ==> !Writes(FRESH, events)[r])
  {
    hide QueueInv, FailuresKnown, Run, WriteDidFail, Writes, Correlated;
    FreshHolds();
    FreshKnowsFailures();
    RunKeeps(FRESH, events);
    RunKnowsFailures(FRESH, events);
    WritesTell(FRESH, events);
    var q, writes := Run(FRESH, events), Writes(FRESH, events);
    assert forall i: nat :: i < |writes| ==> WriteDidFail(q, FRESH.queued + i) == writes[i];
    WrittenReachesLines(q);
    CorrelatedIffFirstReached(q);
    assert forall i: nat :: i < |writes| ==> WriteDidFail(q, i) == writes[i] by {
      forall i: nat | i < |writes| ensures WriteDidFail(q, i) == writes[i] { assert FRESH.queued + i == i; }
    }
  }

  lemma CorrelatedIffFirstReached(q: Queue)
    requires QueueInv(q) && FailuresKnown(q)
    ensures Correlated(q) <==> forall r: nat :: r < q.lines ==> !WriteDidFail(q, r)
  {
    if Correlated(q) {
      forall r: nat | r < q.lines ensures !WriteDidFail(q, r) {
        assert q.written[r] == r;
        assert r in q.written;
      }
    } else {
      var k: nat :| k < q.lines && q.written[k] != k;
      var r := FirstMissing(q, k);
      assert WriteDidFail(q, r);
    }
  }

  /// Where a written request is not the one of its position, an earlier one did not reach the bot.
  lemma {:induction false} FirstMissing(q: Queue, k: nat) returns (r: nat)
    requires QueueInv(q) && k < q.lines && q.written[k] != k
    ensures r <= k && r !in q.written
  {
    RisingIsAtLeast(q.written, k);
    if k > 0 && q.written[k - 1] != k - 1 {
      r := FirstMissing(q, k - 1);
    } else {
      r := k;
      BetweenIsMissing(q.written, k, r);
    }
  }

  lemma BetweenIsMissing(s: seq<nat>, k: nat, r: nat)
    requires Rising(s) && k < |s| && r < s[k] && (k > 0 ==> s[k - 1] < r)
    ensures r !in s
  {
    forall i | 0 <= i < |s| ensures s[i] != r {
      if i < k - 1 { assert s[i] < s[k - 1]; }
      if i > k { assert s[k] < s[i]; }
    }
  }

  /// So an answered request got the bot's answer to itself; a reply that comes after its timeout is used
  /// up by the request that timed out, never handed to a later one.
  lemma AnswersAreTheirOwn(events: seq<Event>, request: nat)
    requires NoneAcceptedAfterFailedWrite(Run(FRESH, events))
    ensures var q := Run(FRESH, events);
            request in q.settled && q.settled[request].Answered? ==>
              q.settled[request].line < |q.written| && q.written[q.settled[request].line] == request
  {
    hide QueueInv, FailuresKnown, Correlated, NoneAcceptedAfterFailedWrite, Run;
    FreshHolds();
    FreshKnowsFailures();
    RunKeeps(FRESH, events);
    RunKnowsFailures(FRESH, events);
    var q := Run(FRESH, events);
    if request in q.settled && q.settled[request].Answered? { AnswerIsOwn(q, request); }
  }

  lemma AnswerIsOwn(q: Queue, request: nat)
    requires QueueInv(q) && FailuresKnown(q) && NoneAcceptedAfterFailedWrite(q)
    requires request in q.settled && q.settled[request].Answered?
    ensures q.settled[request].line == request < |q.written| && q.written[request] == request
  {
    hide NoneAcceptedAfterFailedWrite;
    WrittenWithoutGaps(q, request);
  }

  /// With one write failed and the next request written, that request's reply settles nothing and the
  /// request is left waiting.
  lemma OneFailedWriteShiftsTheReplies()
    ensures var q := Run(FRESH, [Request(true), Request(false), Line]);
            q.written == [1] && q.lines == 1 && 1 !in q.settled && q.settled[0] == WriteFailed && q.pending == [1]
  {
    var q1 := Next(FRESH, Request(true));
    var q2 := Next(q1, Request(false));
    var q3 := Next(q2, Line);
    var events := [Request(true), Request(false), Line];
    assert events[1..] == [Request(false), Line] && events[1..][1..] == [Line] && events[1..][1..][1..] == [];
    assert Run(q3, []) == q3 && Run(q2, [Line]) == q3 && Run(q1, [Request(false), Line]) == q3;
  }

  // ---------------------------------------------------------------- the object

  function LastOf(s: string, n: nat): string { if |s| > n then s[|s| - n..] else s }

  /// Cutting at every chunk keeps the same text as cutting once at the end.
  lemma StderrIsTheEndOfTheOutput(s: string, chunk: string, n: nat)
    ensures LastOf(LastOf(s, n) + chunk, n) == LastOf(s + chunk, n)
  {}

  class FlowProcess {
    var pending: seq<nat>
    var alive: bool
    var killed: bool
    var stderr: string
    var queued: nat
    var settled: map<nat, Outcome>
    ghost var written: seq<nat>
    var lines: nat  // counted here to name the replies; the source keeps no count

    ghost function Value(): Queue
      reads this
    {
      Queue(pending, alive, killed, queued, written, lines, settled)
    }

    constructor ()
      ensures Value() == FRESH && stderr == ""
    {
      pending, alive, killed, stderr, queued, settled := [], true, false, "", 0, map[];
      written, lines := [], 0;
    }

    /// A request up to the point where it waits: the resolver is queued before the write is tried.
    method RequestOrders(writeThrows: bool)
      modifies this
      ensures Value() == Next(old(Value()), Request(writeThrows)) && stderr == old(stderr)
    {
      if !alive || killed { return; }
      var request := queued;
      queued := queued + 1;
      pending := pending + [request];
      if writeThrows {
        settled := Settle(settled, request, WriteFailed);
        return;
      }
      written := written + [request];
    }

    method OnLine()
      requires Possible(Value(), Line)
      modifies this
      ensures Value() == Next(old(Value()), Line) && stderr == old(stderr)
    {
      if pending != [] {
        var request := pending[0];
        pending := pending[1..];
        settled := Settle(settled, request, Answered(lines));
      }
      lines := lines + 1;
    }

    method OnTimeout(request: nat)
      requires Possible(Value(), Timeout(request))
      modifies this
      ensures Value() == Next(old(Value()), Timeout(request)) && stderr == old(stderr)
    {
      settled := Settle(settled, request, TimedOut);
    }

    method OnStderr(data: string)
      modifies this`stderr
      ensures stderr == LastOf(old(stderr) + data, 20000)
    {
      stderr := stderr + data;
      if |stderr| > STDERR_LIMIT { stderr := stderr[|stderr| - STDERR_LIMIT..]; }
    }

    /// A process error is noted in the same text, uncut until more output comes.
    method OnError(message: string)
      modifies this
      ensures Value() == Next(old(Value()), Death) && stderr == old(stderr) + message
    {
      alive := false;
      stderr := stderr + message;
    }

    method OnExit()
      modifies this
      ensures Value() == Next(old(Value()), Death) && stderr == old(stderr)
    {
      alive := false;
    }

    method CloseProcess()
      modifies this
      ensures Value() == Next(old(Value()), Close) && stderr == old(stderr)
    {
      killed := true;
    }
  }
}
