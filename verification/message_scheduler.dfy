/**
 * One tick of the scheduled-message job (src/jobs/messageScheduler.js): the
 * due messages are read, then each is marked completed, or failed when marking
 * it completed throws. The clock and the outcome of each status write are
 * inputs.
 */
module MessageScheduler {

  /** The status values the schema allows. */
  datatype Status = Pending | Completed | Failed

  datatype Message = Message(id: nat, text: string, scheduled_at: int, status: Status)

  /**
   * How the status writes for one message go: the write of `completed`
   * succeeds; it throws and the write of `failed` succeeds; or both throw,
   * which escapes the loop and ends the tick.
   */
  datatype Attempt = Completes | FailsOnce | FailsTwice

  /** `getPendingMessages()`: pending, and scheduled no later than now. */
  predicate Due(m: Message, now: int) {
    m.status == Pending && m.scheduled_at <= now
  }

  /** The status a due message ends in when its writes go as `a`. */
  function Settled(a: Attempt): Status {
    if a == Completes then Completed else Failed
  }

  /** The messages after a tick, and whether an error escaped the loop. */
  datatype Tick = Tick(messages: seq<Message>, aborted: bool)

  /** Equal up to the status. */
  predicate SameButStatus(a: Message, b: Message) {
    a.(status := b.status) == b
  }

  /**
   * What a tick promises about the messages it was given: only due messages
   * change, and only their status, to the settled one; an abort happens
   * exactly when some due message's writes both throw, and from that message
   * on nothing changes.
   */
  predicate TickSpec(msgs: seq<Message>, now: int, attempt: nat -> Attempt, r: Tick) {
    TickFrame(msgs, now, attempt, r.messages) && TickAbort(msgs, now, attempt, r)
  }

  /** Message by message: only due messages change, and only to their settled status. */
  predicate TickFrame(msgs: seq<Message>, now: int, attempt: nat -> Attempt, out: seq<Message>) {
    && |out| == |msgs|
    && (forall i :: 0 <= i < |msgs| ==> SameButStatus(out[i], msgs[i]))
    && (forall i :: 0 <= i < |msgs| && !Due(msgs[i], now) ==> out[i] == msgs[i])
    && (forall i :: 0 <= i < |msgs| && out[i].status == Pending ==> out[i] == msgs[i])
    && (forall i :: 0 <= i < |msgs| && out[i] != msgs[i] ==>
          Due(msgs[i], now) && out[i].status == Settled(attempt(msgs[i].id)))
  }

  /** When the tick stops early, and what it leaves alone when it does. */
  predicate TickAbort(msgs: seq<Message>, now: int, attempt: nat -> Attempt, r: Tick)
    requires |r.messages| == |msgs|
  {
    && (r.aborted <==> exists i :: 0 <= i < |msgs| && Due(msgs[i], now) && attempt(msgs[i].id) == FailsTwice)
    && (!r.aborted ==> forall i :: 0 <= i < |msgs| && Due(msgs[i], now) ==>
          r.messages[i].status == Settled(attempt(msgs[i].id)))
    && (forall i, j :: 0 <= i <= j < |msgs| && Due(msgs[i], now) && attempt(msgs[i].id) == FailsTwice ==>
          r.messages[j] == msgs[j])
  }

  /**
   * One scheduler run over the stored messages. Each due message in turn is
   * settled; messages that are not due are left alone. A message whose two
   * writes both throw stops the tick: it and every later message keep their
   * status.
   */
  function RunTick(msgs: seq<Message>, now: int, attempt: nat -> Attempt): (r: Tick)
    ensures |r.messages| == |msgs|
    ensures forall i :: 0 <= i < |msgs| ==> SameButStatus(r.messages[i], msgs[i])
    ensures forall i :: 0 <= i < |msgs| && !Due(msgs[i], now) ==> r.messages[i] == msgs[i]
    ensures forall i :: 0 <= i < |msgs| && r.messages[i].status == Pending ==> r.messages[i] == msgs[i]
    ensures forall i :: 0 <= i < |msgs| && r.messages[i] != msgs[i] ==>
              Due(msgs[i], now) && r.messages[i].status == Settled(attempt(msgs[i].id))
    ensures r.aborted <==> exists i :: 0 <= i < |msgs| && Due(msgs[i], now) && attempt(msgs[i].id) == FailsTwice
    ensures !r.aborted ==> forall i :: 0 <= i < |msgs| && Due(msgs[i], now) ==>
              r.messages[i].status == Settled(attempt(msgs[i].id))
    ensures forall i, j :: 0 <= i <= j < |msgs| && Due(msgs[i], now) && attempt(msgs[i].id) == FailsTwice ==>
              r.messages[j] == msgs[j]
  {
    if msgs == [] then Tick([], false)
    else
      var m := msgs[0];
      if Due(m, now) && attempt(m.id) == FailsTwice then
        AbortStep(msgs, now, attempt);
        Tick(msgs, true)
      else
        var rest := RunTick(msgs[1..], now, attempt);
        var x := if Due(m, now) then m.(status := Settled(attempt(m.id))) else m;
        ConsStep(msgs, now, attempt, rest, x);
        Tick([x] + rest.messages, rest.aborted)
  }

  /** A first message that is due and whose writes both throw ends the tick with nothing changed. */
  lemma AbortStep(msgs: seq<Message>, now: int, attempt: nat -> Attempt)
    requires msgs != [] && Due(msgs[0], now) && attempt(msgs[0].id) == FailsTwice
    ensures TickSpec(msgs, now, attempt, Tick(msgs, true))
  {
  }

  /** Handling the first message, then ticking over the rest, keeps the tick's promise. */
  lemma ConsStep(msgs: seq<Message>, now: int, attempt: nat -> Attempt, rest: Tick, x: Message)
    requires msgs != [] && TickSpec(msgs[1..], now, attempt, rest)
    requires !(Due(msgs[0], now) && attempt(msgs[0].id) == FailsTwice)
    requires x == if Due(msgs[0], now) then msgs[0].(status := Settled(attempt(msgs[0].id))) else msgs[0]
    ensures TickSpec(msgs, now, attempt, Tick([x] + rest.messages, rest.aborted))
  {
    ConsFrame(msgs, now, attempt, rest.messages, x);
    ConsAbort(msgs, now, attempt, rest, x);
  }

  lemma ConsFrame(msgs: seq<Message>, now: int, attempt: nat -> Attempt, rest: seq<Message>, x: Message)
    requires msgs != [] && TickFrame(msgs[1..], now, attempt, rest)
    requires x == if Due(msgs[0], now) then msgs[0].(status := Settled(attempt(msgs[0].id))) else msgs[0]
    ensures TickFrame(msgs, now, attempt, [x] + rest)
  {
    var tail := msgs[1..];
    var out := [x] + rest;
    assert forall i :: 1 <= i < |msgs| ==> msgs[i] == tail[i - 1] && out[i] == rest[i - 1];
  }

  lemma ConsAbort(msgs: seq<Message>, now: int, attempt: nat -> Attempt, rest: Tick, x: Message)
    requires msgs != [] && |rest.messages| == |msgs| - 1 && TickAbort(msgs[1..], now, attempt, rest)
    requires !(Due(msgs[0], now) && attempt(msgs[0].id) == FailsTwice)
    requires x == if Due(msgs[0], now) then msgs[0].(status := Settled(attempt(msgs[0].id))) else msgs[0]
    ensures TickAbort(msgs, now, attempt, Tick([x] + rest.messages, rest.aborted))
  {
    var tail := msgs[1..];
    var out := [x] + rest.messages;
    assert forall i :: 1 <= i < |msgs| ==> msgs[i] == tail[i - 1] && out[i] == rest.messages[i - 1];
    if rest.aborted {
      var k :| 0 <= k < |tail| && Due(tail[k], now) && attempt(tail[k].id) == FailsTwice;
      assert Due(msgs[k + 1], now) && attempt(msgs[k + 1].id) == FailsTwice;
    }
  }

  /** After a tick that did not abort, nothing is due any more, so a second tick at the same time changes nothing. */
  lemma SecondTickIsIdle(msgs: seq<Message>, now: int, attempt: nat -> Attempt)
    requires !RunTick(msgs, now, attempt).aborted
    ensures forall i :: 0 <= i < |msgs| ==> !Due(RunTick(msgs, now, attempt).messages[i], now)
    ensures RunTick(RunTick(msgs, now, attempt).messages, now, attempt) ==
              Tick(RunTick(msgs, now, attempt).messages, false)
  {
    var after := RunTick(msgs, now, attempt).messages;
    var again := RunTick(after, now, attempt);
    assert forall i :: 0 <= i < |after| ==> !Due(after[i], now);
    assert forall i :: 0 <= i < |after| ==> again.messages[i] == after[i];
  }
}
