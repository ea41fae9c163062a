/**
 Outgoing calls: a call is sent, then its completion is entered in the table of pending
 calls; a response removes the entry with its id and completes the call.
 */
module RpcCalls {
  import opened Common
  import opened Envelope
  import opened MsgPack
  import Messages

  type Id = nat

  /** A response: the remote error, or a result, which is readable as the type the caller expects or says why not. */
  datatype Outcome = Error(error: ResponseError) | Success(result: Readable)

  datatype Readable = Read(value: bytes) | Unreadable(why: bytes)

  /** What the caller receives: the result, the remote error, or a decoding error with code 0. */
  datatype CallResult = Resolved(value: bytes) | Rejected(error: ResponseError)

  function Complete(o: Outcome): CallResult {
    match o
    case Error(error) => Rejected(error)
    case Success(Read(value)) => Resolved(value)
    case Success(Unreadable(why)) => Rejected(ResponseError(0, why))
  }

  function Results(results: map<Id, seq<CallResult>>, id: Id): seq<CallResult> {
    if id in results then results[id] else []
  }

  function Delivered(results: map<Id, seq<CallResult>>, id: Id, r: CallResult): map<Id, seq<CallResult>> {
    results[id := Results(results, id) + [r]]
  }

  // ---- runs ----

  /**
   `sent` calls are on the wire but not yet in the table. `poisoned` is set once dispatching
   a message with neither a method nor an id has panicked while holding the table's lock.
   */
  datatype Sys = Sys(
    next: Id,
    sent: set<Id>,
    pending: set<Id>,
    results: map<Id, seq<CallResult>>,
    poisoned: bool)

  datatype Event =
    | Send(delivered: bool)            // allocates an id; false when the outgoing channel is closed
    | Enter(id: Id)                    // the sender enters its call in the table
    | Response(id: Id, o: Outcome)     // a message without method, with an id
    | Headless                         // a message with neither method nor id

  const START := Sys(0, {}, {}, map[], false)

  predicate Enabled(s: Sys, e: Event) {
    e.Enter? ==> e.id in s.sent
  }

  function Apply(s: Sys, e: Event): Sys {
    match e
    case Send(delivered) => s.(next := s.next + 1, sent := if delivered then s.sent + {s.next} else s.sent)
    case Enter(id) =>
      // locking a poisoned table panics before anything is entered
      s.(sent := s.sent - {id}, pending := if s.poisoned then s.pending else s.pending + {id})
    case Response(id, o) =>
      if s.poisoned then s
      else
        s.(pending := s.pending - {id},
           results := if id in s.pending then Delivered(s.results, id, Complete(o)) else s.results)
    case Headless => s.(poisoned := true)
  }

  /** The state after a run, if every event was enabled when it happened. */
  function Exec(es: seq<Event>): Option<Sys> {
    if es == [] then Some(START)
    else
      match Exec(es[..|es| - 1])
      case None => None
      case Some(s) => if Enabled(s, es[|es| - 1]) then Some(Apply(s, es[|es| - 1])) else None
  }

  // ---- the caller and the dispatcher's half of it ----

  /** The table of pending calls, each with the channel its result goes to. */
  class PendingCalls {
    var next: Id
    var calls: set<Id>
    var results: map<Id, seq<CallResult>>
    var poisoned: bool
    ghost var sent: set<Id>

    ghost function Abs(): Sys
      reads this
    {
      Sys(next, sent, calls, results, poisoned)
    }

    constructor ()
      ensures Abs() == START
    {
      next, calls, results, poisoned := 0, {}, map[], false;
      sent := {};
    }

    /** The first half of a call: the request goes out, or the channel is closed and the call is over. */
    method SendCall(delivered: bool) returns (id: Option<Id>)
      modifies this
      ensures Abs() == Apply(old(Abs()), Event.Send(delivered))
      ensures id == if delivered then Some(old(next)) else None
      ensures id.Some? ==> id.value in sent
      ensures sent == old(sent) + (if delivered then {old(next)} else {})
      ensures next == old(next) + 1 && calls == old(calls) && results == old(results) && poisoned == old(poisoned)
    {
      id := None;
      if delivered {
        id := Some(next);
        sent := sent + {next};
      }
      next := next + 1;
    }

    /** The second half: the completion is entered, unless locking the table panics. */
    method EnterCall(id: Id) returns (entered: bool)
      requires id in sent
      modifies this
      ensures Abs() == Apply(old(Abs()), Event.Enter(id))
      ensures entered <==> !poisoned
      ensures calls == old(calls) + (if entered then {id} else {})
      ensures next == old(next) && results == old(results) && poisoned == old(poisoned)
    {
      sent := sent - {id};
      entered := !poisoned;
      if entered {
        calls := calls + {id};
      }
    }

    /** A message without method: completes the call waiting for its id; without an id it panics under the lock. */
    method DispatchResponse(id: Option<Id>, o: Outcome)
      modifies this
      ensures Abs() == Apply(old(Abs()), if id.Some? then Event.Response(id.value, o) else Event.Headless)
      ensures id.None? ==> poisoned && calls == old(calls) && results == old(results)
      ensures id.Some? ==>
                var answered := !poisoned && id.value in old(calls);
                && poisoned == old(poisoned) && calls == old(calls) - (if answered then {id.value} else {})
                && (!answered ==> results == old(results))
                && (answered ==>
                      id.value in results &&
                      var before := Results(old(results), id.value);
                      && results == old(results)[id.value := results[id.value]]
                      && (o.Error? ==> results[id.value] == before + [Rejected(o.error)])
                      && (o.Success? && o.result.Read? ==> results[id.value] == before + [Resolved(o.result.value)])
                      && (o.Success? && o.result.Unreadable? ==>
                            results[id.value] == before + [Rejected(ResponseError(0, o.result.why))]))
    {
      match id {
        case None => poisoned := true;
        case Some(i) =>
          if !poisoned && i in calls {
            calls := calls - {i};
            var before := if i in results then results[i] else [];
            results := results[i := before + [Complete(o)]];
          }
      }
    }
  }

  // ---- what a message is to the calls ----

  /** The field `result` of a response, if it has one. */
  function ResultField(body: bytes): Option<Value> {
    match Parse(body)
    case Done(Map(es), _) => (match Field(es, Ascii("result")) case Some(f) => f case None => None)
    case _ => None
  }

  /**
   What dispatching a message without a method does; requests and broken messages do nothing
   here. `read` is what the caller's type makes of the result, or of its absence.
   */
  function Incoming(body: bytes, read: Option<Value> -> Readable): Option<Event> {
    match ReadEnvelope(body)
    case Done(obj, _) =>
      if obj.methodName.Some? then None
      else if obj.id.None? then Some(Headless)
      else
        Some(Response(obj.id.value,
          match obj.error
          case Some(e) => Outcome.Error(e)
          case None => Success(read(ResultField(body)))))
    case _ => None
  }

  // ---- what a run says about a call ----

  ghost predicate Answers(e: Event, id: Id) {
    e.Response? && e.id == id
  }

  ghost predicate NoAnswer(es: seq<Event>, id: Id, lo: int, hi: int) {
    forall k :: 0 <= k < |es| && lo <= k < hi ==> !Answers(es[k], id)
  }

  /** Event `j` is the first response to the call entered by event `i`, with the table sound until then. */
  ghost predicate AnsweredAt(es: seq<Event>, id: Id, i: int, j: int) {
    && 0 <= i < j < |es| && es[i] == Enter(id) && Answers(es[j], id)
    && NoAnswer(es, id, i + 1, j)
    && forall k :: 0 <= k < j ==> es[k] != Headless
  }

  /** Event `i` entered the call and no response has come since. */
  ghost predicate WaitingSince(es: seq<Event>, id: Id, i: int) {
    0 <= i < |es| && es[i] == Enter(id) && NoAnswer(es, id, i + 1, |es|)
  }

  /** Calls are entered once, only after being sent, and under ids handed out before. */
  ghost predicate Fresh(es: seq<Event>, s: Sys) {
    && (forall id :: id in s.sent ==> id < s.next && forall k :: 0 <= k < |es| ==> es[k] != Enter(id))
    && (forall k :: 0 <= k < |es| && es[k].Enter? ==> es[k].id < s.next && es[k].id !in s.sent)
    && (forall i, j :: 0 <= i < j < |es| && es[i].Enter? && es[j].Enter? ==> es[i].id != es[j].id)
  }

  lemma FreshStep(es: seq<Event>, s: Sys, e: Event)
    requires Fresh(es, s) && Enabled(s, e)
    ensures Fresh(es + [e], Apply(s, e))
  {
    assert forall k :: 0 <= k < |es| ==> (es + [e])[k] == es[k];
  }

  lemma {:induction false} IdsAreFresh(es: seq<Event>)
    requires Exec(es).Some?
    ensures Fresh(es, Exec(es).value)
  {
    if es == [] {
    } else {
      var front, e := es[..|es| - 1], es[|es| - 1];
      IdsAreFresh(front);
      FreshStep(front, Exec(front).value, e);
      assert es == front + [e];
    }
  }

  function Sends(es: seq<Event>): nat {
    if es == [] then 0 else Sends(es[..|es| - 1]) + (if es[|es| - 1].Send? then 1 else 0)
  }

  /** The call with this number was sent, and the channel took it. */
  ghost predicate WasSent(es: seq<Event>, id: Id) {
    exists p :: 0 <= p < |es| && es[p] == Send(true) && Sends(es[..p]) == id
  }

  lemma StaysSent(es: seq<Event>, e: Event, id: Id)
    requires WasSent(es, id)
    ensures WasSent(es + [e], id)
  {
    var p :| 0 <= p < |es| && es[p] == Send(true) && Sends(es[..p]) == id;
    assert (es + [e])[..p] == es[..p] && (es + [e])[p] == es[p];
  }

  /** Ids number the calls in the order of sending, and only a call the channel took is ever entered. */
  lemma {:induction false} EnteredWasSent(es: seq<Event>)
    requires Exec(es).Some?
    ensures Exec(es).value.next == Sends(es)
    ensures forall id :: id in Exec(es).value.sent ==> WasSent(es, id)
    ensures forall k :: 0 <= k < |es| && es[k].Enter? ==> WasSent(es[..k], es[k].id)
  {
    if es == [] {
    } else {
      var front, e := es[..|es| - 1], es[|es| - 1];
      EnteredWasSent(front);
      assert es == front + [e];
      forall id | id in Exec(es).value.sent ensures WasSent(es, id) {
        if id in Exec(front).value.sent {
          StaysSent(front, e, id);
        } else {
          assert es[..|front|] == front;
        }
      }
      forall k | 0 <= k < |es| && es[k].Enter? ensures WasSent(es[..k], es[k].id) {
        if k < |front| {
          assert es[..k] == front[..k] && es[k] == front[k];
        } else {
          assert es[..k] == front;
        }
      }
    }
  }

  lemma {:induction false} PoisonedIff(es: seq<Event>)
    requires Exec(es).Some?
    ensures Exec(es).value.poisoned <==> Headless in es
  {
    if es == [] {
    } else {
      PoisonedIff(es[..|es| - 1]);
      assert es == es[..|es| - 1] + [es[|es| - 1]];
    }
  }

  lemma AnsweredExtends(es: seq<Event>, e: Event, id: Id, i: int, j: int)
    requires j < |es|
    ensures AnsweredAt(es + [e], id, i, j) <==> AnsweredAt(es, id, i, j)
  {
    var es' := es + [e];
    assert forall k :: 0 <= k < |es| ==> es'[k] == es[k];
    if AnsweredAt(es', id, i, j) {
      forall k | i + 1 <= k < j ensures !Answers(es[k], id) {
        assert !Answers(es'[k], id);
      }
    }
    if AnsweredAt(es, id, i, j) {
      forall k | i + 1 <= k < j ensures !Answers(es'[k], id) {
        assert !Answers(es[k], id);
      }
    }
  }

  /** What the table and the results hold, read off the run. */
  ghost predicate Described(es: seq<Event>, s: Sys, id: Id) {
    && (!s.poisoned ==> (id in s.pending <==> exists i :: WaitingSince(es, id, i)))
    && (Results(s.results, id) == [] ||
        exists i, j :: AnsweredAt(es, id, i, j) && Results(s.results, id) == [Complete(es[j].o)])
    && (forall i, j :: AnsweredAt(es, id, i, j) ==> Results(s.results, id) == [Complete(es[j].o)])
  }

  lemma WaitingStep(es: seq<Event>, e: Event, id: Id)
    ensures (exists i :: WaitingSince(es + [e], id, i))
       <==> e == Enter(id) || (!Answers(e, id) && exists i :: WaitingSince(es, id, i))
  {
    var es' := es + [e];
    if i :| WaitingSince(es', id, i) {
      if i < |es| {
        assert es'[|es|] == e;
        forall k | i + 1 <= k < |es| ensures !Answers(es[k], id) {
          assert !Answers(es'[k], id);
        }
        assert WaitingSince(es, id, i);
      }
    }
    if e == Enter(id) {
      assert WaitingSince(es', id, |es|);
    } else if !Answers(e, id) {
      if i :| WaitingSince(es, id, i) {
        forall k | i + 1 <= k < |es'| ensures !Answers(es'[k], id) {
          assert k < |es| ==> !Answers(es[k], id);
        }
        assert WaitingSince(es', id, i);
      }
    }
  }

  /** A response is the first one to a call exactly if the call was waiting in a sound table. */
  lemma AnswerStep(es: seq<Event>, e: Event, id: Id, i: int)
    ensures AnsweredAt(es + [e], id, i, |es|) <==> Answers(e, id) && WaitingSince(es, id, i) && Headless !in es
  {
    var es' := es + [e];
    assert forall k :: 0 <= k < |es| ==> es'[k] == es[k];
    if AnsweredAt(es', id, i, |es|) {
      forall k | i + 1 <= k < |es| ensures !Answers(es[k], id) {
        assert !Answers(es'[k], id);
      }
    }
    if Answers(e, id) && WaitingSince(es, id, i) && Headless !in es {
      forall k | i + 1 <= k < |es| ensures !Answers(es'[k], id) {
        assert !Answers(es[k], id);
      }
    }
  }

  lemma WaitingIsUnanswered(es: seq<Event>, id: Id, i: int, i': int, j: int)
    requires Exec(es).Some? && WaitingSince(es, id, i)
    ensures !AnsweredAt(es, id, i', j)
  {
    IdsAreFresh(es);
  }

  lemma {:induction false} RunIsDescribed(es: seq<Event>, id: Id)
    requires Exec(es).Some?
    ensures Described(es, Exec(es).value, id)
  {
    if es == [] {
    } else {
      var front, e := es[..|es| - 1], es[|es| - 1];
      assert es == front + [e];
      RunIsDescribed(front, id);
      PoisonedIff(front);
      DescribedStep(front, e, id);
    }
  }

  lemma DescribedStep(es: seq<Event>, e: Event, id: Id)
    requires Exec(es).Some? && Enabled(Exec(es).value, e)
    requires Described(es, Exec(es).value, id) && (Exec(es).value.poisoned <==> Headless in es)
    ensures Described(es + [e], Apply(Exec(es).value, e), id)
  {
    var s, s', es' := Exec(es).value, Apply(Exec(es).value, e), es + [e];
    WaitingStep(es, e, id);
    if Answers(e, id) && !s.poisoned && id in s.pending {
      var i :| WaitingSince(es, id, i);
      AnswerStep(es, e, id, i);
      forall i', j' ensures !AnsweredAt(es, id, i', j') {
        WaitingIsUnanswered(es, id, i, i', j');
      }
      forall i', j' | AnsweredAt(es', id, i', j') ensures j' == |es| {
        if j' < |es| {
          AnsweredExtends(es, e, id, i', j');
        }
      }
    } else {
      assert Results(s'.results, id) == Results(s.results, id);
      if Results(s.results, id) != [] {
        var i, j :| AnsweredAt(es, id, i, j) && Results(s.results, id) == [Complete(es[j].o)];
        AnsweredExtends(es, e, id, i, j);
        assert AnsweredAt(es', id, i, j) && es'[j] == es[j];
      }
      forall i, j | AnsweredAt(es', id, i, j) ensures Results(s'.results, id) == [Complete(es'[j].o)] {
        if j < |es| {
          AnsweredExtends(es, e, id, i, j);
        } else {
          AnswerStep(es, e, id, i);
        }
      }
    }
  }

  /**
   A call is completed at most once; it has been completed exactly if a response with its id
   was dispatched after it was entered, in a table not poisoned before; and the caller gets
   what the first such response says: its result, its error, or an error with code 0.
   */
  lemma CompletedExactlyByFirstResponse(es: seq<Event>, id: Id)
    requires Exec(es).Some?
    ensures var rs := Results(Exec(es).value.results, id);
            && |rs| <= 1
            && (rs != [] <==> exists i, j :: AnsweredAt(es, id, i, j))
            && (forall i, j :: AnsweredAt(es, id, i, j) ==>
                  var o := es[j].o;
                  && (o.Error? ==> rs == [Rejected(o.error)])
                  && (o.Success? && o.result.Read? ==> rs == [Resolved(o.result.value)])
                  && (o.Success? && o.result.Unreadable? ==> rs == [Rejected(ResponseError(0, o.result.why))]))
  {
    RunIsDescribed(es, id);
  }

  /** A result the peer writes reaches the caller: as it reads it, or as an error with code 0 if it cannot. */
  lemma ResultArrives(es: seq<Event>, id: Id, i: int, j: int, result: Value, read: Option<Value> -> Readable)
    requires Exec(es).Some? && AnsweredAt(es, id, i, j)
    requires Encodable(result) && Encodable(Messages.SuccessResponse(id, result))
    requires id < POW32 && Incoming(Encode(Messages.SuccessResponse(id, result)), read) == Some(es[j])
    ensures var rs := Results(Exec(es).value.results, id);
            && (forall v :: read(Some(result)) == Read(v) ==> rs == [Resolved(v)])
            && (forall w :: read(Some(result)) == Unreadable(w) ==> rs == [Rejected(ResponseError(0, w))])
  {
    Messages.SuccessRead(id, result);
    CompletedExactlyByFirstResponse(es, id);
  }

  /** An error the peer writes reaches the caller as it is. */
  lemma ErrorArrives(es: seq<Event>, id: Id, i: int, j: int, e: ResponseError, read: Option<Value> -> Readable)
    requires Exec(es).Some? && AnsweredAt(es, id, i, j) && Encodable(Messages.ErrorResponse(id, e))
    requires id < POW32 && -0x8000_0000 <= e.code < 0x8000_0000 && |e.message| < POW32
    requires Incoming(Encode(Messages.ErrorResponse(id, e)), read) == Some(es[j])
    ensures Results(Exec(es).value.results, id) == [Rejected(e)]
  {
    Messages.ErrorRead(id, e);
    CompletedExactlyByFirstResponse(es, id);
  }

  /** Requests, with or without an id, answer no call. */
  lemma RequestsDoNot(id: Option<nat>, name: string, params: Entries, read: Option<Value> -> Readable)
    requires |name| < POW32 && Count(params) < POW32 && EncodableEntries(params) && KeysAreText(params)
    requires (id.Some? ==> id.value < POW32) && Encodable(Messages.Request(id, name, params))
    ensures Incoming(Encode(Messages.Request(id, name, params)), read) == None
  {
    Messages.RequestRead(id, name, params);
  }

  /** Such messages are responses to the call of that id, whatever they hold. */
  lemma MessagesAnswer(id: Id, result: Value, e: ResponseError, read: Option<Value> -> Readable)
    requires id < POW32 && Encodable(result)
    requires -0x8000_0000 <= e.code < 0x8000_0000 && |e.message| < POW32
    ensures Encodable(Messages.SuccessResponse(id, result)) && Encodable(Messages.ErrorResponse(id, e))
    ensures Incoming(Encode(Messages.SuccessResponse(id, result)), read).Some?
    ensures Answers(Incoming(Encode(Messages.SuccessResponse(id, result)), read).value, id)
    ensures Incoming(Encode(Messages.ErrorResponse(id, e)), read).Some?
    ensures Answers(Incoming(Encode(Messages.ErrorResponse(id, e)), read).value, id)
  {
    Messages.SuccessRead(id, result);
    Messages.ErrorRead(id, e);
  }

  /** A call with no response after its entry waits for good, however the run goes on. */
  lemma UnansweredWaits(es: seq<Event>, id: Id, i: nat)
    requires Exec(es).Some? && i < |es| && es[i] == Enter(id)
    requires forall k :: i < k < |es| ==> !Answers(es[k], id)
    ensures Results(Exec(es).value.results, id) == []
    ensures Headless !in es ==> id in Exec(es).value.pending
  {
    RunIsDescribed(es, id);
    PoisonedIff(es);
    IdsAreFresh(es);
    assert WaitingSince(es, id, i);
    forall i', j ensures !AnsweredAt(es, id, i', j) {
      WaitingIsUnanswered(es, id, i, i', j);
    }
  }

  /** So a response that overtakes the entry of its call is lost: the call waits until another one comes. */
  lemma EarlyResponseIsLost(o: Outcome, more: seq<Event>)
    requires forall e :: e in more ==> !Answers(e, 0)
    requires Exec([Send(true), Response(0, o), Enter(0)] + more).Some?
    ensures var s := Exec([Send(true), Response(0, o), Enter(0)] + more).value;
            Results(s.results, 0) == [] && (Headless !in more ==> 0 in s.pending)
  {
    var es := [Send(true), Response(0, o), Enter(0)] + more;
    forall k | 2 < k < |es| ensures !Answers(es[k], 0) {
      assert es[k] == more[k - 3];
    }
    UnansweredWaits(es, 0, 2);
  }

  lemma SmallSets()
    ensures var none: set<Id> := {};
            none + {0} == {0} && {0} - {0} == none && none - {0} == none
  {}

  lemma RunOf(front: seq<Event>, e: Event)
    ensures Exec(front + [e]) == match Exec(front)
                                 case None => None
                                 case Some(s) => if Enabled(s, e) then Some(Apply(s, e)) else None
  {
    assert (front + [e])[..|front|] == front;
  }

  /** The run with the early response does happen. */
  lemma EarlyResponseHappens(o: Outcome)
    ensures Exec([Send(true), Response(0, o), Enter(0)]) == Some(Sys(1, {}, {0}, map[], false))
  {
    SmallSets();
    RunOf([], Send(true));
    RunOf([Send(true)], Response(0, o));
    RunOf([Send(true), Response(0, o)], Enter(0));
    assert [] + [Send(true)] == [Send(true)];
    assert [Send(true)] + [Response(0, o)] == [Send(true), Response(0, o)];
    assert [Send(true), Response(0, o)] + [Enter(0)] == [Send(true), Response(0, o), Enter(0)];
  }

  /** One byte from the peer, an empty map, is a message with neither method nor id. */
  lemma EmptyMapIsHeadless(read: Option<Value> -> Readable)
    ensures ReadEnvelope([0x80]) == Parsed.Done(PartialIncoming(None, None, None), 1)
    ensures Incoming([0x80], read) == Some(Headless)
  {
    assert ParseItems([], 0) == Parsed.Done(NoItems, 0);
    assert [0x80][1..] == [];
    assert Interpret(Map(NoEntries)) == Some(PartialIncoming(None, None, None));
  }

  /** After it a call gets no result although it was entered before and is answered. */
  lemma HeadlessPoisons(o: Outcome)
    ensures Exec([Send(true), Enter(0), Headless, Response(0, o)]) == Some(Sys(1, {}, {0}, map[], true))
  {
    SmallSets();
    RunOf([], Send(true));
    RunOf([Send(true)], Enter(0));
    RunOf([Send(true), Enter(0)], Headless);
    RunOf([Send(true), Enter(0), Headless], Response(0, o));
    assert [] + [Send(true)] == [Send(true)];
    assert [Send(true)] + [Enter(0)] == [Send(true), Enter(0)];
    assert [Send(true), Enter(0)] + [Headless] == [Send(true), Enter(0), Headless];
    assert [Send(true), Enter(0), Headless] + [Response(0, o)] == [Send(true), Enter(0), Headless, Response(0, o)];
  }
}
