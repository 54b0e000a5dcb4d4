/** The bot's main loop. `main` checks the credentials, takes the start time
    once, then forever: fetches the statuses since one day before the start
    time, validates the answer, reports the first homework's status, and
    sleeps. A cycle is modelled from the fetch outcome to what it does; the
    `Poller` class keeps the loop's state across cycles. */
module Polling {
  import opened Values
  import opened Homework

  /** The `from_date` offset: one day, in seconds. */
  const DaySeconds := 60 * 60 * 24

  /** What one cycle of the loop does: nothing is sent (an error swallowed by
      the loop's `except`, or no homeworks), one message is sent, or an
      exception escapes and ends the loop. */
  datatype CycleResult =
    | Skipped(swallowed: Option<Error>)
    | Sent(message: string)
    | Crashed(error: Error)

  /** One cycle, given what `get_api_answer` returned. Failures of the fetch
      and of `check_response` are inside the `try` and end in a message that
      is only assigned to a local; `parse_status` runs in the `else` branch,
      outside the `try`, so its failure is not caught. */
  function CycleAfter(answer: Result<Json>): (r: CycleResult)
    ensures answer.Err? ==> r == Skipped(Some(answer.error))
    ensures answer.Ok? && !WellShaped(answer.value) ==>
      r == Skipped(Some(CheckResponse(answer.value).error))
    ensures !r.Skipped? || r.swallowed.None? <==>
      answer.Ok? && WellShaped(answer.value)
    ensures r == Skipped(None) <==>
      answer.Ok? && WellShaped(answer.value) && answer.value.fields[HomeworksKey].items == []
    ensures r.Sent? ==>
      answer.Ok? && WellShaped(answer.value) && answer.value.fields[HomeworksKey].items != []
      && ParseStatus(FirstHomework(answer.value)) == Ok(r.message)
    ensures r.Crashed? ==>
      answer.Ok? && WellShaped(answer.value) && answer.value.fields[HomeworksKey].items != []
      && ParseStatus(FirstHomework(answer.value)) == Err(r.error)
  {
    match answer
    case Err(e) => Skipped(Some(e))
    case Ok(response) =>
      match CheckResponse(response)
      case Err(e) => Skipped(Some(e))
      case Ok(_) =>
        var homeworks := response.fields[HomeworksKey].items;
        if homeworks == [] then Skipped(None)
        else
          match ParseStatus(homeworks[0])
          case Ok(message) => Sent(message)
          case Err(e) => Crashed(e)
  }

  /** One cycle, from the outcome of the HTTP request. */
  function CycleOutcome(fetched: Fetch): (r: CycleResult)
    ensures !r.Skipped? ==> fetched.Reply? && fetched.code == 200 && fetched.body.Some?
    ensures fetched.NetworkFailure? ==> r == Skipped(Some(NetErr))
    ensures fetched.Reply? && fetched.code != 200 ==> r == Skipped(Some(HttpErr(fetched.code)))
    ensures r.Crashed? ==> r.error == TypeErr || r.error == KeyErr
  {
    CycleAfter(GetApiAnswer(fetched))
  }

  /** The first homework of a validated answer. */
  function FirstHomework(response: Json): Json
    requires WellShaped(response) && response.fields[HomeworksKey].items != []
  {
    response.fields[HomeworksKey].items[0]
  }

  /** A cycle sends exactly when the fetch succeeds, the answer has the
      documented shape, the list is non-empty and its FIRST record is
      reportable; the message is that record's `parse_status`. It crashes
      exactly when the first record is not reportable. */
  lemma CycleDecision(fetched: Fetch)
    ensures CycleOutcome(fetched).Sent? <==>
      GetApiAnswer(fetched).Ok? && WellShaped(GetApiAnswer(fetched).value)
      && GetApiAnswer(fetched).value.fields[HomeworksKey].items != []
      && Reportable(FirstHomework(GetApiAnswer(fetched).value))
    ensures CycleOutcome(fetched).Sent? ==>
      Ok(CycleOutcome(fetched).message) == ParseStatus(FirstHomework(GetApiAnswer(fetched).value))
    ensures CycleOutcome(fetched).Crashed? <==>
      GetApiAnswer(fetched).Ok? && WellShaped(GetApiAnswer(fetched).value)
      && GetApiAnswer(fetched).value.fields[HomeworksKey].items != []
      && !Reportable(FirstHomework(GetApiAnswer(fetched).value))
  {
  }

  /** A failed fetch or a malformed answer sends nothing and does not stop
      the loop; the error is swallowed. */
  lemma FailureIsSwallowed(fetched: Fetch)
    requires GetApiAnswer(fetched).Err? || !WellShaped(GetApiAnswer(fetched).value)
    ensures CycleOutcome(fetched).Skipped? && CycleOutcome(fetched).swallowed.Some?
  {
  }

  /** An empty `homeworks` list sends nothing, swallows nothing. */
  lemma EmptyListSendsNothing(fields: map<string, Json>)
    requires HomeworksKey in fields && CurrentDateKey in fields && fields[HomeworksKey] == JArr([])
    ensures CycleOutcome(Reply(200, Some(JObj(fields)))) == Skipped(None)
  {
  }

  /** Only the first record matters: the rest of the list is never read. */
  lemma OnlyFirstHomeworkRead(fields: map<string, Json>, first: Json, rest1: seq<Json>, rest2: seq<Json>)
    requires HomeworksKey in fields && CurrentDateKey in fields
    ensures CycleOutcome(Reply(200, Some(JObj(fields[HomeworksKey := JArr([first] + rest1)]))))
         == CycleOutcome(Reply(200, Some(JObj(fields[HomeworksKey := JArr([first] + rest2)]))))
  {
  }

  /** A record with a status outside the verdict table, first in a valid
      answer, ends the loop with a KeyError. */
  lemma UnknownStatusEndsLoop(fields: map<string, Json>, name: Json, status: string, rest: seq<Json>)
    requires HomeworksKey in fields && CurrentDateKey in fields
    requires status !in {"approved", "reviewing", "rejected"}
    ensures CycleOutcome(Reply(200, Some(JObj(fields[HomeworksKey :=
              JArr([JObj(map[NameKey := name, StatusKey := JStr(status)])] + rest)]))))
         == Crashed(KeyErr)
  {
  }

  /** The fix to `get_api_answer` changes only the error the loop swallows,
      never whether the cycle sends, what it sends, or whether it crashes. */
  lemma FixKeepsCycleDecision(fetched: Fetch)
    ensures CycleAfter(GetApiAnswerAsWritten(fetched)).Skipped? <==> CycleOutcome(fetched).Skipped?
    ensures !CycleOutcome(fetched).Skipped? ==>
      CycleAfter(GetApiAnswerAsWritten(fetched)) == CycleOutcome(fetched)
  {
  }

  // ---------------------------------------------------------------------------
  // A run of consecutive cycles

  /** What each cycle would do on its own, one per fetch outcome. */
  function Outcomes(fetches: seq<Fetch>): (rs: seq<CycleResult>)
    ensures |rs| == |fetches|
    ensures forall i :: 0 <= i < |fetches| ==> rs[i] == CycleOutcome(fetches[i])
  {
    if fetches == [] then [] else [CycleOutcome(fetches[0])] + Outcomes(fetches[1..])
  }

  /** The cycles actually performed: the loop stops right after the first crash. */
  function UpToCrash(rs: seq<CycleResult>): (done: seq<CycleResult>)
    ensures |done| <= |rs|
    ensures |done| < |rs| ==> EndsInCrash(done)
  {
    if rs == [] then []
    else if rs[0].Crashed? then [rs[0]]
    else [rs[0]] + UpToCrash(rs[1..])
  }

  /** The cycles the loop performs on a sequence of fetch outcomes. */
  function Trace(fetches: seq<Fetch>): (done: seq<CycleResult>)
    ensures |done| <= |fetches|
    ensures |done| < |fetches| ==> EndsInCrash(done)
  {
    UpToCrash(Outcomes(fetches))
  }

  /** The cycles performed are a prefix of what the cycles would do, no cycle
      but the last one crashed, and the run is cut short only by a crash. */
  lemma {:induction false} UpToCrashShape(rs: seq<CycleResult>)
    ensures UpToCrash(rs) <= rs
    ensures forall i :: 0 <= i < |UpToCrash(rs)| - 1 ==> !UpToCrash(rs)[i].Crashed?
    ensures |UpToCrash(rs)| < |rs| ==> EndsInCrash(UpToCrash(rs))
  {
    if rs != [] && !rs[0].Crashed? {
      UpToCrashShape(rs[1..]);
      var t := UpToCrash(rs[1..]);
      assert UpToCrash(rs) == [rs[0]] + t;
      forall i | 0 <= i < |UpToCrash(rs)| - 1 ensures !UpToCrash(rs)[i].Crashed? {
        if i > 0 { assert UpToCrash(rs)[i] == t[i - 1]; }
      }
    }
  }

  /** Cycle i of a run handles fetch i, only the last cycle can crash, and a
      run that stops before the fetches run out ends in a crash. */
  lemma TraceShape(fetches: seq<Fetch>)
    ensures |Trace(fetches)| <= |fetches|
    ensures forall i :: 0 <= i < |Trace(fetches)| ==> Trace(fetches)[i] == CycleOutcome(fetches[i])
    ensures forall i :: 0 <= i < |Trace(fetches)| - 1 ==> !Trace(fetches)[i].Crashed?
    ensures |Trace(fetches)| < |fetches| ==> EndsInCrash(Trace(fetches))
  {
    UpToCrashShape(Outcomes(fetches));
  }

  /** The messages a sequence of cycles sends, in order. */
  function SentOf(results: seq<CycleResult>): seq<string>
  {
    if results == [] then []
    else (if results[0].Sent? then [results[0].message] else []) + SentOf(results[1..])
  }

  /** A run ends in a crash when its last cycle crashed. */
  predicate EndsInCrash(results: seq<CycleResult>)
  {
    results != [] && results[|results| - 1].Crashed?
  }

  /** Each cycle sends at most one message. */
  lemma {:induction false} SentAtMostOnePerCycle(results: seq<CycleResult>)
    ensures |SentOf(results)| <= |results|
    ensures |SentOf(results)| == |results| ==> forall i :: 0 <= i < |results| ==> results[i].Sent?
  {
    if results != [] {
      SentAtMostOnePerCycle(results[1..]);
      if |SentOf(results)| == |results| {
        assert results[0].Sent?;
        forall i | 0 <= i < |results| ensures results[i].Sent? {
          if i > 0 { assert results[i] == results[1..][i - 1]; }
        }
      }
    }
  }

  lemma {:induction false} SentOfAppend(a: seq<CycleResult>, b: seq<CycleResult>)
    ensures SentOf(a + b) == SentOf(a) + SentOf(b)
  {
    if a == [] {
      assert a + b == b;
    } else {
      assert (a + b)[1..] == a[1..] + b;
      SentOfAppend(a[1..], b);
    }
  }

  /** The loop seen from cycle i on: it performs that cycle and goes on
      unless the cycle crashed. */
  lemma UpToCrashFrom(rs: seq<CycleResult>, i: nat)
    requires i < |rs|
    ensures UpToCrash(rs[i..]) == if rs[i].Crashed? then [rs[i]] else [rs[i]] + UpToCrash(rs[i + 1..])
  {
    assert rs[i..][0] == rs[i];
    assert rs[i..][1..] == rs[i + 1..];
  }

  /** One more cycle of a run that has performed `results` so far and will
      perform `trace` in all: the run goes on unless that cycle crashed. */
  lemma UpToCrashStep(rs: seq<CycleResult>, results: seq<CycleResult>, trace: seq<CycleResult>)
    requires |results| < |rs|
    requires trace == results + UpToCrash(rs[|results|..])
    ensures var r := rs[|results|];
      && (!r.Crashed? ==> trace == (results + [r]) + UpToCrash(rs[|results| + 1..]))
      && (r.Crashed? ==> trace == results + [r])
      && (EndsInCrash(results + [r]) <==> r.Crashed?)
  {
    var i := |results|;
    var r := rs[i];
    UpToCrashFrom(rs, i);
    if !r.Crashed? {
      var rest := UpToCrash(rs[i + 1..]);
      assert trace == results + ([r] + rest);
      assert results + ([r] + rest) == (results + [r]) + rest;
    }
    assert (results + [r])[i] == r;
  }

  /** One cycle of `Run`: the run so far grows by the cycle's outcome and its
      message, and goes on unless that cycle crashed. */
  lemma RunStep(outcomes: seq<CycleResult>, results: seq<CycleResult>, trace: seq<CycleResult>, r: CycleResult)
    requires |results| < |outcomes| && r == outcomes[|results|]
    requires trace == results + UpToCrash(outcomes[|results|..])
    ensures EndsInCrash(results + [r]) <==> r.Crashed?
    ensures !r.Crashed? ==> trace == (results + [r]) + UpToCrash(outcomes[|results| + 1..])
    ensures r.Crashed? ==> trace == results + [r]
    ensures SentOf(results + [r]) == SentOf(results) + SentOf([r])
  {
    UpToCrashStep(outcomes, results, trace);
    SentOfAppend(results, [r]);
  }

  // ---------------------------------------------------------------------------
  // The loop's state

  /** The state `main` keeps across cycles: the start timestamp, taken once,
      and, as recorded outputs, the `from_date` of every request made and
      every message handed to the bot. `running` turns false when an
      exception escapes the loop. */
  class Poller {
    const start: int
    var requests: seq<int>
    var sent: seq<string>
    var running: bool

    /** Every request asks for the same window, one day before the start, and
        no cycle sends more than one message. */
    ghost predicate Valid()
      reads this
    {
      && (forall i :: 0 <= i < |requests| ==> requests[i] == start - DaySeconds)
      && |sent| <= |requests|
    }

    constructor (now: int)
      ensures Valid() && running
      ensures start == now && requests == [] && sent == []
    {
      start := now;
      requests := [];
      sent := [];
      running := true;
    }

    /** One pass of the `while True` body. */
    method Cycle(fetched: Fetch) returns (r: CycleResult)
      requires Valid() && running
      modifies this
      ensures Valid()
      ensures r == CycleOutcome(fetched)
      ensures requests == old(requests) + [start - DaySeconds]
      ensures sent == old(sent) + SentOf([r])
      ensures running == !r.Crashed?
    {
      var fromDate := start - DaySeconds;
      requests := requests + [fromDate];
      var answer := GetApiAnswer(fetched);
      var failure: Option<Error> := None;
      var response := JNull;
      match answer {
        case Err(e) =>
          failure := Some(e);
        case Ok(body) =>
          response := body;
          var checked := CheckResponse(response);
          if checked.Err? {
            failure := Some(checked.error);
          }
      }
      if failure.Some? {
        // The failure text is built and never delivered.
        r := Skipped(failure);
      } else {
        var homeworks := response.fields[HomeworksKey].items;
        if homeworks != [] {
          var parsed := ParseStatus(homeworks[0]);
          if parsed.Err? {
            running := false;
            r := Crashed(parsed.error);
            return;
          }
          sent := sent + [parsed.value];
          r := Sent(parsed.value);
        } else {
          r := Skipped(None);
        }
      }
    }

    /** Cycle number `i` of `Run`, which has performed `results` so far and
        will perform `trace` in all: the cycle on the i-th fetch extends
        `results` along `trace`, adds its message to those sent, and the run
        goes on unless this cycle crashes. */
    method CycleAt(fetches: seq<Fetch>, i: nat, ghost outcomes: seq<CycleResult>,
                   ghost trace: seq<CycleResult>, ghost results: seq<CycleResult>, ghost sent0: seq<string>)
      returns (r: CycleResult)
      requires Valid() && running
      requires outcomes == Outcomes(fetches) && i == |results| < |fetches|
      requires trace == results + UpToCrash(outcomes[i..])
      requires sent == sent0 + SentOf(results)
      modifies this
      ensures Valid()
      ensures sent == sent0 + SentOf(results + [r])
      ensures |requests| == |old(requests)| + 1
      ensures running <==> !EndsInCrash(results + [r])
      ensures running ==> trace == (results + [r]) + UpToCrash(outcomes[i + 1..])
      ensures !running ==> trace == results + [r]
    {
      r := Cycle(fetches[i]);
      RunStep(outcomes, results, trace, r);
      assert (sent0 + SentOf(results)) + SentOf([r]) == sent0 + (SentOf(results) + SentOf([r]));
    }

    /** The loop over a finite prefix of fetch outcomes: it runs a cycle per
        outcome until the outcomes run out or a cycle crashes. */
    method Run(fetches: seq<Fetch>) returns (results: seq<CycleResult>)
      requires Valid() && running
      modifies this
      ensures Valid()
      ensures results == Trace(fetches)
      ensures sent == old(sent) + SentOf(results)
      ensures |requests| == |old(requests)| + |results|
      ensures old(requests) <= requests
      ensures running <==> |results| == |fetches| && !EndsInCrash(results)
    {
      results := [];
      ghost var outcomes := Outcomes(fetches);
      ghost var trace := UpToCrash(outcomes);
      var i := 0;
      assert outcomes[i..] == outcomes;
      while i < |fetches| && running
        invariant 0 <= i <= |fetches| && |results| == i
        invariant Valid()
        invariant running <==> !EndsInCrash(results)
        invariant running ==> trace == results + UpToCrash(outcomes[i..])
        invariant !running ==> trace == results
        invariant sent == old(sent) + SentOf(results)
        invariant |requests| == |old(requests)| + i
      {
        var r := CycleAt(fetches, i, outcomes, trace, results, old(sent));
        results := results + [r];
        i := i + 1;
      }
      assert running ==> outcomes[i..] == [];
      assert old(requests) <= requests by {
        assert forall k :: 0 <= k < |old(requests)| ==> old(requests)[k] == requests[k];
      }
    }
  }

  /** `main` up to the loop: the credential check, whose failure stops the
      process before any request, then the start time. */
  method Launch(practicum: Option<string>, telegram: Option<string>, chat: Option<string>, now: int)
    returns (poller: Poller?, log: seq<string>)
    ensures log == MissingTokenLog(TokenTable(practicum, telegram, chat))
    ensures poller != null <==> practicum.Some? && telegram.Some? && chat.Some?
    ensures poller != null ==>
      fresh(poller) && poller.Valid() && poller.running
      && poller.start == now && poller.requests == [] && poller.sent == []
  {
    var outcome;
    outcome, log := CheckTokens(practicum, telegram, chat);
    if outcome.Fail? {
      poller := null;
      return;
    }
    poller := new Poller(now);
  }
}
