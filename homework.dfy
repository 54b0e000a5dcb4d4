/** The helpers of the homework-status bot: the credential check, the
    classification of the API's HTTP reply, the response-shape check and the
    status formatter with its verdict table. The HTTP client, the Telegram
    bot and logging are replaced by plain inputs and outputs. */
module Homework {
  import opened Values

  // ---------------------------------------------------------------------------
  // Verdict table

  const Approved := "Работа проверена: ревьюеру всё понравилось. Ура!"
  const Reviewing := "Работа взята на проверку ревьюером."
  const Rejected := "Работа проверена: у ревьюера есть замечания."

  /** Review status code to the sentence reported to the user. */
  const HomeworkVerdicts: map<string, string> :=
    map["approved" := Approved, "reviewing" := Reviewing, "rejected" := Rejected]

  const MessagePrefix := "Изменился статус проверки работы \""
  const NameSeparator := "\". "

  /** The table has exactly the three documented codes, with three
      different sentences. */
  lemma VerdictTableShape()
    ensures HomeworkVerdicts.Keys == {"approved", "reviewing", "rejected"}
    ensures HomeworkVerdicts["approved"] != HomeworkVerdicts["reviewing"]
    ensures HomeworkVerdicts["approved"] != HomeworkVerdicts["rejected"]
    ensures HomeworkVerdicts["reviewing"] != HomeworkVerdicts["rejected"]
  {
  }

  /** The last two characters of a verdict tell the three verdicts apart. */
  function Tail2(s: string): string
    requires |s| >= 2
  {
    s[|s| - 2..]
  }

  lemma VerdictTails()
    ensures Tail2(Approved) == "а!" && Tail2(Reviewing) == "м." && Tail2(Rejected) == "я."
  {
  }

  /** No verdict ends another: if two texts end in verdicts and are equal,
      the verdicts and the texts before them are equal. */
  lemma {:induction false} VerdictSuffixUnique(a: string, v: string, b: string, w: string)
    requires v in HomeworkVerdicts.Values && w in HomeworkVerdicts.Values
    requires a + v == b + w
    ensures v == w && a == b
  {
    VerdictTails();
    assert |v| >= 2 && |w| >= 2;
    var m := a + v;
    assert Tail2(v) == m[|m| - 2..] by { assert v == m[|a|..]; }
    assert Tail2(w) == m[|m| - 2..] by { assert w == (b + w)[|b|..]; }
    assert v == w;
    assert a == m[..|a|] && b == (b + w)[..|b|];
  }

  // ---------------------------------------------------------------------------
  // check_tokens

  /** The credentials in the order the script inspects them, each with its
      environment value (`None` when the variable is unset). */
  function TokenTable(practicum: Option<string>, telegram: Option<string>, chat: Option<string>)
    : seq<(string, Option<string>)>
  {
    [("PRACTICUM_TOKEN", practicum), ("TELEGRAM_TOKEN", telegram), ("TELEGRAM_CHAT_ID", chat)]
  }

  /** The name of the first credential whose value is missing. */
  function FirstMissing(tokens: seq<(string, Option<string>)>): (r: Option<string>)
    ensures r.None? <==> forall i :: 0 <= i < |tokens| ==> tokens[i].1.Some?
  {
    if tokens == [] then None
    else if tokens[0].1.None? then Some(tokens[0].0)
    else FirstMissing(tokens[1..])
  }

  /** A missing credential preceded only by present ones is the one reported. */
  lemma {:induction false} FirstMissingAt(tokens: seq<(string, Option<string>)>, k: nat)
    requires k < |tokens| && tokens[k].1.None?
    requires forall j :: 0 <= j < k ==> tokens[j].1.Some?
    ensures FirstMissing(tokens) == Some(tokens[k].0)
  {
    if k > 0 {
      FirstMissingAt(tokens[1..], k - 1);
    }
  }

  lemma FirstMissingEverywhere(tokens: seq<(string, Option<string>)>)
    ensures forall k :: (0 <= k < |tokens| && tokens[k].1.None?
                         && (forall j :: 0 <= j < k ==> tokens[j].1.Some?))
                        ==> FirstMissing(tokens) == Some(tokens[k].0)
  {
    forall k | 0 <= k < |tokens| && tokens[k].1.None? && (forall j :: 0 <= j < k ==> tokens[j].1.Some?)
      ensures FirstMissing(tokens) == Some(tokens[k].0)
    {
      FirstMissingAt(tokens, k);
    }
  }

  function MissingTokenLine(name: string): string
  {
    "Отсутствие обязательных переменных окружения: " + name + "."
  }

  /** The critical log lines one call of `check_tokens` writes. */
  function MissingTokenLog(tokens: seq<(string, Option<string>)>): (log: seq<string>)
    ensures |log| <= 1
    ensures log == [] <==> forall i :: 0 <= i < |tokens| ==> tokens[i].1.Some?
    ensures forall k :: (0 <= k < |tokens| && tokens[k].1.None?
                         && (forall j :: 0 <= j < k ==> tokens[j].1.Some?))
                        ==> log == [MissingTokenLine(tokens[k].0)]
  {
    FirstMissingEverywhere(tokens);
    match FirstMissing(tokens)
    case None => []
    case Some(name) => [MissingTokenLine(name)]
  }

  /** `check_tokens`: walks the three credentials in order and raises at the
      first missing one, after logging one critical line that names it. */
  method CheckTokens(practicum: Option<string>, telegram: Option<string>, chat: Option<string>)
    returns (outcome: Outcome, log: seq<string>)
    ensures outcome.Pass? <==> practicum.Some? && telegram.Some? && chat.Some?
    ensures outcome.Fail? ==> outcome.error == TokenNotExists
    ensures log == MissingTokenLog(TokenTable(practicum, telegram, chat))
    ensures outcome.Pass? ==> log == []
    ensures outcome.Fail? ==> |log| == 1
  {
    var table := TokenTable(practicum, telegram, chat);
    assert table[0].1 == practicum && table[1].1 == telegram && table[2].1 == chat;
    var i := 0;
    while i < |table|
      invariant 0 <= i <= |table|
      invariant forall j :: 0 <= j < i ==> table[j].1.Some?
    {
      var (name, value) := table[i];
      if value.None? {
        FirstMissingAt(table, i);
        log := [MissingTokenLine(name)];
        outcome := Fail(TokenNotExists);
        return;
      }
      i := i + 1;
    }
    outcome := Pass;
    log := [];
  }

  /** The credential named in the log is the first missing one in the fixed
      order PRACTICUM_TOKEN, TELEGRAM_TOKEN, TELEGRAM_CHAT_ID. */
  lemma TokenCheckOrder(practicum: Option<string>, telegram: Option<string>, chat: Option<string>)
    ensures practicum.None? ==>
      MissingTokenLog(TokenTable(practicum, telegram, chat)) == [MissingTokenLine("PRACTICUM_TOKEN")]
    ensures practicum.Some? && telegram.None? ==>
      MissingTokenLog(TokenTable(practicum, telegram, chat)) == [MissingTokenLine("TELEGRAM_TOKEN")]
    ensures practicum.Some? && telegram.Some? && chat.None? ==>
      MissingTokenLog(TokenTable(practicum, telegram, chat)) == [MissingTokenLine("TELEGRAM_CHAT_ID")]
  {
    var table := TokenTable(practicum, telegram, chat);
    if practicum.None? {
      FirstMissingAt(table, 0);
    } else if telegram.None? {
      FirstMissingAt(table, 1);
    } else if chat.None? {
      FirstMissingAt(table, 2);
    }
  }

  // ---------------------------------------------------------------------------
  // get_api_answer

  /** What the HTTP client produced for one request: it raised a
      `RequestException`, or it returned a status code and a body that
      `response.json()` decodes (`None` when the body is not JSON). */
  datatype Fetch = NetworkFailure | Reply(code: int, body: Option<Json>)

  /** `get_api_answer` as written. On a network failure the `except` only logs,
      and the next line reads `response`, which was never assigned. On a
      non-200 code it raises the class `HTTPError` without arguments, so Python
      calls `HTTPError()`, whose constructor needs five arguments and raises
      TypeError instead. */
  function GetApiAnswerAsWritten(fetched: Fetch): (r: Result<Json>)
    ensures r.Ok? <==> fetched.Reply? && fetched.code == 200 && fetched.body.Some?
    ensures r.Ok? ==> r.value == fetched.body.value
    ensures fetched.NetworkFailure? ==> r == Err(UnboundErr)
    ensures fetched.Reply? && fetched.code != 200 ==> r == Err(TypeErr)
    ensures fetched.Reply? && fetched.code == 200 && fetched.body.None? ==> r == Err(DecodeErr)
  {
    match fetched
    case NetworkFailure => Err(UnboundErr)
    case Reply(code, body) =>
      if code != 200 then Err(TypeErr)
      else if body.None? then Err(DecodeErr)
      else Ok(body.value)
  }

  /** `get_api_answer` as evidently intended: a network failure propagates as
      such and a non-200 code is reported as an HTTP error carrying the code.
      Only status 200 with a decodable body yields a value. */
  function GetApiAnswer(fetched: Fetch): (r: Result<Json>)
    ensures r.Ok? <==> fetched.Reply? && fetched.code == 200 && fetched.body.Some?
    ensures r.Ok? ==> r.value == fetched.body.value
    ensures fetched.NetworkFailure? ==> r == Err(NetErr)
    ensures fetched.Reply? && fetched.code != 200 ==> r == Err(HttpErr(fetched.code))
    ensures fetched.Reply? && fetched.code == 200 && fetched.body.None? ==> r == Err(DecodeErr)
  {
    match fetched
    case NetworkFailure => Err(NetErr)
    case Reply(code, body) =>
      if code != 200 then Err(HttpErr(code))
      else if body.None? then Err(DecodeErr)
      else Ok(body.value)
  }

  /** The two differ only in which exception they raise: they succeed on the
      same fetches with the same body. */
  lemma GetApiAnswerFixAgrees(fetched: Fetch)
    ensures GetApiAnswerAsWritten(fetched).Ok? <==> GetApiAnswer(fetched).Ok?
    ensures GetApiAnswer(fetched).Ok? ==> GetApiAnswerAsWritten(fetched) == GetApiAnswer(fetched)
  {
  }

  /** The discrepancies, on concrete inputs: a network failure surfaces as an
      unbound-variable error, and a 404 as a TypeError rather than an HTTP error. */
  lemma GetApiAnswerAsWrittenMisreports()
    ensures GetApiAnswerAsWritten(NetworkFailure) == Err(UnboundErr) != GetApiAnswer(NetworkFailure)
    ensures GetApiAnswerAsWritten(Reply(404, None)) == Err(TypeErr) != GetApiAnswer(Reply(404, None))
  {
  }

  // ---------------------------------------------------------------------------
  // check_response

  const HomeworksKey := "homeworks"
  const CurrentDateKey := "current_date"

  /** The documented shape of an API answer: a dict with both keys whose
      `homeworks` value is a list. */
  predicate WellShaped(response: Json)
  {
    && response.JObj?
    && HomeworksKey in response.fields
    && CurrentDateKey in response.fields
    && response.fields[HomeworksKey].JArr?
  }

  /** `check_response`: a TypeError for a non-dict, then a KeyError when either
      key is missing, then a TypeError when `homeworks` is not a list;
      otherwise True. */
  function CheckResponse(response: Json): (r: Result<bool>)
    ensures r.Ok? <==> WellShaped(response)
    ensures r.Ok? ==> r.value
    ensures r.Err? ==> r.error == TypeErr || r.error == KeyErr
    ensures r == Err(KeyErr) <==>
      response.JObj? && !(HomeworksKey in response.fields && CurrentDateKey in response.fields)
  {
    if !response.JObj? then Err(TypeErr)
    else if !(HomeworksKey in response.fields && CurrentDateKey in response.fields) then Err(KeyErr)
    else if !response.fields[HomeworksKey].JArr? then Err(TypeErr)
    else Ok(true)
  }

  /** Error precedence: a non-dict is a TypeError whatever it holds; a dict
      missing a key is a KeyError even when `homeworks` is not a list; the
      TypeError for a non-list `homeworks` arises only with both keys present. */
  lemma CheckResponsePrecedence(response: Json)
    ensures !response.JObj? ==> CheckResponse(response) == Err(TypeErr)
    ensures response.JObj? && CurrentDateKey !in response.fields ==> CheckResponse(response) == Err(KeyErr)
    ensures response.JObj? && HomeworksKey !in response.fields ==> CheckResponse(response) == Err(KeyErr)
    ensures CheckResponse(response) == Err(TypeErr) && response.JObj? ==>
      HomeworksKey in response.fields && CurrentDateKey in response.fields
      && !response.fields[HomeworksKey].JArr?
  {
  }

  /** The check never looks inside the list nor at `current_date`'s value:
      replacing either by anything of the same kind leaves the verdict alone. */
  lemma CheckResponseIgnoresContents(fields: map<string, Json>, hws: seq<Json>, date: Json)
    requires HomeworksKey in fields && CurrentDateKey in fields && fields[HomeworksKey].JArr?
    ensures CheckResponse(JObj(fields[HomeworksKey := JArr(hws)][CurrentDateKey := date])) == Ok(true)
    ensures CheckResponse(JObj(fields)) == Ok(true)
  {
  }

  // ---------------------------------------------------------------------------
  // parse_status

  const NameKey := "homework_name"
  const StatusKey := "status"

  /** A homework record `parse_status` turns into a message: a dict with a
      name and a status that is one of the table's codes. */
  predicate Reportable(homework: Json)
  {
    && homework.JObj?
    && NameKey in homework.fields
    && StatusKey in homework.fields
    && homework.fields[StatusKey].JStr?
    && homework.fields[StatusKey].s in HomeworkVerdicts
  }

  /** `parse_status`. Indexing a non-dict raises TypeError, which the
      `except KeyError` does not catch. A missing key or an unknown (hashable)
      status is a KeyError, re-raised after logging. A list or dict status
      cannot be looked up in the table at all: TypeError, again uncaught. */
  function ParseStatus(homework: Json): (r: Result<string>)
    ensures r.Ok? <==> Reportable(homework)
    ensures r.Ok? ==>
      r.value == MessagePrefix + Str(homework.fields[NameKey]) + NameSeparator
                 + HomeworkVerdicts[homework.fields[StatusKey].s]
    ensures r.Err? ==> r.error == TypeErr || r.error == KeyErr
    ensures r == Err(TypeErr) <==>
      !homework.JObj?
      || (NameKey in homework.fields && StatusKey in homework.fields
          && !Hashable(homework.fields[StatusKey]))
  {
    if !homework.JObj? then Err(TypeErr)
    else if NameKey !in homework.fields then Err(KeyErr)
    else if StatusKey !in homework.fields then Err(KeyErr)
    else
      var status := homework.fields[StatusKey];
      if !Hashable(status) then Err(TypeErr)
      else if !(status.JStr? && status.s in HomeworkVerdicts) then Err(KeyErr)
      else Ok(MessagePrefix + Str(homework.fields[NameKey]) + NameSeparator + HomeworkVerdicts[status.s])
  }

  /** A status outside the table is a KeyError, whatever the name. */
  lemma UnknownStatusIsKeyError(name: Json, status: string)
    requires status !in {"approved", "reviewing", "rejected"}
    ensures ParseStatus(JObj(map[NameKey := name, StatusKey := JStr(status)])) == Err(KeyErr)
  {
  }

  /** The message for an approved homework named `name`. */
  lemma ApprovedMessage(name: string)
    ensures ParseStatus(JObj(map[NameKey := JStr(name), StatusKey := JStr("approved")]))
         == Ok("Изменился статус проверки работы \"" + name + "\". " + "Работа проверена: ревьюеру всё понравилось. Ура!")
  {
  }

  /** The message determines the record's status and the rendered name: two
      records that produce the same message have the same status. */
  lemma {:induction false} MessageDeterminesStatus(h1: Json, h2: Json)
    requires ParseStatus(h1).Ok? && ParseStatus(h1) == ParseStatus(h2)
    ensures h1.fields[StatusKey] == h2.fields[StatusKey]
    ensures Str(h1.fields[NameKey]) == Str(h2.fields[NameKey])
  {
    var s1, s2 := h1.fields[StatusKey].s, h2.fields[StatusKey].s;
    var a1 := MessagePrefix + Str(h1.fields[NameKey]) + NameSeparator;
    var a2 := MessagePrefix + Str(h2.fields[NameKey]) + NameSeparator;
    VerdictSuffixUnique(a1, HomeworkVerdicts[s1], a2, HomeworkVerdicts[s2]);
    VerdictTableShape();
    assert s1 == s2;
    var n1, n2 := Str(h1.fields[NameKey]), Str(h2.fields[NameKey]);
    assert |n1| == |n2|;
    assert n1 == a1[|MessagePrefix|..|MessagePrefix| + |n1|];
    assert n2 == a2[|MessagePrefix|..|MessagePrefix| + |n2|];
  }
}
