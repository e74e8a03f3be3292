/** What a run does with one declared call, told from the environment alone (pkg/external/runner.go):
    when the call is sent and with what, which failed lookup is reported, what an answer leaves, and
    what later templates see. */
module CallLaws {
  import opened Common
  import opened Values
  import opened ExternalCalls

  /** The data call k is resolved with. */
  function ViewAt(env: Env, gvk: string, data: Data, calls: seq<Call>, answers: seq<Result<Entry>>, k: nat): Data
    requires k <= |calls| == |answers|
  {
    View(data, AnsweredRun(env, gvk, data, calls[..k], answers[..k]).progress)
  }

  /** The call is due, and url, query, body and credential can all be had. */
  predicate CanBeSent(env: Env, view: Data, call: Call) {
    && env.holds(view, call)
    && env.resolve(view, call.url).Ok? && env.resolve(view, call.query).Ok? && env.resolve(view, call.body).Ok?
    && env.credential(call).Ok?
  }

  /** What is sent then. */
  function Sent(env: Env, gvk: string, view: Data, call: Call): Request
    requires CanBeSent(env, view, call)
  {
    Request(gvk, call, env.resolve(view, call.url).value, env.resolve(view, call.query).value,
            env.resolve(view, call.body).value, env.credential(call).value)
  }

  // ----- One step -----

  lemma SkippedStep(env: Env, gvk: string, data: Data, p: Progress, i: nat, call: Call, settled: Result<Entry>)
    requires !env.holds(View(data, p), call)
    ensures var out := AnsweredStep(env, gvk, data, p, i, call, settled);
            && out.err.None? && out.progress.made == p.made && out.progress.injected == p.injected
            && out.progress.results.Keys == p.results.Keys + {call.name}
            && (forall name <- p.results | name != call.name :: out.progress.results[name] == p.results[name])
            && out.progress.results[call.name]
               == if call.protocol in {"", "http"}
                  then map["status" := Str(""), "body" := Str(""), "error" := Str(""), "called" := Str("false")]
                  else map["result" := Str(""), "raw" := Map(map[]), "error" := Str(""), "called" := Str("false")]
  {
  }

  lemma FailedLookupStep(env: Env, gvk: string, data: Data, p: Progress, i: nat, call: Call, settled: Result<Entry>)
    requires env.holds(View(data, p), call) && !CanBeSent(env, View(data, p), call)
    ensures AnsweredStep(env, gvk, data, p, i, call, settled)
         == Report(p, Some(FirstFailure(env, View(data, p), i, call)))
  {
  }

  /** Of the lookups that fail, the first in the order url, query, body, credential. */
  function FirstFailure(env: Env, view: Data, i: nat, call: Call): RunError
    requires env.holds(view, call) && !CanBeSent(env, view, call)
  {
    if env.resolve(view, call.url).Err? then UrlError(i, env.resolve(view, call.url).message)
    else if env.resolve(view, call.query).Err? then QueryError(i, env.resolve(view, call.query).message)
    else if env.resolve(view, call.body).Err? then BodyError(i, env.resolve(view, call.body).message)
    else AuthError(i, call.name, env.credential(call).message)
  }

  lemma SentStep(env: Env, gvk: string, data: Data, p: Progress, i: nat, call: Call, settled: Result<Entry>)
    requires CanBeSent(env, View(data, p), call)
    ensures AnsweredStep(env, gvk, data, p, i, call, settled).progress.made
         == p.made[i := Sent(env, gvk, View(data, p), call)]
    ensures settled.Err? ==>
              && AnsweredStep(env, gvk, data, p, i, call, settled).progress.results == p.results
              && AnsweredStep(env, gvk, data, p, i, call, settled).progress.injected == p.injected
              && AnsweredStep(env, gvk, data, p, i, call, settled).err == Some(HardError(call.name, settled.message))
    ensures settled.Ok? ==>
              && AnsweredStep(env, gvk, data, p, i, call, settled).progress.results
                 == p.results[call.name := settled.value]
              && AnsweredStep(env, gvk, data, p, i, call, settled).progress.injected
              && AnsweredStep(env, gvk, data, p, i, call, settled).err
                 == if !call.continueOnError && "error" in settled.value && settled.value["error"].Str?
                       && settled.value["error"].text != ""
                    then Some(CallFailed(call.name, settled.value["error"].text)) else None
  {
  }

  // ----- Lifting a step to the run -----

  /** Call k of a run that came to it. */
  lemma RunComesTo(env: Env, gvk: string, data: Data, calls: seq<Call>, answers: seq<Result<Entry>>, k: nat)
    requires k < |calls| == |answers| && AnsweredRun(env, gvk, data, calls[..k], answers[..k]).err.None?
    ensures AnsweredRun(env, gvk, data, calls[..k + 1], answers[..k + 1])
         == AnsweredStep(env, gvk, data, AnsweredRun(env, gvk, data, calls[..k], answers[..k]).progress, k, calls[k],
                         answers[k])
    ensures k !in AnsweredRun(env, gvk, data, calls[..k], answers[..k]).progress.made
  {
    assert calls[..k + 1][..k] == calls[..k] && answers[..k + 1][..k] == answers[..k];
    OneMoreAnswer(env, gvk, data, calls[..k + 1], answers[..k + 1]);
    AnsweredRunStaysInList(env, gvk, data, calls[..k], answers[..k]);
  }

  /** The request recorded for j is that of its own step. */
  lemma {:induction false} RequestStays(env: Env, gvk: string, data: Data, calls: seq<Call>,
                                        answers: seq<Result<Entry>>, j: nat)
    requires j < |calls| == |answers|
    ensures var whole, cut := AnsweredRun(env, gvk, data, calls, answers).progress.made,
                              AnsweredRun(env, gvk, data, calls[..j + 1], answers[..j + 1]).progress.made;
            (j in whole <==> j in cut) && (j in whole ==> whole[j] == cut[j])
  {
    hide *;
    if j + 1 == |calls| {
      CutTwice(calls, j + 1, j + 1);
      CutTwice(answers, j + 1, j + 1);
    } else {
      var n := |calls| - 1;
      CutTwice(calls, n, j + 1);
      CutTwice(answers, n, j + 1);
      RequestStays(env, gvk, data, calls[..n], answers[..n], j);
      OneMoreAnswer(env, gvk, data, calls, answers);
      var before := AnsweredRun(env, gvk, data, calls[..n], answers[..n]);
      AnsweredStepFrame(env, gvk, data, before.progress, n, calls[n], answers[n]);
    }
  }

  // ----- The laws -----

  /** If the calls before it end without error, call k is requested exactly when it is due and all its
      lookups succeed, and then with just what they gave. */
  lemma CallIsSentIff(env: Env, gvk: string, data: Data, calls: seq<Call>, answers: seq<Result<Entry>>, k: nat)
    requires k < |calls| == |answers| && AnsweredRun(env, gvk, data, calls[..k], answers[..k]).err.None?
    ensures var made, view := AnsweredRun(env, gvk, data, calls, answers).progress.made,
                              ViewAt(env, gvk, data, calls, answers, k);
            && (k in made
                <==> && env.holds(view, calls[k])
                     && env.resolve(view, calls[k].url).Ok? && env.resolve(view, calls[k].query).Ok?
                     && env.resolve(view, calls[k].body).Ok? && env.credential(calls[k]).Ok?)
            && (k in made ==>
                  made[k] == Request(gvk, calls[k], env.resolve(view, calls[k].url).value,
                                     env.resolve(view, calls[k].query).value, env.resolve(view, calls[k].body).value,
                                     env.credential(calls[k]).value))
  {
    var p, view := AnsweredRun(env, gvk, data, calls[..k], answers[..k]).progress,
                   ViewAt(env, gvk, data, calls, answers, k);
    RunComesTo(env, gvk, data, calls, answers, k);
    RequestStays(env, gvk, data, calls, answers, k);
    hide AnsweredRun, AnsweredStep, View;
    if CanBeSent(env, view, calls[k]) {
      SentStep(env, gvk, data, p, k, calls[k], answers[k]);
    } else if env.holds(view, calls[k]) {
      FailedLookupStep(env, gvk, data, p, k, calls[k], answers[k]);
    } else {
      SkippedStep(env, gvk, data, p, k, calls[k], answers[k]);
    }
  }

  /** A call that is not due ends in no error and leaves its protocol's zero result. */
  lemma CallNotDue(env: Env, gvk: string, data: Data, calls: seq<Call>, answers: seq<Result<Entry>>, k: nat)
    requires k < |calls| == |answers| && AnsweredRun(env, gvk, data, calls[..k], answers[..k]).err.None?
    requires !env.holds(ViewAt(env, gvk, data, calls, answers, k), calls[k])
    ensures k !in AnsweredRun(env, gvk, data, calls, answers).progress.made
    ensures var r := AnsweredRun(env, gvk, data, calls[..k + 1], answers[..k + 1]);
            && r.err.None? && calls[k].name in r.progress.results
            && r.progress.results[calls[k].name]
               == if calls[k].protocol in {"", "http"}
                  then map["status" := Str(""), "body" := Str(""), "error" := Str(""), "called" := Str("false")]
                  else map["result" := Str(""), "raw" := Map(map[]), "error" := Str(""), "called" := Str("false")]
  {
    var p := AnsweredRun(env, gvk, data, calls[..k], answers[..k]).progress;
    CallIsSentIff(env, gvk, data, calls, answers, k);
    RunComesTo(env, gvk, data, calls, answers, k);
    hide AnsweredRun, AnsweredStep, View;
    SkippedStep(env, gvk, data, p, k, calls[k], answers[k]);
  }

  /** A due call of which a lookup fails ends the run: the error is that of the first one that fails in
      the order url, query, body, credential, and nothing else changes. */
  lemma FirstFailedLookupIsReported(
      env: Env, gvk: string, data: Data, calls: seq<Call>, answers: seq<Result<Entry>>, k: nat)
    requires k < |calls| == |answers| && AnsweredRun(env, gvk, data, calls[..k], answers[..k]).err.None?
    requires env.holds(ViewAt(env, gvk, data, calls, answers, k), calls[k])
    requires !CanBeSent(env, ViewAt(env, gvk, data, calls, answers, k), calls[k])
    ensures AnsweredRun(env, gvk, data, calls, answers).progress
         == AnsweredRun(env, gvk, data, calls[..k], answers[..k]).progress
    ensures var view, call, err := ViewAt(env, gvk, data, calls, answers, k), calls[k],
                                   AnsweredRun(env, gvk, data, calls, answers).err;
            && (env.resolve(view, call.url).Err? ==>
                  err == Some(UrlError(k, env.resolve(view, call.url).message)))
            && (env.resolve(view, call.url).Ok? && env.resolve(view, call.query).Err? ==>
                  err == Some(QueryError(k, env.resolve(view, call.query).message)))
            && (env.resolve(view, call.url).Ok? && env.resolve(view, call.query).Ok?
                && env.resolve(view, call.body).Err? ==>
                  err == Some(BodyError(k, env.resolve(view, call.body).message)))
            && (env.resolve(view, call.url).Ok? && env.resolve(view, call.query).Ok?
                && env.resolve(view, call.body).Ok? ==>
                  env.credential(call).Err? && err == Some(AuthError(k, call.name, env.credential(call).message)))
  {
    var p := AnsweredRun(env, gvk, data, calls[..k], answers[..k]).progress;
    RunComesTo(env, gvk, data, calls, answers, k);
    hide AnsweredRun, AnsweredStep, View;
    FailedLookupStep(env, gvk, data, p, k, calls[k], answers[k]);
    StoppedAnsweredRun(env, gvk, data, calls, answers, k + 1);
  }

  /** What the answer of a call that is sent leaves: its entry, and an error if the entry tells one and
      the call does not go on after errors; or, for an answer without entry, the error alone. */
  lemma AnswerIsRecorded(env: Env, gvk: string, data: Data, calls: seq<Call>, answers: seq<Result<Entry>>, k: nat)
    requires k < |calls| == |answers| && AnsweredRun(env, gvk, data, calls[..k], answers[..k]).err.None?
    requires CanBeSent(env, ViewAt(env, gvk, data, calls, answers, k), calls[k])
    ensures var before, after := AnsweredRun(env, gvk, data, calls[..k], answers[..k]).progress,
                                 AnsweredRun(env, gvk, data, calls[..k + 1], answers[..k + 1]);
            match answers[k]
            case Err(m) => after.progress.results == before.results && after.err == Some(HardError(calls[k].name, m))
            case Ok(entry) =>
              && after.progress.results == before.results[calls[k].name := entry]
              && after.err == if !calls[k].continueOnError && "error" in entry && entry["error"].Str?
                                 && entry["error"].text != ""
                              then Some(CallFailed(calls[k].name, entry["error"].text)) else None
  {
    var p := AnsweredRun(env, gvk, data, calls[..k], answers[..k]).progress;
    RunComesTo(env, gvk, data, calls, answers, k);
    hide AnsweredRun, AnsweredStep, View;
    SentStep(env, gvk, data, p, k, calls[k], answers[k]);
  }

  /** What a fetch leaves: the backend's entry; for an error, an entry with its text if the call goes on
      after errors, and no entry otherwise. */
  lemma FetchIsSettled(call: Call, answer: Result<Entry>)
    ensures answer.Ok? ==> Settle(call, answer) == answer
    ensures answer.Err? && !call.continueOnError ==> Settle(call, answer) == answer
    ensures answer.Err? && call.continueOnError ==>
              Settle(call, answer) == Ok(map["result" := Str(""), "raw" := Map(map[]),
                                             "error" := Str(answer.message), "called" := Str("true")])
  {
  }

  /** The fetching run is the answered run whose answer for call k, if it is sent, is that of the
      backend for just that request at its instant. */
  lemma FetchedCallIsTheBackends(env: Env, gvk: string, data: Data, calls: seq<Call>, at: seq<int>, k: nat)
    requires k < |calls| == |at| && FetchRun(env, gvk, data, calls[..k], at[..k]).err.None?
    requires CanBeSent(env, View(data, FetchRun(env, gvk, data, calls[..k], at[..k]).progress), calls[k])
    ensures var p := FetchRun(env, gvk, data, calls[..k], at[..k]).progress;
            FetchRun(env, gvk, data, calls[..k + 1], at[..k + 1])
            == AnsweredStep(env, gvk, data, p, k, calls[k],
                            Settle(calls[k], env.fetch(Sent(env, gvk, View(data, p), calls[k]), at[k])))
  {
    assert calls[..k + 1][..k] == calls[..k] && at[..k + 1][..k] == at[..k];
    hide View, Settle, Record;
  }

  // ----- What templates see -----

  lemma {:induction false} InjectedIffSent(
      env: Env, gvk: string, data: Data, calls: seq<Call>, answers: seq<Result<Entry>>)
    requires |answers| == |calls| && AnsweredRun(env, gvk, data, calls, answers).err.None?
    ensures var p := AnsweredRun(env, gvk, data, calls, answers).progress; p.injected <==> p.made != map[]
  {
    if calls != [] {
      var n := |calls| - 1;
      var p := AnsweredRun(env, gvk, data, calls[..n], answers[..n]).progress;
      OneMoreAnswer(env, gvk, data, calls, answers);
      InjectedIffSent(env, gvk, data, calls[..n], answers[..n]);
      hide AnsweredRun;
      if CanBeSent(env, View(data, p), calls[n]) {
        SentStep(env, gvk, data, p, n, calls[n], answers[n]);
        assert n in p.made[n := Sent(env, gvk, View(data, p), calls[n])];
      }
    }
  }

  /** The data of call k: as given, but for "external", which holds every result so far under its name
      as soon as some call was sent. */
  lemma TemplatesSee(env: Env, gvk: string, data: Data, calls: seq<Call>, answers: seq<Result<Entry>>, k: nat)
    requires k <= |calls| == |answers| && AnsweredRun(env, gvk, data, calls[..k], answers[..k]).err.None?
    ensures var view, p := ViewAt(env, gvk, data, calls, answers, k),
                           AnsweredRun(env, gvk, data, calls[..k], answers[..k]).progress;
            if p.made == map[] then view == data
            else
              && view.Keys == data.Keys + {"external"}
              && (forall key <- data | key != "external" :: view[key] == data[key])
              && view["external"].Map? && view["external"].fields.Keys == p.results.Keys
              && forall name <- p.results :: view["external"].fields[name] == Map(p.results[name])
  {
    InjectedIffSent(env, gvk, data, calls[..k], answers[..k]);
    hide AnsweredRun;
  }
}
