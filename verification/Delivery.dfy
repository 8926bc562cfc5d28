/**
 The sending side of the agent: messages are queued with the Kafka client, which later reports each as delivered or
 failed; what is rejected or fails goes to the write-ahead log, up to a size limit, and is sent again from there.
 */
module Delivery {
  import opened Bytes
  import opened Framing

  type Json = ByteString

  type Bag = multiset<Json>

  /** `retrying`: what has been read from the log, which is empty by then, and is still to be sent again. */
  datatype State = State(submitted: Bag, delivered: Bag, inFlight: Bag, file: ByteString, retrying: seq<Json>, dropped: Bag)

  /** The format of the log, its size limit, and the size of the largest message. */
  datatype Config = Config(fmt: Format<Byte>, limit: nat, largest: nat)

  ghost predicate ConfigOk(cfg: Config) {
    cfg.fmt.Sound() && cfg.largest <= cfg.fmt.maxRecord
  }

  // ----- Steps -----

  datatype Step =
    | Submit(json: Json, accepted: bool)
    | Report(json: Json, ok: bool)
    | BeginRetry
    | Resend(accepted: bool)

  ghost predicate Enabled(cfg: Config, s: State, step: Step) {
    match step
    case Submit(json, _) => |json| <= cfg.largest
    case Report(json, _) => json in s.inFlight
    case BeginRetry => s.retrying == []
    case Resend(_) => s.retrying != []
  }

  /** The failure callback: to the log if it is below its limit, otherwise dropped. */
  ghost function OnFail(cfg: Config, s: State, json: Json): State
    requires ConfigOk(cfg) && |json| <= cfg.fmt.maxRecord
  {
    if |s.file| < cfg.limit then s.(file := s.file + cfg.fmt.Frame(json))
    else s.(dropped := s.dropped + multiset{json})
  }

  ghost function Send(cfg: Config, s: State, json: Json, accepted: bool): State
    requires ConfigOk(cfg) && |json| <= cfg.fmt.maxRecord
  {
    if accepted then s.(inFlight := s.inFlight + multiset{json}) else OnFail(cfg, s, json)
  }

  /** The log is emptied only if something could be read from it. */
  ghost function TakeLog(cfg: Config, s: State): State
    requires ConfigOk(cfg)
  {
    var records := cfg.fmt.ParseLog(s.file);
    if records != [] then s.(file := [], retrying := records) else s
  }

  ghost function Landed(s: State, json: Json): State {
    s.(inFlight := s.inFlight - multiset{json})
  }

  ghost function Taken(s: State): State
    requires s.retrying != []
  {
    s.(retrying := s.retrying[1..])
  }

  /** All messages that may still go to the log are short enough to be read from it again. */
  ghost predicate Fits(cfg: Config, s: State) {
    (forall j :: j in s.inFlight ==> |j| <= cfg.fmt.maxRecord) && cfg.fmt.Readable(s.retrying)
  }

  ghost function Submitted(s: State, json: Json): State {
    s.(submitted := s.submitted + multiset{json})
  }

  ghost function Reported(cfg: Config, s: State, json: Json, ok: bool): State
    requires ConfigOk(cfg) && |json| <= cfg.fmt.maxRecord
  {
    if ok then Landed(s, json).(delivered := s.delivered + multiset{json}) else OnFail(cfg, Landed(s, json), json)
  }

  ghost function Resent(cfg: Config, s: State, accepted: bool): State
    requires ConfigOk(cfg) && s.retrying != [] && |s.retrying[0]| <= cfg.fmt.maxRecord
  {
    Send(cfg, Taken(s), s.retrying[0], accepted)
  }

  ghost function Next(cfg: Config, s: State, step: Step): State
    requires ConfigOk(cfg) && Fits(cfg, s) && Enabled(cfg, s, step)
  {
    match step
    case Submit(json, accepted) => Send(cfg, Submitted(s, json), json, accepted)
    case Report(json, ok) => Reported(cfg, s, json, ok)
    case BeginRetry => TakeLog(cfg, s)
    case Resend(accepted) => Resent(cfg, s, accepted)
  }

  // ----- Conservation -----

  /** Every byte of the log is part of an intact record. */
  ghost predicate Intact(cfg: Config, file: ByteString)
    requires ConfigOk(cfg)
  {
    cfg.fmt.Readable(cfg.fmt.ParseLog(file)) && file == cfg.fmt.EncodeAll(cfg.fmt.ParseLog(file))
  }

  ghost predicate Small(cfg: Config, s: State)
    requires ConfigOk(cfg)
  {
    && (forall j :: j in s.inFlight ==> |j| <= cfg.largest)
    && (forall j :: j in s.retrying ==> |j| <= cfg.largest)
    && (forall j :: j in cfg.fmt.ParseLog(s.file) ==> |j| <= cfg.largest)
  }

  /** The log can be read back whole, stays within its bound, and all messages are of the sizes allowed. */
  ghost predicate WellKept(cfg: Config, s: State)
    requires ConfigOk(cfg)
  {
    Intact(cfg, s.file) && Small(cfg, s) && |s.file| <= cfg.limit + 7 + cfg.largest
  }

  ghost function Logged(cfg: Config, s: State): Bag
    requires ConfigOk(cfg)
  {
    multiset(cfg.fmt.ParseLog(s.file))
  }

  /** Every place a message can be. */
  ghost function Held(cfg: Config, s: State): Bag
    requires ConfigOk(cfg)
  {
    s.delivered + s.inFlight + Logged(cfg, s) + multiset(s.retrying) + s.dropped
  }

  /** Each message handed over is in some place, as often as it was handed over. */
  ghost predicate Conserves(cfg: Config, s: State)
    requires ConfigOk(cfg)
  {
    WellKept(cfg, s) && s.submitted == Held(cfg, s)
  }

  lemma AppendKeepsIntact(cfg: Config, file: ByteString, json: Json)
    requires ConfigOk(cfg) && Intact(cfg, file) && |json| <= cfg.largest
    ensures Intact(cfg, file + cfg.fmt.Frame(json))
    ensures cfg.fmt.ParseLog(file + cfg.fmt.Frame(json)) == cfg.fmt.ParseLog(file) + [json]
  {
    var records := cfg.fmt.ParseLog(file);
    cfg.fmt.AppendToIntact(records, json);
    cfg.fmt.WholeLog(records + [json]);
  }

  lemma EmptyIsIntact(cfg: Config)
    requires ConfigOk(cfg)
    ensures Intact(cfg, []) && cfg.fmt.ParseLog([]) == []
  {}

  lemma AddToBag(a: Bag, b: Bag, c: Bag, d: Bag, e: Bag, x: Bag)
    ensures (a + x) + b + c + d + e == a + b + c + d + e + x
    ensures a + (b + x) + c + d + e == a + b + c + d + e + x
    ensures a + b + (c + x) + d + e == a + b + c + d + e + x
    ensures a + b + c + (d + x) + e == a + b + c + d + e + x
    ensures a + b + c + d + (e + x) == a + b + c + d + e + x
  {}

  lemma OnFailKeeps(cfg: Config, s: State, json: Json)
    requires ConfigOk(cfg) && |json| <= cfg.largest && WellKept(cfg, s)
    ensures WellKept(cfg, OnFail(cfg, s, json))
    ensures Held(cfg, OnFail(cfg, s, json)) == Held(cfg, s) + multiset{json}
  {
    var t := OnFail(cfg, s, json);
    AddToBag(s.delivered, s.inFlight, Logged(cfg, s), multiset(s.retrying), s.dropped, multiset{json});
    if |s.file| < cfg.limit {
      AppendKeepsIntact(cfg, s.file, json);
      assert Logged(cfg, t) == Logged(cfg, s) + multiset{json};
    }
  }

  lemma SendKeeps(cfg: Config, s: State, json: Json, accepted: bool)
    requires ConfigOk(cfg) && |json| <= cfg.largest && WellKept(cfg, s)
    ensures WellKept(cfg, Send(cfg, s, json, accepted))
    ensures Held(cfg, Send(cfg, s, json, accepted)) == Held(cfg, s) + multiset{json}
    ensures Send(cfg, s, json, accepted).submitted == s.submitted
  {
    if accepted {
      AddToBag(s.delivered, s.inFlight, Logged(cfg, s), multiset(s.retrying), s.dropped, multiset{json});
    } else {
      OnFailKeeps(cfg, s, json);
    }
  }

  lemma LandingKeeps(cfg: Config, s: State, json: Json)
    requires ConfigOk(cfg) && WellKept(cfg, s) && json in s.inFlight
    ensures WellKept(cfg, Landed(s, json))
    ensures Held(cfg, s) == Held(cfg, Landed(s, json)) + multiset{json}
  {
    var landed := Landed(s, json);
    assert s.inFlight == landed.inFlight + multiset{json};
    AddToBag(s.delivered, landed.inFlight, Logged(cfg, s), multiset(s.retrying), s.dropped, multiset{json});
  }

  lemma DeliveryKeeps(cfg: Config, s: State, json: Json)
    requires ConfigOk(cfg) && WellKept(cfg, s)
    ensures var t := s.(delivered := s.delivered + multiset{json});
            WellKept(cfg, t) && Held(cfg, t) == Held(cfg, s) + multiset{json}
  {
    AddToBag(s.delivered, s.inFlight, Logged(cfg, s), multiset(s.retrying), s.dropped, multiset{json});
  }

  lemma ReportConserves(cfg: Config, s: State, json: Json, ok: bool)
    requires ConfigOk(cfg) && Conserves(cfg, s) && json in s.inFlight
    ensures Conserves(cfg, Reported(cfg, s, json, ok))
  {
    LandingKeeps(cfg, s, json);
    if ok {
      DeliveryKeeps(cfg, Landed(s, json), json);
    } else {
      OnFailKeeps(cfg, Landed(s, json), json);
    }
  }

  lemma TakingKeeps(cfg: Config, s: State)
    requires ConfigOk(cfg) && WellKept(cfg, s) && s.retrying != []
    ensures |s.retrying[0]| <= cfg.largest && WellKept(cfg, Taken(s))
    ensures Held(cfg, s) == Held(cfg, Taken(s)) + multiset{s.retrying[0]}
  {
    var json, t := s.retrying[0], Taken(s);
    assert s.retrying == [json] + t.retrying;
    assert multiset(s.retrying) == multiset(t.retrying) + multiset{json};
    AddToBag(s.delivered, s.inFlight, Logged(cfg, s), multiset(t.retrying), s.dropped, multiset{json});
    assert forall j :: j in t.retrying ==> j in s.retrying;
  }

  lemma ResendConserves(cfg: Config, s: State, accepted: bool)
    requires ConfigOk(cfg) && Conserves(cfg, s) && s.retrying != []
    ensures |s.retrying[0]| <= cfg.largest && Conserves(cfg, Resent(cfg, s, accepted))
  {
    TakingKeeps(cfg, s);
    SendingBack(cfg, Taken(s), Held(cfg, s), s.retrying[0], accepted);
  }

  lemma SendingBack(cfg: Config, s: State, bag: Bag, json: Json, accepted: bool)
    requires ConfigOk(cfg) && WellKept(cfg, s) && |json| <= cfg.largest
    requires s.submitted == bag && bag == Held(cfg, s) + multiset{json}
    ensures Conserves(cfg, Send(cfg, s, json, accepted))
  {
    SendKeeps(cfg, s, json, accepted);
    Accounted(cfg, Send(cfg, s, json, accepted), bag);
  }

  lemma Accounted(cfg: Config, s: State, bag: Bag)
    requires ConfigOk(cfg) && WellKept(cfg, s) && s.submitted == bag && Held(cfg, s) == bag
    ensures Conserves(cfg, s)
  {}

  lemma SubmitConserves(cfg: Config, s: State, json: Json, accepted: bool)
    requires ConfigOk(cfg) && Conserves(cfg, s) && |json| <= cfg.largest
    ensures Conserves(cfg, Send(cfg, Submitted(s, json), json, accepted))
  {
    var t := Submitted(s, json);
    assert WellKept(cfg, t) && Held(cfg, t) == Held(cfg, s);
    SendKeeps(cfg, t, json, accepted);
    Accounted(cfg, Send(cfg, t, json, accepted), t.submitted);
  }

  lemma MovedToRetry(a: Bag, b: Bag, c: Bag, e: Bag)
    ensures a + b + c + multiset{} + e == a + b + multiset{} + c + e
  {}

  lemma BeginRetryConserves(cfg: Config, s: State)
    requires ConfigOk(cfg) && Conserves(cfg, s) && s.retrying == []
    ensures Conserves(cfg, TakeLog(cfg, s))
  {
    EmptyIsIntact(cfg);
    MovedToRetry(s.delivered, s.inFlight, Logged(cfg, s), s.dropped);
    assert multiset(s.retrying) == multiset{};
  }

  /** No step loses a message or makes one up. */
  lemma StepConserves(cfg: Config, s: State, step: Step)
    requires ConfigOk(cfg) && Conserves(cfg, s) && Enabled(cfg, s, step)
    ensures Conserves(cfg, Next(cfg, s, step))
  {
    match step
    case Submit(json, accepted) =>
      SubmitConserves(cfg, s, json, accepted);
    case Report(json, ok) => ReportConserves(cfg, s, json, ok);
    case BeginRetry => BeginRetryConserves(cfg, s);
    case Resend(accepted) =>
      ResendConserves(cfg, s, accepted);
  }

  // ----- Several sends in a row -----

  ghost predicate AllSmall(cfg: Config, texts: seq<Json>)
    requires ConfigOk(cfg)
  {
    forall j :: j in texts ==> |j| <= cfg.largest
  }

  /** New messages sent one after the other. */
  ghost function SubmitAll(cfg: Config, s: State, texts: seq<Json>, accepts: nat -> bool): State
    requires ConfigOk(cfg) && AllSmall(cfg, texts)
  {
    if texts == [] then s
    else
      var n := |texts| - 1;
      Send(cfg, Submitted(SubmitAll(cfg, s, texts[..n], accepts), texts[n]), texts[n], accepts(n))
  }

  lemma OneMoreText(cfg: Config, s: State, texts: seq<Json>, accepts: nat -> bool, i: nat)
    requires ConfigOk(cfg) && AllSmall(cfg, texts) && i < |texts|
    ensures SubmitAll(cfg, s, texts[..i + 1], accepts)
         == Send(cfg, Submitted(SubmitAll(cfg, s, texts[..i], accepts), texts[i]), texts[i], accepts(i))
  {
    assert texts[..i + 1][..i] == texts[..i];
  }

  lemma {:induction false} SubmitAllConserves(cfg: Config, s: State, texts: seq<Json>, accepts: nat -> bool)
    requires ConfigOk(cfg) && AllSmall(cfg, texts) && Conserves(cfg, s)
    ensures Conserves(cfg, SubmitAll(cfg, s, texts, accepts))
    decreases |texts|
  {
    if texts != [] {
      var n := |texts| - 1;
      SubmitAllConserves(cfg, s, texts[..n], accepts);
      SubmitConserves(cfg, SubmitAll(cfg, s, texts[..n], accepts), texts[n], accepts(n));
    }
  }

  lemma SendSubmitsNothing(cfg: Config, s: State, json: Json, accepted: bool)
    requires ConfigOk(cfg) && |json| <= cfg.fmt.maxRecord
    ensures Send(cfg, s, json, accepted).submitted == s.submitted
    ensures Send(cfg, s, json, accepted).retrying == s.retrying
    ensures Send(cfg, s, json, accepted).delivered == s.delivered
  {}

  /** Each of them is handed over once; nothing else is. */
  lemma {:induction false} SubmitAllSubmits(cfg: Config, s: State, texts: seq<Json>, accepts: nat -> bool)
    requires ConfigOk(cfg) && AllSmall(cfg, texts)
    ensures SubmitAll(cfg, s, texts, accepts).submitted == s.submitted + multiset(texts)
    ensures SubmitAll(cfg, s, texts, accepts).retrying == s.retrying
    ensures SubmitAll(cfg, s, texts, accepts).delivered == s.delivered
    decreases |texts|
  {
    if texts != [] {
      var n := |texts| - 1;
      var t := SubmitAll(cfg, s, texts[..n], accepts);
      SubmitAllSubmits(cfg, s, texts[..n], accepts);
      SendSubmitsNothing(cfg, Submitted(t, texts[n]), texts[n], accepts(n));
      BagOfMore(s.submitted, texts);
    }
  }

  lemma BagOfMore(bag: Bag, texts: seq<Json>)
    requires texts != []
    ensures bag + multiset(texts) == bag + multiset(texts[..|texts| - 1]) + multiset{texts[|texts| - 1]}
  {
    assert texts == texts[..|texts| - 1] + [texts[|texts| - 1]];
  }

  /** Together: each text is handed over once, and the account stays in order. */
  lemma SubmitAllKeeps(cfg: Config, s: State, texts: seq<Json>, accepts: nat -> bool)
    requires ConfigOk(cfg) && AllSmall(cfg, texts) && Fits(cfg, s)
    ensures var t := SubmitAll(cfg, s, texts, accepts);
            && t.submitted == s.submitted + multiset(texts) && t.retrying == s.retrying && Fits(cfg, t)
            && (Conserves(cfg, s) ==> Conserves(cfg, t))
  {
    SubmitAllSubmits(cfg, s, texts, accepts);
    SubmitAllFits(cfg, s, texts, accepts);
    if Conserves(cfg, s) {
      SubmitAllConserves(cfg, s, texts, accepts);
    }
  }

  lemma {:induction false} SubmitAllFits(cfg: Config, s: State, texts: seq<Json>, accepts: nat -> bool)
    requires ConfigOk(cfg) && AllSmall(cfg, texts) && Fits(cfg, s)
    ensures Fits(cfg, SubmitAll(cfg, s, texts, accepts))
    decreases |texts|
  {
    if texts != [] {
      SubmitAllFits(cfg, s, texts[..|texts| - 1], accepts);
    }
  }

  /** The first n of the messages being retried, sent again one after the other. */
  ghost function ResendFirst(cfg: Config, s: State, accepts: nat -> bool, n: nat): (t: State)
    requires ConfigOk(cfg) && cfg.fmt.Readable(s.retrying) && n <= |s.retrying|
    ensures t.retrying == s.retrying[n..] && t.submitted == s.submitted && t.delivered == s.delivered
  {
    if n == 0 then s
    else
      var t := ResendFirst(cfg, s, accepts, n - 1);
      SendSubmitsNothing(cfg, Taken(t), t.retrying[0], accepts(n - 1));
      Resent(cfg, t, accepts(n - 1))
  }

  lemma {:induction false} ResendFirstConserves(cfg: Config, s: State, accepts: nat -> bool, n: nat)
    requires ConfigOk(cfg) && cfg.fmt.Readable(s.retrying) && n <= |s.retrying| && Conserves(cfg, s)
    ensures Conserves(cfg, ResendFirst(cfg, s, accepts, n))
    decreases n
  {
    if n > 0 {
      ResendFirstConserves(cfg, s, accepts, n - 1);
      OneMoreResentConserves(cfg, s, accepts, n);
    }
  }

  lemma OneMoreResentConserves(cfg: Config, s: State, accepts: nat -> bool, n: nat)
    requires ConfigOk(cfg) && cfg.fmt.Readable(s.retrying) && 0 < n <= |s.retrying|
    requires Conserves(cfg, ResendFirst(cfg, s, accepts, n - 1))
    ensures Conserves(cfg, ResendFirst(cfg, s, accepts, n))
  {
    OneMoreResent(cfg, s, accepts, n);
    ResendConserves(cfg, ResendFirst(cfg, s, accepts, n - 1), accepts(n - 1));
  }

  lemma OneMoreResent(cfg: Config, s: State, accepts: nat -> bool, n: nat)
    requires ConfigOk(cfg) && cfg.fmt.Readable(s.retrying) && 0 < n <= |s.retrying|
    ensures var t := ResendFirst(cfg, s, accepts, n - 1);
            && t.retrying != [] && |t.retrying[0]| <= cfg.fmt.maxRecord
            && ResendFirst(cfg, s, accepts, n) == Resent(cfg, t, accepts(n - 1))
  {}

  lemma ResentFits(cfg: Config, t: State, accepted: bool)
    requires ConfigOk(cfg) && Fits(cfg, t) && t.retrying != []
    ensures Fits(cfg, Resent(cfg, t, accepted))
  {}

  /** One retry of the log: all that could be read from it is sent again. */
  ghost function Retry(cfg: Config, s: State, accepts: nat -> bool): (t: State)
    requires ConfigOk(cfg) && s.retrying == []
    ensures t.retrying == [] && t.submitted == s.submitted && t.delivered == s.delivered
  {
    cfg.fmt.ParseLogIsIntactPrefix(s.file);
    var taken := TakeLog(cfg, s);
    ResendFirst(cfg, taken, accepts, |taken.retrying|)
  }

  lemma {:induction false} ResendFirstFits(cfg: Config, s: State, accepts: nat -> bool, n: nat)
    requires ConfigOk(cfg) && Fits(cfg, s) && n <= |s.retrying|
    ensures Fits(cfg, ResendFirst(cfg, s, accepts, n))
    decreases n
  {
    if n > 0 {
      ResendFirstFits(cfg, s, accepts, n - 1);
      OneMoreResent(cfg, s, accepts, n);
      ResentFits(cfg, ResendFirst(cfg, s, accepts, n - 1), accepts(n - 1));
    }
  }

  lemma RetryFits(cfg: Config, s: State, accepts: nat -> bool)
    requires ConfigOk(cfg) && Fits(cfg, s) && s.retrying == []
    ensures Fits(cfg, Retry(cfg, s, accepts))
  {
    cfg.fmt.ParseLogIsIntactPrefix(s.file);
    var taken := TakeLog(cfg, s);
    ResendFirstFits(cfg, taken, accepts, |taken.retrying|);
  }

  lemma RetryConserves(cfg: Config, s: State, accepts: nat -> bool)
    requires ConfigOk(cfg) && s.retrying == [] && Conserves(cfg, s)
    ensures Conserves(cfg, Retry(cfg, s, accepts))
  {
    cfg.fmt.ParseLogIsIntactPrefix(s.file);
    BeginRetryConserves(cfg, s);
    ResendFirstConserves(cfg, TakeLog(cfg, s), accepts, |TakeLog(cfg, s).retrying|);
  }

  // ----- Every run -----

  /** A new process, with whatever a previous one left in the log. */
  ghost function Fresh(cfg: Config, file: ByteString): State
    requires ConfigOk(cfg)
  {
    State(multiset(cfg.fmt.ParseLog(file)), multiset{}, multiset{}, file, [], multiset{})
  }

  /** The same once the replay has read the log. */
  ghost function Start(cfg: Config, file: ByteString): State
    requires ConfigOk(cfg)
  {
    TakeLog(cfg, Fresh(cfg, file))
  }

  /**
   Exactly when the books are in order from the start: the log was empty, or something could be read from it. A log whose
   first record is torn is kept, and new records are appended behind the tear.
   */
  lemma StartConservesIff(cfg: Config, file: ByteString)
    requires ConfigOk(cfg) && forall j :: j in cfg.fmt.ParseLog(file) ==> |j| <= cfg.largest
    ensures Conserves(cfg, Start(cfg, file)) <==> file == [] || cfg.fmt.ParseLog(file) != []
  {
    if cfg.fmt.ParseLog(file) != [] {
      ReplayConserves(cfg, file, cfg.fmt.ParseLog(file));
    } else if file == [] {
      EmptyIsIntact(cfg);
    } else {
      assert !Intact(cfg, file);
    }
  }

  /**
   What an append adds to the account is what can then be read from the first place on where nothing could be read before:
   behind whole records the message itself, behind a torn one often nothing.
   */
  lemma AppendAdds(cfg: Config, s: State, json: Json)
    requires ConfigOk(cfg) && |json| <= cfg.fmt.maxRecord && |s.file| < cfg.limit
    ensures var whole := cfg.fmt.ParseLog(s.file);
            && cfg.fmt.Readable(whole) && cfg.fmt.EncodeAll(whole) <= s.file
            && var rest := s.file[|cfg.fmt.EncodeAll(whole)|..];
               Logged(cfg, OnFail(cfg, s, json))
               == Logged(cfg, s) + multiset(cfg.fmt.ParseLog(rest + cfg.fmt.Frame(json)))
  {
    var whole := cfg.fmt.ParseLog(s.file);
    cfg.fmt.ParseLogIsIntactPrefix(s.file);
    var front := cfg.fmt.EncodeAll(whole);
    var rest := s.file[|front|..];
    assert s.file + cfg.fmt.Frame(json) == front + (rest + cfg.fmt.Frame(json));
    cfg.fmt.ReadsOn(whole, rest + cfg.fmt.Frame(json));
  }

  /** The startup replay as a whole. */
  lemma StartupConserves(cfg: Config, file: ByteString, accepts: nat -> bool)
    requires ConfigOk(cfg) && AllSmall(cfg, cfg.fmt.ParseLog(file)) && (file == [] || cfg.fmt.ParseLog(file) != [])
    ensures Conserves(cfg, Retry(cfg, Fresh(cfg, file), accepts))
  {
    StartConservesIff(cfg, file);
    var taken := Start(cfg, file);
    cfg.fmt.ParseLogIsIntactPrefix(file);
    ResendFirstConserves(cfg, taken, accepts, |taken.retrying|);
  }

  lemma ReplayConserves(cfg: Config, file: ByteString, records: seq<Json>)
    requires ConfigOk(cfg) && records != [] && AllSmall(cfg, records)
    ensures Conserves(cfg, State(multiset(records), multiset{}, multiset{}, [], records, multiset{}))
  {
    EmptyIsIntact(cfg);
  }

  /** A run from the startup on; that all messages fit is a consequence, see RunFits. */
  ghost predicate IsRun(cfg: Config, file: ByteString, states: seq<State>, steps: seq<Step>)
    requires ConfigOk(cfg)
  {
    && |states| == |steps| + 1
    && states[0] == Start(cfg, file)
    && forall n :: 0 <= n < |steps| && Fits(cfg, states[n]) ==>
         Enabled(cfg, states[n], steps[n]) && states[n + 1] == Next(cfg, states[n], steps[n])
  }

  lemma TakeLogFits(cfg: Config, s: State)
    requires ConfigOk(cfg) && Fits(cfg, s)
    ensures Fits(cfg, TakeLog(cfg, s))
  {
    cfg.fmt.ParseLogIsIntactPrefix(s.file);
  }

  lemma StepFits(cfg: Config, s: State, step: Step)
    requires ConfigOk(cfg) && Fits(cfg, s) && Enabled(cfg, s, step)
    ensures Fits(cfg, Next(cfg, s, step))
  {
    if step.BeginRetry? {
      TakeLogFits(cfg, s);
    }
  }

  /** Whatever was in the log, all messages of a run are short enough to be read from the log again. */
  lemma {:induction false} RunFits(cfg: Config, file: ByteString, states: seq<State>, steps: seq<Step>, n: nat)
    requires ConfigOk(cfg) && IsRun(cfg, file, states, steps) && n < |states|
    ensures Fits(cfg, states[n])
    ensures n < |steps| ==> Enabled(cfg, states[n], steps[n]) && states[n + 1] == Next(cfg, states[n], steps[n])
  {
    if n == 0 {
      TakeLogFits(cfg, Fresh(cfg, file));
    } else {
      RunFits(cfg, file, states, steps, n - 1);
      StepFits(cfg, states[n - 1], steps[n - 1]);
    }
  }

  lemma StepTo(cfg: Config, s: State, step: Step, t: State)
    requires ConfigOk(cfg) && Conserves(cfg, s) && Fits(cfg, s) && Enabled(cfg, s, step) && t == Next(cfg, s, step)
    ensures Conserves(cfg, t)
  {
    StepConserves(cfg, s, step);
  }

  /** In every crash-free run every message is delivered, in flight, in the log, being retried, or dropped at the limit. */
  lemma {:induction false} RunConserves(cfg: Config, file: ByteString, states: seq<State>, steps: seq<Step>, n: nat)
    requires ConfigOk(cfg) && IsRun(cfg, file, states, steps) && n < |states|
    requires forall j :: j in cfg.fmt.ParseLog(file) ==> |j| <= cfg.largest
    requires file == [] || cfg.fmt.ParseLog(file) != []
    ensures Conserves(cfg, states[n])
  {
    if n == 0 {
      StartConservesIff(cfg, file);
    } else {
      RunConserves(cfg, file, states, steps, n - 1);
      RunFits(cfg, file, states, steps, n - 1);
      StepTo(cfg, states[n - 1], steps[n - 1], states[n]);
    }
  }

  // ----- What becomes of each message -----

  /** The step hands the message to the failure callback. */
  predicate Rejects(s: State, step: Step, json: Json) {
    || step == Submit(json, false)
    || step == Report(json, false)
    || (step == Resend(false) && s.retrying != [] && s.retrying[0] == json)
  }

  /** The step queues the message with the client. */
  predicate Queues(s: State, step: Step, json: Json) {
    step == Submit(json, true) || (step == Resend(true) && s.retrying != [] && s.retrying[0] == json)
  }

  predicate IsSubmit(step: Step, json: Json) {
    step == Submit(json, true) || step == Submit(json, false)
  }

  predicate IsReport(step: Step, json: Json) {
    step == Report(json, true) || step == Report(json, false)
  }

  /**
   A rejected or failed message lengthens the log by its frame while the log is below its limit; a message that is queued
   or delivered leaves the log alone.
   */
  lemma LogGrowth(cfg: Config, s: State, step: Step, json: Json)
    requires ConfigOk(cfg) && Fits(cfg, s) && Enabled(cfg, s, step)
    ensures var file := Next(cfg, s, step).file;
            && (Rejects(s, step, json) && |s.file| < cfg.limit ==> file == s.file + cfg.fmt.Frame(json) && |file| > |s.file|)
            && (Rejects(s, step, json) && |s.file| >= cfg.limit ==> file == s.file)
            && (Queues(s, step, json) || step == Report(json, true) ==> file == s.file)
  {
    if Rejects(s, step, json) {
      FailureLogged(cfg, s, json);
    }
  }

  lemma FailureLogged(cfg: Config, s: State, json: Json)
    requires ConfigOk(cfg) && |json| <= cfg.fmt.maxRecord
    ensures OnFail(cfg, s, json).file == if |s.file| < cfg.limit then s.file + cfg.fmt.Frame(json) else s.file
    ensures |cfg.fmt.Frame(json)| > 0
  {}

  /** Only a retry that finds something to read empties the log, and has all of that to send again, in order. */
  lemma RetryTakes(cfg: Config, s: State, step: Step)
    requires ConfigOk(cfg) && Fits(cfg, s) && Enabled(cfg, s, step)
    ensures var t := Next(cfg, s, step);
            && (step == BeginRetry ==> t.retrying == cfg.fmt.ParseLog(s.file))
            && (step == BeginRetry ==> t.file == if cfg.fmt.ParseLog(s.file) != [] then [] else s.file)
            && (step.Resend? ==> s.retrying == [s.retrying[0]] + t.retrying)
            && (step.Submit? || step.Report? ==> t.retrying == s.retrying)
  {}

  /** How often the message is in each place after a step, compared with before. */
  ghost predicate Counted(limit: nat, s: State, step: Step, t: State, json: Json) {
    && t.submitted[json] == s.submitted[json] + (if IsSubmit(step, json) then 1 else 0)
    && t.delivered[json] == s.delivered[json] + (if step == Report(json, true) then 1 else 0)
    && t.dropped[json] == s.dropped[json] + (if Rejects(s, step, json) && |s.file| >= limit then 1 else 0)
    && t.inFlight[json] + (if IsReport(step, json) then 1 else 0)
       == s.inFlight[json] + (if Queues(s, step, json) then 1 else 0)
  }

  /** A step moves the message it is about from and to the places its name says, once, and no other message. */
  lemma StepCounts(cfg: Config, s: State, step: Step, json: Json)
    requires ConfigOk(cfg) && Fits(cfg, s) && Enabled(cfg, s, step)
    ensures Counted(cfg.limit, s, step, Next(cfg, s, step), json)
  {
    match step
    case Submit(text, accepted) => SubmitCounts(cfg, s, text, accepted, json);
    case Report(text, ok) => ReportCounts(cfg, s, text, ok, json);
    case BeginRetry => BeginRetryCounts(cfg, s, json);
    case Resend(accepted) => ResendCounts(cfg, s, accepted, json);
  }

  lemma SubmitCounts(cfg: Config, s: State, text: Json, accepted: bool, json: Json)
    requires ConfigOk(cfg) && |text| <= cfg.fmt.maxRecord
    ensures Counted(cfg.limit, s, Submit(text, accepted), Send(cfg, Submitted(s, text), text, accepted), json)
  {
    SendCounts(cfg, Submitted(s, text), text, accepted, json);
  }

  lemma ResendCounts(cfg: Config, s: State, accepted: bool, json: Json)
    requires ConfigOk(cfg) && s.retrying != [] && |s.retrying[0]| <= cfg.fmt.maxRecord
    ensures Counted(cfg.limit, s, Resend(accepted), Resent(cfg, s, accepted), json)
  {
    SendCounts(cfg, Taken(s), s.retrying[0], accepted, json);
  }

  lemma BeginRetryCounts(cfg: Config, s: State, json: Json)
    requires ConfigOk(cfg)
    ensures Counted(cfg.limit, s, BeginRetry, TakeLog(cfg, s), json)
  {}

  lemma SendCounts(cfg: Config, s: State, text: Json, accepted: bool, json: Json)
    requires ConfigOk(cfg) && |text| <= cfg.fmt.maxRecord
    ensures var t := Send(cfg, s, text, accepted);
            && t.submitted == s.submitted && t.delivered == s.delivered
            && t.dropped[json] == s.dropped[json] + (if !accepted && text == json && |s.file| >= cfg.limit then 1 else 0)
            && t.inFlight[json] == s.inFlight[json] + (if accepted && text == json then 1 else 0)
  {}

  lemma ReportCounts(cfg: Config, s: State, text: Json, ok: bool, json: Json)
    requires ConfigOk(cfg) && |text| <= cfg.fmt.maxRecord && text in s.inFlight
    ensures Counted(cfg.limit, s, Report(text, ok), Reported(cfg, s, text, ok), json)
  {}

  /** How many of the first n steps of a run are of the given kind. */
  ghost function Count(states: seq<State>, steps: seq<Step>, n: nat, kind: (State, Step) -> bool): nat
    requires n <= |steps| <= |states|
  {
    if n == 0 then 0 else Count(states, steps, n - 1, kind) + (if kind(states[n - 1], steps[n - 1]) then 1 else 0)
  }

  function Submits(json: Json): (State, Step) -> bool { (s: State, step: Step) => IsSubmit(step, json) }

  function Delivers(json: Json): (State, Step) -> bool { (s: State, step: Step) => step == Report(json, true) }

  function Reports(json: Json): (State, Step) -> bool { (s: State, step: Step) => IsReport(step, json) }

  function QueuesAgain(json: Json): (State, Step) -> bool { (s: State, step: Step) => Queues(s, step, json) }

  function Drops(json: Json, limit: nat): (State, Step) -> bool {
    (s: State, step: Step) => Rejects(s, step, json) && |s.file| >= limit
  }

  /** What the steps so far say about where the message is. */
  ghost predicate Tallied(limit: nat, found: Bag, states: seq<State>, steps: seq<Step>, n: nat, json: Json)
    requires n <= |steps| < |states|
  {
    && states[n].submitted[json] == found[json] + Count(states, steps, n, Submits(json))
    && states[n].delivered[json] == Count(states, steps, n, Delivers(json))
    && states[n].dropped[json] == Count(states, steps, n, Drops(json, limit))
    && states[n].inFlight[json] + Count(states, steps, n, Reports(json)) == Count(states, steps, n, QueuesAgain(json))
  }

  lemma OneMoreTallied(limit: nat, found: Bag, states: seq<State>, steps: seq<Step>, n: nat, json: Json)
    requires n < |steps| < |states| && Tallied(limit, found, states, steps, n, json)
    requires Counted(limit, states[n], steps[n], states[n + 1], json)
    ensures Tallied(limit, found, states, steps, n + 1, json)
  {}

  /**
   In every run, whatever the log held: a message has been delivered as often as it was reported delivered, dropped as
   often as it was rejected or failed with the log at its limit, and is in flight as often as it was queued and not yet
   reported on.
   */
  lemma {:induction false} RunCounts(cfg: Config, file: ByteString, states: seq<State>, steps: seq<Step>, n: nat, json: Json)
    requires ConfigOk(cfg) && IsRun(cfg, file, states, steps) && n <= |steps|
    ensures Tallied(cfg.limit, multiset(cfg.fmt.ParseLog(file)), states, steps, n, json)
  {
    if n > 0 {
      RunCounts(cfg, file, states, steps, n - 1, json);
      RunFits(cfg, file, states, steps, n - 1);
      StepCounts(cfg, states[n - 1], steps[n - 1], json);
      OneMoreTallied(cfg.limit, multiset(cfg.fmt.ParseLog(file)), states, steps, n - 1, json);
    }
  }

  /** Only the broker, the log and the limit account for messages, and the log is within its bound. */
  ghost predicate Accounts(cfg: Config, s: State)
    requires ConfigOk(cfg)
  {
    && s.submitted == s.delivered + Logged(cfg, s) + s.dropped
    && |s.file| <= cfg.limit + 7 + cfg.largest
  }

  lemma SettledAccounts(cfg: Config, s: State)
    requires ConfigOk(cfg) && Conserves(cfg, s) && s.inFlight == multiset{} && s.retrying == []
    ensures Accounts(cfg, s)
  {}

  /** With nothing in flight and no retry under way, that is all there is. */
  lemma SettledRunAccounts(cfg: Config, file: ByteString, states: seq<State>, steps: seq<Step>, n: nat)
    requires ConfigOk(cfg) && IsRun(cfg, file, states, steps) && n < |states|
    requires forall j :: j in cfg.fmt.ParseLog(file) ==> |j| <= cfg.largest
    requires file == [] || cfg.fmt.ParseLog(file) != []
    requires states[n].inFlight == multiset{} && states[n].retrying == []
    ensures Accounts(cfg, states[n])
  {
    RunConserves(cfg, file, states, steps, n);
    SettledAccounts(cfg, states[n]);
  }

  lemma NothingInTheMiddle(a: Bag, b: Bag, c: Bag, d: Bag, e: Bag)
    ensures a + b + c + d + e == a + c + e <==> b == multiset{} && d == multiset{}
  {
    if a + b + c + d + e == a + c + e {
      assert |b| == 0 && |d| == 0 by {
        assert |a + b + c + d + e| == |a| + |b| + |c| + |d| + |e|;
        assert |a + c + e| == |a| + |c| + |e|;
      }
    }
  }

  /**
   Exactly when a crash loses nothing: the next process finds the log, so what was submitted is accounted for by the broker,
   the log and the limit if and only if nothing was in flight or being retried.
   */
  lemma CrashLosesNothingIff(cfg: Config, s: State)
    requires ConfigOk(cfg) && Conserves(cfg, s)
    ensures s.submitted == s.delivered + Fresh(cfg, s.file).submitted + s.dropped
       <==> s.inFlight == multiset{} && s.retrying == []
  {
    NothingInTheMiddle(s.delivered, s.inFlight, Logged(cfg, s), multiset(s.retrying), s.dropped);
    if s.retrying != [] {
      assert s.retrying[0] in multiset(s.retrying);
    }
  }

  // ----- What a sequence of steps can lead to -----

  ghost predicate Leads(cfg: Config, s: State, steps: seq<Step>, t: State)
    requires ConfigOk(cfg)
    decreases |steps|
  {
    if steps == [] then s == t
    else
      var n := |steps| - 1;
      exists u :: Leads(cfg, s, steps[..n], u) && Fits(cfg, u) && Enabled(cfg, u, steps[n]) && t == Next(cfg, u, steps[n])
  }

  /** Some steps lead from one state to the other. */
  ghost predicate Reaches(cfg: Config, s: State, t: State)
    requires ConfigOk(cfg)
  {
    exists steps :: Leads(cfg, s, steps, t)
  }

  lemma ReachesItself(cfg: Config, s: State)
    requires ConfigOk(cfg)
    ensures Reaches(cfg, s, s)
  {
    assert Leads(cfg, s, [], s);
  }

  lemma ReachesNext(cfg: Config, s: State, t: State, step: Step)
    requires ConfigOk(cfg) && Reaches(cfg, s, t) && Fits(cfg, t) && Enabled(cfg, t, step)
    ensures Reaches(cfg, s, Next(cfg, t, step))
  {
    var steps :| Leads(cfg, s, steps, t);
    assert (steps + [step])[..|steps|] == steps;
    assert Leads(cfg, s, steps + [step], Next(cfg, t, step));
  }

  lemma {:induction false} LeadsOn(cfg: Config, s: State, t: State, steps: seq<Step>, u: State)
    requires ConfigOk(cfg) && Reaches(cfg, s, t) && Leads(cfg, t, steps, u)
    ensures Reaches(cfg, s, u)
    decreases |steps|
  {
    if steps != [] {
      var n := |steps| - 1;
      var v :| Leads(cfg, t, steps[..n], v) && Fits(cfg, v) && Enabled(cfg, v, steps[n]) && u == Next(cfg, v, steps[n]);
      LeadsOn(cfg, s, t, steps[..n], v);
      ReachesNext(cfg, s, v, steps[n]);
    }
  }

  lemma ReachesOn(cfg: Config, s: State, t: State, u: State)
    requires ConfigOk(cfg) && Reaches(cfg, s, t) && Reaches(cfg, t, u)
    ensures Reaches(cfg, s, u)
  {
    var steps :| Leads(cfg, t, steps, u);
    LeadsOn(cfg, s, t, steps, u);
  }

  lemma {:induction false} LeadsConserves(cfg: Config, s: State, steps: seq<Step>, t: State)
    requires ConfigOk(cfg) && Leads(cfg, s, steps, t)
    ensures Conserves(cfg, s) ==> Conserves(cfg, t)
    decreases |steps|
  {
    if steps != [] && Conserves(cfg, s) {
      var n := |steps| - 1;
      var u :| Leads(cfg, s, steps[..n], u) && Fits(cfg, u) && Enabled(cfg, u, steps[n]) && t == Next(cfg, u, steps[n]);
      LeadsConserves(cfg, s, steps[..n], u);
      StepTo(cfg, u, steps[n], t);
    }
  }

  /** Conservation is kept by whatever is reached in steps. */
  lemma ReachedConserves(cfg: Config, s: State, t: State)
    requires ConfigOk(cfg) && Reaches(cfg, s, t) && Conserves(cfg, s)
    ensures Conserves(cfg, t)
  {
    var steps :| Leads(cfg, s, steps, t);
    LeadsConserves(cfg, s, steps, t);
  }

  lemma {:induction false} SubmitAllReaches(cfg: Config, s: State, texts: seq<Json>, accepts: nat -> bool)
    requires ConfigOk(cfg) && AllSmall(cfg, texts) && Fits(cfg, s)
    ensures Reaches(cfg, s, SubmitAll(cfg, s, texts, accepts))
    decreases |texts|
  {
    if texts == [] {
      ReachesItself(cfg, s);
    } else {
      var n := |texts| - 1;
      SubmitAllReaches(cfg, s, texts[..n], accepts);
      SubmitAllFits(cfg, s, texts[..n], accepts);
      ReachesNext(cfg, s, SubmitAll(cfg, s, texts[..n], accepts), Submit(texts[n], accepts(n)));
    }
  }

  lemma TwoSubmitAllReach(cfg: Config, s: State, a: seq<Json>, b: seq<Json>, accepts: nat -> bool)
    requires ConfigOk(cfg) && AllSmall(cfg, a) && AllSmall(cfg, b) && Fits(cfg, s) && s.retrying == []
    ensures var t := SubmitAll(cfg, SubmitAll(cfg, s, a, accepts), b, accepts);
            Reaches(cfg, s, t) && Fits(cfg, t) && t.retrying == []
  {
    var t := SubmitAll(cfg, s, a, accepts);
    SubmitAllReaches(cfg, s, a, accepts);
    SubmitAllFits(cfg, s, a, accepts);
    SubmitAllSubmits(cfg, s, a, accepts);
    SubmitAllReaches(cfg, t, b, accepts);
    SubmitAllFits(cfg, t, b, accepts);
    SubmitAllSubmits(cfg, t, b, accepts);
    ReachesOn(cfg, s, t, SubmitAll(cfg, t, b, accepts));
  }

  lemma {:induction false} ResendFirstReaches(cfg: Config, s: State, accepts: nat -> bool, n: nat)
    requires ConfigOk(cfg) && Fits(cfg, s) && n <= |s.retrying|
    ensures Reaches(cfg, s, ResendFirst(cfg, s, accepts, n))
    decreases n
  {
    if n == 0 {
      ReachesItself(cfg, s);
    } else {
      ResendFirstReaches(cfg, s, accepts, n - 1);
      ResendFirstFits(cfg, s, accepts, n - 1);
      ReachesNext(cfg, s, ResendFirst(cfg, s, accepts, n - 1), Resend(accepts(n - 1)));
    }
  }

  lemma RetryReaches(cfg: Config, s: State, accepts: nat -> bool)
    requires ConfigOk(cfg) && Fits(cfg, s) && s.retrying == []
    ensures Reaches(cfg, s, Retry(cfg, s, accepts)) && Fits(cfg, Retry(cfg, s, accepts))
  {
    cfg.fmt.ParseLogIsIntactPrefix(s.file);
    var taken := TakeLog(cfg, s);
    TakeLogFits(cfg, s);
    ReachesItself(cfg, s);
    ReachesNext(cfg, s, s, BeginRetry);
    ResendFirstReaches(cfg, taken, accepts, |taken.retrying|);
    ReachesOn(cfg, s, taken, ResendFirst(cfg, taken, accepts, |taken.retrying|));
    RetryFits(cfg, s, accepts);
  }

  lemma ReportReaches(cfg: Config, s: State, t: State, json: Json, ok: bool)
    requires ConfigOk(cfg) && Reaches(cfg, s, t) && Fits(cfg, t) && json in t.inFlight
    ensures Fits(cfg, Reported(cfg, t, json, ok)) && Reaches(cfg, s, Reported(cfg, t, json, ok))
  {
    StepFits(cfg, t, Report(json, ok));
    ReachesNext(cfg, s, t, Report(json, ok));
  }
}
