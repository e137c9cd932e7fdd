/** Polling Apollo Uplink (crates/apollo-mcp-registry/src/uplink.rs): the endpoints tried on each poll, and the loop
    that sends what the polls return. What the servers answer, and whether the receiver is still there, is chosen by
    the environment. */
module Uplink {
  import opened GraphQL

  type Url = string

  datatype Response =
    | New(response: string, id: string, delay: nat)
    | Unchanged(newId: Option<string>, newDelay: Option<nat>)
    | Error(retryLater: bool, code: string, message: string)

  /** What one request to one endpoint comes to. A new response is also passed through a transformation, which may
      fail. */
  datatype Answer =
    | HttpFailure
    | NoData
    | Untransformable
    | Answered(value: Response)

  datatype FetchError =
    | Http
    | FetchFailedSingle
    | FetchFailedMultiple(urlCount: nat)
    | UplinkError(code: string, message: string)
    | UplinkErrorNoRetry(code: string, message: string)
  {
    /** Whether the poll loop goes on after this error. */
    predicate IsTransient() {
      !UplinkErrorNoRetry?
    }
  }

  datatype Result<T, E> = Ok(value: T) | Err(error: E)

  // ---------- One poll ----------

  /** The number of requests a poll makes: up to the first endpoint that answers, or all of them. */
  function Tries(answers: seq<Answer>): (k: nat)
    ensures k <= |answers|
  {
    if answers == [] then 0 else if answers[0].Answered? then 1 else 1 + Tries(answers[1..])
  }

  function FirstAnswer(answers: seq<Answer>): Option<Response> {
    if answers == [] then None else if answers[0].Answered? then Some(answers[0].value) else FirstAnswer(answers[1..])
  }

  /** The first answer; without one the poll failed. */
  function Outcome(answers: seq<Answer>): Result<Response, FetchError> {
    match FirstAnswer(answers)
    case Some(response) => Ok(response)
    case None => if |answers| == 1 then Err(FetchFailedSingle) else Err(FetchFailedMultiple(|answers|))
  }

  /** A poll that no endpoint answers fails with a transient error. */
  lemma FetchErrorsAreTransient(answers: seq<Answer>)
    ensures Outcome(answers).Err? ==> Outcome(answers).error.IsTransient()
  {
  }

  lemma {:induction false} TriesEndAtFirstAnswer(answers: seq<Answer>, k: nat)
    requires k <= |answers| && forall i :: 0 <= i < k ==> !answers[i].Answered?
    ensures k < |answers| && answers[k].Answered? ==>
              Tries(answers) == k + 1 && FirstAnswer(answers) == Some(answers[k].value)
    ensures k == |answers| ==> Tries(answers) == k && FirstAnswer(answers) == None
  {
    if k > 0 {
      TriesEndAtFirstAnswer(answers[1..], k - 1);
    }
  }

  /** `k` elements of the endless repetition of `urls`, from position `start`. */
  function Cycle(urls: seq<Url>, start: nat, k: nat): (r: seq<Url>)
    requires |urls| > 0
    ensures |r| == k
  {
    seq(k, i requires 0 <= i < k => urls[(start + i) % |urls|])
  }

  lemma NothingTried(urls: seq<Url>, start: nat)
    requires |urls| > 0
    ensures Cycle(urls, start, 0) == []
  {
  }

  lemma CycleAppend(urls: seq<Url>, start: nat, a: nat, b: nat)
    requires |urls| > 0
    ensures Cycle(urls, start, a) + Cycle(urls, start + a, b) == Cycle(urls, start, a + b)
  {
  }

  lemma ModUnique(x: int, n: nat, q: int, r: int)
    requires 0 <= r < n && x == q * n + r
    ensures x % n == r
  {
    var d := q - x / n;
    assert d * n == x % n - r;
    MultipleGrows(d, n);
  }

  lemma MultipleGrows(d: int, n: nat)
    ensures d >= 1 ==> d * n >= n
    ensures d <= -1 ==> d * n <= -(n as int)
  {
  }

  lemma ModAdd(a: nat, i: nat, n: nat)
    requires n > 0
    ensures (a % n + i) % n == (a + i) % n
  {
    var b := a % n + i;
    assert a + i == (a / n + b / n) * n + b % n;
    ModUnique(a + i, n, a / n + b / n, b % n);
  }

  lemma CycleFromRemainder(urls: seq<Url>, start: nat, k: nat)
    requires |urls| > 0
    ensures Cycle(urls, start % |urls|, k) == Cycle(urls, start, k)
  {
    forall i | 0 <= i < k
      ensures Cycle(urls, start % |urls|, k)[i] == Cycle(urls, start, k)[i]
    {
      ModAdd(start, i, |urls|);
    }
  }

  lemma ModSplit(m: nat, i: nat, n: nat)
    requires m < n && i < n
    ensures (m + i) % n == if m + i < n then m + i else m + i - n
  {
    if m + i < n {
      ModUnique(m + i, n, 0, m + i);
    } else {
      ModUnique(m + i, n, 1, m + i - n);
    }
  }

  /** What one poll tries is part of one way around: no endpoint comes up twice, and all do when none answers. */
  lemma RoundIsRotation(urls: seq<Url>, start: nat, k: nat)
    requires |urls| > 0 && k <= |urls|
    ensures var rotated := urls[start % |urls|..] + urls[..start % |urls|];
            && multiset(rotated) == multiset(urls)
            && Cycle(urls, start, k) == rotated[..k]
  {
    var m := start % |urls|;
    var rotated := urls[m..] + urls[..m];
    assert urls == urls[..m] + urls[m..];
    CycleFromRemainder(urls, start, k);
    forall i | 0 <= i < k
      ensures Cycle(urls, m, k)[i] == rotated[i]
    {
      ModSplit(m, i, |urls|);
    }
  }

  // ---------- Runs ----------

  /** What the environment does during one poll: the answers of the endpoints in the order they are tried, and whether
      the receiver takes an item. */
  datatype Round = Round(answers: seq<Answer>, open: bool)

  /** One poll of a run: the id sent, the endpoints tried, the outcome, the item pushed to the stream and whether it
      was taken, and the sleep that follows. */
  datatype Poll = Poll(
    sentId: Option<string>,
    tried: seq<Url>,
    outcome: Result<Response, FetchError>,
    item: Option<Result<string, FetchError>>,
    taken: bool,
    sleep: nat)

  /** The item that an outcome is turned into. */
  function ItemOf(outcome: Result<Response, FetchError>): Option<Result<string, FetchError>> {
    match outcome
    case Ok(New(response, _, _)) => Some(Ok(response))
    case Ok(Unchanged(_, _)) => None
    case Ok(Error(retryLater, code, message)) =>
      Some(Err(if retryLater then UplinkError(code, message) else UplinkErrorNoRetry(code, message)))
    case Err(e) => Some(Err(e))
  }

  /** The loop ends after an item that is not taken, and after an error that is not transient. */
  predicate Ends(p: Poll) {
    p.item.Some? && (!p.taken || (p.item.value.Err? && !p.item.value.error.IsTransient()))
  }

  function IdAfter(outcome: Result<Response, FetchError>, id: Option<string>): Option<string> {
    match outcome
    case Ok(New(_, newId, _)) => Some(newId)
    case Ok(Unchanged(Some(newId), _)) => Some(newId)
    case _ => id
  }

  function DelayAfter(outcome: Result<Response, FetchError>, delay: nat): nat {
    match outcome
    case Ok(New(_, _, newDelay)) => newDelay
    case Ok(Unchanged(_, Some(newDelay))) => newDelay
    case _ => delay
  }

  /** The id of the latest response that carried one: new responses do, unchanged ones may, errors never do. */
  function LatestId(polls: seq<Poll>): Option<string> {
    if polls == [] then None else IdAfter(polls[|polls| - 1].outcome, LatestId(polls[..|polls| - 1]))
  }

  /** The delay of the latest response that carried one, or the configured interval. */
  function LatestDelay(polls: seq<Poll>, configured: nat): nat {
    if polls == [] then configured else
    DelayAfter(polls[|polls| - 1].outcome, LatestDelay(polls[..|polls| - 1], configured))
  }

  function Tried(polls: seq<Poll>): seq<Url> {
    if polls == [] then [] else Tried(polls[..|polls| - 1]) + polls[|polls| - 1].tried
  }

  /** A run is faithful to its rounds: outcomes come from the answers, items from the outcomes, the id sent is the
      latest one received, errors change neither id nor delay, and only the last poll may end it. */
  ghost predicate Faithful(rounds: seq<Round>, configured: nat, polls: seq<Poll>) {
    polls == [] ||
    var n := |polls| - 1;
    && n < |rounds|
    && Faithful(rounds, configured, polls[..n])
    && FaithfulPoll(rounds[n], configured, polls[..n], polls[n])
    && (n > 0 ==> !Ends(polls[n - 1]))
  }

  /** What faithfulness says of any one poll, and of the run before it. */
  lemma {:induction false} FaithfulAt(rounds: seq<Round>, configured: nat, polls: seq<Poll>, i: nat)
    requires Faithful(rounds, configured, polls) && i < |polls|
    ensures |polls| <= |rounds|
    ensures Faithful(rounds, configured, polls[..i]) && FaithfulPoll(rounds[i], configured, polls[..i], polls[i])
    ensures i < |polls| - 1 ==> !Ends(polls[i])
  {
    hide FaithfulPoll, Ends;
    var n := |polls| - 1;
    if i < n {
      assert polls[..n][..i] == polls[..i];
      FaithfulAt(rounds, configured, polls[..n], i);
    } else if n > 0 {
      FaithfulAt(rounds, configured, polls[..n], n - 1);
    }
  }

  ghost predicate FaithfulPoll(round: Round, configured: nat, before: seq<Poll>, p: Poll) {
    && p.sentId == LatestId(before)
    && p.outcome == Outcome(round.answers) && |p.tried| == Tries(round.answers)
    && p.item == ItemOf(p.outcome) && p.taken == round.open
    && p.sleep == LatestDelay(before + [p], configured)
  }

  // ---------- Runs, in terms of the answers alone ----------

  /** The first of the answers that is one. */
  ghost predicate AnsweredFirst(answers: seq<Answer>, response: Response) {
    exists k :: 0 <= k < |answers| && answers[k] == Answered(response)
                && forall i :: 0 <= i < k ==> !answers[i].Answered?
  }

  ghost predicate NoneAnswers(answers: seq<Answer>) {
    forall i :: 0 <= i < |answers| ==> !answers[i].Answered?
  }

  lemma {:induction false} FirstAnswerIs(answers: seq<Answer>)
    ensures forall response :: AnsweredFirst(answers, response) <==> FirstAnswer(answers) == Some(response)
    ensures NoneAnswers(answers) <==> FirstAnswer(answers) == None
  {
    var k := 0;
    while k < |answers| && !answers[k].Answered?
      invariant k <= |answers| && forall i :: 0 <= i < k ==> !answers[i].Answered?
    {
      k := k + 1;
    }
    TriesEndAtFirstAnswer(answers, k);
    if k < |answers| {
      assert answers[k] == Answered(answers[k].value);
      forall response | AnsweredFirst(answers, response)
        ensures response == answers[k].value
      {
        var j :| 0 <= j < |answers| && answers[j] == Answered(response)
                 && forall i :: 0 <= i < j ==> !answers[i].Answered?;
        assert j == k;
      }
    }
  }

  /** What a poll pushes to the stream: the response of a new one, nothing for an unchanged one, a lasting error for one
      that says not to try again later, and otherwise an error that passes. */
  ghost predicate Pushes(answers: seq<Answer>, item: Option<Result<string, FetchError>>) {
    && (forall response, id, delay :: AnsweredFirst(answers, New(response, id, delay)) ==> item == Some(Ok(response)))
    && (forall id, delay :: AnsweredFirst(answers, Unchanged(id, delay)) ==> item == None)
    && (forall code, message :: AnsweredFirst(answers, Error(true, code, message)) ==>
          item == Some(Err(UplinkError(code, message))))
    && (forall code, message :: AnsweredFirst(answers, Error(false, code, message)) ==>
          item == Some(Err(UplinkErrorNoRetry(code, message))))
    && (NoneAnswers(answers) && |answers| == 1 ==> item == Some(Err(FetchFailedSingle)))
    && (NoneAnswers(answers) && |answers| != 1 ==> item == Some(Err(FetchFailedMultiple(|answers|))))
  }

  /** No poll follows: an error says not to try again, or the receiver is gone when there is something to push. */
  ghost predicate Stops(round: Round) {
    || (exists code, message :: AnsweredFirst(round.answers, Error(false, code, message)))
    || (!round.open && !exists id, delay :: AnsweredFirst(round.answers, Unchanged(id, delay)))
  }

  /** A new response carries an id and a delay; an unchanged one may. */
  ghost predicate CarriesId(answers: seq<Answer>, id: string) {
    || (exists response, delay :: AnsweredFirst(answers, New(response, id, delay)))
    || (exists delay :: AnsweredFirst(answers, Unchanged(Some(id), delay)))
  }

  ghost predicate CarriesDelay(answers: seq<Answer>, delay: nat) {
    || (exists response, id :: AnsweredFirst(answers, New(response, id, delay)))
    || (exists id :: AnsweredFirst(answers, Unchanged(id, Some(delay))))
  }

  /** Of the first `n` rounds, the last that carries an id carries this one, if any does. */
  ghost predicate LatestIdIn(rounds: seq<Round>, n: nat, id: Option<string>)
    requires n <= |rounds|
  {
    match id
    case None => forall j, x :: 0 <= j < n ==> !CarriesId(rounds[j].answers, x)
    case Some(x) =>
      exists j :: 0 <= j < n && CarriesId(rounds[j].answers, x)
                  && forall k, y :: j < k < n ==> !CarriesId(rounds[k].answers, y)
  }

  ghost predicate LatestDelayIn(rounds: seq<Round>, n: nat, configured: nat, delay: nat)
    requires n <= |rounds|
  {
    || (delay == configured && forall j, x :: 0 <= j < n ==> !CarriesDelay(rounds[j].answers, x))
    || exists j :: 0 <= j < n && CarriesDelay(rounds[j].answers, delay)
                   && forall k, y :: j < k < n ==> !CarriesDelay(rounds[k].answers, y)
  }

  lemma OutcomePushes(answers: seq<Answer>)
    ensures Pushes(answers, ItemOf(Outcome(answers)))
  {
    hide AnsweredFirst, NoneAnswers, FirstAnswer;
    FirstAnswerIs(answers);
  }

  lemma EndsIffStops(round: Round, p: Poll)
    requires p.item == ItemOf(Outcome(round.answers)) && p.taken == round.open
    ensures Ends(p) <==> Stops(round)
  {
    hide AnsweredFirst, NoneAnswers, FirstAnswer;
    FirstAnswerIs(round.answers);
  }

  lemma CarriedId(answers: seq<Answer>, before: Option<string>)
    ensures var after := IdAfter(Outcome(answers), before);
            || (after == before && forall x :: !CarriesId(answers, x))
            || (after.Some? && forall x :: CarriesId(answers, x) <==> x == after.value)
  {
    hide AnsweredFirst, NoneAnswers, FirstAnswer;
    FirstAnswerIs(answers);
    var outcome := Outcome(answers);
    if outcome.Ok? {
      assert FirstAnswer(answers) == Some(outcome.value);
    }
  }

  lemma CarriedDelay(answers: seq<Answer>, before: nat)
    ensures var after := DelayAfter(Outcome(answers), before);
            || (after == before && forall x :: !CarriesDelay(answers, x))
            || (forall x :: CarriesDelay(answers, x) <==> x == after)
  {
    hide AnsweredFirst, NoneAnswers, FirstAnswer;
    FirstAnswerIs(answers);
    var outcome := Outcome(answers);
    if outcome.Ok? {
      assert FirstAnswer(answers) == Some(outcome.value);
    }
  }

  /** The id sent is the latest that an answer carried, and so is the delay of the sleep. */
  lemma {:induction false} LatestAreIn(rounds: seq<Round>, configured: nat, polls: seq<Poll>)
    requires Faithful(rounds, configured, polls)
    ensures |polls| <= |rounds| && LatestIdIn(rounds, |polls|, LatestId(polls))
    ensures LatestDelayIn(rounds, |polls|, configured, LatestDelay(polls, configured))
  {
    hide CarriesId, CarriesDelay, Outcome, IdAfter, DelayAfter, Ends, ItemOf, Tries;
    if polls != [] {
      var n := |polls| - 1;
      LatestAreIn(rounds, configured, polls[..n]);
      CarriedId(rounds[n].answers, LatestId(polls[..n]));
      CarriedDelay(rounds[n].answers, LatestDelay(polls[..n], configured));
    }
  }

  /** What happens at one poll of a faithful run, in terms of the answers up to it. */
  lemma FaithfulSays(rounds: seq<Round>, configured: nat, polls: seq<Poll>, i: nat)
    requires Faithful(rounds, configured, polls) && i < |polls|
    ensures |polls| <= |rounds| && Pushes(rounds[i].answers, polls[i].item)
    ensures LatestIdIn(rounds, i, polls[i].sentId) && LatestDelayIn(rounds, i + 1, configured, polls[i].sleep)
    ensures i < |polls| - 1 ==> !Stops(rounds[i])
    ensures Ends(polls[i]) <==> Stops(rounds[i])
  {
    hide Pushes, Stops, Ends, LatestIdIn, LatestDelayIn, Outcome, ItemOf, Tries, LatestId, LatestDelay;
    FaithfulAt(rounds, configured, polls, i);
    if i + 1 < |polls| {
      FaithfulAt(rounds, configured, polls, i + 1);
    } else {
      assert polls[..i + 1] == polls;
    }
    assert polls[..i] + [polls[i]] == polls[..i + 1];
    LatestAreIn(rounds, configured, polls[..i]);
    LatestAreIn(rounds, configured, polls[..i + 1]);
    OutcomePushes(rounds[i].answers);
    EndsIffStops(rounds[i], polls[i]);
  }

  /** At this poll of a run: what is pushed, the id sent and the delay slept follow from the answers; and there is
      another poll, as long as there are rounds, exactly when nothing stops the polling. */
  ghost predicate Says(rounds: seq<Round>, configured: nat, polls: seq<Poll>, i: nat)
    requires i < |polls| <= |rounds|
  {
    && Pushes(rounds[i].answers, polls[i].item)
    && LatestIdIn(rounds, i, polls[i].sentId) && LatestDelayIn(rounds, i + 1, configured, polls[i].sleep)
    && (i + 1 < |rounds| ==> (i + 1 < |polls| <==> !Stops(rounds[i])))
  }

  lemma RunSays(rounds: seq<Round>, configured: nat, polls: seq<Poll>)
    requires Faithful(rounds, configured, polls)
    requires |polls| < |rounds| ==> polls != [] && Ends(polls[|polls| - 1])
    ensures |polls| <= |rounds| && forall i :: 0 <= i < |polls| ==> Says(rounds, configured, polls, i)
  {
    hide Pushes, Stops, Ends, LatestIdIn, LatestDelayIn, Faithful;
    if polls != [] {
      FaithfulAt(rounds, configured, polls, 0);
    }
    forall i | 0 <= i < |polls|
      ensures |polls| <= |rounds| && Says(rounds, configured, polls, i)
    {
      FaithfulSays(rounds, configured, polls, i);
    }
  }

  class Endpoints {
    const urls: seq<Url>
    const roundRobin: bool
    var current: nat

    constructor Fallback(urls: seq<Url>)
      ensures this.urls == urls && !roundRobin
    {
      this.urls, roundRobin, current := urls, false, 0;
    }

    constructor RoundRobin(urls: seq<Url>)
      ensures this.urls == urls && roundRobin && current == 0
    {
      this.urls, roundRobin, current := urls, true, 0;
    }

    /** Ask one endpoint after another until one answers. Round robin goes on where the last poll stopped; fallback
        starts over. The remainder of the position by the number of urls is not defined for none. */
    method Fetch(answers: seq<Answer>) returns (outcome: Result<Response, FetchError>, tried: seq<Url>)
      requires |answers| == |urls| && (roundRobin ==> |urls| > 0)
      modifies this`current
      ensures outcome == Outcome(answers)
      ensures !roundRobin ==> tried == urls[..Tries(answers)]
      ensures roundRobin ==>
                && tried == Cycle(urls, old(current), Tries(answers))
                && current % |urls| == (old(current) + Tries(answers)) % |urls|
                && current < 2 * |urls|
    {
      if roundRobin {
        current := current % |urls|;
      }
      ghost var start := current;
      tried := [];
      var k := 0;
      while k < |answers|
        invariant 0 <= k <= |answers| && |tried| == k
        invariant forall i :: 0 <= i < k ==> !answers[i].Answered?
        invariant !roundRobin ==> tried == urls[..k] && current == start
        invariant roundRobin ==> tried == Cycle(urls, start, k) && current == start + k
      {
        var url := if roundRobin then urls[current % |urls|] else urls[k];
        if roundRobin {
          current := current + 1;
        }
        tried := tried + [url];
        if answers[k].Answered? {
          TriesEndAtFirstAnswer(answers, k);
          outcome := Ok(answers[k].value);
          if roundRobin {
            CycleFromRemainder(urls, old(current), k + 1);
            ModAdd(old(current), k + 1, |urls|);
          }
          return;
        }
        k := k + 1;
      }
      TriesEndAtFirstAnswer(answers, k);
      outcome := if |urls| == 1 then Err(FetchFailedSingle) else Err(FetchFailedMultiple(|urls|));
      if roundRobin {
        CycleFromRemainder(urls, old(current), k);
        ModAdd(old(current), k, |urls|);
      }
    }
  }

  /** The urls tried so far are the cycle from where it started, and the next poll goes on there. Without round robin,
      each poll tries the urls from the first on. */
  ghost predicate TriesInOrder(urls: seq<Url>, roundRobin: bool, start: nat, polls: seq<Poll>, current: nat) {
    if roundRobin then
      && |urls| > 0
      && Tried(polls) == Cycle(urls, start, |Tried(polls)|)
      && current % |urls| == (start + |Tried(polls)|) % |urls|
      && (polls != [] || start < 2 * |urls| ==> current < 2 * |urls|)
    else
      forall i :: 0 <= i < |polls| ==> polls[i].tried <= urls
  }

  /** The poll loop, for as many polls as the environment has rounds. */
  method PollLoop(endpoints: Endpoints, configured: nat, rounds: seq<Round>) returns (polls: seq<Poll>)
    requires forall i :: 0 <= i < |rounds| ==> |rounds[i].answers| == |endpoints.urls|
    requires endpoints.roundRobin ==> |endpoints.urls| > 0
    modifies endpoints
    ensures Faithful(rounds, configured, polls)
    ensures |polls| < |rounds| ==> polls != [] && Ends(polls[|polls| - 1])
    ensures TriesInOrder(endpoints.urls, endpoints.roundRobin, old(endpoints.current), polls, endpoints.current)
    ensures |polls| <= |rounds| && (rounds != [] ==> polls != [])
    ensures forall i :: 0 <= i < |polls| ==> Says(rounds, configured, polls, i)
  {
    hide Faithful, Cycle, Outcome, Tries, LatestId, LatestDelay, Tried, TriesInOrder, Says;
    var lastId: Option<string> := None;
    var interval := configured;
    polls := [];
    NoPolls(rounds, configured, endpoints.urls, endpoints.roundRobin, endpoints.current);
    while |polls| < |rounds|
      invariant Faithful(rounds, configured, polls)
      invariant lastId == LatestId(polls) && interval == LatestDelay(polls, configured)
      invariant polls != [] ==> !Ends(polls[|polls| - 1])
      invariant TriesInOrder(endpoints.urls, endpoints.roundRobin, old(endpoints.current), polls, endpoints.current)
      decreases |rounds| - |polls|
    {
      var round := rounds[|polls|];
      ghost var before, was := polls, endpoints.current;
      var outcome, tried := endpoints.Fetch(round.answers);
      FetchErrorsAreTransient(round.answers);
      var item: Option<Result<string, FetchError>> := None;
      var done := false;
      var sentId := lastId;
      match outcome {
        case Ok(New(response, id, delay)) =>
          lastId := Some(id);
          interval := delay;
          item := Some(Ok(response));
          done := !round.open;
        case Ok(Unchanged(id, delay)) =>
          if id.Some? {
            lastId := id;
          }
          if delay.Some? {
            interval := delay.value;
          }
        case Ok(Error(retryLater, code, message)) =>
          item := Some(Err(if retryLater then UplinkError(code, message) else UplinkErrorNoRetry(code, message)));
          done := !round.open || !retryLater;
        case Err(e) =>
          item := Some(Err(e));
          done := !round.open;
      }
      var poll := Poll(sentId, tried, outcome, item, round.open, interval);
      polls := polls + [poll];
      OnePollFaithful(rounds, configured, before, poll);
      OnePollInOrder(endpoints.urls, endpoints.roundRobin, old(endpoints.current), before, was, round.answers, poll,
                     endpoints.current);
      if done {
        break;
      }
    }
    RunSays(rounds, configured, polls);
  }

  /** One more poll of a faithful run, if it sends the latest id, turns the answers into its item and sleeps for the
      latest delay. */
  lemma OnePollFaithful(rounds: seq<Round>, configured: nat, before: seq<Poll>, p: Poll)
    requires Faithful(rounds, configured, before) && |before| < |rounds|
    requires before != [] ==> !Ends(before[|before| - 1])
    requires var round := rounds[|before|];
             && p.sentId == LatestId(before) && p.outcome == Outcome(round.answers) && |p.tried| == Tries(round.answers)
             && p.item == ItemOf(p.outcome) && p.taken == round.open
             && p.sleep == DelayAfter(p.outcome, LatestDelay(before, configured))
    ensures Faithful(rounds, configured, before + [p])
    ensures LatestId(before + [p]) == IdAfter(p.outcome, LatestId(before))
    ensures LatestDelay(before + [p], configured) == p.sleep
  {
    hide Ends, Outcome, Tries;
    assert (before + [p])[..|before|] == before;
  }

  /** The urls that one more poll tries continue those of the polls before. */
  lemma OnePollInOrder(
    urls: seq<Url>, roundRobin: bool, start: nat, before: seq<Poll>, was: nat, answers: seq<Answer>, p: Poll,
    current: nat)
    requires TriesInOrder(urls, roundRobin, start, before, was) && |answers| == |urls|
    requires if roundRobin
             then |urls| > 0 && p.tried == Cycle(urls, was, Tries(answers)) && current < 2 * |urls|
                  && current % |urls| == (was + Tries(answers)) % |urls|
             else p.tried == urls[..Tries(answers)]
    ensures TriesInOrder(urls, roundRobin, start, before + [p], current)
  {
    hide Cycle, Tries;
    assert (before + [p])[..|before|] == before;
    if roundRobin {
      GoesOn(urls, start, |Tried(before)|, was, |p.tried|);
    }
  }

  lemma NoPolls(rounds: seq<Round>, configured: nat, urls: seq<Url>, roundRobin: bool, start: nat)
    requires roundRobin ==> |urls| > 0
    ensures LatestId([]) == None && LatestDelay([], configured) == configured
    ensures Faithful(rounds, configured, []) && TriesInOrder(urls, roundRobin, start, [], start)
  {
    if roundRobin {
      NothingTried(urls, start);
    }
  }

  /** Successive polls continue one walk around the urls. */
  lemma GoesOn(urls: seq<Url>, start: nat, done: nat, current: nat, k: nat)
    requires |urls| > 0 && current % |urls| == (start + done) % |urls|
    ensures Cycle(urls, start, done) + Cycle(urls, current, k) == Cycle(urls, start, done + k)
    ensures (current + k) % |urls| == (start + done + k) % |urls|
  {
    CycleFromRemainder(urls, current, k);
    CycleFromRemainder(urls, start + done, k);
    CycleAppend(urls, start, done, k);
    ModAdd(current, k, |urls|);
    ModAdd(start + done, k, |urls|);
  }
}
