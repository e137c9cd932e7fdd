/** Polling the GraphOS Platform API for the published schema (crates/apollo-mcp-registry/src/platform_api/schema.rs).
    The registry answers each request with the publication of that moment or an error, so a publish may land between
    the two requests of one poll. */
module Platform {
  import opened GraphQL

  datatype RequestError =
    | HeaderValue
    | Request(connect: bool, timeout: bool, request: bool, status: Option<nat>)
    | Response(message: string)
  {
    predicate IsTransient() {
      && Request?
      && (connect || timeout || request || (status.Some? && (500 <= status.value < 600 || status.value == 429)))
    }
  }

  datatype Publication = Publication(hash: string, document: string)

  /** What the registry answers to one request. */
  datatype Reply = Latest(publication: Publication) | Failed(error: RequestError)

  // ---------- Start-up ----------

  /** One start-up request, and whether the receiver takes a document then. */
  datatype Attempt = Attempt(reply: Reply, open: bool)

  datatype Start = Retrying | GaveUp | ReceiverGone | Started(first: Publication)

  predicate Retried(attempt: Attempt) {
    attempt.reply.Failed? && attempt.reply.error.IsTransient()
  }

  /** Where start-up stands after the attempts. */
  function StartUp(attempts: seq<Attempt>): Start {
    if attempts == [] then Retrying else
    match attempts[0].reply
    case Latest(publication) => if attempts[0].open then Started(publication) else ReceiverGone
    case Failed(error) => if error.IsTransient() then StartUp(attempts[1..]) else GaveUp
  }

  /** Trying again does not help: the request could not be made up, the registry answered it with an error, or it was
      answered by a status that blames the request. A status of 429 or of 500 to 599 does not. */
  ghost predicate Permanent(error: RequestError) {
    match error
    case HeaderValue => true
    case Response(_) => true
    case Request(connect, timeout, request, status) =>
      && !connect && !timeout && !request
      && match status
         case None => true
         case Some(code) => code != 429 && (code <= 499 || code >= 600)
  }

  ghost predicate FailsForNow(attempt: Attempt) {
    attempt.reply.Failed? && !Permanent(attempt.reply.error)
  }

  /** `k` attempts failed for the time being, and the next one did not. */
  ghost predicate FirstSettled(attempts: seq<Attempt>, k: nat) {
    && k < |attempts| && !FailsForNow(attempts[k])
    && forall i :: 0 <= i < k ==> FailsForNow(attempts[i])
  }

  lemma RetriedIffForNow(attempt: Attempt)
    ensures Retried(attempt) <==> FailsForNow(attempt)
  {
  }

  /** The first attempt that is not retried decides: a success starts the stream with the document it fetched, unless
      the receiver is gone, and a permanent error ends it. */
  lemma {:induction false} FirstSettledDecides(attempts: seq<Attempt>, k: nat)
    requires k <= |attempts| && forall i :: 0 <= i < k ==> Retried(attempts[i])
    ensures k == |attempts| ==> StartUp(attempts) == Retrying
    ensures k < |attempts| && attempts[k].reply.Latest? ==>
              StartUp(attempts) == if attempts[k].open then Started(attempts[k].reply.publication) else ReceiverGone
    ensures k < |attempts| && attempts[k].reply.Failed? && !Retried(attempts[k]) ==> StartUp(attempts) == GaveUp
  {
    if k > 0 {
      FirstSettledDecides(attempts[1..], k - 1);
    }
  }

  lemma {:induction false} StartsIff(attempts: seq<Attempt>)
    ensures StartUp(attempts).Started? <==>
            exists k: nat :: FirstSettled(attempts, k) && attempts[k].reply.Latest? && attempts[k].open
    ensures StartUp(attempts).GaveUp? <==>
            exists k: nat :: FirstSettled(attempts, k) && attempts[k].reply.Failed?
                             && Permanent(attempts[k].reply.error)
    ensures StartUp(attempts).Retrying? <==> forall i :: 0 <= i < |attempts| ==> FailsForNow(attempts[i])
    ensures StartUp(attempts).Started? ==>
            exists k: nat :: FirstSettled(attempts, k) && attempts[k].reply == Latest(StartUp(attempts).first)
  {
    hide Permanent, RequestError.IsTransient;
    forall i | 0 <= i < |attempts|
      ensures Retried(attempts[i]) <==> FailsForNow(attempts[i])
    {
      RetriedIffForNow(attempts[i]);
    }
    var k := 0;
    while k < |attempts| && Retried(attempts[k])
      invariant k <= |attempts| && forall i :: 0 <= i < k ==> Retried(attempts[i])
    {
      k := k + 1;
    }
    FirstSettledDecides(attempts, k);
    if k < |attempts| {
      assert FirstSettled(attempts, k);
      forall j: nat | FirstSettled(attempts, j)
        ensures j == k
      {
      }
    }
  }

  // ---------- Polls ----------

  /** What the registry answers to the hash request and to the full fetch of one poll, and whether the receiver is
      still there. */
  datatype Round = Round(atHash: Reply, atFetch: Reply, open: bool)

  /** One poll: the hash compared against, the publication whose document was sent, and whether it was taken. */
  datatype Poll = Poll(currentHash: string, sent: Option<Publication>, taken: bool)

  function LastSent(first: Publication, polls: seq<Poll>): Publication {
    if polls == [] then first
    else if polls[|polls| - 1].sent.Some? then polls[|polls| - 1].sent.value
    else LastSent(first, polls[..|polls| - 1])
  }

  function SentCount(polls: seq<Poll>): nat {
    if polls == [] then 0
    else SentCount(polls[..|polls| - 1]) + if polls[|polls| - 1].sent.Some? then 1 else 0
  }

  predicate Ends(p: Poll) {
    p.sent.Some? && !p.taken
  }

  /** Against the publication sent last: its hash is the one compared, and a poll sends exactly when the registry
      reports another hash and the full fetch succeeds. What it sends is what the full fetch brought. */
  ghost predicate FaithfulPoll(round: Round, last: Publication, p: Poll) {
    && p.currentHash == last.hash && p.taken == round.open
    && (p.sent.Some? <==> round.atHash.Latest? && round.atHash.publication.hash != last.hash && round.atFetch.Latest?)
    && (p.sent.Some? ==> round.atFetch == Latest(p.sent.value))
  }

  /** Every poll of the run is faithful, and only the last may have found the receiver gone. */
  ghost predicate Faithful(first: Publication, rounds: seq<Round>, polls: seq<Poll>) {
    polls == [] ||
    var n := |polls| - 1;
    && n < |rounds|
    && Faithful(first, rounds, polls[..n])
    && FaithfulPoll(rounds[n], LastSent(first, polls[..n]), polls[n])
    && (n > 0 ==> !Ends(polls[n - 1]))
  }

  /** What faithfulness says of one poll, and of the run before it. */
  lemma {:induction false} FaithfulAt(first: Publication, rounds: seq<Round>, polls: seq<Poll>, i: nat)
    requires Faithful(first, rounds, polls) && i < |polls|
    ensures |polls| <= |rounds|
    ensures Faithful(first, rounds, polls[..i]) && FaithfulPoll(rounds[i], LastSent(first, polls[..i]), polls[i])
    ensures i < |polls| - 1 ==> !Ends(polls[i])
  {
    hide FaithfulPoll, Ends, LastSent;
    var n := |polls| - 1;
    if i < n {
      assert polls[..n][..i] == polls[..i];
      FaithfulAt(first, rounds, polls[..n], i);
    } else if n > 0 {
      FaithfulAt(first, rounds, polls[..n], n - 1);
    }
  }

  /** Start-up: fetch until a request is not to be retried. */
  method LoadFirst(attempts: seq<Attempt>) returns (start: Start, documents: seq<string>)
    ensures start == StartUp(attempts)
    ensures documents == if start.Started? then [start.first.document] else []
  {
    hide StartUp;
    start, documents := Retrying, [];
    var k := 0;
    while k < |attempts| && start == Retrying
      invariant k <= |attempts|
      invariant start == Retrying ==> forall i :: 0 <= i < k ==> Retried(attempts[i])
      invariant start != Retrying ==> start == StartUp(attempts)
      invariant documents == if start.Started? then [start.first.document] else []
    {
      FirstSettledDecides(attempts, k);
      match attempts[k].reply {
        case Latest(publication) =>
          if attempts[k].open {
            documents := [publication.document];
            start := Started(publication);
          } else {
            start := ReceiverGone;
          }
        case Failed(error) =>
          if !error.IsTransient() {
            start := GaveUp;
          }
      }
      k := k + 1;
    }
    if start == Retrying {
      FirstSettledDecides(attempts, k);
    }
  }

  /** The whole stream, for as many requests as the environment answers. No fetch error ends the polling: a run shorter
      than its rounds found the receiver gone. */
  method StreamPublishedSchema(attempts: seq<Attempt>, rounds: seq<Round>)
      returns (start: Start, documents: seq<string>, polls: seq<Poll>)
    ensures start == StartUp(attempts)
    ensures !start.Started? ==> documents == [] && polls == []
    ensures start.Started? ==>
              && Faithful(start.first, rounds, polls)
              && (|polls| < |rounds| ==> polls != [] && Ends(polls[|polls| - 1]))
              && documents == Documents(start.first, polls)
  {
    hide StartUp, Faithful, LastSent, Documents;
    start, documents := LoadFirst(attempts);
    polls := [];
    if !start.Started? {
      return;
    }
    var currentHash := start.first.hash;
    ghost var first := start.first;
    NothingPolled(first, rounds);
    while |polls| < |rounds|
      invariant Faithful(first, rounds, polls)
      invariant currentHash == LastSent(first, polls).hash
      invariant documents == Documents(first, polls)
      invariant polls != [] ==> !Ends(polls[|polls| - 1])
      decreases |rounds| - |polls|
    {
      var round := rounds[|polls|];
      ghost var before := polls;
      var poll := Poll(currentHash, None, round.open);
      // A failed request, transient or not, leaves everything as it was until the next poll.
      if round.atHash.Latest? && round.atHash.publication.hash != currentHash && round.atFetch.Latest? {
        var published := round.atFetch.publication;
        currentHash := published.hash;
        poll := poll.(sent := Some(published));
        if round.open {
          documents := documents + [published.document];
        }
      }
      polls := polls + [poll];
      OnePoll(first, before, poll);
      FaithfulAppend(first, rounds, before, poll);
      if poll.sent.Some? && !round.open {
        break;
      }
    }
  }

  /** The documents the receiver got. */
  function Documents(first: Publication, polls: seq<Poll>): seq<string> {
    if polls == [] then [first.document] else
    var p, before := polls[|polls| - 1], Documents(first, polls[..|polls| - 1]);
    if p.sent.Some? && p.taken then before + [p.sent.value.document] else before
  }

  lemma NothingPolled(first: Publication, rounds: seq<Round>)
    ensures Faithful(first, rounds, []) && LastSent(first, []) == first && Documents(first, []) == [first.document]
  {
  }

  lemma OnePoll(first: Publication, before: seq<Poll>, p: Poll)
    ensures LastSent(first, before + [p]) == if p.sent.Some? then p.sent.value else LastSent(first, before)
    ensures SentCount(before + [p]) == SentCount(before) + if p.sent.Some? then 1 else 0
    ensures p.sent.Some? && p.taken ==>
              Documents(first, before + [p]) == Documents(first, before) + [p.sent.value.document]
    ensures !(p.sent.Some? && p.taken) ==> Documents(first, before + [p]) == Documents(first, before)
  {
    assert (before + [p])[..|before|] == before;
  }

  lemma FaithfulAppend(first: Publication, rounds: seq<Round>, before: seq<Poll>, p: Poll)
    requires Faithful(first, rounds, before) && |before| < |rounds|
    requires before != [] ==> !Ends(before[|before| - 1])
    requires FaithfulPoll(rounds[|before|], LastSent(first, before), p)
    ensures Faithful(first, rounds, before + [p])
  {
    hide FaithfulPoll, Ends, LastSent;
    assert (before + [p])[..|before|] == before;
  }

  // ---------- What every run keeps ----------

  /** At every poll the hash compared against is that of the document sent last. */
  lemma HashIsOfLastDocument(first: Publication, rounds: seq<Round>, polls: seq<Poll>, i: nat)
    requires Faithful(first, rounds, polls) && i < |polls|
    ensures |polls| <= |rounds| && polls[i].currentHash == LastSent(first, polls[..i]).hash
    ensures polls[i].sent.Some? ==>
              && rounds[i].atFetch == Latest(polls[i].sent.value)
              && LastSent(first, polls[..i + 1]) == polls[i].sent.value
  {
    FaithfulAt(first, rounds, polls, i);
    assert polls[..i + 1][..i] == polls[..i];
  }

  /** Publications with the same hash have the same document. */
  ghost predicate HashIdentifies(publications: set<Publication>) {
    forall p, q :: p in publications && q in publications && p.hash == q.hash ==> p.document == q.document
  }

  ghost predicate Still(rounds: seq<Round>, i: nat, j: nat, p: Publication) {
    i <= j <= |rounds| && forall k :: i <= k < j ==>
                                        && (rounds[k].atHash.Latest? ==> rounds[k].atHash.publication == p)
                                        && (rounds[k].atFetch.Latest? ==> rounds[k].atFetch.publication == p)
  }

  lemma {:induction false} LastSentWasPublished(first: Publication, rounds: seq<Round>, polls: seq<Poll>, i: nat)
    requires Faithful(first, rounds, polls) && i <= |polls|
    ensures LastSent(first, polls[..i]) == first ||
            exists k :: 0 <= k < i && rounds[k].atFetch == Latest(LastSent(first, polls[..i]))
  {
    if i > 0 {
      LastSentWasPublished(first, rounds, polls, i - 1);
      FaithfulAt(first, rounds, polls, i - 1);
      assert polls[..i][..i - 1] == polls[..i - 1];
    }
  }

  /** Once the registry is still, one poll whose requests succeed leaves the last document sent equal to the published
      one, however publishes raced with the polls before it. */
  lemma PollCatchesUp(first: Publication, rounds: seq<Round>, polls: seq<Poll>, i: nat, p: Publication,
                      publications: set<Publication>)
    requires Faithful(first, rounds, polls) && i < |polls|
    requires rounds[i].atHash == Latest(p) && rounds[i].atFetch == Latest(p)
    requires HashIdentifies(publications) && first in publications && p in publications
    requires forall k :: 0 <= k < i && rounds[k].atFetch.Latest? ==> rounds[k].atFetch.publication in publications
    ensures LastSent(first, polls[..i + 1]) == p
  {
    LastSentWasPublished(first, rounds, polls, i);
    FaithfulAt(first, rounds, polls, i);
    assert polls[..i + 1][..i] == polls[..i];
  }

  /** And from then on nothing more is sent, whichever requests fail. */
  lemma {:induction false} StillRegistryIsQuiet(
    first: Publication, rounds: seq<Round>, polls: seq<Poll>, i: nat, j: nat, p: Publication)
    requires Faithful(first, rounds, polls) && i <= j <= |polls|
    requires LastSent(first, polls[..i]) == p && Still(rounds, i, j, p)
    ensures LastSent(first, polls[..j]) == p
    ensures forall k :: i <= k < j ==> polls[k].sent == None
  {
    if i < j {
      StillRegistryIsQuiet(first, rounds, polls, i, j - 1, p);
      FaithfulAt(first, rounds, polls, j - 1);
      assert polls[..j][..j - 1] == polls[..j - 1];
    }
  }

  /** The publication the registry showed last, and how often what it showed changed its hash. */
  function Shown(shown: Publication, reply: Reply): Publication {
    if reply.Latest? then reply.publication else shown
  }

  function LastShown(first: Publication, rounds: seq<Round>): Publication {
    if rounds == [] then first else
    var round := rounds[|rounds| - 1];
    Shown(Shown(LastShown(first, rounds[..|rounds| - 1]), round.atHash), round.atFetch)
  }

  function Change(shown: Publication, reply: Reply): nat {
    if Shown(shown, reply).hash != shown.hash then 1 else 0
  }

  function Changes(first: Publication, rounds: seq<Round>): nat {
    if rounds == [] then 0 else
    var round, shown := rounds[|rounds| - 1], LastShown(first, rounds[..|rounds| - 1]);
    Changes(first, rounds[..|rounds| - 1])
    + Change(shown, round.atHash) + Change(Shown(shown, round.atHash), round.atFetch)
  }

  /** No document is sent without a change in the registry to pay for it; while the last document sent is not the one
      shown last, one change has not been spent. */
  lemma {:induction false} SendsAtMostOncePerChange(first: Publication, rounds: seq<Round>, polls: seq<Poll>)
    requires Faithful(first, rounds, polls)
    ensures SentCount(polls)
            + (if LastShown(first, rounds[..|polls|]).hash != LastSent(first, polls).hash then 1 else 0)
         <= Changes(first, rounds[..|polls|])
  {
    if polls != [] {
      var n := |polls| - 1;
      var before := polls[..n];
      SendsAtMostOncePerChange(first, rounds, before);
      assert polls == before + [polls[n]];
      OnePoll(first, before, polls[n]);
      assert rounds[..n + 1][..n] == rounds[..n];
    }
  }
}
