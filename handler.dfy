/**
 The alarm-notification handler: resolve the chat webhook URL from the
 parameter store, then walk the SNS records in order, skipping every record
 that cannot be read or delivered, and stop at the first delivery the chat
 server accepts.

 The parameter store, the HTTP client and `json.loads` are parameters:
 `ssm` answers a parameter lookup, `replies[i]` is what the webhook answers
 when record i is posted, `decode` is the JSON decoder. The ghost outputs
 count the records the loop looks at and log the POST requests it makes.
 */
module Notifier {
  import opened JsonValues
  import opened AlarmMessage

  /** The environment variable that overrides the parameter name. */
  const ParamEnvVar := "WEBHOOK_PARAM_NAME"
  const DefaultParamName := "/rocketchat/webhook_url"

  /** `os.environ.get("WEBHOOK_PARAM_NAME", "/rocketchat/webhook_url")`. */
  function ParameterName(env: map<string, string>): (r: string)
    ensures ParamEnvVar in env ==> r == env[ParamEnvVar]
    ensures ParamEnvVar !in env ==> r == DefaultParamName
  {
    if ParamEnvVar in env then env[ParamEnvVar] else DefaultParamName
  }

  /** What the parameter store gives for a name: the decrypted value, or the
      text of the exception raised (missing parameter, access denied,
      network failure, ...). */
  datatype Fetch = Fetched(url: string) | FetchFailed(error: string)

  /** What a POST comes back with: an HTTP status, or an exception before any
      response (timeout, refused connection, unresolvable host, ...). */
  datatype HttpOutcome = Reply(status: int) | TransportError

  /** urllib's `urlopen` returns a response only for a 2xx status and raises
      HTTPError for any other, so only these replies count as delivered. */
  predicate Accepted(o: HttpOutcome)
    ensures Accepted(o) <==> o.Reply? && o.status / 100 == 2
  {
    o.Reply? && 200 <= o.status < 300
  }

  /** One POST: target, headers, JSON body and timeout in seconds. */
  datatype Request = Request(url: string, headers: seq<(string, string)>, payload: Json, timeout: nat)

  /** A logged delivery attempt: which record, and the request sent for it. */
  datatype Attempt = Attempt(record: nat, request: Request)

  /** The handler's return value. */
  datatype Response = Response(statusCode: int, body: string)

  const FetchErrorPrefix := "SSM parameter fetch error: "
  const NotifiedBody := "Rocket.Chat notified: Disk alarm"
  const NothingDeliveredBody := "No valid SNS records processed or all failed."

  /** The request that delivers an alarm's message to the webhook. */
  function PostRequest(url: string, a: Alarm): (r: Request)
    ensures r.url == url && r.timeout == 10
    ensures r.headers == [("Content-Type", "application/json")]
    ensures r.payload.JObj? && Find(r.payload.members, "text") == Some(JStr(Message(a))) && |r.payload.members| == 1
  {
    Request(url, [("Content-Type", "application/json")], Payload(Message(a)), 10)
  }

  /** What the handler makes of each record: its alarm, or `None` where it
      skips the record. */
  function Reader(decode: string -> Option<Json>): Json -> Option<Alarm>
  {
    record => RecordAlarm(record, decode)
  }

  /** `read` applied to every record. */
  function Readings(records: seq<Json>, read: Json -> Option<Alarm>): (r: seq<Option<Alarm>>)
    ensures |r| == |records|
    ensures forall i :: 0 <= i < |records| ==> r[i] == read(records[i])
  {
    seq(|records|, i requires 0 <= i < |records| => read(records[i]))
  }

  /** The requests the handler sends while it walks the first n records,
      given what it reads in each: one for each readable record, in order. */
  function Attempted(url: string, alarms: seq<Option<Alarm>>, n: nat): seq<Attempt>
    requires n <= |alarms|
  {
    if n == 0 then []
    else if alarms[n - 1].Some? then Attempted(url, alarms, n - 1) + [Attempt(n - 1, PostRequest(url, alarms[n - 1].value))]
    else Attempted(url, alarms, n - 1)
  }

  /** The log's records are below n and strictly increasing. */
  predicate InOrderBelow(log: seq<Attempt>, n: nat)
  {
    (forall k :: 0 <= k < |log| ==> log[k].record < n) &&
    (forall k, l :: 0 <= k < l < |log| ==> log[k].record < log[l].record)
  }

  /** Attempts follow record order, one at most per record, and never reach
      past the records walked. */
  lemma {:induction false} AttemptedInOrder(url: string, alarms: seq<Option<Alarm>>, n: nat)
    requires n <= |alarms|
    ensures InOrderBelow(Attempted(url, alarms, n), n)
  {
    if n > 0 {
      AttemptedInOrder(url, alarms, n - 1);
      var prev := Attempted(url, alarms, n - 1);
      var log := Attempted(url, alarms, n);
      if alarms[n - 1].Some? {
        assert log == prev + [Attempt(n - 1, PostRequest(url, alarms[n - 1].value))];
      }
    }
  }

  /** Every logged attempt posts the message of a readable record. */
  predicate PostsReadable(log: seq<Attempt>, url: string, alarms: seq<Option<Alarm>>)
  {
    forall k :: 0 <= k < |log| ==>
      log[k].record < |alarms| && alarms[log[k].record].Some? &&
      log[k].request == PostRequest(url, alarms[log[k].record].value)
  }

  /** Every attempt posts the message of a readable record to the webhook. */
  lemma {:induction false} AttemptedRequests(url: string, alarms: seq<Option<Alarm>>, n: nat)
    requires n <= |alarms|
    ensures PostsReadable(Attempted(url, alarms, n), url, alarms)
  {
    if n > 0 {
      AttemptedRequests(url, alarms, n - 1);
      var prev := Attempted(url, alarms, n - 1);
      if alarms[n - 1].Some? {
        assert Attempted(url, alarms, n) == prev + [Attempt(n - 1, PostRequest(url, alarms[n - 1].value))];
      }
    }
  }

  /** Record j appears in the log. */
  predicate IsAttempted(log: seq<Attempt>, j: nat)
  {
    exists k :: 0 <= k < |log| && log[k].record == j
  }

  /** A record among the first n is attempted exactly when it can be read:
      the unreadable ones are skipped and the walk goes on. */
  lemma {:induction false} AttemptedExactlyReadable(url: string, alarms: seq<Option<Alarm>>, n: nat, j: nat)
    requires j < n <= |alarms|
    ensures alarms[j].Some? <==> IsAttempted(Attempted(url, alarms, n), j)
  {
    var log := Attempted(url, alarms, n);
    var prev := Attempted(url, alarms, n - 1);
    AttemptedInOrder(url, alarms, n - 1);
    if j < n - 1 {
      AttemptedExactlyReadable(url, alarms, n - 1, j);
      if alarms[j].Some? {
        var k :| 0 <= k < |prev| && prev[k].record == j;
        assert log[k] == prev[k];
        assert 0 <= k < |log| && log[k].record == j;
      } else {
        forall k | 0 <= k < |log| ensures log[k].record != j {
          if k < |prev| {
            assert log[k] == prev[k];
          }
        }
      }
    } else {
      if alarms[j].Some? {
        assert log[|log| - 1].record == j;
      } else {
        assert log == prev;
      }
    }
  }

  /** Record i is read and its delivery accepted. */
  predicate Delivers(alarms: seq<Option<Alarm>>, replies: seq<HttpOutcome>, i: int)
  {
    0 <= i < |alarms| && i < |replies| && alarms[i].Some? && Accepted(replies[i])
  }

  /** Record i is the first that delivers. */
  predicate FirstDelivery(alarms: seq<Option<Alarm>>, replies: seq<HttpOutcome>, i: int)
  {
    Delivers(alarms, replies, i) && forall j :: 0 <= j < i ==> !Delivers(alarms, replies, j)
  }

  /** The response the record loop owes when it starts at record i: that of
      the first delivering record from i on, or the fallback when none
      delivers. */
  function ResponseFrom(alarms: seq<Option<Alarm>>, replies: seq<HttpOutcome>, i: nat): Response
    decreases |alarms| - i
  {
    if i >= |alarms| then Response(200, NothingDeliveredBody)
    else if Delivers(alarms, replies, i) then Response(replies[i].status, NotifiedBody)
    else ResponseFrom(alarms, replies, i + 1)
  }

  /** When record i is the first to deliver, the loop answers with record i's
      status and the "notified" body. */
  lemma {:induction false} ResponseOfFirstDelivery(alarms: seq<Option<Alarm>>, replies: seq<HttpOutcome>, k: nat, i: nat)
    requires k <= i && FirstDelivery(alarms, replies, i)
    ensures ResponseFrom(alarms, replies, k) == Response(replies[i].status, NotifiedBody)
    decreases i - k
  {
    if k < i {
      assert !Delivers(alarms, replies, k);
      ResponseOfFirstDelivery(alarms, replies, k + 1, i);
    }
  }

  /** When no record from k on delivers, the loop answers 200 with the
      "nothing processed" body. */
  lemma {:induction false} ResponseOfNoDelivery(alarms: seq<Option<Alarm>>, replies: seq<HttpOutcome>, k: nat)
    requires forall j :: k <= j < |alarms| ==> !Delivers(alarms, replies, j)
    ensures ResponseFrom(alarms, replies, k) == Response(200, NothingDeliveredBody)
    decreases |alarms| - k
  {
    if k < |alarms| {
      ResponseOfNoDelivery(alarms, replies, k + 1);
    }
  }

  /** No logged attempt, except perhaps the last `spare` ones, was accepted. */
  predicate RefusedBefore(log: seq<Attempt>, replies: seq<HttpOutcome>, spare: nat)
  {
    forall k :: 0 <= k < |log| - spare ==> log[k].record < |replies| && !Accepted(replies[log[k].record])
  }

  /** When record i is the first to deliver, the requests up to it are all
      refused or lost except the last, which is record i's own: at most one
      delivery per invocation, and nothing after record i is attempted. */
  lemma {:induction false} AtMostOneDelivery(url: string, alarms: seq<Option<Alarm>>, replies: seq<HttpOutcome>, i: nat)
    requires |replies| == |alarms| && FirstDelivery(alarms, replies, i)
    ensures |Attempted(url, alarms, i + 1)| > 0
    ensures Attempted(url, alarms, i + 1)[|Attempted(url, alarms, i + 1)| - 1].record == i
    ensures InOrderBelow(Attempted(url, alarms, i + 1), i + 1)
    ensures RefusedBefore(Attempted(url, alarms, i + 1), replies, 1)
  {
    var log := Attempted(url, alarms, i + 1);
    AttemptedInOrder(url, alarms, i + 1);
    AttemptedRequests(url, alarms, i + 1);
    assert log == Attempted(url, alarms, i) + [Attempt(i, PostRequest(url, alarms[i].value))];
    forall k | 0 <= k < |log| - 1 ensures log[k].record < |replies| && !Accepted(replies[log[k].record]) {
      assert log[k].record < log[|log| - 1].record;
      assert !Delivers(alarms, replies, log[k].record);
    }
  }

  /** When no record delivers, every request made was refused or lost. */
  lemma NoDeliveryAllRefused(url: string, alarms: seq<Option<Alarm>>, replies: seq<HttpOutcome>)
    requires |replies| == |alarms|
    requires forall j :: 0 <= j < |alarms| ==> !Delivers(alarms, replies, j)
    ensures RefusedBefore(Attempted(url, alarms, |alarms|), replies, 0)
  {
    var log := Attempted(url, alarms, |alarms|);
    AttemptedRequests(url, alarms, |alarms|);
    forall k | 0 <= k < |log| ensures log[k].record < |replies| && !Accepted(replies[log[k].record]) {
      assert !Delivers(alarms, replies, log[k].record);
    }
  }

  /** The record loop of `lambda_handler`, for a given way `read` of reading
      one record. */
  method RecordLoop(url: string, records: seq<Json>, read: Json -> Option<Alarm>, replies: seq<HttpOutcome>)
    returns (r: Response, ghost examined: nat, ghost log: seq<Attempt>)
    requires |replies| == |records|
    ensures r == ResponseFrom(Readings(records, read), replies, 0)
    ensures examined <= |records|
    ensures log == Attempted(url, Readings(records, read), examined)
    ensures r.body == NotifiedBody ==>
              0 < examined && FirstDelivery(Readings(records, read), replies, examined - 1) &&
              r.statusCode == replies[examined - 1].status
    ensures r.body != NotifiedBody ==>
              r == Response(200, NothingDeliveredBody) && examined == |records| &&
              forall j :: 0 <= j < |records| ==> !Delivers(Readings(records, read), replies, j)
  {
    ghost var alarms := Readings(records, read);
    var i := 0;
    log := [];
    while i < |records|
      invariant 0 <= i <= |records|
      invariant forall j :: 0 <= j < i ==> !Delivers(alarms, replies, j)
      invariant log == Attempted(url, alarms, i)
      invariant ResponseFrom(alarms, replies, 0) == ResponseFrom(alarms, replies, i)
    {
      var reading := read(records[i]);
      if reading.Some? {
        var request := PostRequest(url, reading.value);
        log := log + [Attempt(i, request)];
        var outcome := replies[i];
        if Accepted(outcome) {
          r, examined := Response(outcome.status, NotifiedBody), i + 1;
          return;
        }
      }
      i := i + 1;
    }
    r, examined := Response(200, NothingDeliveredBody), i;
  }

  /** `lambda_handler`. `examined` counts the records the loop takes up and
      `log` holds the POST requests made, in order. */
  method LambdaHandler(env: map<string, string>, ssm: string -> Fetch, records: seq<Json>,
                       decode: string -> Option<Json>, replies: seq<HttpOutcome>)
    returns (r: Response, ghost examined: nat, ghost log: seq<Attempt>)
    requires |replies| == |records|
    ensures ssm(ParameterName(env)).Fetched? ==>
              r == ResponseFrom(Readings(records, Reader(decode)), replies, 0)
    ensures examined <= |records|
    ensures ssm(ParameterName(env)).FetchFailed? ==>
              r == Response(500, FetchErrorPrefix + ssm(ParameterName(env)).error) && examined == 0 && log == []
    ensures ssm(ParameterName(env)).Fetched? ==>
              log == Attempted(ssm(ParameterName(env)).url, Readings(records, Reader(decode)), examined)
    ensures ssm(ParameterName(env)).Fetched? && r.body == NotifiedBody ==>
              0 < examined && FirstDelivery(Readings(records, Reader(decode)), replies, examined - 1) &&
              r.statusCode == replies[examined - 1].status
    ensures ssm(ParameterName(env)).Fetched? && r.body != NotifiedBody ==>
              r == Response(200, NothingDeliveredBody) && examined == |records| &&
              forall j :: 0 <= j < |records| ==> !Delivers(Readings(records, Reader(decode)), replies, j)
  {
    var fetched := ssm(ParameterName(env));
    if fetched.FetchFailed? {
      r, examined, log := Response(500, FetchErrorPrefix + fetched.error), 0, [];
      return;
    }
    var read := Reader(decode);
    r, examined, log := RecordLoop(fetched.url, records, read, replies);
  }
}
