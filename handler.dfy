/** The request handler: the checks of one CSP report request in their
    order, the rate-limit record it writes back, and the notification it
    hands to the mail sender. Headers, the body's length, its decoding, the
    stored record, the clock and the sender's outcome are inputs; the status
    code, the record to write and the mail are outputs. */
module Handler {
  import opened Basics
  import opened Html
  import opened RateLimit
  import opened Report

  const AllowedOrigin := "https://example.com"
  const ReportContentType := "application/csp-report"
  /** Largest accepted body, in bytes. */
  const MaxBodyBytes := 50000

  const EmailFrom := "csp-reports@example.com"
  const EmailTo := "security@example.com"
  const EmailSubject := "Content Security Policy Violation Report"

  const NoContent := 204
  const BadRequest := 400
  const Forbidden := 403
  const PayloadTooLarge := 413
  const UnsupportedMediaType := 415
  const TooManyRequests := 429
  const ServerError := 500

  /** A top-level member of the decoded body, as far as the handler cares:
      `null` (which `isset` treats as absent), an object or array with its
      entries in order, or any other scalar. */
  datatype Member = Null | Entries(fields: seq<Field>) | Scalar

  /** The outcome of `json_decode` on the body. A document that is valid
      JSON but not an object is a `Decoded` map without `csp-report`. */
  datatype Decoding = Invalid | Decoded(members: map<string, Member>)

  datatype Request = Request(
    origin: Option<string>,       // the `Origin` header, if sent
    contentType: Option<string>,  // the request's content type, if sent
    bodyLength: nat,              // the body's length in bytes
    decoding: Decoding,           // the body, decoded
    clientIp: string)             // the client address

  datatype Mail = Mail(from: string, to: string, subject: string, contentType: string, body: string)

  /** What one request leaves behind: the status code, the rate-limit record
      written back (None: storage untouched), and the mail handed to the
      sender (None: nothing sent). */
  datatype Response = Response(status: int, record: Option<seq<int>>, mail: Option<Mail>)

  predicate OriginOk(req: Request) {
    req.origin.Some? && req.origin.value == AllowedOrigin
  }

  predicate ContentTypeOk(req: Request) {
    req.contentType.Some? && req.contentType.value == ReportContentType
  }

  predicate SizeOk(req: Request) {
    req.bodyLength <= MaxBodyBytes
  }

  /** The body decoded and `isset($report['csp-report'])` holds. */
  predicate HasReport(d: Decoding) {
    d.Decoded? && "csp-report" in d.members && !d.members["csp-report"].Null?
  }

  predicate RateOk(stored: seq<int>, now: int) {
    |Recent(stored, now)| < MaxRequests
  }

  /** The fields `foreach` visits: none for a scalar. */
  function ReportFields(m: Member): seq<Field> {
    if m.Entries? then m.fields else []
  }

  function Notification(body: string): Mail {
    Mail(EmailFrom, EmailTo, EmailSubject, "text/plain", body)
  }

  /** Lines 17-98 of `csp-reporting.php` as one decision: the first failing check decides the
      status; the record is written once the rate check passes. */
  function Respond(req: Request, stored: seq<int>, now: int, time: string, sendOk: bool): (r: Response)
    ensures r.status in {NoContent, BadRequest, Forbidden, PayloadTooLarge, UnsupportedMediaType, TooManyRequests, ServerError}
    ensures r.record.Some? ==> 0 < |r.record.value| <= MaxRequests && r.record.value[|r.record.value| - 1] == now
    ensures r.mail.Some? <==> r.status == NoContent || r.status == ServerError
  {
    if !OriginOk(req) then Response(Forbidden, None, None)
    else if !ContentTypeOk(req) then Response(UnsupportedMediaType, None, None)
    else
      match Admit(stored, now)
      case Throttled => Response(TooManyRequests, None, None)
      case Admitted(record) =>
        if !SizeOk(req) then Response(PayloadTooLarge, Some(record), None)
        else if !HasReport(req.decoding) then Response(BadRequest, Some(record), None)
        else
          var body := ReportText(ReportFields(req.decoding.members["csp-report"]), time, req.clientIp, req.origin.value);
          Response(if sendOk then NoContent else ServerError, Some(record), Some(Notification(body)))
  }

  /** The script, step by step: early exits, the record filtered and then
      appended to, and the body built by the formatter. */
  method Handle(req: Request, stored: seq<int>, now: int, time: string, sendOk: bool) returns (r: Response)
    ensures r == Respond(req, stored, now, time, sendOk)
  {
    if req.origin.None? || req.origin.value != AllowedOrigin {
      return Response(Forbidden, None, None);
    }
    if req.contentType.None? || req.contentType.value != ReportContentType {
      return Response(UnsupportedMediaType, None, None);
    }
    var rateData := Recent(stored, now);
    if |rateData| >= MaxRequests {
      return Response(TooManyRequests, None, None);
    }
    rateData := rateData + [now];
    var written := Some(rateData);
    if req.bodyLength > MaxBodyBytes {
      return Response(PayloadTooLarge, written, None);
    }
    if !(req.decoding.Decoded? && "csp-report" in req.decoding.members && !req.decoding.members["csp-report"].Null?) {
      return Response(BadRequest, written, None);
    }
    var body := FormatReport(ReportFields(req.decoding.members["csp-report"]), time, req.clientIp, req.origin.value);
    var mail := Notification(body);
    if sendOk {
      r := Response(NoContent, written, Some(mail));
    } else {
      r := Response(ServerError, written, Some(mail));
    }
  }

  /** Each status code names exactly one outcome: the checks that come before
      it passed and its own check failed (or, for 204 and 500, all passed and
      the send call returned or threw). */
  lemma {:induction false} StatusMeans(req: Request, stored: seq<int>, now: int, time: string, sendOk: bool)
    ensures var s := Respond(req, stored, now, time, sendOk).status;
      (s == Forbidden <==> !OriginOk(req)) &&
      (s == UnsupportedMediaType <==> OriginOk(req) && !ContentTypeOk(req)) &&
      (s == TooManyRequests <==> OriginOk(req) && ContentTypeOk(req) && !RateOk(stored, now)) &&
      (s == PayloadTooLarge <==> OriginOk(req) && ContentTypeOk(req) && RateOk(stored, now) && !SizeOk(req)) &&
      (s == BadRequest <==> OriginOk(req) && ContentTypeOk(req) && RateOk(stored, now) && SizeOk(req)
                            && !HasReport(req.decoding)) &&
      (s == NoContent <==> OriginOk(req) && ContentTypeOk(req) && RateOk(stored, now) && SizeOk(req)
                           && HasReport(req.decoding) && sendOk) &&
      (s == ServerError <==> OriginOk(req) && ContentTypeOk(req) && RateOk(stored, now) && SizeOk(req)
                             && HasReport(req.decoding) && !sendOk)
  {
  }

  /** A request refused for its headers leaves the rate-limit record alone
      and sends nothing. */
  lemma {:induction false} HeaderRejectionTouchesNothing(req: Request, stored: seq<int>, now: int, time: string, sendOk: bool)
    requires !OriginOk(req) || !ContentTypeOk(req)
    ensures Respond(req, stored, now, time, sendOk).record == None
    ensures Respond(req, stored, now, time, sendOk).mail == None
  {
  }

  /** Once the headers pass, the record is written exactly when the limiter
      admits the request, and then it is the fresh timestamps with `now`
      appended once; the size, decoding and sending outcomes do not change
      it. A throttled request writes nothing, so stale entries stay stored. */
  lemma {:induction false} RecordWritten(req: Request, stored: seq<int>, now: int, time: string, sendOk: bool)
    requires OriginOk(req) && ContentTypeOk(req)
    ensures var r := Respond(req, stored, now, time, sendOk);
      (r.record.Some? <==> RateOk(stored, now)) &&
      (r.record.Some? ==> r.record.value == Recent(stored, now) + [now] && r.status != TooManyRequests) &&
      (r.record.None? ==> r.status == TooManyRequests && r.mail.None?)
  {
  }

  /** A body of exactly 50000 bytes passes the size check; one more byte
      does not. */
  lemma {:induction false} SizeBoundary(req: Request, stored: seq<int>, now: int, time: string, sendOk: bool)
    requires OriginOk(req) && ContentTypeOk(req) && RateOk(stored, now)
    ensures req.bodyLength == MaxBodyBytes ==> Respond(req, stored, now, time, sendOk).status != PayloadTooLarge
    ensures req.bodyLength == MaxBodyBytes + 1 ==> Respond(req, stored, now, time, sendOk).status == PayloadTooLarge
  {
  }

  /** Only a request that passes every check reaches the sender, and what it
      sends is the formatted report from the fixed sender to the fixed
      recipient. */
  lemma {:induction false} MailSent(req: Request, stored: seq<int>, now: int, time: string, sendOk: bool)
    ensures var r := Respond(req, stored, now, time, sendOk);
      r.mail.Some? <==> OriginOk(req) && ContentTypeOk(req) && RateOk(stored, now) && SizeOk(req) && HasReport(req.decoding)
    ensures var r := Respond(req, stored, now, time, sendOk);
      r.mail.Some? ==> r.mail.value == Mail(EmailFrom, EmailTo, EmailSubject, "text/plain",
        ReportText(ReportFields(req.decoding.members["csp-report"]), time, req.clientIp, AllowedOrigin))
  {
  }

  /** The mailed text carries no raw markup, whatever the report's fields
      hold, provided the server's clock and address strings carry none. */
  lemma {:induction false} MailHasNoRawMarkup(req: Request, stored: seq<int>, now: int, time: string, sendOk: bool)
    requires NoRawMarkup(time) && NoRawMarkup(req.clientIp)
    ensures var r := Respond(req, stored, now, time, sendOk);
      r.mail.Some? ==> NoRawMarkup(r.mail.value.body)
  {
    var r := Respond(req, stored, now, time, sendOk);
    if r.mail.Some? {
      assert NoRawMarkup(AllowedOrigin);
      ReportNoRawMarkup(ReportFields(req.decoding.members["csp-report"]), time, req.clientIp, AllowedOrigin);
    }
  }

  /** One request arriving at `now`. */
  /** One request of a sequential run, with its clock reading, formatted
      date and whether the send call returned without throwing. */
  datatype Arrival = Arrival(req: Request, now: int, time: string, sendOk: bool)

  /** The record after a response: the written one, or the old one. */
  function StoredAfter(r: Response, stored: seq<int>): seq<int> {
    if r.record.Some? then r.record.value else stored
  }

  /** Requests handled one after another from an absent record: the final
      record, and the arrival times of the requests that took a slot. */
  function Serve(arrivals: seq<Arrival>): (seq<int>, seq<int>)
    decreases |arrivals|
  {
    if arrivals == [] then ([], [])
    else
      var (stored, used) := Serve(arrivals[..|arrivals| - 1]);
      var a := arrivals[|arrivals| - 1];
      var r := Respond(a.req, stored, a.now, a.time, a.sendOk);
      (StoredAfter(r, stored), if r.record.Some? then used + [a.now] else used)
  }

  /** The arrival times of the requests whose headers pass. */
  function LimiterTimes(arrivals: seq<Arrival>): (times: seq<int>)
    ensures |times| <= |arrivals|
    ensures forall i :: 0 <= i < |times| ==>
      exists k :: 0 <= k < |arrivals| && OriginOk(arrivals[k].req) && ContentTypeOk(arrivals[k].req) && arrivals[k].now == times[i]
    decreases |arrivals|
  {
    if arrivals == [] then []
    else
      var a := arrivals[|arrivals| - 1];
      LimiterTimes(arrivals[..|arrivals| - 1]) + (if OriginOk(a.req) && ContentTypeOk(a.req) then [a.now] else [])
  }

  predicate InTimeOrder(arrivals: seq<Arrival>) {
    forall i, j :: 0 <= i < j < |arrivals| ==> arrivals[i].now <= arrivals[j].now
  }

  /** Requests refused for their headers never reach the limiter: serving a
      run of requests is replaying the limiter on the others. */
  lemma {:induction false} ServeIsReplay(arrivals: seq<Arrival>)
    ensures Serve(arrivals) == Replay(LimiterTimes(arrivals))
  {
    if arrivals != [] {
      var prior := arrivals[..|arrivals| - 1];
      var a := arrivals[|arrivals| - 1];
      ServeIsReplay(prior);
      var times := LimiterTimes(prior);
      var (stored, used) := Serve(prior);
      var r := Respond(a.req, stored, a.now, a.time, a.sendOk);
      assert Serve(arrivals) == (StoredAfter(r, stored), if r.record.Some? then used + [a.now] else used);
      if OriginOk(a.req) && ContentTypeOk(a.req) {
        assert LimiterTimes(arrivals) == times + [a.now];
        assert (times + [a.now])[..|times + [a.now]| - 1] == times;
        RecordWritten(a.req, stored, a.now, a.time, a.sendOk);
      } else {
        assert LimiterTimes(arrivals) == times + [];
        assert times + [] == times;
        HeaderRejectionTouchesNothing(a.req, stored, a.now, a.time, a.sendOk);
      }
    }
  }

  /** Arrivals in time order give limiter times in order, none after the
      last arrival. */
  lemma {:induction false} LimiterTimesInOrder(arrivals: seq<Arrival>)
    requires InTimeOrder(arrivals)
    ensures Nondecreasing(LimiterTimes(arrivals))
    ensures arrivals != [] ==> AllAtMost(LimiterTimes(arrivals), arrivals[|arrivals| - 1].now)
  {
    if arrivals != [] {
      var prior := arrivals[..|arrivals| - 1];
      var a := arrivals[|arrivals| - 1];
      assert InTimeOrder(prior) by {
        forall i, j | 0 <= i < j < |prior| ensures prior[i].now <= prior[j].now {
          assert prior[i] == arrivals[i] && prior[j] == arrivals[j];
        }
      }
      LimiterTimesInOrder(prior);
      var times := LimiterTimes(prior);
      assert AllAtMost(times, a.now) by {
        if prior != [] {
          assert prior[|prior| - 1] == arrivals[|arrivals| - 2];
          forall i | 0 <= i < |times| ensures times[i] <= a.now {
            assert times[i] <= prior[|prior| - 1].now;
          }
        }
      }
      var all := LimiterTimes(arrivals);
      assert all == times + (if OriginOk(a.req) && ContentTypeOk(a.req) then [a.now] else []);
      forall i, j | 0 <= i < j < |all| ensures all[i] <= all[j] {
        if j >= |times| {
          assert all[j] == a.now;
          assert i < |times|;
          assert all[i] == times[i];
        } else {
          assert all[i] == times[i] && all[j] == times[j];
        }
      }
      forall i | 0 <= i < |all| ensures all[i] <= a.now {
        if i < |times| {
          assert all[i] == times[i];
        }
      }
    }
  }

  /** The rate cap, end to end, for requests handled one at a time: in any
      window of `TimeWindow` seconds at most `MaxRequests` requests take a
      slot (whatever their later outcome: 413, 400, 204 or 500). */
  lemma RateCap(arrivals: seq<Arrival>, t: int)
    requires InTimeOrder(arrivals)
    ensures |Window(Serve(arrivals).1, t)| <= MaxRequests
  {
    ServeIsReplay(arrivals);
    LimiterTimesInOrder(arrivals);
    ReplayInvariant(LimiterTimes(arrivals));
  }
}
