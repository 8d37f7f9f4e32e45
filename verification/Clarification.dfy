/** Clarification rounds: posting answers, and the waiters that pick their own off a shared channel. */
module Clarification {
  import opened Prelude
  import opened Json

  type Id = string

  // ---------- Waiting for answers ----------

  /** What polling hands over: a text on one of the channels, parsed if it parses, or something else. */
  datatype Message =
    | OnControl
    | OnAnswers(payload: Json)
    | Unreadable

  /** `at` is when polling hands the message over. */
  datatype Arrival = Arrival(at: real, message: Message)

  datatype Waiter = Waiter(request: string, run: Id)

  /** `Nothing` is the empty dictionary; `Raised` is an answer payload that is not an object. */
  datatype Outcome = Answered(answers: Json) | Nothing | Raised

  datatype Verdict = Pass | Interrupt | Crash | Take(answers: Json)

  /** The loop body, from the channel test on. */
  function VerdictOn(w: Waiter, message: Message): Verdict {
    match message
    case OnControl => Interrupt
    case Unreadable => Pass
    case OnAnswers(payload) =>
      if !payload.JObj? then Crash
      else if Get(payload, "request_id") != JStr(w.request) then Pass
      else
        var run := Get(payload, "run_id");
        if run != JNull && run != JStr(w.run) then Pass else Take(Or(Get(payload, "answers"), EMPTY))
  }

  function OutcomeOf(verdict: Verdict): Outcome {
    match verdict
    case Take(answers) => Answered(answers)
    case Crash => Raised
    case _ => Nothing
  }

  /** The first message handed over in time that the waiter does not pass over, or the end. */
  function FirstDecisive(w: Waiter, inbox: seq<Arrival>, deadline: real): nat {
    if |inbox| == 0 || inbox[0].at >= deadline || VerdictOn(w, inbox[0].message) != Pass then 0
    else 1 + FirstDecisive(w, inbox[1..], deadline)
  }

  function Judge(w: Waiter, inbox: seq<Arrival>, deadline: real): Outcome {
    var k := FirstDecisive(w, inbox, deadline);
    if k < |inbox| && inbox[k].at < deadline then OutcomeOf(VerdictOn(w, inbox[k].message)) else Nothing
  }

  lemma {:induction false} FirstDecisiveIsFirst(w: Waiter, inbox: seq<Arrival>, deadline: real)
    ensures var k := FirstDecisive(w, inbox, deadline);
            && k <= |inbox|
            && (forall i :: 0 <= i < k ==> inbox[i].at < deadline && VerdictOn(w, inbox[i].message) == Pass)
            && (k == |inbox| || inbox[k].at >= deadline || VerdictOn(w, inbox[k].message) != Pass)
  {
    if |inbox| > 0 && inbox[0].at < deadline && VerdictOn(w, inbox[0].message) == Pass {
      FirstDecisiveIsFirst(w, inbox[1..], deadline);
      var k := FirstDecisive(w, inbox[1..], deadline);
      assert forall i :: 1 <= i < 1 + k ==> inbox[i] == inbox[1..][i - 1];
    }
  }

  predicate Passes(w: Waiter, a: Arrival, deadline: real) {
    a.at < deadline && VerdictOn(w, a.message) == Pass
  }

  /** Nothing else is. */
  lemma {:induction false} FirstDecisiveIsUnique(w: Waiter, inbox: seq<Arrival>, deadline: real, n: nat)
    requires n <= |inbox| && forall i :: 0 <= i < n ==> Passes(w, inbox[i], deadline)
    requires n == |inbox| || !Passes(w, inbox[n], deadline)
    ensures FirstDecisive(w, inbox, deadline) == n
  {
    if n > 0 {
      assert Passes(w, inbox[0], deadline);
      FirstDecisiveIsUnique(w, inbox[1..], deadline, n - 1);
    }
  }

  lemma {:induction false} PassedOver(w: Waiter, inbox: seq<Arrival>, i: nat, deadline: real)
    requires i < |inbox| && inbox[i].at < deadline && VerdictOn(w, inbox[i].message) == Pass
    ensures Judge(w, inbox[i..], deadline) == Judge(w, inbox[i + 1..], deadline)
  {
    assert inbox[i..][1..] == inbox[i + 1..];
  }

  lemma {:induction false} LateIsNothing(w: Waiter, inbox: seq<Arrival>, i: nat, deadline: real)
    requires i <= |inbox| && forall j :: i <= j < |inbox| ==> inbox[j].at >= deadline
    ensures Judge(w, inbox[i..], deadline) == Nothing
  {
  }

  lemma {:induction false} DecidedHere(w: Waiter, inbox: seq<Arrival>, i: nat, deadline: real)
    requires i < |inbox| && inbox[i].at < deadline && VerdictOn(w, inbox[i].message) != Pass
    ensures Judge(w, inbox[i..], deadline) == OutcomeOf(VerdictOn(w, inbox[i].message))
  {
  }

  function Min(a: real, b: real): real {
    if a <= b then a else b
  }

  const POLL_WINDOW := 5.0

  /** How many more windows of silence the wait can have. */
  function WindowsLeft(now: real, deadline: real): nat {
    if now >= deadline then 0 else ((deadline - now) / POLL_WINDOW).Floor + 1
  }

  lemma {:induction false} WindowPasses(now: real, deadline: real)
    requires now < deadline
    ensures WindowsLeft(now + Min(deadline - now, POLL_WINDOW), deadline) < WindowsLeft(now, deadline)
  {
    if deadline - now > POLL_WINDOW {
      assert (deadline - (now + POLL_WINDOW)) / POLL_WINDOW == (deadline - now) / POLL_WINDOW - 1.0;
    }
  }

  predicate InOrder(inbox: seq<Arrival>) {
    forall i, j :: 0 <= i < j < |inbox| ==> inbox[i].at <= inbox[j].at
  }

  /**
   The polling loop, with ideal timers: it waits in windows of five seconds, and ends by its deadline.
   `inbox` is what reaches the two channels once the waiter has subscribed.
   */
  method WaitForAnswers(w: Waiter, subscribed: real, timeout: real, inbox: seq<Arrival>)
    returns (outcome: Outcome, ended: real)
    requires InOrder(inbox) && forall i :: 0 <= i < |inbox| ==> subscribed <= inbox[i].at
    ensures outcome == Judge(w, inbox, subscribed + timeout)
    ensures subscribed <= ended <= subscribed + timeout || (timeout <= 0.0 && ended == subscribed)
    ensures outcome == Nothing ==>
              ended >= subscribed + timeout
              || exists i :: 0 <= i < |inbox| && inbox[i] == Arrival(ended, OnControl)
  {
    var deadline := subscribed + timeout;
    var now := subscribed;
    var next := 0;
    assert inbox[0..] == inbox;
    while true
      invariant 0 <= next <= |inbox|
      invariant subscribed <= now <= deadline || (timeout <= 0.0 && now == subscribed)
      invariant forall i :: next <= i < |inbox| ==> now <= inbox[i].at
      invariant Judge(w, inbox[next..], deadline) == Judge(w, inbox, deadline)
      decreases |inbox| - next, WindowsLeft(now, deadline)
    {
      var remaining := deadline - now;
      if remaining <= 0.0 {
        LateIsNothing(w, inbox, next, deadline);
        return Nothing, now;
      }
      var window := Min(remaining, POLL_WINDOW);
      if next == |inbox| || inbox[next].at >= now + window {
        WindowPasses(now, deadline);
        now := now + window;
      } else {
        now := inbox[next].at;
        var verdict := VerdictOn(w, inbox[next].message);
        if verdict == Pass {
          PassedOver(w, inbox, next, deadline);
          next := next + 1;
          continue;
        }
        DecidedHere(w, inbox, next, deadline);
        match verdict
        case Interrupt => return Nothing, now;
        case Crash => return Raised, now;
        case Take(answers) => return Answered(answers), now;
      }
    }
  }

  // ---------- Posting answers ----------

  datatype SessionRow = SessionRow(project: Id, running: bool)

  datatype RunRow = RunRow(session: Id, running: bool, createdAt: nat)

  /** A round's row names its project and the session and run that asked. */
  datatype ClarificationRow = ClarificationRow(project: Id, session: Id, run: Id, answered: bool, answers: Json)

  datatype Db = Db(sessions: map<Id, SessionRow>, runs: map<Id, RunRow>, clarifications: map<string, ClarificationRow>)

  datatype Body = Body(request: string, answers: seq<Field>, session: Option<Id>, run: Option<Id>)

  /** The frame that tells the page the round is over. */
  datatype Ack = Ack(session: Id, request: string, run: Option<Id>)

  /** Refused with an HTTP status, or published on a session's channel and acknowledged on its event channel. */
  datatype Reply = Refused(status: nat) | Published(session: Id, payload: Json, ack: Ack, db: Db)

  predicate IsRunningRun(db: Db, project: Id, run: Id) {
    && run in db.runs && db.runs[run].running
    && db.runs[run].session in db.sessions
    && db.sessions[db.runs[run].session] == SessionRow(project, true)
  }

  /** The newest running run of a running session, which the query picks when the body names no session. */
  predicate IsLatestRun(db: Db, project: Id, latest: Option<Id>) {
    match latest
    case None => forall run :: run in db.runs ==> !IsRunningRun(db, project, run)
    case Some(run) =>
      && IsRunningRun(db, project, run)
      && forall other :: other in db.runs && IsRunningRun(db, project, other) ==>
           db.runs[other].createdAt <= db.runs[run].createdAt
  }

  /** What is stored: the two known keys of each answer. */
  function Stored(answers: seq<Field>): seq<Field> {
    if |answers| == 0 then []
    else
      var last := answers[|answers| - 1];
      var kept := JObj([Field("selected_choice", Get(last.value, "selected_choice")),
                        Field("override_text", Get(last.value, "override_text"))]);
      Stored(answers[..|answers| - 1]) + [Field(last.key, kept)]
  }

  lemma {:induction false} StoredKeepsBothKeys(answers: seq<Field>, i: nat)
    requires i < |answers|
    ensures |Stored(answers)| == |answers| && Stored(answers)[i].key == answers[i].key
    ensures Get(Stored(answers)[i].value, "selected_choice") == Get(answers[i].value, "selected_choice")
    ensures Get(Stored(answers)[i].value, "override_text") == Get(answers[i].value, "override_text")
  {
    var last := |answers| - 1;
    if i < last {
      StoredKeepsBothKeys(answers[..last], i);
    } else {
      if last > 0 {
        StoredKeepsBothKeys(answers[..last], 0);
      }
      var kept := Stored(answers)[i].value;
      var choice := Field("selected_choice", Get(answers[i].value, "selected_choice"));
      assert kept.fields[..1] == [choice];
      assert LastField(kept.fields, "selected_choice") == LastField([choice], "selected_choice");
    }
  }

  function Payload(body: Body, run: Option<Id>): Json {
    JObj([Field("request_id", JStr(body.request)), Field("answers", JObj(body.answers)),
          Field("run_id", if run.Some? then JStr(run.value) else JNull)])
  }

  function MarkAnswered(row: ClarificationRow, answers: seq<Field>): ClarificationRow {
    row.(answered := true, answers := JObj(Stored(answers)))
  }

  /** The row is looked up by the request id alone. */
  function Publish(db: Db, body: Body, session: Id, run: Option<Id>): Reply {
    var rows := db.clarifications;
    var stored :=
      if body.request in rows then rows[body.request := MarkAnswered(rows[body.request], body.answers)] else rows;
    Published(session, Payload(body, run), Ack(session, body.request, run), db.(clarifications := stored))
  }

  function SubmitClarification(db: Db, project: Id, body: Body, latest: Option<Id>): Reply
    requires IsLatestRun(db, project, latest)
  {
    match body.session
    case Some(session) =>
      if session !in db.sessions || db.sessions[session].project != project then Refused(404)
      else if body.run.Some? && (body.run.value !in db.runs || db.runs[body.run.value].session != session) then
        Refused(404)
      else Publish(db, body, session, body.run)
    case None =>
      match latest
      case None => Refused(409)
      case Some(run) => Publish(db, body, db.runs[run].session, latest)
  }

  datatype Post = Post(session: Id, payload: Json)

  /** The route's database, and what it has published: answers for the worker, acknowledgements for the page. */
  class ClarifyRoute {
    var db: Db
    var posts: seq<Post>
    var acks: seq<Ack>

    constructor (db: Db)
      ensures this.db == db && posts == [] && acks == []
    {
      this.db, posts, acks := db, [], [];
    }

    /** `latest` is what the fallback query finds. Answers are stored before they are published. */
    method Submit(project: Id, body: Body, latest: Option<Id>) returns (status: nat)
      requires IsLatestRun(db, project, latest)
      modifies this
      ensures match SubmitClarification(old(db), project, body, latest)
              case Refused(code) => status == code && db == old(db) && posts == old(posts) && acks == old(acks)
              case Published(session, payload, ack, after) =>
                && status == 200 && db == after
                && posts == old(posts) + [Post(session, payload)] && acks == old(acks) + [ack]
    {
      var session, run := "", None;
      if body.session.Some? {
        session := body.session.value;
        if session !in db.sessions || db.sessions[session].project != project {
          return 404;
        }
        if body.run.Some? {
          run := body.run;
          if run.value !in db.runs || db.runs[run.value].session != session {
            return 404;
          }
        }
      } else {
        if latest.None? {
          return 409;
        }
        session, run := db.runs[latest.value].session, latest;
      }
      if body.request in db.clarifications {
        var row := db.clarifications[body.request].(answered := true, answers := JObj(Stored(body.answers)));
        db := db.(clarifications := db.clarifications[body.request := row]);
      }
      posts := posts + [Post(session, Payload(body, run))];
      acks := acks + [Ack(session, body.request, run)];
      status := 200;
    }
  }

  predicate PinnedTo(payload: Json, run: Id) {
    Get(payload, "run_id") == JStr(run)
  }

  /**
   What a post publishes reaches only a session of its own project, and is pinned only to a run of that session;
   what it stores is the row under its request id and no other.
   */
  lemma {:induction false} PostsStayInTheirProject(db: Db, project: Id, body: Body, latest: Option<Id>)
    requires IsLatestRun(db, project, latest)
    ensures match SubmitClarification(db, project, body, latest)
            case Refused(status) =>
              status == 404 || (status == 409 && forall run :: run in db.runs ==> !IsRunningRun(db, project, run))
            case Published(session, payload, ack, after) =>
              && session in db.sessions && db.sessions[session].project == project
              && (forall run :: PinnedTo(payload, run) ==> run in db.runs && db.runs[run].session == session)
              && ack.session == session && ack.request == body.request
              && (forall run :: ack.run == Some(run) <==> PinnedTo(payload, run))
              && after.sessions == db.sessions && after.runs == db.runs
              && after.clarifications.Keys == db.clarifications.Keys
              && (forall request :: request in db.clarifications && request != body.request ==>
                    after.clarifications[request] == db.clarifications[request])
  {
    if body.session.Some? {
      PayloadFields(body, body.run);
    } else {
      PayloadFields(body, latest);
    }
  }

  /** The run runs, in a running session of the project. */
  predicate RunsFor(db: Db, project: Id, run: Id) {
    && run in db.runs && db.runs[run].running && db.runs[run].session in db.sessions
    && db.sessions[db.runs[run].session].running && db.sessions[db.runs[run].session].project == project
  }

  /** The body names a session of the project, and, if it names a run too, one of that session. */
  predicate NamesOwn(db: Db, project: Id, body: Body) {
    && body.session.Some? && body.session.value in db.sessions && db.sessions[body.session.value].project == project
    && (body.run.Some? ==> body.run.value in db.runs && db.runs[body.run.value].session == body.session.value)
  }

  /** Exactly which posts are refused, and how; without a session the newest run of the project answers for it. */
  lemma {:induction false} RefusalsExactly(db: Db, project: Id, body: Body, latest: Option<Id>)
    requires IsLatestRun(db, project, latest)
    ensures var reply := SubmitClarification(db, project, body, latest);
            && (reply == Refused(404) <==> body.session.Some? && !NamesOwn(db, project, body))
            && (reply == Refused(409) <==>
                  body.session.None? && forall run :: run in db.runs ==> !RunsFor(db, project, run))
            && (reply.Refused? ==> reply.status == 404 || reply.status == 409)
            && (reply.Published? && body.session.Some? ==> reply.session == body.session.value)
            && (reply.Published? && body.session.None? ==>
                  exists run :: && RunsFor(db, project, run) && reply.session == db.runs[run].session
                                && forall other :: other in db.runs && RunsFor(db, project, other) ==>
                                     db.runs[other].createdAt <= db.runs[run].createdAt)
  {
    assert forall run :: run in db.runs ==> (RunsFor(db, project, run) <==> IsRunningRun(db, project, run));
    if body.session.None? && latest.Some? {
      assert RunsFor(db, project, latest.value);
    }
  }

  // ---------- Whose row a post answers ----------

  /** Every row that a post changed is one of this project's. */
  ghost predicate ChangesOnlyOwnRows(before: Db, after: Db, project: Id)
    requires after.clarifications.Keys == before.clarifications.Keys
  {
    forall request :: request in before.clarifications ==>
      after.clarifications[request] == before.clarifications[request]
      || before.clarifications[request].project == project
  }

  /**
   Every session that asked, and whose row a post marked as answered, is the one the answers were published to.
   */
  ghost predicate AnswersWhoAsked(before: Db, after: Db, session: Id)
    requires after.clarifications.Keys == before.clarifications.Keys
  {
    forall request :: request in before.clarifications ==>
      after.clarifications[request] == before.clarifications[request]
      || before.clarifications[request].session == session
  }

  /** The row under the body's request id, if there is one, and the post changes it. */
  predicate HitsRow(db: Db, body: Body) {
    body.request in db.clarifications
    && MarkAnswered(db.clarifications[body.request], body.answers) != db.clarifications[body.request]
  }

  /**
   A post stays in its project, rows included, if and only if the row it hits is the project's; and only the
   session that asked is answered, if and only if that row is of the session published to.
   */
  lemma {:induction false} RowsStayInTheirProject(db: Db, project: Id, body: Body, latest: Option<Id>)
    requires IsLatestRun(db, project, latest) && SubmitClarification(db, project, body, latest).Published?
    ensures var reply, rows := SubmitClarification(db, project, body, latest), db.clarifications;
            && reply.db.clarifications.Keys == rows.Keys
            && (ChangesOnlyOwnRows(db, reply.db, project) <==>
                  (HitsRow(db, body) ==> rows[body.request].project == project))
            && (AnswersWhoAsked(db, reply.db, reply.session) <==>
                  (HitsRow(db, body) ==> rows[body.request].session == reply.session))
            && (body.request in rows ==>
                  && reply.db.clarifications[body.request].answered
                  && reply.db.clarifications[body.request].answers == JObj(Stored(body.answers))
                  && reply.db.clarifications[body.request].project == rows[body.request].project
                  && reply.db.clarifications[body.request].session == rows[body.request].session
                  && reply.db.clarifications[body.request].run == rows[body.request].run)
  {
    var after := SubmitClarification(db, project, body, latest).db;
    if HitsRow(db, body) {
      assert after.clarifications[body.request] != db.clarifications[body.request];
    }
  }

  /** Two projects with a session each; the second one's session has asked. */
  function TwoProjects(): Db {
    Db(map["s" := SessionRow("a", true), "t" := SessionRow("b", true)], map[],
       map["q" := ClarificationRow("b", "t", "r", false, EMPTY)])
  }

  /**
   And it happens: a post to project `a` that carries project `b`'s request id marks `b`'s round as answered,
   with answers that never reach the session that asked.
   */
  lemma {:induction false} ForeignRowIsAnswered()
    ensures var body := Body("q", [], Some("s"), None);
            && IsLatestRun(TwoProjects(), "a", None)
            && var reply := SubmitClarification(TwoProjects(), "a", body, None);
               && reply.Published? && reply.session == "s"
               && reply.db.clarifications["q"] == ClarificationRow("b", "t", "r", true, EMPTY)
  {
    assert Stored([]) == [];
  }

  lemma {:induction false} PayloadFields(body: Body, run: Option<Id>)
    ensures Payload(body, run).JObj?
    ensures Get(Payload(body, run), "request_id") == JStr(body.request)
    ensures Get(Payload(body, run), "answers") == JObj(body.answers)
    ensures Get(Payload(body, run), "run_id") == if run.Some? then JStr(run.value) else JNull
  {
    var fields := Payload(body, run).fields;
    var two := fields[..2];
    assert two == [Field("request_id", JStr(body.request)), Field("answers", JObj(body.answers))];
    assert LastField(fields, "answers") == LastField(two, "answers");
    assert LastField(fields, "request_id") == LastField(two, "request_id") == LastField(two[..1], "request_id");
  }

  // ---------- Routing ----------

  /** Subscribed after the first `since` messages of the session's two channels. */
  datatype Waiting = Waiting(waiter: Waiter, since: nat, deadline: real)

  function Inbox(traffic: seq<Arrival>, x: Waiting): seq<Arrival>
    requires x.since <= |traffic|
  {
    traffic[x.since..]
  }

  /** The message meant for this waiter, and no other. */
  predicate IsFor(w: Waiter, payload: Json) {
    && payload.JObj? && Get(payload, "request_id") == JStr(w.request)
    && (Get(payload, "run_id") == JNull || Get(payload, "run_id") == JStr(w.run))
  }

  /** Message `k` answers the waiter: it comes after the subscription, in time, and nothing before it decides. */
  predicate AnsweredBy(traffic: seq<Arrival>, x: Waiting, k: nat) {
    && x.since <= k < |traffic| && traffic[k].at < x.deadline
    && traffic[k].message.OnAnswers? && IsFor(x.waiter, traffic[k].message.payload)
    && forall i :: x.since <= i < k ==>
         && traffic[i].at < x.deadline && !traffic[i].message.OnControl?
         && (traffic[i].message.OnAnswers? ==>
               traffic[i].message.payload.JObj? && !IsFor(x.waiter, traffic[i].message.payload))
  }

  lemma {:induction false} AnswerIsFound(traffic: seq<Arrival>, x: Waiting)
    requires x.since <= |traffic| && Judge(x.waiter, Inbox(traffic, x), x.deadline).Answered?
    ensures var k := x.since + FirstDecisive(x.waiter, Inbox(traffic, x), x.deadline);
            && AnsweredBy(traffic, x, k)
            && Judge(x.waiter, Inbox(traffic, x), x.deadline)
            == Answered(Or(Get(traffic[k].message.payload, "answers"), EMPTY))
  {
    var inbox := Inbox(traffic, x);
    FirstDecisiveIsFirst(x.waiter, inbox, x.deadline);
    var k := FirstDecisive(x.waiter, inbox, x.deadline);
    assert inbox[k] == traffic[x.since + k];
    forall i | x.since <= i < x.since + k
      ensures Passes(x.waiter, traffic[i], x.deadline)
    {
      assert traffic[i] == inbox[i - x.since];
    }
  }

  lemma {:induction false} AnswerIsTaken(traffic: seq<Arrival>, x: Waiting, k: nat)
    requires AnsweredBy(traffic, x, k)
    ensures Judge(x.waiter, Inbox(traffic, x), x.deadline)
         == Answered(Or(Get(traffic[k].message.payload, "answers"), EMPTY))
  {
    var inbox := Inbox(traffic, x);
    forall i | 0 <= i < k - x.since
      ensures Passes(x.waiter, inbox[i], x.deadline)
    {
      assert inbox[i] == traffic[x.since + i];
    }
    FirstDecisiveIsUnique(x.waiter, inbox, x.deadline, k - x.since);
  }

  /** A wait returns answers exactly from the first message for it, and exactly those answers. */
  lemma {:induction false} AnswersAreRouted(traffic: seq<Arrival>, x: Waiting, answers: Json)
    requires x.since <= |traffic|
    ensures Judge(x.waiter, Inbox(traffic, x), x.deadline) == Answered(answers)
        <==> exists k: nat ::
               AnsweredBy(traffic, x, k) && Or(Get(traffic[k].message.payload, "answers"), EMPTY) == answers
  {
    if Judge(x.waiter, Inbox(traffic, x), x.deadline) == Answered(answers) {
      AnswerIsFound(traffic, x);
    }
    forall k: nat | AnsweredBy(traffic, x, k)
      ensures Judge(x.waiter, Inbox(traffic, x), x.deadline)
           == Answered(Or(Get(traffic[k].message.payload, "answers"), EMPTY))
    {
      AnswerIsTaken(traffic, x, k);
    }
  }

  /** Undecided so far: every message up to `k` came in time and was passed over. */
  predicate StillOpen(traffic: seq<Arrival>, x: Waiting, k: nat) {
    && x.since <= k <= |traffic|
    && forall i :: x.since <= i < k ==> traffic[i].at < x.deadline && VerdictOn(x.waiter, traffic[i].message) == Pass
  }

  /** A wait comes back empty exactly when its time runs out or any control message, a steer as well, comes first. */
  lemma {:induction false} EmptyMeansStopped(traffic: seq<Arrival>, x: Waiting)
    requires x.since <= |traffic|
    ensures Judge(x.waiter, Inbox(traffic, x), x.deadline) == Nothing
       <==> exists k: nat :: StillOpen(traffic, x, k)
              && (k == |traffic| || traffic[k].at >= x.deadline || traffic[k].message.OnControl?)
  {
    var inbox := Inbox(traffic, x);
    FirstDecisiveIsFirst(x.waiter, inbox, x.deadline);
    var k := FirstDecisive(x.waiter, inbox, x.deadline);
    assert forall i :: 0 <= i < |inbox| ==> inbox[i] == traffic[x.since + i];
    assert StillOpen(traffic, x, x.since + k) by {
      assert forall i :: x.since <= i < x.since + k ==> traffic[i] == inbox[i - x.since];
    }
    forall n: nat |
      StillOpen(traffic, x, n) && (n == |traffic| || traffic[n].at >= x.deadline || traffic[n].message.OnControl?)
      ensures x.since + k == n
    {
      FirstDecisiveIsUnique(x.waiter, inbox, x.deadline, n - x.since);
    }
  }

  /** One message never answers two waiters, unless they share a request and it is not pinned, or one run. */
  lemma {:induction false} NoAnswerReachesAnother(traffic: seq<Arrival>, x: Waiting, y: Waiting, k: nat)
    requires AnsweredBy(traffic, x, k) && AnsweredBy(traffic, y, k)
    ensures x.waiter.request == y.waiter.request
    ensures Get(traffic[k].message.payload, "run_id") != JNull ==> x.waiter == y.waiter
  {
  }

  /** The messages that are not for this waiter, neither control nor broken, leave no trace. */
  function Relevant(w: Waiter, inbox: seq<Arrival>): seq<Arrival> {
    if |inbox| == 0 then []
    else if VerdictOn(w, inbox[0].message) == Pass then Relevant(w, inbox[1..])
    else [inbox[0]] + Relevant(w, inbox[1..])
  }

  lemma {:induction false} RelevantIsPart(w: Waiter, inbox: seq<Arrival>, a: Arrival)
    requires a in Relevant(w, inbox)
    ensures a in inbox
  {
    if VerdictOn(w, inbox[0].message) == Pass || a != inbox[0] {
      RelevantIsPart(w, inbox[1..], a);
    }
  }

  lemma {:induction false} OtherTrafficIsInvisible(w: Waiter, inbox: seq<Arrival>, deadline: real)
    requires InOrder(inbox)
    ensures Judge(w, inbox, deadline) == Judge(w, Relevant(w, inbox), deadline)
  {
    if |inbox| > 0 {
      if inbox[0].at >= deadline {
        forall i | 0 <= i < |Relevant(w, inbox)|
          ensures Relevant(w, inbox)[i].at >= deadline
        {
          RelevantIsPart(w, inbox, Relevant(w, inbox)[i]);
        }
        LateIsNothing(w, Relevant(w, inbox), 0, deadline);
        assert Relevant(w, inbox)[0..] == Relevant(w, inbox);
      } else if VerdictOn(w, inbox[0].message) == Pass {
        PassedOver(w, inbox, 0, deadline);
        assert inbox[0..] == inbox;
        OtherTrafficIsInvisible(w, inbox[1..], deadline);
      }
    }
  }

  /**
   From post to wait: the answers of a post for this request, pinned to this run or to none, are what the waiter
   returns when the post is the first such message after its subscription and nothing has ended the wait.
   */
  lemma {:induction false} PostedAnswersArrive(
    db: Db, project: Id, body: Body, latest: Option<Id>, traffic: seq<Arrival>, x: Waiting, k: nat)
    requires IsLatestRun(db, project, latest) && SubmitClarification(db, project, body, latest).Published?
    requires x.since <= k < |traffic|
    requires traffic[k].message == OnAnswers(SubmitClarification(db, project, body, latest).payload)
    ensures AnsweredBy(traffic, x, k) ==>
              && Judge(x.waiter, Inbox(traffic, x), x.deadline) == Answered(JObj(body.answers))
              && body.request == x.waiter.request
              && (body.session.Some? ==> body.run == None || body.run == Some(x.waiter.run))
    ensures body.request != x.waiter.request ==> VerdictOn(x.waiter, traffic[k].message) == Pass
    ensures body.session.Some? && body.run.Some? && body.run.value != x.waiter.run ==>
              VerdictOn(x.waiter, traffic[k].message) == Pass
  {
    var run := if body.session.Some? then body.run else latest;
    PayloadFields(body, run);
    assert traffic[k].message.payload == Payload(body, run);
    if AnsweredBy(traffic, x, k) {
      AnswersAreRouted(traffic, x, JObj(body.answers));
      assert Or(JObj(body.answers), EMPTY) == JObj(body.answers);
    }
  }

  // ---------- Handing the answers to the agent ----------

  datatype Flat = Flat(question: string, answer: Json)

  /** Free text wins over a chosen option; anything but a dictionary is written out as text. */
  function AnswerOf(value: Json, str: Json -> string): Json {
    if value.JObj? then Or(Or(Get(value, "override_text"), Get(value, "selected_choice")), JStr(""))
    else JStr(str(value))
  }

  /** What the agent is told: the free text if there is any, else the choice, else nothing; other values as text. */
  lemma {:induction false} FreeTextWins(value: Json, str: Json -> string)
    ensures var text, choice := Get(value, "override_text"), Get(value, "selected_choice");
            && (value.JObj? && Truthy(text) ==> AnswerOf(value, str) == text)
            && (value.JObj? && !Truthy(text) && Truthy(choice) ==> AnswerOf(value, str) == choice)
            && (value.JObj? && !Truthy(text) && !Truthy(choice) ==> AnswerOf(value, str) == JStr(""))
            && (!value.JObj? ==> AnswerOf(value, str) == JStr(str(value)))
  {
  }

  method FlattenAnswers(answers: seq<Field>, str: Json -> string) returns (flat: seq<Flat>)
    ensures |flat| == |answers|
    ensures forall i :: 0 <= i < |flat| ==> flat[i] == Flat(answers[i].key, AnswerOf(answers[i].value, str))
  {
    flat := [];
    for i := 0 to |answers|
      invariant |flat| == i
      invariant forall j :: 0 <= j < i ==> flat[j] == Flat(answers[j].key, AnswerOf(answers[j].value, str))
    {
      flat := flat + [Flat(answers[i].key, AnswerOf(answers[i].value, str))];
    }
  }
}
