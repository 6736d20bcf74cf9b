/** The attempt endpoints and owner tools as they change rows in place. */
module AttemptService {
  import opened Common
  import opened Statuses
  import opened Transitions
  import opened AttemptPolicy

  /** A tool call's answer is its error; its arguments may be absent. */
  class AttemptActions {
    var rows: seq<Attempt>

    constructor ()
      ensures rows == []
    {
      rows := [];
    }

    method CreateAttempt(task: nat)
      modifies this
      ensures rows == Create(old(rows), task)
    {
      var number := MaxNumber(rows, task) + 1;
      rows := rows + [Attempt(task, number, Created, None, None)];
    }

    /** `_transition_attempt`. */
    method Transition(id: nat, target: AttemptStatus) returns (ok: bool)
      requires id < |rows|
      modifies this
      ensures ok == Allowed(old(rows)[id].status, target)
      ensures rows == if ok then old(rows)[id := old(rows)[id].(status := target)] else old(rows)
    {
      if !Allowed(rows[id].status, target) { return false; }
      rows := rows[id := rows[id].(status := target)];
      return true;
    }

    /** The part both follow-ups share once the policy and the feedback are checked. */
    method CloseAndCreate(source: nat, feedback: string, now: int)
      requires source < |rows|
      modifies this
      ensures rows == CloseSource(old(rows), source, feedback, now)
                      + [NewAttempt(CloseSource(old(rows), source, feedback, now), old(rows)[source].task)]
    {
      var task := rows[source].task;
      if rows[source].status in REVIEWABLE {
        var ok := Transition(source, Rejected);
        rows := rows[source := rows[source].(completedAt := Some(now))];
        rows := rows[source := rows[source].(summary := Some(feedback))];
      }
      ghost var closed := rows;
      assert closed == CloseSource(old(rows), source, feedback, now);
      CreateAttempt(task);
    }

    /** The endpoint: the request's feedback is never empty. */
    method RequestFollowUp(source: nat, feedback: string, now: int) returns (error: Option<Error>)
      requires feedback != ""
      modifies this
      ensures var outcome := FollowUp(old(rows), source, feedback, now);
              if outcome.Ok? then error.None? && rows == outcome.value
              else error == Some(outcome.error) && rows == old(rows)
    {
      if source >= |rows| { return Some(AttemptNotFound); }
      error := RetryRefusal(rows, rows[source].task, source);
      if error.None? {
        CloseAndCreate(source, feedback, now);
      }
    }

    /** The tool: it asks the policy first and looks at the feedback afterwards. */
    method FollowUpTool(id: Option<nat>, feedback: Option<string>, now: int) returns (error: Option<Error>)
      modifies this
      ensures id.None? ==> error == Some(InvalidArguments) && rows == old(rows)
      ensures id.Some? ==>
                var given := if feedback.Some? then feedback.value else "";
                var outcome := FollowUp(old(rows), id.value, given, now);
                if outcome.Ok? then error.None? && rows == outcome.value
                else error == Some(outcome.error) && rows == old(rows)
    {
      if id.None? { return Some(InvalidArguments); }
      if id.value >= |rows| { return Some(AttemptNotFound); }
      error := RetryRefusal(rows, rows[id.value].task, id.value);
      if error.Some? { return; }
      if feedback.None? || feedback.value == "" { return Some(InvalidArguments); }
      CloseAndCreate(id.value, feedback.value, now);
    }

    /** Endpoint and tool alike. */
    method AcceptAttempt(id: nat, note: Option<string>, now: int) returns (error: Option<Error>)
      modifies this
      ensures var outcome := Accept(old(rows), id, note, now);
              if outcome.Ok? then error.None? && rows == outcome.value
              else error == Some(outcome.error) && rows == old(rows)
    {
      if id >= |rows| { return Some(AttemptNotFound); }
      if rows[id].status !in REVIEWABLE { return Some(NotReviewable); }
      var ok := Transition(id, Accepted);
      rows := rows[id := rows[id].(completedAt := Some(now))];
      if note.Some? && note.value != "" {
        rows := rows[id := rows[id].(summary := note)];
      }
      return None;
    }

    method RejectAttempt(id: nat, reason: string, now: int) returns (error: Option<Error>)
      modifies this
      ensures var outcome := Reject(old(rows), id, reason, now);
              if outcome.Ok? then error.None? && rows == outcome.value
              else error == Some(outcome.error) && rows == old(rows)
    {
      if id >= |rows| { return Some(AttemptNotFound); }
      if rows[id].status !in REVIEWABLE { return Some(NotReviewable); }
      if reason == "" { return Some(InvalidArguments); }
      var ok := Transition(id, Rejected);
      rows := rows[id := rows[id].(completedAt := Some(now))];
      rows := rows[id := rows[id].(summary := Some(reason))];
      return None;
    }

    method UpdateAttempt(id: nat, target: AttemptStatus, note: Option<string>, now: int) returns (error: Option<Error>)
      modifies this
      ensures var outcome := Update(old(rows), id, target, note, now);
              if outcome.Ok? then error.None? && rows == outcome.value
              else error == Some(outcome.error) && rows == old(rows)
    {
      if id >= |rows| { return Some(AttemptNotFound); }
      if !PubliclyAllowed(rows[id].status, target) { return Some(TransitionNotAllowed); }
      rows := rows[id := rows[id].(status := target, summary := note)];
      if target in {Accepted, Merged} {
        rows := rows[id := rows[id].(completedAt := Some(now))];
      }
      return None;
    }
  }
}
