/** The create-with-retry step shared by the simple bulk upload and the
    direct upload: up to three attempts per record, stopping at the first ok
    response. */
module Retry {
  import opened Seqs
  import opened Logs

  /** The list's answers: `respond(r, a)` tells whether attempt `a` (counted
      from 1) for the record at position `r` of the run got an ok response; a
      thrown error counts as not ok. */
  type Oracle = (nat, nat) -> bool

  const MaxAttempts: nat := 3

  /** The first attempt from `from` on that is answered ok, or
      `MaxAttempts + 1` when none up to `MaxAttempts` is. */
  function FirstOk(respond: Oracle, r: nat, from: nat): (a: nat)
    requires 1 <= from <= MaxAttempts + 1
    ensures from <= a <= MaxAttempts + 1
    ensures forall k :: from <= k < a ==> !respond(r, k)
    ensures a <= MaxAttempts ==> respond(r, a)
    decreases MaxAttempts + 1 - from
  {
    if from > MaxAttempts then from
    else if respond(r, from) then from
    else FirstOk(respond, r, from + 1)
  }

  /** Record `r` is created within the allowed attempts. */
  predicate Succeeds(respond: Oracle, r: nat)
  {
    FirstOk(respond, r, 1) <= MaxAttempts
  }

  /** The number of create calls made for record `r`. */
  function Attempts(respond: Oracle, r: nat): nat
  {
    if Succeeds(respond, r) then FirstOk(respond, r, 1) else MaxAttempts
  }

  /** The log lines for record `r`: one per failed attempt, then either the
      success line or the final failure line. */
  function RecordLog(respond: Oracle, r: nat): seq<LogEntry>
  {
    seq(FirstOk(respond, r, 1) - 1, k requires 0 <= k => AttemptFailed(r, k + 1))
      + [if Succeeds(respond, r) then Created(r) else GaveUp(r)]
  }

  /** The create calls for record `r`, all with the same body. */
  function RecordPosts<B>(respond: Oracle, r: nat, body: B): seq<Post<B>>
  {
    seq(Attempts(respond, r), k requires 0 <= k => Post(r, k + 1, body))
  }

  /** Between one and three attempts are made, every attempt before the last
      failed, the last one succeeded exactly when the record was created, and
      the final failure line is logged exactly when all three attempts
      failed. */
  lemma RetrySpec(respond: Oracle, r: nat)
    ensures 1 <= Attempts(respond, r) <= MaxAttempts
    ensures forall k :: 1 <= k < Attempts(respond, r) ==> !respond(r, k)
    ensures Succeeds(respond, r) <==> respond(r, Attempts(respond, r))
    ensures Succeeds(respond, r) <==> exists k :: 1 <= k <= MaxAttempts && respond(r, k)
    ensures GaveUp(r) in RecordLog(respond, r) <==> forall k :: 1 <= k <= MaxAttempts ==> !respond(r, k)
    ensures Created(r) in RecordLog(respond, r) <==> Succeeds(respond, r)
    ensures |RecordLog(respond, r)| == Attempts(respond, r) + (if Succeeds(respond, r) then 0 else 1)
  {
    var log := RecordLog(respond, r);
    var n := FirstOk(respond, r, 1) - 1;
    assert forall i :: 0 <= i < n ==> log[i].AttemptFailed?;
    assert log[n] == if Succeeds(respond, r) then Created(r) else GaveUp(r);
  }

  /** One record's retry loop: `while (!success && attempts < 3)`. */
  method PostWithRetry<B>(respond: Oracle, r: nat, body: B) returns (success: bool, log: seq<LogEntry>, posts: seq<Post<B>>)
    ensures success == Succeeds(respond, r)
    ensures log == RecordLog(respond, r)
    ensures posts == RecordPosts(respond, r, body)
  {
    success := false;
    var attempts := 0;
    log := [];
    posts := [];
    while !success && attempts < MaxAttempts
      invariant 0 <= attempts <= MaxAttempts
      invariant success ==> 1 <= attempts && respond(r, attempts)
      invariant forall k :: 1 <= k <= attempts && !(success && k == attempts) ==> !respond(r, k)
      invariant posts == seq(attempts, k requires 0 <= k => Post(r, k + 1, body))
      invariant log == seq(if success then attempts - 1 else attempts, k requires 0 <= k => AttemptFailed(r, k + 1))
                       + (if success then [Created(r)] else [])
    {
      attempts := attempts + 1;
      posts := posts + [Post(r, attempts, body)];
      if respond(r, attempts) {
        log := log + [Created(r)];
        success := true;
      } else {
        log := log + [AttemptFailed(r, attempts)];
      }
    }
    assert success ==> FirstOk(respond, r, 1) == attempts;
    assert !success ==> FirstOk(respond, r, 1) == MaxAttempts + 1;
    if !success {
      log := log + [GaveUp(r)];
    }
  }

  /** The log lines of the first `n` records of a run, record after record. */
  function RunLog(respond: Oracle, n: nat): seq<LogEntry>
  {
    if n == 0 then [] else RunLog(respond, n - 1) + RecordLog(respond, n - 1)
  }

  /** The create calls for a run over `bodies`, record after record. */
  function RunPosts<B>(respond: Oracle, bodies: seq<B>): seq<Post<B>>
  {
    if bodies == [] then []
    else RunPosts(respond, bodies[..|bodies| - 1]) + RecordPosts(respond, |bodies| - 1, bodies[|bodies| - 1])
  }

  /** Every record of a run ends with exactly one outcome line: the success
      line when it was created, the final failure line otherwise; records
      outside the run have none. */
  lemma RunLogOutcomes(respond: Oracle, n: nat, r: nat)
    ensures multiset(RunLog(respond, n))[Created(r)] == (if r < n && Succeeds(respond, r) then 1 else 0)
    ensures multiset(RunLog(respond, n))[GaveUp(r)] == (if r < n && !Succeeds(respond, r) then 1 else 0)
  {
    var s := Succeeds(respond, r);
    var f := (q: nat) => RecordLog(respond, q);
    RunLogConcat(respond, n);
    forall q: nat | q != r
      ensures Created(r) !in f(q) && GaveUp(r) !in f(q)
    {
      RecordLogLines(respond, q);
    }
    ConcatCount(f, n, Created(r), r);
    ConcatCount(f, n, GaveUp(r), r);
    RecordLogCount(respond, r, Created(r), r, s);
    RecordLogCount(respond, r, GaveUp(r), r, !s);
  }

  /** A run's log is its records' logs one after the other. */
  lemma {:induction false} RunLogConcat(respond: Oracle, n: nat)
    ensures RunLog(respond, n) == Concat((q: nat) => RecordLog(respond, q), n)
  {
    if n > 0 {
      RunLogConcat(respond, n - 1);
    }
  }

  lemma MultisetAppend(a: seq<LogEntry>, b: seq<LogEntry>, x: LogEntry)
    ensures multiset(a + b)[x] == multiset(a)[x] + multiset(b)[x]
  {
    assert multiset(a + b) == multiset(a) + multiset(b);
  }

  lemma RecordLogCount(respond: Oracle, q: nat, x: LogEntry, r: nat, present: bool)
    requires x == Created(r) || x == GaveUp(r)
    requires present == (if x.Created? then Succeeds(respond, r) else !Succeeds(respond, r))
    ensures multiset(RecordLog(respond, q))[x] == (if r == q && present then 1 else 0)
  {
    var fails := seq(FirstOk(respond, q, 1) - 1, k requires 0 <= k => AttemptFailed(q, k + 1));
    var last := if Succeeds(respond, q) then Created(q) else GaveUp(q);
    assert RecordLog(respond, q) == fails + [last];
    assert x !in fails;
    assert multiset(fails)[x] == 0;
    MultisetAppend(fails, [last], x);
  }

  /** A run's log holds only per-record lines (failed attempt, created,
      gave up) of records in the run. */
  lemma {:induction false} RunLogLines(respond: Oracle, n: nat)
    ensures forall e :: e in RunLog(respond, n) ==>
      (e.AttemptFailed? || e.Created? || e.GaveUp?) && e.record < n
  {
    if n > 0 {
      RunLogLines(respond, n - 1);
      RecordLogLines(respond, n - 1);
    }
  }

  /** A record's log holds only its own failed-attempt, created and gave-up
      lines. */
  lemma RecordLogLines(respond: Oracle, q: nat)
    ensures forall e :: e in RecordLog(respond, q) ==>
      (e.AttemptFailed? || e.Created? || e.GaveUp?) && e.record == q
  {
    var log := RecordLog(respond, q);
    forall e | e in log
      ensures (e.AttemptFailed? || e.Created? || e.GaveUp?) && e.record == q
    {
      var i :| 0 <= i < |log| && log[i] == e;
    }
  }

  /** Record `q`'s create calls in a run over `bodies`, none past its end. */
  function RecordPostsOf<B>(respond: Oracle, bodies: seq<B>): nat -> seq<Post<B>>
  {
    (q: nat) => if q < |bodies| then RecordPosts(respond, q, bodies[q]) else []
  }

  /** A run's create calls are its records' calls one after the other. */
  lemma {:induction false} RunPostsConcat<B>(respond: Oracle, bodies: seq<B>, m: nat)
    requires m <= |bodies|
    ensures RunPosts(respond, bodies[..m]) == Concat(RecordPostsOf(respond, bodies), m)
  {
    if m > 0 {
      RunPostsConcat(respond, bodies, m - 1);
      assert bodies[..m][..m - 1] == bodies[..m - 1];
      assert RunPosts(respond, bodies[..m])
        == RunPosts(respond, bodies[..m - 1]) + RecordPosts(respond, m - 1, bodies[m - 1]);
    }
  }

  /** Record `q` makes each of its attempts once, as one call with its body. */
  lemma RecordPostsCount<B>(respond: Oracle, q: nat, body: B, x: Post<B>)
    ensures multiset(RecordPosts(respond, q, body))[x] ==
      if x.record == q && x.body == body && 1 <= x.attempt <= Attempts(respond, q) then 1 else 0
  {
    var ps := RecordPosts(respond, q, body);
    if x.record == q && x.body == body && 1 <= x.attempt <= Attempts(respond, q) {
      MultisetOnce(ps, x, x.attempt - 1);
    } else {
      assert x !in ps;
    }
  }

  /** Each record of a run gets exactly the calls for attempts 1 up to its
      number of attempts, each once and with its own body. */
  lemma RunPostsCount<B>(respond: Oracle, bodies: seq<B>, r: nat, a: nat)
    requires r < |bodies|
    ensures multiset(RunPosts(respond, bodies))[Post(r, a, bodies[r])] ==
      if 1 <= a <= Attempts(respond, r) then 1 else 0
  {
    var f := RecordPostsOf(respond, bodies);
    var x := Post(r, a, bodies[r]);
    RunPostsConcat(respond, bodies, |bodies|);
    assert bodies[..|bodies|] == bodies;
    forall q: nat | q != r
      ensures x !in f(q)
    {
      if q < |bodies| {
        RecordPostsCount(respond, q, bodies[q], x);
      }
    }
    ConcatCount(f, |bodies|, x, r);
    RecordPostsCount(respond, r, bodies[r], x);
  }

  /** Every create call of a run belongs to one of its records, posts that
      record's body and is attempt 1, 2 or 3. */
  lemma {:induction false} RunPostsFacts<B>(respond: Oracle, bodies: seq<B>)
    ensures forall p :: p in RunPosts(respond, bodies) ==>
      p.record < |bodies| && p.body == bodies[p.record] && 1 <= p.attempt <= Attempts(respond, p.record) <= MaxAttempts
  {
    if bodies != [] {
      var front := bodies[..|bodies| - 1];
      RunPostsFacts(respond, front);
      RetrySpec(respond, |bodies| - 1);
      forall p | p in RunPosts(respond, front)
        ensures p.body == bodies[p.record]
      {
        assert bodies[p.record] == front[p.record];
      }
    }
  }
}
