/** `postponePost(postContent, secondThreadContent, imagePath, cookies)`: launch a
    browser, open a page, then inside try/catch/finally run the publishing steps
    in a fixed order (setCookies once, then createPost, addSecondThread, the
    optional addImageToPost and submitPost, each inside its own
    `retryOperation` with the default arguments), log any error that escapes a
    step, and close the browser in `finally`.

    The browser steps themselves are opaque: `env(step)(k)` says whether attempt
    k of that step resolves or throws. Launching the browser and opening the
    page are two more fallible calls, given by `launch` and `newPage`. */
module Publish {
  import opened Outcomes
  import Retry

  /** The five browser-driving functions `postponePost` calls. */
  datatype Step = SetCookies | CreatePost | AddSecondThread | AddImageToPost | SubmitPost

  /** One post: the primary text, the second thread text and an image path. The
      last two may be absent (`undefined`) in the input data. */
  datatype Post = Post(content: string, secondContent: Option<string>, imagePath: Option<string>)

  /** The outcome of attempt k of each step. */
  type Env = Step -> nat -> Outcome

  /** What an observer of one `postponePost` call sees, in order. */
  datatype Event =
    | Launch                             // puppeteer.launch resolved
    | NewPage                            // browser.newPage resolved
    | Invoke(step: Step, attempt: nat)   // attempt `attempt` of a step
    | Wait(step: Step, ms: int)          // a retry delay after a failed attempt of a step
    | LogError(error: Error)             // the catch block's console.error
    | Close                              // browser.close in finally

  datatype PublishRun = PublishRun(events: seq<Event>, settled: Settled)

  /** JavaScript truthiness of the `imagePath` argument: `undefined` and `""` are falsy. */
  predicate Truthy(path: Option<string>)
  {
    path.Some? && path.value != ""
  }

  /** The steps the try block calls, in source order, when none of them throws. */
  function Plan(post: Post): seq<Step>
  {
    [SetCookies, CreatePost, AddSecondThread]
      + (if Truthy(post.imagePath) then [AddImageToPost] else [])
      + [SubmitPost]
  }

  /** One step as the try block runs it: `setCookies` is awaited once, the other
      steps go through `retryOperation` with its default arguments. */
  function StepRun(step: Step, env: Env): Retry.RetryRun
  {
    if step == SetCookies then
      var o := env(SetCookies)(1);
      Retry.RetryRun([Retry.Invoke(1)], if o.Success? then Returned else Threw(o.error))
    else Retry.Run(env(step), Retry.DefaultRetries, Retry.DefaultDelayMs)
  }

  function LiftEvent(step: Step, e: Retry.RetryEvent): Event
  {
    match e
    case Invoke(a) => Invoke(step, a)
    case Wait(ms) => Wait(step, ms)
  }

  /** The events of one step's retry loop, tagged with the step. */
  function Lift(step: Step, events: seq<Retry.RetryEvent>): seq<Event>
  {
    seq(|events|, i requires 0 <= i < |events| => LiftEvent(step, events[i]))
  }

  /** What the try block produces: its events, and the error that escaped it, if
      any. A block has no normal result of its own, so the catch block's input is
      just an optional error. */
  datatype Block = Block(events: seq<Event>, thrown: Option<Error>)

  /** The try block as a reference definition: run `steps` in order and stop at
      the first one that throws. */
  function RunSteps(steps: seq<Step>, env: Env): Block
  {
    if steps == [] then Block([], None)
    else
      var r := StepRun(steps[0], env);
      var here := Lift(steps[0], r.events);
      if r.completion.Threw? then Block(here, Some(r.completion.error))
      else
        var rest := RunSteps(steps[1..], env);
        Block(here + rest.events, rest.thrown)
  }

  /** The whole observable run of `postponePost`. */
  function Publish(post: Post, launch: Outcome, newPage: Outcome, env: Env): PublishRun
  {
    if launch.Failure? then PublishRun([], Rejected(launch.error))
    else if newPage.Failure? then PublishRun([Launch], Rejected(newPage.error))
    else
      var body := RunSteps(Plan(post), env);
      var caught := if body.thrown.Some? then [LogError(body.thrown.value)] else [];
      PublishRun([Launch, NewPage] + body.events + caught + [Close], Resolved)
  }

  /** Index in `steps` of the first step that throws, or `|steps|` if none does. */
  function FirstFailure(steps: seq<Step>, env: Env): (k: nat)
    ensures k <= |steps|
    ensures forall j :: 0 <= j < k ==> StepRun(steps[j], env).completion.Returned?
    ensures k < |steps| ==> StepRun(steps[k], env).completion.Threw?
  {
    if steps == [] then 0
    else if StepRun(steps[0], env).completion.Threw? then 0
    else 1 + FirstFailure(steps[1..], env)
  }

  /** How many of `steps` the try block reaches: all of them, or up to and
      including the first that throws. */
  function Reached(steps: seq<Step>, env: Env): nat
  {
    var k := FirstFailure(steps, env);
    if k < |steps| then k + 1 else k
  }

  /** The steps that were started, in the order they were started: the step of
      every first attempt. */
  function Started(events: seq<Event>): seq<Step>
  {
    if events == [] then []
    else
      var first := if events[0].Invoke? && events[0].attempt == 1 then [events[0].step] else [];
      first + Started(events[1..])
  }

  /** A step event: an invocation of a step, or a retry delay of a step. */
  predicate IsStepEvent(e: Event)
  {
    e.Invoke? || e.Wait?
  }

  lemma {:induction false} StartedAppend(a: seq<Event>, b: seq<Event>)
    ensures Started(a + b) == Started(a) + Started(b)
    decreases |a|
  {
    if a == [] {
      assert a + b == b;
    } else {
      assert (a + b)[0] == a[0];
      assert (a + b)[1..] == a[1..] + b;
      StartedAppend(a[1..], b);
    }
  }

  lemma {:induction false} StartedOfNonStepEvents(a: seq<Event>)
    requires forall i :: 0 <= i < |a| ==> !IsStepEvent(a[i])
    ensures Started(a) == []
    decreases |a|
  {
    if a != [] {
      StartedOfNonStepEvents(a[1..]);
    }
  }

  /** Every step run begins with its first attempt and never starts it again. */
  lemma StepRunShape(step: Step, env: Env)
    ensures var e := StepRun(step, env).events;
      && e != [] && e[0] == Retry.Invoke(1)
      && (forall i :: 0 < i < |e| && e[i].Invoke? ==> e[i].attempt > 1)
  {
    if step != SetCookies {
      Retry.RunFromShape(env(step), Retry.DefaultRetries, Retry.DefaultDelayMs, 1);
      var e := StepRun(step, env).events;
      forall i | 0 < i < |e| && e[i].Invoke? ensures e[i].attempt > 1 {
        assert i % 2 == 0;
      }
    }
  }

  lemma {:induction false} StartedOfLaterAttempts(step: Step, e: seq<Retry.RetryEvent>)
    requires forall i :: 0 <= i < |e| && e[i].Invoke? ==> e[i].attempt > 1
    ensures Started(Lift(step, e)) == []
    decreases |e|
  {
    if e != [] {
      assert Lift(step, e)[1..] == Lift(step, e[1..]);
      StartedOfLaterAttempts(step, e[1..]);
    }
  }

  /** Lifting one step run: it starts exactly that step, once, and all its
      events are step events of that step. */
  lemma StartedOfStep(step: Step, env: Env)
    ensures Started(Lift(step, StepRun(step, env).events)) == [step]
    ensures forall ev <- Lift(step, StepRun(step, env).events) :: IsStepEvent(ev) && ev.step == step
  {
    StepRunShape(step, env);
    var e := StepRun(step, env).events;
    var l := Lift(step, e);
    assert l[1..] == Lift(step, e[1..]);
    StartedOfLaterAttempts(step, e[1..]);
  }

  /** The try block starts the steps of `steps` in order, each once, up to and
      including the first that throws. */
  lemma {:induction false} RunStepsStarted(steps: seq<Step>, env: Env)
    ensures Started(RunSteps(steps, env).events) == steps[..Reached(steps, env)]
    decreases |steps|
  {
    if steps != [] {
      var r := StepRun(steps[0], env);
      StartedOfStep(steps[0], env);
      if r.completion.Returned? {
        RunStepsStarted(steps[1..], env);
        StartedAppend(Lift(steps[0], r.events), RunSteps(steps[1..], env).events);
        assert Reached(steps, env) == Reached(steps[1..], env) + 1;
        assert [steps[0]] + steps[1..][..Reached(steps[1..], env)] == steps[..Reached(steps, env)];
      }
    }
  }

  /** Exactly the error of the first step that throws escapes the try block. */
  lemma {:induction false} RunStepsThrown(steps: seq<Step>, env: Env)
    ensures RunSteps(steps, env).thrown
         == if FirstFailure(steps, env) < |steps| then Some(StepRun(steps[FirstFailure(steps, env)], env).completion.error) else None
    decreases |steps|
  {
    if steps != [] && StepRun(steps[0], env).completion.Returned? {
      RunStepsThrown(steps[1..], env);
    }
  }

  /** The try block has no event of a step beyond the first that throws. */
  lemma {:induction false} RunStepsTouches(steps: seq<Step>, env: Env)
    ensures forall ev <- RunSteps(steps, env).events :: IsStepEvent(ev) && ev.step in steps[..Reached(steps, env)]
    decreases |steps|
  {
    if steps != [] {
      var r := StepRun(steps[0], env);
      var here := Lift(steps[0], r.events);
      StartedOfStep(steps[0], env);
      assert steps[0] == steps[..Reached(steps, env)][0];
      if r.completion.Returned? {
        var rest := RunSteps(steps[1..], env).events;
        RunStepsTouches(steps[1..], env);
        assert steps[1..][..Reached(steps[1..], env)] == steps[..Reached(steps, env)][1..];
        forall ev <- here + rest ensures IsStepEvent(ev) && ev.step in steps[..Reached(steps, env)] {
          if ev !in here {
            assert ev in rest;
          }
        }
      }
    }
  }

  /** The try block framed by the launch, the catch block and the finally block
      starts the same steps and has the same step events. */
  lemma {:induction false} FrameKeepsSteps(body: seq<Event>, caught: seq<Event>)
    requires forall i :: 0 <= i < |caught| ==> !IsStepEvent(caught[i])
    ensures var e := [Launch, NewPage] + body + caught + [Close];
      && Started(e) == Started(body)
      && (forall ev <- e :: IsStepEvent(ev) ==> ev in body)
  {
    StartedAppend([Launch, NewPage], body);
    StartedAppend([Launch, NewPage] + body, caught);
    StartedAppend([Launch, NewPage] + body + caught, [Close]);
    StartedOfNonStepEvents([Launch, NewPage]);
    StartedOfNonStepEvents(caught);
    StartedOfNonStepEvents([Close]);
  }

  /** `browser.close()` runs exactly once, and last, whenever the browser and
      its page were opened; no error escapes `postponePost` then. If launching
      fails nothing happens; if opening the page fails the call rejects before
      the try block, so the launched browser is never closed. */
  lemma CloseExactlyOnce(post: Post, launch: Outcome, newPage: Outcome, env: Env)
    ensures var run := Publish(post, launch, newPage, env);
      && (launch.Success? && newPage.Success? ==>
            && run.settled == Resolved
            && run.events[..2] == [Launch, NewPage]
            && multiset(run.events)[Close] == 1
            && run.events[|run.events| - 1] == Close)
      && (launch.Failure? ==> run == PublishRun([], Rejected(launch.error)))
      && (launch.Success? && newPage.Failure? ==>
            run.settled == Rejected(newPage.error) && Close !in run.events)
  {
    if launch.Success? && newPage.Success? {
      var body := RunSteps(Plan(post), env);
      RunStepsTouches(Plan(post), env);
      assert Close !in body.events;
      var caught := if body.thrown.Some? then [LogError(body.thrown.value)] else [];
      var e := [Launch, NewPage] + body.events + caught + [Close];
      assert multiset(e) == multiset([Launch, NewPage]) + multiset(body.events) + multiset(caught) + multiset([Close]);
    }
  }

  /** Steps are started in source order, each at most once: the started steps
      are a prefix of setCookies, createPost, addSecondThread, addImageToPost
      (only when `imagePath` is truthy), submitPost, ending at the first step
      that throws, and no step after it has any event. */
  lemma StepsFollowPlan(post: Post, launch: Outcome, newPage: Outcome, env: Env)
    requires launch.Success? && newPage.Success?
    ensures var run := Publish(post, launch, newPage, env);
      && Started(run.events) == Plan(post)[..Reached(Plan(post), env)]
      && (forall ev <- run.events :: IsStepEvent(ev) ==> ev.step in Started(run.events))
  {
    var body := RunSteps(Plan(post), env);
    RunStepsStarted(Plan(post), env);
    RunStepsTouches(Plan(post), env);
    var caught := if body.thrown.Some? then [LogError(body.thrown.value)] else [];
    FrameKeepsSteps(body.events, caught);
  }

  /** The error of the first step that exhausts its attempts does not escape
      `postponePost`: it is logged just before the browser is closed, and the
      call resolves. */
  lemma ErrorIsCaught(post: Post, launch: Outcome, newPage: Outcome, env: Env)
    requires launch.Success? && newPage.Success?
    requires FirstFailure(Plan(post), env) < |Plan(post)|
    ensures var run := Publish(post, launch, newPage, env);
      && run.settled == Resolved
      && run.events[|run.events| - 2..]
         == [LogError(StepRun(Plan(post)[FirstFailure(Plan(post), env)], env).completion.error), Close]
  {
    RunStepsThrown(Plan(post), env);
  }

  /** When no step throws, nothing is logged and the call resolves. */
  lemma NothingLoggedOnSuccess(post: Post, launch: Outcome, newPage: Outcome, env: Env)
    requires launch.Success? && newPage.Success?
    requires FirstFailure(Plan(post), env) == |Plan(post)|
    ensures var run := Publish(post, launch, newPage, env);
      && run.settled == Resolved
      && forall ev <- run.events :: !ev.LogError?
  {
    var body := RunSteps(Plan(post), env);
    RunStepsThrown(Plan(post), env);
    RunStepsTouches(Plan(post), env);
    assert Publish(post, launch, newPage, env).events == [Launch, NewPage] + body.events + [Close];
  }

  /** When no step throws, every planned step runs: addSecondThread always
      (whether or not there is second-thread text), addImageToPost exactly when
      `imagePath` is truthy, and submitPost last. */
  lemma AllStepsRun(post: Post, launch: Outcome, newPage: Outcome, env: Env)
    requires launch.Success? && newPage.Success?
    requires forall j :: 0 <= j < |Plan(post)| ==> StepRun(Plan(post)[j], env).completion.Returned?
    ensures var started := Started(Publish(post, launch, newPage, env).events);
      && started == Plan(post)
      && |started| >= 4
      && started[..3] == [SetCookies, CreatePost, AddSecondThread]
      && (AddImageToPost in started <==> Truthy(post.imagePath))
      && started[|started| - 1] == SubmitPost
  {
    var plan := Plan(post);
    StepsFollowPlan(post, launch, newPage, env);
    assert plan[3] == AddImageToPost <==> Truthy(post.imagePath);
  }

  /** One step as the try block awaits it. */
  method PerformStep(step: Step, env: Env) returns (events: seq<Event>, completion: Completion)
    ensures events == Lift(step, StepRun(step, env).events)
    ensures completion == StepRun(step, env).completion
  {
    if step == SetCookies {
      events := [Invoke(SetCookies, 1)];
      var o := env(SetCookies)(1);
      completion := if o.Success? then Returned else Threw(o.error);
    } else {
      var _, _, c, e := Retry.RetryOperation(env(step), Retry.DefaultRetries, Retry.DefaultDelayMs);
      events := Lift(step, e);
      completion := c;
    }
  }

  /** The try block run one step further: if the events so far are `done` and
      the steps still to run are `steps`, performing the first of them either
      ends the block with its error or leaves `steps[1..]` to run. */
  lemma {:induction false} Advance(full: Block, done: seq<Event>, steps: seq<Step>, env: Env, e: seq<Event>, c: Completion)
    requires steps != []
    requires full == Block(done + RunSteps(steps, env).events, RunSteps(steps, env).thrown)
    requires e == Lift(steps[0], StepRun(steps[0], env).events)
    requires c == StepRun(steps[0], env).completion
    ensures c.Threw? ==> full == Block(done + e, Some(c.error))
    ensures c.Returned? ==>
      full == Block((done + e) + RunSteps(steps[1..], env).events, RunSteps(steps[1..], env).thrown)
  {
    if c.Returned? {
      assert done + (e + RunSteps(steps[1..], env).events) == (done + e) + RunSteps(steps[1..], env).events;
    }
  }

  /** The try block of `postponePost`: each awaited step that throws leaves it
      at once with that error. */
  method TryBlock(post: Post, env: Env) returns (events: seq<Event>, thrown: Option<Error>)
    ensures Block(events, thrown) == RunSteps(Plan(post), env)
  {
    ghost var full := RunSteps(Plan(post), env);
    ghost var rest := Plan(post);
    events := [];
    assert full == Block(events + RunSteps(rest, env).events, RunSteps(rest, env).thrown);
    var e, c := PerformStep(SetCookies, env);
    Advance(full, events, rest, env, e, c);
    if c.Threw? {
      return events + e, Some(c.error);
    }
    events, rest := events + e, rest[1..];
    e, c := PerformStep(CreatePost, env);
    Advance(full, events, rest, env, e, c);
    if c.Threw? {
      return events + e, Some(c.error);
    }
    events, rest := events + e, rest[1..];
    e, c := PerformStep(AddSecondThread, env);
    Advance(full, events, rest, env, e, c);
    if c.Threw? {
      return events + e, Some(c.error);
    }
    events, rest := events + e, rest[1..];
    if Truthy(post.imagePath) {
      e, c := PerformStep(AddImageToPost, env);
      Advance(full, events, rest, env, e, c);
      if c.Threw? {
        return events + e, Some(c.error);
      }
      events, rest := events + e, rest[1..];
    }
    assert rest == [SubmitPost];
    e, c := PerformStep(SubmitPost, env);
    Advance(full, events, rest, env, e, c);
    assert RunSteps(rest[1..], env) == Block([], None);
    assert (events + e) + [] == events + e;
    events := events + e;
    thrown := if c.Threw? then Some(c.error) else None;
  }
  /** `postponePost`: launch and open a page, run the try block, log the error
      that escaped it if any (catch), and close the browser (finally). */
  method PostponePost(post: Post, launch: Outcome, newPage: Outcome, env: Env)
    returns (events: seq<Event>, settled: Settled)
    ensures PublishRun(events, settled) == Publish(post, launch, newPage, env)
  {
    if launch.Failure? {
      return [], Rejected(launch.error);
    }
    events := [Launch];
    if newPage.Failure? {
      return events, Rejected(newPage.error);
    }
    events := events + [NewPage];
    var body, thrown := TryBlock(post, env);
    events := events + body;
    if thrown.Some? {
      events := events + [LogError(thrown.value)];
    }
    events := events + [Close];
    settled := Resolved;
  }
}
