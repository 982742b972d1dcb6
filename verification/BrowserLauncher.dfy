/** Launching a browser with fallbacks: each candidate is tried once, failed browsers are closed first. */
module BrowserLauncher {
  import opened Text

  /** A channel name, or none for the bundled browser. */
  type Channel = Option<string>

  const FALLBACKS: seq<Channel> := [None, Some("chromium-headless-shell"), Some("msedge"), Some("chrome")]

  /** How one attempt goes; a close that raises is swallowed. */
  datatype Attempt = LaunchFails | ContextFails(closeRaises: bool) | PageFails(closeRaises: bool) | Works

  datatype Event =
    | Launch(channel: Channel, ok: bool)
    | NewContext(ok: bool)
    | NewPage(ok: bool)
    | Close(raised: bool)

  /** The requested channel, from the stripped lower-case environment value. */
  function Requested(value: string): Channel {
    if value in {"", "chromium", "bundled"} then None else Some(value)
  }

  predicate Distinct(cs: seq<Channel>) {
    forall i, j :: 0 <= i < j < |cs| ==> cs[i] != cs[j]
  }

  function Candidates(value: string): (r: seq<Channel>)
    ensures |r| >= 1 && r[0] == Requested(value) && Distinct(r)
    ensures r[0] == None <==> value == "" || value == "chromium" || value == "bundled"
    ensures r[0] != None ==> r[0] == Some(value)
    ensures forall c :: c in r <==> c == Requested(value) || c in FALLBACKS
  {
    [Requested(value)] + Others(FALLBACKS, Requested(value))
  }

  function Others(cs: seq<Channel>, c: Channel): (r: seq<Channel>)
    ensures c !in r && forall d :: d in r <==> d in cs && d != c
    ensures Distinct(cs) ==> Distinct(r)
  {
    if cs == [] then []
    else
      var n := |cs| - 1;
      assert Distinct(cs) ==> Distinct(cs[..n]) && cs[n] !in cs[..n];
      if cs[n] == c then Others(cs[..n], c) else Others(cs[..n], c) + [cs[n]]
  }

  // ---------------------------------------------------------------- the protocol

  datatype Phase = Idle | Launched | InContext | Doomed | Ready

  /** Which event may follow in which phase; `None` is a breach of the protocol. */
  function Step(phase: Phase, e: Event): Option<Phase> {
    match (phase, e)
    case (Idle, Launch(_, ok)) => Some(if ok then Launched else Idle)
    case (Launched, NewContext(ok)) => Some(if ok then InContext else Doomed)
    case (InContext, NewPage(ok)) => Some(if ok then Ready else Doomed)
    case (Doomed, Close(_)) => Some(Idle)
    case _ => None
  }

  function Replay(trace: seq<Event>): Option<Phase> {
    if trace == [] then Some(Idle)
    else
      match Replay(trace[..|trace| - 1])
      case None => None
      case Some(phase) => Step(phase, trace[|trace| - 1])
  }

  lemma {:induction false} ReplayAppend(trace: seq<Event>, e: Event)
    ensures Replay(trace + [e]) == match Replay(trace) case None => None case Some(p) => Step(p, e)
  {
    assert (trace + [e])[..|trace|] == trace;
  }

  /** Launches in a trace, in order. */
  function Launches(trace: seq<Event>): seq<Channel> {
    if trace == [] then []
    else Launches(trace[..|trace| - 1]) + if trace[|trace| - 1].Launch? then [trace[|trace| - 1].channel] else []
  }

  /** A protocol trace stays one when cut anywhere: the guarantees hold at every moment. */
  lemma {:induction false} ReplayPrefix(trace: seq<Event>, n: nat)
    requires Replay(trace).Some? && n <= |trace|
    ensures Replay(trace[..n]).Some?
    decreases |trace|
  {
    if n < |trace| {
      assert trace[..|trace| - 1][..n] == trace[..n];
      ReplayPrefix(trace[..|trace| - 1], n);
    } else {
      assert trace[..n] == trace;
    }
  }

  /** In a protocol trace, a browser that launched but failed later is closed before the next launch. */
  lemma ClosedBeforeNextLaunch(trace: seq<Event>, n: nat)
    requires Replay(trace).Some? && 0 < n < |trace| && trace[n].Launch?
    ensures trace[n - 1].Close? || (trace[n - 1].Launch? && !trace[n - 1].ok)
  {
    ReplayPrefix(trace, n + 1);
    assert trace[..n + 1][..n] == trace[..n];
    assert trace[..n][..n - 1] == trace[..n - 1];
  }

  /** What one attempt puts on the log. */
  function AttemptLog(channel: Channel, attempt: Attempt): seq<Event> {
    match attempt
    case LaunchFails => [Launch(channel, false)]
    case ContextFails(raised) => [Launch(channel, true), NewContext(false), Close(raised)]
    case PageFails(raised) => [Launch(channel, true), NewContext(true), NewPage(false), Close(raised)]
    case Works => [Launch(channel, true), NewContext(true), NewPage(true)]
  }

  lemma AddedAll(before: seq<Event>, log: seq<Event>, e: Event)
    ensures before + log + [e] == before + (log + [e])
  {
  }

  predicate EndsIn(trace: seq<Event>, log: seq<Event>) {
    |log| <= |trace| && trace[|trace| - |log|..] == log
  }

  lemma EndsInLast(before: seq<Event>, log: seq<Event>)
    ensures EndsIn(before + log, log)
  {
  }

  lemma NothingYet()
    ensures Replay([]) == Some(Idle) && Launches([]) == []
  {
  }

  /** At rest no browser is open: the last event, if any, is a close or a launch that gave none. */
  lemma IdleIsClosed(trace: seq<Event>)
    requires Replay(trace) == Some(Idle) && trace != []
    ensures var last := trace[|trace| - 1]; last.Close? || (last.Launch? && !last.ok)
  {
  }

  /** `launch_browser`, for any outcome of each attempt. The name shown for the bundled browser is "chromium". */
  method LaunchBrowser(value: string, outcome: nat -> Attempt)
      returns (winner: Option<Channel>, shown: string, trace: seq<Event>)
    ensures var candidates := Candidates(value);
      && Replay(trace) == Some(if winner.Some? then Ready else Idle)
      && (winner.None? <==> forall k :: 0 <= k < |candidates| ==> outcome(k) != Works)
      && (winner.None? ==> Launches(trace) == candidates)
      && (winner.Some? ==> exists k: nat :: FirstWorking(candidates, outcome, k) && Won(candidates, k, winner.value, trace))
      && (winner.Some? ==> EndsIn(trace, AttemptLog(winner.value, Works)))
      && (winner.Some? ==> shown == if winner.value == None then "chromium" else winner.value.value)
  {
    hide Replay, Launches, AttemptLog, EndsIn, Candidates;
    var candidates := Candidates(value);
    trace, shown := [], "";
    NothingYet();
    for k := 0 to |candidates|
      invariant Replay(trace) == Some(Idle) && Launches(trace) == candidates[..k]
      invariant forall m :: 0 <= m < k ==> outcome(m) != Works
    {
      var channel := candidates[k];
      var works;
      ghost var before := trace;
      works, trace := TryChannel(channel, outcome(k), trace);
      assert candidates[..k] + [channel] == candidates[..k + 1];
      if works {
        EndsInLast(before, AttemptLog(channel, Works));
        assert FirstWorking(candidates, outcome, k) && Won(candidates, k, channel, trace);
        return Some(channel), if channel == None then "chromium" else channel.value, trace;
      }
    }
    assert candidates[..|candidates|] == candidates;
    return None, "", trace;
  }

  /** One turn of the loop: launch, context, page, and a close as soon as one of the last two fails. */
  method TryChannel(channel: Channel, attempt: Attempt, before: seq<Event>) returns (works: bool, trace: seq<Event>)
    requires Replay(before) == Some(Idle)
    ensures works <==> attempt == Works
    ensures trace == before + AttemptLog(channel, attempt)
    ensures Replay(trace) == Some(if works then Ready else Idle)
    ensures Launches(trace) == Launches(before) + [channel]
  {
    hide Replay, Launches;
    trace := Add(before, Launch(channel, !attempt.LaunchFails?));
    if attempt.LaunchFails? {
      return false, trace;
    }
    ghost var log := [Launch(channel, true)];
    trace := Add(trace, NewContext(!attempt.ContextFails?));
    AddedAll(before, log, NewContext(!attempt.ContextFails?));
    log := log + [NewContext(!attempt.ContextFails?)];
    if attempt.ContextFails? {
      trace := Add(trace, Close(attempt.closeRaises));
      AddedAll(before, log, Close(attempt.closeRaises));
      return false, trace;
    }
    trace := Add(trace, NewPage(!attempt.PageFails?));
    AddedAll(before, log, NewPage(!attempt.PageFails?));
    log := log + [NewPage(!attempt.PageFails?)];
    if attempt.PageFails? {
      trace := Add(trace, Close(attempt.closeRaises));
      AddedAll(before, log, Close(attempt.closeRaises));
      return false, trace;
    }
    return true, trace;
  }

  ghost predicate Won(candidates: seq<Channel>, k: nat, winner: Channel, trace: seq<Event>) {
    k < |candidates| && winner == candidates[k] && Launches(trace) == candidates[..k + 1]
  }

  ghost predicate FirstWorking(candidates: seq<Channel>, outcome: nat -> Attempt, k: nat) {
    k < |candidates| && outcome(k) == Works && forall m :: 0 <= m < k ==> outcome(m) != Works
  }

  function Add(trace: seq<Event>, e: Event): (r: seq<Event>)
    ensures r == trace + [e]
    ensures Replay(r) == match Replay(trace) case None => None case Some(p) => Step(p, e)
    ensures Launches(r) == Launches(trace) + if e.Launch? then [e.channel] else []
  {
    ReplayAppend(trace, e);
    trace + [e]
  }

  /** Whatever the request, at most five launches and never the same channel twice. */
  lemma CandidateCount(value: string)
    ensures |FALLBACKS| <= |Candidates(value)| <= |FALLBACKS| + 1
    ensures |Candidates(value)| == |FALLBACKS| <==> Requested(value) in FALLBACKS
  {
    OthersCount(FALLBACKS, Requested(value));
  }

  const SHELL: Channel := Some("chromium-headless-shell")
  const EDGE: Channel := Some("msedge")
  const CHROME: Channel := Some("chrome")

  function Unless(c: Channel, last: Channel): seq<Channel> {
    if c == last then [] else [last]
  }

  lemma FourOthers(w: Channel, x: Channel, y: Channel, z: Channel, c: Channel)
    ensures Others([w, x, y, z], c) == Unless(c, w) + Unless(c, x) + Unless(c, y) + Unless(c, z)
  {
    hide Others, Unless;
    NoOther(c);
    OneMoreOther([], w, c);
    OneMoreOther([w], x, c);
    OneMoreOther([w, x], y, c);
    OneMoreOther([w, x, y], z, c);
    assert [] + [w] == [w] && [w] + [x] == [w, x] && [w, x] + [y] == [w, x, y] && [w, x, y] + [z] == [w, x, y, z];
    assert [] + Unless(c, w) == Unless(c, w);
  }

  lemma NoOther(c: Channel)
    ensures Others([], c) == []
  {
  }

  /** The candidates in full: the requested channel, then the fallbacks in their order without it. */
  lemma CandidatesAre(value: string)
    ensures var c := Requested(value);
      Candidates(value) == [c] + (Unless(c, None) + Unless(c, SHELL) + Unless(c, EDGE) + Unless(c, CHROME))
  {
    hide Others, Unless;
    FourOthers(None, SHELL, EDGE, CHROME, Requested(value));
  }

  lemma OneMoreOther(cs: seq<Channel>, last: Channel, c: Channel)
    ensures Others(cs + [last], c) == Others(cs, c) + Unless(c, last)
  {
    assert (cs + [last])[..|cs|] == cs;
  }

  lemma {:induction false} OthersCount(cs: seq<Channel>, c: Channel)
    requires Distinct(cs)
    ensures |Others(cs, c)| == if c in cs then |cs| - 1 else |cs|
  {
    if cs != [] {
      OthersCount(cs[..|cs| - 1], c);
    }
  }
}
