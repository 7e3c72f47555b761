/**
 * The load test as `main` drives it: `parallel` sessions, each running every
 * sample of the list `iterations` times in order, and one counter summing
 * the verdicts of all exchanges.
 *
 * Sessions run one after the other here; the counter is the sum of the same
 * verdicts whatever order the concurrent sessions would deliver them in.
 */
module LoadTest {
  import Wave
  import Reply
  import Label
  import Exchange

  /** What the file system holds at a sample's path. */
  datatype FileState = Missing | Unreadable | Readable(wav: seq<Wave.byte>)

  datatype Sample = Sample(path: string, state: FileState)

  /** One exchange to run: the audio, its 1-based iteration index, the sample's path. */
  datatype Job = Job(wav: seq<Wave.byte>, count: int, path: string)

  /** What a session does next: run an exchange, or fail to read a sample. */
  datatype Step = Run(job: Job) | ReadFails

  function Max0(n: int): nat { if n >= 0 then n else 0 }

  /** The exchanges for iteration indices `from`..`iters` of one sample. */
  function IterationJobs(wav: seq<Wave.byte>, path: string, from: int, iters: int): (steps: seq<Step>)
    ensures |steps| == Max0(iters - from + 1)
    ensures forall k :: 0 <= k < |steps| ==> steps[k] == Run(Job(wav, from + k, path))
    decreases Max0(iters - from + 1)
  {
    if from > iters then [] else [Run(Job(wav, from, path))] + IterationJobs(wav, path, from + 1, iters)
  }

  /**
   * A sample's share of a session: nothing when it does not exist, a read
   * failure when it cannot be read, else `iters` exchanges.
   */
  function FileSteps(sample: Sample, iters: int): seq<Step>
  {
    match sample.state
    case Missing => []
    case Unreadable => [ReadFails]
    case Readable(wav) => IterationJobs(wav, sample.path, 1, iters)
  }

  /** Everything one session does, sample after sample. */
  function Schedule(files: seq<Sample>, iters: int): seq<Step>
  {
    if files == [] then [] else FileSteps(files[0], iters) + Schedule(files[1..], iters)
  }

  /** How a session ends: with the counter and the unread replies, or with a crash. */
  datatype SessionOutcome =
    | Finished(successes: int, rest: seq<string>)
    | Failed(failure: Exchange.Failure)

  /** One exchange of a job against the replies waiting on the connection. */
  type Runner = (Job, seq<string>) -> Exchange.ExchangeResult

  /** A runner whose completed exchanges read waiting replies and judge 0 or 1. */
  ghost predicate Sound(run: Runner)
  {
    forall job: Job, inbox: seq<string> :: run(job, inbox).Completed? ==>
      1 <= run(job, inbox).consumed <= |inbox| && 0 <= run(job, inbox).verdict <= 1
  }

  /** `test_audio` with the label derived from the job's path, as the session runs it. */
  function Runs(decode: Exchange.Decoder): (run: Runner)
    ensures Sound(run)
  {
    (job: Job, inbox: seq<string>) =>
      Exchange.Exchange(job.wav, inbox, job.count, Label.ExpectedLabel(job.path), decode)
  }

  lemma RunsExchange(decode: Exchange.Decoder, job: Job, inbox: seq<string>)
    ensures Runs(decode)(job, inbox)
         == Exchange.Exchange(job.wav, inbox, job.count, Label.ExpectedLabel(job.path), decode)
  {
  }

  /**
   * Running the steps against one connection whose replies are `inbox`,
   * adding each verdict to the counter `successes`.
   */
  function RunSteps(steps: seq<Step>, inbox: seq<string>, run: Runner, successes: int): SessionOutcome
    requires Sound(run)
  {
    if steps == [] then Finished(successes, inbox)
    else match steps[0]
      case ReadFails => Failed(Exchange.ReadFailed)
      case Run(job) =>
        match run(job, inbox)
        case Aborted(_, f) => Failed(f)
        case Completed(_, consumed, verdict) =>
          RunSteps(steps[1..], inbox[consumed..], run, successes + verdict)
  }

  /** The replies waiting on session `s`'s connection; none for a session without one. */
  function Inbox(inboxes: seq<seq<string>>, s: int): seq<string>
  {
    if 0 <= s < |inboxes| then inboxes[s] else []
  }

  /** The tally of all sessions, or the failure of the first that crashes. */
  datatype Tally = Tallied(successes: int) | Crashed(failure: Exchange.Failure)

  /** Sessions `from`..`parallel`-1, in order, sharing the counter. */
  function RunSessions(steps: seq<Step>, inboxes: seq<seq<string>>, run: Runner,
                       from: nat, parallel: nat, successes: int): Tally
    requires Sound(run)
    decreases parallel - from
  {
    if from >= parallel then Tallied(successes)
    else match RunSteps(steps, Inbox(inboxes, from), run, successes)
      case Failed(f) => Crashed(f)
      case Finished(total, _) => RunSessions(steps, inboxes, run, from + 1, parallel, total)
  }

  /**
   * Why the run ends without a summary: an exit before any session starts,
   * or the failure of a session (a panic, or a chunk walk that would never
   * end, where the program hangs instead).
   */
  datatype Exit =
    | NoAudioFiles
    | NoEndpoint
    | NegativeParallel          // the wait group refuses a negative count
    | SessionFailed(failure: Exchange.Failure)

  datatype Report = Summary(successes: int, requests: int) | Exited(reason: Exit)

  /**
   * The number of exchanges the sessions run: one per session, sample and
   * iteration. This is the total the summary evidently means to print.
   */
  function RequestCount(files: seq<Sample>, iters: int, parallel: int): int
  {
    parallel * |Schedule(files, iters)|
  }

  /** The denominator the summary line prints: iterations times sessions. */
  function PrintedTotal(iters: int, parallel: int): int
  {
    iters * parallel
  }

  /** The whole run, from the sample list to the summary line as printed. */
  function LoadTest(files: seq<Sample>, endpoint: string, iters: int, parallel: int,
                    inboxes: seq<seq<string>>, decode: Exchange.Decoder): Report
  {
    if |files| == 0 then Exited(NoAudioFiles)
    else if endpoint == [] then Exited(NoEndpoint)
    else if parallel < 0 then Exited(NegativeParallel)
    else match RunSessions(Schedule(files, iters), inboxes, Runs(decode), 0, parallel, 0)
      case Crashed(f) => Exited(SessionFailed(f))
      case Tallied(n) => Summary(n, PrintedTotal(iters, parallel))
  }

  /**
   * The run with the summary the program evidently intends: the successes
   * out of the exchanges actually run, which they never exceed.
   */
  function IntendedReport(files: seq<Sample>, endpoint: string, iters: int, parallel: int,
                          inboxes: seq<seq<string>>, decode: Exchange.Decoder): (r: Report)
    ensures r.Summary? ==> 0 <= r.successes <= r.requests
  {
    match LoadTest(files, endpoint, iters, parallel, inboxes, decode)
    case Exited(reason) => Exited(reason)
    case Summary(n, _) =>
      SuccessesWithinRequests(files, endpoint, iters, parallel, inboxes, decode);
      Summary(n, RequestCount(files, iters, parallel))
  }

  // ---------------------------------------------------------------------
  // The driver loops

  lemma ScheduleFrom(files: seq<Sample>, iters: int, f: nat)
    requires f < |files|
    ensures Schedule(files[f..], iters) == FileSteps(files[f], iters) + Schedule(files[f + 1..], iters)
  {
    assert files[f..][0] == files[f] && files[f..][1..] == files[f + 1..];
  }

  /** Running an exchange step first, then the rest. */
  lemma RunFirst(job: Job, rest: seq<Step>, inbox: seq<string>, run: Runner, successes: int)
    requires Sound(run)
    ensures var x := run(job, inbox);
      RunSteps([Run(job)] + rest, inbox, run, successes)
      == (if x.Aborted? then Failed(x.failure)
          else RunSteps(rest, inbox[x.consumed..], run, successes + x.verdict))
  {
    assert ([Run(job)] + rest)[0] == Run(job) && ([Run(job)] + rest)[1..] == rest;
  }

  /** Running two step lists one after the other: the second starts where the first finished. */
  lemma {:induction false} RunStepsAppend(first: seq<Step>, second: seq<Step>, inbox: seq<string>,
                                          run: Runner, successes: int)
    requires Sound(run)
    ensures RunSteps(first + second, inbox, run, successes)
         == match RunSteps(first, inbox, run, successes)
            case Failed(f) => Failed(f)
            case Finished(total, rest) => RunSteps(second, rest, run, total)
  {
    if first == [] {
      assert first + second == second;
    } else {
      assert (first + second)[0] == first[0] && (first + second)[1..] == first[1..] + second;
      if first[0].Run? {
        var x := run(first[0].job, inbox);
        if x.Completed? {
          RunStepsAppend(first[1..], second, inbox[x.consumed..], run, successes + x.verdict);
        }
      }
    }
  }

  /**
   * One iteration of a sample: its exchange `x` either ends the session or
   * hands the raised counter and the unread replies to the later iterations.
   */
  lemma IterationStep(wav: seq<Wave.byte>, path: string, c: int, iters: int, inbox: seq<string>,
                      run: Runner, successes: int, x: Exchange.ExchangeResult, o: SessionOutcome)
    requires Sound(run) && c <= iters
    requires x == run(Job(wav, c, path), inbox)
    requires o == if x.Aborted? then Failed(x.failure)
                  else Finished(successes + x.verdict, inbox[x.consumed..])
    ensures RunSteps(IterationJobs(wav, path, c, iters), inbox, run, successes)
         == match o
            case Failed(f) => Failed(f)
            case Finished(total, rest) => RunSteps(IterationJobs(wav, path, c + 1, iters), rest, run, total)
  {
    var job := Job(wav, c, path);
    assert IterationJobs(wav, path, c, iters) == [Run(job)] + IterationJobs(wav, path, c + 1, iters);
    RunFirst(job, IterationJobs(wav, path, c + 1, iters), inbox, run, successes);
  }

  /** One iteration: `test_audio` for the sample's `c`-th exchange, then the counter and the unread replies. */
  method Iteration(wav: seq<Wave.byte>, path: string, expected: string, c: int, iters: int,
                   inbox: seq<string>, decode: Exchange.Decoder, successes: int) returns (o: SessionOutcome)
    requires expected == Label.ExpectedLabel(path) && c <= iters
    ensures RunSteps(IterationJobs(wav, path, c, iters), inbox, Runs(decode), successes)
         == match o
            case Failed(f) => Failed(f)
            case Finished(total, rest) => RunSteps(IterationJobs(wav, path, c + 1, iters), rest, Runs(decode), total)
  {
    var x := Exchange.TestAudio(wav, inbox, c, expected, decode);
    if x.Aborted? {
      o := Failed(x.failure);
    } else {
      o := Finished(successes + x.verdict, inbox[x.consumed..]);
    }
    RunsExchange(decode, Job(wav, c, path), inbox);
    IterationStep(wav, path, c, iters, inbox, Runs(decode), successes, x, o);
  }

  /** The innermost loop: one sample's exchanges, iteration after iteration. */
  method Iterations(wav: seq<Wave.byte>, path: string, iters: int, inbox: seq<string>,
                    decode: Exchange.Decoder, successes: int) returns (outcome: SessionOutcome)
    ensures outcome == RunSteps(IterationJobs(wav, path, 1, iters), inbox, Runs(decode), successes)
  {
    var expected := Label.ExpectedLabel(path);
    var rest := inbox;
    var total := successes;
    var c := 1;
    while c <= iters
      invariant 1 <= c
      invariant RunSteps(IterationJobs(wav, path, c, iters), rest, Runs(decode), total)
             == RunSteps(IterationJobs(wav, path, 1, iters), inbox, Runs(decode), successes)
      decreases iters - c
    {
      var o := Iteration(wav, path, expected, c, iters, rest, decode, total);
      if o.Failed? {
        return o;
      }
      total, rest := o.successes, o.rest;
      c := c + 1;
    }
    return Finished(total, rest);
  }

  /** One session: every sample of the list, in order, on one connection. */
  method Session(files: seq<Sample>, iters: int, inbox: seq<string>, decode: Exchange.Decoder,
                 successes: int) returns (outcome: SessionOutcome)
    ensures outcome == RunSteps(Schedule(files, iters), inbox, Runs(decode), successes)
  {
    ghost var run := Runs(decode);
    var rest := inbox;
    var total := successes;
    var f := 0;
    while f < |files|
      invariant 0 <= f <= |files|
      invariant RunSteps(Schedule(files[f..], iters), rest, run, total)
             == RunSteps(Schedule(files, iters), inbox, run, successes)
    {
      ScheduleFrom(files, iters, f);
      RunStepsAppend(FileSteps(files[f], iters), Schedule(files[f + 1..], iters), rest, run, total);
      match files[f].state {
        case Missing =>
        case Unreadable =>
          return Failed(Exchange.ReadFailed);
        case Readable(wav) =>
          var o := Iterations(wav, files[f].path, iters, rest, decode, total);
          if o.Failed? {
            return o;
          }
          total, rest := o.successes, o.rest;
      }
      f := f + 1;
    }
    assert files[f..] == [];
    return Finished(total, rest);
  }

  /** The driver: the sessions one after the other, sharing the counter, then the summary. */
  method RunLoadTest(files: seq<Sample>, endpoint: string, iters: int, parallel: int,
                     inboxes: seq<seq<string>>, decode: Exchange.Decoder) returns (report: Report)
    ensures report == LoadTest(files, endpoint, iters, parallel, inboxes, decode)
  {
    if |files| == 0 {
      return Exited(NoAudioFiles);
    }
    if endpoint == [] {
      return Exited(NoEndpoint);
    }
    if parallel < 0 {
      return Exited(NegativeParallel);
    }
    ghost var steps := Schedule(files, iters);
    ghost var run := Runs(decode);
    var successes := 0;
    var s := 0;
    while s < parallel
      invariant 0 <= s <= parallel
      invariant RunSessions(steps, inboxes, run, s, parallel, successes)
             == RunSessions(steps, inboxes, run, 0, parallel, 0)
    {
      var o := Session(files, iters, Inbox(inboxes, s), decode, successes);
      if o.Failed? {
        return Exited(SessionFailed(o.failure));
      }
      successes := o.successes;
      s := s + 1;
    }
    report := Summary(successes, iters * parallel);
  }

  // ---------------------------------------------------------------------
  // Properties of the tally

  /** Each step adds a 0/1 verdict: a session adds at most one success per step. */
  lemma {:induction false} SessionBounds(steps: seq<Step>, inbox: seq<string>, run: Runner, successes: int)
    requires Sound(run)
    requires RunSteps(steps, inbox, run, successes).Finished?
    ensures successes <= RunSteps(steps, inbox, run, successes).successes <= successes + |steps|
  {
    if steps != [] {
      var x := run(steps[0].job, inbox);
      SessionBounds(steps[1..], inbox[x.consumed..], run, successes + x.verdict);
    }
  }

  /** One more session adds one more round of `n` steps. */
  lemma OneMoreSession(successes: int, parallel: int, from: int, n: int)
    ensures successes + n + (parallel - (from + 1)) * n == successes + (parallel - from) * n
  {
  }

  lemma {:induction false} SessionsBounds(steps: seq<Step>, inboxes: seq<seq<string>>, run: Runner,
                                          from: nat, parallel: nat, successes: int)
    requires Sound(run)
    requires RunSessions(steps, inboxes, run, from, parallel, successes).Tallied?
    ensures successes <= RunSessions(steps, inboxes, run, from, parallel, successes).successes
    ensures from <= parallel ==>
      RunSessions(steps, inboxes, run, from, parallel, successes).successes
        <= successes + (parallel - from) * |steps|
    decreases parallel - from
  {
    if from < parallel {
      var o := RunSteps(steps, Inbox(inboxes, from), run, successes);
      SessionBounds(steps, Inbox(inboxes, from), run, successes);
      SessionsBounds(steps, inboxes, run, from + 1, parallel, o.successes);
      OneMoreSession(successes, parallel, from, |steps|);
    }
  }

  /** The summary never reports more successes than exchanges run, nor fewer than none. */
  lemma SuccessesWithinRequests(files: seq<Sample>, endpoint: string, iters: int, parallel: int,
                                inboxes: seq<seq<string>>, decode: Exchange.Decoder)
    requires LoadTest(files, endpoint, iters, parallel, inboxes, decode).Summary?
    ensures var r := LoadTest(files, endpoint, iters, parallel, inboxes, decode);
      0 <= r.successes <= RequestCount(files, iters, parallel)
  {
    SessionsBounds(Schedule(files, iters), inboxes, Runs(decode), 0, parallel, 0);
  }

  /** The samples that can be read. */
  function ReadableCount(files: seq<Sample>): nat
  {
    if files == [] then 0 else (if files[0].state.Readable? then 1 else 0) + ReadableCount(files[1..])
  }

  /** A sample that can be read, or does not exist, only adds exchanges. */
  lemma FileStepsRun(sample: Sample, iters: int)
    requires !sample.state.Unreadable?
    ensures |FileSteps(sample, iters)| == (if sample.state.Readable? then Max0(iters) else 0)
    ensures forall k :: 0 <= k < |FileSteps(sample, iters)| ==> FileSteps(sample, iters)[k].Run?
  {
  }

  /** Every step of the concatenation is an exchange when every step of both parts is. */
  lemma AllRunAppend(head: seq<Step>, tail: seq<Step>)
    requires forall k :: 0 <= k < |head| ==> head[k].Run?
    requires forall k :: 0 <= k < |tail| ==> tail[k].Run?
    ensures forall k :: 0 <= k < |head + tail| ==> (head + tail)[k].Run?
  {
    forall k | 0 <= k < |head + tail| ensures (head + tail)[k].Run? {
      if k >= |head| {
        assert (head + tail)[k] == tail[k - |head|];
      }
    }
  }

  /**
   * Without unreadable samples, a session runs every existing sample
   * `iters` times: |Schedule| = (readable samples) × max(iters, 0).
   */
  lemma {:induction false} ScheduleLength(files: seq<Sample>, iters: int)
    requires forall i :: 0 <= i < |files| ==> !files[i].state.Unreadable?
    ensures |Schedule(files, iters)| == ReadableCount(files) * Max0(iters)
    ensures forall k :: 0 <= k < |Schedule(files, iters)| ==> Schedule(files, iters)[k].Run?
  {
    if files != [] {
      var head := FileSteps(files[0], iters);
      var tail := Schedule(files[1..], iters);
      assert Schedule(files, iters) == head + tail;
      ScheduleLength(files[1..], iters);
      FileStepsRun(files[0], iters);
      AllRunAppend(head, tail);
      var one := if files[0].state.Readable? then 1 else 0;
      var rest := ReadableCount(files[1..]);
      assert ReadableCount(files) == one + rest;
      assert (one + rest) * Max0(iters) == one * Max0(iters) + rest * Max0(iters);
    }
  }

  /**
   * A reply that echoes a job's label: unframed, with the label as its
   * transcript in any letter case, for audio that can be sliced.
   */
  predicate EchoReply(job: Job, reply: string, decode: Exchange.Decoder)
  {
    && Exchange.Playable(job.wav)
    && !Reply.IsFramed(reply)
    && Label.SameIgnoringCase(Label.Transcript(decode(reply)), Label.ExpectedLabel(job.path))
  }

  /** A session whose server answers every exchange with an echoing reply. */
  predicate Echoes(steps: seq<Step>, inbox: seq<string>, decode: Exchange.Decoder)
  {
    && |steps| <= |inbox|
    && forall k :: 0 <= k < |steps| ==> steps[k].Run? && EchoReply(steps[k].job, inbox[k], decode)
  }

  /** A completed exchange that read one reply and passed. */
  predicate PassedOne(x: Exchange.ExchangeResult)
  {
    x.Completed? && x.consumed == 1 && x.verdict == 1
  }

  /** Every step is an exchange that passes, the k-th reading the k-th reply. */
  predicate AllPass(steps: seq<Step>, inbox: seq<string>, run: Runner)
  {
    && |steps| <= |inbox|
    && forall k :: 0 <= k < |steps| ==> steps[k].Run? && PassedOne(run(steps[k].job, inbox[k..]))
  }

  /** Under the session's runner, an echoing server makes every exchange pass. */
  lemma EchoesPass(steps: seq<Step>, inbox: seq<string>, decode: Exchange.Decoder)
    requires Echoes(steps, inbox, decode)
    ensures AllPass(steps, inbox, Runs(decode))
  {
    forall k | 0 <= k < |steps| ensures PassedOne(Runs(decode)(steps[k].job, inbox[k..])) {
      var job := steps[k].job;
      assert inbox[k..][0] == inbox[k];
      RunsExchange(decode, job, inbox[k..]);
      Exchange.EchoReplyPasses(job.wav, inbox[k..], job.count, Label.ExpectedLabel(job.path), decode);
    }
  }

  /** A session in which every exchange passes adds one success per step. */
  lemma {:induction false} AllPassSession(steps: seq<Step>, inbox: seq<string>, run: Runner, successes: int)
    requires Sound(run) && AllPass(steps, inbox, run)
    ensures RunSteps(steps, inbox, run, successes) == Finished(successes + |steps|, inbox[|steps|..])
  {
    if steps != [] {
      assert PassedOne(run(steps[0].job, inbox[0..]));
      assert inbox[0..] == inbox;
      assert AllPass(steps[1..], inbox[1..], run) by {
        forall k | 0 <= k < |steps[1..]|
          ensures steps[1..][k].Run? && PassedOne(run(steps[1..][k].job, inbox[1..][k..]))
        {
          assert steps[1..][k] == steps[k + 1] && inbox[1..][k..] == inbox[k + 1..];
        }
      }
      AllPassSession(steps[1..], inbox[1..], run, successes + 1);
      assert inbox[1..][|steps| - 1..] == inbox[|steps|..];
    }
  }

  /** A session in which every exchange passes hands on the counter raised by its step count. */
  lemma NextSession(steps: seq<Step>, inboxes: seq<seq<string>>, run: Runner, from: nat, parallel: nat,
                    successes: int)
    requires Sound(run) && from < parallel
    requires AllPass(steps, Inbox(inboxes, from), run)
    ensures RunSessions(steps, inboxes, run, from, parallel, successes)
         == RunSessions(steps, inboxes, run, from + 1, parallel, successes + |steps|)
  {
    AllPassSession(steps, Inbox(inboxes, from), run, successes);
  }

  lemma {:induction false} AllPassSessions(steps: seq<Step>, inboxes: seq<seq<string>>, run: Runner,
                                           from: nat, parallel: nat, successes: int)
    requires Sound(run) && from <= parallel
    requires forall s :: from <= s < parallel ==> AllPass(steps, Inbox(inboxes, s), run)
    ensures RunSessions(steps, inboxes, run, from, parallel, successes)
         == Tallied(successes + (parallel - from) * |steps|)
    decreases parallel - from
  {
    if from < parallel {
      NextSession(steps, inboxes, run, from, parallel, successes);
      AllPassSessions(steps, inboxes, run, from + 1, parallel, successes + |steps|);
      OneMoreSession(successes, parallel, from, |steps|);
    }
  }

  /**
   * Against a server that echoes every expected label, every exchange of
   * every session succeeds: the successes equal the exchanges run, while
   * the printed denominator stays iterations times sessions.
   */
  lemma EchoServerAllPass(files: seq<Sample>, endpoint: string, iters: int, parallel: int,
                          inboxes: seq<seq<string>>, decode: Exchange.Decoder)
    requires |files| > 0 && endpoint != [] && parallel >= 0
    requires forall s :: 0 <= s < parallel ==> Echoes(Schedule(files, iters), Inbox(inboxes, s), decode)
    ensures LoadTest(files, endpoint, iters, parallel, inboxes, decode)
         == Summary(RequestCount(files, iters, parallel), PrintedTotal(iters, parallel))
    ensures IntendedReport(files, endpoint, iters, parallel, inboxes, decode)
         == Summary(RequestCount(files, iters, parallel), RequestCount(files, iters, parallel))
  {
    EchoSessions(Schedule(files, iters), inboxes, parallel, decode);
  }

  /** Sessions whose replies all echo their labels add one success per exchange. */
  lemma EchoSessions(steps: seq<Step>, inboxes: seq<seq<string>>, parallel: nat, decode: Exchange.Decoder)
    requires forall s :: 0 <= s < parallel ==> Echoes(steps, Inbox(inboxes, s), decode)
    ensures RunSessions(steps, inboxes, Runs(decode), 0, parallel, 0) == Tallied(parallel * |steps|)
  {
    forall s | 0 <= s < parallel ensures AllPass(steps, Inbox(inboxes, s), Runs(decode)) {
      EchoesPass(steps, Inbox(inboxes, s), decode);
    }
    AllPassSessions(steps, inboxes, Runs(decode), 0, parallel, 0);
  }

  /** Three readable samples. */
  lemma CountThree(files: seq<Sample>)
    requires |files| == 3 && forall i :: 0 <= i < 3 ==> files[i].state.Readable?
    ensures ReadableCount(files) == 3
  {
    assert files[1..][0] == files[1] && files[1..][1..][0] == files[2] && files[1..][1..][1..] == [];
    assert ReadableCount(files[1..][1..]) == 1;
    assert ReadableCount(files[1..]) == 2;
  }

  /**
   * Four sessions, two iterations, three samples, an echoing server: 24
   * successes, printed out of 8; the intended summary is 24 of 24.
   */
  lemma EchoTwentyFour(files: seq<Sample>, endpoint: string, inboxes: seq<seq<string>>, decode: Exchange.Decoder)
    requires |files| == 3 && forall i :: 0 <= i < 3 ==> files[i].state.Readable?
    requires endpoint != []
    requires forall s :: 0 <= s < 4 ==> Echoes(Schedule(files, 2), Inbox(inboxes, s), decode)
    ensures LoadTest(files, endpoint, 2, 4, inboxes, decode) == Summary(24, 8)
    ensures IntendedReport(files, endpoint, 2, 4, inboxes, decode) == Summary(24, 24)
  {
    ScheduleLength(files, 2);
    CountThree(files);
    EchoServerAllPass(files, endpoint, 2, 4, inboxes, decode);
  }

  /**
   * The printed denominator leaves out the number of samples: the exchanges
   * actually run are that number of times as many.
   */
  lemma {:induction false} PrintedTotalIgnoresSamples(files: seq<Sample>, iters: int, parallel: int)
    requires forall i :: 0 <= i < |files| ==> !files[i].state.Unreadable?
    requires iters >= 0
    ensures RequestCount(files, iters, parallel) == ReadableCount(files) * PrintedTotal(iters, parallel)
  {
    ScheduleLength(files, iters);
    var n := ReadableCount(files);
    assert parallel * (n * iters) == n * (iters * parallel);
  }

  /** Two readable samples. */
  lemma CountTwo(files: seq<Sample>)
    requires |files| == 2 && files[0].state.Readable? && files[1].state.Readable?
    ensures ReadableCount(files) == 2
  {
    assert files[1..][0] == files[1] && files[1..][1..] == [];
    assert ReadableCount(files[1..]) == 1;
  }

  lemma TwiceExceeds(n: int, iters: int, parallel: int)
    requires n >= 2 && iters >= 1 && parallel >= 1
    ensures n * (iters * parallel) > iters * parallel
  {
    var t := iters * parallel;
    assert t >= 1 by {
      assert iters * parallel >= 1 * parallel;
    }
    assert n * t >= 2 * t;
  }

  /**
   * With two or more readable samples, at least one iteration and one
   * session, and an echoing server, the printed successes exceed the
   * printed denominator.
   */
  lemma {:induction false} PrintedTotalUndercounts(files: seq<Sample>, endpoint: string, iters: int,
                                                   parallel: int, inboxes: seq<seq<string>>,
                                                   decode: Exchange.Decoder)
    requires forall i :: 0 <= i < |files| ==> !files[i].state.Unreadable?
    requires ReadableCount(files) >= 2 && iters >= 1 && parallel >= 1 && endpoint != []
    requires forall s :: 0 <= s < parallel ==> Echoes(Schedule(files, iters), Inbox(inboxes, s), decode)
    ensures LoadTest(files, endpoint, iters, parallel, inboxes, decode).Summary?
    ensures var r := LoadTest(files, endpoint, iters, parallel, inboxes, decode);
      r.successes > r.requests
  {
    EchoServerAllPass(files, endpoint, iters, parallel, inboxes, decode);
    PrintedTotalIgnoresSamples(files, iters, parallel);
    TwiceExceeds(ReadableCount(files), iters, parallel);
  }

  /** Two readable samples, one session, one iteration: 2 successes printed out of 1. */
  lemma {:induction false} TwoSamplesOneRequest(files: seq<Sample>, endpoint: string,
                                                inboxes: seq<seq<string>>, decode: Exchange.Decoder,
                                                iters: int, parallel: int)
    requires |files| == 2 && files[0].state.Readable? && files[1].state.Readable?
    requires iters == 1 && parallel == 1 && endpoint != []
    requires Echoes(Schedule(files, iters), Inbox(inboxes, 0), decode)
    ensures LoadTest(files, endpoint, iters, parallel, inboxes, decode) == Summary(2, 1)
    ensures IntendedReport(files, endpoint, iters, parallel, inboxes, decode) == Summary(2, 2)
  {
    CountTwo(files);
    ScheduleLength(files, iters);
    EchoServerAllPass(files, endpoint, iters, parallel, inboxes, decode);
  }
}
