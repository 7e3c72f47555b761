/**
 * One exchange of a session (`test_audio`): announce the audio, send the
 * payload located by the chunk walk, announce its end, read the reply,
 * answer the ack sub-protocol, and judge the transcript against the label.
 *
 * The connection is modelled by what it carries: the messages the session
 * writes, in order, and the replies waiting to be read. JSON decoding of a
 * reply body is a parameter.
 */
module Exchange {
  import Wave
  import Reply
  import Label

  /** A message the session writes to the connection. */
  datatype Outbound =
    | AudioStart                       // text {"messageType": "audio-start"}
    | Audio(payload: seq<Wave.byte>)   // one binary frame
    | AudioEnd                         // text {"messageType": "audio-end"}
    | ChatAck(sequence: int)           // text {"messageType": "chat-ack", "sequence": n}

  /** Why an exchange ends the whole program. */
  datatype Failure =
    | NegativeTxtsSize      // allocating a negative-size metadata buffer panics
    | WalkNeverEnds         // the chunk walk revisits a header forever
    | PayloadOutOfRange     // slicing the audio at the located offset panics
    | NoReply               // a read finds no message: the error check panics
    | TooFewHeaderFields    // a framed header with fewer than three fields panics
    | ReadFailed            // a sample that exists cannot be read

  datatype ExchangeResult =
    | Completed(sent: seq<Outbound>, consumed: nat, verdict: int)
    | Aborted(sent: seq<Outbound>, failure: Failure)

  /** The JSON decoding of a reply body into its result map. */
  type Decoder = string -> map<string, string>

  /**
   * The exchange for the `count`-th iteration over a sample whose expected
   * transcript is `expected`, reading replies from `inbox`.
   */
  function Exchange(wav: seq<Wave.byte>, inbox: seq<string>, count: int, expected: string,
                    decode: Decoder): (x: ExchangeResult)
    ensures x.Completed? ==> 1 <= x.consumed <= |inbox| && 0 <= x.verdict <= 1
  {
    match Wave.PayloadWalk(wav)
    case NegativeTxts => Aborted([AudioStart], NegativeTxtsSize)
    case Unbounded => Aborted([AudioStart], WalkNeverEnds)
    case Stopped(offset) =>
      if !(0 <= offset <= |wav|) then Aborted([AudioStart], PayloadOutOfRange)
      else
        var sent := [AudioStart, Audio(wav[offset..]), AudioEnd];
        if |inbox| == 0 then Aborted(sent, NoReply)
        else match Reply.HandleReply(inbox[0], count)
          case FieldIndexPanic => Aborted(sent, TooFewHeaderFields)
          case Handled(action, body) =>
            var verdict := Label.Verdict(Label.Transcript(decode(body)), expected);
            match action
            case NoAck => Completed(sent, 1, verdict)
            case SendAck(n) => Completed(sent + [ChatAck(n)], 1, verdict)
            case SkipAck =>
              if |inbox| < 2 then Aborted(sent, NoReply)
              else Completed(sent, 2, verdict)
  }

  /** The exchange as the session runs it, with the chunk walk as a loop. */
  method TestAudio(wav: seq<Wave.byte>, inbox: seq<string>, count: int, expected: string,
                   decode: Decoder) returns (x: ExchangeResult)
    ensures x == Exchange(wav, inbox, count, expected, decode)
  {
    var sent := [AudioStart];
    var walk := Wave.LocatePayload(wav);
    if walk.NegativeTxts? {
      return Aborted(sent, NegativeTxtsSize);
    } else if walk.Unbounded? {
      return Aborted(sent, WalkNeverEnds);
    }
    var offset := walk.offset;
    if offset < 0 || offset > |wav| {
      return Aborted(sent, PayloadOutOfRange);
    }
    sent := sent + [Audio(wav[offset..])];
    sent := sent + [AudioEnd];
    if |inbox| == 0 {
      return Aborted(sent, NoReply);
    }
    var handling := Reply.HandleReply(inbox[0], count);
    if handling.FieldIndexPanic? {
      return Aborted(sent, TooFewHeaderFields);
    }
    var consumed := 1;
    match handling.action {
      case NoAck =>
      case SendAck(n) =>
        sent := sent + [ChatAck(n)];
      case SkipAck =>
        if |inbox| < 2 {
          return Aborted(sent, NoReply);
        }
        consumed := 2;
    }
    var verdict := Label.Verdict(Label.Transcript(decode(handling.body)), expected);
    x := Completed(sent, consumed, verdict);
  }

  // ---------------------------------------------------------------------
  // Properties of one exchange

  /**
   * A completed exchange sends start, payload and end, then at most one
   * ack; it reads one reply, or two when it skipped the ack, and its
   * verdict is 0 or 1.
   */
  lemma CompletedShape(wav: seq<Wave.byte>, inbox: seq<string>, count: int, expected: string,
                       decode: Decoder)
    requires Exchange(wav, inbox, count, expected, decode).Completed?
    ensures var x := Exchange(wav, inbox, count, expected, decode);
      && 3 <= |x.sent| <= 4
      && x.sent[0] == AudioStart && x.sent[1].Audio? && x.sent[2] == AudioEnd
      && (|x.sent| == 4 ==> x.sent[3].ChatAck?)
      && 1 <= x.consumed <= 2 && x.consumed <= |inbox|
      && (x.consumed == 2 <==> Reply.HandleReply(inbox[0], count).action == Reply.SkipAck)
      && (x.verdict == 0 || x.verdict == 1)
  {
  }

  /** The audio frame is the buffer from the located offset to its end. */
  lemma PayloadIsTail(wav: seq<Wave.byte>, inbox: seq<string>, count: int, expected: string,
                      decode: Decoder)
    requires Exchange(wav, inbox, count, expected, decode).Completed?
    ensures Wave.PayloadWalk(wav).Stopped?
    ensures var x := Exchange(wav, inbox, count, expected, decode);
      var o := Wave.PayloadWalk(wav).offset;
      0 <= o <= |wav| && x.sent[1] == Audio(wav[o..]) && |x.sent[1].payload| + o == |wav|
  {
  }

  /** A buffer without the "WAVE" tag is sent whole, minus its first 12 bytes. */
  lemma NonWaveSendsAllButHeader(wav: seq<Wave.byte>, inbox: seq<string>, count: int,
                                 expected: string, decode: Decoder)
    requires |wav| >= Wave.HeaderSize && Wave.FourCCAt(wav, 8) != Wave.WAVE
    ensures Exchange(wav, inbox, count, expected, decode).sent[..3]
         == [AudioStart, Audio(wav[12..]), AudioEnd]
  {
    Wave.NonWaveKeepsHeaderOffset(wav);
  }

  /** A buffer shorter than the outer header cannot be sliced after it. */
  lemma ShortBufferPanics(wav: seq<Wave.byte>, inbox: seq<string>, count: int, expected: string,
                          decode: Decoder)
    requires |wav| < Wave.HeaderSize
    ensures Exchange(wav, inbox, count, expected, decode) == Aborted([AudioStart], PayloadOutOfRange)
  {
    Wave.NonWaveKeepsHeaderOffset(wav);
  }

  /**
   * A chat-ack is written exactly when the reply is framed, well-formed and
   * the exchange index is not a multiple of 100; it carries the header's
   * sequence number.
   */
  lemma AckSentWhen(wav: seq<Wave.byte>, inbox: seq<string>, count: int, expected: string,
                    decode: Decoder)
    requires Exchange(wav, inbox, count, expected, decode).Completed?
    ensures var x := Exchange(wav, inbox, count, expected, decode);
      |x.sent| == 4 <==> Reply.HandleReply(inbox[0], count).action.SendAck?
    ensures var x := Exchange(wav, inbox, count, expected, decode);
      |x.sent| == 4 ==> x.sent[3] == ChatAck(Reply.HandleReply(inbox[0], count).action.sequence)
    ensures var x := Exchange(wav, inbox, count, expected, decode);
      (Reply.IsFramed(inbox[0]) && count % 100 != 0 && (exists j :: 0 <= j < |inbox[0]| && inbox[0][j] == '\n'))
      ==> |x.sent| == 4
  {
    var x := Exchange(wav, inbox, count, expected, decode);
    var h := Reply.HandleReply(inbox[0], count);
    if Reply.IsFramed(inbox[0]) && count % 100 != 0 && (exists j :: 0 <= j < |inbox[0]| && inbox[0][j] == '\n') {
      assert Reply.NewlineIndex(inbox[0]).Some?;
      assert h.action.SendAck?;
    }
  }

  /** Audio whose chunk walk ends inside the buffer. */
  predicate Playable(wav: seq<Wave.byte>)
  {
    Wave.PayloadWalk(wav).Stopped? && 0 <= Wave.PayloadWalk(wav).offset <= |wav|
  }

  /**
   * A server that answers with an unframed reply holding the expected
   * transcript, in any letter case, makes the exchange pass while reading
   * exactly that one reply.
   */
  lemma EchoReplyPasses(wav: seq<Wave.byte>, inbox: seq<string>, count: int, expected: string,
                        decode: Decoder)
    requires Playable(wav) && |inbox| > 0 && !Reply.IsFramed(inbox[0])
    requires Label.SameIgnoringCase(Label.Transcript(decode(inbox[0])), expected)
    ensures var x := Exchange(wav, inbox, count, expected, decode);
      x.Completed? && x.consumed == 1 && x.verdict == 1 && |x.sent| == 3
  {
    Label.VerdictIgnoresCase(Label.Transcript(decode(inbox[0])), expected);
  }

  /**
   * The replayed message read on a skipped ack is discarded: the exchange
   * depends on the first waiting reply alone whenever a second one waits.
   */
  lemma ReplayIgnored(wav: seq<Wave.byte>, a: seq<string>, b: seq<string>, count: int,
                      expected: string, decode: Decoder)
    requires |a| >= 2 && |b| >= 2 && a[0] == b[0]
    ensures Exchange(wav, a, count, expected, decode) == Exchange(wav, b, count, expected, decode)
  {
  }

  /**
   * A framed reply with a well-formed header is judged on its body from the
   * header's newline on, whatever the ack decision and the replay are.
   */
  lemma FramedVerdict(wav: seq<Wave.byte>, header: string, body: string, more: seq<string>,
                      count: int, expected: string, decode: Decoder)
    requires Playable(wav) && |more| >= 1
    requires |header| >= 4 && header[..4] == Reply.FRAME_TAG
    requires forall j :: 0 <= j < |header| ==> header[j] != '\n'
    requires |Reply.Fields(header)| >= 3
    ensures var x := Exchange(wav, [header + "\n" + body] + more, count, expected, decode);
      x.Completed? && x.verdict == Label.Verdict(Label.Transcript(decode("\n" + body)), expected)
  {
    Reply.FramedReply(header, body, count);
  }

  /** Every 100th exchange of a file reads the replayed message and sends no ack. */
  lemma SkipAckReadsReplay(wav: seq<Wave.byte>, inbox: seq<string>, count: int, expected: string,
                           decode: Decoder)
    requires Playable(wav) && |inbox| > 0
    requires Reply.HandleReply(inbox[0], count).Handled?
    requires Reply.HandleReply(inbox[0], count).action == Reply.SkipAck
    ensures count % 100 == 0
    ensures var x := Exchange(wav, inbox, count, expected, decode);
      (|inbox| >= 2 ==> x.Completed? && x.consumed == 2 && |x.sent| == 3)
      && (|inbox| < 2 ==> x == Aborted(x.sent, NoReply))
  {
  }
}
