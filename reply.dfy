/**
 * The reply side of one exchange: recognising a framed "DXTL" reply,
 * splitting its header line from its body at the first newline, cutting the
 * header into fields on ':' and ';', reading the third field as the sequence
 * number, and choosing between sending an acknowledgement and the every
 * 100th "skip-ack" replay read.
 *
 * Replies are strings whose characters stand for the received bytes.
 */
module Reply {
  import opened Wrappers

  /** The literal tag that opens a framed reply. */
  const FRAME_TAG: string := "DXTL"
  /** Every exchange whose index is a multiple of this skips the ack. */
  const SKIP_ACK_PERIOD: int := 100

  // ---------------------------------------------------------------------
  // Header fields

  /** The field separator of the header line: ':' or ';'. */
  predicate IsSeparator(c: char)
  {
    c == ':' || c == ';'
  }

  predicate NoSeparator(s: string)
  {
    forall i :: 0 <= i < |s| ==> !IsSeparator(s[i])
  }

  /** Index of the first separator of `s`, or |s| when there is none. */
  function SeparatorIndex(s: string): (i: nat)
    ensures i <= |s|
    ensures i < |s| ==> IsSeparator(s[i])
    ensures NoSeparator(s[..i])
  {
    if s == [] then 0
    else if IsSeparator(s[0]) then 0
    else
      var j := SeparatorIndex(s[1..]);
      assert s[..1 + j] == [s[0]] + s[1..][..j];
      1 + j
  }

  /**
   * The non-empty runs of non-separator characters of `s`, in order: the
   * header is split at every separator and empty pieces are dropped.
   */
  function Fields(s: string): (fs: seq<string>)
    ensures forall k :: 0 <= k < |fs| ==> fs[k] != [] && NoSeparator(fs[k])
    decreases |s|
  {
    var i := SeparatorIndex(s);
    var head := if i == 0 then [] else [s[..i]];
    if i == |s| then head else head + Fields(s[i + 1..])
  }

  /** The characters of `s` that are not separators. */
  function WithoutSeparators(s: string): string
  {
    if s == [] then []
    else (if IsSeparator(s[0]) then [] else [s[0]]) + WithoutSeparators(s[1..])
  }

  function Concat(fs: seq<string>): string
  {
    if fs == [] then [] else fs[0] + Concat(fs[1..])
  }

  lemma {:induction false} ConcatAppend(a: seq<string>, b: seq<string>)
    ensures Concat(a + b) == Concat(a) + Concat(b)
  {
    if a != [] {
      assert (a + b)[0] == a[0] && (a + b)[1..] == a[1..] + b;
      ConcatAppend(a[1..], b);
      calc {
        Concat(a + b);
        a[0] + Concat(a[1..] + b);
        a[0] + (Concat(a[1..]) + Concat(b));
        (a[0] + Concat(a[1..])) + Concat(b);
      }
    } else {
      assert a + b == b;
    }
  }

  lemma {:induction false} WithoutSeparatorsAppend(a: string, b: string)
    ensures WithoutSeparators(a + b) == WithoutSeparators(a) + WithoutSeparators(b)
  {
    if a != [] {
      var h := if IsSeparator(a[0]) then [] else [a[0]];
      assert (a + b)[0] == a[0] && (a + b)[1..] == a[1..] + b;
      WithoutSeparatorsAppend(a[1..], b);
      calc {
        WithoutSeparators(a + b);
        h + WithoutSeparators(a[1..] + b);
        h + (WithoutSeparators(a[1..]) + WithoutSeparators(b));
        (h + WithoutSeparators(a[1..])) + WithoutSeparators(b);
      }
    } else {
      assert a + b == b;
    }
  }

  lemma {:induction false} WithoutSeparatorsOfField(w: string)
    requires NoSeparator(w)
    ensures WithoutSeparators(w) == w
  {
    if w != [] {
      WithoutSeparatorsOfField(w[1..]);
    }
  }

  /**
   * Splitting loses nothing but the separators: the fields, put back
   * together, are the header with its separators removed.
   */
  lemma {:induction false} FieldsKeepEveryOtherCharacter(s: string)
    ensures Concat(Fields(s)) == WithoutSeparators(s)
    decreases |s|
  {
    var i := SeparatorIndex(s);
    var head: seq<string> := if i == 0 then [] else [s[..i]];
    assert Concat(head) == s[..i] by {
      if i != 0 {
        assert Concat([s[..i]]) == s[..i] + Concat([]);
      }
    }
    WithoutSeparatorsOfField(s[..i]);
    if i == |s| {
      assert s[..i] == s;
    } else {
      assert s == s[..i] + [s[i]] + s[i + 1..];
      WithoutSeparatorsAppend(s[..i] + [s[i]], s[i + 1..]);
      WithoutSeparatorsAppend(s[..i], [s[i]]);
      assert WithoutSeparators([s[i]]) == [];
      FieldsKeepEveryOtherCharacter(s[i + 1..]);
      ConcatAppend(head, Fields(s[i + 1..]));
    }
  }

  /** A separator cuts the header in two independently split halves. */
  lemma {:induction false} FieldsSplitAt(a: string, c: char, b: string)
    requires IsSeparator(c)
    ensures Fields(a + [c] + b) == Fields(a) + Fields(b)
    decreases |a|
  {
    var t := [c] + b;
    var s := a + t;
    assert a + [c] + b == s;
    var i := SeparatorIndex(a);
    assert t[0] == c;
    SeparatorIndexOfPrefix(a, t, i);
    if i == |a| {
      assert a[..i] == a && s[..i] == a && s[i + 1..] == b;
    } else {
      assert s[..i] == a[..i];
      assert s[i + 1..] == a[i + 1..] + [c] + b;
      FieldsSplitAt(a[i + 1..], c, b);
    }
  }

  /** The first separator of a + t, when `a` has one or `t` starts with one. */
  lemma SeparatorIndexOfPrefix(a: string, t: string, i: nat)
    requires i == SeparatorIndex(a) && (i < |a| || (t != [] && IsSeparator(t[0])))
    ensures SeparatorIndex(a + t) == i
  {
    var s := a + t;
    assert s[..i] == a[..i];
    assert IsSeparator(s[i]);
  }

  /** A non-empty separator-free piece is its own single field. */
  lemma FieldsOfField(w: string)
    requires w != [] && NoSeparator(w)
    ensures Fields(w) == [w]
  {
    assert w[..|w|] == w;
  }

  // ---------------------------------------------------------------------
  // The decimal reading of the sequence field

  const MaxUint64: int := 0xFFFF_FFFF_FFFF_FFFF
  const MaxInt64: int := 0x7FFF_FFFF_FFFF_FFFF
  const MinInt64: int := -0x8000_0000_0000_0000

  predicate IsDigit(c: char)
  {
    '0' <= c <= '9'
  }

  predicate AllDigits(s: string)
  {
    forall i :: 0 <= i < |s| ==> IsDigit(s[i])
  }

  function DigitValue(c: char): nat
    requires IsDigit(c)
  {
    (c as int) - ('0' as int)
  }

  /** Outcome of reading an unsigned decimal number into 64 bits. */
  datatype UintScan = Parsed(n: nat) | SyntaxError | RangeError

  /**
   * Reads the digits of `s` left to right into accumulator `n`: a
   * non-digit is a syntax error, and the first digit that takes the value
   * beyond 64 unsigned bits is a range error (characters after it are not
   * looked at).
   */
  function ScanDigits(s: string, n: nat): (r: UintScan)
    requires n <= MaxUint64
    ensures r.Parsed? ==> n <= r.n <= MaxUint64
  {
    if s == [] then Parsed(n)
    else if !IsDigit(s[0]) then SyntaxError
    else if n * 10 + DigitValue(s[0]) > MaxUint64 then RangeError
    else ScanDigits(s[1..], n * 10 + DigitValue(s[0]))
  }

  /** The field without its leading sign, if it has one. */
  function Unsigned(s: string): (d: string)
    ensures |d| <= |s| && d == s[|s| - |d|..]
  {
    if s != [] && (s[0] == '+' || s[0] == '-') then s[1..] else s
  }

  /**
   * The integer a field reads as, with the conversion error ignored: an
   * optional sign and decimal digits; a field that is empty, a lone sign or
   * holds a non-digit reads as 0; a value outside the signed 64-bit range
   * is clamped to the nearest end of that range.
   */
  function Atoi(s: string): (v: int)
    ensures MinInt64 <= v <= MaxInt64
  {
    if s == [] then 0
    else
      var negative := s[0] == '-';
      var digits := Unsigned(s);
      if digits == [] then 0
      else match ScanDigits(digits, 0)
        case SyntaxError => 0
        case RangeError => if negative then MinInt64 else MaxInt64
        case Parsed(u) =>
          if !negative then (if u > MaxInt64 then MaxInt64 else u)
          else (if u > -MinInt64 then MinInt64 else -(u as int))
  }

  /** The value of a string of decimal digits, most significant first. */
  function DigitsValue(s: string): nat
    requires AllDigits(s)
  {
    if s == [] then 0 else DigitsValue(s[..|s| - 1]) * 10 + DigitValue(s[|s| - 1])
  }

  /** The decimal spelling of `n`, without leading zeros. */
  function Decimal(n: nat): (s: string)
    ensures s != [] && AllDigits(s)
  {
    var d := ((n % 10) + '0' as int) as char;
    if n < 10 then [d] else Decimal(n / 10) + [d]
  }

  lemma {:induction false} DecimalValue(n: nat)
    ensures DigitsValue(Decimal(n)) == n
  {
    var s := Decimal(n);
    if n >= 10 {
      assert s[..|s| - 1] == Decimal(n / 10);
      DecimalValue(n / 10);
    }
  }

  /** Reading a prefix of digits leaves the accumulator at that prefix's value. */
  lemma {:induction false} ScanPrefix(s: string, k: nat)
    requires k <= |s| && AllDigits(s[..k])
    requires DigitsValue(s[..k]) <= MaxUint64
    ensures ScanDigits(s, 0) == ScanDigits(s[k..], DigitsValue(s[..k]))
  {
    if k > 0 {
      var p := s[..k];
      assert p[..|p| - 1] == s[..k - 1];
      assert p[k - 1] == s[k - 1];
      ScanPrefix(s, k - 1);
      assert s[k - 1..][1..] == s[k..];
    } else {
      assert s[0..] == s;
    }
  }

  /** Once the accumulator overflows, whatever follows is not looked at. */
  lemma {:induction false} RangeErrorIsFinal(p: string, t: string, n: nat)
    requires n <= MaxUint64 && ScanDigits(p, n) == RangeError
    ensures ScanDigits(p + t, n) == RangeError
  {
    assert p != [] && (p + t)[0] == p[0];
    if IsDigit(p[0]) && n * 10 + DigitValue(p[0]) <= MaxUint64 {
      assert (p + t)[1..] == p[1..] + t;
      RangeErrorIsFinal(p[1..], t, n * 10 + DigitValue(p[0]));
    }
  }

  /**
   * Digits read as their value when it fits 64 unsigned bits, and as a
   * range error when it does not.
   */
  lemma {:induction false} ScanAllDigits(s: string)
    requires AllDigits(s)
    ensures DigitsValue(s) <= MaxUint64 ==> ScanDigits(s, 0) == Parsed(DigitsValue(s))
    ensures DigitsValue(s) > MaxUint64 ==> ScanDigits(s, 0) == RangeError
  {
    if s != [] {
      var k := |s| - 1;
      var p := s[..k];
      assert s[..|s|] == s;
      assert DigitsValue(s) == DigitsValue(p) * 10 + DigitValue(s[k]);
      if DigitsValue(p) <= MaxUint64 {
        ScanPrefix(s, k);
        assert s[k..] == [s[k]] && [s[k]][1..] == [];
      } else {
        ScanAllDigits(p);
        RangeErrorIsFinal(p, [s[k]], 0);
        assert p + [s[k]] == s;
      }
    }
  }

  function Min(a: int, b: int): int { if a <= b then a else b }
  function Max(a: int, b: int): int { if a >= b then a else b }

  /**
   * A field of decimal digits, with or without a sign, reads as its value
   * clamped to the signed 64-bit range.
   */
  lemma AtoiDigits(s: string)
    requires s != [] && AllDigits(s)
    ensures Atoi(s) == Min(DigitsValue(s), MaxInt64)
    ensures Atoi(['+'] + s) == Min(DigitsValue(s), MaxInt64)
    ensures Atoi(['-'] + s) == Max(-(DigitsValue(s) as int), MinInt64)
  {
    assert IsDigit(s[0]);
    SignedDigits(s, s);
    assert (['+'] + s)[1..] == s;
    SignedDigits(['+'] + s, s);
    assert (['-'] + s)[1..] == s;
    SignedDigits(['-'] + s, s);
  }

  /** A field whose unsigned part is all digits reads as their clamped value, signed. */
  lemma SignedDigits(t: string, s: string)
    requires s != [] && AllDigits(s) && Unsigned(t) == s
    ensures Atoi(t) == if t[0] == '-' then Max(-(DigitsValue(s) as int), MinInt64)
                       else Min(DigitsValue(s), MaxInt64)
  {
    ScanAllDigits(s);
  }

  /** The decimal reading inverts the decimal spelling over the signed 64-bit range. */
  lemma AtoiDecimal(n: nat)
    ensures n <= MaxInt64 ==> Atoi(Decimal(n)) == n
    ensures n <= -MinInt64 ==> Atoi(['-'] + Decimal(n)) == -(n as int)
  {
    DecimalValue(n);
    AtoiDigits(Decimal(n));
  }

  /**
   * A field, signed or not, holding a non-digit reads as 0, provided the
   * digits before the first non-digit do not exceed 64 bits.
   */
  lemma NonDigitReadsZero(s: string, j: nat)
    requires j < |Unsigned(s)|
    requires AllDigits(Unsigned(s)[..j]) && !IsDigit(Unsigned(s)[j])
    requires DigitsValue(Unsigned(s)[..j]) <= MaxUint64
    ensures Atoi(s) == 0
  {
    ScanPrefix(Unsigned(s), j);
  }

  /**
   * A field whose leading digits exceed 64 bits reads as the end of the
   * signed 64-bit range on its sign's side, whatever follows them.
   */
  lemma OverflowingDigitsClamp(s: string, j: nat)
    requires j <= |Unsigned(s)|
    requires AllDigits(Unsigned(s)[..j]) && DigitsValue(Unsigned(s)[..j]) > MaxUint64
    ensures Atoi(s) == if s[0] == '-' then MinInt64 else MaxInt64
  {
    var d := Unsigned(s);
    ScanAllDigits(d[..j]);
    RangeErrorIsFinal(d[..j], d[j..], 0);
    assert d[..j] + d[j..] == d;
  }

  // ---------------------------------------------------------------------
  // Framing and the ack decision

  /** What the session sends back for a reply. */
  datatype AckAction =
    | SendAck(sequence: int)   // a chat-ack carrying the parsed sequence number
    | SkipAck                  // no ack; one extra read of the replayed message
    | NoAck                    // an unframed reply: nothing is sent

  /** The outcome of handling a reply: the action and the body left for the verdict. */
  datatype Handling =
    | Handled(action: AckAction, body: string)
    | FieldIndexPanic          // the header has fewer than three fields

  /** The reply's first four characters are the frame tag. */
  predicate IsFramed(msg: string)
  {
    |msg| >= 4 && msg[..4] == FRAME_TAG
  }

  /** Position of the first newline of `msg`, if any. */
  function NewlineIndex(msg: string): (r: Option<nat>)
    ensures r.Some? ==> r.value < |msg| && msg[r.value] == '\n'
    ensures r.Some? ==> forall j :: 0 <= j < r.value ==> msg[j] != '\n'
    ensures r.None? ==> forall j :: 0 <= j < |msg| ==> msg[j] != '\n'
  {
    if msg == [] then None
    else if msg[0] == '\n' then Some(0)
    else match NewlineIndex(msg[1..])
      case None => None
      case Some(i) => Some(i + 1)
  }

  /**
   * The handling of the reply to the `count`-th exchange of a file. A framed
   * reply with a newline is cut into header (before the newline) and body
   * (from the newline on); the third field of the header is the sequence
   * number; the exchange acks it unless `count` is a multiple of 100.
   */
  function HandleReply(msg: string, count: int): (h: Handling)
    ensures h.FieldIndexPanic? ==> IsFramed(msg)
    ensures h.Handled? && h.action == NoAck ==> h.body == msg
    ensures h.Handled? && h.action != NoAck ==>
      && IsFramed(msg)
      && 0 < |h.body| < |msg| && h.body == msg[|msg| - |h.body|..] && h.body[0] == '\n'
      && (forall j :: 0 <= j < |msg| - |h.body| ==> msg[j] != '\n')
      && (h.action == SkipAck <==> count % SKIP_ACK_PERIOD == 0)
  {
    if !IsFramed(msg) then Handled(NoAck, msg)
    else match NewlineIndex(msg)
      case None => Handled(NoAck, msg)
      case Some(i) =>
        var fields := Fields(msg[..i]);
        if |fields| < 3 then FieldIndexPanic
        else if count % SKIP_ACK_PERIOD == 0 then Handled(SkipAck, msg[i..])
        else Handled(SendAck(Atoi(fields[2])), msg[i..])
  }

  /**
   * A framed reply written as header line, newline and body is handled by
   * the header's fields alone, and the body keeps its leading newline.
   */
  lemma FramedReply(header: string, body: string, count: int)
    requires |header| >= 4 && header[..4] == FRAME_TAG
    requires forall j :: 0 <= j < |header| ==> header[j] != '\n'
    ensures var h := HandleReply(header + "\n" + body, count);
      && (|Fields(header)| < 3 <==> h == FieldIndexPanic)
      && (|Fields(header)| >= 3 && count % 100 == 0 ==> h == Handled(SkipAck, "\n" + body))
      && (|Fields(header)| >= 3 && count % 100 != 0 ==>
            h == Handled(SendAck(Atoi(Fields(header)[2])), "\n" + body))
  {
    var msg := header + "\n" + body;
    assert msg[..4] == header[..4];
    assert msg[|header|] == '\n';
    assert forall j :: 0 <= j < |header| ==> msg[j] == header[j];
    var i := NewlineIndex(msg).value;
    assert i == |header|;
    assert msg[..i] == header;
    assert msg[i..] == "\n" + body;
  }

  /** An unframed reply, or one without a newline, is left whole and not acked. */
  lemma UnframedUntouched(msg: string, count: int)
    requires !IsFramed(msg) || forall j :: 0 <= j < |msg| ==> msg[j] != '\n'
    ensures HandleReply(msg, count) == Handled(NoAck, msg)
  {
  }

  /**
   * For a framed reply with a well-formed header, the exchange skips the
   * ack exactly when its index is a multiple of 100, and otherwise acks the
   * header's sequence number; the body handed on is the same either way.
   */
  lemma AckUnlessMultipleOfHundred(msg: string, count: int)
    requires HandleReply(msg, count) != FieldIndexPanic
    requires HandleReply(msg, count).action != NoAck
    ensures HandleReply(msg, count).action == SkipAck <==> count % 100 == 0
    ensures HandleReply(msg, count).body == HandleReply(msg, 1).body
    ensures count % 100 != 0 ==> HandleReply(msg, count) == HandleReply(msg, 1)
  {
  }

  /** Over exchange indices 1..250 exactly 100 and 200 skip the ack. */
  lemma SkipsWithinTwoHundredFifty(msg: string)
    requires HandleReply(msg, 1).Handled? && HandleReply(msg, 1).action.SendAck?
    ensures forall c :: 1 <= c <= 250 ==>
      (HandleReply(msg, c).action == SkipAck <==> c == 100 || c == 200)
    ensures forall c :: 1 <= c <= 250 ==>
      (HandleReply(msg, c).action == HandleReply(msg, 1).action <==> c != 100 && c != 200)
  {
    forall c | 1 <= c <= 250
      ensures HandleReply(msg, c).action == SkipAck <==> c == 100 || c == 200
      ensures HandleReply(msg, c).action == HandleReply(msg, 1).action <==> c != 100 && c != 200
    {
      assert c % 100 == 0 <==> c == 100 || c == 200;
    }
  }

  /** Three separator-free words joined by ':' are exactly the three fields. */
  lemma ThreeFields(w1: string, w2: string, w3: string)
    requires w1 != [] && NoSeparator(w1)
    requires w2 != [] && NoSeparator(w2)
    requires w3 != [] && NoSeparator(w3)
    ensures Fields(w1 + [':'] + w2 + [':'] + w3) == [w1, w2, w3]
  {
    var tail := w2 + [':'] + w3;
    assert w1 + [':'] + w2 + [':'] + w3 == w1 + [':'] + tail;
    FieldsSplitAt(w1, ':', tail);
    FieldsSplitAt(w2, ':', w3);
    FieldsOfField(w1);
    FieldsOfField(w2);
    FieldsOfField(w3);
  }

  /**
   * A header of three fields, the first opening with the frame tag: the
   * ack of an exchange that does not skip it carries the third field's value.
   */
  lemma SequenceIsThirdField(w1: string, w2: string, w3: string, body: string, count: int)
    requires |w1| >= 4 && w1[..4] == FRAME_TAG
    requires NoSeparator(w1) && NoSeparator(w2) && NoSeparator(w3) && w2 != [] && w3 != []
    requires forall j :: 0 <= j < |w1| ==> w1[j] != '\n'
    requires forall j :: 0 <= j < |w2| ==> w2[j] != '\n'
    requires forall j :: 0 <= j < |w3| ==> w3[j] != '\n'
    requires count % 100 != 0
    ensures HandleReply(w1 + [':'] + w2 + [':'] + w3 + "\n" + body, count)
         == Handled(SendAck(Atoi(w3)), "\n" + body)
  {
    var header := w1 + [':'] + w2 + [':'] + w3;
    ThreeFields(w1, w2, w3);
    assert header[..4] == w1[..4];
    assert forall j :: 0 <= j < |header| ==> header[j] != '\n' by {
      forall j | 0 <= j < |header| ensures header[j] != '\n' {
        if j < |w1| {
          assert header[j] == w1[j];
        } else if j == |w1| || j == |w1| + 1 + |w2| {
        } else if j < |w1| + 1 + |w2| {
          assert header[j] == w2[j - |w1| - 1];
        } else {
          assert header[j] == w3[j - |w1| - |w2| - 2];
        }
      }
    }
    FramedReply(header, body, count);
  }

  /** The reply "DXTL abc:def:42\n…" carries sequence number 42. */
  lemma ExampleSequence(body: string, count: int)
    requires count % 100 != 0
    ensures HandleReply("DXTL abc:def:42\n" + body, count) == Handled(SendAck(42), "\n" + body)
  {
    var msg := "DXTL abc:def:42\n" + body;
    assert msg == "DXTL abc" + [':'] + "def" + [':'] + "42" + "\n" + body by {}
    assert Atoi("42") == 42 by {
      assert Decimal(42) == "42";
      AtoiDecimal(42);
    }
    SequenceIsThirdField("DXTL abc", "def", "42", body, count);
  }
}
