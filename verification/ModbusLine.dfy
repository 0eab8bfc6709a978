/**
 * The connection and the receiver: messages are cut out of a stream that arrives in pieces of any size.
 */
module ModbusLine {
  import opened Bitwise
  import opened ModbusSpec
  import opened ModbusCalls

  /** One direction of a connection: the bytes sent and not yet received. */
  class Line {
    var bytes: seq<byte>
    const end: End

    constructor (end: End)
      ensures bytes == [] && this.end == end
    {
      this.end := end;
      bytes := [];
    }

    method Put(m: array<byte>, n: nat)
      requires n <= m.Length
      modifies this
      ensures bytes == old(bytes) + m[..n]
    {
      bytes := bytes + m[..n];
    }

    /** Reads at least one byte of those waiting, at most max, and no particular number of them. */
    method Get(m: array<byte>, at: nat, max: nat) returns (n: nat)
      requires 0 < max && at + max <= m.Length && bytes != []
      modifies this, m
      ensures 0 < n <= max && n <= |old(bytes)| && bytes == old(bytes)[n..]
      ensures m[..] == Splice(old(m[..]), at, old(bytes)[..n])
    {
      n :| 0 < n <= max && n <= |bytes|;
      forall k | 0 <= k < n {
        m[at + k] := bytes[k];
      }
      bytes := bytes[n..];
    }
  }

  /** What a call of the receiver with this length, or with none, should take from the stream. */
  function Receive(mode: Mode, computed: int, input: seq<byte>, end: End): Received {
    if computed < 0 then ReceiveQuery(mode, input, end) else TakeExactly(computed, input, end)
  }

  datatype State = FUNCTION | BYTE | COMPLETE

  /** Where the receiver is: how long the message is as far as the bytes taken say, and what is to come. */
  predicate Expects(mode: Mode, given: int, state: State, computed: nat, taken: seq<byte>) {
    if given >= 0 then state == COMPLETE && computed == given
    else
      var h := mode.Header() + 2;
      && computed == QueryLength(mode, taken)
      && match state
         case FUNCTION => |taken| < h
         case BYTE => |taken| >= h && QueryHeader(taken[h - 1]) > 0 && |taken| < h + QueryHeader(taken[h - 1])
         case COMPLETE => |taken| >= h && QueryHeader(taken[h - 1]) > 0 && |taken| >= h + QueryHeader(taken[h - 1])
  }

  /** More bytes of what is expected do not change what is expected. */
  lemma StillExpects(mode: Mode, given: int, state: State, computed: nat, taken: seq<byte>, more: seq<byte>)
    requires Expects(mode, given, state, computed, taken) && |taken + more| < computed
    ensures Expects(mode, given, state, computed, taken + more)
  {
    var h, u := mode.Header() + 2, taken + more;
    assert |taken| >= h ==> u[h - 1] == taken[h - 1];
    if |taken| > h + 4 {
      assert u[h + 4] == taken[h + 4];
    }
  }

  lemma FunctionKnown(mode: Mode, computed: nat, taken: seq<byte>, more: seq<byte>)
    requires Expects(mode, -1, FUNCTION, computed, taken) && |taken + more| == computed
    ensures var h := mode.Header() + 2; var u := taken + more;
      && computed == h && QueryLength(mode, u) == h + QueryHeader(u[h - 1])
      && (QueryHeader(u[h - 1]) > 0 ==> Expects(mode, -1, BYTE, h + QueryHeader(u[h - 1]), u))
  {
  }

  lemma LengthKnown(mode: Mode, computed: nat, taken: seq<byte>, more: seq<byte>)
    requires Expects(mode, -1, BYTE, computed, taken) && |taken + more| == computed
    ensures var h := mode.Header() + 2; var u := taken + more; var f := u[h - 1];
      && (Multiple(f) ==> |u| > h + 4)
      && QueryLength(mode, u) == computed + (if Multiple(f) then u[h + 4] else 0) + mode.Checksum()
      && Expects(mode, -1, COMPLETE, QueryLength(mode, u), u)
      && (QueryLength(mode, u) > MAX_MESSAGE_LENGTH ==> |u| == mode.Header() + 7)
  {
    var h, u := mode.Header() + 2, taken + more;
    assert u[h - 1] == taken[h - 1];
  }

  lemma Ended(mode: Mode, given: int, state: State, computed: nat, taken: seq<byte>, end: End)
    requires Expects(mode, given, state, computed, taken) && |taken| < computed
    requires given < 0 ==> computed <= MAX_MESSAGE_LENGTH
    ensures Receive(mode, given, taken, end) == Received(end.Code(), taken, [])
  {
  }

  lemma Finished(mode: Mode, given: int, taken: seq<byte>, rest: seq<byte>, end: End)
    requires given < 0 ==> |taken| <= MAX_MESSAGE_LENGTH
    requires |taken| == if given < 0 then QueryLength(mode, taken) else given
    ensures Receive(mode, given, taken + rest, end) == Received(0, taken, rest)
  {
    if given < 0 {
      TakesOneQuery(mode, taken, rest, end);
    } else {
      assert (taken + rest)[..|taken|] == taken && (taken + rest)[|taken|..] == rest;
    }
  }

  lemma Overflows(mode: Mode, taken: seq<byte>, rest: seq<byte>, end: End)
    requires |taken| == mode.Header() + 7 && QueryLength(mode, taken) > MAX_MESSAGE_LENGTH
    ensures ReceiveQuery(mode, taken + rest, end) == Received(TOO_MANY_DATA, taken, rest)
  {
    var s, h := taken + rest, mode.Header() + 2;
    assert s[h - 1] == taken[h - 1] && s[h + 4] == taken[h + 4];
    assert s[..|taken|] == taken && s[|taken|..] == rest;
  }

  /** One read into the buffer, behind what has been taken. */
  method ReadMore(line: Line, msg: array<byte>, length: nat, toRead: nat,
                  ghost taken: seq<byte>, ghost stale: seq<byte>)
      returns (n: nat, ghost more: seq<byte>)
    requires line.bytes != [] && 0 < toRead && length == |taken| && length + toRead <= msg.Length
    requires |stale| == msg.Length && msg[..] == Padded(taken, stale)
    modifies line, msg
    ensures 0 < n == |more| <= toRead && old(line.bytes) == more + line.bytes
    ensures msg[..] == Padded(taken + more, stale)
  {
    more := line.bytes;
    n := line.Get(msg, length, toRead);
    more := more[..n];
  }

  /** The switch on the state, once everything expected so far has arrived. */
  method Advance(mode: Mode, state: State, computed: nat, msg: array<byte>, ghost given: int, ghost was: seq<byte>,
                 ghost more: seq<byte>, ghost stale: seq<byte>)
      returns (toRead: nat, next: State)
    requires Expects(mode, given, state, computed, was) && |was + more| == computed
    requires |stale| == msg.Length && computed <= msg.Length && msg[..] == Padded(was + more, stale)
    requires given < 0 ==> computed <= MAX_MESSAGE_LENGTH
    ensures var u := was + more;
      && (given >= 0 ==> toRead == 0)
      && (given < 0 ==> computed + toRead == QueryLength(mode, u))
      && (toRead > 0 ==> Expects(mode, given, next, computed + toRead, u))
      && (given < 0 && computed + toRead > MAX_MESSAGE_LENGTH ==> state == BYTE && |u| == mode.Header() + 7)
      && (state == BYTE ==> given < 0)
  {
    ghost var u := was + more;
    assert forall k | 0 <= k < |u| :: msg[k] == msg[..][k] == u[k];
    next := state;
    match state {
      case FUNCTION =>
        FunctionKnown(mode, computed, was, more);
        toRead := QueryHeader(msg[mode.Header() + 1]);
        next := BYTE;
      case BYTE =>
        LengthKnown(mode, computed, was, more);
        toRead := (if Multiple(msg[mode.Header() + 1]) then msg[mode.Header() + 6] else 0) + mode.Checksum();
        next := COMPLETE;
      case COMPLETE =>
        toRead := 0;
    }
  }

  /** The variables of the receiving loop, and the bytes taken so far. */
  ghost predicate Under(mode: Mode, given: int, state: State, computed: nat, length: int, toRead: nat,
                        taken: seq<byte>)
  {
    && length == |taken| && length + toRead == computed
    && (given < 0 ==> computed <= MAX_MESSAGE_LENGTH)
    && (given >= 0 ==> computed == given)
    && if toRead > 0 then Expects(mode, given, state, computed, taken)
       else |taken| == if given < 0 then QueryLength(mode, taken) else given
  }

  /** One round of the receiving loop, when there are bytes to read. */
  method Round(mode: Mode, line: Line, ghost given: int, msg: array<byte>, state0: State, computed0: nat, length0: int,
               toRead0: nat, ghost taken: seq<byte>, ghost stale: seq<byte>)
      returns (state: State, computed: nat, length: int, toRead: nat, tooMany: bool, ghost more: seq<byte>)
    requires line.bytes != [] && toRead0 > 0 && Under(mode, given, state0, computed0, length0, toRead0, taken)
    requires computed0 <= msg.Length && (given < 0 ==> msg.Length == MAX_MESSAGE_LENGTH)
    requires |stale| == msg.Length && msg[..] == Padded(taken, stale)
    modifies line, msg
    ensures more != [] && old(line.bytes) == more + line.bytes && |taken + more| <= msg.Length
    ensures msg[..] == Padded(taken + more, stale) && length == |taken + more|
    ensures !tooMany ==> Under(mode, given, state, computed, length, toRead, taken + more)
    ensures tooMany ==> given < 0 && |taken + more| == mode.Header() + 7
                        && QueryLength(mode, taken + more) > MAX_MESSAGE_LENGTH
  {
    hide QueryLength, Expects, Padded;
    state, computed, length, toRead, tooMany := state0, computed0, length0, toRead0, false;
    var n;
    n, more := ReadMore(line, msg, length, toRead, taken, stale);
    length := length + n;
    if length < computed {
      StillExpects(mode, given, state, computed, taken, more);
      toRead := computed - length;
    } else {
      toRead, state := Advance(mode, state, computed, msg, given, taken, more, stale);
      computed := computed + toRead;
      tooMany := state0 == BYTE && computed > MAX_MESSAGE_LENGTH;
    }
  }

  /** The stream before a round is what was taken before it, in it, and what is left. */
  lemma Taken(taken: seq<byte>, more: seq<byte>, left: seq<byte>, bytes: seq<byte>, input: seq<byte>)
    requires bytes == more + left && taken + bytes == input
    ensures taken + more + left == input
  {
  }

  /**
   * Waits for a message of the given length, or for a query of any length if it is undefined. The bytes come in
   * reads of any size. The length is left as it was when nothing arrives before the time is out.
   */
  method ReceiveMsg(mode: Mode, line: Line, given: int, msg: array<byte>, unset: int) returns (ret: int, length: int)
    requires given == MSG_LENGTH_UNDEFINED || 0 < given <= msg.Length
    requires given == MSG_LENGTH_UNDEFINED ==> msg.Length == MAX_MESSAGE_LENGTH
    modifies line, msg
    ensures var r := Receive(mode, given, old(line.bytes), line.end);
      && |r.msg| <= msg.Length && ret == r.code && line.bytes == r.rest
      && msg[..] == Padded(r.msg, old(msg[..]))
      && length == if old(line.bytes) == [] && line.end.Silent? then unset else |r.msg|
  {
    ghost var input, stale, taken := line.bytes, msg[..], [];
    var computed: nat, state := if given < 0 then mode.Header() + 2 else given,
      if given < 0 then FUNCTION else COMPLETE;
    var toRead: nat := computed;
    length := unset;
    assert Under(mode, given, state, computed, 0, toRead, taken) && Expects(mode, given, state, computed, taken);
    assert MSG_LENGTH_UNDEFINED < 0 && COMM_TIME_OUT == Silent.Code() && computed <= msg.Length;
    NothingPadded(stale);
    hide *;
    if line.bytes == [] && line.end.Silent? {
      Ended(mode, given, state, computed, [], line.end);
      return COMM_TIME_OUT, length;
    }
    length := 0;
    while toRead > 0
      invariant Under(mode, given, state, computed, length, toRead, taken)
      invariant |taken| <= msg.Length && msg[..] == Padded(taken, stale) && taken + line.bytes == input
      decreases |line.bytes|, toRead
    {
      UnderExpects(mode, given, state, computed, length, toRead, taken, msg.Length);
      ghost var bytes := line.bytes;
      if line.bytes == [] {
        Ended(mode, given, state, computed, taken, line.end);
        assert taken + [] == taken;
        ret := line.end.Code();
        return;
      }
      var tooMany;
      ghost var more;
      state, computed, length, toRead, tooMany, more :=
        Round(mode, line, given, msg, state, computed, length, toRead, taken, stale);
      Taken(taken, more, line.bytes, bytes, input);
      taken := taken + more;
      if tooMany {
        TooManyReceived(mode, given, taken, line.bytes, line.end);
        ret := TOO_MANY_DATA;
        return;
      }
    }
    UnderFinished(mode, given, state, computed, length, toRead, taken, line.bytes, line.end);
    ret := 0;
  }

  lemma UnderExpects(mode: Mode, given: int, state: State, computed: nat, length: int, toRead: nat, taken: seq<byte>,
                     size: nat)
    requires Under(mode, given, state, computed, length, toRead, taken) && toRead > 0
    requires given == MSG_LENGTH_UNDEFINED || 0 < given <= size
    requires given == MSG_LENGTH_UNDEFINED ==> size == MAX_MESSAGE_LENGTH
    ensures Expects(mode, given, state, computed, taken) && length == |taken| < computed <= size
    ensures given < 0 ==> computed <= MAX_MESSAGE_LENGTH
  {
  }

  lemma UnderFinished(mode: Mode, given: int, state: State, computed: nat, length: int, toRead: nat, taken: seq<byte>,
                      rest: seq<byte>, end: End)
    requires Under(mode, given, state, computed, length, toRead, taken) && toRead == 0
    ensures Receive(mode, given, taken + rest, end) == Received(0, taken, rest) && length == |taken|
  {
    Finished(mode, given, taken, rest, end);
  }

  lemma TooManyReceived(mode: Mode, given: int, taken: seq<byte>, rest: seq<byte>, end: End)
    requires given < 0 && |taken| == mode.Header() + 7 && QueryLength(mode, taken) > MAX_MESSAGE_LENGTH
    ensures Receive(mode, given, taken + rest, end) == Received(TOO_MANY_DATA, taken, rest)
  {
    Overflows(mode, taken, rest, end);
  }

  lemma NothingPadded(stale: seq<byte>)
    ensures Padded([], stale) == stale
  {
  }
}
