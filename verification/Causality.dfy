/** Failure classification (src/causality.cpp). */
module Causality {
  import opened Common

  datatype ReasonClass = TimeoutClass | DisconnectClass | ConnectFailure | IoFailure | ProtocolState | Internal
  datatype ReasonCode =
    | ConnectTimeout | ReceiveTimeout | SendTimeout | AcceptTimeout
    | ConnectFailed | ReceiveFailed | SendFailed | AcceptFailed
    | Disconnected | ProtocolEof | InternalError
  datatype TimeoutType = ConnectT | ReceiveT | SendT | AcceptT
  datatype Operation = EnsureOp | ReceiveOp | SendOp | DisconnectOp | ProtocolOp | InternalOp

  /** `timeoutType` is set only for timeouts. */
  datatype Reason = Reason(code: ReasonCode, class_: ReasonClass, timeoutType: Option<TimeoutType>)

  const REASON_CODES: nat := 11
  const TIMEOUT_TYPES: nat := 4

  function CodeIndex(code: ReasonCode): (r: nat)
    ensures r < REASON_CODES
  {
    match code
    case ConnectTimeout => 0
    case ReceiveTimeout => 1
    case SendTimeout => 2
    case AcceptTimeout => 3
    case ConnectFailed => 4
    case ReceiveFailed => 5
    case SendFailed => 6
    case AcceptFailed => 7
    case Disconnected => 8
    case ProtocolEof => 9
    case InternalError => 10
  }

  function TimeoutIndex(t: TimeoutType): (r: nat)
    ensures r < TIMEOUT_TYPES
  {
    match t case ConnectT => 0 case ReceiveT => 1 case SendT => 2 case AcceptT => 3
  }

  function ClassOf(code: ReasonCode): ReasonClass {
    match code
    case ConnectTimeout | ReceiveTimeout | SendTimeout | AcceptTimeout => TimeoutClass
    case Disconnected => DisconnectClass
    case ConnectFailed | AcceptFailed => ConnectFailure
    case ReceiveFailed | SendFailed => IoFailure
    case ProtocolEof => ProtocolState
    case InternalError => Internal
  }

  function Lower(s: string): (r: string)
    ensures |r| == |s|
  {
    seq(|s|, i requires 0 <= i < |s| => if 'A' <= s[i] <= 'Z' then s[i] - 'A' + 'a' else s[i])
  }

  predicate MatchesAt(value: string, needle: string, i: nat) {
    i + |needle| <= |value| && value[i..i + |needle|] == needle
  }

  predicate ContainsInsensitive(value: string, needle: string) {
    exists i :: 0 <= i <= |value| && MatchesAt(Lower(value), Lower(needle), i)
  }

  function Plain(code: ReasonCode): Reason {
    Reason(code, ClassOf(code), None)
  }

  function TimedOut(code: ReasonCode, t: TimeoutType): Reason {
    Reason(code, ClassOf(code), Some(t))
  }

  function Classify(op: Operation, isTimeout: bool, isDisconnected: bool, listener: bool, detail: string): Reason {
    match op
    case EnsureOp =>
      var accepting := listener || ContainsInsensitive(detail, "accept");
      if isTimeout then (if accepting then TimedOut(AcceptTimeout, AcceptT) else TimedOut(ConnectTimeout, ConnectT))
      else Plain(if accepting then AcceptFailed else ConnectFailed)
    case ReceiveOp =>
      if isTimeout then TimedOut(ReceiveTimeout, ReceiveT)
      else Plain(if isDisconnected then ReasonCode.Disconnected else ReceiveFailed)
    case SendOp =>
      if isTimeout then TimedOut(SendTimeout, SendT)
      else Plain(if isDisconnected then ReasonCode.Disconnected else SendFailed)
    case DisconnectOp => Plain(ReasonCode.Disconnected)
    case ProtocolOp => Plain(ProtocolEof)
    case InternalOp => Plain(InternalError)
  }

  /** A timeout type is set exactly for the timeout class, which is exactly for a
      timed-out ensure, receive or send, and then both indices agree. */
  lemma TimeoutTypeMatchesCode(op: Operation, isTimeout: bool, isDisconnected: bool, listener: bool, detail: string)
    ensures var r := Classify(op, isTimeout, isDisconnected, listener, detail);
            && r.class_ == ClassOf(r.code)
            && (r.timeoutType.Some? <==> r.class_ == TimeoutClass)
            && (r.timeoutType.Some? <==> isTimeout && (op == EnsureOp || op == ReceiveOp || op == SendOp))
            && (r.timeoutType.Some? <==> CodeIndex(r.code) < TIMEOUT_TYPES)
            && (r.timeoutType.Some? ==> TimeoutIndex(r.timeoutType.value) == CodeIndex(r.code))
            && (r.code == ReceiveTimeout <==> op == ReceiveOp && isTimeout)
  {
  }

  // ---- Which failure gives which code ----

  /** Equal up to the case of Latin letters. */
  predicate SameLetter(a: char, b: char) {
    || a == b
    || ('A' <= a <= 'Z' && 'a' <= b <= 'z' && (b as int) - (a as int) == 32)
    || ('A' <= b <= 'Z' && 'a' <= a <= 'z' && (a as int) - (b as int) == 32)
  }

  /** `needle` stands at place `i` of `value`, case aside. */
  predicate ReadsAt(value: string, needle: string, i: nat) {
    i + |needle| <= |value| && forall k :: 0 <= k < |needle| ==> SameLetter(value[i + k], needle[k])
  }

  lemma LowerAgrees(value: string, needle: string, i: nat)
    ensures MatchesAt(Lower(value), Lower(needle), i) <==> ReadsAt(value, needle, i)
  {
    if i + |needle| <= |value| {
      var part, low := Lower(value)[i..i + |needle|], Lower(needle);
      assert forall k :: 0 <= k < |needle| ==> (part[k] == low[k] <==> SameLetter(value[i + k], needle[k]));
      SameEverywhere(part, low);
    }
  }

  lemma SameEverywhere(a: string, b: string)
    requires |a| == |b|
    ensures a == b <==> forall k :: 0 <= k < |b| ==> a[k] == b[k]
  {
  }

  /** An ensure is on the accept path if it was a listener's, or its message has the
      word "accept" in it in any case. */
  ghost predicate OnAcceptPath(listener: bool, detail: string) {
    listener || exists i: nat :: ReadsAt(detail, "accept", i)
  }

  lemma AcceptPath(listener: bool, detail: string)
    ensures (listener || ContainsInsensitive(detail, "accept")) <==> OnAcceptPath(listener, detail)
  {
    forall i: nat {
      LowerAgrees(detail, "accept", i);
    }
    if i: nat :| ReadsAt(detail, "accept", i) {
      assert MatchesAt(Lower(detail), Lower("accept"), i) && i <= |detail|;
    }
  }

  /** What a failure must be to be counted under a code. */
  ghost predicate Deserves(code: ReasonCode, op: Operation, isTimeout: bool, isDisconnected: bool, accepting: bool) {
    match code
    case ConnectTimeout => op == EnsureOp && isTimeout && !accepting
    case AcceptTimeout => op == EnsureOp && isTimeout && accepting
    case ConnectFailed => op == EnsureOp && !isTimeout && !accepting
    case AcceptFailed => op == EnsureOp && !isTimeout && accepting
    case ReceiveTimeout => op == ReceiveOp && isTimeout
    case ReceiveFailed => op == ReceiveOp && !isTimeout && !isDisconnected
    case SendTimeout => op == SendOp && isTimeout
    case SendFailed => op == SendOp && !isTimeout && !isDisconnected
    case Disconnected => op == DisconnectOp || ((op == ReceiveOp || op == SendOp) && !isTimeout && isDisconnected)
    case ProtocolEof => op == ProtocolOp
    case InternalError => op == InternalOp
  }

  /** Every failure is counted under the one code it deserves. */
  lemma CodeIsDeserved(op: Operation, isTimeout: bool, isDisconnected: bool, listener: bool, detail: string, code: ReasonCode)
    ensures Classify(op, isTimeout, isDisconnected, listener, detail).code == code <==>
            Deserves(code, op, isTimeout, isDisconnected, OnAcceptPath(listener, detail))
  {
    AcceptPath(listener, detail);
  }

  /** The class a code belongs to: timeouts, disconnects, failures to connect or accept,
      to receive or send, and the rest each on its own. */
  lemma ClassMeans(code: ReasonCode)
    ensures ClassOf(code) == TimeoutClass <==> code in {ConnectTimeout, ReceiveTimeout, SendTimeout, AcceptTimeout}
    ensures ClassOf(code) == DisconnectClass <==> code == ReasonCode.Disconnected
    ensures ClassOf(code) == ConnectFailure <==> code in {ConnectFailed, AcceptFailed}
    ensures ClassOf(code) == IoFailure <==> code in {ReceiveFailed, SendFailed}
    ensures ClassOf(code) == ProtocolState <==> code == ProtocolEof
    ensures ClassOf(code) == Internal <==> code == InternalError
  {
  }

  /** The order in which the counters are laid out. */
  const ALL_CODES: seq<ReasonCode> := [
    ConnectTimeout, ReceiveTimeout, SendTimeout, AcceptTimeout, ConnectFailed, ReceiveFailed, SendFailed, AcceptFailed,
    ReasonCode.Disconnected, ProtocolEof, InternalError]

  /** Every code has a counter of its own, and there are no others. */
  lemma IndexIsPlace(code: ReasonCode, i: nat)
    ensures |ALL_CODES| == REASON_CODES
    ensures i < REASON_CODES ==> (CodeIndex(code) == i <==> ALL_CODES[i] == code)
  {
  }
}
