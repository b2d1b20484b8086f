/** The remote syslog appender: one message becomes UDP packets of at most 900 bytes, cut in one
    buffer that is shifted in place between the packets. */
module Syslog {
  import opened Decimal
  import Priority

  const PACKET_LIMIT: nat := 900
  const SLACK: nat := 16   // bytes the buffer has beyond the message, for the preamble

  /** Log priority, a multiple of 100 for the named levels, to syslog severity. */
  function ToSyslogPriority(priority: int): int {
    var index := Priority.Level(priority);
    if index < 0 then 0 else if index > 7 then 7 else index
  }

  /** Severities are syslog's eight, follow the order of the priorities, match at every named level,
      and change one below it. */
  lemma SeverityLaw(p: int, q: int)
    ensures 0 <= ToSyslogPriority(p) <= 7
    ensures p <= q ==> ToSyslogPriority(p) <= ToSyslogPriority(q)
    ensures 0 <= p <= 7 ==> ToSyslogPriority(100 * p) == p
    ensures ToSyslogPriority(p) == 0 <==> p <= 98
    ensures forall k :: 1 <= k <= 6 ==> (ToSyslogPriority(p) == k <==> 100 * k - 1 <= p <= 100 * k + 98)
    ensures ToSyslogPriority(p) == 7 <==> p >= 699
  {
    if p <= q {
      Priority.LevelMonotone(p, q);
    }
    if 0 <= p <= 7 {
      Priority.LevelExact(p);
    }
  }

  /** The preamble and sprintf's terminator fit in the buffer's slack, and leave room in a packet. */
  function Preamble(pri: int): (s: string)
    requires IsInt32(pri)
    ensures 3 <= |s| <= 13
  {
    NumeralBound(pri);
    "<" + Numeral(pri) + ">"
  }

  /** The number in the preamble reads back as the facility plus the severity, as section 4.1.1 of
      RFC 3164 has it: for a facility code that is a multiple of 8, both can be told from it. */
  lemma PreambleReads(facility: nat, priority: int)
    requires IsInt32(facility + ToSyslogPriority(priority))
    ensures var severity := ToSyslogPriority(priority);
      var p := Preamble(facility + severity);
      var n := NumberAt(p, 1, |p| - 1);
      && p[0] == '<' && p[|p| - 1] == '>' && AllDigits(p[1..|p| - 1])
      && n == facility + severity && (|p| > 3 ==> p[1] != '0')
      && (facility % 8 == 0 ==> n % 8 == severity && n - n % 8 == facility)
  {
    SeverityLaw(priority, priority);
    hide ToSyslogPriority;
    NumberReads(facility + ToSyslogPriority(priority));
    hide Preamble, NumberAt;
    if facility % 8 == 0 {
      EightSeverities(facility, ToSyslogPriority(priority));
    }
  }

  lemma NumberReads(pri: nat)
    requires IsInt32(pri)
    ensures var p := Preamble(pri);
      && p[0] == '<' && p[|p| - 1] == '>' && AllDigits(p[1..|p| - 1])
      && NumberAt(p, 1, |p| - 1) == pri && (|p| > 3 ==> p[1] != '0')
  {
    var p, ds := Preamble(pri), Digits(pri);
    NumberInDigits(pri);
    NoLeadingZero(pri);
    hide Digits;
    assert p[1..|p| - 1] == ds;
    NumberSame(p, 1, ds, |ds|);
  }

  lemma EightSeverities(facility: nat, severity: nat)
    requires severity < 8 && facility % 8 == 0
    ensures (facility + severity) % 8 == severity
  {
  }

  /** How a message is cut. */
  function Packets(preamble: string, message: string): seq<string>
    requires |preamble| < PACKET_LIMIT
    decreases |message|
  {
    var room := PACKET_LIMIT - |preamble|;
    if message == "" then []
    else if |message| > room then [preamble + message[..room]] + Packets(preamble, message[room..])
    else [preamble + message]
  }

  method Copy(buf: array<char>, at: nat, s: string)
    requires at + |s| <= buf.Length
    modifies buf
    ensures buf[..at] == old(buf[..at]) && buf[at..at + |s|] == s
  {
    forall i | 0 <= i < |s| {
      buf[at + i] := s[i];
    }
  }

  /** memmove(3): the regions may overlap. */
  method MemMove(buf: array<char>, to: nat, from: nat, count: nat)
    requires to <= from && from + count <= buf.Length
    modifies buf
    ensures buf[..to] == old(buf[..to]) && buf[to..to + count] == old(buf[from..from + count])
  {
    forall i | 0 <= i < count {
      buf[to + i] := buf[from + i];
    }
  }

  method Append(facility: int, priority: int, message: string) returns (packets: seq<string>)
    requires IsInt32(facility + ToSyslogPriority(priority))
    ensures packets == Packets(Preamble(facility + ToSyslogPriority(priority)), message)
  {
    var preamble := Preamble(facility + ToSyslogPriority(priority));
    var buf := new char[|message| + SLACK];
    Copy(buf, 0, preamble + "\0");
    assert buf[..|preamble|] == (preamble + "\0")[..|preamble|];
    Copy(buf, |preamble|, message);
    assert buf[..|preamble| + |message|] == buf[..|preamble|] + buf[|preamble|..|preamble| + |message|];
    packets := SendLoop(buf, preamble, message, |preamble|, |message|);
  }

  /** The buffer begins with the preamble and the rest of the message. */
  ghost predicate Holds(buf: array<char>, preamble: string, rest: string)
    reads buf
  {
    |preamble| + |rest| <= buf.Length && buf[..|preamble| + |rest|] == preamble + rest
  }

  lemma NextPacket(preamble: string, rest: string, sent: seq<string>)
    requires |preamble| < PACKET_LIMIT && |preamble| + |rest| > PACKET_LIMIT
    ensures var room := PACKET_LIMIT - |preamble|;
      sent + Packets(preamble, rest) == sent + [preamble + rest[..room]] + Packets(preamble, rest[room..])
  {
  }

  lemma LastPacket(preamble: string, rest: string, sent: seq<string>)
    requires |preamble| < PACKET_LIMIT && rest != [] && |preamble| + |rest| <= PACKET_LIMIT
    ensures sent + Packets(preamble, rest) == sent + [preamble + rest]
  {
  }

  /** The send loop. Every index below is checked against the buffer, and every packet sent is the
      preamble and part of the message: nothing beyond them is read. */
  method SendLoop(buf: array<char>, ghost preamble: string, ghost message: string,
                  preambleLength: nat, messageLength: nat)
    returns (packets: seq<string>)
    requires preambleLength == |preamble| < PACKET_LIMIT && messageLength == |message|
    requires Holds(buf, preamble, message)
    modifies buf
    ensures packets == Packets(preamble, message)
  {
    hide Packets;
    var left := messageLength;
    packets := [];
    ghost var rest := message;
    while left > 0
      invariant left == |rest| && Holds(buf, preamble, rest)
      invariant packets + Packets(preamble, rest) == Packets(preamble, message)
    {
      if preambleLength + left > PACKET_LIMIT {
        NextPacket(preamble, rest, packets);
        var packet := ShiftOut(buf, preamble, rest, preambleLength, left);
        packets := packets + [packet];
        left := left - (PACKET_LIMIT - preambleLength);
        rest := rest[PACKET_LIMIT - preambleLength..];
      } else {
        LastPacket(preamble, rest, packets);
        return packets + [buf[..preambleLength + left]];
      }
    }
    NoPacket(preamble, packets);
  }

  lemma NoPacket(preamble: string, sent: seq<string>)
    requires |preamble| < PACKET_LIMIT
    ensures sent + Packets(preamble, "") == sent
  {
  }

  /** Send a full packet and move the rest of the message up behind the preamble. */
  method ShiftOut(buf: array<char>, ghost preamble: string, ghost rest: string, preambleLength: nat, left: nat)
    returns (packet: string)
    requires preambleLength == |preamble| < PACKET_LIMIT < |preamble| + |rest| && left == |rest|
    requires Holds(buf, preamble, rest)
    modifies buf
    ensures var room := PACKET_LIMIT - |preamble|;
      packet == preamble + rest[..room] && Holds(buf, preamble, rest[room..])
  {
    packet := buf[..PACKET_LIMIT];
    ghost var room := PACKET_LIMIT - preambleLength;
    Cuts(buf[..preambleLength + left], preamble, rest, room);
    MemMove(buf, preambleLength, PACKET_LIMIT, left - (PACKET_LIMIT - preambleLength));
    assert buf[..preambleLength + (left - room)]
        == buf[..preambleLength] + buf[preambleLength..preambleLength + (left - room)];
  }

  lemma Cuts(all: string, preamble: string, rest: string, room: nat)
    requires all == preamble + rest && room <= |rest|
    ensures all[..|preamble| + room] == preamble + rest[..room]
    ensures all[|preamble| + room..] == rest[room..] && all[..|preamble|] == preamble
  {
  }

  /** The payloads of the packets, put together again. */
  function Payloads(packets: seq<string>, skip: nat): string {
    if packets == [] then ""
    else (if skip <= |packets[0]| then packets[0][skip..] else "") + Payloads(packets[1..], skip)
  }

  /** Splitting loses nothing, repeats nothing and keeps the order. */
  lemma {:induction false} SplitLossless(preamble: string, message: string)
    requires |preamble| < PACKET_LIMIT
    ensures Payloads(Packets(preamble, message), |preamble|) == message
    decreases |message|
  {
    var ps, room := Packets(preamble, message), PACKET_LIMIT - |preamble|;
    if |message| > room {
      SplitLossless(preamble, message[room..]);
      assert ps[1..] == Packets(preamble, message[room..]);
      assert ps[0][|preamble|..] == message[..room];
      assert message == message[..room] + message[room..];
    } else if message != "" {
      assert ps[0][|preamble|..] == message;
      assert ps[1..] == [];
    }
  }

  /** Every packet begins with the preamble, carries something and fits the limit; all but the last
      are full. */
  lemma {:induction false} SplitBounded(preamble: string, message: string)
    requires |preamble| < PACKET_LIMIT
    ensures var ps := Packets(preamble, message);
      && (forall p :: p in ps ==> preamble < p && |p| <= 900)
      && (forall i :: 0 <= i < |ps| - 1 ==> |ps[i]| == 900)
    decreases |message|
  {
    var room := PACKET_LIMIT - |preamble|;
    if |message| <= room {
    } else {
      SplitBounded(preamble, message[room..]);
    }
  }

  /** The number of packets is the message length over the room per packet, rounded up. */
  lemma {:induction false} SplitCount(preamble: string, message: string)
    requires |preamble| < PACKET_LIMIT
    ensures var n, room := |Packets(preamble, message)|, PACKET_LIMIT - |preamble|;
      (n - 1) * room < |message| <= n * room
    decreases |message|
  {
    var room := PACKET_LIMIT - |preamble|;
    if |message| <= room {
    } else {
      SplitCount(preamble, message[room..]);
      var n := |Packets(preamble, message)|;
      assert (n - 2) * room + room == (n - 1) * room && (n - 1) * room + room == n * room;
    }
  }
}
