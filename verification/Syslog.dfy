/** The syslog frame around an event (section 4.1.1 of RFC 3164). */
module Syslog {
  import opened Options
  import opened Numerals
  import opened Cef
  import opened CefWriter
  import Sequences

  // ---------- the frame ----------

  /** Facility and priority come from a table, or are -1. */
  datatype SyslogHeader = SyslogHeader(facility: int, priority: int, pid: int, host: string, app: string)

  /** Bitwise or, in two's complement. */
  function Or(a: int, b: int): (n: int)
    decreases if a < 0 then -a else a
  {
    if a == 0 || b == -1 then b
    else if b == 0 || a == -1 then a
    else 2 * Or(a / 2, b / 2) + (if a % 2 == 1 || b % 2 == 1 then 1 else 0)
  }

  /** `(facility << 3) | priority`. */
  function Pri(h: SyslogHeader): (n: int)
  {
    Or(8 * h.facility, h.priority)
  }

  lemma {:induction false} OrSign(a: int, b: int)
    ensures Or(a, b) < 0 <==> a < 0 || b < 0
    decreases if a < 0 then -a else a
  {
    if a != 0 && b != -1 && b != 0 && a != -1 {
      OrSign(a / 2, b / 2);
    }
  }

  ghost predicate Bit(n: int, i: nat)
    decreases i
  {
    if i == 0 then n % 2 == 1 else Bit(n / 2, i - 1)
  }

  lemma {:induction false} BitOfConstant(i: nat)
    ensures !Bit(0, i) && Bit(-1, i)
  {
    if i > 0 {
      BitOfConstant(i - 1);
    }
  }

  /** A bit of the result is set exactly when it is set on either side. */
  lemma {:induction false} OrBit(a: int, b: int, i: nat)
    ensures Bit(Or(a, b), i) <==> Bit(a, i) || Bit(b, i)
    decreases i
  {
    BitOfConstant(i);
    if i > 0 && a != 0 && b != -1 && b != 0 && a != -1 {
      OrBit(a / 2, b / 2, i - 1);
    }
  }

  /** Below an even number, the lowest bit is that of the other. */
  lemma OrTwice(a: int, b: int)
    ensures Or(2 * a, b) == 2 * Or(a, b / 2) + b % 2
  {
    assert 2 * a / 2 == a && 2 * a % 2 == 0;
    assert b == 2 * (b / 2) + b % 2;
  }

  lemma OrFourTimes(a: int, b: int)
    ensures Or(4 * a, b) == 4 * Or(a, b / 4) + b % 4
  {
    OrTwice(2 * a, b);
    OrTwice(a, b / 2);
    Quarters(b, b / 2);
  }

  lemma Quarters(p: int, q: int)
    requires q == p / 2
    ensures q / 2 == p / 4 && p % 4 == p % 2 + 2 * (q % 2)
  {
  }

  /** The number splits into the facility and the lower three bits of the priority... */
  lemma PriBits(f: int, p: int)
    ensures Or(8 * f, p) == 8 * Or(f, p / 8) + p % 8
  {
    OrTwice(4 * f, p);
    OrFourTimes(f, p / 2);
    Eighths(p, p / 2);
  }

  lemma Eighths(p: int, q: int)
    requires q == p / 2
    ensures q / 4 == p / 8 && p % 8 == p % 2 + 2 * (q % 4)
  {
  }

  /** ...so that both are read back exactly when the priority has no more than three bits. */
  lemma PriSplits(h: SyslogHeader)
    ensures Pri(h) / 8 == h.facility && Pri(h) % 8 == h.priority <==> 0 <= h.priority < 8
  {
    PriBits(h.facility, h.priority);
    if 0 <= h.priority < 8 {
      assert Or(h.facility, 0) == h.facility;
    }
  }

  function PidText(pid: int): (s: string)
  {
    if pid > 0 then "[" + (Decimal(pid) + "]") else ""
  }

  lemma PidTextSplits(pid: int, rest: string)
    requires pid > 0
    ensures PidText(pid) + rest == "[" + (Decimal(pid) + ("]" + rest))
  {
    Sequences.Assoc(Decimal(pid), "]", rest);
    Sequences.Assoc("[", Decimal(pid) + "]", rest);
  }

  /** From the application name on. */
  function TagText(h: SyslogHeader, message: string): (s: string)
  {
    h.app + (PidText(h.pid) + (":" + (" " + message)))
  }

  /** From the timestamp on. */
  function StampText(h: SyslogHeader, timestamp: string, message: string): (s: string)
  {
    timestamp + (" " + (h.host + (" " + TagText(h, message))))
  }

  function FrameText(h: SyslogHeader, timestamp: string, message: string): (s: string)
  {
    "<" + (Decimal(Pri(h)) + (">" + StampText(h, timestamp, message)))
  }

  /** Appends the next part of a text of which `rest` is still to come. */
  method Put(buf: array<char>, at: nat, s: string, ghost rest: string, ghost whole: string) returns (end: nat)
    requires at <= buf.Length && |whole| <= buf.Length && whole == buf[..at] + (s + rest)
    modifies buf
    ensures end <= buf.Length && whole == buf[..end] + rest
  {
    ghost var head := buf[..at];
    end := AppendStr(buf, at, s);
    assert head + (s + rest) == head + s + rest;
  }

  method PutTag(buf: array<char>, at: nat, h: SyslogHeader, message: string, ghost whole: string) returns (end: nat)
    requires at <= buf.Length && |whole| <= buf.Length && whole == buf[..at] + TagText(h, message)
    modifies buf
    ensures end <= buf.Length && whole == buf[..end]
  {
    ghost var tail := ":" + (" " + message);
    end := Put(buf, at, h.app, PidText(h.pid) + tail, whole);
    if h.pid > 0 {
      PidTextSplits(h.pid, tail);
      end := Put(buf, end, "[", Decimal(h.pid) + ("]" + tail), whole);
      end := Put(buf, end, Decimal(h.pid), "]" + tail, whole);
      end := Put(buf, end, "]", tail, whole);
    } else {
      assert PidText(h.pid) + tail == tail;
    }
    end := Put(buf, end, ":", " " + message, whole);
    end := Put(buf, end, " ", message, whole);
    assert message == message + "";
    end := Put(buf, end, message, "", whole);
  }

  method FormatSyslogMsg(buf: array<char>, h: SyslogHeader, timestamp: string, message: string) returns (n: nat)
    requires |FrameText(h, timestamp, message)| <= buf.Length
    modifies buf
    ensures n <= buf.Length && buf[..n] == FrameText(h, timestamp, message)
  {
    ghost var whole := FrameText(h, timestamp, message);
    ghost var tag, stamp := TagText(h, message), StampText(h, timestamp, message);
    assert buf[..0] == [];
    n := Put(buf, 0, "<", Decimal(Pri(h)) + (">" + stamp), whole);
    n := Put(buf, n, Decimal(Pri(h)), ">" + stamp, whole);
    n := Put(buf, n, ">", stamp, whole);
    n := Put(buf, n, timestamp, " " + (h.host + (" " + tag)), whole);
    n := Put(buf, n, " ", h.host + (" " + tag), whole);
    n := Put(buf, n, h.host, " " + tag, whole);
    n := Put(buf, n, " ", tag, whole);
    n := PutTag(buf, n, h, message, whole);
  }

  /** The text before the first of the given characters, and the text from there on. */
  function TakeTo(s: string, stops: set<char>): (r: (string, string))
  {
    if s == [] || s[0] in stops then ("", s)
    else
      var (a, b) := TakeTo(s[1..], stops);
      ([s[0]] + a, b)
  }

  lemma {:induction false} TakeToStop(a: string, stops: set<char>, rest: string)
    requires (forall i :: 0 <= i < |a| ==> a[i] !in stops) && rest != [] && rest[0] in stops
    ensures TakeTo(a + rest, stops) == (a, rest)
  {
    if a == [] {
      assert a + rest == rest;
    } else {
      TakeToStop(a[1..], stops, rest);
      assert (a + rest)[1..] == a[1..] + rest && a == [a[0]] + a[1..];
    }
  }

  datatype Frame = Frame(header: SyslogHeader, timestamp: string, message: string)

  function Skip(s: string, k: nat): string
  {
    if k <= |s| then s[k..] else ""
  }

  lemma Drops(a: string, b: string)
    ensures Skip(a + b, |a|) == b && (a + b)[|a|..] == b
  {
  }

  function ReadPid(s: string): (r: (Option<int>, string))
  {
    if s != [] && s[0] == '[' then
      var (digits, rest) := TakeTo(s[1..], {']'});
      (ParseDecimal(digits), Skip(rest, 1))
    else (Some(0), s)
  }

  /** The application name, the process id and the message. */
  function ReadTag(s: string): (r: (string, Option<int>, string))
  {
    var (app, s1) := TakeTo(s, {'[', ':'});
    var (pid, s2) := ReadPid(s1);
    (app, pid, Skip(s2, 2))
  }

  /** The host and what follows it, given the length of the timestamp. */
  function ReadStamp(stamp: string, timestampLength: nat): (r: (string, string))
  {
    var (host, rest) := TakeTo(Skip(stamp, timestampLength + 1), {' '});
    (host, Skip(rest, 1))
  }

  /** Takes a frame apart, given the length of its timestamp. */
  function ReadFrame(s: string, timestampLength: nat): (r: Option<Frame>)
  {
    var (pri, rest) := TakeTo(Skip(s, 1), {'>'});
    var stamp := Skip(rest, 1);
    var (host, tag) := ReadStamp(stamp, timestampLength);
    var (app, pid, message) := ReadTag(tag);
    match (ParseDecimal(pri), pid)
    case (Some(n), Some(p)) =>
      if n < 0 || |stamp| < timestampLength then None
      else Some(Frame(SyslogHeader(n / 8, n % 8, p, host, app), stamp[..timestampLength], message))
    case _ => None
  }

  /** The process id stands in brackets after the name when it is positive, and not at all otherwise. */
  lemma TagLayout(h: SyslogHeader, message: string)
    ensures TagText(h, message) ==
            h.app + (if h.pid > 0 then "[" + Decimal(h.pid) + "]" else "") + ": " + message
  {
    var pid := PidText(h.pid);
    if h.pid > 0 {
      Sequences.Assoc("[", Decimal(h.pid), "]");
    }
    assert ":" + (" " + message) == ": " + message;
    Sequences.Assoc(h.app, pid, ": " + message);
    Sequences.Assoc(h.app + pid, ": ", message);
  }

  lemma StampLayout(timestamp: string, host: string, tag: string)
    ensures timestamp + (" " + (host + (" " + tag))) == timestamp + " " + host + " " + tag
  {
    Sequences.Assoc(timestamp, " ", host + (" " + tag));
    Sequences.Assoc(timestamp + " ", host, " " + tag);
    Sequences.Assoc(timestamp + " " + host, " ", tag);
  }

  lemma PriLayout(pri: string, stamp: string)
    ensures "<" + (pri + (">" + stamp)) == "<" + pri + ">" + stamp
  {
    Sequences.Assoc("<", pri, ">" + stamp);
    Sequences.Assoc("<" + pri, ">", stamp);
  }

  /** The layout of a frame up to the tag, which `TagLayout` gives. */
  lemma FrameLayout(h: SyslogHeader, timestamp: string, message: string)
    ensures FrameText(h, timestamp, message) ==
            "<" + Decimal(Pri(h)) + ">" + (timestamp + " " + h.host + " " + TagText(h, message))
  {
    StampLayout(timestamp, h.host, TagText(h, message));
    PriLayout(Decimal(Pri(h)), StampText(h, timestamp, message));
  }

  lemma DecimalStops(n: int, c: char)
    requires !IsDigit(c) && c != '-'
    ensures forall i :: 0 <= i < |Decimal(n)| ==> Decimal(n)[i] !in {c}
  {
    var digits := Digits(if n < 0 then -n else n);
    assert forall i :: 0 <= i < |digits| ==> IsDigit(digits[i]);
  }

  lemma PidRoundTrip(pid: nat, rest: string)
    requires rest != [] && rest[0] == ':'
    ensures ReadPid(PidText(pid) + rest) == (Some(pid), rest)
  {
    if pid > 0 {
      var digits := Decimal(pid);
      PidTextSplits(pid, rest);
      DecimalStops(pid, ']');
      Drops("[", digits + ("]" + rest));
      TakeToStop(digits, {']'}, "]" + rest);
      Drops("]", rest);
      DecimalRoundTrip(pid);
    } else {
      assert PidText(pid) + rest == rest;
    }
  }

  lemma TagRoundTrip(h: SyslogHeader, message: string)
    requires h.pid >= 0 && '[' !in h.app && ':' !in h.app
    ensures ReadTag(TagText(h, message)) == (h.app, Some(h.pid), message)
  {
    var rest := ":" + (" " + message);
    TakeToStop(h.app, {'[', ':'}, PidText(h.pid) + rest);
    PidRoundTrip(h.pid, rest);
    assert rest[2..] == message;
  }

  lemma StampRoundTrip(h: SyslogHeader, timestamp: string, message: string)
    requires ' ' !in h.host
    ensures ReadStamp(StampText(h, timestamp, message), |timestamp|) == (h.host, TagText(h, message))
  {
    var stamp, tag := StampText(h, timestamp, message), TagText(h, message);
    assert stamp[|timestamp| + 1..] == h.host + (" " + tag);
    TakeToStop(h.host, {' '}, " " + tag);
    assert (" " + tag)[1..] == tag;
  }

  lemma {:induction false} TakeToAvoids(s: string, stops: set<char>)
    ensures forall i :: 0 <= i < |TakeTo(s, stops).0| ==> TakeTo(s, stops).0[i] !in stops
  {
    if s != [] {
      TakeToAvoids(s[1..], stops);
    }
  }

  /** The frame as far as the text from the timestamp on. */
  lemma PriRoundTrip(h: SyslogHeader, timestamp: string, message: string)
    ensures var stamp := StampText(h, timestamp, message);
            && TakeTo(Skip(FrameText(h, timestamp, message), 1), {'>'}) == (Decimal(Pri(h)), ">" + stamp)
            && Skip(">" + stamp, 1) == stamp && stamp[..|timestamp|] == timestamp
            && ParseDecimal(Decimal(Pri(h))) == Some(Pri(h))
  {
    var pri, stamp := Decimal(Pri(h)), StampText(h, timestamp, message);
    assert FrameText(h, timestamp, message)[1..] == pri + (">" + stamp);
    DecimalStops(Pri(h), '>');
    TakeToStop(pri, {'>'}, ">" + stamp);
    DecimalRoundTrip(Pri(h));
    assert (">" + stamp)[1..] == stamp && stamp[..|timestamp|] == timestamp;
  }

  /** No text is read as a frame whose host, application name or process id could not be told apart. */
  lemma ReadFrameIsPlain(s: string, timestampLength: nat)
    ensures var r := ReadFrame(s, timestampLength);
            r.Some? ==> ' ' !in r.value.header.host && '[' !in r.value.header.app && ':' !in r.value.header.app
  {
    var (pri, rest) := TakeTo(Skip(s, 1), {'>'});
    var stamp := Skip(rest, 1);
    TakeToAvoids(Skip(stamp, timestampLength + 1), {' '});
    TakeToAvoids(ReadStamp(stamp, timestampLength).1, {'[', ':'});
  }

  /** A process id that is not written is read as 0. */
  lemma UnwrittenPid(h: SyslogHeader, timestamp: string, message: string)
    requires h.pid < 0
    ensures FrameText(h, timestamp, message) == FrameText(h.(pid := 0), timestamp, message)
  {
  }

  /** A frame is read back if and only if its facility and process id are not negative, its priority has three
      bits, its host has no space, and its application name no bracket or colon. */
  lemma FrameRoundTrip(h: SyslogHeader, timestamp: string, message: string)
    ensures ReadFrame(FrameText(h, timestamp, message), |timestamp|) == Some(Frame(h, timestamp, message))
            <==> && h.facility >= 0 && 0 <= h.priority < 8 && h.pid >= 0
                 && ' ' !in h.host && '[' !in h.app && ':' !in h.app
  {
    if ' ' in h.host || '[' in h.app || ':' in h.app {
      ReadFrameIsPlain(FrameText(h, timestamp, message), |timestamp|);
    } else {
      var positive := if h.pid < 0 then h.(pid := 0) else h;
      PriRoundTrip(positive, timestamp, message);
      StampRoundTrip(positive, timestamp, message);
      TagRoundTrip(positive, message);
      PriSplits(positive);
      OrSign(8 * h.facility, h.priority);
      if h.pid < 0 {
        UnwrittenPid(h, timestamp, message);
      }
    }
  }
}
