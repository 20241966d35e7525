/** The event text that the MariaDB plug-in sends to syslog: a CEF header and extension, as a string, and
    the reader that takes it apart again. */
module Cef {
  import opened Options
  import opened Numerals
  import opened Sequences

  datatype Header = Header(
    version: int, deviceVendor: string, deviceProduct: string, deviceVersion: string,
    deviceEventClassId: string, severity: int)

  datatype Pair = Pair(key: string, value: string)

  datatype Event = Event(header: Header, name: string, pairs: seq<Pair>)

  // ---------- integers as printed by %d ----------

  function Decimal(n: int): (s: string)
  {
    if n < 0 then "-" + Digits(-n) else Digits(n)
  }

  function ParseDecimal(s: string): (r: Option<int>)
  {
    if s != [] && AllDigits(s) then Some(Value(s))
    else if |s| > 1 && s[0] == '-' && AllDigits(s[1..]) then
      var n: int := Value(s[1..]);
      Some(-n)
    else None
  }

  lemma DecimalRoundTrip(n: int)
    ensures ParseDecimal(Decimal(n)) == Some(n)
  {
    if n < 0 {
      DigitsRoundTrip(-n);
      assert Decimal(n)[1..] == Digits(-n);
      assert !IsDigit(Decimal(n)[0]);
    } else {
      DigitsRoundTrip(n);
    }
  }

  // ---------- the text ----------

  function HeaderChar(c: char): (s: string)
  {
    if c == '\\' || c == '|' then ['\\', c] else [c]
  }

  function ValueChar(c: char): (s: string)
  {
    if c == '\n' then "\\n" else if c == '\r' then "\\r" else if c == '\\' || c == '=' then ['\\', c] else [c]
  }

  function EscapeHeader(s: string): (r: string)
  {
    if s == [] then [] else HeaderChar(s[0]) + EscapeHeader(s[1..])
  }

  function EscapeValue(s: string): (r: string)
  {
    if s == [] then [] else ValueChar(s[0]) + EscapeValue(s[1..])
  }

  function PairText(p: Pair): (s: string)
  {
    EscapeValue(p.key) + "=" + EscapeValue(p.value)
  }

  /** What a pair adds to the text, after `more` pairs or as the first. */
  function Item(more: bool, p: Pair): (s: string)
  {
    if more then " " + PairText(p) else PairText(p)
  }

  /** The first `k` pairs as `key=value` items separated by single spaces. */
  function ExtensionTo(pairs: seq<Pair>, k: nat): (s: string)
    requires k <= |pairs|
  {
    if k == 0 then [] else ExtensionTo(pairs, k - 1) + Item(k > 1, pairs[k - 1])
  }

  function ExtensionText(pairs: seq<Pair>): (s: string)
  {
    ExtensionTo(pairs, |pairs|)
  }

  /** Escaped fields, each ended by a bar. */
  function FieldsText(fields: seq<string>): (s: string)
  {
    if fields == [] then [] else EscapeHeader(fields[0]) + "|" + FieldsText(fields[1..])
  }

  function HeaderFields(h: Header, name: string): (fields: seq<string>)
  {
    [Decimal(h.version), h.deviceVendor, h.deviceProduct, h.deviceVersion, h.deviceEventClassId, name, Decimal(h.severity)]
  }

  function EventText(e: Event): (s: string)
  {
    "CEF:" + FieldsText(HeaderFields(e.header, e.name)) + ExtensionText(e.pairs)
  }

  // ---------- what is escaped ----------

  const HEADER_SPECIAL := {'\\', '|'}
  const VALUE_SPECIAL := {'\n', '\r', '\\', '='}

  /** Escaping adds one character for each special one, and changes nothing else. */
  lemma {:induction false} HeaderEscapes(v: string)
    ensures |EscapeHeader(v)| == |v| + CountIn(v, HEADER_SPECIAL)
    ensures (forall c :: c in v ==> c !in HEADER_SPECIAL) ==> EscapeHeader(v) == v
  {
    if v != [] {
      HeaderEscapes(v[1..]);
      HeadTail(v);
    }
  }

  lemma {:induction false} ValueEscapes(v: string)
    ensures |EscapeValue(v)| == |v| + CountIn(v, VALUE_SPECIAL)
    ensures (forall c :: c in v ==> c !in VALUE_SPECIAL) ==> EscapeValue(v) == v
  {
    if v != [] {
      ValueEscapes(v[1..]);
      HeadTail(v);
    }
  }

  /** The text is one line. */
  ghost predicate OneLine(s: string)
  {
    '\n' !in s && '\r' !in s
  }

  /** No value can break the line it is written on. */
  lemma {:induction false} ValueStaysOnLine(v: string)
    ensures OneLine(EscapeValue(v))
  {
    if v != [] {
      ValueStaysOnLine(v[1..]);
    }
  }

  lemma OneLineConcat(a: string, b: string)
    requires OneLine(a) && OneLine(b)
    ensures OneLine(a + b)
  {
  }

  lemma PairStaysOnLine(p: Pair, more: bool)
    ensures OneLine(Item(more, p))
  {
    ValueStaysOnLine(p.key);
    ValueStaysOnLine(p.value);
    OneLineConcat(EscapeValue(p.key), "=");
    OneLineConcat(EscapeValue(p.key) + "=", EscapeValue(p.value));
    OneLineConcat(" ", PairText(p));
  }

  lemma {:induction false} ExtensionStaysOnLine(pairs: seq<Pair>, k: nat)
    requires k <= |pairs|
    ensures OneLine(ExtensionTo(pairs, k))
  {
    if k > 0 {
      ExtensionStaysOnLine(pairs, k - 1);
      PairStaysOnLine(pairs[k - 1], k > 1);
      OneLineConcat(ExtensionTo(pairs, k - 1), Item(k > 1, pairs[k - 1]));
    }
  }

  // ---------- the reader ----------

  /** The text up to the first unescaped bar, unescaped, and what follows the bar. */
  function TakeField(s: string): (r: Option<(string, string)>)
  {
    if s == [] then None
    else if s[0] == '|' then Some(("", s[1..]))
    else
      var k := if s[0] == '\\' && |s| > 1 then 1 else 0;
      match TakeField(s[k + 1..])
      case None => None
      case Some((field, rest)) => Some(([s[k]] + field, rest))
  }

  /** The pieces between the unescaped equals signs, still escaped. */
  function SplitEquals(s: string): (r: seq<string>)
    ensures r != []
  {
    if s == [] then [""]
    else if s[0] == '=' then [""] + SplitEquals(s[1..])
    else
      var k := if s[0] == '\\' && |s| > 1 then 2 else 1;
      var r := SplitEquals(s[k..]);
      [s[..k] + r[0]] + r[1..]
  }

  function Unescape(s: string): (r: string)
  {
    if s == [] then []
    else if s[0] == '\\' && |s| > 1 then
      [if s[1] == 'n' then '\n' else if s[1] == 'r' then '\r' else s[1]] + Unescape(s[2..])
    else [s[0]] + Unescape(s[1..])
  }

  /** The text before the last space, and the text after it. */
  function SplitLastSpace(s: string): (r: (string, string))
    ensures ' ' !in r.1
  {
    if s == [] then ("", "")
    else
      var c := s[|s| - 1];
      if c == ' ' then (s[..|s| - 1], "")
      else
        var (left, right) := SplitLastSpace(s[..|s| - 1]);
        (left, right + [c])
  }

  /** The pairs of an extension whose next key is `key` and whose later pieces are `rest`. */
  function ReadPairs(key: string, rest: seq<string>): (r: seq<Pair>)
    decreases |rest|
  {
    if rest == [] then []
    else if |rest| == 1 then [Pair(Unescape(key), Unescape(rest[0]))]
    else
      var (value, next) := SplitLastSpace(rest[0]);
      [Pair(Unescape(key), Unescape(value))] + ReadPairs(next, rest[1..])
  }

  function ReadExtension(s: string): (r: seq<Pair>)
  {
    var pieces := SplitEquals(s);
    ReadPairs(pieces[0], pieces[1..])
  }

  /** The next `n` fields. */
  function TakeFields(s: string, n: nat): (r: Option<(seq<string>, string)>)
    ensures r.Some? ==> |r.value.0| == n
    decreases n
  {
    if n == 0 then Some(([], s))
    else
      match TakeField(s)
      case None => None
      case Some((field, rest)) =>
        match TakeFields(rest, n - 1)
        case None => None
        case Some((fields, rest')) => Some(([field] + fields, rest'))
  }

  function ReadEvent(s: string): (r: Option<Event>)
  {
    if !("CEF:" <= s) then None
    else
      match TakeFields(s[4..], 7)
      case None => None
      case Some((f, extension)) =>
        match (ParseDecimal(f[0]), ParseDecimal(f[6]))
        case (Some(version), Some(severity)) =>
          Some(Event(Header(version, f[1], f[2], f[3], f[4], severity), f[5], ReadExtension(extension)))
        case _ => None
  }

  // ---------- reading back what was written ----------

  lemma {:induction false} FieldRoundTrip(f: string, rest: string)
    ensures TakeField(EscapeHeader(f) + "|" + rest) == Some((f, rest))
  {
    if f == [] {
      assert EscapeHeader(f) + "|" + rest == "|" + rest;
    } else {
      var head, tail := HeaderChar(f[0]), EscapeHeader(f[1..]) + "|" + rest;
      FieldRoundTrip(f[1..], rest);
      Assoc(head, EscapeHeader(f[1..]) + "|", rest);
      Assoc(head, EscapeHeader(f[1..]), "|");
      assert (head + tail)[|head|..] == tail;
      HeadTail(f);
    }
  }

  lemma DecimalPlain(n: int)
    ensures EscapeHeader(Decimal(n)) == Decimal(n)
  {
    var s := Decimal(n);
    assert AllDigits(if n < 0 then s[1..] else s);
    forall i | 0 <= i < |s|
      ensures s[i] != '\\' && s[i] != '|'
    {
      assert n < 0 && i > 0 ==> IsDigit(s[1..][i - 1]);
      assert n >= 0 ==> IsDigit(s[i]);
    }
    HeaderEscapes(s);
  }

  /** No equals sign and no trailing backslash is left unescaped. */
  ghost predicate Tame(s: string)
  {
    s == [] || (if s[0] == '\\' then |s| > 1 && Tame(s[2..]) else s[0] != '=' && Tame(s[1..]))
  }

  lemma {:induction false} EscapedIsTame(v: string)
    ensures Tame(EscapeValue(v))
  {
    if v != [] {
      EscapedIsTame(v[1..]);
      assert EscapeValue(v)[|ValueChar(v[0])|..] == EscapeValue(v[1..]);
    }
  }

  lemma {:induction false} TameConcat(a: string, b: string)
    requires Tame(a) && Tame(b)
    ensures Tame(a + b)
  {
    if a == [] {
      assert a + b == b;
    } else {
      var k := if a[0] == '\\' then 2 else 1;
      TameConcat(a[k..], b);
      assert (a + b)[k..] == a[k..] + b;
    }
  }

  lemma {:induction false} SplitTame(s: string, rest: string)
    requires Tame(s)
    ensures SplitEquals(s) == [s]
    ensures SplitEquals(s + "=" + rest) == [s] + SplitEquals(rest)
  {
    var whole := s + "=" + rest;
    if s == [] {
      assert whole == "=" + rest;
    } else {
      var k := if s[0] == '\\' then 2 else 1;
      SplitTame(s[k..], rest);
      SplitFirst(s, k);
      assert s + "=" + rest == s + ("=" + rest);
      DropFirst(s, "=" + rest, k);
      assert s[k..] + ("=" + rest) == s[k..] + "=" + rest;
      SplitFirst(whole, k);
    }
  }

  lemma DropFirst(s: string, rest: string, k: nat)
    requires k <= |s|
    ensures (s + rest)[..k] == s[..k] && (s + rest)[k..] == s[k..] + rest && s[..k] + s[k..] == s
  {
  }

  /** One character, or a backslash and the next, goes to the first piece. */
  lemma SplitFirst(s: string, k: nat)
    requires s != [] && s[0] != '=' && k == (if s[0] == '\\' && |s| > 1 then 2 else 1)
    ensures var r := SplitEquals(s[k..]); SplitEquals(s) == [s[..k] + r[0]] + r[1..]
  {
  }

  lemma {:induction false} UnescapeEscape(v: string)
    ensures Unescape(EscapeValue(v)) == v
  {
    if v != [] {
      UnescapeEscape(v[1..]);
      assert EscapeValue(v)[|ValueChar(v[0])|..] == EscapeValue(v[1..]);
      assert v == [v[0]] + v[1..];
    }
  }

  lemma {:induction false} EscapeKeepsSpaces(v: string)
    ensures ' ' in EscapeValue(v) <==> ' ' in v
  {
    if v != [] {
      EscapeKeepsSpaces(v[1..]);
      assert v == [v[0]] + v[1..];
    }
  }

  lemma {:induction false} LastSpace(a: string, b: string)
    requires ' ' !in b
    ensures SplitLastSpace(a + " " + b) == (a, b)
  {
    var s := a + " " + b;
    if b == [] {
      assert s[..|s| - 1] == a;
    } else {
      LastSpace(a, b[..|b| - 1]);
      assert s[..|s| - 1] == a + " " + b[..|b| - 1];
      assert b == b[..|b| - 1] + [b[|b| - 1]];
    }
  }

  lemma {:induction false} FieldsRoundTrip(fields: seq<string>, rest: string)
    ensures TakeFields(FieldsText(fields) + rest, |fields|) == Some((fields, rest))
  {
    if fields == [] {
      assert FieldsText(fields) + rest == rest;
    } else {
      var tail := FieldsText(fields[1..]) + rest;
      FieldsRoundTrip(fields[1..], rest);
      FieldRoundTrip(fields[0], tail);
      Assoc(EscapeHeader(fields[0]) + "|", FieldsText(fields[1..]), rest);
      HeadTail(fields);
    }
  }

  /** What follows the first key and its equals sign. */
  ghost function AfterKey(pairs: seq<Pair>): (s: string)
    requires pairs != []
  {
    var value := EscapeValue(pairs[0].value);
    if |pairs| == 1 then value else value + " " + EscapeValue(pairs[1].key) + "=" + AfterKey(pairs[1..])
  }

  lemma RegroupItem(value: string, key: string, last: string)
    ensures value + " " + key + "=" + last == value + (" " + (key + "=" + last))
  {
  }

  lemma {:induction false} AfterKeySnoc(pairs: seq<Pair>, p: Pair)
    requires pairs != []
    ensures AfterKey(pairs + [p]) == AfterKey(pairs) + (" " + PairText(p))
    decreases |pairs|
  {
    var all := pairs + [p];
    assert all[0] == pairs[0] && all[1..] == pairs[1..] + [p];
    var value := EscapeValue(pairs[0].value);
    if |pairs| == 1 {
      assert AfterKey(all[1..]) == EscapeValue(p.value);
      RegroupItem(value, EscapeValue(p.key), EscapeValue(p.value));
    } else {
      AfterKeySnoc(pairs[1..], p);
      Assoc(value + " " + EscapeValue(pairs[1].key) + "=", AfterKey(pairs[1..]), " " + PairText(p));
    }
  }

  lemma {:induction false} ExtensionSplits(pairs: seq<Pair>, k: nat)
    requires 0 < k <= |pairs|
    ensures ExtensionTo(pairs, k) == EscapeValue(pairs[0].key) + "=" + AfterKey(pairs[..k])
  {
    if k == 1 {
      FirstItem(pairs);
    } else {
      ExtensionSplits(pairs, k - 1);
      LaterItem(pairs, k, EscapeValue(pairs[0].key) + "=");
    }
  }

  lemma FirstItem(pairs: seq<Pair>)
    requires pairs != []
    ensures ExtensionTo(pairs, 1) == EscapeValue(pairs[0].key) + "=" + AfterKey(pairs[..1])
  {
    assert ExtensionTo(pairs, 0) == [];
    assert AfterKey(pairs[..1]) == EscapeValue(pairs[0].value);
  }

  lemma LaterItem(pairs: seq<Pair>, k: nat, start: string)
    requires 1 < k <= |pairs| && ExtensionTo(pairs, k - 1) == start + AfterKey(pairs[..k - 1])
    ensures ExtensionTo(pairs, k) == start + AfterKey(pairs[..k])
  {
    AfterKeySnoc(pairs[..k - 1], pairs[k - 1]);
    TakeSnoc(pairs, k);
    Assoc(start, AfterKey(pairs[..k - 1]), " " + PairText(pairs[k - 1]));
  }

  ghost predicate LaterKeysPlain(pairs: seq<Pair>)
  {
    forall i :: 1 <= i < |pairs| ==> ' ' !in pairs[i].key
  }

  /** A value, a space, the next key and its equals sign yield one pair. */
  lemma ReadOne(key: string, value: string, next: string, after: string)
    requires Tame(value) && Tame(next) && ' ' !in next
    ensures ReadPairs(key, SplitEquals(value + " " + next + "=" + after))
         == [Pair(Unescape(key), Unescape(value))] + ReadPairs(next, SplitEquals(after))
  {
    TameConcat(value, " ");
    TameConcat(value + " ", next);
    SplitTame(value + " " + next, after);
    LastSpace(value, next);
    assert ([value + " " + next] + SplitEquals(after))[1..] == SplitEquals(after);
  }

  lemma ReadLast(p: Pair)
    ensures ReadPairs(EscapeValue(p.key), SplitEquals(EscapeValue(p.value))) == [p]
  {
    UnescapeEscape(p.key);
    UnescapeEscape(p.value);
    EscapedIsTame(p.value);
    SplitTame(EscapeValue(p.value), "");
  }

  lemma ReadFirst(p: Pair, next: string, after: string, rest: seq<Pair>)
    requires ' ' !in next && ReadPairs(EscapeValue(next), SplitEquals(after)) == rest
    ensures ReadPairs(EscapeValue(p.key), SplitEquals(EscapeValue(p.value) + " " + EscapeValue(next) + "=" + after)) == [p] + rest
  {
    UnescapeEscape(p.key);
    UnescapeEscape(p.value);
    EscapedIsTame(p.value);
    EscapedIsTame(next);
    EscapeKeepsSpaces(next);
    ReadOne(EscapeValue(p.key), EscapeValue(p.value), EscapeValue(next), after);
  }

  lemma {:induction false} ReadFrom(pairs: seq<Pair>)
    requires pairs != [] && LaterKeysPlain(pairs)
    ensures ReadPairs(EscapeValue(pairs[0].key), SplitEquals(AfterKey(pairs))) == pairs
    decreases |pairs|
  {
    HeadTail(pairs);
    if |pairs| == 1 {
      ReadLast(pairs[0]);
    } else {
      ReadFrom(pairs[1..]);
      ReadFirst(pairs[0], pairs[1].key, AfterKey(pairs[1..]), pairs[1..]);
    }
  }

  lemma ExtensionRoundTrip(pairs: seq<Pair>)
    requires LaterKeysPlain(pairs)
    ensures ReadExtension(ExtensionText(pairs)) == pairs
  {
    if pairs != [] {
      var key := EscapeValue(pairs[0].key);
      ExtensionSplits(pairs, |pairs|);
      assert pairs[..|pairs|] == pairs;
      EscapedIsTame(pairs[0].key);
      SplitTame(key, AfterKey(pairs));
      assert ([key] + SplitEquals(AfterKey(pairs)))[1..] == SplitEquals(AfterKey(pairs));
      ReadFrom(pairs);
    }
  }

  lemma {:induction false} UnescapeAddsNoSpace(s: string)
    requires ' ' !in s
    ensures ' ' !in Unescape(s)
    decreases |s|
  {
    if s != [] {
      UnescapeAddsNoSpace(s[if s[0] == '\\' && |s| > 1 then 2 else 1..]);
    }
  }

  lemma {:induction false} ReadKeysArePlain(key: string, rest: seq<string>)
    ensures LaterKeysPlain(ReadPairs(key, rest))
    ensures ReadPairs(key, rest) != [] ==> ReadPairs(key, rest)[0].key == Unescape(key)
    decreases |rest|
  {
    if |rest| > 1 {
      var (value, next) := SplitLastSpace(rest[0]);
      UnescapeAddsNoSpace(next);
      ReadKeysArePlain(next, rest[1..]);
    }
  }

  lemma ExtensionReadsPlainKeys(s: string)
    ensures LaterKeysPlain(ReadExtension(s))
  {
    var pieces := SplitEquals(s);
    ReadKeysArePlain(pieces[0], pieces[1..]);
  }

  /** The header fields are always read back, and the rest is read as the extension. */
  lemma HeaderRoundTrip(e: Event)
    ensures ReadEvent(EventText(e)) == Some(e.(pairs := ReadExtension(ExtensionText(e.pairs))))
  {
    var fields, ext := HeaderFields(e.header, e.name), ExtensionText(e.pairs);
    AfterMark(FieldsText(fields), ext);
    FieldsRoundTrip(fields, ext);
    DecimalRoundTrip(e.header.version);
    DecimalRoundTrip(e.header.severity);
  }

  lemma AfterMark(a: string, b: string)
    ensures "CEF:" <= "CEF:" + a + b && ("CEF:" + a + b)[4..] == a + b
  {
  }

  /** Reading the text of an event gives the event back exactly when no key but the first has a space. */
  lemma EventRoundTrip(e: Event)
    ensures ReadEvent(EventText(e)) == Some(e) <==> LaterKeysPlain(e.pairs)
  {
    HeaderRoundTrip(e);
    ExtensionReadsPlainKeys(ExtensionText(e.pairs));
    if LaterKeysPlain(e.pairs) {
      ExtensionRoundTrip(e.pairs);
    }
  }
}
