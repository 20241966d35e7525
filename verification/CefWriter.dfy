/** The writers of src/mariadb_udf/syslog.c: each puts its text into a caller's buffer from a moving
    position on, and reports how far it got. The buffer is large enough for the whole text. */
module CefWriter {
  import opened Cef
  import opened Sequences

  /** Copies `s` to position `at`; what stands before `at` is untouched. */
  method AppendStr(buf: array<char>, at: nat, s: string) returns (end: nat)
    requires at + |s| <= buf.Length
    modifies buf
    ensures end == at + |s| && buf[..end] == old(buf[..at]) + s
  {
    forall i | 0 <= i < |s| {
      buf[at + i] := s[i];
    }
    end := at + |s|;
  }

  lemma {:induction false} EscapeValueConcat(a: string, b: string)
    ensures EscapeValue(a + b) == EscapeValue(a) + EscapeValue(b)
  {
    if a == [] {
      assert a + b == b;
    } else {
      EscapeValueConcat(a[1..], b);
      assert (a + b)[1..] == a[1..] + b && (a + b)[0] == a[0];
      Assoc(ValueChar(a[0]), EscapeValue(a[1..]), EscapeValue(b));
    }
  }

  lemma {:induction false} EscapeHeaderConcat(a: string, b: string)
    ensures EscapeHeader(a + b) == EscapeHeader(a) + EscapeHeader(b)
  {
    if a == [] {
      assert a + b == b;
    } else {
      EscapeHeaderConcat(a[1..], b);
      assert (a + b)[1..] == a[1..] + b && (a + b)[0] == a[0];
      Assoc(HeaderChar(a[0]), EscapeHeader(a[1..]), EscapeHeader(b));
    }
  }

  /** One more character, and at least one more after it unless it is the last. */
  lemma EscapeValueStep(v: string, i: nat)
    requires i < |v|
    ensures EscapeValue(v[..i + 1]) == EscapeValue(v[..i]) + ValueChar(v[i])
    ensures |EscapeValue(v[..i])| + |ValueChar(v[i])| <= |EscapeValue(v)|
  {
    assert v[..i + 1] == v[..i] + [v[i]];
    EscapeValueConcat(v[..i], [v[i]]);
    assert v == v[..i + 1] + v[i + 1..];
    EscapeValueConcat(v[..i + 1], v[i + 1..]);
  }

  lemma EscapeHeaderStep(v: string, i: nat)
    requires i < |v|
    ensures EscapeHeader(v[..i + 1]) == EscapeHeader(v[..i]) + HeaderChar(v[i])
    ensures |EscapeHeader(v[..i])| + |HeaderChar(v[i])| <= |EscapeHeader(v)|
  {
    assert v[..i + 1] == v[..i] + [v[i]];
    EscapeHeaderConcat(v[..i], [v[i]]);
    assert v == v[..i + 1] + v[i + 1..];
    EscapeHeaderConcat(v[..i + 1], v[i + 1..]);
  }

  /** One turn of the loop in `FormatCefValue`. */
  method PutValueChar(buf: array<char>, at: nat, c: char) returns (end: nat)
    requires at + |ValueChar(c)| <= buf.Length
    modifies buf
    ensures end == at + |ValueChar(c)| && buf[..end] == old(buf[..at]) + ValueChar(c)
  {
    end := at;
    match c {
      case '\n' =>
        buf[end], end := '\\', end + 1;
        buf[end], end := 'n', end + 1;
      case '\r' =>
        buf[end], end := '\\', end + 1;
        buf[end], end := 'r', end + 1;
      case _ =>
        if c == '\\' || c == '=' {
          buf[end], end := '\\', end + 1;
        }
        buf[end], end := c, end + 1;
    }
  }

  /** One turn of the loop in `FormatCefHeader`. */
  method PutHeaderChar(buf: array<char>, at: nat, c: char) returns (end: nat)
    requires at + |HeaderChar(c)| <= buf.Length
    modifies buf
    ensures end == at + |HeaderChar(c)| && buf[..end] == old(buf[..at]) + HeaderChar(c)
  {
    end := at;
    if c == '\\' || c == '|' {
      buf[end], end := '\\', end + 1;
    }
    buf[end], end := c, end + 1;
  }

  method FormatCefValue(buf: array<char>, at: nat, value: string) returns (end: nat)
    requires at + |EscapeValue(value)| <= buf.Length
    modifies buf
    ensures end == at + |EscapeValue(value)| && buf[..end] == old(buf[..at]) + EscapeValue(value)
  {
    end := at;
    var i := 0;
    while i < |value| && end < buf.Length
      invariant 0 <= i <= |value| && end == at + |EscapeValue(value[..i])| <= buf.Length
      invariant buf[..end] == old(buf[..at]) + EscapeValue(value[..i])
    {
      EscapeValueStep(value, i);
      Assoc(old(buf[..at]), EscapeValue(value[..i]), ValueChar(value[i]));
      end := PutValueChar(buf, end, value[i]);
      i := i + 1;
    }
    if i < |value| {
      EscapeValueStep(value, i);
    }
    assert value[..|value|] == value;
  }

  method FormatCefHeader(buf: array<char>, at: nat, value: string) returns (end: nat)
    requires at + |EscapeHeader(value)| <= buf.Length
    modifies buf
    ensures end == at + |EscapeHeader(value)| && buf[..end] == old(buf[..at]) + EscapeHeader(value)
  {
    end := at;
    var i := 0;
    while i < |value| && end < buf.Length
      invariant 0 <= i <= |value| && end == at + |EscapeHeader(value[..i])| <= buf.Length
      invariant buf[..end] == old(buf[..at]) + EscapeHeader(value[..i])
    {
      EscapeHeaderStep(value, i);
      Assoc(old(buf[..at]), EscapeHeader(value[..i]), HeaderChar(value[i]));
      end := PutHeaderChar(buf, end, value[i]);
      i := i + 1;
    }
    if i < |value| {
      EscapeHeaderStep(value, i);
    }
    assert value[..|value|] == value;
  }

  // ---------- the header ----------

  lemma {:induction false} FieldsConcat(a: seq<string>, b: seq<string>)
    ensures FieldsText(a + b) == FieldsText(a) + FieldsText(b)
  {
    if a == [] {
      assert a + b == b;
    } else {
      FieldsConcat(a[1..], b);
      assert (a + b)[1..] == a[1..] + b && (a + b)[0] == a[0];
      Assoc(EscapeHeader(a[0]) + "|", FieldsText(a[1..]), FieldsText(b));
    }
  }

  lemma FieldsStep(fields: seq<string>, k: nat)
    requires k < |fields|
    ensures FieldsText(fields[..k + 1]) == FieldsText(fields[..k]) + (EscapeHeader(fields[k]) + "|")
    ensures |FieldsText(fields[..k])| + |EscapeHeader(fields[k])| + 1 <= |FieldsText(fields)|
  {
    assert fields[..k + 1] == fields[..k] + [fields[k]];
    FieldsConcat(fields[..k], [fields[k]]);
    assert FieldsText([fields[k]]) == EscapeHeader(fields[k]) + "|";
    assert fields == fields[..k + 1] + fields[k + 1..];
    FieldsConcat(fields[..k + 1], fields[k + 1..]);
  }

  /** The buffer holds the first `k` header fields, up to position `end`. */
  ghost predicate HoldsFields(buf: array<char>, end: nat, fields: seq<string>, k: nat)
    reads buf
  {
    && k <= |fields| && 4 + |FieldsText(fields)| <= buf.Length
    && end == 4 + |FieldsText(fields[..k])| <= buf.Length
    && buf[..end] == "CEF:" + FieldsText(fields[..k])
  }

  lemma FieldEnds(a: string, b: string, c: string)
    ensures a + b + c + "|" == a + (b + (c + "|"))
  {
  }

  method PutField(buf: array<char>, at: nat, value: string, ghost fields: seq<string>, ghost k: nat) returns (end: nat)
    requires HoldsFields(buf, at, fields, k) && k < |fields| && fields[k] == value
    modifies buf
    ensures HoldsFields(buf, end, fields, k + 1)
  {
    FieldsStep(fields, k);
    end := FormatCefHeader(buf, at, value);
    end := AppendStr(buf, end, "|");
    FieldEnds("CEF:", FieldsText(fields[..k]), EscapeHeader(value));
  }

  method PutInt(buf: array<char>, at: nat, n: int, ghost fields: seq<string>, ghost k: nat) returns (end: nat)
    requires HoldsFields(buf, at, fields, k) && k < |fields| && fields[k] == Decimal(n)
    modifies buf
    ensures HoldsFields(buf, end, fields, k + 1)
  {
    FieldsStep(fields, k);
    DecimalPlain(n);
    end := AppendStr(buf, at, Decimal(n));
    end := AppendStr(buf, end, "|");
    FieldEnds("CEF:", FieldsText(fields[..k]), EscapeHeader(Decimal(n)));
  }

  method PutMark(buf: array<char>, ghost fields: seq<string>) returns (end: nat)
    requires 4 + |FieldsText(fields)| <= buf.Length
    modifies buf
    ensures HoldsFields(buf, end, fields, 0)
  {
    assert buf[..0] == [] && fields[..0] == [];
    end := AppendStr(buf, 0, "CEF:");
  }

  /** The four fields that name the device. */
  method PutDevice(buf: array<char>, at: nat, h: Header, ghost fields: seq<string>) returns (end: nat)
    requires HoldsFields(buf, at, fields, 1) && |fields| == 7
    requires fields[1..5] == [h.deviceVendor, h.deviceProduct, h.deviceVersion, h.deviceEventClassId]
    modifies buf
    ensures HoldsFields(buf, end, fields, 5)
  {
    ghost var device := fields[1..5];
    assert forall i :: 0 <= i < 4 ==> fields[i + 1] == device[i];
    end := PutField(buf, at, h.deviceVendor, fields, 1);
    end := PutField(buf, end, h.deviceProduct, fields, 2);
    end := PutField(buf, end, h.deviceVersion, fields, 3);
    end := PutField(buf, end, h.deviceEventClassId, fields, 4);
  }

  method FormatHeader(buf: array<char>, h: Header, name: string) returns (end: nat)
    requires 4 + |FieldsText(HeaderFields(h, name))| <= buf.Length
    modifies buf
    ensures end == 4 + |FieldsText(HeaderFields(h, name))|
    ensures buf[..end] == "CEF:" + FieldsText(HeaderFields(h, name))
  {
    ghost var fields := HeaderFields(h, name);
    end := PutMark(buf, fields);
    end := PutInt(buf, end, h.version, fields, 0);
    end := PutDevice(buf, end, h, fields);
    end := PutField(buf, end, name, fields, 5);
    end := PutInt(buf, end, h.severity, fields, 6);
    assert fields[..7] == fields;
  }

  // ---------- the extension ----------

  lemma {:induction false} ExtensionGrows(pairs: seq<Pair>, k: nat)
    requires k <= |pairs|
    ensures |ExtensionTo(pairs, k)| <= |ExtensionText(pairs)|
    decreases |pairs| - k
  {
    if k < |pairs| {
      ExtensionGrows(pairs, k + 1);
    }
  }

  method PutPair(buf: array<char>, at: nat, p: Pair) returns (end: nat)
    requires at + |PairText(p)| <= buf.Length
    modifies buf
    ensures end == at + |PairText(p)| && buf[..end] == old(buf[..at]) + PairText(p)
  {
    ghost var x, y, z := old(buf[..at]), EscapeValue(p.key), EscapeValue(p.value);
    end := FormatCefValue(buf, at, p.key);
    end := AppendStr(buf, end, "=");
    end := FormatCefValue(buf, end, p.value);
    Assoc(x, y, "=");
    Assoc(x, y + "=", z);
  }

  method PutItem(buf: array<char>, at: nat, more: bool, p: Pair) returns (end: nat)
    requires at + |Item(more, p)| <= buf.Length
    modifies buf
    ensures end == at + |Item(more, p)| && buf[..end] == old(buf[..at]) + Item(more, p)
  {
    if more {
      end := AppendStr(buf, at, " ");
      end := PutPair(buf, end, p);
      Assoc(old(buf[..at]), " ", PairText(p));
    } else {
      end := PutPair(buf, at, p);
    }
  }

  /** One turn of the loop over the arguments: `head` and then `done` stand in the buffer before it. */
  method PutNext(buf: array<char>, at: nat, more: bool, p: Pair, ghost head: string, ghost done: string) returns (end: nat)
    requires at == |head| + |done| && at + |Item(more, p)| <= buf.Length && buf[..at] == head + done
    modifies buf
    ensures end == |head| + |done + Item(more, p)| && buf[..end] == head + (done + Item(more, p))
  {
    end := PutItem(buf, at, more, p);
    Assoc(head, done, Item(more, p));
  }

  lemma ExtensionStep(pairs: seq<Pair>, k: nat)
    requires k < |pairs|
    ensures ExtensionTo(pairs, k + 1) == ExtensionTo(pairs, k) + Item(k > 0, pairs[k])
    ensures |ExtensionTo(pairs, k + 1)| <= |ExtensionText(pairs)|
  {
    ExtensionGrows(pairs, k + 1);
  }

  /** The loop over the arguments, which alternate between a key and its value. */
  method FormatExtension(buf: array<char>, at: nat, pairs: seq<Pair>) returns (end: nat)
    requires at + |ExtensionText(pairs)| <= buf.Length
    modifies buf
    ensures end == at + |ExtensionText(pairs)| && buf[..end] == old(buf[..at]) + ExtensionText(pairs)
  {
    ghost var head := buf[..at];
    end := at;
    for k := 0 to |pairs|
      invariant end == at + |ExtensionTo(pairs, k)| <= buf.Length
      invariant buf[..end] == head + ExtensionTo(pairs, k)
    {
      ExtensionStep(pairs, k);
      end := PutNext(buf, end, k > 0, pairs[k], head, ExtensionTo(pairs, k));
    }
  }

  /** The whole event: what the buffer holds is the text that `EventRoundTrip` reads back, and after the header
      it stays on its line. */
  method FormatCef(buf: array<char>, e: Event) returns (n: nat)
    requires |EventText(e)| <= buf.Length
    modifies buf
    ensures n <= buf.Length && buf[..n] == EventText(e)
    ensures var header := 4 + |FieldsText(HeaderFields(e.header, e.name))|; header <= n && OneLine(buf[header..n])
  {
    n := FormatHeader(buf, e.header, e.name);
    ghost var header := n;
    n := FormatExtension(buf, n, e.pairs);
    ExtensionStaysOnLine(e.pairs, |e.pairs|);
    assert buf[header..n] == buf[..n][header..] == ExtensionText(e.pairs);
  }
}
