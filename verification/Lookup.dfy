/** The name tables of src/mariadb_udf/config.c and the binary search over them, which compares only as
    many characters as the given name has. */
module Lookup {
  import opened Options
  import opened Words

  datatype Entry = Entry(name: string, val: int)

  /** `strncmp(name, entry, |name|)` on strings without NUL: the entry's end sorts before any character. */
  function Compare(name: string, entry: string): (r: int)
  {
    if name == [] then 0
    else if entry == [] then 1
    else if name[0] != entry[0] then name[0] as int - entry[0] as int
    else Compare(name[1..], entry[1..])
  }

  ghost predicate Sorted(table: seq<Entry>)
  {
    forall i, j :: 0 <= i < j < |table| ==> Below(table[i].name, table[j].name)
  }

  /** Comparing equal means being a prefix. */
  lemma {:induction false} EqualIsPrefix(name: string, entry: string)
    ensures Compare(name, entry) == 0 <==> name <= entry
  {
    if name != [] && entry != [] && name[0] == entry[0] {
      EqualIsPrefix(name[1..], entry[1..]);
      assert name == [name[0]] + name[1..] && entry == [entry[0]] + entry[1..];
    }
  }

  /** Going up the table, the comparison goes down: above, equal, below. */
  lemma {:induction false} CompareFalls(name: string, a: string, b: string)
    requires Below(a, b)
    ensures Compare(name, a) < 0 ==> Compare(name, b) < 0
    ensures Compare(name, b) > 0 ==> Compare(name, a) > 0
  {
    if name != [] && a != [] && name[0] == a[0] && a[0] == b[0] {
      CompareFalls(name[1..], a[1..], b[1..]);
    }
  }

  /** `n >> 1`: half of `n` and half of `n - 1` make up `n - 1`. */
  function Half(n: nat): (h: nat)
    ensures h <= n && (n > 0 ==> h < n)
  {
    if n == 0 then 0 else n - 1 - Half(n - 1)
  }

  lemma {:induction false} HalfRoundsDown(n: nat)
    ensures 2 * Half(n) <= n <= 2 * Half(n) + 1
  {
    if n > 0 {
      HalfRoundsDown(n - 1);
    }
  }

  // ---------- the search, given how the name compares with each entry ----------

  ghost function Outcomes(name: string, table: seq<Entry>): (cmps: seq<int>)
  {
    seq(|table|, i requires 0 <= i < |table| => Compare(name, table[i].name))
  }

  /** Where the search of `len` entries from `low` on ends. */
  ghost function Probe(cmps: seq<int>, low: nat, len: nat): (r: Option<nat>)
    requires low + len <= |cmps|
    ensures r.Some? ==> r.value < |cmps|
    decreases len
  {
    if len == 0 then None
    else
      var mid := low + Half(len);
      if cmps[mid] == 0 then Some(mid)
      else if cmps[mid] > 0 then Probe(cmps, mid + 1, Half(len - 1))
      else Probe(cmps, low, Half(len))
  }

  ghost function Found(name: string, table: seq<Entry>): (r: Option<int>)
  {
    var m := Probe(Outcomes(name, table), 0, |table|);
    if m.None? then None else Some(table[m.value].val)
  }

  /** The comparison is positive before `a`, zero from there up to `b`, and negative after. */
  ghost predicate Splits(cmps: seq<int>, a: nat, b: nat)
  {
    && a <= b <= |cmps|
    && (forall i :: 0 <= i < a ==> cmps[i] > 0)
    && (forall i :: a <= i < b ==> cmps[i] == 0)
    && (forall i :: b <= i < |cmps| ==> cmps[i] < 0)
  }

  /** The first probe that falls between `a` and `b`. */
  ghost function FirstProbe(low: nat, len: nat, a: nat, b: nat): (m: nat)
    requires low <= a < b <= low + len
    ensures a <= m < b
    decreases len
  {
    var mid := low + Half(len);
    if mid < a then FirstProbe(mid + 1, Half(len - 1), a, b)
    else if mid >= b then FirstProbe(low, Half(len), a, b)
    else mid
  }

  /** On which side of the stretch from `a` to `b` the position `i` lies: as its comparison should say. */
  ghost predicate SideFits(cmp: int, i: nat, a: nat, b: nat)
  {
    if i < a then cmp > 0 else if i < b then cmp == 0 else cmp < 0
  }

  /** The search ends at the first probe where the comparison is zero, or without one at nothing. */
  lemma ProbeMeetsBlock(cmps: seq<int>, a: nat, b: nat, low: nat, len: nat)
    requires Splits(cmps, a, b) && low <= a <= b <= low + len <= |cmps|
    ensures Probe(cmps, low, len) == if a < b then Some(FirstProbe(low, len, a, b)) else None
  {
    ProbeMeetsSides(cmps, a, b, low, len);
  }

  lemma {:induction false} ProbeMeetsSides(cmps: seq<int>, a: nat, b: nat, low: nat, len: nat)
    requires low <= a <= b <= low + len <= |cmps| && forall i: nat :: i < |cmps| ==> SideFits(cmps[i], i, a, b)
    ensures Probe(cmps, low, len) == if a < b then Some(FirstProbe(low, len, a, b)) else None
    decreases len
  {
    if len > 0 {
      var mid := low + Half(len);
      assert SideFits(cmps[mid], mid, a, b);
      if mid < a {
        ProbeMeetsSides(cmps, a, b, mid + 1, Half(len - 1));
      } else if mid >= b {
        ProbeMeetsSides(cmps, a, b, low, Half(len));
      }
    }
  }

  // ---------- the search of a sorted table ----------

  lemma SortedFalls(name: string, table: seq<Entry>, i: nat, j: nat)
    requires Sorted(table) && i <= j < |table|
    ensures Compare(name, table[i].name) < 0 ==> Compare(name, table[j].name) < 0
    ensures Compare(name, table[j].name) > 0 ==> Compare(name, table[i].name) > 0
  {
    if i < j {
      CompareFalls(name, table[i].name, table[j].name);
    }
  }

  /** The entries that start with the name are those from `a` up to `b`. */
  ghost predicate Block(name: string, table: seq<Entry>, a: nat, b: nat)
  {
    a <= b <= |table| && forall i :: 0 <= i < |table| ==> (a <= i < b <==> name <= table[i].name)
  }

  /** In a sorted table, the entries that start with a name form a block. */
  lemma BlockExists(name: string, table: seq<Entry>) returns (a: nat, b: nat)
    requires Sorted(table)
    ensures Block(name, table, a, b) && Splits(Outcomes(name, table), a, b)
  {
    var cmps := Outcomes(name, table);
    a := 0;
    while a < |table| && cmps[a] > 0
      invariant a <= |table| && forall i :: 0 <= i < a ==> cmps[i] > 0
    {
      a := a + 1;
    }
    b := a;
    while b < |table| && cmps[b] == 0
      invariant a <= b <= |table| && forall i :: a <= i < b ==> cmps[i] == 0
    {
      b := b + 1;
    }
    if b < |table| {
      SortedFalls(name, table, a, b);
      assert cmps[b] < 0;
    }
    forall i: nat | b <= i < |table|
      ensures cmps[i] < 0
    {
      SortedFalls(name, table, b, i);
    }
    forall i | 0 <= i < |table|
      ensures a <= i < b <==> name <= table[i].name
    {
      assert cmps[i] == Compare(name, table[i].name);
      EqualIsPrefix(name, table[i].name);
    }
  }

  /** What the answer to a search means: nothing when no entry starts with the name, otherwise the value of one
      that does. */
  ghost predicate Answers(name: string, table: seq<Entry>, r: Option<int>)
  {
    && (r.None? <==> forall e :: e in table ==> !(name <= e.name))
    && (r.Some? ==> exists e :: e in table && name <= e.name && e.val == r.value)
  }

  lemma FoundAnswers(name: string, table: seq<Entry>)
    requires Sorted(table)
    ensures Answers(name, table, Found(name, table))
  {
    var a, b := BlockExists(name, table);
    ProbeMeetsBlock(Outcomes(name, table), a, b, 0, |table|);
    if a < b {
      assert table[FirstProbe(0, |table|, a, b)] in table;
    }
  }

  /** The loop, given how the name compares with each of `n` entries: where it ends. */
  method Search(compare: nat --> int, n: nat, ghost cmps: seq<int>) returns (m: Option<nat>)
    requires |cmps| == n && forall i: nat :: i < n ==> compare.requires(i) && compare(i) == cmps[i]
    ensures m == Probe(cmps, 0, n)
  {
    ghost var answer := Probe(cmps, 0, n);
    var low, len := 0, n;
    while len > 0
      invariant 0 <= low <= low + len <= n
      invariant answer == Probe(cmps, low, len)
      decreases len
    {
      var mid := low + Half(len);
      var cmp := compare(mid);
      if cmp == 0 {
        return Some(mid);
      } else if cmp > 0 {
        low := mid + 1;
        len := len - 1;
      }
      len := Half(len);
    }
    return None;
  }

  method Find(name: string, table: seq<Entry>) returns (r: Option<int>)
    ensures r == Found(name, table)
    ensures Sorted(table) ==> Answers(name, table, r)
  {
    if Sorted(table) {
      FoundAnswers(name, table);
    }
    var m := Search(i requires 0 <= i < |table| => Compare(name, table[i].name), |table|, Outcomes(name, table));
    r := if m.None? then None else Some(table[m.value].val);
  }

  // ---------- which names get their own value ----------

  /** How far the entries from `j` on start with the name. */
  ghost function RunEnd(name: string, table: seq<Entry>, j: nat): (b: nat)
    requires j <= |table|
    ensures j <= b <= |table|
    decreases |table| - j
  {
    if j < |table| && name <= table[j].name then RunEnd(name, table, j + 1) else j
  }

  lemma {:induction false} BlockEnds(name: string, table: seq<Entry>, a: nat, b: nat, j: nat)
    requires Block(name, table, a, b) && a <= j <= b
    ensures RunEnd(name, table, j) == b
    decreases b - j
  {
    if j < b {
      BlockEnds(name, table, a, b, j + 1);
    }
  }

  /** A listed name begins its own block: it gets its own value if and only if the entry at the first probe
      into that block carries it. */
  lemma OwnValueIff(table: seq<Entry>, i: nat)
    requires Sorted(table) && i < |table|
    ensures var b := RunEnd(table[i].name, table, i + 1);
            Found(table[i].name, table) == Some(table[i].val) <==> table[FirstProbe(0, |table|, i, b)].val == table[i].val
  {
    var name := table[i].name;
    var a, b := BlockExists(name, table);
    assert a <= i < b;
    if a < i {
      BelowIsNoExtension(table[a].name, name);
    }
    BlockEnds(name, table, a, b, i + 1);
    ProbeMeetsBlock(Outcomes(name, table), a, b, 0, |table|);
  }

  // ---------- the two tables ----------

  function Entries(words: seq<Word<int>>): (table: seq<Entry>)
  {
    seq(|words|, i requires 0 <= i < |words| => Entry(words[i].text, words[i].entry))
  }

  const PRIORITY_WORDS: seq<Word<int>> := [
    Word("alert", 0, 1), Word("crit", 0, 2), Word("debug", 0, 7), Word("emerg", 1, 0),
    Word("err", 0, 3), Word("info", 0, 6), Word("notice", 0, 5), Word("warning", 0, 4)]

  const FACILITY_WORDS_0: seq<Word<int>> := [Word("auth", 4, 4)]

  const FACILITY_WORDS_1: seq<Word<int>> := [
    Word("authpriv", 0, 10), Word("console", 1, 14), Word("cron", 0, 9), Word("daemon", 0, 3),
    Word("ftp", 0, 11), Word("kern", 4, 0)]

  const FACILITY_WORDS_2: seq<Word<int>> := [
    Word("kernel", 0, 0), Word("local0", 5, 16), Word("local1", 5, 17), Word("local2", 5, 18),
    Word("local3", 5, 19), Word("local4", 5, 20), Word("local5", 5, 21), Word("local6", 5, 22),
    Word("local7", 1, 23)]

  const FACILITY_WORDS_3: seq<Word<int>> := [
    Word("lpr", 0, 6), Word("mail", 0, 2), Word("news", 1, 7), Word("ntp", 0, 12),
    Word("security", 1, 13), Word("solaris-cron", 1, 15), Word("syslog", 0, 5), Word("user", 1, 1),
    Word("uucp", 0, 8)]

  const FACILITY_WORDS: seq<Word<int>> := FACILITY_WORDS_0 + (FACILITY_WORDS_1 + (FACILITY_WORDS_2 + FACILITY_WORDS_3))

  const PRIORITY_LOOKUP: seq<Entry> := Entries(PRIORITY_WORDS)
  const FACILITY_LOOKUP: seq<Entry> := Entries(FACILITY_WORDS)

  lemma LinkedEntriesSorted(words: seq<Word<int>>, accepts: (Word<int>, Word<int>) -> bool)
    requires Linked(words, accepts)
    ensures Sorted(Entries(words))
  {
    forall i: nat, j: nat | i < j < |words|
      ensures Below(words[i].text, words[j].text)
    {
      LinkedIsSorted(words, accepts, i, j);
    }
  }

  predicate SameValue(r: Word<int>, s: Word<int>)
  {
    r.entry == s.entry
  }

  predicate SameValueOrAuth(r: Word<int>, s: Word<int>)
  {
    r.entry == s.entry || r.text == "auth"
  }

  /** Where the next entry shadows a name at most with the same value, the name gets its own. */
  lemma HarmlessShadow(words: seq<Word<int>>, accepts: (Word<int>, Word<int>) -> bool, i: nat)
    requires Linked(words, accepts) && i < |words|
    requires i + 1 < |words| && accepts(words[i], words[i + 1]) ==> words[i].entry == words[i + 1].entry
    ensures Found(words[i].text, Entries(words)) == Some(words[i].entry)
  {
    LinkedEntriesSorted(words, accepts);
    var m := FoundAt(Entries(words), i);
    if m != i {
      OnlyNeighbourBegins(words, accepts, i, m);
    }
  }

  /** A listed name gets the value of an entry that starts with it. */
  lemma FoundAt(table: seq<Entry>, i: nat) returns (m: nat)
    requires Sorted(table) && i < |table|
    ensures m < |table| && table[i].name <= table[m].name && Found(table[i].name, table) == Some(table[m].val)
  {
    FoundAnswers(table[i].name, table);
    assert table[i] in table && table[i].name <= table[i].name;
    var e :| e in table && table[i].name <= e.name && Found(table[i].name, table) == Some(e.val);
    m :| m < |table| && table[m] == e;
  }

  /** The priority table is sorted, and every priority name gets its own value. */
  lemma PrioritiesAreExact(i: nat)
    requires i < |PRIORITY_LOOKUP|
    ensures Sorted(PRIORITY_LOOKUP) && Found(PRIORITY_LOOKUP[i].name, PRIORITY_LOOKUP) == Some(PRIORITY_LOOKUP[i].val)
  {
    assert Rising(PRIORITY_WORDS, 4);
    RisingLinks(PRIORITY_WORDS, SameValue);
    LinkedEntriesSorted(PRIORITY_WORDS, SameValue);
    HarmlessShadow(PRIORITY_WORDS, SameValue, i);
  }

  lemma Facilities1()
    ensures Linked(FACILITY_WORDS_1, SameValueOrAuth) && Links(FACILITY_WORDS_0[0], FACILITY_WORDS_1[0], SameValueOrAuth)
  {
    assert Rising(FACILITY_WORDS_1, 3);
    RisingLinks(FACILITY_WORDS_1, SameValueOrAuth);
  }

  lemma Facilities2()
    ensures Linked(FACILITY_WORDS_2, SameValueOrAuth) && Links(FACILITY_WORDS_1[5], FACILITY_WORDS_2[0], SameValueOrAuth)
  {
    assert Rising(FACILITY_WORDS_2, 6);
    assert Rising(FACILITY_WORDS_2, 4);
    assert Rising(FACILITY_WORDS_2, 2);
    RisingLinks(FACILITY_WORDS_2, SameValueOrAuth);
  }

  lemma Facilities3()
    ensures Linked(FACILITY_WORDS_3, SameValueOrAuth) && Links(FACILITY_WORDS_2[8], FACILITY_WORDS_3[0], SameValueOrAuth)
  {
    assert Rising(FACILITY_WORDS_3, 4);
    RisingLinks(FACILITY_WORDS_3, SameValueOrAuth);
  }

  lemma FacilitiesAreLinked()
    ensures Linked(FACILITY_WORDS, SameValueOrAuth)
  {
    Facilities1();
    Facilities2();
    Facilities3();
    LinkedConcat(FACILITY_WORDS_2, FACILITY_WORDS_3, SameValueOrAuth);
    LinkedConcat(FACILITY_WORDS_1, FACILITY_WORDS_2 + FACILITY_WORDS_3, SameValueOrAuth);
    LinkedConcat(FACILITY_WORDS_0, FACILITY_WORDS_1 + (FACILITY_WORDS_2 + FACILITY_WORDS_3), SameValueOrAuth);
  }

  lemma ProbeLeft(len: nat, b: nat)
    requires 0 < b <= Half(len)
    ensures b <= len && FirstProbe(0, len, 0, b) == FirstProbe(0, Half(len), 0, b)
  {
  }

  /** Of the first two of 25 entries, the search meets the second first. */
  lemma SecondOfTwo(n: nat)
    requires n == 25
    ensures FirstProbe(0, n, 0, 2) == 1
  {
    var m := Half(n);
    var l := Half(m);
    var k := Half(l);
    HalfRoundsDown(n);
    HalfRoundsDown(m);
    HalfRoundsDown(l);
    HalfRoundsDown(k);
    ProbeLeft(n, 2);
    ProbeLeft(m, 2);
    ProbeLeft(l, 2);
  }

  /** A name that begins the second entry of 25, but not the third, gets that entry's value. */
  lemma FirstIsShadowed(table: seq<Entry>)
    requires Sorted(table) && |table| == 25 && table[0].name <= table[1].name && !(table[0].name <= table[2].name)
    ensures Found(table[0].name, table) == Some(table[1].val)
  {
    var name := table[0].name;
    var a, b := BlockExists(name, table);
    assert a <= 0 < b && a <= 1 < b && !(a <= 2 < b);
    ProbeMeetsBlock(Outcomes(name, table), a, b, 0, |table|);
    SecondOfTwo(|table|);
  }

  /** The facility table is sorted, and every facility name gets its own value but "auth", which gets 10. */
  lemma OnlyAuthIsWrong(i: nat)
    requires i < |FACILITY_LOOKUP|
    ensures Sorted(FACILITY_LOOKUP)
    ensures Found(FACILITY_LOOKUP[i].name, FACILITY_LOOKUP) == Some(FACILITY_LOOKUP[i].val) <==> FACILITY_LOOKUP[i].name != "auth"
    ensures Found("auth", FACILITY_LOOKUP) == Some(10)
  {
    FacilitiesAreLinked();
    LinkedEntriesSorted(FACILITY_WORDS, SameValueOrAuth);
    FirstIsShadowed(FACILITY_LOOKUP);
    if FACILITY_LOOKUP[i].name != "auth" {
      HarmlessShadow(FACILITY_WORDS, SameValueOrAuth, i);
    }
  }
}
