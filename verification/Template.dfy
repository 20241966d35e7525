/** Template expansion in go/detectparser: `$name`, `${name}` and `$$` in an action's argument template are
    replaced by submatches of the rule's regular expression, by number, or by named replacements. Strings
    are sequences of characters; a byte that is not valid UTF-8 counts as a character that is neither a
    letter nor a digit. */
module Template {
  import opened Options
  import opened Numerals
  import opened Sequences

  /** The Unicode classes the scanner asks about. */
  datatype Classes = Classes(isLetter: char -> bool, isDigit: char -> bool)
  {
    predicate IsWord(c: char)
    {
      isLetter(c) || isDigit(c) || c == '_'
    }

    /** What Unicode says about the characters with a meaning in templates. */
    ghost predicate Standard()
    {
      && (forall c :: c in "${}" ==> !isLetter(c) && !isDigit(c))
      && (forall d :: IsDigit(d) ==> isDigit(d))
    }
  }

  // ---------- numbers ----------

  /** The submatch a name stands for: decimal, at most nine digits, no leading zero. */
  predicate IsIndex(name: string)
  {
    0 < |name| <= 9 && AllDigits(name) && (name[0] == '0' ==> |name| == 1)
  }

  function IndexOf(name: string): (n: int)
  {
    if IsIndex(name) then Value(name) else -1
  }

  function Pow10(k: nat): (n: nat)
  {
    if k == 0 then 1 else 10 * Pow10(k - 1)
  }

  lemma {:induction false} ValueBounds(s: string)
    requires AllDigits(s)
    ensures Value(s) < Pow10(|s|)
    ensures s != [] && s[0] != '0' ==> Pow10(|s| - 1) <= Value(s)
  {
    if s != [] {
      assert IsDigit(s[|s| - 1]);
      ValueBounds(s[..|s| - 1]);
    }
  }

  lemma {:induction false} Pow10Grows(i: nat, j: nat)
    requires i <= j
    ensures Pow10(i) <= Pow10(j)
  {
    if i < j {
      Pow10Grows(i, j - 1);
    }
  }

  lemma Pow10Of8()
    ensures Pow10(8) == 100_000_000 && Pow10(9) == 1_000_000_000
  {
    assert Pow10(4) == 10_000;
  }

  /** An index never overflows: twice the index plus one fits a 32-bit integer. */
  lemma IndexFits(name: string)
    ensures IndexOf(name) >= 0 <==> IsIndex(name)
    ensures 2 * IndexOf(name) + 1 < 0x8000_0000
  {
    if IsIndex(name) {
      ValueBounds(name);
      Pow10Grows(|name|, 9);
      Pow10Of8();
    }
  }

  /** The number loop stops early exactly on names that are not indices. */
  method ParseNumber(name: string) returns (num: int)
    requires name != []
    ensures num == IndexOf(name)
  {
    Pow10Of8();
    num := 0;
    var i := 0;
    while i < |name|
      invariant 0 <= i <= |name|
      invariant AllDigits(name[..i]) && num == Value(name[..i])
      invariant name[0] != '0' ==> i <= 9
    {
      ValueBounds(name[..i]);
      if name[i] < '0' || '9' < name[i] || num >= 100_000_000 {
        num := -1;
        break;
      }
      num := num * 10 + name[i] as int - '0' as int;
      i := i + 1;
      assert name[..i][..i - 1] == name[..i - 1];
    }
    if name[0] == '0' && |name| > 1 {
      num := -1;
    }
    assert name[..|name|] == name;
  }

  // ---------- references ----------

  /** The length of the longest prefix of word characters. */
  function WordLength(u: Classes, s: string): (n: nat)
    ensures n <= |s|
  {
    if s == [] || !u.IsWord(s[0]) then 0 else 1 + WordLength(u, s[1..])
  }

  lemma {:induction false} WordLengthIs(u: Classes, s: string, n: nat)
    requires n <= |s| && (forall k :: 0 <= k < n ==> u.IsWord(s[k])) && (n < |s| ==> !u.IsWord(s[n]))
    ensures WordLength(u, s) == n
  {
    if n > 0 {
      WordLengthIs(u, s[1..], n - 1);
    }
  }

  datatype Reference = Reference(name: string, rest: string)

  /** The reference a string starts with, and what follows it. */
  function ReadReference(u: Classes, s: string): (r: Option<Reference>)
    ensures r.Some? ==> r.value.name != [] && |r.value.rest| < |s|
  {
    if |s| < 2 || s[0] != '$' then None
    else if s[1] == '{' then
      var n := 2 + WordLength(u, s[2..]);
      if n == 2 || n == |s| || s[n] != '}' then None else Some(Reference(s[2..n], s[n + 1..]))
    else
      var n := 1 + WordLength(u, s[1..]);
      if n == 1 then None else Some(Reference(s[1..n], s[n..]))
  }

  method Extract(u: Classes, s: string) returns (name: string, num: int, rest: string, ok: bool)
    ensures ok <==> ReadReference(u, s).Some?
    ensures ok ==> Reference(name, rest) == ReadReference(u, s).value && num == IndexOf(name)
  {
    name, num, rest, ok := "", 0, "", false;
    if |s| < 2 || s[0] != '$' {
      return;
    }
    var brace := false;
    var str;
    if s[1] == '{' {
      brace := true;
      str := s[2..];
    } else {
      str := s[1..];
    }
    var i := 0;
    while i < |str|
      invariant 0 <= i <= |str|
      invariant forall k :: 0 <= k < i ==> u.IsWord(str[k])
      decreases |str| - i
    {
      if !u.isLetter(str[i]) && !u.isDigit(str[i]) && str[i] != '_' {
        break;
      }
      i := i + 1;
    }
    WordLengthIs(u, str, i);
    if i == 0 {
      return;
    }
    name := str[..i];
    if brace {
      if i >= |str| || str[i] != '}' {
        return;
      }
      i := i + 1;
    }
    num := ParseNumber(name);
    rest := str[i..];
    ok := true;
  }

  // ---------- expansion ----------

  /** The regular expression's match on `src`, as start and end of each group (negative for a group that
      took no part), and the named replacements. */
  datatype Env = Env(src: string, groups: seq<(int, int)>, replacements: map<string, string>)
  {
    /** A group that took part lies inside the source line. */
    ghost predicate Valid()
    {
      forall k :: 0 <= k < |groups| && groups[k].0 >= 0 ==> groups[k].0 <= groups[k].1 <= |src|
    }
  }

  /** What a reference stands for: empty if the group took no part or the name is unknown. */
  ghost function Replacement(env: Env, name: string): (s: string)
    requires env.Valid()
  {
    var n := IndexOf(name);
    if n >= 0 then
      if n < |env.groups| && env.groups[n].0 >= 0 then env.src[env.groups[n].0..env.groups[n].1] else ""
    else if name in env.replacements then env.replacements[name] else ""
  }

  ghost function Replacements(env: Env): (f: string -> string)
  {
    name => if env.Valid() then Replacement(env, name) else ""
  }

  /** One step through a template: a character to copy, or a name to replace. */
  datatype Token = Copy(c: char) | Replace(name: string)

  /** The first token of a template, and the rest: `$$` stands for a dollar, and so does a dollar that
      starts no reference. */
  function NextToken(u: Classes, t: string): (r: (Token, string))
    requires t != []
    ensures |r.1| < |t|
  {
    if t[0] != '$' then (Copy(t[0]), t[1..])
    else if |t| > 1 && t[1] == '$' then (Copy('$'), t[2..])
    else
      match ReadReference(u, t)
      case None => (Copy('$'), t[1..])
      case Some(r) => (Replace(r.name), r.rest)
  }

  ghost function Emit(f: string -> string, token: Token): (s: string)
  {
    match token
    case Copy(c) => [c]
    case Replace(name) => f(name)
  }

  /** The meaning of a template, read from left to right, when `f` tells what the names stand for. */
  ghost function Expand(u: Classes, f: string -> string, t: string): (s: string)
    decreases |t|
  {
    if t == [] then []
    else
      var (token, rest) := NextToken(u, t);
      Emit(f, token) + Expand(u, f, rest)
  }

  lemma ExpandCopy(u: Classes, f: string -> string, c: char, t: string)
    requires c != '$'
    ensures Expand(u, f, [c] + t) == [c] + Expand(u, f, t)
  {
    assert ([c] + t)[1..] == t;
  }

  lemma {:induction false} ExpandPlain(u: Classes, f: string -> string, a: string, t: string)
    requires '$' !in a
    ensures Expand(u, f, a + t) == a + Expand(u, f, t)
  {
    if a == [] {
      assert a + t == t;
    } else {
      ExpandPlain(u, f, a[1..], t);
      assert a[0] in a && a == [a[0]] + a[1..];
      Assoc([a[0]], a[1..], t);
      ExpandCopy(u, f, a[0], a[1..] + t);
      Assoc([a[0]], a[1..], Expand(u, f, t));
    }
  }

  /** `strings.Index(t, "$")`. */
  method IndexDollar(t: string) returns (i: int)
    ensures i < 0 <==> '$' !in t
    ensures i >= 0 ==> i < |t| && t[i] == '$' && '$' !in t[..i]
  {
    i := 0;
    while i < |t|
      invariant 0 <= i <= |t| && '$' !in t[..i]
    {
      if t[i] == '$' {
        return;
      }
      i := i + 1;
    }
    i := -1;
  }

  /** The text put in for a reference. */
  method Substitute(env: Env, name: string, num: int) returns (s: string)
    requires env.Valid() && num == IndexOf(name)
    ensures s == Replacements(env)(name)
  {
    s := "";
    if num >= 0 {
      if num < |env.groups| && env.groups[num].0 >= 0 {
        s := env.src[env.groups[num].0..env.groups[num].1];
      }
    } else if name in env.replacements {
      s := env.replacements[name];
    }
  }

  /** One turn of the loop, from a dollar on: what to append and what is left of the template. */
  method TakeToken(u: Classes, env: Env, t: string) returns (out: string, rest: string)
    requires env.Valid() && t != [] && t[0] == '$'
    ensures out == Emit(Replacements(env), NextToken(u, t).0) && rest == NextToken(u, t).1
  {
    if |t| > 1 && t[1] == '$' {
      return "$", t[2..];
    }
    var name, num, after, ok := Extract(u, t);
    if !ok {
      return "$", t[1..];
    }
    out := Substitute(env, name, num);
    rest := after;
  }

  /** The text of a template up to its `i`-th character is plain: the expansion, regrouped. */
  lemma ExpandStep(u: Classes, f: string -> string, r: string, t: string, i: nat)
    requires i < |t| && '$' !in t[..i]
    ensures var (token, rest) := NextToken(u, t[i..]);
            r + Expand(u, f, t) == r + t[..i] + Emit(f, token) + Expand(u, f, rest)
  {
    var (token, rest) := NextToken(u, t[i..]);
    assert t == t[..i] + t[i..];
    ExpandPlain(u, f, t[..i], t[i..]);
    Assoc(t[..i], Emit(f, token), Expand(u, f, rest));
    Assoc(r, t[..i] + Emit(f, token), Expand(u, f, rest));
    Assoc(r, t[..i], Emit(f, token));
  }

  /** The text a template stands for after a match. */
  ghost function Expanded(u: Classes, env: Env, template: string): (s: string)
  {
    Expand(u, Replacements(env), template)
  }

  method ExpandString(u: Classes, env: Env, dst: string, template: string) returns (r: string)
    requires env.Valid()
    ensures r == dst + Expanded(u, env, template)
  {
    ghost var f := Replacements(env);
    r := dst;
    var t := template;
    ghost var left := Expand(u, f, t);
    while |t| > 0
      invariant left == Expand(u, f, t) && r + left == dst + Expand(u, f, template)
      decreases |t|
    {
      var i := IndexDollar(t);
      if i < 0 {
        break;
      }
      ExpandStep(u, f, r, t, i);
      var out, rest := TakeToken(u, env, t[i..]);
      r := r + t[..i] + out;
      t := rest;
      left := Expand(u, f, t);
    }
    ExpandPlain(u, f, t, "");
    assert t + "" == t;
    r := r + t;
  }

  // ---------- writing templates ----------

  /** A template as its author means it: text, `${name}`, and `$name`. */
  datatype Piece = Literal(text: string) | Braced(name: string) | Bare(name: string)

  ghost function DoubledChar(c: char): (s: string)
  {
    if c == '$' then "$$" else [c]
  }

  ghost function Doubled(text: string): (s: string)
  {
    if text == [] then [] else DoubledChar(text[0]) + Doubled(text[1..])
  }

  ghost function PieceText(p: Piece): (s: string)
  {
    match p
    case Literal(text) => Doubled(text)
    case Braced(name) => "${" + name + "}"
    case Bare(name) => "$" + name
  }

  ghost function Render(pieces: seq<Piece>): (s: string)
  {
    if pieces == [] then [] else PieceText(pieces[0]) + Render(pieces[1..])
  }

  ghost function Meaning(f: string -> string, pieces: seq<Piece>): (s: string)
  {
    if pieces == [] then []
    else (match pieces[0] case Literal(text) => text case Braced(name) => f(name) case Bare(name) => f(name))
         + Meaning(f, pieces[1..])
  }

  ghost predicate IsName(u: Classes, name: string)
  {
    name != [] && forall i :: 0 <= i < |name| ==> u.isLetter(name[i]) || u.isDigit(name[i]) || name[i] == '_'
  }

  /** Names are names, and an unbraced name ends where its text ends. */
  ghost predicate Writable(u: Classes, pieces: seq<Piece>)
  {
    pieces == [] ||
    (&& (pieces[0].Literal? || IsName(u, pieces[0].name))
     && (pieces[0].Bare? ==> Render(pieces[1..]) == [] || !u.IsWord(Render(pieces[1..])[0]))
     && Writable(u, pieces[1..]))
  }

  lemma ExpandDoubledChar(u: Classes, f: string -> string, c: char, t: string)
    ensures Expand(u, f, DoubledChar(c) + t) == [c] + Expand(u, f, t)
  {
    if c == '$' {
      assert ("$$" + t)[2..] == t;
    } else {
      ExpandCopy(u, f, c, t);
    }
  }

  lemma {:induction false} ExpandDoubled(u: Classes, f: string -> string, text: string, rest: string)
    ensures Expand(u, f, Doubled(text) + rest) == text + Expand(u, f, rest)
  {
    if text == [] {
      assert Doubled(text) + rest == rest;
    } else {
      var c, tail := text[0], Doubled(text[1..]) + rest;
      ExpandDoubled(u, f, text[1..], rest);
      Assoc(DoubledChar(c), Doubled(text[1..]), rest);
      ExpandDoubledChar(u, f, c, tail);
      Assoc([c], text[1..], Expand(u, f, rest));
      assert text == [c] + text[1..];
    }
  }

  lemma BracedRead(u: Classes, name: string, rest: string)
    requires u.Standard() && IsName(u, name)
    ensures NextToken(u, "${" + name + "}" + rest) == (Replace(name), rest)
  {
    var t := "${" + name + "}" + rest;
    assert t[2..] == name + ("}" + rest);
    WordLengthIs(u, t[2..], |name|);
    assert t[2..2 + |name|] == name && t[2 + |name|] == '}' && t[2 + |name| + 1..] == rest;
  }

  lemma BareRead(u: Classes, name: string, rest: string)
    requires u.Standard() && IsName(u, name) && (rest == [] || !u.IsWord(rest[0]))
    ensures NextToken(u, "$" + name + rest) == (Replace(name), rest)
  {
    var t := "$" + name + rest;
    assert t[1] == name[0] && t[1..] == name + rest;
    WordLengthIs(u, t[1..], |name|);
    assert t[1..1 + |name|] == name && t[1 + |name|..] == rest;
  }

  /** Expanding a written template yields its text with every name replaced, and dollars intact. */
  lemma {:induction false} TemplateRoundTrip(u: Classes, f: string -> string, pieces: seq<Piece>)
    requires u.Standard() && Writable(u, pieces)
    ensures Expand(u, f, Render(pieces)) == Meaning(f, pieces)
  {
    if pieces != [] {
      var rest := Render(pieces[1..]);
      TemplateRoundTrip(u, f, pieces[1..]);
      match pieces[0]
      case Literal(text) => ExpandDoubled(u, f, text, rest);
      case Braced(name) => BracedRead(u, name, rest);
      case Bare(name) => BareRead(u, name, rest);
    }
  }

  // ---------- what the references stand for ----------

  lemma BracedExpands(u: Classes, env: Env, name: string, rest: string)
    requires u.Standard() && env.Valid() && IsName(u, name)
    ensures Expanded(u, env, "${" + name + "}" + rest) == Replacement(env, name) + Expanded(u, env, rest)
  {
    BracedRead(u, name, rest);
  }

  lemma {:induction false} DigitsAreShort(k: nat, n: nat)
    requires n > 0 && k < Pow10(n)
    ensures |Digits(k)| <= n && (|Digits(k)| > 1 ==> Digits(k)[0] != '0')
  {
    if k >= 10 {
      assert n > 1;
      DigitsAreShort(k / 10, n - 1);
      if |Digits(k / 10)| == 1 {
        assert Digits(k / 10)[0] == ('0' as int + k / 10 % 10) as char;
      }
    }
  }

  /** The numeral of a number below 10^9 stands for the submatch with that number: for nothing when there is no
      such group or it took no part. */
  lemma NumberExpands(u: Classes, env: Env, k: nat, rest: string)
    requires u.Standard() && env.Valid() && k < 1_000_000_000
    ensures var group := if k < |env.groups| && env.groups[k].0 >= 0 then env.src[env.groups[k].0..env.groups[k].1] else "";
            Expanded(u, env, "${" + Digits(k) + "}" + rest) == group + Expanded(u, env, rest)
  {
    var name := Digits(k);
    Pow10Of8();
    DigitsAreShort(k, 9);
    DigitsRoundTrip(k);
    assert IsName(u, name);
    BracedExpands(u, env, name, rest);
  }

  /** Any other name, be it for a character that is no digit, a leading zero or too many digits, stands for the
      named replacement: for nothing when there is none. */
  lemma NameExpands(u: Classes, env: Env, name: string, rest: string)
    requires u.Standard() && env.Valid() && IsName(u, name)
    requires (exists i :: 0 <= i < |name| && !IsDigit(name[i])) || (name[0] == '0' && |name| > 1) || |name| > 9
    ensures var text := if name in env.replacements then env.replacements[name] else "";
            Expanded(u, env, "${" + name + "}" + rest) == text + Expanded(u, env, rest)
  {
    BracedExpands(u, env, name, rest);
  }

  /** A dollar that starts no reference is a dollar: at the end, before a character that can start none, before
      an empty name, and before a brace that is not closed right after the name. */
  lemma StrayDollarStays(u: Classes, env: Env, name: string, rest: string)
    requires u.Standard() && (forall i :: 0 <= i < |name| ==> u.IsWord(name[i])) && (rest != [] ==> !u.IsWord(rest[0]))
    ensures (rest == [] || (rest[0] != '$' && rest[0] != '{')) ==>
              Expanded(u, env, "$" + rest) == "$" + Expanded(u, env, rest)
    ensures name == [] || rest == [] || rest[0] != '}' ==>
              Expanded(u, env, "${" + name + rest) == "$" + Expanded(u, env, "{" + name + rest)
  {
    var t := "$" + rest;
    assert t[1..] == rest;
    WordLengthIs(u, rest, 0);
    var b := "${" + name + rest;
    assert b[1..] == "{" + name + rest && b[2..] == name + rest;
    WordLengthIs(u, b[2..], |name|);
  }
}
