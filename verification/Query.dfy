/** Search over RADIUS attributes in go/caddy/api: a query tree is compiled to a filter function, once, and
    the filter is run over the list of attributes. */
module Query {
  import opened Options
  import Sequences

  datatype Query = Query(field: string, op: string, value: string, values: seq<Query>)

  datatype Attribute = Attribute(name: string, vendor: string, searchName: string, searchVendor: string)

  type Filter = Attribute -> bool

  /** Why a query is refused. `NoOperand` is the index error of a "not" without a child. */
  datatype Failure = BadOp(op: string) | BadField(field: string) | NoOperand

  datatype Result = Ok(filter: Filter) | Error(failure: Failure)

  // ---------- what a query means ----------

  predicate Contains(s: string, part: string)
  {
    part <= s || (s != [] && Contains(s[1..], part))
  }

  const LEAF_OPS: set<string> := {"contains", "equals", "not_equals", "starts_with", "ends_with"}

  predicate LeafMatches(op: string, text: string, value: string)
  {
    match op
    case "contains" => Contains(text, value)
    case "equals" => text == value
    case "not_equals" => text != value
    case "starts_with" => value <= text
    case _ => Sequences.HasSuffix(text, value)
  }

  /** Direct evaluation of a query on one attribute; `lower` is the lower-casing of values. */
  ghost predicate Matches(lower: string -> string, q: Query, a: Attribute)
  {
    match q.op
    case "not" => q.values == [] || !Matches(lower, q.values[0], a)
    case "or" => exists i :: 0 <= i < |q.values| && Matches(lower, q.values[i], a)
    case "and" => forall i :: 0 <= i < |q.values| ==> Matches(lower, q.values[i], a)
    case "true" => true
    case _ => LeafMatches(q.op, if q.field == "name" then a.searchName else a.searchVendor, lower(q.value))
  }

  /** The first failure, in the order the compiler meets the nodes. Only the first child of a "not" and the
      children of "and" and "or" are compiled. */
  ghost function FirstFailure(q: Query): (r: Option<Failure>)
    decreases q, |q.values| + 1
  {
    if q.op == "not" then if q.values == [] then Some(NoOperand) else FirstFailure(q.values[0])
    else if q.op == "or" || q.op == "and" then FirstFailureAmong(q, 0)
    else if q.op == "true" then None
    else if q.op !in LEAF_OPS then Some(BadOp(q.op))
    else if q.field != "name" && q.field != "vendor" then Some(BadField(q.field))
    else None
  }

  ghost function FirstFailureAmong(q: Query, k: nat): (r: Option<Failure>)
    requires k <= |q.values|
    decreases q, |q.values| - k
  {
    if k == |q.values| then None
    else if FirstFailure(q.values[k]).Some? then FirstFailure(q.values[k])
    else FirstFailureAmong(q, k + 1)
  }

  /** What is wrong with a node itself. */
  function FailureOf(n: Query): (r: Option<Failure>)
  {
    match n.op
    case "not" => if n.values == [] then Some(NoOperand) else None
    case "or" => None
    case "and" => None
    case "true" => None
    case _ =>
      if n.op !in LEAF_OPS then Some(BadOp(n.op))
      else if n.field != "name" && n.field != "vendor" then Some(BadField(n.field))
      else None
  }

  /** `n` is a node of the tree that the compiler comes to, if nothing before it fails. */
  ghost predicate Compiled(q: Query, n: Query)
  {
    || n == q
    || (q.op == "not" && q.values != [] && Compiled(q.values[0], n))
    || ((q.op == "or" || q.op == "and") && exists i :: 0 <= i < |q.values| && Compiled(q.values[i], n))
  }

  ghost predicate CompiledFrom(q: Query, n: Query, k: nat)
  {
    exists i :: k <= i < |q.values| && Compiled(q.values[i], n)
  }

  /** The compiled nodes, in order. */
  ghost function Visited(q: Query): (nodes: seq<Query>)
    decreases q, |q.values| + 1
  {
    [q] + (if q.op == "not" && q.values != [] then Visited(q.values[0])
           else if q.op == "or" || q.op == "and" then VisitedFrom(q, 0)
           else [])
  }

  ghost function VisitedFrom(q: Query, k: nat): (nodes: seq<Query>)
    requires k <= |q.values|
    decreases q, |q.values| - k
  {
    if k == |q.values| then [] else Visited(q.values[k]) + VisitedFrom(q, k + 1)
  }

  ghost function FirstOf(nodes: seq<Query>): (r: Option<Failure>)
  {
    if nodes == [] then None
    else if FailureOf(nodes[0]).Some? then FailureOf(nodes[0])
    else FirstOf(nodes[1..])
  }

  lemma {:induction false} FirstOfConcat(a: seq<Query>, b: seq<Query>)
    ensures FirstOf(a + b) == if FirstOf(a).Some? then FirstOf(a) else FirstOf(b)
  {
    if a == [] {
      assert a + b == b;
    } else {
      FirstOfConcat(a[1..], b);
      assert (a + b)[1..] == a[1..] + b;
    }
  }

  lemma {:induction false} FirstOfSome(nodes: seq<Query>)
    ensures FirstOf(nodes).Some? <==> exists n :: n in nodes && FailureOf(n).Some?
  {
    if nodes != [] {
      FirstOfSome(nodes[1..]);
      assert nodes == [nodes[0]] + nodes[1..];
    }
  }

  /** The compiler reports the failure of the first node that has one. */
  lemma {:induction false} FirstFailureIsFirst(q: Query)
    ensures FirstFailure(q) == FirstOf(Visited(q))
    decreases q, |q.values| + 1
  {
    var rest := Visited(q)[1..];
    FirstOfConcat([q], rest);
    assert [q] + rest == Visited(q) && FirstOf([q]) == FailureOf(q);
    if q.op == "not" && q.values != [] {
      FirstFailureIsFirst(q.values[0]);
    } else if q.op == "or" || q.op == "and" {
      FirstAmongIsFirst(q, 0);
    }
  }

  lemma {:induction false} FirstAmongIsFirst(q: Query, k: nat)
    requires k <= |q.values|
    ensures FirstFailureAmong(q, k) == FirstOf(VisitedFrom(q, k))
    decreases q, |q.values| - k
  {
    if k < |q.values| {
      FirstFailureIsFirst(q.values[k]);
      FirstAmongIsFirst(q, k + 1);
      FirstOfConcat(Visited(q.values[k]), VisitedFrom(q, k + 1));
    }
  }

  lemma {:induction false} VisitedIsCompiled(q: Query, n: Query)
    ensures n in Visited(q) <==> Compiled(q, n)
    decreases q, |q.values| + 1
  {
    if q.op == "not" && q.values != [] {
      VisitedIsCompiled(q.values[0], n);
    } else if q.op == "or" || q.op == "and" {
      VisitedFromIsCompiled(q, n, 0);
    }
  }

  lemma {:induction false} VisitedFromIsCompiled(q: Query, n: Query, k: nat)
    requires k <= |q.values|
    ensures n in VisitedFrom(q, k) <==> CompiledFrom(q, n, k)
    decreases q, |q.values| - k
  {
    if k < |q.values| {
      VisitedIsCompiled(q.values[k], n);
      VisitedFromIsCompiled(q, n, k + 1);
      assert CompiledFrom(q, n, k) <==> Compiled(q.values[k], n) || CompiledFrom(q, n, k + 1);
    }
  }

  /** A query is refused if and only if a compiled node has an unknown op or field, or is a "not" without child. */
  lemma FailsIffBadNode(q: Query)
    ensures FirstFailure(q).Some? <==> exists n :: Compiled(q, n) && FailureOf(n).Some?
  {
    FirstFailureIsFirst(q);
    FirstOfSome(Visited(q));
    forall n
      ensures n in Visited(q) <==> Compiled(q, n)
    {
      VisitedIsCompiled(q, n);
    }
  }

  // ---------- the compiler ----------

  /** The closure is as good as direct evaluation. */
  ghost predicate Implements(lower: string -> string, f: Filter, q: Query)
  {
    forall a :: f(a) == Matches(lower, q, a)
  }

  function AnyOf(funcs: seq<Filter>, a: Attribute): bool
  {
    funcs != [] && (funcs[0](a) || AnyOf(funcs[1..], a))
  }

  function AllOf(funcs: seq<Filter>, a: Attribute): bool
  {
    funcs == [] || (funcs[0](a) && AllOf(funcs[1..], a))
  }

  lemma {:induction false} AnyOfIsExists(funcs: seq<Filter>, a: Attribute)
    ensures AnyOf(funcs, a) <==> exists i :: 0 <= i < |funcs| && funcs[i](a)
  {
    if funcs != [] {
      AnyOfIsExists(funcs[1..], a);
      if i :| 0 <= i < |funcs| && funcs[i](a) {
        assert i == 0 || funcs[1..][i - 1](a);
      }
    }
  }

  lemma {:induction false} AllOfIsForall(funcs: seq<Filter>, a: Attribute)
    ensures AllOf(funcs, a) <==> forall i :: 0 <= i < |funcs| ==> funcs[i](a)
  {
    if funcs != [] {
      AllOfIsForall(funcs[1..], a);
      if i :| 0 <= i < |funcs| && !funcs[i](a) {
        assert i == 0 || !funcs[1..][i - 1](a);
      }
    }
  }

  method MakeLeaf(lower: string -> string, q: Query) returns (r: Result)
    requires q.op in LEAF_OPS
    ensures r.Error? <==> FirstFailure(q).Some?
    ensures r.Error? ==> FirstFailure(q) == Some(r.failure)
    ensures r.Ok? ==> Implements(lower, r.filter, q)
  {
    var op, value := q.op, lower(q.value);
    match q.field {
      case "name" => return Ok((a: Attribute) => LeafMatches(op, a.searchName, value));
      case "vendor" => return Ok((a: Attribute) => LeafMatches(op, a.searchVendor, value));
      case _ => return Error(BadField(q.field));
    }
  }

  /** The children of an "and" or "or", compiled in order up to the first failure. */
  method CompileChildren(lower: string -> string, q: Query) returns (funcs: seq<Filter>, failure: Option<Failure>)
    ensures failure == FirstFailureAmong(q, 0)
    ensures failure.None? ==> |funcs| == |q.values| && forall i :: 0 <= i < |funcs| ==> Implements(lower, funcs[i], q.values[i])
    decreases q, 0
  {
    funcs := [];
    for k := 0 to |q.values|
      invariant FirstFailureAmong(q, 0) == FirstFailureAmong(q, k)
      invariant |funcs| == k && forall i :: 0 <= i < k ==> Implements(lower, funcs[i], q.values[i])
    {
      var r := MakeFilter(lower, q.values[k]);
      match r {
        case Error(e) => return funcs, Some(e);
        case Ok(f) => funcs := funcs + [f];
      }
    }
    failure := None;
  }

  method MakeFilter(lower: string -> string, q: Query) returns (r: Result)
    ensures r.Error? <==> FirstFailure(q).Some?
    ensures r.Error? ==> FirstFailure(q) == Some(r.failure)
    ensures r.Ok? ==> Implements(lower, r.filter, q)
    decreases q, 1
  {
    if q.op in LEAF_OPS {
      r := MakeLeaf(lower, q);
    } else if q.op == "not" {
      if |q.values| == 0 {
        return Error(NoOperand);
      }
      r := MakeFilter(lower, q.values[0]);
      if r.Ok? {
        var f := r.filter;
        r := Ok((a: Attribute) => !f(a));
      }
    } else if q.op == "or" || q.op == "and" {
      var funcs, failure := CompileChildren(lower, q);
      if failure.Some? {
        return Error(failure.value);
      }
      if q.op == "or" {
        r := Ok((a: Attribute) => AnyOf(funcs, a));
        forall a
          ensures r.filter(a) == Matches(lower, q, a)
        {
          AnyOfIsExists(funcs, a);
        }
      } else {
        r := Ok((a: Attribute) => AllOf(funcs, a));
        forall a
          ensures r.filter(a) == Matches(lower, q, a)
        {
          AllOfIsForall(funcs, a);
        }
      }
    } else if q.op == "true" {
      r := Ok((a: Attribute) => true);
    } else {
      r := Error(BadOp(q.op));
    }
  }

  // ---------- the search ----------

  method FilterAttributes(items: seq<Attribute>, filter: Filter) returns (output: seq<Attribute>)
    ensures output == Sequences.Filter(items, filter)
  {
    output := [];
    for k := 0 to |items|
      invariant output == Sequences.Filter(items[..k], filter)
    {
      Sequences.TakeSnoc(items, k + 1);
      Sequences.FilterSnoc(items[..k], items[k], filter);
      if filter(items[k]) {
        output := output + [items[k]];
      }
    }
    assert items[..|items|] == items;
  }

  /** What a search looks for; without a query, everything. */
  ghost function Wanted(lower: string -> string, q: Option<Query>): Attribute -> bool
  {
    a => q.None? || Matches(lower, q.value, a)
  }

  method Search(lower: string -> string, q: Option<Query>, items: seq<Attribute>)
    returns (failure: Option<Failure>, output: seq<Attribute>)
    ensures failure == if q.None? then None else FirstFailure(q.value)
    ensures failure.None? ==> output == Sequences.Filter(items, Wanted(lower, q))
  {
    failure, output := None, [];
    var r := Ok((a: Attribute) => true);
    if q.Some? {
      r := MakeFilter(lower, q.value);
    }
    match r {
      case Error(e) => failure := Some(e);
      case Ok(f) =>
        output := FilterAttributes(items, f);
        Sequences.FilterAgrees(items, f, Wanted(lower, q));
    }
  }

  // ---------- what the leaves mean ----------

  ghost predicate Occurs(part: string, s: string)
  {
    exists x, y :: s == x + part + y
  }

  ghost predicate Begins(part: string, s: string)
  {
    exists y :: s == part + y
  }

  ghost predicate Ends(part: string, s: string)
  {
    exists x :: s == x + part
  }

  lemma {:induction false} ContainedOccurs(s: string, part: string) returns (x: string, y: string)
    requires Contains(s, part)
    ensures s == x + part + y
  {
    if part <= s {
      x, y := "", s[|part|..];
      assert "" + part == part;
    } else {
      x, y := ContainedOccurs(s[1..], part);
      Sequences.HeadTail(s);
      Sequences.Assoc([s[0]], x + part, y);
      Sequences.Assoc([s[0]], x, part);
      x := [s[0]] + x;
    }
  }

  lemma {:induction false} OccurringIsContained(x: string, part: string, y: string)
    ensures Contains(x + part + y, part)
  {
    var s := x + part + y;
    if x == [] {
      assert s[..|part|] == part;
    } else {
      OccurringIsContained(x[1..], part, y);
      assert s[1..] == x[1..] + part + y;
    }
  }

  lemma ContainsIffOccurs(s: string, part: string)
    ensures Contains(s, part) <==> Occurs(part, s)
  {
    if Contains(s, part) {
      var x, y := ContainedOccurs(s, part);
    } else if x, y :| s == x + part + y {
      OccurringIsContained(x, part, y);
    }
  }

  lemma PrefixIffBegins(s: string, part: string)
    ensures part <= s <==> Begins(part, s)
  {
    if part <= s {
      assert s == part + s[|part|..];
    }
  }

  lemma SuffixIffEnds(s: string, part: string)
    ensures Sequences.HasSuffix(s, part) <==> Ends(part, s)
  {
    if Sequences.HasSuffix(s, part) {
      assert s == s[..|s| - |part|] + part;
    }
  }

  /** How a leaf's op relates the value to the text. */
  ghost predicate Related(op: string, value: string, text: string)
  {
    && (op == "equals" ==> text == value)
    && (op == "not_equals" ==> text != value)
    && (op == "contains" ==> Occurs(value, text))
    && (op == "starts_with" ==> Begins(value, text))
    && (op == "ends_with" ==> Ends(value, text))
  }

  /** A leaf compares the lower-cased value with the name or the vendor, in the way its op says. */
  lemma LeafMeans(lower: string -> string, q: Query, a: Attribute)
    requires q.op in LEAF_OPS
    ensures q.field == "name" ==> (Matches(lower, q, a) <==> Related(q.op, lower(q.value), a.searchName))
    ensures q.field == "vendor" ==> (Matches(lower, q, a) <==> Related(q.op, lower(q.value), a.searchVendor))
  {
    var text, value := if q.field == "name" then a.searchName else a.searchVendor, lower(q.value);
    ContainsIffOccurs(text, value);
    PrefixIffBegins(text, value);
    SuffixIffEnds(text, value);
  }

  /** What the connectives make of their children, one child after another. */
  lemma Connectives(lower: string -> string, q: Query, child: Query, a: Attribute)
    ensures q.op == "or" && q.values == [] ==> !Matches(lower, q, a)
    ensures q.op == "and" && q.values == [] ==> Matches(lower, q, a)
    ensures q.op == "or" ==>
              (Matches(lower, q.(values := q.values + [child]), a) <==> Matches(lower, q, a) || Matches(lower, child, a))
    ensures q.op == "and" ==>
              (Matches(lower, q.(values := q.values + [child]), a) <==> Matches(lower, q, a) && Matches(lower, child, a))
    ensures q.op == "not" ==> (Matches(lower, q.(values := [child] + q.values), a) <==> !Matches(lower, child, a))
    ensures q.op == "true" ==> Matches(lower, q, a)
  {
    var longer := q.(values := q.values + [child]);
    assert longer.values[|q.values|] == child;
    assert forall i :: 0 <= i < |q.values| ==> longer.values[i] == q.values[i];
  }

  /** Why a node is refused, whatever stands below it. */
  lemma RefusedBecause(q: Query)
    ensures q.op !in {"not", "or", "and", "true", "contains", "equals", "not_equals", "starts_with", "ends_with"} ==>
              FirstFailure(q) == Some(BadOp(q.op))
    ensures q.op in {"contains", "equals", "not_equals", "starts_with", "ends_with"} ==>
              FirstFailure(q) == if q.field in {"name", "vendor"} then None else Some(BadField(q.field))
    ensures q.op == "not" && q.values == [] ==> FirstFailure(q) == Some(NoOperand)
    ensures q.op == "true" ==> FirstFailure(q) == None
  {
  }
}
