/** The event filter: rules, the operators they are compiled to, and what both of them mean. */
module EventFilter {
  import opened GoTypes

  datatype Member = Member(key: string, value: Json)

  /** A gjson result; Missing is the result of a lookup that found nothing. Arrays and objects keep their raw text. */
  datatype Json =
    | Missing | Null | Bool(b: bool) | Number(text: string) | Str(s: string)
    | Arr(items: seq<Json>, raw: string) | Obj(members: seq<Member>, raw: string)

  /** What the model does not look into: path lookup and regular expressions. */
  datatype Env = Env(get: (Json, string) -> Json, compiles: string -> bool, matches: (string, string) -> bool)

  /** gjson's String. */
  function Text(j: Json): string {
    match j
    case Missing => ""
    case Null => ""
    case Bool(b) => if b then "true" else "false"
    case Number(t) => t
    case Str(s) => s
    case Arr(_, raw) => raw
    case Obj(_, raw) => raw
  }

  predicate OccursAt(s: string, sub: string, i: nat) {
    i + |sub| <= |s| && s[i..i + |sub|] == sub
  }

  predicate Contains(s: string, sub: string) {
    exists i: nat :: i <= |s| && OccursAt(s, sub, i)
  }

  // The meaning of a rule, read off the JSON directly.

  predicate Scalar(j: Json) {
    !j.Arr? && !j.Obj?
  }

  function Rank(op: string): nat {
    if op == "not" then 1 else 0
  }

  /** The rules that can be compiled. */
  predicate WellFormed(env: Env, op: string, arg: Json)
    decreases arg, Rank(op), 1
  {
    match op
    case "not" => arg.Obj? && WellFormed(env, "and", arg)
    case "and" => arg.Obj? && forall i :: 0 <= i < |arg.members| ==> WellFormedMember(env, arg.members[i])
    case "or" => arg.Arr? && forall i :: 0 <= i < |arg.items| ==> WellFormed(env, "and", arg.items[i])
    case "eq" => true
    case "neq" => true
    case "in" => !arg.Obj?
    case "contains" => Scalar(arg)
    case "regex" => Scalar(arg) && env.compiles(Text(arg))
    case _ => false
  }

  predicate WellFormedMember(env: Env, m: Member)
    decreases m, 0, 0
  {
    && m.key != ""
    && (m.key[0] == '.' ==> WellFormed(env, m.key[1..], m.value))
    && (m.key[0] != '.' && m.value.Obj? ==> WellFormed(env, "and", m.value))
  }

  /** Whether the rule lets the payload pass. */
  predicate Passes(env: Env, op: string, arg: Json, payload: Json)
    requires WellFormed(env, op, arg)
    decreases arg, Rank(op), 1
  {
    match op
    case "not" => !Passes(env, "and", arg, payload)
    case "and" => forall i :: 0 <= i < |arg.members| ==> MemberPasses(env, arg.members[i], payload)
    case "or" => exists i :: 0 <= i < |arg.items| && Passes(env, "and", arg.items[i], payload)
    case "eq" => Text(payload) == Text(arg)
    case "neq" => Text(payload) != Text(arg)
    case "in" =>
      if arg.Arr? then exists i :: 0 <= i < |arg.items| && Text(arg.items[i]) == Text(payload)
      else Contains(Text(arg), Text(payload))
    case "contains" => Contains(Text(payload), Text(arg))
    case "regex" => env.matches(Text(arg), Text(payload))
  }

  predicate MemberPasses(env: Env, m: Member, payload: Json)
    requires WellFormedMember(env, m)
    decreases m, 0, 0
  {
    if m.key[0] == '.' then Passes(env, m.key[1..], m.value, payload)
    else if m.value.Obj? then Passes(env, "and", m.value, env.get(payload, m.key))
    else Text(env.get(payload, m.key)) == Text(m.value)
  }

  // Operators.

  datatype Node = Node(key: string, filter: Filter)

  datatype Filter =
    | NotOp(operand: Filter) | AndOp(nodes: seq<Node>) | OrOp(operands: seq<Filter>)
    | EqOp(text: string) | NeqOp(text: string) | InArrayOp(list: seq<string>) | InStringOp(text: string)
    | ContainsOp(text: string) | RegexOp(pattern: string)

  /** A node with an empty key holds an operator, any other looks up its key first. */
  function Subject(env: Env, n: Node, payload: Json): Json {
    if n.key == "" then payload else env.get(payload, n.key)
  }

  predicate Accepts(env: Env, f: Filter, payload: Json)
    decreases f
  {
    match f
    case NotOp(g) => !Accepts(env, g, payload)
    case AndOp(nodes) => forall i :: 0 <= i < |nodes| ==> Accepts(env, nodes[i].filter, Subject(env, nodes[i], payload))
    case OrOp(fs) => exists i :: 0 <= i < |fs| && Accepts(env, fs[i], payload)
    case EqOp(t) => Text(payload) == t
    case NeqOp(t) => Text(payload) != t
    case InArrayOp(list) => Text(payload) in list
    case InStringOp(t) => Contains(t, Text(payload))
    case ContainsOp(t) => Contains(Text(payload), t)
    case RegexOp(p) => env.matches(p, Text(payload))
  }

  /** Evaluation stops at the first operand that decides. */
  method Eval(env: Env, f: Filter, payload: Json) returns (res: bool)
    ensures res == Accepts(env, f, payload)
    decreases f
  {
    match f {
      case NotOp(g) =>
        var r := Eval(env, g, payload);
        return !r;
      case AndOp(nodes) =>
        res := true;
        for i := 0 to |nodes|
          invariant res && forall k :: 0 <= k < i ==> Accepts(env, nodes[k].filter, Subject(env, nodes[k], payload))
        {
          if |nodes[i].key| == 0 {
            res := Eval(env, nodes[i].filter, payload);
          } else {
            var val := env.get(payload, nodes[i].key);
            res := Eval(env, nodes[i].filter, val);
          }
          if !res {
            break;
          }
        }
      case OrOp(fs) =>
        res := false;
        for i := 0 to |fs|
          invariant !res && forall k :: 0 <= k < i ==> !Accepts(env, fs[k], payload)
        {
          res := Eval(env, fs[i], payload);
          if res {
            break;
          }
        }
      case EqOp(t) =>
        return Text(payload) == t;
      case NeqOp(t) =>
        return !(Text(payload) == t);
      case InArrayOp(list) =>
        var payloadStr := Text(payload);
        for i := 0 to |list|
          invariant forall k :: 0 <= k < i ==> list[k] != payloadStr
        {
          if list[i] == payloadStr {
            return true;
          }
        }
        return false;
      case InStringOp(t) =>
        return Contains(t, Text(payload));
      case ContainsOp(t) =>
        return Contains(Text(payload), t);
      case RegexOp(p) =>
        return env.matches(p, Text(payload));
    }
  }

  // Compilation. None stands for a panic.

  /** The filter lets through exactly what the rule means. */
  ghost predicate Implements(env: Env, f: Filter, op: string, arg: Json)
    requires WellFormed(env, op, arg)
  {
    forall p: Json :: Accepts(env, f, p) == Passes(env, op, arg, p)
  }

  method Generate(env: Env, op: string, arg: Json) returns (r: Option<Filter>)
    ensures r.Some? <==> WellFormed(env, op, arg)
    ensures r.Some? ==> Implements(env, r.value, op, arg)
    decreases arg, Rank(op), 2
  {
    match op {
      case "not" => r := NewNotOp(env, arg);
      case "and" => r := NewAndOp(env, arg);
      case "or" => r := NewOrOp(env, arg);
      case "eq" => r := Some(EqOp(Text(arg)));
      case "neq" => r := Some(NeqOp(Text(arg)));
      case "in" => r := NewInOp(env, arg);
      case "contains" => r := if Scalar(arg) then Some(ContainsOp(Text(arg))) else None;
      case "regex" => r := if Scalar(arg) && env.compiles(Text(arg)) then Some(RegexOp(Text(arg))) else None;
      case _ => r := None;
    }
  }

  method NewNotOp(env: Env, arg: Json) returns (r: Option<Filter>)
    ensures r.Some? <==> WellFormed(env, "not", arg)
    ensures r.Some? ==> Implements(env, r.value, "not", arg)
    decreases arg, 1, 1
  {
    if !arg.Obj? {
      return None;
    }
    var f := Generate(env, "and", arg);
    r := if f.Some? then Some(NotOp(f.value)) else None;
  }

  /** What a node has to do for its member. */
  ghost predicate ImplementsMember(env: Env, n: Node, m: Member)
    requires WellFormedMember(env, m)
  {
    forall p: Json :: Accepts(env, n.filter, Subject(env, n, p)) == MemberPasses(env, m, p)
  }

  /** One member of an object: an operator, a key with a nested rule, or a key with a value. */
  method NewNode(env: Env, m: Member) returns (r: Option<Node>)
    ensures r.Some? <==> WellFormedMember(env, m)
    ensures r.Some? ==> ImplementsMember(env, r.value, m)
    decreases m, 0, 0
  {
    var key, value := m.key, m.value;
    var f;
    if key == "" {
      return None;
    }
    if key[0] == '.' {
      f := Generate(env, key[1..], value);
      r := if f.Some? then Some(Node("", f.value)) else None;
    } else if value.Obj? {
      f := Generate(env, "and", value);
      r := if f.Some? then Some(Node(key, f.value)) else None;
    } else {
      f := Generate(env, "eq", value);
      r := if f.Some? then Some(Node(key, f.value)) else None;
    }
  }

  method NewAndOp(env: Env, arg: Json) returns (r: Option<Filter>)
    ensures r.Some? <==> WellFormed(env, "and", arg)
    ensures r.Some? ==> Implements(env, r.value, "and", arg)
    decreases arg, 0, 1
  {
    if !arg.Obj? {
      return None;
    }
    var nodes: seq<Node> := [];
    for i := 0 to |arg.members|
      invariant |nodes| == i
      invariant forall k :: 0 <= k < i ==> WellFormedMember(env, arg.members[k])
      invariant forall k :: 0 <= k < i ==> ImplementsMember(env, nodes[k], arg.members[k])
    {
      var n := NewNode(env, arg.members[i]);
      if n.None? {
        return None;
      }
      nodes := nodes + [n.value];
    }
    r := Some(AndOp(nodes));
    AndImplements(env, nodes, arg);
  }

  lemma {:induction false} AndImplements(env: Env, nodes: seq<Node>, arg: Json)
    requires arg.Obj? && |nodes| == |arg.members|
    requires forall k :: 0 <= k < |nodes| ==> WellFormedMember(env, arg.members[k])
    requires forall k :: 0 <= k < |nodes| ==> ImplementsMember(env, nodes[k], arg.members[k])
    ensures WellFormed(env, "and", arg) && Implements(env, AndOp(nodes), "and", arg)
  {
    hide MemberPasses, WellFormedMember;
    forall p: Json ensures Accepts(env, AndOp(nodes), p) == Passes(env, "and", arg, p) {
      assert forall k :: 0 <= k < |nodes| ==>
          Accepts(env, nodes[k].filter, Subject(env, nodes[k], p)) == MemberPasses(env, arg.members[k], p);
    }
  }

  method NewOrOp(env: Env, arg: Json) returns (r: Option<Filter>)
    ensures r.Some? <==> WellFormed(env, "or", arg)
    ensures r.Some? ==> Implements(env, r.value, "or", arg)
    decreases arg, 0, 1
  {
    if !arg.Arr? {
      return None;
    }
    var fs: seq<Filter> := [];
    for i := 0 to |arg.items|
      invariant |fs| == i
      invariant forall k :: 0 <= k < i ==> WellFormed(env, "and", arg.items[k])
      invariant forall k :: 0 <= k < i ==> Implements(env, fs[k], "and", arg.items[k])
    {
      var f := Generate(env, "and", arg.items[i]);
      if f.None? {
        return None;
      }
      fs := fs + [f.value];
    }
    r := Some(OrOp(fs));
    OrImplements(env, fs, arg);
  }

  lemma {:induction false} OrImplements(env: Env, fs: seq<Filter>, arg: Json)
    requires arg.Arr? && |fs| == |arg.items|
    requires forall k :: 0 <= k < |fs| ==> WellFormed(env, "and", arg.items[k])
    requires forall k :: 0 <= k < |fs| ==> Implements(env, fs[k], "and", arg.items[k])
    ensures WellFormed(env, "or", arg) && Implements(env, OrOp(fs), "or", arg)
  {
    forall p: Json ensures Accepts(env, OrOp(fs), p) == Passes(env, "or", arg, p) {
      assert forall k :: 0 <= k < |fs| ==> Accepts(env, fs[k], p) == Passes(env, "and", arg.items[k], p);
    }
  }

  method NewInOp(env: Env, arg: Json) returns (r: Option<Filter>)
    ensures r.Some? <==> WellFormed(env, "in", arg)
    ensures r.Some? ==> Implements(env, r.value, "in", arg)
  {
    if arg.Obj? {
      return None;
    }
    if arg.Arr? {
      var list: seq<string> := [];
      for i := 0 to |arg.items|
        invariant |list| == i && forall k :: 0 <= k < i ==> list[k] == Text(arg.items[k])
      {
        list := list + [Text(arg.items[i])];
      }
      r := Some(InArrayOp(list));
    } else {
      r := Some(InStringOp(Text(arg)));
    }
  }

  // The order of keys.

  /**
   * The same rule, up to the order (and repetition) of members and of the operands of `or`, at any depth,
   * and up to the raw text of what is not compared as text.
   */
  ghost predicate SameRule(op: string, a: Json, b: Json)
    decreases a, Rank(op), 1
  {
    || a == b
    || (op == "not" && SameRule("and", a, b))
    || (op == "in" && a.Arr? && b.Arr? && a.items == b.items)
    || (op == "and" && a.Obj? && b.Obj?
        && (forall i :: 0 <= i < |a.members| ==> MemberAmong(a.members[i], b.members))
        && (forall j :: 0 <= j < |b.members| ==> AmongMembers(a.members, b.members[j])))
    || (op == "or" && a.Arr? && b.Arr?
        && (forall i :: 0 <= i < |a.items| ==> OperandAmong(a.items[i], b.items))
        && (forall j :: 0 <= j < |b.items| ==> AmongOperands(a.items, b.items[j])))
  }

  ghost predicate SameMember(m: Member, n: Member)
    decreases m, 0, 0
  {
    m.key == n.key &&
    if m.key != "" && m.key[0] == '.' then SameRule(m.key[1..], m.value, n.value)
    else m.value.Obj? == n.value.Obj? && SameRule(if m.value.Obj? then "and" else "eq", m.value, n.value)
  }

  ghost predicate MemberAmong(m: Member, ns: seq<Member>)
    decreases m, 0, 1
  {
    exists j :: 0 <= j < |ns| && SameMember(m, ns[j])
  }

  ghost predicate AmongMembers(ms: seq<Member>, n: Member)
    decreases ms, 0, 1
  {
    exists i :: 0 <= i < |ms| && SameMember(ms[i], n)
  }

  ghost predicate OperandAmong(a: Json, bs: seq<Json>)
    decreases a, 0, 2
  {
    exists j :: 0 <= j < |bs| && SameRule("and", a, bs[j])
  }

  ghost predicate AmongOperands(items: seq<Json>, b: Json)
    decreases items, 0, 2
  {
    exists i :: 0 <= i < |items| && SameRule("and", items[i], b)
  }

  /** Both rules can be compiled or neither, and they pass the same payloads. */
  ghost predicate Interchangeable(env: Env, op: string, a: Json, b: Json) {
    && WellFormed(env, op, a) == WellFormed(env, op, b)
    && (WellFormed(env, op, a) ==> forall p: Json :: Passes(env, op, a, p) == Passes(env, op, b, p))
  }

  ghost predicate InterchangeableMembers(env: Env, m: Member, n: Member) {
    && WellFormedMember(env, m) == WellFormedMember(env, n)
    && (WellFormedMember(env, m) ==> forall p: Json :: MemberPasses(env, m, p) == MemberPasses(env, n, p))
  }

  /** Some member of ns can stand in for m. */
  ghost predicate Counterpart(env: Env, m: Member, ns: seq<Member>) {
    exists j :: 0 <= j < |ns| && InterchangeableMembers(env, m, ns[j])
  }

  ghost predicate OperandCounterpart(env: Env, a: Json, bs: seq<Json>) {
    exists j :: 0 <= j < |bs| && Interchangeable(env, "and", a, bs[j])
  }

  lemma {:induction false} Symmetry(env: Env, op: string, a: Json, b: Json)
    requires Interchangeable(env, op, a, b)
    ensures Interchangeable(env, op, b, a)
  {
    hide WellFormed, Passes;
  }

  lemma {:induction false} MemberSymmetry(env: Env, m: Member, n: Member)
    requires InterchangeableMembers(env, m, n)
    ensures InterchangeableMembers(env, n, m)
  {
    hide WellFormedMember, MemberPasses;
  }

  /** Rules that differ in order only are interchangeable. */
  lemma {:induction false} OrderDoesNotMatter(env: Env, op: string, a: Json, b: Json)
    requires SameRule(op, a, b)
    ensures Interchangeable(env, op, a, b)
    decreases a, Rank(op), 1
  {
    hide Interchangeable, MemberAmong, AmongMembers, OperandAmong, AmongOperands;
    hide Counterpart, OperandCounterpart;
    if a == b {
      SameInterchangeable(env, op, a);
    } else if op == "not" {
      OrderDoesNotMatter(env, "and", a, b);
      NotInterchangeable(env, a, b);
    } else if op == "in" {
      InInterchangeable(env, a, b);
    } else if op == "and" {
      forall i | 0 <= i < |a.members| ensures Counterpart(env, a.members[i], b.members) {
        MemberHasCounterpart(env, a.members[i], b.members);
      }
      forall j | 0 <= j < |b.members| ensures Counterpart(env, b.members[j], a.members) {
        CounterpartOfMember(env, a.members, b.members[j]);
      }
      AndInterchangeable(env, a, b);
    } else {
      forall i | 0 <= i < |a.items| ensures OperandCounterpart(env, a.items[i], b.items) {
        OperandHasCounterpart(env, a.items[i], b.items);
      }
      forall j | 0 <= j < |b.items| ensures OperandCounterpart(env, b.items[j], a.items) {
        CounterpartOfOperand(env, a.items, b.items[j]);
      }
      OrInterchangeable(env, a, b);
    }
  }

  lemma {:induction false} MemberHasCounterpart(env: Env, m: Member, ns: seq<Member>)
    requires MemberAmong(m, ns)
    ensures Counterpart(env, m, ns)
    decreases m, 0, 1
  {
    hide SameMember, InterchangeableMembers;
    var j :| 0 <= j < |ns| && SameMember(m, ns[j]);
    MembersInterchangeable(env, m, ns[j]);
  }

  lemma {:induction false} CounterpartOfMember(env: Env, ms: seq<Member>, n: Member)
    requires AmongMembers(ms, n)
    ensures Counterpart(env, n, ms)
    decreases ms, 0, 1
  {
    hide SameMember, InterchangeableMembers;
    var i :| 0 <= i < |ms| && SameMember(ms[i], n);
    MembersInterchangeable(env, ms[i], n);
    MemberSymmetry(env, ms[i], n);
  }

  lemma {:induction false} OperandHasCounterpart(env: Env, a: Json, bs: seq<Json>)
    requires OperandAmong(a, bs)
    ensures OperandCounterpart(env, a, bs)
    decreases a, 0, 2
  {
    hide SameRule, Interchangeable;
    var j :| 0 <= j < |bs| && SameRule("and", a, bs[j]);
    OrderDoesNotMatter(env, "and", a, bs[j]);
  }

  lemma {:induction false} CounterpartOfOperand(env: Env, items: seq<Json>, b: Json)
    requires AmongOperands(items, b)
    ensures OperandCounterpart(env, b, items)
    decreases items, 0, 2
  {
    hide SameRule, Interchangeable;
    var i :| 0 <= i < |items| && SameRule("and", items[i], b);
    OrderDoesNotMatter(env, "and", items[i], b);
    Symmetry(env, "and", items[i], b);
  }

  lemma {:induction false} MembersInterchangeable(env: Env, m: Member, n: Member)
    requires SameMember(m, n)
    ensures InterchangeableMembers(env, m, n)
    decreases m, 0, 0
  {
    hide SameRule, WellFormed, Passes;
    if m.key != "" {
      if m.key[0] == '.' {
        var op := m.key[1..];
        OrderDoesNotMatter(env, op, m.value, n.value);
        forall p: Json | WellFormedMember(env, m) ensures MemberPasses(env, m, p) == MemberPasses(env, n, p) {
          assert Passes(env, op, m.value, p) == Passes(env, op, n.value, p);
        }
      } else if m.value.Obj? {
        OrderDoesNotMatter(env, "and", m.value, n.value);
        forall p: Json | WellFormedMember(env, m) ensures MemberPasses(env, m, p) == MemberPasses(env, n, p) {
          var subject := env.get(p, m.key);
          assert Passes(env, "and", m.value, subject) == Passes(env, "and", n.value, subject);
        }
      } else {
        SameScalars(m.value, n.value);
      }
    }
  }

  lemma {:induction false} SameScalars(a: Json, b: Json)
    requires SameRule("eq", a, b)
    ensures a == b
  {
  }

  lemma {:induction false} SameInterchangeable(env: Env, op: string, a: Json)
    ensures Interchangeable(env, op, a, a)
  {
  }

  lemma {:induction false} InInterchangeable(env: Env, a: Json, b: Json)
    requires a.Arr? && b.Arr? && a.items == b.items
    ensures Interchangeable(env, "in", a, b)
  {
  }

  lemma {:induction false} NotInterchangeable(env: Env, a: Json, b: Json)
    requires Interchangeable(env, "and", a, b)
    ensures Interchangeable(env, "not", a, b)
  {
    AndNeedsObject(env, a);
    AndNeedsObject(env, b);
    if WellFormed(env, "not", a) {
      forall p: Json ensures Passes(env, "not", a, p) == Passes(env, "not", b, p) {
        assert Passes(env, "and", a, p) == Passes(env, "and", b, p);
      }
    }
  }

  lemma {:induction false} AndNeedsObject(env: Env, a: Json)
    ensures WellFormed(env, "and", a) ==> a.Obj?
    ensures WellFormed(env, "not", a) == WellFormed(env, "and", a)
  {
  }

  /** If every member of b has a counterpart in a, then b demands no more than a. */
  lemma {:induction false} AndOneWay(env: Env, a: Json, b: Json)
    requires a.Obj? && b.Obj? && WellFormed(env, "and", a)
    requires forall j :: 0 <= j < |b.members| ==> Counterpart(env, b.members[j], a.members)
    ensures WellFormed(env, "and", b)
    ensures forall p: Json :: Passes(env, "and", a, p) ==> Passes(env, "and", b, p)
  {
    hide WellFormedMember, MemberPasses, Counterpart;
    forall j | 0 <= j < |b.members|
      ensures WellFormedMember(env, b.members[j])
      ensures forall p: Json :: Passes(env, "and", a, p) ==> MemberPasses(env, b.members[j], p)
    {
      MemberFollows(env, a, b.members[j]);
    }
  }

  lemma {:induction false} MemberFollows(env: Env, a: Json, n: Member)
    requires a.Obj? && WellFormed(env, "and", a) && Counterpart(env, n, a.members)
    ensures WellFormedMember(env, n)
    ensures forall p: Json :: Passes(env, "and", a, p) ==> MemberPasses(env, n, p)
  {
    hide WellFormedMember, MemberPasses;
    var i :| 0 <= i < |a.members| && InterchangeableMembers(env, n, a.members[i]);
    assert WellFormedMember(env, a.members[i]);
    forall p: Json | Passes(env, "and", a, p) ensures MemberPasses(env, n, p) {
      assert MemberPasses(env, a.members[i], p);
    }
  }

  lemma {:induction false} AndInterchangeable(env: Env, a: Json, b: Json)
    requires a.Obj? && b.Obj?
    requires forall i :: 0 <= i < |a.members| ==> Counterpart(env, a.members[i], b.members)
    requires forall j :: 0 <= j < |b.members| ==> Counterpart(env, b.members[j], a.members)
    ensures Interchangeable(env, "and", a, b)
  {
    hide Counterpart, WellFormed, Passes;
    if WellFormed(env, "and", a) {
      AndOneWay(env, a, b);
    }
    if WellFormed(env, "and", b) {
      AndOneWay(env, b, a);
    }
  }

  /** If every operand of a has a counterpart in b, and b compiles, then b lets through no less than a. */
  lemma {:induction false} OrOneWay(env: Env, a: Json, b: Json)
    requires a.Arr? && b.Arr? && WellFormed(env, "or", b)
    requires forall i :: 0 <= i < |a.items| ==> OperandCounterpart(env, a.items[i], b.items)
    ensures WellFormed(env, "or", a)
    ensures forall p: Json :: Passes(env, "or", a, p) ==> Passes(env, "or", b, p)
  {
    hide OperandCounterpart;
    forall i | 0 <= i < |a.items|
      ensures WellFormed(env, "and", a.items[i])
      ensures forall p: Json :: Passes(env, "and", a.items[i], p) ==> Passes(env, "or", b, p)
    {
      OperandSuffices(env, a.items[i], b);
    }
  }

  lemma {:induction false} OperandSuffices(env: Env, x: Json, b: Json)
    requires b.Arr? && WellFormed(env, "or", b) && OperandCounterpart(env, x, b.items)
    ensures WellFormed(env, "and", x)
    ensures forall p: Json :: Passes(env, "and", x, p) ==> Passes(env, "or", b, p)
  {
    var j :| 0 <= j < |b.items| && Interchangeable(env, "and", x, b.items[j]);
    assert WellFormed(env, "and", b.items[j]);
    forall p: Json | Passes(env, "and", x, p) ensures Passes(env, "or", b, p) {
      assert Passes(env, "and", b.items[j], p);
    }
  }

  lemma {:induction false} OrInterchangeable(env: Env, a: Json, b: Json)
    requires a.Arr? && b.Arr?
    requires forall i :: 0 <= i < |a.items| ==> OperandCounterpart(env, a.items[i], b.items)
    requires forall j :: 0 <= j < |b.items| ==> OperandCounterpart(env, b.items[j], a.items)
    ensures Interchangeable(env, "or", a, b)
  {
    hide OperandCounterpart, WellFormed, Passes;
    if WellFormed(env, "or", a) {
      OrOneWay(env, b, a);
    }
    if WellFormed(env, "or", b) {
      OrOneWay(env, a, b);
    }
  }

  /** Permuting the keys of an object changes neither whether it compiles nor what it means. */
  lemma {:induction false} KeyOrderDoesNotMatter(env: Env, ms: seq<Member>, ns: seq<Member>, raw: string, raw': string)
    requires multiset(ms) == multiset(ns)
    ensures Interchangeable(env, "and", Obj(ms, raw), Obj(ns, raw'))
  {
    hide Interchangeable, MemberAmong, AmongMembers;
    forall i | 0 <= i < |ms| ensures MemberAmong(ms[i], ns) {
      assert ms[i] in multiset(ms) && ms[i] in multiset(ns);
      ItselfAmong(ms[i], ns);
    }
    forall j | 0 <= j < |ns| ensures AmongMembers(ms, ns[j]) {
      assert ns[j] in multiset(ns) && ns[j] in multiset(ms);
      ItselfAmong(ns[j], ms);
    }
    OrderDoesNotMatter(env, "and", Obj(ms, raw), Obj(ns, raw'));
  }

  lemma {:induction false} ItselfAmong(m: Member, ns: seq<Member>)
    requires m in ns
    ensures MemberAmong(m, ns) && AmongMembers(ns, m)
  {
    var j :| 0 <= j < |ns| && ns[j] == m;
    assert SameMember(m, ns[j]) && SameMember(ns[j], m);
  }

  // Laws of the operators.

  /** A string contains what it can be cut around. */
  lemma {:induction false} ContainsExactly(s: string, sub: string)
    ensures Contains(s, sub) <==> exists a: string, b: string :: s == a + (sub + b)
  {
    if Contains(s, sub) {
      var i: nat :| i <= |s| && OccursAt(s, sub, i);
      assert s == s[..i] + (sub + s[i + |sub|..]);
    }
    forall a: string, b: string | s == a + (sub + b) ensures Contains(s, sub) {
      assert s[|a|..|a| + |sub|] == sub;
      assert OccursAt(s, sub, |a|);
    }
  }

  /** A string rule lets through what has this text: strings, numbers, booleans, and "" for what is missing. */
  lemma {:induction false} EqMeans(env: Env, s: string, p: Json)
    ensures Passes(env, "eq", Str(s), p) <==>
            match p
            case Missing => s == ""
            case Null => s == ""
            case Bool(b) => s == if b then "true" else "false"
            case Number(t) => s == t
            case Str(t) => s == t
            case Arr(_, raw) => s == raw
            case Obj(_, raw) => s == raw
  {
  }

  /** How the operators hang together. */
  lemma {:induction false} OperatorLaws(env: Env, a: Json, p: Json, x: string, y: string)
    ensures Passes(env, "neq", a, p) == !Passes(env, "eq", a, p)
    ensures WellFormed(env, "not", a) <==> WellFormed(env, "and", a)
    ensures WellFormed(env, "not", a) ==> Passes(env, "not", a, p) == !Passes(env, "and", a, p)
    ensures Passes(env, "contains", Str(x), Str(y)) == Passes(env, "in", Str(y), Str(x))
    ensures a.Arr? ==> (Passes(env, "in", a, p) <==> exists i :: 0 <= i < |a.items| && Passes(env, "eq", a.items[i], p))
  {
    AndNeedsObject(env, a);
  }

  /** An object asks for all of its members. */
  lemma {:induction false} AllMembers(env: Env, ms: seq<Member>, m: Member, raw: string, raw': string, p: Json)
    ensures WellFormed(env, "and", Obj([], raw)) && Passes(env, "and", Obj([], raw), p)
    ensures WellFormed(env, "and", Obj(ms + [m], raw)) <==>
            WellFormed(env, "and", Obj(ms, raw')) && WellFormedMember(env, m)
    ensures WellFormed(env, "and", Obj(ms + [m], raw)) ==>
              (Passes(env, "and", Obj(ms + [m], raw), p) <==>
                Passes(env, "and", Obj(ms, raw'), p) && MemberPasses(env, m, p))
  {
    hide WellFormedMember, MemberPasses;
    var all := ms + [m];
    assert all[|ms|] == m && forall i :: 0 <= i < |ms| ==> all[i] == ms[i];
  }

  /** A list of `or` asks for one of its operands. */
  lemma {:induction false} AnyOperand(env: Env, items: seq<Json>, a: Json, raw: string, raw': string, p: Json)
    ensures WellFormed(env, "or", Arr([], raw)) && !Passes(env, "or", Arr([], raw), p)
    ensures WellFormed(env, "or", Arr(items + [a], raw)) <==>
            WellFormed(env, "or", Arr(items, raw')) && WellFormed(env, "and", a)
    ensures WellFormed(env, "or", Arr(items + [a], raw)) ==>
              (Passes(env, "or", Arr(items + [a], raw), p) <==>
                Passes(env, "or", Arr(items, raw'), p) || Passes(env, "and", a, p))
  {
    var any := items + [a];
    assert any[|items|] == a && forall i :: 0 <= i < |items| ==> any[i] == items[i];
  }

  /** Which arguments the operators take; there are no others than these eight. */
  lemma {:induction false} ArgumentsExactly(env: Env, op: string, arg: Json)
    ensures WellFormed(env, "eq", arg) && WellFormed(env, "neq", arg)
    ensures WellFormed(env, "in", arg) <==> !arg.Obj?
    ensures WellFormed(env, "contains", arg) <==> !arg.Arr? && !arg.Obj?
    ensures WellFormed(env, "regex", arg) <==> !arg.Arr? && !arg.Obj? && env.compiles(Text(arg))
    ensures WellFormed(env, "and", arg) || WellFormed(env, "not", arg) ==> arg.Obj?
    ensures WellFormed(env, "or", arg) ==> arg.Arr?
    ensures WellFormed(env, op, arg) ==> op in {"not", "and", "or", "eq", "neq", "in", "contains", "regex"}
  {
  }

  /** A member is an operator, a rule for what its key leads to, or the value wanted there. */
  lemma {:induction false} MembersMean(
    env: Env, op: string, c: char, key: string, value: Json, x: string, y: string, p: Json)
    requires c != '.'
    ensures !WellFormedMember(env, Member("", value))
    ensures WellFormedMember(env, Member("." + op, value)) <==> WellFormed(env, op, value)
    ensures WellFormed(env, op, value) ==>
              MemberPasses(env, Member("." + op, value), p) == Passes(env, op, value, p)
    ensures WellFormedMember(env, Member([c] + key, value)) <==> value.Obj? ==> WellFormed(env, "and", value)
    ensures !value.Obj? ==>
              MemberPasses(env, Member([c] + key, value), p) == Passes(env, "eq", value, env.get(p, [c] + key))
    ensures value.Obj? && WellFormed(env, "and", value) ==>
              MemberPasses(env, Member([c] + key, value), p) == Passes(env, "and", value, env.get(p, [c] + key))
    ensures env.compiles(x) ==> Passes(env, "regex", Str(x), Str(y)) == env.matches(x, y)
  {
    assert ("." + op)[1..] == op;
    hide WellFormed, Passes;
    if env.compiles(x) {
      RegexMeans(env, x, y);
    }
    if !value.Obj? {
      EqIsText(env, value, env.get(p, [c] + key));
    }
  }

  lemma {:induction false} RegexMeans(env: Env, x: string, y: string)
    requires env.compiles(x)
    ensures WellFormed(env, "regex", Str(x)) && Passes(env, "regex", Str(x), Str(y)) == env.matches(x, y)
  {
  }

  lemma {:induction false} EqIsText(env: Env, a: Json, p: Json)
    ensures WellFormed(env, "eq", a) && Passes(env, "eq", a, p) == (Text(p) == Text(a))
  {
  }
}
