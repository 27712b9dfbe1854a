/** The `required_rule` grammar: a total evaluator, a strict validator, and the plain
    language of rules that both of them are about.

    Reading a decimal out of a string is a parameter (`parse`). */
module RuleGrammar {
  import opened Collections
  import opened JsonValues

  type Facts = map<string, Json>
  type DecimalParser = string -> Option<real>

  const MAX_RULE_DEPTH: nat := 8

  // ---- field resolution --------------------------------------------------------

  function Split(path: string): (segments: seq<string>)
    ensures segments != []
  {
    if path == [] then [[]] else Prefixed(path[0], Split(path[1..]))
  }

  /** The segments of a path with one more character in front. */
  function Prefixed(c: char, segments: seq<string>): (r: seq<string>)
    requires segments != []
    ensures r != []
  {
    if c == '.' then [[]] + segments else [[c] + segments[0]] + segments[1..]
  }

  /** The values at `segment` of the mappings in a list. */
  function Project(items: seq<Json>, segment: string): seq<Json> {
    if items == [] then []
    else
      var rest := Project(items[1..], segment);
      if items[0].Obj? && segment in items[0].fields then [items[0].fields[segment]] + rest else rest
  }

  function Descend(current: Json, segment: string): Option<Json> {
    match current
    case Obj(fields) => if segment in fields then Some(fields[segment]) else None
    case Arr(items) =>
      var projected := Project(items, segment);
      if projected == [] then None else Some(Arr(projected))
    case _ => None
  }

  function DescendAll(current: Json, segments: seq<string>): Option<Json>
    decreases |segments|
  {
    if segments == [] then Some(current)
    else
      var next := Descend(current, segments[0]);
      if next.None? then None else DescendAll(next.value, segments[1..])
  }

  /** `None` is the MISSING sentinel, which is not JSON null. */
  function Resolve(facts: Facts, path: Json): Option<Json> {
    if !path.Str? || path.s == [] then None else DescendAll(Obj(facts), Split(path.s))
  }

  method ResolveField(facts: Facts, path: Json) returns (r: Option<Json>)
    ensures r == Resolve(facts, path)
  {
    if !path.Str? || path.s == [] {
      return None;
    }
    var segments := Split(path.s);
    var current := Obj(facts);
    for i := 0 to |segments|
      invariant DescendAll(current, segments[i..]) == Resolve(facts, path)
    {
      var next := Descend(current, segments[i]);
      assert segments[i..][1..] == segments[i + 1..];
      if next.None? {
        return None;
      }
      current := next.value;
    }
    return Some(current);
  }

  // ---- what a path means ----------------------------------------------------------------

  /** Segments written as a dotted path. */
  function Join(segments: seq<string>): string
    requires segments != []
  {
    if |segments| == 1 then segments[0] else segments[0] + "." + Join(segments[1..])
  }

  lemma JoinPrefixed(c: char, segments: seq<string>)
    requires segments != []
    ensures Join(Prefixed(c, segments)) == [c] + Join(segments)
  {
    var more := Prefixed(c, segments);
    if c == '.' {
      assert more[1..] == segments;
    } else if |segments| > 1 {
      assert more[1..] == segments[1..];
    }
  }

  /** Splitting is undone by joining, and leaves no dot in a segment. */
  lemma {:induction false} SplitJoins(path: string)
    ensures Join(Split(path)) == path
    ensures forall s :: s in Split(path) ==> '.' !in s
  {
    if path != [] {
      SplitJoins(path[1..]);
      JoinPrefixed(path[0], Split(path[1..]));
      assert path == [path[0]] + path[1..];
    }
  }

  lemma PrefixedAppend(c: char, a: seq<string>, b: seq<string>)
    requires a != []
    ensures Prefixed(c, a + b) == Prefixed(c, a) + b
  {
    assert (a + b)[0] == a[0] && (a + b)[1..] == a[1..] + b;
  }

  lemma {:induction false} SplitAppend(p: string, q: string)
    ensures Split(p + "." + q) == Split(p) + Split(q)
  {
    var whole := p + "." + q;
    if p == [] {
      assert whole[0] == '.' && whole[1..] == q;
    } else {
      assert whole[0] == p[0] && whole[1..] == p[1..] + "." + q;
      SplitAppend(p[1..], q);
      PrefixedAppend(p[0], Split(p[1..]), Split(q));
    }
  }

  lemma {:induction false} PathsCompose(current: Json, a: seq<string>, b: seq<string>)
    ensures DescendAll(current, a + b)
         == var mid := DescendAll(current, a); if mid.None? then None else DescendAll(mid.value, b)
    decreases |a|
  {
    if a == [] {
      assert a + b == b;
    } else {
      assert (a + b)[0] == a[0] && (a + b)[1..] == a[1..] + b;
      var next := Descend(current, a[0]);
      if next.Some? {
        PathsCompose(next.value, a[1..], b);
      }
    }
  }

  /** A dotted path is resolved one part after the other: `p.q` is what `q` finds in what `p`
      finds, and missing as soon as a part is missing. */
  lemma DottedPathsCompose(facts: Facts, p: string, q: string)
    requires p != ""
    ensures var found := Resolve(facts, Str(p));
            Resolve(facts, Str(p + "." + q)) == if found.None? then None else DescendAll(found.value, Split(q))
  {
    SplitAppend(p, q);
    PathsCompose(Obj(facts), Split(p), Split(q));
  }

  /** A list projects to exactly the values its mappings hold at the segment. */
  lemma {:induction false} ProjectHolds(items: seq<Json>, segment: string, v: Json)
    ensures v in Project(items, segment) <==>
              exists x :: x in items && x.Obj? && segment in x.fields && x.fields[segment] == v
  {
    if items != [] {
      ProjectHolds(items[1..], segment, v);
      assert forall x :: x in items <==> x == items[0] || x in items[1..];
    }
  }

  /** A segment is missing exactly when no mapping there holds it: a null that is held is found. */
  lemma MissingIsNotNull(current: Json, segment: string)
    ensures Descend(current, segment).None? <==> !Held(current, segment)
    ensures current.Obj? && segment in current.fields ==> Descend(current, segment) == Some(current.fields[segment])
  {
    if current.Arr? {
      forall x | x in current.items && x.Obj? && segment in x.fields ensures Project(current.items, segment) != [] {
        ProjectHolds(current.items, segment, x.fields[segment]);
      }
      if Project(current.items, segment) != [] {
        var v := Project(current.items, segment)[0];
        ProjectHolds(current.items, segment, v);
      }
    }
  }

  /** The segment is held by the mapping, or by some mapping of the list. */
  ghost predicate Held(current: Json, segment: string) {
    || (current.Obj? && segment in current.fields)
    || (current.Arr? && exists x :: x in current.items && x.Obj? && segment in x.fields)
  }

  // ---- comparators ----------------------------------------------------------------

  datatype Comparator = Eq | Contains | Gt

  function AsDecimal(parse: DecimalParser, v: Json): Option<real> {
    match v
    case Num(n) => Some(n)
    case Str(s) => parse(s)
    case _ => None
  }

  /** Python equality of JSON values, where `True == 1` and `False == 0`. */
  predicate PyEq(a: Json, b: Json)
    decreases a
  {
    match a
    case Bool(x) => (b.Bool? && b.b == x) || (b.Num? && b.n == if x then 1.0 else 0.0)
    case Num(n) => (b.Num? && b.n == n) || (b.Bool? && n == if b.b then 1.0 else 0.0)
    case Arr(xs) => b.Arr? && |xs| == |b.items| && forall i :: 0 <= i < |xs| ==> PyEq(xs[i], b.items[i])
    case Obj(m) => b.Obj? && m.Keys == b.fields.Keys && forall k :: k in m ==> PyEq(m[k], b.fields[k])
    case _ => a == b
  }

  predicate Substring(part: string, whole: string) {
    exists i :: 0 <= i <= |whole| && part <= whole[i..]
  }

  predicate CompareEq(parse: DecimalParser, actual: Json, expected: Json) {
    if actual.Bool? || expected.Bool? then actual == expected
    else
      var left, right := AsDecimal(parse, actual), AsDecimal(parse, expected);
      if left.Some? && right.Some? then left == right else PyEq(actual, expected)
  }

  predicate CompareContains(actual: Json, expected: Json) {
    match actual
    case Str(s) => expected.Str? && Substring(expected.s, s)
    case Arr(items) => exists i :: 0 <= i < |items| && PyEq(items[i], expected)
    case _ => false
  }

  predicate CompareGt(parse: DecimalParser, actual: Json, expected: Json) {
    var left, right := AsDecimal(parse, actual), AsDecimal(parse, expected);
    left.Some? && right.Some? && left.value > right.value
  }

  /** Every comparator is false of a missing field. */
  predicate Compare(parse: DecimalParser, cmp: Comparator, actual: Option<Json>, expected: Json) {
    actual.Some? &&
    match cmp
    case Eq => CompareEq(parse, actual.value, expected)
    case Contains => CompareContains(actual.value, expected)
    case Gt => CompareGt(parse, actual.value, expected)
  }

  // ---- the evaluator -----------------------------------------------------------------

  datatype Reason =
    | AlwaysRequired | ConditionMet | ConditionUnmet | EmptyRule | AnySatisfied | AnyUnsatisfied
    | AllSatisfied | AllUnsatisfied | UnparseableRule

  datatype Outcome = Outcome(required: bool, reason: Reason, unparseable: bool)

  const UNPARSEABLE: Outcome := Outcome(false, UnparseableRule, true)

  function Evaluate(parse: DecimalParser, rule: Json, facts: Facts, depth: nat): Outcome
    decreases rule, 1
  {
    if depth > MAX_RULE_DEPTH then UNPARSEABLE
    else if !rule.Obj? then UNPARSEABLE
    else if rule.fields.Keys == {} then Outcome(false, EmptyRule, false)
    else if rule.fields.Keys == {"always"} then
      var operand := rule.fields["always"];
      if operand.Bool? then Outcome(operand.b, if operand.b then AlwaysRequired else EmptyRule, false) else UNPARSEABLE
    else if rule.fields.Keys == {"if"} then EvaluateCondition(parse, rule.fields["if"], facts)
    else if rule.fields.Keys == {"any"} && rule.fields["any"].Arr? then
      var outcomes := EvaluateBranches(parse, rule.fields["any"].items, facts, depth + 1);
      if exists i :: 0 <= i < |outcomes| && outcomes[i].unparseable then UNPARSEABLE
      else if exists i :: 0 <= i < |outcomes| && outcomes[i].required then Outcome(true, AnySatisfied, false)
      else Outcome(false, AnyUnsatisfied, false)
    else if rule.fields.Keys == {"all"} && rule.fields["all"].Arr? then
      var outcomes := EvaluateBranches(parse, rule.fields["all"].items, facts, depth + 1);
      if exists i :: 0 <= i < |outcomes| && outcomes[i].unparseable then UNPARSEABLE
      else if forall i :: 0 <= i < |outcomes| ==> outcomes[i].required then Outcome(true, AllSatisfied, false)
      else Outcome(false, AllUnsatisfied, false)
    else UNPARSEABLE
  }

  function EvaluateBranches(parse: DecimalParser, branches: seq<Json>, facts: Facts, depth: nat): (r: seq<Outcome>)
    ensures |r| == |branches|
    decreases branches, 0
  {
    if branches == [] then []
    else [Evaluate(parse, branches[0], facts, depth)] + EvaluateBranches(parse, branches[1..], facts, depth)
  }

  function ComparatorOf(operand: Json): Option<(Comparator, Json)> {
    if !operand.Obj? then None
    else if operand.fields.Keys == {"field", "eq"} then Some((Eq, operand.fields["eq"]))
    else if operand.fields.Keys == {"field", "contains"} then Some((Contains, operand.fields["contains"]))
    else if operand.fields.Keys == {"field", "gt"} then Some((Gt, operand.fields["gt"]))
    else None
  }

  function EvaluateCondition(parse: DecimalParser, operand: Json, facts: Facts): Outcome {
    var cmp := ComparatorOf(operand);
    if cmp.None? then UNPARSEABLE
    else
      var matched := Compare(parse, cmp.value.0, Resolve(facts, operand.fields["field"]), cmp.value.1);
      Outcome(matched, if matched then ConditionMet else ConditionUnmet, false)
  }

  // ---- the plain language of rules --------------------------------------------------

  datatype Rule =
    | Never
    | Always(b: bool)
    | If(field: Json, cmp: Comparator, expected: Json)
    | Any(rules: seq<Rule>)
    | All(rules: seq<Rule>)

  function Meaning(parse: DecimalParser, r: Rule, facts: Facts): bool
    decreases r
  {
    match r
    case Never => false
    case Always(b) => b
    case If(field, cmp, expected) => Compare(parse, cmp, Resolve(facts, field), expected)
    case Any(rules) => exists i :: 0 <= i < |rules| && Meaning(parse, rules[i], facts)
    case All(rules) => forall i :: 0 <= i < |rules| ==> Meaning(parse, rules[i], facts)
  }

  function ReasonFor(r: Rule, required: bool): Reason {
    match r
    case Never => EmptyRule
    case Always(_) => if required then AlwaysRequired else EmptyRule
    case If(_, _, _) => if required then ConditionMet else ConditionUnmet
    case Any(_) => if required then AnySatisfied else AnyUnsatisfied
    case All(_) => if required then AllSatisfied else AllUnsatisfied
  }

  /** The rule a catalog value denotes, if it denotes one. */
  function ReadRule(rule: Json, depth: nat): Option<Rule>
    decreases rule, 1
  {
    if depth > MAX_RULE_DEPTH || !rule.Obj? then None
    else if rule.fields.Keys == {} then Some(Never)
    else if rule.fields.Keys == {"always"} then
      if rule.fields["always"].Bool? then Some(Always(rule.fields["always"].b)) else None
    else if rule.fields.Keys == {"if"} then
      var cmp := ComparatorOf(rule.fields["if"]);
      if cmp.None? then None else Some(If(rule.fields["if"].fields["field"], cmp.value.0, cmp.value.1))
    else if rule.fields.Keys == {"any"} && rule.fields["any"].Arr? then
      var rules := ReadRules(rule.fields["any"].items, depth + 1);
      if rules.None? then None else Some(Any(rules.value))
    else if rule.fields.Keys == {"all"} && rule.fields["all"].Arr? then
      var rules := ReadRules(rule.fields["all"].items, depth + 1);
      if rules.None? then None else Some(All(rules.value))
    else None
  }

  function ReadRules(branches: seq<Json>, depth: nat): (r: Option<seq<Rule>>)
    ensures r.Some? ==> |r.value| == |branches|
    decreases branches, 0
  {
    if branches == [] then Some([])
    else
      var first, rest := ReadRule(branches[0], depth), ReadRules(branches[1..], depth);
      if first.None? || rest.None? then None else Some([first.value] + rest.value)
  }

  function OutcomeOf(parse: DecimalParser, rule: Option<Rule>, facts: Facts): Outcome {
    if rule.None? then UNPARSEABLE
    else
      var required := Meaning(parse, rule.value, facts);
      Outcome(required, ReasonFor(rule.value, required), false)
  }

  /** The evaluator computes the plain boolean meaning of every rule it can read, and
      says `unparseable` of exactly the rest: whether it does never depends on the facts. */
  lemma {:induction false} EvaluationIsMeaning(parse: DecimalParser, rule: Json, facts: Facts, depth: nat)
    ensures Evaluate(parse, rule, facts, depth) == OutcomeOf(parse, ReadRule(rule, depth), facts)
    decreases rule, 1
  {
    if depth <= MAX_RULE_DEPTH && rule.Obj? {
      if rule.fields.Keys == {"any"} && rule.fields["any"].Arr? {
        BranchesMean(parse, rule.fields["any"].items, facts, depth + 1);
      } else if rule.fields.Keys == {"all"} && rule.fields["all"].Arr? {
        BranchesMean(parse, rule.fields["all"].items, facts, depth + 1);
      }
    }
  }

  lemma {:induction false} BranchesMean(parse: DecimalParser, branches: seq<Json>, facts: Facts, depth: nat)
    ensures var outcomes, rules := EvaluateBranches(parse, branches, facts, depth), ReadRules(branches, depth);
            && (rules.None? <==> exists i :: 0 <= i < |outcomes| && outcomes[i].unparseable)
            && (rules.Some? ==> forall i :: 0 <= i < |branches| ==>
                  outcomes[i].required == Meaning(parse, rules.value[i], facts))
    decreases branches, 0
  {
    if branches != [] {
      EvaluationIsMeaning(parse, branches[0], facts, depth);
      BranchesMean(parse, branches[1..], facts, depth);
      var outcomes := EvaluateBranches(parse, branches, facts, depth);
      var rest := EvaluateBranches(parse, branches[1..], facts, depth);
      assert outcomes[0] == Evaluate(parse, branches[0], facts, depth);
      assert forall i :: 0 < i < |outcomes| ==> outcomes[i] == rest[i - 1];
      if i :| 0 <= i < |rest| && rest[i].unparseable {
        assert outcomes[i + 1].unparseable;
      }
    }
  }

  // ---- writing a rule and reading it back ---------------------------------------------

  function ComparatorKey(cmp: Comparator): string {
    match cmp
    case Eq => "eq"
    case Contains => "contains"
    case Gt => "gt"
  }

  function WriteRule(r: Rule): Json
    decreases r, 1
  {
    match r
    case Never => Obj(map[])
    case Always(b) => Obj(map["always" := Bool(b)])
    case If(field, cmp, expected) => Obj(map["if" := Obj(map["field" := field, ComparatorKey(cmp) := expected])])
    case Any(rules) => Obj(map["any" := Arr(WriteRules(rules))])
    case All(rules) => Obj(map["all" := Arr(WriteRules(rules))])
  }

  function WriteRules(rules: seq<Rule>): (r: seq<Json>)
    ensures |r| == |rules|
    decreases rules, 0
  {
    if rules == [] then [] else [WriteRule(rules[0])] + WriteRules(rules[1..])
  }

  /** No branch nests beyond the depth limit, counting from `depth`. */
  predicate Fits(r: Rule, depth: nat)
    decreases r
  {
    && depth <= MAX_RULE_DEPTH
    && match r
       case Any(rules) => forall i :: 0 <= i < |rules| ==> Fits(rules[i], depth + 1)
       case All(rules) => forall i :: 0 <= i < |rules| ==> Fits(rules[i], depth + 1)
       case _ => true
  }

  /** Every rule within the depth limit is read back from what it is written as. */
  lemma {:induction false} WrittenRuleReads(r: Rule, depth: nat)
    requires Fits(r, depth)
    ensures ReadRule(WriteRule(r), depth) == Some(r)
    decreases r, 1
  {
    match r
    case Never =>
    case Always(b) =>
      assert WriteRule(r).fields.Keys == {"always"};
    case If(field, cmp, expected) =>
      assert WriteRule(r).fields.Keys == {"if"};
    case Any(rules) =>
      assert WriteRule(r).fields.Keys == {"any"};
      WrittenRulesRead(rules, depth + 1);
    case All(rules) =>
      assert WriteRule(r).fields.Keys == {"all"};
      WrittenRulesRead(rules, depth + 1);
  }

  lemma ReadRulesOneMore(first: Json, rest: seq<Json>, depth: nat)
    requires ReadRule(first, depth).Some? && ReadRules(rest, depth).Some?
    ensures ReadRules([first] + rest, depth) == Some([ReadRule(first, depth).value] + ReadRules(rest, depth).value)
  {
    assert ([first] + rest)[1..] == rest;
  }

  lemma {:induction false} WrittenRulesRead(rules: seq<Rule>, depth: nat)
    requires forall i :: 0 <= i < |rules| ==> Fits(rules[i], depth)
    ensures ReadRules(WriteRules(rules), depth) == Some(rules)
    decreases rules, 0
  {
    if rules != [] {
      WrittenRuleReads(rules[0], depth);
      WrittenRulesRead(rules[1..], depth);
      ReadRulesOneMore(WriteRule(rules[0]), WriteRules(rules[1..]), depth);
      assert rules == [rules[0]] + rules[1..];
    }
  }

  /** And only that value reads as that rule: reading and writing are inverse. */
  lemma {:induction false} ReadRuleWrites(rule: Json, depth: nat)
    requires ReadRule(rule, depth).Some?
    ensures WriteRule(ReadRule(rule, depth).value) == rule && Fits(ReadRule(rule, depth).value, depth)
    decreases rule, 1
  {
    var keys := rule.fields.Keys;
    if keys == {} {
      assert rule.fields == map[];
    } else if keys == {"always"} {
      assert rule.fields == map["always" := rule.fields["always"]];
    } else if keys == {"if"} {
      ReadConditionWrites(rule.fields["if"]);
      assert rule.fields == map["if" := rule.fields["if"]];
    } else if keys == {"any"} {
      ReadRulesWrite(rule.fields["any"].items, depth + 1);
      assert rule.fields == map["any" := rule.fields["any"]];
    } else {
      ReadRulesWrite(rule.fields["all"].items, depth + 1);
      assert rule.fields == map["all" := rule.fields["all"]];
    }
  }

  lemma ReadConditionWrites(operand: Json)
    requires ComparatorOf(operand).Some?
    ensures var (cmp, expected) := ComparatorOf(operand).value;
            operand == Obj(map["field" := operand.fields["field"], ComparatorKey(cmp) := expected])
  {
    var (cmp, expected) := ComparatorOf(operand).value;
    assert operand.fields == map["field" := operand.fields["field"], ComparatorKey(cmp) := expected];
  }

  lemma {:induction false} ReadRulesWrite(branches: seq<Json>, depth: nat)
    requires ReadRules(branches, depth).Some?
    ensures var rules := ReadRules(branches, depth).value;
            WriteRules(rules) == branches && forall i :: 0 <= i < |rules| ==> Fits(rules[i], depth)
    decreases branches, 0
  {
    if branches != [] {
      ReadRuleWrites(branches[0], depth);
      ReadRulesWrite(branches[1..], depth);
      var rules := ReadRules(branches, depth).value;
      assert rules[1..] == ReadRules(branches[1..], depth).value;
      assert forall i :: 0 < i < |rules| ==> rules[i] == rules[1..][i - 1];
    }
  }

  // ---- the validator ---------------------------------------------------------------------

  datatype RuleError =
    | NestedTooDeep | NotAnObject | RuleIsEmpty | NotOneOperator | UnknownOperator | AlwaysTakesABool
    | IfTakesAnObject | IfNeedsAField | IfNeedsOneComparator | UnknownComparator | TakesAList | NoBranches

  function ValidateCondition(operand: Json): Option<RuleError> {
    if !operand.Obj? then Some(IfTakesAnObject)
    else if "field" !in operand.fields || !operand.fields["field"].Str? then Some(IfNeedsAField)
    else
      var comparators := operand.fields.Keys - {"field"};
      if |comparators| != 1 then Some(IfNeedsOneComparator)
      else if comparators != {"eq"} && comparators != {"contains"} && comparators != {"gt"} then Some(UnknownComparator)
      else None
  }

  /** The first complaint about a rule, or `None` when it is accepted. */
  function Validate(rule: Json, depth: nat): Option<RuleError>
    decreases rule, 1
  {
    if depth > MAX_RULE_DEPTH then Some(NestedTooDeep)
    else if !rule.Obj? then Some(NotAnObject)
    else if |rule.fields.Keys| == 0 then Some(RuleIsEmpty)
    else if |rule.fields.Keys| != 1 then Some(NotOneOperator)
    else if "always" in rule.fields then
      if rule.fields["always"].Bool? then None else Some(AlwaysTakesABool)
    else if "if" in rule.fields then ValidateCondition(rule.fields["if"])
    else if "any" in rule.fields || "all" in rule.fields then
      var operand := if "any" in rule.fields then rule.fields["any"] else rule.fields["all"];
      if !operand.Arr? then Some(TakesAList)
      else if operand.items == [] then Some(NoBranches)
      else ValidateAll(operand.items, depth + 1)
    else Some(UnknownOperator)
  }

  function ValidateAll(branches: seq<Json>, depth: nat): Option<RuleError>
    decreases branches, 0
  {
    if branches == [] then None
    else
      var first := Validate(branches[0], depth);
      if first.Some? then first else ValidateAll(branches[1..], depth)
  }

  /** Strict rules: no empty rule, no empty junction, and a named field in each condition. */
  predicate Strict(r: Rule)
    decreases r
  {
    match r
    case Never => false
    case Always(_) => true
    case If(field, _, _) => field.Str?
    case Any(rules) => rules != [] && forall r' :: r' in rules ==> Strict(r')
    case All(rules) => rules != [] && forall r' :: r' in rules ==> Strict(r')
  }

  lemma SingleKey(keys: set<string>, k: string)
    requires k in keys
    ensures |keys| == 1 <==> keys == {k}
  {
    if |keys| == 1 {
      SubsetSize({k}, keys);
    }
  }

  lemma ValidConditionIsStrict(operand: Json)
    ensures ValidateCondition(operand).None? <==> ComparatorOf(operand).Some? && operand.fields["field"].Str?
  {
    if operand.Obj? && "field" in operand.fields {
      var keys := operand.fields.Keys;
      assert keys == {"field"} + (keys - {"field"});
      forall c: string | c in ["eq", "contains", "gt"] ensures keys == {"field", c} <==> keys - {"field"} == {c} {
      }
    }
  }

  /** The validator accepts exactly the strict rules the evaluator can read. */
  lemma {:induction false} ValidIsStrict(rule: Json, depth: nat)
    ensures Validate(rule, depth).None? <==> ReadRule(rule, depth).Some? && Strict(ReadRule(rule, depth).value)
    decreases rule, 1
  {
    if depth <= MAX_RULE_DEPTH && rule.Obj? {
      var keys := rule.fields.Keys;
      if "always" in keys {
        SingleKey(keys, "always");
      } else if "if" in keys {
        SingleKey(keys, "if");
        ValidConditionIsStrict(rule.fields["if"]);
      } else if "any" in keys {
        SingleKey(keys, "any");
        if rule.fields["any"].Arr? {
          ValidBranchesAreStrict(rule.fields["any"].items, depth + 1);
        }
      } else if "all" in keys {
        SingleKey(keys, "all");
        if rule.fields["all"].Arr? {
          ValidBranchesAreStrict(rule.fields["all"].items, depth + 1);
        }
      }
    }
  }

  lemma {:induction false} ValidBranchesAreStrict(branches: seq<Json>, depth: nat)
    ensures ValidateAll(branches, depth).None? <==>
              && ReadRules(branches, depth).Some?
              && forall r :: r in ReadRules(branches, depth).value ==> Strict(r)
    decreases branches, 0
  {
    if branches != [] {
      ValidIsStrict(branches[0], depth);
      ValidBranchesAreStrict(branches[1..], depth);
      if ReadRules(branches, depth).Some? {
        var rules, rest := ReadRules(branches, depth).value, ReadRules(branches[1..], depth).value;
        assert rules == [ReadRule(branches[0], depth).value] + rest;
        assert forall r :: r in rules <==> r == rules[0] || r in rest;
      }
    }
  }

  /** A rule accepted at authoring time never turns unparseable, whatever the facts. */
  lemma AcceptedRulesEvaluate(parse: DecimalParser, rule: Json, facts: Facts)
    requires Validate(rule, 0).None?
    ensures ReadRule(rule, 0).Some?
    ensures var outcome := Evaluate(parse, rule, facts, 0);
            !outcome.unparseable && outcome.required == Meaning(parse, ReadRule(rule, 0).value, facts)
  {
    ValidIsStrict(rule, 0);
    EvaluationIsMeaning(parse, rule, facts, 0);
  }
}
