/** What the operators and comparators of a requirement rule decide, case by case. */
module RuleLaws {
  import opened Collections
  import opened JsonValues
  import opened RuleGrammar

  // ---- equality inside lists and objects ----------------------------------------------------

  /** A value with its truth values written as the numbers 1 and 0. */
  function Plain(v: Json): Json
    decreases v
  {
    match v
    case Bool(b) => Num(if b then 1.0 else 0.0)
    case Arr(items) => Arr(seq(|items|, i requires 0 <= i < |items| => Plain(items[i])))
    case Obj(fields) => Obj(map k | k in fields :: Plain(fields[k]))
    case _ => v
  }

  /** Python takes two values for equal exactly when they are the same once their truth values
      are written as numbers, at any depth. */
  lemma {:induction false} PyEqIsPlainEquality(a: Json, b: Json)
    ensures PyEq(a, b) <==> Plain(a) == Plain(b)
    decreases a
  {
    if a.Arr? && b.Arr? {
      var p, q := Plain(a).items, Plain(b).items;
      if |p| == |q| {
        forall i | 0 <= i < |p| ensures PyEq(a.items[i], b.items[i]) <==> p[i] == q[i] {
          PyEqIsPlainEquality(a.items[i], b.items[i]);
        }
      }
    } else if a.Obj? && b.Obj? {
      var p, q := Plain(a).fields, Plain(b).fields;
      assert p.Keys == a.fields.Keys && q.Keys == b.fields.Keys;
      if p.Keys == q.Keys {
        forall k | k in p ensures PyEq(a.fields[k], b.fields[k]) <==> p[k] == q[k] {
          PyEqIsPlainEquality(a.fields[k], b.fields[k]);
        }
      }
    }
  }

  // ---- comparators ---------------------------------------------------------------------------

  /** The amount a number or a money string stands for; nothing else stands for one. */
  ghost predicate Stands(parse: DecimalParser, v: Json, amount: real) {
    (v.Num? && v.n == amount) || (v.Str? && parse(v.s) == Some(amount))
  }

  /** `gt` holds exactly between two amounts, of which the field's is the greater: never of a
      missing field, a truth value, a null, a list, an object or a text that is no amount. */
  lemma GtDecides(parse: DecimalParser, actual: Option<Json>, expected: Json)
    ensures Compare(parse, Gt, actual, expected) <==>
              actual.Some? && exists x, y :: Stands(parse, actual.value, x) && Stands(parse, expected, y) && x > y
  {
    if Compare(parse, Gt, actual, expected) {
      var x, y := AsDecimal(parse, actual.value).value, AsDecimal(parse, expected).value;
      assert Stands(parse, actual.value, x) && Stands(parse, expected, y);
    }
  }

  /** `eq` compares amounts by their value, so that "250.00" is 250; a truth value equals itself
      alone and never a number; anything else is compared as it is. It is false of a missing
      field, and true of a null that is there when null is expected. */
  lemma EqDecides(parse: DecimalParser, actual: Json, expected: Json)
    ensures !Compare(parse, Eq, None, expected)
    ensures actual.Bool? || expected.Bool? ==> (Compare(parse, Eq, Some(actual), expected) <==> actual == expected)
    ensures forall x, y :: Stands(parse, actual, x) && Stands(parse, expected, y) ==>
              (Compare(parse, Eq, Some(actual), expected) <==> x == y)
    ensures !actual.Bool? && !expected.Bool?
            && ((forall x :: !Stands(parse, actual, x)) || (forall y :: !Stands(parse, expected, y))) ==>
              (Compare(parse, Eq, Some(actual), expected) <==> Plain(actual) == Plain(expected))
  {
    PyEqIsPlainEquality(actual, expected);
    var left, right := AsDecimal(parse, actual), AsDecimal(parse, expected);
    if left.Some? {
      assert Stands(parse, actual, left.value);
    }
    if right.Some? {
      assert Stands(parse, expected, right.value);
    }
  }

  /** `contains` looks for a text inside a text, or for a value among a list's; it is false of
      anything else, and of a missing field. */
  lemma ContainsDecides(parse: DecimalParser, actual: Option<Json>, expected: Json)
    ensures Compare(parse, Contains, actual, expected) <==>
              && actual.Some?
              && (|| (actual.value.Str? && expected.Str?
                      && exists before, after :: actual.value.s == before + expected.s + after)
                  || (actual.value.Arr? && exists x :: x in actual.value.items && Plain(x) == Plain(expected)))
  {
    if actual.Some? && actual.value.Str? && expected.Str? {
      SubstringIsInside(expected.s, actual.value.s);
    } else if actual.Some? && actual.value.Arr? {
      forall x | x in actual.value.items ensures PyEq(x, expected) <==> Plain(x) == Plain(expected) {
        PyEqIsPlainEquality(x, expected);
      }
      if i :| 0 <= i < |actual.value.items| && PyEq(actual.value.items[i], expected) {
        assert actual.value.items[i] in actual.value.items;
      }
    }
  }

  lemma SubstringIsInside(part: string, whole: string)
    ensures Substring(part, whole) <==> exists before, after :: whole == before + part + after
  {
    if i :| 0 <= i <= |whole| && part <= whole[i..] {
      assert whole == whole[..i] + part + whole[i + |part|..];
    }
    if before, after :| whole == before + part + after {
      assert whole[|before|..] == part + after;
    }
  }

  // ---- operators ------------------------------------------------------------------------------

  lemma AlwaysDecides(parse: DecimalParser, operand: Json, facts: Facts)
    ensures Evaluate(parse, Obj(map[]), facts, 0) == Outcome(false, EmptyRule, false)
    ensures var outcome := Evaluate(parse, Obj(map["always" := operand]), facts, 0);
            && (outcome.unparseable <==> !operand.Bool?)
            && (outcome.required <==> operand == Bool(true))
            && outcome.reason == if outcome.unparseable then UnparseableRule
                                 else if outcome.required then AlwaysRequired else EmptyRule
  {
    assert Obj(map["always" := operand]).fields.Keys == {"always"};
  }

  /** A condition holds when its one comparator does, of the field it names. */
  lemma IfDecides(parse: DecimalParser, field: Json, cmp: Comparator, expected: Json, facts: Facts)
    ensures var name := match cmp case Eq => "eq" case Contains => "contains" case Gt => "gt";
            var rule := Obj(map["if" := Obj(map["field" := field, name := expected])]);
            var outcome := Evaluate(parse, rule, facts, 0);
            && !outcome.unparseable && (outcome.required <==> Compare(parse, cmp, Resolve(facts, field), expected))
            && outcome.reason == if outcome.required then ConditionMet else ConditionUnmet
  {
    var name := match cmp case Eq => "eq" case Contains => "contains" case Gt => "gt";
    var operand := Obj(map["field" := field, name := expected]);
    assert operand.fields.Keys == {"field", name};
    assert Obj(map["if" := operand]).fields.Keys == {"if"};
  }

  /** `any` requires what some branch requires, so nothing when there is none; it cannot be read as
      soon as one branch cannot. */
  lemma AnyDecides(parse: DecimalParser, branches: seq<Json>, facts: Facts, depth: nat)
    requires depth <= 8
    ensures var outcome := Evaluate(parse, Obj(map["any" := Arr(branches)]), facts, depth);
            && (outcome.unparseable <==>
                  exists b :: b in branches && Evaluate(parse, b, facts, depth + 1).unparseable)
            && (outcome.required <==>
                  !outcome.unparseable && exists b :: b in branches && Evaluate(parse, b, facts, depth + 1).required)
            && outcome.reason == if outcome.unparseable then UnparseableRule
                                 else if outcome.required then AnySatisfied else AnyUnsatisfied
  {
    assert Obj(map["any" := Arr(branches)]).fields.Keys == {"any"};
    BranchesAreEvaluated(parse, branches, facts, depth + 1);
  }

  /** `all` requires what every branch requires, so it does require when there is none; it cannot be
      read as soon as one branch cannot. */
  lemma AllDecides(parse: DecimalParser, branches: seq<Json>, facts: Facts, depth: nat)
    requires depth <= 8
    ensures var outcome := Evaluate(parse, Obj(map["all" := Arr(branches)]), facts, depth);
            && (outcome.unparseable <==>
                  exists b :: b in branches && Evaluate(parse, b, facts, depth + 1).unparseable)
            && (outcome.required <==>
                  !outcome.unparseable && forall b :: b in branches ==> Evaluate(parse, b, facts, depth + 1).required)
            && outcome.reason == if outcome.unparseable then UnparseableRule
                                 else if outcome.required then AllSatisfied else AllUnsatisfied
  {
    assert Obj(map["all" := Arr(branches)]).fields.Keys == {"all"};
    BranchesAreEvaluated(parse, branches, facts, depth + 1);
  }

  lemma BranchesAreEvaluated(parse: DecimalParser, branches: seq<Json>, facts: Facts, depth: nat)
    ensures var outcomes := EvaluateBranches(parse, branches, facts, depth);
            && ((exists i :: 0 <= i < |outcomes| && outcomes[i].unparseable)
                <==> exists b :: b in branches && Evaluate(parse, b, facts, depth).unparseable)
            && ((exists i :: 0 <= i < |outcomes| && outcomes[i].required)
                <==> exists b :: b in branches && Evaluate(parse, b, facts, depth).required)
            && ((forall i :: 0 <= i < |outcomes| ==> outcomes[i].required)
                <==> forall b :: b in branches ==> Evaluate(parse, b, facts, depth).required)
  {
    var outcomes := EvaluateBranches(parse, branches, facts, depth);
    if i :| 0 <= i < |outcomes| && outcomes[i].unparseable {
      BranchIsEvaluated(parse, branches, facts, depth, i);
      assert branches[i] in branches;
    }
    if i :| 0 <= i < |outcomes| && outcomes[i].required {
      BranchIsEvaluated(parse, branches, facts, depth, i);
      assert branches[i] in branches;
    }
    forall b | b in branches ensures Evaluate(parse, b, facts, depth) in outcomes {
      var i :| 0 <= i < |branches| && branches[i] == b;
      BranchIsEvaluated(parse, branches, facts, depth, i);
      assert outcomes[i] in outcomes;
    }
    if i :| 0 <= i < |outcomes| && !outcomes[i].required {
      BranchIsEvaluated(parse, branches, facts, depth, i);
      assert branches[i] in branches;
    }
  }

  lemma {:induction false} BranchIsEvaluated(
    parse: DecimalParser, branches: seq<Json>, facts: Facts, depth: nat, i: nat)
    requires i < |branches|
    ensures EvaluateBranches(parse, branches, facts, depth)[i] == Evaluate(parse, branches[i], facts, depth)
    decreases i
  {
    if i > 0 {
      BranchIsEvaluated(parse, branches[1..], facts, depth, i - 1);
    }
  }

  /** Beyond eight levels nothing is read. */
  lemma TooDeepIsUnparseable(parse: DecimalParser, rule: Json, facts: Facts, depth: nat)
    requires depth > 8
    ensures Evaluate(parse, rule, facts, depth).unparseable && !Evaluate(parse, rule, facts, depth).required
  {
  }
}
